/** One pooled connection (sync/thrift_pool.h). What the network answers is a parameter. */
module ThriftConnections {

  datatype Status = Closed | Connected

  type Address = (string, int)

  class ThriftConnection {
    const address: Address
    var status: Status
    var inUse: bool
    var transportOpen: bool

    predicate IsOpen()
      reads this
    {
      status == Connected && transportOpen
    }

    constructor (address: Address, answers: bool)
      ensures this.address == address && !inUse && IsOpen() == answers
    {
      this.address := address;
      status, inUse, transportOpen := Closed, false, false;
      new;
      var connected := Connect(answers);
    }

    method Connect(answers: bool) returns (connected: bool)
      modifies this`status, this`transportOpen
      ensures connected == answers == IsOpen()
    {
      Close();
      transportOpen := answers;
      if !answers {
        status := Closed;
        return false;
      }
      status := Connected;
      return true;
    }

    /** connect if needed */
    method Reconnect(answers: bool)
      modifies this`status, this`transportOpen
      ensures IsOpen() == (old(IsOpen()) || answers)
    {
      if !IsOpen() {
        var connected := Connect(answers);
      }
    }

    method Close()
      modifies this`status, this`transportOpen
      ensures status == Closed && transportOpen == (old(transportOpen) && old(status) == Closed)
    {
      if status == Connected {
        transportOpen := false;
        status := Closed;
      }
    }

    /** Takes the connection for one caller; fails if it is taken or not open. */
    method Get() returns (taken: bool)
      modifies this`inUse
      ensures taken == old(IsOpen() && !inUse) && inUse == (old(inUse) || taken)
    {
      taken := IsOpen() && !inUse;
      if taken {
        inUse := true;
      }
    }

    method Put()
      requires inUse
      modifies this`inUse
      ensures !inUse
    {
      inUse := false;
    }
  }
}
