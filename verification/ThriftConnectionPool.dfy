/** The pool of connections to one server (sync/thrift_pool.h), its operations run one at a
    time. PoolInterleaving.dfy takes the same lock sections apart for concurrent threads. */
module ThriftConnectionPools {
  import opened ThriftConnections

  /** What a getStatus call on a connection brings back. */
  datatype Reply = Alive | NotAlive | Throws

  function Max(a: int, b: int): int {
    if a >= b then a else b
  }

  /** One connection was opened or tried: a closed one moved or stayed, or else one was made. */
  ghost predicate Moved<T>(free: set<T>, closed: set<T>, free': set<T>, closed': set<T>, connected: bool) {
    && |free'| == |free| + (if connected then 1 else 0)
    && |free'| + |closed'| == |free| + |closed| + if closed == {} then 1 else 0
  }

  lemma MovedAfter<T>(free: set<T>, closed: set<T>, c: T, connected: bool)
    requires free !! closed && c !in free && (closed != {} ==> c in closed)
    ensures Moved(free, closed,
                  if connected then free + {c} else free,
                  if connected then closed - {c} else closed - {c} + {c}, connected)
  {
  }

  /** What `count` rounds of Moved come to. */
  predicate Grown(free: nat, closed: nat, free': nat, closed': nat, count: nat) {
    && free <= free' <= free + count
    && free + closed <= free' + closed'
    && (free' + closed' == free + closed || free' + closed' <= free + count)
  }

  /** The n-th connect attempt of a call succeeds. */
  type Network = nat -> bool

  ghost predicate AllAnswer(network: Network) {
    forall i :: network(i)
  }

  class ThriftConnectionPool {
    const address: Address
    const minFree: nat
    const maxConn: nat
    var status: Status
    var freeConns: set<ThriftConnection>
    var allocatedConns: set<ThriftConnection>
    var closedConns: set<ThriftConnection>
    /** The quick status probes that close has scheduled. */
    var quickUpdates: nat

    ghost function Connections(): set<ThriftConnection>
      reads this
    {
      freeConns + allocatedConns + closedConns
    }

    function Total(): nat
      reads this
    {
      |freeConns| + |allocatedConns| + |closedConns|
    }

    /** The invariant while the running operation holds `hand`, in none of the sets. */
    ghost predicate Holding(hand: set<ThriftConnection>)
      reads this, Connections(), hand
    {
      && freeConns !! allocatedConns !! closedConns !! hand
      && (forall c <- freeConns :: c.IsOpen() && !c.inUse)
      && (forall c <- allocatedConns :: c.inUse)
      && (forall c <- closedConns :: !c.IsOpen() && !c.inUse)
    }

    ghost predicate Valid()
      reads this, Connections()
    {
      Holding({})
    }

    constructor (address: Address, minFree: nat, maxConn: nat, network: Network)
      ensures Valid() && fresh(Connections()) && allocatedConns == {} && status == Closed
      ensures this.address == address && this.minFree == minFree && this.maxConn == maxConn
      ensures closedConns == {} <==> forall i :: 0 <= i < minFree ==> network(i)
    {
      this.address, this.minFree, this.maxConn := address, minFree, maxConn;
      status, quickUpdates := Closed, 0;
      freeConns, allocatedConns, closedConns := {}, {}, {};
      new;
      Init(network);
    }

    /** inner_init: opens up to min_free_conn connections and stops at the first that fails. */
    method Init(network: Network)
      requires Valid() && Connections() == {}
      modifies this`freeConns, this`closedConns
      ensures Valid() && fresh(freeConns + closedConns) && allocatedConns == {}
      ensures closedConns == {} <==> forall i :: 0 <= i < minFree ==> network(i)
      ensures closedConns == {} ==> |freeConns| == minFree
    {
      var i := 0;
      while i < minFree && closedConns == {}
        invariant 0 <= i <= minFree
        invariant Valid() && fresh(freeConns + closedConns)
        invariant closedConns == {} <==> forall k :: 0 <= k < i ==> network(k)
        invariant closedConns == {} ==> |freeConns| == i
      {
        CreateOneFree(network(i));
        i := i + 1;
      }
    }

    // ----- the lock sections -----

    method TakeFree() returns (c: ThriftConnection)
      requires Valid() && freeConns != {}
      modifies this`freeConns
      ensures Holding({c}) && c in old(freeConns) && freeConns == old(freeConns) - {c}
    {
      c :| c in freeConns;
      freeConns := freeConns - {c};
    }

    method TakeClosed() returns (c: ThriftConnection)
      requires Valid() && closedConns != {}
      modifies this`closedConns
      ensures Holding({c}) && c in old(closedConns) && closedConns == old(closedConns) - {c}
    {
      c :| c in closedConns;
      closedConns := closedConns - {c};
    }

    method InsertFree(c: ThriftConnection)
      requires Holding({c}) && c.IsOpen() && !c.inUse
      modifies this`freeConns
      ensures Valid() && freeConns == old(freeConns) + {c}
    {
      freeConns := freeConns + {c};
    }

    method InsertClosed(c: ThriftConnection)
      requires Holding({c}) && !c.IsOpen() && !c.inUse
      modifies this`closedConns
      ensures Valid() && closedConns == old(closedConns) + {c}
    {
      closedConns := closedConns + {c};
    }

    method InsertAllocated(c: ThriftConnection)
      requires Holding({c}) && c.inUse
      modifies this`allocatedConns
      ensures Valid() && allocatedConns == old(allocatedConns) + {c}
    {
      allocatedConns := allocatedConns + {c};
    }

    method EraseAllocated(c: ThriftConnection)
      requires Valid() && c in allocatedConns
      modifies this`allocatedConns
      ensures Holding({c}) && allocatedConns == old(allocatedConns) - {c}
    {
      allocatedConns := allocatedConns - {c};
    }

    // ----- the operations -----

    /** create_connection: reuses a closed connection if there is one. */
    method CreateConnection(answers: bool) returns (c: ThriftConnection)
      requires Valid()
      modifies this`closedConns, closedConns
      ensures Holding({c}) && c.IsOpen() == answers && !c.inUse
      ensures closedConns == old(closedConns) - {c}
      ensures if old(closedConns) != {} then c in old(closedConns) else fresh(c)
    {
      if closedConns != {} {
        c := TakeClosed();
        var connected := c.Connect(answers);
      } else {
        c := new ThriftConnection(address, answers);
      }
    }

    method PutConnection(c: ThriftConnection)
      requires Holding({c}) && !c.inUse
      modifies this`freeConns, this`closedConns
      ensures Valid()
      ensures freeConns == if c.IsOpen() then old(freeConns) + {c} else old(freeConns)
      ensures closedConns == if c.IsOpen() then old(closedConns) else old(closedConns) + {c}
    {
      if c.IsOpen() {
        InsertFree(c);
      } else {
        InsertClosed(c);
      }
    }

    method DestroyConnection(c: ThriftConnection)
      requires Holding({c}) && !c.inUse
      modifies c`status, c`transportOpen
      ensures Valid() && !c.IsOpen()
    {
      c.Close();
    }

    /** The opening of get, update_status and quick_update_status: one free connection, or one
        from create_connection. */
    method TakeConnection(answers: bool) returns (c: ThriftConnection)
      requires Valid()
      modifies this`freeConns, this`closedConns, closedConns
      ensures Holding({c}) && !c.inUse && c.IsOpen() == (old(freeConns) != {} || answers)
      ensures freeConns == old(freeConns) - {c} && closedConns == old(closedConns) - {c}
      ensures if old(freeConns) != {} then c in old(freeConns)
              else if old(closedConns) != {} then c in old(closedConns) else fresh(c)
    {
      if freeConns != {} {
        c := TakeFree();
      } else {
        c := CreateConnection(answers);
      }
    }

    /** The end of get: marks the connection and records it, or puts it back. */
    method HandOut(client: ThriftConnection) returns (c: ThriftConnection?)
      requires Holding({client}) && !client.inUse
      modifies this`allocatedConns, this`freeConns, this`closedConns, client`inUse
      ensures Valid() && c == (if client.IsOpen() then client else null) && client.inUse == client.IsOpen()
      ensures freeConns == old(freeConns)
      ensures allocatedConns == if client.IsOpen() then old(allocatedConns) + {client} else old(allocatedConns)
      ensures closedConns == if client.IsOpen() then old(closedConns) else old(closedConns) + {client}
    {
      var taken := client.Get();
      if taken {
        InsertAllocated(client);
        c := client;
      } else {
        PutConnection(client);
        c := null;
      }
    }

    /** A connection nobody else has, open and marked in use; none only when no free one was
        there and the new or reopened one did not connect. */
    method Get(answers: bool) returns (c: ThriftConnection?)
      requires Valid()
      modifies this`freeConns, this`allocatedConns, this`closedConns, freeConns, closedConns
      ensures Valid() && (c == null <==> old(freeConns) == {} && !answers)
      ensures c != null ==> c.IsOpen() && c.inUse && c !in old(allocatedConns)
      ensures allocatedConns == if c == null then old(allocatedConns) else old(allocatedConns) + {c}
      ensures c != null ==> freeConns == old(freeConns) - {c} && closedConns == old(closedConns) - {c}
      ensures c == null ==> freeConns == {} && (old(closedConns) != {} ==> closedConns == old(closedConns))
      ensures fresh(Connections() - old(Connections()))
    {
      var client := TakeConnection(answers);
      c := HandOut(client);
    }

    /** Gives a connection back: to the free ones if it is still open, else to the closed. */
    method Put(c: ThriftConnection)
      requires Valid() && c in allocatedConns
      modifies this`freeConns, this`allocatedConns, this`closedConns, c`inUse
      ensures Valid() && !c.inUse && allocatedConns == old(allocatedConns) - {c}
      ensures freeConns == if c.IsOpen() then old(freeConns) + {c} else old(freeConns)
      ensures closedConns == if c.IsOpen() then old(closedConns) else old(closedConns) + {c}
    {
      EraseAllocated(c);
      c.Put();
      PutConnection(c);
    }

    /** The user's close: the connection stays allocated until it is put back, and the server is
        to be asked at once whether it is alive. */
    method Close(c: ThriftConnection)
      requires Valid() && c in allocatedConns
      modifies c`status, c`transportOpen, this`quickUpdates
      ensures Valid() && !c.IsOpen() && quickUpdates == old(quickUpdates) + 1
    {
      c.Close();
      quickUpdates := quickUpdates + 1;
    }

    // ----- the probe and reclaim jobs -----

    /** One connection is asked up to `tries` times whether the server is alive; only one that
        is still open is asked, and an exception closes it. */
    method Probe(c: ThriftConnection, replies: nat -> Reply, tries: nat) returns (alive: bool)
      modifies c`status, c`transportOpen
      ensures alive == (old(c.IsOpen()) && AliveWithin(replies, tries))
      ensures c.IsOpen() == (old(c.IsOpen()) && (alive || forall i :: 0 <= i < tries ==> replies(i) == NotAlive))
    {
      alive := false;
      var i := 0;
      while i < tries && !alive
        invariant 0 <= i <= tries
        invariant !alive && c.IsOpen() ==> old(c.IsOpen()) && forall k :: 0 <= k < i ==> replies(k) == NotAlive
        invariant !c.IsOpen() ==> !alive && (old(c.IsOpen()) ==> ThrowsFirst(replies, i))
        invariant alive ==> old(c.IsOpen()) && c.IsOpen() && AliveWithin(replies, i)
        decreases tries - i, !alive
      {
        if c.IsOpen() {
          match replies(i) {
            case Alive => alive := true;
            case NotAlive =>
            case Throws => c.Close();
          }
        }
        i := i + 1;
      }
    }

    /** update_status: asks three times, once if the server was already taken for dead. No
        connection is lost and no allocated one is touched. */
    method UpdateStatus(answers: bool, replies: nat -> Reply)
      requires Valid()
      modifies this`freeConns, this`closedConns, this`status, freeConns, closedConns
      ensures Valid() && allocatedConns == old(allocatedConns)
      ensures old(freeConns + closedConns) <= freeConns + closedConns != {}
      ensures fresh(freeConns + closedConns - old(freeConns + closedConns))
      ensures status == Connected <==>
        (old(freeConns) != {} || answers) && AliveWithin(replies, if old(status) == Closed then 1 else 3)
    {
      var client := TakeConnection(answers);
      var tries := if status == Closed then 1 else 3;
      var alive := Probe(client, replies, tries);
      PutConnection(client);
      status := if alive then Connected else Closed;
    }

    /** quick_update_status, scheduled by close: asks once. */
    method QuickUpdateStatus(answers: bool, replies: nat -> Reply)
      requires Valid() && quickUpdates > 0
      modifies this`freeConns, this`closedConns, this`status, this`quickUpdates, freeConns, closedConns
      ensures Valid() && allocatedConns == old(allocatedConns) && quickUpdates == old(quickUpdates) - 1
      ensures old(freeConns + closedConns) <= freeConns + closedConns != {}
      ensures fresh(freeConns + closedConns - old(freeConns + closedConns))
      ensures status == Connected <==> (old(freeConns) != {} || answers) && replies(0) == Alive
    {
      quickUpdates := quickUpdates - 1;
      var client := TakeConnection(answers);
      var alive := Probe(client, replies, 1);
      PutConnection(client);
      status := if alive then Connected else Closed;
    }

    /** create_connection and put_connection in a row. */
    method CreateAndPut(answers: bool) returns (c: ThriftConnection)
      requires Valid()
      modifies this`freeConns, this`closedConns, closedConns
      ensures Valid() && c !in old(freeConns)
      ensures if old(closedConns) != {} then c in old(closedConns) else fresh(c)
      ensures freeConns == if answers then old(freeConns) + {c} else old(freeConns)
      ensures closedConns == if answers then old(closedConns) - {c} else old(closedConns) - {c} + {c}
    {
      c := CreateConnection(answers);
      PutConnection(c);
    }

    /** One round of the creating loop: a new object is made only if no closed one is left. */
    method CreateOneFree(answers: bool)
      requires Valid()
      modifies this`freeConns, this`closedConns, closedConns
      ensures Valid() && fresh(freeConns + closedConns - old(freeConns + closedConns))
      ensures fresh(closedConns - old(closedConns)) && old(freeConns) <= freeConns
      ensures Moved(old(freeConns), old(closedConns), freeConns, closedConns, answers)
      ensures old(closedConns) == {} ==> (closedConns == {} <==> answers)
    {
      var c := CreateAndPut(answers);
      MovedAfter(old(freeConns), old(closedConns), c, answers);
    }

    /** The creating loop of reclaim_connections: either the total stays, or so many were made
        that no closed connection but those made here is left. */
    method CreateFree(count: nat, network: Network)
      requires Valid()
      modifies this`freeConns, this`closedConns, closedConns
      ensures Valid() && fresh(freeConns + closedConns - old(freeConns + closedConns))
      ensures old(freeConns) <= freeConns
      ensures Grown(old(|freeConns|), old(|closedConns|), |freeConns|, |closedConns|, count)
      ensures AllAnswer(network) ==> |freeConns| == old(|freeConns|) + count
    {
      hide Holding;
      var i := 0;
      while i < count
        invariant 0 <= i <= count && Valid() && old(freeConns) <= freeConns
        invariant forall c :: c in freeConns ==> c in old(freeConns) || c in old(closedConns) || fresh(c)
        invariant forall c :: c in closedConns ==> c in old(closedConns) || fresh(c)
        invariant Grown(old(|freeConns|), old(|closedConns|), |freeConns|, |closedConns|, i)
        invariant AllAnswer(network) ==> |freeConns| == old(|freeConns|) + i
      {
        var answers := network(i);
        CreateOneFree(answers);
        i := i + 1;
      }
    }

    /** Destroys `count` free connections. */
    method FreeFree(count: nat)
      requires Valid() && count <= |freeConns|
      modifies this`freeConns, freeConns
      ensures Valid() && freeConns <= old(freeConns) && |freeConns| == old(|freeConns|) - count
    {
      for i := 0 to count
        invariant Valid() && freeConns <= old(freeConns) && |freeConns| == old(|freeConns|) - i
      {
        var c := TakeFree();
        DestroyConnection(c);
      }
    }

    /** Destroys up to `count` closed connections. */
    method FreeClosed(count: nat)
      requires Valid()
      modifies this`closedConns, closedConns
      ensures Valid() && closedConns <= old(closedConns)
      ensures |closedConns| == Max(0, old(|closedConns|) - count)
    {
      var i := 0;
      while i < count && closedConns != {}
        invariant Valid() && closedConns <= old(closedConns)
        invariant 0 <= i <= count && |closedConns| == old(|closedConns|) - i
      {
        var c := TakeClosed();
        DestroyConnection(c);
        i := i + 1;
      }
    }

    /** Either branch of reclaim_connections on the free connections. */
    method AdjustFree(toBeFreed: nat, network: Network)
      requires Valid()
      modifies this`freeConns, this`closedConns, freeConns, closedConns
      ensures Valid() && fresh(freeConns + closedConns - old(freeConns + closedConns))
      ensures fresh(closedConns - old(closedConns))
      ensures if old(|freeConns|) <= minFree then old(freeConns) <= freeConns else freeConns <= old(freeConns)
      ensures Adjusted(minFree, toBeFreed, old(|freeConns|), old(|closedConns|), |freeConns|, |closedConns|,
                       AllAnswer(network))
    {
      var fs := |freeConns|;
      if fs <= minFree {
        CreateFree(minFree - fs, network);
      } else {
        var excess := if toBeFreed > fs - minFree then fs - minFree else toBeFreed;
        FreeFree(excess);
      }
    }

    method ReclaimExcess(network: Network)
      requires Valid() && Total() >= maxConn
      modifies this`freeConns, this`closedConns, freeConns, closedConns
      ensures Valid() && fresh(freeConns + closedConns - old(freeConns + closedConns))
      ensures if old(|freeConns|) <= minFree then old(freeConns) <= freeConns else freeConns <= old(freeConns)
      ensures Reclaimed(minFree, maxConn, |allocatedConns|, old(|freeConns|), |freeConns|, |closedConns|,
                        AllAnswer(network))
    {
      var fs, cs, ts := |freeConns|, |closedConns|, Total();
      var toBeFreed: nat := ts - maxConn;
      var csToBeFreed: nat := if toBeFreed > cs then cs else toBeFreed;
      toBeFreed := toBeFreed - csToBeFreed;
      AdjustFree(toBeFreed, network);
      ghost var cs' := |closedConns|;
      FreeClosed(csToBeFreed);
      ReclaimArithmetic(minFree, maxConn, |allocatedConns|, fs, cs, toBeFreed, csToBeFreed, |freeConns|, cs',
                        |closedConns|, AllAnswer(network));
    }

    /** reclaim_connections entered with nothing to reclaim changes nothing; otherwise it ends
        as Reclaimed says, with the wanted free connections if the network answers. Allocated
        connections are never touched. */
    method ReclaimConnections(network: Network)
      requires Valid()
      modifies this`freeConns, this`closedConns, freeConns, closedConns
      ensures Valid() && fresh(freeConns + closedConns - old(freeConns + closedConns))
      ensures old(Total()) < maxConn ==> freeConns == old(freeConns) && closedConns == old(closedConns)
      ensures if old(|freeConns|) <= minFree then old(freeConns) <= freeConns else freeConns <= old(freeConns)
      ensures old(Total()) >= maxConn ==>
        Reclaimed(minFree, maxConn, |allocatedConns|, old(|freeConns|), |freeConns|, |closedConns|, AllAnswer(network))
    {
      if Total() >= maxConn {
        ReclaimExcess(network);
      }
    }

    /** A quick status probe runs only when one is scheduled. */
    predicate Due(job: Job)
      reads this
    {
      job.QuickUpdateStatus? ==> quickUpdates > 0
    }

    /** Any job, as the callers of get and put see it. */
    method RunJob(job: Job)
      requires Valid() && Due(job)
      modifies this`freeConns, this`closedConns, this`status, this`quickUpdates, freeConns, closedConns
      ensures Valid() && fresh(freeConns + closedConns - old(freeConns + closedConns))
      ensures status == StatusAfter(job, old(freeConns) != {}, old(status))
    {
      hide Reclaimed, AliveWithin, Holding;
      match job
      case UpdateStatus(answers, replies) => UpdateStatus(answers, replies);
      case QuickUpdateStatus(answers, replies) => QuickUpdateStatus(answers, replies);
      case ReclaimConnections(network) => ReclaimConnections(network);
    }
  }

  /** Free connections up to the wanted number, reached if the network always answers, or down. */
  predicate Adjusted(minFree: nat, toBeFreed: nat, free: nat, closed: nat, free': nat, closed': nat, answered: bool) {
    if free <= minFree then
      Grown(free, closed, free', closed', minFree - free) && (answered ==> free' == minFree)
    else
      closed' == closed && free' == Max(minFree, free - toBeFreed)
  }

  /** What the pool's own thread runs, with what it meets. */
  datatype Job =
    | UpdateStatus(answers: bool, replies: nat -> Reply)
    | QuickUpdateStatus(answers: bool, replies: nat -> Reply)
    | ReclaimConnections(network: Network)

  /** The status a job leaves: a probe finds the server alive if there is a connection to ask on,
      a free one or one that connects, and it answers in time. */
  ghost function StatusAfter(job: Job, hadFree: bool, before: Status): Status {
    match job
    case UpdateStatus(answers, replies) =>
      if (hadFree || answers) && AliveWithin(replies, if before == Closed then 1 else 3) then Connected else Closed
    case QuickUpdateStatus(answers, replies) =>
      if (hadFree || answers) && replies(0) == Alive then Connected else Closed
    case ReclaimConnections(_) => before
  }

  /** The counts a reclaim run that starts at or over max_conn ends with: at least max_conn, at
      most what max_conn or the handed-out and wanted free connections need. With more free
      connections than wanted it ends exactly there, giving up closed ones first and no free one
      that is wanted; with fewer it gives up none, and has them all if the network answers. */
  ghost predicate Reclaimed(minFree: nat, maxConn: nat, allocatedCount: nat, before: nat, free: nat, closed: nat,
                            answered: bool) {
    && maxConn <= allocatedCount + free + closed <= Max(maxConn, allocatedCount + minFree)
    && (before > minFree ==> allocatedCount + free + closed == Max(maxConn, allocatedCount + minFree))
    && (before > minFree ==> minFree <= free && closed == Max(0, maxConn - allocatedCount - before))
    && (before <= minFree ==> before <= free <= minFree && (answered ==> free == minFree))
  }

  lemma ReclaimArithmetic(minFree: nat, maxConn: nat, a: nat, free: nat, closed: nat, toBeFreed: nat,
                          csToBeFreed: nat, free': nat, closed': nat, closed'': nat, answered: bool)
    requires csToBeFreed <= closed && (toBeFreed > 0 ==> csToBeFreed == closed)
    requires a + free + closed == maxConn + toBeFreed + csToBeFreed
    requires Adjusted(minFree, toBeFreed, free, closed, free', closed', answered)
    requires closed'' == Max(0, closed' - csToBeFreed)
    ensures Reclaimed(minFree, maxConn, a, free, free', closed'', answered)
  {
  }

  /** The first exception comes before the first reply that the server is alive. */
  predicate ThrowsFirst(replies: nat -> Reply, tries: nat) {
    exists i :: 0 <= i < tries && replies(i) == Throws && forall k :: 0 <= k < i ==> replies(k) == NotAlive
  }

  predicate AliveWithin(replies: nat -> Reply, tries: nat) {
    exists i :: 0 <= i < tries && replies(i) == Alive && forall k :: 0 <= k < i ==> replies(k) == NotAlive
  }
}
