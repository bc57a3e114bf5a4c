/** The asynchronous client (async/async_client.cpp) and the calls generated on top of it
    (t_cpp_generator.cc.inl): one operation at a time, whose callback may itself make the next
    call, close, attach or detach. Framing.Classify stands for the receive buffer, which
    AsyncConnections proves to decide by it. */
module AsyncClients {
  import opened Framing
  import opened Wrappers

  /** What a callback does, in order, when it is invoked. */
  datatype Action =
    | Call(oneway: bool, callback: seq<Action>)
    | CloseSocket
    | AttachSocket(isOpen: bool)
    | DetachSocket

  /** A pending operation, numbered by the calls made before it. */
  datatype AsyncOp = AsyncOp(id: nat, oneway: bool, callback: seq<Action>)

  /** What a callback is invoked with. */
  datatype Result =
    | Replied(frame: Bytes, thrown: bool)
    | Sent
    | Failed
    | Refused(size: nat)
    | NotConnected

  datatype Completion = Completion(id: nat, result: Result)

  /** The one operation handed to the socket. */
  datatype Wait = Nothing | Writing | Reading

  ghost predicate Completed(log: seq<Completion>, id: nat) {
    exists i :: 0 <= i < |log| && log[i].id == id
  }

  /** Of the calls made so far each was called back exactly once, but for those waiting, which
      were not yet. */
  ghost predicate Once(log: seq<Completion>, issued: nat, waiting: set<nat>) {
    && |log| + |waiting| == issued
    && (forall i :: 0 <= i < |log| ==> log[i].id < issued && log[i].id !in waiting)
    && (forall i, j :: 0 <= i < j < |log| ==> log[i].id != log[j].id)
    && (forall id :: id in waiting ==> id < issued)
    && (forall id: nat :: id < issued ==> id in waiting || Completed(log, id))
  }

  lemma {:induction false} OnceAfter(log: seq<Completion>, issued: nat, waiting: set<nat>, c: Completion)
    requires Once(log, issued, waiting + {c.id}) && c.id !in waiting
    ensures Once(log + [c], issued, waiting)
  {
    var log' := log + [c];
    forall id: nat | id < issued
      ensures id in waiting || Completed(log', id)
    {
      if id == c.id {
        assert log'[|log|].id == id;
      } else if id !in waiting {
        var i :| 0 <= i < |log| && log[i].id == id;
        assert log'[i].id == id;
      }
    }
  }

  lemma {:induction false} OnceMore(log: seq<Completion>, issued: nat, waiting: set<nat>)
    requires Once(log, issued, waiting)
    ensures issued !in waiting && Once(log, issued + 1, waiting + {issued})
  {
  }

  class AsyncThriftClient {
    var pendingAsyncOp: Option<AsyncOp>
    var hasSocket: bool
    var open: bool
    var wait: Wait
    var received: Bytes

    var issued: nat
    ghost var log: seq<Completion>

    ghost function Pending(): set<nat>
      reads this
    {
      if pendingAsyncOp.Some? then {pendingAsyncOp.value.id} else {}
    }

    /** An operation is pending exactly while the socket has something to complete. */
    ghost predicate Connected()
      reads this
    {
      && (pendingAsyncOp.Some? <==> wait != Nothing)
      && (pendingAsyncOp.Some? ==> hasSocket)
      && (open ==> hasSocket)
      && (wait.Reading? ==> !pendingAsyncOp.value.oneway && Classify(received).NeedMore?)
    }

    ghost predicate Valid()
      reads this
    {
      Once(log, issued, Pending()) && Connected()
    }

    constructor (connected: bool)
      ensures Valid() && log == [] && issued == 0 && open == connected
    {
      pendingAsyncOp, wait, received := None, Nothing, [];
      hasSocket, open := connected, connected;
      issued, log := 0, [];
    }

    // ----- what the user may do, at any time and from within a callback -----

    /** A generated call. That nothing is pending on an open connection is the caller's to see
        to; on one that is not open the callback runs at once. */
    method AsyncCall(oneway: bool, callback: seq<Action>)
      requires Valid() && (open ==> pendingAsyncOp.None?)
      modifies this
      ensures Valid() && old(log) <= log
      ensures old(open) ==> pendingAsyncOp == Some(AsyncOp(old(issued), oneway, callback)) && log == old(log)
      ensures !old(open) ==> old(log) + [Completion(old(issued), NotConnected)] <= log
      decreases callback, 2
    {
      var id := issued;
      OnceMore(log, issued, Pending());
      issued := issued + 1;
      if !open {
        InvokeCallback(id, callback, NotConnected);
      } else {
        pendingAsyncOp := Some(AsyncOp(id, oneway, callback));
        wait := Writing;
      }
    }

    method Close()
      requires Valid()
      modifies this`open
      ensures Valid() && !open
    {
      open := false;
    }

    /** Throws, and changes nothing, while an operation is pending; else the given socket, open or
        not, is the client's. */
    method Attach(isOpen: bool) returns (thrown: bool)
      requires Valid()
      modifies this`hasSocket, this`open
      ensures Valid() && thrown == pendingAsyncOp.Some?
      ensures if thrown then hasSocket == old(hasSocket) && open == old(open) else hasSocket && open == isOpen
    {
      thrown := pendingAsyncOp.Some?;
      if !thrown {
        Close();
        hasSocket, open := true, isOpen;
      }
    }

    method Detach() returns (thrown: bool)
      requires Valid()
      modifies this`hasSocket, this`open
      ensures Valid() && thrown == pendingAsyncOp.Some?
      ensures if thrown then hasSocket == old(hasSocket) && open == old(open) else !hasSocket
    {
      thrown := pendingAsyncOp.Some?;
      if !thrown {
        hasSocket, open := false, false;
      }
    }

    // ----- callbacks -----

    method InvokeCallback(id: nat, callback: seq<Action>, result: Result)
      requires Connected() && id !in Pending() && Once(log, issued, Pending() + {id})
      modifies this
      ensures Valid() && old(log) + [Completion(id, result)] <= log
      decreases callback, 1
    {
      OnceAfter(log, issued, Pending(), Completion(id, result));
      log := log + [Completion(id, result)];
      RunCallback(callback);
    }

    /** The body of a callback. It makes a call on an open connection only if none is pending. */
    method RunCallback(callback: seq<Action>)
      requires Valid()
      modifies this
      ensures Valid() && old(log) <= log
      decreases callback, 0
    {
      if callback != [] {
        match callback[0]
        case Call(oneway, inner) =>
          if !open || pendingAsyncOp.None? {
            AsyncCall(oneway, inner);
          }
        case CloseSocket => Close();
        case AttachSocket(isOpen) => var thrown := Attach(isOpen);
        case DetachSocket => var thrown := Detach();
        RunCallback(callback[1..]);
      }
    }

    // ----- what the socket completes -----

    /** The socket has completed its operation and nothing else is begun yet. */
    ghost predicate Delivered()
      reads this
    {
      && Once(log, issued, Pending())
      && pendingAsyncOp.Some? && wait == Nothing && hasSocket
    }

    /** The operation is taken out before its callback runs, which may make the next call. */
    method CompletePendingOp(result: Result)
      requires Once(log, issued, Pending()) && pendingAsyncOp.Some? && wait == Nothing && (open ==> hasSocket)
      modifies this
      ensures Valid() && old(log) + [Completion(old(pendingAsyncOp.value.id), result)] <= log
    {
      var op := pendingAsyncOp.value;
      pendingAsyncOp := None;
      InvokeCallback(op.id, op.callback, result);
    }

    method OnClose(result: Result)
      requires Delivered()
      modifies this
      ensures Valid() && old(log) + [Completion(old(pendingAsyncOp.value.id), result)] <= log
    {
      hasSocket, open := false, false;
      CompletePendingOp(result);
    }

    method OnHandleFrame(frame: Bytes, thrown: bool)
      requires Delivered()
      modifies this
      ensures Valid() && old(log) + [Completion(old(pendingAsyncOp.value.id), Replied(frame, thrown))] <= log
    {
      CompletePendingOp(Replied(frame, thrown));
    }

    /** A read completion: a frame, an error or an illegal length ends the operation; else it
        goes on reading. Reading the result may throw. */
    method OnHandleRead(failed: bool, data: Bytes, thrown: bool)
      requires Valid() && wait == Reading
      modifies this
      ensures Valid() && old(log) <= log
      ensures failed ==> old(log) + [Completion(old(pendingAsyncOp.value.id), Failed)] <= log
      ensures !failed ==>
        match Classify(old(received) + data)
        case NeedMore =>
          && log == old(log) && received == old(received) + data
          && wait == Reading && pendingAsyncOp == old(pendingAsyncOp)
        case Illegal(n) => old(log) + [Completion(old(pendingAsyncOp.value.id), Refused(n))] <= log
        case Ready(f) => old(log) + [Completion(old(pendingAsyncOp.value.id), Replied(f, thrown))] <= log
    {
      wait := Nothing;
      if failed {
        OnClose(Failed);
      } else {
        received := received + data;
        match Classify(received)
        case NeedMore => wait := Reading;
        case Illegal(n) => OnClose(Refused(n));
        case Ready(f) => OnHandleFrame(f, thrown);
      }
    }

    /** A write completion: a oneway call is over; else the reply is awaited, from an empty
        buffer. */
    method OnHandleWrite(failed: bool)
      requires Valid() && wait == Writing
      modifies this
      ensures Valid() && old(log) <= log
      ensures failed ==> old(log) + [Completion(old(pendingAsyncOp.value.id), Failed)] <= log
      ensures !failed && old(pendingAsyncOp.value.oneway) ==>
        old(log) + [Completion(old(pendingAsyncOp.value.id), Sent)] <= log
      ensures !failed && !old(pendingAsyncOp.value.oneway) ==>
        log == old(log) && wait == Reading && pendingAsyncOp == old(pendingAsyncOp) && received == []
    {
      wait := Nothing;
      if failed {
        OnClose(Failed);
      } else if pendingAsyncOp.value.oneway {
        CompletePendingOp(Sent);
      } else {
        received := [];
        wait := Reading;
      }
    }

    // ----- whole runs -----

    /** One thing that happens to the client; a completion only for what the socket was given,
        a call on an open connection only if none is pending. */
    method Handle(event: Event)
      requires Valid()
      modifies this
      ensures Valid() && old(log) <= log
    {
      match event
      case UserDoes(action) => RunCallback([action]);
      case WriteDone(failed) => if wait == Writing { OnHandleWrite(failed); }
      case ReadDone(failed, data, thrown) => if wait == Reading { OnHandleRead(failed, data, thrown); }
    }

    /** Whatever happens in whatever order, every call made so far is called back exactly once
        or is the one the socket still works for. */
    method Run(events: seq<Event>)
      requires Valid()
      modifies this
      ensures Valid() && old(log) <= log
      ensures issued == |log| + if wait == Nothing then 0 else 1
      ensures forall id: nat :: id < issued ==> Completed(log, id) || (wait != Nothing && id == pendingAsyncOp.value.id)
      ensures forall i, j :: 0 <= i < j < |log| ==> log[i].id != log[j].id
    {
      for k := 0 to |events|
        invariant Valid() && old(log) <= log
      {
        Handle(events[k]);
      }
    }
  }

  datatype Event =
    | UserDoes(action: Action)
    | WriteDone(failed: bool)
    | ReadDone(failed: bool, data: Bytes, thrown: bool)
}
