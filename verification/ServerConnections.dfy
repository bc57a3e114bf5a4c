/** The server's connections (async/async_server.cpp): which ones there are, who owns them, and
    what still has to come back to them. A processor neither throws nor calls back again once it
    has invoked its callback. Connections are numbered as they are made. */
module ServerConnections {
  import opened Framing
  import opened Wrappers

  type Connection = nat

  /** What is to come back to a connection: a read, a write, or the processor's callback. */
  datatype Continuation =
    | ReadOf(c: Connection)
    | WriteOf(c: Connection)
    | CallbackOf(c: Connection)

  /** What becomes of a frame: a synchronous processor answers it; an asynchronous one calls back
      later, or already while it processes; either may throw. */
  datatype Processing = Answered | Deferred | CalledBack(failed: bool, oneway: bool) | Threw

  /** What becomes of a connection that was accepted. */
  datatype Change = Started(c: Connection) | Ended(c: Connection)

  /** The connections started and not ended. */
  ghost function Present(history: seq<Change>): set<Connection> {
    if history == [] then
      {}
    else
      var before := Present(history[..|history| - 1]);
      match history[|history| - 1]
      case Started(c) => before + {c}
      case Ended(c) => before - {c}
  }

  /** No connection starts or ends twice, and none starts once it has ended. */
  ghost predicate OneLife(history: seq<Change>) {
    forall i, j :: 0 <= i < j < |history| ==>
      history[i] != history[j] && (history[i].c == history[j].c ==> history[i].Started? && history[j].Ended?)
  }

  lemma PresentSnoc(history: seq<Change>, change: Change)
    ensures Present(history + [change]) ==
            if change.Started? then Present(history) + {change.c} else Present(history) - {change.c}
  {
    assert (history + [change])[..|history|] == history;
  }

  lemma StartLife(history: seq<Change>, c: Connection)
    requires OneLife(history) && forall i :: 0 <= i < |history| ==> history[i].c != c
    ensures OneLife(history + [Started(c)])
  {
  }

  lemma EndLife(history: seq<Change>, c: Connection)
    requires OneLife(history) && forall i :: 0 <= i < |history| ==> history[i] != Ended(c)
    ensures OneLife(history + [Ended(c)])
  {
  }

  ghost function Outstanding(m: multiset<Continuation>, c: Connection): nat {
    m[ReadOf(c)] + m[WriteOf(c)] + m[CallbackOf(c)]
  }

  class Impl {
    var connections: set<Connection>          // ConnManager::set_
    var newConn: Option<Connection>
    var made: nat
    var continuations: multiset<Continuation> // what asio and the processor have taken on
    ghost var deleted: set<Connection>
    ghost var history: seq<Change>

    /** Every connection made is the one waiting for accept, in the manager's set, or deleted. */
    ghost predicate OnePlace()
      reads this
    {
      && connections !! deleted
      && (newConn.Some? ==> newConn.value < made && newConn.value !in connections + deleted)
      && (forall c: Connection :: c < made ==> c in connections || c in deleted || newConn == Some(c))
      && (forall c :: c in connections ==> c < made)
      && (forall c :: c in deleted ==> c < made)
    }

    /** Each connection has exactly one thing to come back, but for those in `handled`, whose
        handler is running; nothing comes back to any other. */
    ghost predicate OneContinuation(handled: set<Connection>)
      reads this
    {
      forall c: Connection :: Outstanding(continuations, c) == if c in connections && c !in handled then 1 else 0
    }

    /** The history is that of the connections in the set and of those deleted from it. */
    ghost predicate Recorded()
      reads this
    {
      && OneLife(history) && connections == Present(history)
      && (forall i :: 0 <= i < |history| ==> history[i].c in connections + deleted)
      && (forall i :: 0 <= i < |history| && history[i].Ended? ==> history[i].c in deleted)
    }

    ghost predicate Valid()
      reads this
    {
      OnePlace() && OneContinuation({}) && Recorded()
    }

    /** A handler of c runs: it has been taken off what is outstanding. */
    ghost predicate Handling(c: Connection)
      reads this
    {
      OnePlace() && c in connections && OneContinuation({c}) && Recorded()
    }

    constructor ()
      ensures Valid() && made == 1 && newConn == Some(0) && deleted == {} && history == []
    {
      connections, continuations, deleted, history := {}, multiset{}, {}, [];
      newConn, made := Some(0), 1;
    }

    method AsyncAccept()
      requires Valid() && newConn.None?
      modifies this`newConn, this`made
      ensures Valid() && newConn == Some(old(made)) && made == old(made) + 1
    {
      newConn := Some(made);
      made := made + 1;
    }

    method Begin(c: Connection, continuation: Continuation)
      requires Handling(c) && continuation.c == c
      modifies this`continuations
      ensures Valid() && continuations == old(continuations) + multiset{continuation}
    {
      continuations := continuations + multiset{continuation};
    }

    /** ConnManager::start */
    method Start()
      requires Valid() && newConn.Some?
      modifies this
      ensures Valid() && newConn == None && made == old(made) && deleted == old(deleted)
      ensures connections == old(connections) + {old(newConn.value)}
      ensures history == old(history) + [Started(old(newConn.value))]
    {
      hide OneLife, Present;
      var c := newConn.value;
      newConn := None;
      StartLife(history, c);
      PresentSnoc(history, Started(c));
      connections, history := connections + {c}, history + [Started(c)];
      Begin(c, ReadOf(c));
    }

    /** Accepting goes on until it fails; the connection that waited is then deleted. */
    method HandleAccept(failed: bool)
      requires Valid() && newConn.Some?
      modifies this
      ensures Valid()
      ensures newConn.Some? == !failed && made == old(made) + if failed then 0 else 1
      ensures connections == if failed then old(connections) else old(connections) + {old(newConn.value)}
      ensures deleted == if failed then old(deleted) + {old(newConn.value)} else old(deleted)
      ensures history == if failed then old(history) else old(history) + [Started(old(newConn.value))]
    {
      if !failed {
        Start();
        AsyncAccept();
      } else {
        deleted := deleted + {newConn.value};
        newConn := None;
      }
    }

    /** The connection deletes itself, and its destructor takes it out of the set. Nothing is
        outstanding for it, so nothing comes back to a deleted connection. */
    method OnClose(c: Connection)
      requires Handling(c)
      modifies this`connections, this`deleted, this`history
      ensures Valid() && connections == old(connections) - {c} && deleted == old(deleted) + {c}
      ensures history == old(history) + [Ended(c)]
    {
      hide OneLife, Present;
      EndLife(history, c);
      PresentSnoc(history, Ended(c));
      connections, history := connections - {c}, history + [Ended(c)];
      deleted := deleted + {c};
    }

    /** async_process: the processor's callback. */
    method AsyncProcess(c: Connection, failed: bool, oneway: bool)
      requires Handling(c)
      modifies this`connections, this`deleted, this`continuations, this`history
      ensures Valid() && continuations == old(continuations) + Only(AfterCallback(c, failed, oneway))
      ensures Survives(c, !failed, old(connections), connections, old(deleted), deleted, old(history), history)
    {
      if failed {
        OnClose(c);
      } else if oneway {
        Begin(c, ReadOf(c));
      } else {
        Begin(c, WriteOf(c));
      }
    }

    method OnHandleFrame(c: Connection, processing: Processing)
      requires Handling(c)
      modifies this`connections, this`deleted, this`continuations, this`history
      ensures Valid() && continuations == old(continuations) + Only(AfterFrame(c, processing))
      ensures Survives(c, AfterFrame(c, processing).Some?, old(connections), connections,
                       old(deleted), deleted, old(history), history)
    {
      match processing
      case Answered => Begin(c, WriteOf(c));
      case Deferred => Begin(c, CallbackOf(c));
      case CalledBack(failed, oneway) => AsyncProcess(c, failed, oneway);
      case Threw => OnClose(c);
    }

    method HandleBuffer(c: Connection, view: View, processing: Processing)
      requires Handling(c)
      modifies this`connections, this`deleted, this`continuations, this`history
      ensures Valid() && continuations == old(continuations) + Only(AfterBuffer(c, view, processing))
      ensures Survives(c, AfterBuffer(c, view, processing).Some?, old(connections), connections,
                       old(deleted), deleted, old(history), history)
    {
      match view
      case NeedMore => Begin(c, ReadOf(c));
      case Illegal(_) => OnClose(c);
      case Ready(_) => OnHandleFrame(c, processing);
    }

    method TakeOff(continuation: Continuation)
      requires Valid() && continuation in continuations
      modifies this`continuations
      ensures Handling(continuation.c) && continuations == old(continuations) - multiset{continuation}
    {
      assert Outstanding(continuations, continuation.c) == 1;
      continuations := continuations - multiset{continuation};
    }

    /** What is outstanding comes back, always to a connection that is still there, which then
        has what follows outstanding, or nothing follows and it is deleted. */
    method Deliver(continuation: Continuation, failed: bool, oneway: bool, view: View, processing: Processing)
      requires Valid() && continuation in continuations
      modifies this`connections, this`deleted, this`continuations, this`history
      ensures Valid() && continuation.c in old(connections)
      ensures continuations == old(continuations) - multiset{continuation}
                               + Only(Following(continuation, failed, oneway, view, processing))
      ensures Survives(continuation.c, Following(continuation, failed, oneway, view, processing).Some?,
                       old(connections), connections, old(deleted), deleted, old(history), history)
    {
      var c := continuation.c;
      TakeOff(continuation);
      if continuation.CallbackOf? {
        AsyncProcess(c, failed, oneway);
      } else if failed {
        OnClose(c);
      } else {
        HandleBuffer(c, view, processing);
      }
    }

    // ----- whole runs -----

    /** An accept completes, or something outstanding comes back. */
    method Handle(event: Event)
      requires Valid()
      modifies this
      ensures Valid() && old(history) <= history
      ensures made == old(made) + Accepts(old(newConn.Some?), [event])
      ensures newConn.Some? == Accepting(old(newConn.Some?), [event])
    {
      hide OneLife, Present, Following, Accepts, Accepting;
      AcceptsOne(newConn.Some?, event);
      match event
      case Accepted(failed) =>
        if newConn.Some? {
          HandleAccept(failed);
        }
      case CameBack(continuation, failed, oneway, view, processing) =>
        if continuation in continuations {
          Deliver(continuation, failed, oneway, view, processing);
        }
    }

    /** Whatever is accepted and comes back, in any order: one connection is made per accept that
        succeeds before one fails; each starts once and ends once at most, after that; the set
        holds just those started and not ended, each of these has exactly one thing to come
        back, and nothing comes back to any other. */
    method Run(events: seq<Event>)
      requires Valid()
      modifies this
      ensures Valid() && old(history) <= history && OneLife(history)
      ensures made == old(made) + Accepts(old(newConn.Some?), events)
      ensures forall c: Connection :: c < made ==> c in connections || c in deleted || newConn == Some(c)
      ensures forall c :: c in connections <==> Started(c) in history && Ended(c) !in history
      ensures forall c: Connection :: Outstanding(continuations, c) == if c in connections then 1 else 0
    {
      for k := 0 to |events|
        invariant Valid() && old(history) <= history
        invariant made == old(made) + Accepts(old(newConn.Some?), events[..k])
        invariant newConn.Some? == Accepting(old(newConn.Some?), events[..k])
      {
        AcceptsSnoc(old(newConn.Some?), events[..k], events[k]);
        assert events[..k + 1] == events[..k] + [events[k]];
        Handle(events[k]);
      }
      assert events[..|events|] == events;
      PresentIs(history);
    }
  }

  datatype Event =
    | Accepted(failed: bool)
    | CameBack(continuation: Continuation, failed: bool, oneway: bool, view: View, processing: Processing)

  /** Accepting goes on until it fails. */
  function Accepting(accepting: bool, events: seq<Event>): bool {
    if events == [] then accepting
    else Accepting(accepting && !(events[0].Accepted? && events[0].failed), events[1..])
  }

  function Accepts(accepting: bool, events: seq<Event>): nat {
    if events == [] then 0
    else if accepting && events[0].Accepted? then
      if events[0].failed then 0 else 1 + Accepts(true, events[1..])
    else Accepts(accepting, events[1..])
  }

  lemma AcceptsOne(accepting: bool, e: Event)
    ensures Accepting(accepting, [e]) == (accepting && !(e.Accepted? && e.failed))
    ensures Accepts(accepting, [e]) == if accepting && e.Accepted? && !e.failed then 1 else 0
  {
  }

  lemma {:induction false} AcceptsSnoc(accepting: bool, events: seq<Event>, e: Event)
    ensures Accepting(accepting, events + [e]) == Accepting(Accepting(accepting, events), [e])
    ensures Accepts(accepting, events + [e]) ==
            Accepts(accepting, events) + Accepts(Accepting(accepting, events), [e])
  {
    if events == [] {
      assert [] + [e] == [e];
    } else {
      assert (events + [e])[1..] == events[1..] + [e];
      AcceptsSnoc(accepting && !(events[0].Accepted? && events[0].failed), events[1..], e);
      NotAccepting(events[1..]);
    }
  }

  lemma {:induction false} NotAccepting(events: seq<Event>)
    ensures !Accepting(false, events) && Accepts(false, events) == 0
  {
    if events != [] {
      NotAccepting(events[1..]);
    }
  }

  lemma {:induction false} PresentIs(history: seq<Change>)
    requires OneLife(history)
    ensures forall c :: c in Present(history) <==> Started(c) in history && Ended(c) !in history
  {
    if history != [] {
      var k := |history| - 1;
      PresentIs(history[..k]);
      assert history == history[..k] + [history[k]];
    }
  }

  /** What a connection waits for next; nothing if it closes. */
  function AfterCallback(c: Connection, failed: bool, oneway: bool): Option<Continuation> {
    if failed then None else if oneway then Some(ReadOf(c)) else Some(WriteOf(c))
  }

  function AfterFrame(c: Connection, processing: Processing): Option<Continuation> {
    match processing
    case Answered => Some(WriteOf(c))
    case Deferred => Some(CallbackOf(c))
    case CalledBack(failed, oneway) => AfterCallback(c, failed, oneway)
    case Threw => None
  }

  function AfterBuffer(c: Connection, view: View, processing: Processing): Option<Continuation> {
    match view
    case NeedMore => Some(ReadOf(c))
    case Illegal(_) => None
    case Ready(_) => AfterFrame(c, processing)
  }

  function Following(continuation: Continuation, failed: bool, oneway: bool, view: View,
                     processing: Processing): Option<Continuation>
  {
    if continuation.CallbackOf? then AfterCallback(continuation.c, failed, oneway)
    else if failed then None
    else AfterBuffer(continuation.c, view, processing)
  }

  ghost function Only(o: Option<Continuation>): multiset<Continuation> {
    if o.Some? then multiset{o.value} else multiset{}
  }

  /** The connection stays, or it goes and is counted as deleted, once; no other does. */
  ghost predicate Survives(c: Connection, stays: bool, before: set<Connection>, after: set<Connection>,
                           deleted: set<Connection>, deleted': set<Connection>,
                           history: seq<Change>, history': seq<Change>) {
    if stays then
      after == before && deleted' == deleted && history' == history
    else
      && after == before - {c} && deleted' == deleted + {c} && c in before && c !in deleted
      && history' == history + [Ended(c)]
  }
}
