/** One client connection (async/async_client.cpp with the generated async calls), two FIFO
    byte pipes cut anywhere, and one connection of the synchronous-RPC server
    (async/async_server.cpp). The sequence id on the wire is always 0, so nothing in a reply
    names its request; the theorems say when replies are paired correctly all the same. */
module ReplyPairing {
  import opened Framing

  /** Client and server. Which requests the client takes for oneway, which the server's processor
      leaves unanswered, and how it answers the others. What it does with the n-th request may
      depend on all it has done before, so two calls with the same bytes may get different
      replies; and it answers a oneway call too if it does not know the method. */
  datatype Service = Service(
    oneway: Payload -> bool, silent: (nat, Payload) -> bool, answer: (nat, Payload) -> Payload)

  datatype Op = Op(id: nat, request: Payload, oneway: bool)

  /** How a callback was run: write finished (oneway), a frame came, or an error code. */
  datatype Outcome = Sent | Got(reply: Bytes) | Failed

  datatype Completion = Completion(op: Op, outcome: Outcome)

  /** pending_async_op_ together with what it waits for; Gone once on_close dropped the socket,
      after `wired` calls, the last of them without its final bytes `lost`. */
  datatype Client =
    | Idle
    | Sending(op: Op, left: Bytes)
    | Awaiting(op: Op, pending: Bytes)
    | Gone(lost: Bytes, wired: nat)

  datatype Server =
    | Open(pending: Bytes, replying: bool, out: Bytes)
    | Shut

  datatype System = System(
    client: Client, up: Bytes, down: Bytes, server: Server,
    calls: seq<Op>,          // every call made, in order
    served: seq<Payload>,    // the requests the server's handler has been given, in order
    log: seq<Completion>)    // callbacks run, in order

  const INITIAL := System(Idle, [], [], Open([], false, []), [], [], [])

  datatype Step =
    | Call(request: Payload)
    | SendBytes(n: nat)
    | WriteDone
    | ServerRead(n: nat)
    | ServerWrite(n: nat)
    | ServerWriteDone
    | ServerFail
    | ClientRead(n: nat)
    | ClientFail

  function Output(svc: Service, n: nat, request: Payload): Bytes {
    if svc.silent(n, request) then [] else Frame(svc.answer(n, request))
  }

  /** handle_buffer of the server: a complete frame is processed at once, and the synchronous
      server always writes the output buffer, which an unanswered request leaves empty. */
  function ServerSettle(svc: Service, s: System, pending: Bytes): System {
    match Classify(pending)
    case NeedMore => s.(server := Open(pending, false, []))
    case Ready(f) =>
      var request := f[FRAME_SIZE..];
      s.(server := Open(pending, true, Output(svc, |s.served|, request)), served := s.served + [request])
    case Illegal(_) => s.(server := Shut)
  }

  function Complete(s: System, op: Op, outcome: Outcome): System {
    s.(client := if outcome.Failed? then Dropped(s) else Idle, log := s.log + [Completion(op, outcome)])
  }

  function Dropped(s: System): Client {
    if s.client.Gone? then s.client else Gone(LeftToSend(s.client), |s.calls|)
  }

  function LeftToSend(c: Client): Bytes {
    match c
    case Sending(_, left) => left
    case Gone(lost, _) => lost
    case _ => []
  }

  /** handle_buffer of the client; bytes behind the frame stay in the buffer and are dropped by
      the start_recv(true) of the next operation. */
  function ClientSettle(s: System, op: Op, pending: Bytes): System {
    match Classify(pending)
    case NeedMore => s.(client := Awaiting(op, pending))
    case Ready(f) => Complete(s, op, Got(f[FRAME_SIZE..]))
    case Illegal(_) => Complete(s, op, Failed)
  }

  predicate Enabled(s: System, step: Step) {
    match step
    case Call(_) => s.client.Idle? || s.client.Gone?
    case SendBytes(n) => s.client.Sending? && 0 < n <= |s.client.left|
    case WriteDone => s.client.Sending? && s.client.left == []
    case ServerRead(n) => s.server.Open? && !s.server.replying && 0 < n <= |s.up|
    case ServerWrite(n) => s.server.Open? && s.server.replying && 0 < n <= |s.server.out|
    case ServerWriteDone =>
      && s.server.Open? && s.server.replying && s.server.out == []
      && Classify(s.server.pending).Ready?
    case ServerFail => true
    case ClientRead(n) => s.client.Awaiting? && 0 < n <= |s.down|
    case ClientFail => s.client.Sending? || s.client.Awaiting?
  }

  function Next(svc: Service, s: System, step: Step): System
    requires Enabled(s, step)
  {
    match step
    case Call(request) =>
      var op := Op(|s.calls|, request, svc.oneway(request));
      var t := s.(calls := s.calls + [op]);
      if s.client.Gone? then Complete(t, op, Failed)
      else t.(client := Sending(op, Frame(request)))
    case SendBytes(n) =>
      s.(client := Sending(s.client.op, s.client.left[n..]), up := s.up + s.client.left[..n])
    case WriteDone =>
      if s.client.op.oneway then Complete(s, s.client.op, Sent)
      else s.(client := Awaiting(s.client.op, []))
    case ServerRead(n) =>
      ServerSettle(svc, s.(up := s.up[n..]), s.server.pending + s.up[..n])
    case ServerWrite(n) =>
      s.(server := s.server.(out := s.server.out[n..]), down := s.down + s.server.out[..n])
    case ServerWriteDone =>
      ServerSettle(svc, s, s.server.pending[|Classify(s.server.pending).frame|..])
    case ServerFail => s.(server := Shut)
    case ClientRead(n) =>
      ClientSettle(s.(down := s.down[n..]), s.client.op, s.client.pending + s.down[..n])
    case ClientFail => Complete(s, s.client.op, Failed)
  }

  /** The states a run goes through: each step enabled where it is taken. */
  ghost predicate Reaches(svc: Service, s: System, steps: seq<Step>, t: System)
    decreases |steps|
  {
    if steps == [] then s == t
    else Enabled(s, steps[0]) && Reaches(svc, Next(svc, s, steps[0]), steps[1..], t)
  }

  // ----- the invariant -----

  function Wire(ops: seq<Op>): Bytes {
    if ops == [] then [] else Frame(ops[0].request) + Wire(ops[1..])
  }

  predicate Busy(c: Client) {
    c.Sending? || c.Awaiting?
  }

  function ReplyHeld(c: Client): Bytes {
    if c.Awaiting? then c.pending else []
  }

  function Unwritten(server: Server): Bytes {
    if server.Open? then server.out else []
  }

  /** The server's unread request bytes: what it holds behind the frame it is replying to. */
  function Unhandled(server: Server): Bytes
    requires server.Open?
  {
    if server.replying && Classify(server.pending).Ready?
    then server.pending[|Classify(server.pending).frame|..] else server.pending
  }

  /** The calls that were given to the socket. */
  function WiredCalls(s: System): seq<Op> {
    if s.client.Gone? && s.client.wired <= |s.calls| then s.calls[..s.client.wired] else s.calls
  }

  /** Every callback ran for its own call, in order, once; only the call in progress is open. */
  predicate Ordered(svc: Service, s: System) {
    && |s.log| + (if Busy(s.client) then 1 else 0) == |s.calls|
    && (forall i :: 0 <= i < |s.log| ==> s.log[i].op == s.calls[i] && Fitting(s.log[i]))
    && (Busy(s.client) ==> s.client.op == s.calls[|s.log|])
    && (s.client.Awaiting? ==> !s.client.op.oneway)
    && (forall i :: 0 <= i < |s.calls| ==>
          s.calls[i].id == i && s.calls[i].oneway == svc.oneway(s.calls[i].request))
  }

  predicate Fitting(c: Completion) {
    (c.outcome.Sent? ==> c.op.oneway) && (c.outcome.Got? ==> !c.op.oneway)
  }

  /** Every callback that got a frame got the reply to its own request. */
  predicate Told(svc: Service, s: System) {
    forall i :: 0 <= i < |s.log| && s.log[i].outcome.Got? ==>
      s.log[i].outcome.reply == svc.answer(s.log[i].op.id, s.log[i].op.request)
  }

  predicate Answered(svc: Service, s: System) {
    Ordered(svc, s) && Told(svc, s)
  }

  /** The server has answered no oneway call so far. */
  predicate Heeded(svc: Service, s: System) {
    forall i :: 0 <= i < |s.served| && i < |s.calls| && s.calls[i].oneway ==> svc.silent(i, s.calls[i].request)
  }

  /** The server is given the requests made, in order and once each, and what it has not been
      given yet is all it can still receive, also after the client has failed. */
  predicate Served(s: System) {
    && (s.client.Gone? ==> s.client.wired <= |s.calls|)
    && |s.served| <= |WiredCalls(s)|
    && (forall i :: 0 <= i < |s.served| ==> s.served[i] == s.calls[i].request)
    && match s.server
       case Shut => true
       case Open(pending, replying, out) =>
         && Unhandled(s.server) + (s.up + LeftToSend(s.client)) == Wire(WiredCalls(s)[|s.served|..])
         && (if replying then Classify(pending).Ready? else Classify(pending).NeedMore? && out == [])
  }

  /** The reply bytes that must be under way or already with the client. */
  function Due(svc: Service, s: System): Bytes {
    if Busy(s.client) && |s.served| == |s.calls| then Output(svc, s.client.op.id, s.client.op.request) else []
  }

  /** Only the newest call can want a reply, the others still under way are oneway; and the
      reply stream carries nothing but that reply, a part of it if the server gave up. */
  predicate Replied(svc: Service, s: System) {
    && (forall i :: |s.served| <= i < |s.log| && i < |s.calls| ==> s.calls[i].oneway)
    && (s.client.Awaiting? ==> Classify(s.client.pending).NeedMore?)
    && var carried := ReplyHeld(s.client) + (s.down + Unwritten(s.server));
       if s.server.Open? then carried == Due(svc, s) else carried <= Due(svc, s)
  }

  /** Order holds in any case; what callbacks are told, as long as no oneway call is answered. */
  predicate Inv(svc: Service, s: System) {
    && Ordered(svc, s) && Served(s)
    && (Heeded(svc, s) ==> Told(svc, s) && (!s.client.Gone? ==> Replied(svc, s)))
  }

  // ----- every step keeps it -----

  /** The server's bytes begin with the oldest undispatched request: a complete frame is that
      request, a refused length is that request's length. */
  lemma FrontRequest(p: Bytes, rest: Bytes, ops: seq<Op>)
    requires p + rest == Wire(ops)
    ensures match Classify(p)
      case NeedMore => true
      case Illegal(n) => ops != [] && n == |ops[0].request|
      case Ready(f) =>
        ops != [] && f == Frame(ops[0].request) && p[|f|..] + rest == Wire(ops[1..])
  {
    if |p| >= FRAME_SIZE {
      assert ops != [];
      var f, tail := Frame(ops[0].request), Wire(ops[1..]);
      assert (p + rest)[..FRAME_SIZE] == p[..FRAME_SIZE];
      assert (f + tail)[..FRAME_SIZE] == f[..FRAME_SIZE];
      assert Word(p) == Word(f);
      if |p| >= |f| {
        assert (p + rest)[..|f|] == p[..|f|];
        assert (f + tail)[..|f|] == f;
        assert (p + rest)[|f|..] == p[|f|..] + rest;
        assert (f + tail)[|f|..] == tail;
      }
    }
  }

  lemma FrameTail(request: Payload)
    ensures |Frame(request)| >= FRAME_SIZE && Frame(request)[FRAME_SIZE..] == request
  {
  }

  lemma SettleServedFrame(svc: Service, s: System, p: Bytes, f: Bytes, op: Op, rest: seq<Op>)
    requires Served(s.(server := Shut)) && Classify(p) == Ready(f) && f == Frame(op.request)
    requires WiredCalls(s)[|s.served|..] == [op] + rest
    requires p[|f|..] + (s.up + LeftToSend(s.client)) == Wire(rest)
    ensures Served(ServerSettle(svc, s, p))
  {
    hide Classify, Wire, Frame;
    var t, ops := ServerSettle(svc, s, p), WiredCalls(s);
    FrameTail(op.request);
    assert ops[|s.served|] == op && ops[|s.served| + 1..] == rest;
    assert WiredCalls(t) == ops;
  }

  lemma SettleServed(svc: Service, s: System, p: Bytes)
    requires Served(s.(server := Shut))
    requires p + (s.up + LeftToSend(s.client)) == Wire(WiredCalls(s)[|s.served|..])
    ensures Served(ServerSettle(svc, s, p))
  {
    var ops := WiredCalls(s)[|s.served|..];
    FrontRequest(p, s.up + LeftToSend(s.client), ops);
    match Classify(p)
    case Ready(f) => SettleServedFrame(svc, s, p, f, ops[0], ops[1..]);
    case _ =>
  }

  lemma SettleReplied(svc: Service, s: System, p: Bytes)
    requires Answered(svc, s) && Served(s.(server := Shut)) && !s.client.Gone?
    requires p + (s.up + LeftToSend(s.client)) == Wire(WiredCalls(s)[|s.served|..])
    requires Replied(svc, s.(server := Open([], false, []))) && Heeded(svc, ServerSettle(svc, s, p))
    ensures Replied(svc, ServerSettle(svc, s, p))
  {
    var t, ops := ServerSettle(svc, s, p), WiredCalls(s);
    FrontRequest(p, s.up + LeftToSend(s.client), ops[|s.served|..]);
    match Classify(p)
    case Ready(f) =>
      var op := s.calls[|s.served|];
      assert f[FRAME_SIZE..] == op.request;
      assert Due(svc, s) == [] && t.server.out == Output(svc, op.id, op.request) == Due(svc, t);
    case _ =>
  }

  lemma Regroup(a: Bytes, b: Bytes, n: nat, c: Bytes)
    requires n <= |b|
    ensures a + (b + c) == (a + b[..n]) + (b[n..] + c)
  {
  }

  lemma {:induction false} WireAppend(ops: seq<Op>, op: Op)
    ensures Wire(ops + [op]) == Wire(ops) + Frame(op.request)
  {
    if ops == [] {
      assert Wire([op]) == Frame(op.request) + Wire([]);
    } else {
      assert (ops + [op])[1..] == ops[1..] + [op];
      WireAppend(ops[1..], op);
      Assoc(Frame(ops[0].request), Wire(ops[1..]), Frame(op.request));
    }
  }

  lemma CallServed(s: System, op: Op)
    requires Served(s) && s.client.Idle?
    ensures Served(s.(calls := s.calls + [op], client := Sending(op, Frame(op.request))))
  {
    var t := s.(calls := s.calls + [op], client := Sending(op, Frame(op.request)));
    var before := s.calls[|s.served|..];
    assert t.calls[|s.served|..] == before + [op];
    WireAppend(before, op);
    if s.server.Open? {
      assert s.up + [] == s.up;
      Assoc(Unhandled(s.server), s.up, Frame(op.request));
    }
  }

  /** Steps that leave the server alone and the request bytes under way the same. */
  lemma ServedFrame(s: System, t: System)
    requires Served(s) && t.served == s.served && t.server == s.server
    requires s.calls <= t.calls && WiredCalls(t) == WiredCalls(s)
    requires t.client.Gone? ==> t.client.wired <= |t.calls|
    requires t.up + LeftToSend(t.client) == s.up + LeftToSend(s.client)
    ensures Served(t)
  {
  }

  lemma ServerReadServed(svc: Service, s: System, n: nat)
    requires Served(s) && Enabled(s, ServerRead(n))
    ensures Served(Next(svc, s, ServerRead(n)))
  {
    var t := s.(up := s.up[n..]);
    Regroup(s.server.pending, s.up, n, LeftToSend(s.client));
    assert WiredCalls(t) == WiredCalls(s);
    SettleServed(svc, t, s.server.pending + s.up[..n]);
  }

  /** Writing the reply or giving up does not touch the request bytes. */
  lemma ServerOutServed(svc: Service, s: System, step: Step)
    requires Served(s) && Enabled(s, step) && (step.ServerWrite? || step.ServerFail?)
    ensures Served(Next(svc, s, step))
  {
    var t := Next(svc, s, step);
    assert WiredCalls(t) == WiredCalls(s);
    assert t.server.Open? ==> Unhandled(t.server) == Unhandled(s.server);
  }

  lemma ClientStepServed(svc: Service, s: System, step: Step)
    requires Served(s) && Enabled(s, step)
    requires step.SendBytes? || step.WriteDone? || step.ClientRead? || step.ClientFail?
    ensures Served(Next(svc, s, step))
  {
    ServedFrame(s, Next(svc, s, step));
  }

  lemma StepServed(svc: Service, s: System, step: Step)
    requires Served(s) && Enabled(s, step)
    ensures Served(Next(svc, s, step))
  {
    match step
    case Call(request) =>
      if s.client.Idle? {
        CallServed(s, Op(|s.calls|, request, svc.oneway(request)));
      } else {
        ServedFrame(s, Next(svc, s, step));
      }
    case ServerRead(n) => ServerReadServed(svc, s, n);
    case ServerWriteDone => SettleServed(svc, s, Unhandled(s.server));
    case ServerWrite(_) => ServerOutServed(svc, s, step);
    case ServerFail => ServerOutServed(svc, s, step);
    case _ => ClientStepServed(svc, s, step);
  }

  /** What the client holds after a read is the beginning of the reply to its own request. */
  lemma ReplyPrefix(svc: Service, s: System, n: nat)
    requires Answered(svc, s) && Replied(svc, s) && Enabled(s, ClientRead(n))
    ensures var p := s.client.pending + s.down[..n];
      && !svc.silent(s.client.op.id, s.client.op.request)
      && p <= Due(svc, s) == Frame(svc.answer(s.client.op.id, s.client.op.request))
      && ReplyHeld(s.client) + (s.down + Unwritten(s.server)) == p + (s.down[n..] + Unwritten(s.server))
  {
    Regroup(s.client.pending, s.down, n, Unwritten(s.server));
    assert |s.down| > 0 && Due(svc, s) != [];
  }

  lemma CompleteOrdered(svc: Service, s: System, outcome: Outcome)
    requires Ordered(svc, s) && Busy(s.client) && Fitting(Completion(s.client.op, outcome))
    ensures Ordered(svc, Complete(s, s.client.op, outcome))
  {
  }

  lemma CompleteAnswered(svc: Service, s: System, outcome: Outcome)
    requires Answered(svc, s) && Busy(s.client) && Fitting(Completion(s.client.op, outcome))
    requires outcome.Got? ==> outcome.reply == svc.answer(s.client.op.id, s.client.op.request)
    ensures Answered(svc, Complete(s, s.client.op, outcome))
  {
    hide Ordered;
    CompleteOrdered(svc, s, outcome);
  }

  lemma ClientReadAnswered(svc: Service, s: System, n: nat)
    requires Answered(svc, s) && Replied(svc, s) && Enabled(s, ClientRead(n))
    ensures Answered(svc, Next(svc, s, ClientRead(n)))
  {
    var op, p, t := s.client.op, s.client.pending + s.down[..n], s.(down := s.down[n..]);
    ReplyPrefix(svc, s, n);
    PrefixOfFrame(p, svc.answer(op.id, op.request));
    hide Replied;
    assert Answered(svc, t);
    match Classify(p)
    case NeedMore =>
    case Ready(f) => CompleteAnswered(svc, t, Got(f[FRAME_SIZE..]));
    case Illegal(_) => CompleteAnswered(svc, t, Failed);
  }

  lemma CallAnswered(svc: Service, s: System, request: Payload)
    requires Answered(svc, s) && Enabled(s, Call(request))
    ensures Answered(svc, Next(svc, s, Call(request)))
  {
  }

  lemma StepAnswered(svc: Service, s: System, step: Step)
    requires Answered(svc, s) && Enabled(s, step)
    requires step.ClientRead? ==> Replied(svc, s)
    ensures Answered(svc, Next(svc, s, step))
  {
    match step
    case Call(request) => CallAnswered(svc, s, request);
    case WriteDone =>
      if s.client.op.oneway {
        CompleteAnswered(svc, s, Sent);
      }
    case ClientRead(n) => ClientReadAnswered(svc, s, n);
    case ClientFail => CompleteAnswered(svc, s, Failed);
    case _ =>
  }

  lemma ClientReadOrdered(svc: Service, s: System, n: nat)
    requires Ordered(svc, s) && Enabled(s, ClientRead(n))
    ensures Ordered(svc, Next(svc, s, ClientRead(n)))
  {
    var p, t := s.client.pending + s.down[..n], s.(down := s.down[n..]);
    match Classify(p)
    case NeedMore =>
    case Ready(f) => CompleteOrdered(svc, t, Got(f[FRAME_SIZE..]));
    case Illegal(_) => CompleteOrdered(svc, t, Failed);
  }

  lemma StepOrdered(svc: Service, s: System, step: Step)
    requires Ordered(svc, s) && Enabled(s, step)
    ensures Ordered(svc, Next(svc, s, step))
  {
    match step
    case WriteDone =>
      if s.client.op.oneway {
        CompleteOrdered(svc, s, Sent);
      }
    case ClientRead(n) => ClientReadOrdered(svc, s, n);
    case ClientFail => CompleteOrdered(svc, s, Failed);
    case _ =>
  }

  /** A step adds to what was served and to the calls, at the end. */
  lemma HeededBefore(svc: Service, s: System, step: Step)
    requires Served(s) && Enabled(s, step) && Heeded(svc, Next(svc, s, step))
    ensures Heeded(svc, s)
  {
    hide Served, WiredCalls, Unhandled, Classify;
    var t := Next(svc, s, step);
    assert s.served <= t.served && s.calls <= t.calls;
    forall i | 0 <= i < |s.served| && i < |s.calls| && s.calls[i].oneway
      ensures svc.silent(i, s.calls[i].request)
    {
      assert t.calls[i] == s.calls[i];
    }
  }

  lemma ClientReadReplied(svc: Service, s: System, n: nat)
    requires Answered(svc, s) && Served(s) && Replied(svc, s) && Enabled(s, ClientRead(n))
    requires !Next(svc, s, ClientRead(n)).client.Gone?
    ensures Replied(svc, Next(svc, s, ClientRead(n)))
  {
    ReplyPrefix(svc, s, n);
    PrefixOfFrame(s.client.pending + s.down[..n], svc.answer(s.client.op.id, s.client.op.request));
  }

  lemma ServerReadReplied(svc: Service, s: System, n: nat)
    requires Answered(svc, s) && Served(s) && Replied(svc, s)
    requires Enabled(s, ServerRead(n)) && !s.client.Gone? && Heeded(svc, Next(svc, s, ServerRead(n)))
    ensures Replied(svc, Next(svc, s, ServerRead(n)))
  {
    Regroup(s.server.pending, s.up, n, LeftToSend(s.client));
    SettleReplied(svc, s.(up := s.up[n..]), s.server.pending + s.up[..n]);
  }

  lemma ServerFailReplied(svc: Service, s: System)
    requires Replied(svc, s)
    ensures Replied(svc, Next(svc, s, ServerFail))
  {
    var held, down, out := ReplyHeld(s.client), s.down, Unwritten(s.server);
    assert down + [] == down;
    Assoc(held, down, out);
  }

  lemma ServerWriteReplied(svc: Service, s: System, n: nat)
    requires Replied(svc, s) && Enabled(s, ServerWrite(n))
    ensures Replied(svc, Next(svc, s, ServerWrite(n)))
  {
    var t := Next(svc, s, ServerWrite(n));
    assert t.down + Unwritten(t.server) == s.down + Unwritten(s.server);
  }

  lemma CallReplied(svc: Service, s: System, request: Payload)
    requires Ordered(svc, s) && Served(s) && Replied(svc, s) && s.client.Idle?
    ensures Replied(svc, Next(svc, s, Call(request)))
  {
  }

  lemma WriteReplied(svc: Service, s: System, step: Step)
    requires Ordered(svc, s) && Served(s) && Replied(svc, s) && Heeded(svc, s) && Enabled(s, step)
    requires step.SendBytes? || step.WriteDone?
    ensures Replied(svc, Next(svc, s, step))
  {
    assert ReplyHeld(Next(svc, s, step).client) == ReplyHeld(s.client) == [];
  }

  lemma StepReplied(svc: Service, s: System, step: Step)
    requires Inv(svc, s) && Enabled(s, step) && !Next(svc, s, step).client.Gone?
    requires Heeded(svc, Next(svc, s, step))
    ensures Replied(svc, Next(svc, s, step))
  {
    hide Ordered, Told, Wire;
    HeededBefore(svc, s, step);
    match step
    case Call(request) => CallReplied(svc, s, request);
    case ClientRead(n) => ClientReadReplied(svc, s, n);
    case ServerWrite(n) => ServerWriteReplied(svc, s, n);
    case ServerFail => ServerFailReplied(svc, s);
    case SendBytes(_) => WriteReplied(svc, s, step);
    case WriteDone => WriteReplied(svc, s, step);
    case ServerRead(n) => ServerReadReplied(svc, s, n);
    case ServerWriteDone => SettleReplied(svc, s, Unhandled(s.server));
    case ClientFail =>
  }

  lemma StepKeeps(svc: Service, s: System, step: Step)
    requires Inv(svc, s) && Enabled(s, step)
    ensures Inv(svc, Next(svc, s, step))
  {
    hide Ordered, Told, Served, Replied, Heeded;
    StepServed(svc, s, step);
    StepOrdered(svc, s, step);
    if Heeded(svc, Next(svc, s, step)) {
      HeededBefore(svc, s, step);
      StepAnswered(svc, s, step);
      if !Next(svc, s, step).client.Gone? {
        StepReplied(svc, s, step);
      }
    }
  }

  lemma {:induction false} RunKeeps(svc: Service, s: System, steps: seq<Step>, t: System)
    requires Inv(svc, s) && Reaches(svc, s, steps, t)
    ensures Inv(svc, t)
    decreases |steps|
  {
    if steps != [] {
      StepKeeps(svc, s, steps[0]);
      RunKeeps(svc, Next(svc, s, steps[0]), steps[1..], t);
    }
  }

  // ----- what a run guarantees -----

  /** After any run from a fresh connection: the server was given the first requests made, in
      order and once each; callbacks ran in call order, one per call, with at
      most the newest call still waiting; only a oneway call is completed by its write, and only
      others get a frame; and as long as no oneway call was answered, each of them got the reply
      to its own request. */
  lemma RepliesArePaired(svc: Service, steps: seq<Step>, t: System)
    requires Reaches(svc, INITIAL, steps, t)
    ensures |t.served| <= |t.calls|
    ensures forall i :: 0 <= i < |t.served| ==> t.served[i] == t.calls[i].request
    ensures |t.log| <= |t.calls| <= |t.log| + 1
    ensures |t.log| < |t.calls| <==> t.client.Sending? || t.client.Awaiting?
    ensures forall i :: 0 <= i < |t.log| ==>
      && t.log[i].op == t.calls[i] && t.calls[i].id == i
      && (t.log[i].outcome.Got? ==> !svc.oneway(t.calls[i].request))
      && (t.log[i].outcome.Sent? ==> svc.oneway(t.calls[i].request))
    ensures (forall i :: 0 <= i < |t.served| && svc.oneway(t.served[i]) ==> svc.silent(i, t.served[i])) ==>
      forall i :: 0 <= i < |t.log| && t.log[i].outcome.Got? ==>
        t.log[i].outcome.reply == svc.answer(i, t.calls[i].request)
  {
    RunKeeps(svc, INITIAL, steps, t);
    if forall i :: 0 <= i < |t.served| && svc.oneway(t.served[i]) ==> svc.silent(i, t.served[i]) {
      assert Heeded(svc, t);
    }
  }

  // ----- no call is forgotten -----

  predicate Productive(step: Step) {
    !step.Call? && !step.ServerFail? && !step.ClientFail?
  }

  predicate LegalSizes(svc: Service, ops: seq<Op>) {
    forall i :: 0 <= i < |ops| ==>
      && Legal(|ops[i].request|)
      && (svc.silent(ops[i].id, ops[i].request) || Legal(|svc.answer(ops[i].id, ops[i].request)|))
  }

  /** The server leaves these oneway calls unanswered. */
  predicate Heeding(svc: Service, ops: seq<Op>) {
    forall i :: 0 <= i < |ops| && ops[i].oneway ==> svc.silent(ops[i].id, ops[i].request)
  }

  /** A call that can end: it wants no reply, or gets one. */
  predicate Answerable(svc: Service, op: Op) {
    op.oneway || !svc.silent(op.id, op.request)
  }

  function Success(svc: Service, op: Op): Outcome {
    if op.oneway then Sent else Got(svc.answer(op.id, op.request))
  }

  function Owed(svc: Service, ops: seq<Op>): nat {
    if ops == [] then 0 else 2 + 2 * |Output(svc, ops[0].id, ops[0].request)| + Owed(svc, ops[1..])
  }

  /** Bounds the steps that are left without a new call. */
  function Work(svc: Service, s: System): nat
    requires s.server.Open? && |s.served| <= |s.calls|
  {
    2 * |LeftToSend(s.client)| + |s.up| + |s.down| + 2 * |s.server.out|
    + (if s.server.replying then 1 else 0) + (if s.client.Sending? then 1 else 0)
    + Owed(svc, s.calls[|s.served|..])
  }

  /** A connection without failures, with legal sizes and no answers to oneway calls. */
  ghost predicate Healthy(svc: Service, s: System) {
    && Answered(svc, s) && Served(s) && !s.client.Gone? && Replied(svc, s)
    && s.server.Open? && LegalSizes(svc, s.calls) && Heeding(svc, s.calls)
  }

  lemma HealthyInv(svc: Service, s: System)
    requires !s.client.Gone? && s.server.Open? && LegalSizes(svc, s.calls) && Heeding(svc, s.calls)
    ensures Inv(svc, s) <==> Healthy(svc, s)
  {
    assert Ordered(svc, s) ==> Heeded(svc, s);
  }

  /** A call in progress that can end always has an enabled step: client and server never wait
      for each other. */
  lemma NoDeadlock(svc: Service, s: System) returns (step: Step)
    requires Healthy(svc, s) && Busy(s.client) && Answerable(svc, s.client.op)
    ensures Productive(step) && Enabled(s, step)
  {
    match s.client
    case Sending(op, left) =>
      step := if left == [] then WriteDone else SendBytes(|left|);
    case Awaiting(op, held) =>
      var server := s.server;
      if s.down != [] {
        step := ClientRead(|s.down|);
      } else if server.replying {
        step := if server.out == [] then ServerWriteDone else ServerWrite(|server.out|);
      } else {
        ServerHasInput(svc, s);
        step := ServerRead(|s.up|);
      }
  }

  lemma ServerHasInput(svc: Service, s: System)
    requires Healthy(svc, s) && s.client.Awaiting? && s.down == [] && !s.server.replying
    requires Answerable(svc, s.client.op)
    ensures s.up != []
  {
    if s.up == [] {
      assert ReplyHeld(s.client) + ([] + []) == s.client.pending;
      assert Unhandled(s.server) + ([] + []) == s.server.pending;
      var ops := s.calls[|s.served|..];
      if ops != [] {
        ReadyPrefix(Frame(ops[0].request), Wire(ops[1..]));
      }
    }
  }

  lemma SettleWork(svc: Service, s: System, p: Bytes)
    requires |s.served| <= |s.calls| && LegalSizes(svc, s.calls)
    requires p + (s.up + LeftToSend(s.client)) == Wire(s.calls[|s.served|..])
    requires forall i :: 0 <= i < |s.calls| ==> s.calls[i].id == i
    ensures var t := ServerSettle(svc, s, p);
      && t.server.Open? && |t.served| <= |t.calls|
      && Work(svc, t) <= 2 * |LeftToSend(s.client)| + |s.up| + |s.down|
          + (if s.client.Sending? then 1 else 0) + Owed(svc, s.calls[|s.served|..])
  {
    FrontRequest(p, s.up + LeftToSend(s.client), s.calls[|s.served|..]);
    match Classify(p)
    case Ready(f) =>
      assert f[FRAME_SIZE..] == s.calls[|s.served|].request;
      assert s.calls[|s.served|..][1..] == s.calls[|s.served| + 1..];
    case _ =>
  }

  /** A step that makes progress stays clear of failures and completes at most the call in
      progress, successfully. */
  ghost predicate Progressed(svc: Service, s: System, t: System) {
    && !t.client.Gone? && t.server.Open? && t.calls == s.calls
    && |s.served| <= |s.calls| && |t.served| <= |t.calls|
    && s.server.Open? && Work(svc, t) < Work(svc, s)
    && CallSettled(svc, s, t)
  }

  ghost predicate CallSettled(svc: Service, s: System, t: System) {
    || (t.log == s.log && Busy(t.client) == Busy(s.client) && (Busy(t.client) ==> t.client.op == s.client.op))
    || (Busy(s.client) && !Busy(t.client) && Answerable(svc, s.client.op)
         && t.log == s.log + [Completion(s.client.op, Success(svc, s.client.op))])
  }

  lemma ServerReadWork(svc: Service, s: System, n: nat)
    requires Healthy(svc, s) && Enabled(s, ServerRead(n))
    ensures Progressed(svc, s, Next(svc, s, ServerRead(n)))
  {
    Regroup(s.server.pending, s.up, n, LeftToSend(s.client));
    SettleWork(svc, s.(up := s.up[n..]), s.server.pending + s.up[..n]);
  }

  lemma ServerWriteWork(svc: Service, s: System, n: nat)
    requires Healthy(svc, s) && Enabled(s, ServerWrite(n))
    ensures Progressed(svc, s, Next(svc, s, ServerWrite(n)))
  {
  }

  lemma ServerWriteDoneWork(svc: Service, s: System)
    requires Healthy(svc, s) && Enabled(s, ServerWriteDone)
    ensures Progressed(svc, s, Next(svc, s, ServerWriteDone))
  {
    SettleWork(svc, s, Unhandled(s.server));
  }

  lemma SendBytesWork(svc: Service, s: System, n: nat)
    requires Healthy(svc, s) && Enabled(s, SendBytes(n))
    ensures Progressed(svc, s, Next(svc, s, SendBytes(n)))
  {
  }

  lemma WriteDoneWork(svc: Service, s: System)
    requires Healthy(svc, s) && Enabled(s, WriteDone)
    ensures Progressed(svc, s, Next(svc, s, WriteDone))
  {
    assert s.client.op == s.calls[|s.log|];
  }

  lemma ClientReadWork(svc: Service, s: System, n: nat)
    requires Healthy(svc, s) && Enabled(s, ClientRead(n))
    ensures Progressed(svc, s, Next(svc, s, ClientRead(n)))
  {
    var op, p := s.client.op, s.client.pending + s.down[..n];
    assert op == s.calls[|s.log|];
    ReplyPrefix(svc, s, n);
    PrefixOfFrame(p, svc.answer(op.id, op.request));
  }

  lemma StepWork(svc: Service, s: System, step: Step)
    requires Healthy(svc, s) && Productive(step) && Enabled(s, step)
    ensures Healthy(svc, Next(svc, s, step)) && Progressed(svc, s, Next(svc, s, step))
  {
    HealthyStep(svc, s, step);
    StepProgresses(svc, s, step);
    HealthyInv(svc, Next(svc, s, step));
  }

  lemma HealthyStep(svc: Service, s: System, step: Step)
    requires Healthy(svc, s) && Enabled(s, step)
    ensures Inv(svc, Next(svc, s, step))
  {
    HealthyInv(svc, s);
    StepKeeps(svc, s, step);
  }

  lemma StepProgresses(svc: Service, s: System, step: Step)
    requires Healthy(svc, s) && Productive(step) && Enabled(s, step)
    ensures Progressed(svc, s, Next(svc, s, step))
  {
    match step
    case SendBytes(n) => SendBytesWork(svc, s, n);
    case WriteDone => WriteDoneWork(svc, s);
    case ServerRead(n) => ServerReadWork(svc, s, n);
    case ServerWrite(n) => ServerWriteWork(svc, s, n);
    case ServerWriteDone => ServerWriteDoneWork(svc, s);
    case ClientRead(n) => ClientReadWork(svc, s, n);
  }

  lemma {:induction false} ProductiveRun(svc: Service, s: System, steps: seq<Step>, t: System)
    requires Healthy(svc, s) && Reaches(svc, s, steps, t)
    requires forall i :: 0 <= i < |steps| ==> Productive(steps[i])
    ensures Healthy(svc, t) && |steps| + Work(svc, t) <= Work(svc, s) && CallSettled(svc, s, t)
    decreases |steps|
  {
    if steps != [] {
      var u := Next(svc, s, steps[0]);
      StepWork(svc, s, steps[0]);
      ProductiveRun(svc, u, steps[1..], t);
      CallSettledTransitive(svc, s, u, t);
    }
  }

  lemma CallSettledTransitive(svc: Service, s: System, t: System, u: System)
    requires CallSettled(svc, s, t) && CallSettled(svc, t, u)
    ensures CallSettled(svc, s, u)
  {
  }

  /** Without failures, whatever order the environment takes the steps in, there are at most
      Work(s) of them. A call in progress that can end is completed successfully, with its own
      reply, when none is left; one that cannot, as the server leaves it unanswered, never is. */
  lemma CallInProgressEnds(svc: Service, s: System, steps: seq<Step>, t: System)
    requires Healthy(svc, s) && Busy(s.client) && Reaches(svc, s, steps, t)
    requires forall i :: 0 <= i < |steps| ==> Productive(steps[i])
    ensures |steps| <= Work(svc, s)
    ensures Answerable(svc, s.client.op) && (forall step :: Productive(step) ==> !Enabled(t, step)) ==>
      t.client.Idle? && t.log == s.log + [Completion(s.client.op, Success(svc, s.client.op))]
    ensures !Answerable(svc, s.client.op) ==> t.log == s.log && Busy(t.client) && t.client.op == s.client.op
  {
    ProductiveRun(svc, s, steps, t);
    if Busy(t.client) && Answerable(svc, t.client.op) {
      var step := NoDeadlock(svc, t);
    }
  }

  // ----- from the first call on -----

  /** No step of the run is a failure. */
  predicate Undisturbed(steps: seq<Step>) {
    forall i :: 0 <= i < |steps| ==> !steps[i].ServerFail? && !steps[i].ClientFail?
  }

  lemma {:induction false} CallsGrow(svc: Service, s: System, steps: seq<Step>, t: System)
    requires Reaches(svc, s, steps, t)
    ensures s.calls <= t.calls
    decreases |steps|
  {
    if steps != [] {
      CallsGrow(svc, Next(svc, s, steps[0]), steps[1..], t);
    }
  }

  lemma {:induction false} StepStaysHealthy(svc: Service, s: System, step: Step)
    requires Healthy(svc, s) && Enabled(s, step) && !step.ServerFail? && !step.ClientFail?
    requires LegalSizes(svc, Next(svc, s, step).calls) && Heeding(svc, Next(svc, s, step).calls)
    ensures Healthy(svc, Next(svc, s, step))
  {
    if step.Call? {
      HealthyStep(svc, s, step);
      HealthyInv(svc, Next(svc, s, step));
    } else {
      StepWork(svc, s, step);
    }
  }

  ghost predicate Reachable(svc: Service, s: System) {
    exists steps :: Reaches(svc, INITIAL, steps, s)
  }

  lemma {:induction false} OneMoreStep(svc: Service, s: System, steps: seq<Step>, t: System, step: Step)
    requires Reaches(svc, s, steps, t) && Enabled(t, step)
    ensures Reaches(svc, s, steps + [step], Next(svc, t, step))
    decreases |steps|
  {
    if steps == [] {
      assert Reaches(svc, Next(svc, t, step), [], Next(svc, t, step));
    } else {
      OneMoreStep(svc, Next(svc, s, steps[0]), steps[1..], t, step);
      assert (steps + [step])[1..] == steps[1..] + [step];
    }
  }

  predicate Up(s: System) {
    !s.client.Gone? && s.server.Open?
  }

  lemma {:induction false} ReachableNext(svc: Service, s: System, step: Step)
    requires Reachable(svc, s) && Enabled(s, step)
    ensures Reachable(svc, Next(svc, s, step))
  {
    var steps :| Reaches(svc, INITIAL, steps, s);
    OneMoreStep(svc, INITIAL, steps, s, step);
  }

  lemma {:induction false} ReachableInv(svc: Service, s: System)
    requires Reachable(svc, s)
    ensures Inv(svc, s)
  {
    var steps :| Reaches(svc, INITIAL, steps, s);
    RunKeeps(svc, INITIAL, steps, s);
  }

  lemma {:induction false} StepStaysUp(svc: Service, s: System, step: Step)
    requires Reachable(svc, s) && Up(s) && Enabled(s, step) && !step.ServerFail? && !step.ClientFail?
    requires LegalSizes(svc, s.calls) && LegalSizes(svc, Next(svc, s, step).calls)
    requires Heeding(svc, s.calls) && Heeding(svc, Next(svc, s, step).calls)
    ensures Up(Next(svc, s, step))
  {
    ReachableInv(svc, s);
    HealthyInv(svc, s);
    StepStaysHealthy(svc, s, step);
  }

  /** Calls of legal sizes, no answers to oneway ones, and steps without a failure keep the
      connection up. */
  lemma {:induction false} StaysUp(svc: Service, s: System, steps: seq<Step>, t: System)
    requires Reachable(svc, s) && Up(s) && Reaches(svc, s, steps, t) && Undisturbed(steps)
    requires LegalSizes(svc, t.calls) && Heeding(svc, t.calls)
    ensures Up(t)
    decreases |steps|
  {
    if steps != [] {
      CallsGrow(svc, s, steps, t);
      CallsGrow(svc, Next(svc, s, steps[0]), steps[1..], t);
      ReachableNext(svc, s, steps[0]);
      StepStaysUp(svc, s, steps[0]);
      StaysUp(svc, Next(svc, s, steps[0]), steps[1..], t);
    }
  }

  /** From a fresh connection, after any undisturbed run of legal calls, the oneway ones of them
      unanswered: within Work(s) steps, taken in any order, the call in progress is completed
      with the reply to just this call, and there always is a next step until it is; if and only
      if it is one the server answers, or oneway. */
  lemma EveryCallIsAnswered(svc: Service, before: seq<Step>, s: System, steps: seq<Step>, t: System)
    requires Reaches(svc, INITIAL, before, s) && Undisturbed(before)
    requires LegalSizes(svc, s.calls) && Heeding(svc, s.calls)
    requires Busy(s.client) && Reaches(svc, s, steps, t)
    requires forall i :: 0 <= i < |steps| ==> Productive(steps[i])
    ensures Healthy(svc, s) && s.calls != []
    ensures s.client.op == s.calls[|s.calls| - 1] && s.client.op.id == |s.calls| - 1
    ensures |steps| <= Work(svc, s)
    ensures Answerable(svc, s.client.op) && (forall step :: Productive(step) ==> !Enabled(t, step)) ==>
      t.client.Idle? && t.log == s.log + [Completion(s.client.op, Success(svc, s.client.op))]
    ensures !Answerable(svc, s.client.op) ==> t.log == s.log && Busy(t.client) && t.client.op == s.client.op
  {
    assert Reaches(svc, INITIAL, [], INITIAL);
    StaysUp(svc, INITIAL, before, s);
    ReachableInv(svc, s);
    HealthyInv(svc, s);
    CallInProgressEnds(svc, s, steps, t);
  }

  // ----- answers to oneway calls -----

  /** Either no call wants a reply, or the server answers no oneway call that it can be given. */
  ghost predicate Discreet(oneway: Payload -> bool, silent: (nat, Payload) -> bool) {
    || (forall q: Payload :: oneway(q))
    || (forall n: nat, r: Payload :: Legal(|r|) && oneway(r) ==> silent(n, r))
  }

  lemma {:induction false} ServedLegal(svc: Service, s: System, steps: seq<Step>, t: System)
    requires Reaches(svc, s, steps, t) && forall i :: 0 <= i < |s.served| ==> Legal(|s.served[i]|)
    ensures forall i :: 0 <= i < |t.served| ==> Legal(|t.served[i]|)
    decreases |steps|
  {
    if steps != [] {
      ServedLegal(svc, Next(svc, s, steps[0]), steps[1..], t);
    }
  }

  lemma DiscreetPairs(svc: Service, t: System)
    requires Discreet(svc.oneway, svc.silent) && Reachable(svc, t)
    ensures Told(svc, t)
  {
    var steps :| Reaches(svc, INITIAL, steps, t);
    RepliesArePaired(svc, steps, t);
    if !forall q: Payload :: svc.oneway(q) {
      ServedLegal(svc, INITIAL, steps, t);
    }
  }

  /** After k oneway calls of the same request, all done with. */
  function Hushed(r: Payload, k: nat): System {
    System(Idle, [], [], Open([], false, []),
           seq(k, i requires 0 <= i < k => Op(i, r, true)), seq(k, _ => r),
           seq(k, i requires 0 <= i < k => Completion(Op(i, r, true), Sent)))
  }

  /** One oneway call more, of which the server has just been given the request. */
  function Given(svc: Service, r: Payload, k: nat): System {
    Hushed(r, k + 1).(server := Open(Frame(r), true, Output(svc, k, r)))
  }

  lemma FrameIsReady(p: Payload)
    requires Legal(|p|)
    ensures Classify(Frame(p)) == Ready(Frame(p))
  {
    assert Frame(p)[..|Frame(p)|] == Frame(p);
  }

  lemma GivenReachable(svc: Service, r: Payload, k: nat)
    requires Reachable(svc, Hushed(r, k)) && Legal(|r|) && svc.oneway(r)
    ensures Reachable(svc, Given(svc, r, k))
  {
    var f, op := Frame(r), Op(k, r, true);
    var s0, s4 := Hushed(r, k), Hushed(r, k + 1);
    var s1 := s0.(calls := s0.calls + [op], client := Sending(op, f));
    var s2 := s1.(client := Sending(op, []), up := f);
    var s3 := s2.(client := Idle, log := s2.log + [Completion(op, Sent)]);
    assert s3.calls == s4.calls && s3.log == s4.log && s3.served + [r] == s4.served;
    ReachableNext(svc, s0, Call(r));
    assert Next(svc, s0, Call(r)) == s1;
    assert f[|f|..] == [] && f[..|f|] == f && [] + f == f;
    ReachableNext(svc, s1, SendBytes(|f|));
    assert Next(svc, s1, SendBytes(|f|)) == s2;
    ReachableNext(svc, s2, WriteDone);
    assert Next(svc, s2, WriteDone) == s3;
    FrameIsReady(r);
    ReachableNext(svc, s3, ServerRead(|f|));
    assert Next(svc, s3, ServerRead(|f|)) == Given(svc, r, k);
  }

  lemma {:induction false} HushedReachable(svc: Service, r: Payload, k: nat)
    requires Legal(|r|) && svc.oneway(r) && forall j: nat :: j < k ==> svc.silent(j, r)
    ensures Reachable(svc, Hushed(r, k))
  {
    if k == 0 {
      assert Hushed(r, 0) == INITIAL && Reaches(svc, INITIAL, [], INITIAL);
    } else {
      HushedReachable(svc, r, k - 1);
      GivenReachable(svc, r, k - 1);
      var s := Given(svc, r, k - 1);
      FrameIsReady(r);
      assert Frame(r)[|Frame(r)|..] == [];
      ReachableNext(svc, s, ServerWriteDone);
      assert Next(svc, s, ServerWriteDone) == Hushed(r, k);
    }
  }

  /** The server's answer to that call is on its way when the next is made. */
  lemma AnswerUnderWay(svc: Service, r: Payload, k: nat)
    requires Reachable(svc, Given(svc, r, k)) && Legal(|r|) && !svc.silent(k, r)
    ensures Reachable(svc, Hushed(r, k + 1).(down := Frame(svc.answer(k, r))))
  {
    var a := Frame(svc.answer(k, r));
    var s0, s2 := Given(svc, r, k), Hushed(r, k + 1).(down := a);
    var s1 := s2.(server := Open(Frame(r), true, []));
    FrameIsReady(r);
    assert a[|a|..] == [] && a[..|a|] == a && [] + a == a && Frame(r)[|Frame(r)|..] == [];
    ReachableNext(svc, s0, ServerWrite(|a|));
    assert Next(svc, s0, ServerWrite(|a|)) == s1;
    ReachableNext(svc, s1, ServerWriteDone);
    assert Next(svc, s1, ServerWriteDone) == s2;
  }

  /** The answer to a oneway call is taken for the reply to the next call that wants one. */
  lemma {:induction false} OnewayReplyIsMistaken(svc: Service, r: Payload, k: nat, q: Payload) returns (t: System)
    requires Legal(|r|) && svc.oneway(r) && (forall j: nat :: j < k ==> svc.silent(j, r))
    requires !svc.silent(k, r) && Legal(|svc.answer(k, r)|) && !svc.oneway(q)
    ensures Reachable(svc, t) && |t.log| == k + 2
    ensures t.log[k + 1] == Completion(Op(k + 1, q, false), Got(svc.answer(k, r)))
  {
    HushedReachable(svc, r, k);
    GivenReachable(svc, r, k);
    AnswerUnderWay(svc, r, k);
    var a, f, op := Frame(svc.answer(k, r)), Frame(q), Op(k + 1, q, false);
    var s2 := Hushed(r, k + 1).(down := a);
    var s3 := s2.(calls := s2.calls + [op], client := Sending(op, f));
    var s4 := s3.(client := Sending(op, []), up := f);
    var s5 := s4.(client := Awaiting(op, []));
    assert f[|f|..] == [] && f[..|f|] == f && [] + f == f && a[..|a|] == a && [] + a == a;
    ReachableNext(svc, s2, Call(q));
    assert Next(svc, s2, Call(q)) == s3;
    ReachableNext(svc, s3, SendBytes(|f|));
    assert Next(svc, s3, SendBytes(|f|)) == s4;
    ReachableNext(svc, s4, WriteDone);
    assert Next(svc, s4, WriteDone) == s5;
    FrameIsReady(svc.answer(k, r));
    ReachableNext(svc, s5, ClientRead(|a|));
    t := Next(svc, s5, ClientRead(|a|));
  }

  /** The first time a request is answered. */
  lemma {:induction false} FirstAnswered(silent: (nat, Payload) -> bool, r: Payload, n: nat) returns (k: nat)
    requires !silent(n, r)
    ensures !silent(k, r) && forall j: nat :: j < k ==> silent(j, r)
  {
    if j: nat :| j < n && !silent(j, r) {
      k := FirstAnswered(silent, r, j);
    } else {
      k := n;
    }
  }

  lemma {:induction false} IndiscreetMispairs(oneway: Payload -> bool, silent: (nat, Payload) -> bool)
    returns (answer: (nat, Payload) -> Payload, t: System)
    requires !Discreet(oneway, silent)
    ensures Reachable(Service(oneway, silent, answer), t) && !Told(Service(oneway, silent, answer), t)
  {
    var q: Payload :| !oneway(q);
    var n: nat, r: Payload :| Legal(|r|) && oneway(r) && !silent(n, r);
    var k := FirstAnswered(silent, r, n);
    answer := (m: nat, x: Payload) => if m == k then [1] else [0];
    t := OnewayReplyIsMistaken(Service(oneway, silent, answer), r, k, q);
    assert t.log[k + 1].outcome.Got? && t.log[k + 1].outcome.reply == [1];
  }

  /** In all runs, however the server answers, every callback that gets a frame gets the reply to
      its own request; if and only if no call wants a reply or no oneway call is answered. */
  lemma PairingExactly(oneway: Payload -> bool, silent: (nat, Payload) -> bool)
    ensures Discreet(oneway, silent) <==>
      forall answer: (nat, Payload) -> Payload, t: System ::
        Reachable(Service(oneway, silent, answer), t) ==> Told(Service(oneway, silent, answer), t)
  {
    if Discreet(oneway, silent) {
      forall answer: (nat, Payload) -> Payload, t: System | Reachable(Service(oneway, silent, answer), t)
        ensures Told(Service(oneway, silent, answer), t)
      {
        DiscreetPairs(Service(oneway, silent, answer), t);
      }
    } else {
      var answer, t := IndiscreetMispairs(oneway, silent);
    }
  }

  /** A server that does not know the oneway method [1], and answers it with the exception [88]. */
  const IGNORANT := Service(x => x == [1], (n, x) => false, (n, x) => if x == [1] then [88] else [42])

  /** A run: the client's next call is told this exception instead of the [42] it is owed. */
  lemma UnknownOnewayMispairs() returns (t: System)
    ensures Reachable(IGNORANT, t) && |t.log| == 2 && IGNORANT.answer(1, [2]) == [42]
    ensures t.log[1] == Completion(Op(1, [2], false), Got([88]))
  {
    t := OnewayReplyIsMistaken(IGNORANT, [1], 0, [2]);
  }
}
