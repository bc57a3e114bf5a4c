/** Generated dispatch along a service's inheritance chain (thrift_0.5.0_patch/t_cpp_generator.cc.inl):
    the ids an asynchronous client tells its operations apart by, fill_result on the client and
    process_fn on the server. */
module Dispatch {
  import opened Wrappers

  /** A function, with the names of the exceptions it declares. */
  datatype Function = Function(name: string, isVoid: bool, xceptions: seq<string>)

  /** A service, with the one it extends. */
  datatype Service =
    | Root(functions: seq<Function>)
    | Extending(functions: seq<Function>, base: Service)

  /** The service `up` steps up the chain. */
  predicate HasAncestor(s: Service, up: nat) {
    up == 0 || (s.Extending? && HasAncestor(s.base, up - 1))
  }

  function Ancestor(s: Service, up: nat): Service
    requires HasAncestor(s, up)
  {
    if up == 0 then s else Ancestor(s.base, up - 1)
  }

  /** A function of the chain: the index-th of the service `up` steps up. */
  datatype Place = Place(up: nat, index: nat)

  predicate Within(s: Service, p: Place) {
    HasAncestor(s, p.up) && p.index < |Ancestor(s, p.up).functions|
  }

  function At(s: Service, p: Place): Function
    requires Within(s, p)
  {
    Ancestor(s, p.up).functions[p.index]
  }

  // ----- the enumeration -----

  /** kasync_..._begin: 0, or where the base service's ends. */
  function Begin(s: Service): nat
    decreases s, 0
  {
    if s.Root? then 0 else End(s.base)
  }

  function End(s: Service): nat
    decreases s, 1
  {
    Begin(s) + |s.functions| + 1
  }

  /** The enumerator of a function. */
  function IdOf(s: Service, p: Place): nat
    requires Within(s, p)
  {
    Begin(Ancestor(s, p.up)) + 1 + p.index
  }

  lemma {:induction false} AncestorEnds(s: Service, up: nat)
    requires HasAncestor(s, up) && up > 0
    ensures End(Ancestor(s, up)) <= Begin(s)
  {
    if up > 1 {
      AncestorEnds(s.base, up - 1);
    }
  }

  lemma {:induction false} AncestorOfAncestor(s: Service, up: nat, more: nat)
    requires HasAncestor(s, up + more)
    ensures HasAncestor(s, up) && HasAncestor(Ancestor(s, up), more)
    ensures Ancestor(Ancestor(s, up), more) == Ancestor(s, up + more)
  {
    if up > 0 {
      AncestorOfAncestor(s.base, up - 1, more);
    }
  }

  /** No two functions of a chain have the same id. */
  lemma {:induction false} IdsDiffer(s: Service, p: Place, q: Place)
    requires Within(s, p) && Within(s, q) && p != q
    ensures IdOf(s, p) != IdOf(s, q)
  {
    if p.up < q.up {
      AncestorOfAncestor(s, p.up, q.up - p.up);
      AncestorEnds(Ancestor(s, p.up), q.up - p.up);
    } else if q.up < p.up {
      AncestorOfAncestor(s, q.up, p.up - q.up);
      AncestorEnds(Ancestor(s, q.up), p.up - q.up);
    }
  }

  // ----- fill_result -----

  /** The case of one switch that has this id; functions without a result have none. */
  function CaseOf(functions: seq<Function>, begin: nat, id: nat, i: nat): (r: Option<nat>)
    requires i <= |functions|
    ensures r.Some? ==> r.value < |functions|
    decreases |functions| - i
  {
    if i == |functions| then None
    else if !functions[i].isVoid && begin + 1 + i == id then Some(i)
    else CaseOf(functions, begin, id, i + 1)
  }

  /** Whose recv_ is run: a case of this switch, else what the base client does. */
  function FillResult(s: Service, id: nat): (r: Option<Place>)
    ensures r.Some? ==> Within(s, r.value)
  {
    var c := CaseOf(s.functions, Begin(s), id, 0);
    if c.Some? then
      Some(Place(0, c.value))
    else if s.Extending? then
      var up := FillResult(s.base, id);
      if up.Some? then Some(Place(up.value.up + 1, up.value.index)) else None
    else
      None
  }

  lemma {:induction false} CaseFound(functions: seq<Function>, begin: nat, id: nat, i: nat)
    requires i <= |functions|
    ensures var k := id - begin - 1;
      CaseOf(functions, begin, id, i) == if i <= k < |functions| && !functions[k].isVoid then Some(k) else None
    decreases |functions| - i
  {
    if i < |functions| {
      CaseFound(functions, begin, id, i + 1);
    }
  }

  lemma {:induction false} BelowMine(s: Service, id: nat)
    requires id >= End(s)
    ensures FillResult(s, id) == None
  {
    CaseFound(s.functions, Begin(s), id, 0);
    if s.Extending? {
      BelowMine(s.base, id);
    }
  }

  /** On the most derived client the id of any function of the chain runs exactly that
      function's recv_, and none if it returns nothing. */
  lemma {:induction false} FillResultFinds(s: Service, p: Place)
    requires Within(s, p)
    ensures FillResult(s, IdOf(s, p)) == if At(s, p).isVoid then None else Some(p)
  {
    var id := IdOf(s, p);
    CaseFound(s.functions, Begin(s), id, 0);
    if p.up == 0 {
      if At(s, p).isVoid && s.Extending? {
        BelowMine(s.base, id);
      }
    } else {
      AncestorEnds(s, p.up);
      FillResultFinds(s.base, Place(p.up - 1, p.index));
    }
  }

  // ----- the reply, and what recv_ makes of it -----

  datatype MessageType = TCall | TReply | TException | TOneway

  /** What reading a message may throw: a TProtocolException or TTransportException of some type,
      a TException of no such class, or anything else. */
  datatype Failure = OfProtocol(code: int) | OfTransport(code: int) | OfThrift | Other

  /** A reply: its header, what reading it throws if it cannot be read, the type in the
      TApplicationException if it carries one, and else which fields of the result are set. */
  datatype Message = Message(
    name: string, mtype: MessageType, failure: Option<Failure>, code: int, hasSuccess: bool, raised: set<string>)

  // The enumerators of TApplicationException::TApplicationExceptionType, TProtocolException's
  // and TTransportException's UNKNOWN being 0 as well.
  const UNKNOWN := 0
  const UNKNOWN_METHOD := 1
  const INVALID_MESSAGE_TYPE := 2
  const WRONG_METHOD_NAME := 3
  const MISSING_RESULT := 5

  /** What recv_ throws: a TApplicationException of some type, a declared exception, or whatever
      reading threw. */
  datatype Thrown =
    | Application(code: int)
    | Declared(name: string)
    | Reading(failure: Failure)

  function FirstRaised(xceptions: seq<string>, raised: set<string>): (r: Option<string>)
    ensures r.Some? ==> r.value in xceptions && r.value in raised
    ensures r.None? ==> forall x <- xceptions :: x !in raised
  {
    if xceptions == [] then None
    else if xceptions[0] in raised then Some(xceptions[0])
    else FirstRaised(xceptions[1..], raised)
  }

  /** recv_: nothing thrown means that it returns, with the result if there is to be one. */
  function Recv(f: Function, m: Message): Option<Thrown> {
    if m.failure.Some? then Some(Reading(m.failure.value))
    else if m.mtype.TException? then Some(Application(m.code))
    else if !m.mtype.TReply? then Some(Application(INVALID_MESSAGE_TYPE))
    else if m.name != f.name then Some(Application(WRONG_METHOD_NAME))
    else if !f.isVoid && m.hasSuccess then None
    else
      var x := FirstRaised(f.xceptions, m.raised);
      if x.Some? then Some(Declared(x.value))
      else if f.isVoid then None
      else Some(Application(MISSING_RESULT))
  }

  // ----- on_handle_frame, and what the callback is told -----

  datatype Category = PosixCategory | ThriftCategory | ApplicationCategory | ProtocolCategory | TransportCategory

  /** boost::system::error_code; any code of value 0 tests as no error. */
  datatype ErrorCode = ErrorCode(value: int, category: Category)

  predicate IsError(ec: ErrorCode) {
    ec.value != 0
  }

  const SUCCESS := ErrorCode(0, PosixCategory)
  // EBADMSG, here by its value on Linux
  const BAD_MESSAGE := ErrorCode(74, PosixCategory)

  /** The catch clauses of on_handle_frame with make_error_code (async/async_exception.h). Declared
      exceptions are generated as plain TExceptions. */
  function CodeOf(thrown: Option<Thrown>): ErrorCode {
    match thrown
    case None => SUCCESS
    case Some(Application(code)) => ErrorCode(code, ApplicationCategory)
    case Some(Declared(_)) => ErrorCode(UNKNOWN, ThriftCategory)
    case Some(Reading(OfProtocol(code))) => ErrorCode(code, ProtocolCategory)
    case Some(Reading(OfTransport(code))) => ErrorCode(code, TransportCategory)
    case Some(Reading(OfThrift)) => ErrorCode(UNKNOWN, ThriftCategory)
    case Some(Reading(Other)) => BAD_MESSAGE
  }

  /** The code the callback is invoked with when this reply arrives. */
  function CallbackCode(s: Service, id: nat, m: Message): ErrorCode {
    var p := FillResult(s, id);
    CodeOf(if p.Some? then Recv(At(s, p.value), m) else None)
  }

  predicate CarriesDeclared(f: Function, m: Message) {
    exists x :: x in f.xceptions && x in m.raised
  }

  predicate CarriesResult(f: Function, m: Message) {
    m.failure.None? && m.mtype.TReply? && m.name == f.name && (!f.isVoid ==> m.hasSuccess)
  }

  /** Replies whose failure has a number other than 0. */
  predicate Numbered(f: Function, m: Message) {
    match m.failure
    case Some(OfProtocol(code)) => code != UNKNOWN
    case Some(OfTransport(code)) => code != UNKNOWN
    case Some(OfThrift) => false
    case Some(Other) => true
    case None =>
      if m.mtype.TException? then m.code != UNKNOWN
      else !m.mtype.TReply? || m.name != f.name || (!f.isVoid && !m.hasSuccess && !CarriesDeclared(f, m))
  }

  /** Of which replies the callback is told as an error: exactly if the function returns something
      and the failure has a number other than 0. All other failures, a two-way void function's
      whatever they are, and of every function those of type UNKNOWN and the declared exceptions,
      look like a success. */
  lemma ToldExactly(s: Service, p: Place, m: Message)
    requires Within(s, p)
    ensures IsError(CallbackCode(s, IdOf(s, p), m)) <==> !At(s, p).isVoid && Numbered(At(s, p), m)
    ensures Numbered(At(s, p), m) ==> Recv(At(s, p), m).Some?
  {
    FillResultFinds(s, p);
  }

  /** So the callback is told the truth, an error exactly if recv_ would throw, if and only if the
      failure is numbered where there is one, and there is none if the function is void. */
  lemma ToldTruly(s: Service, p: Place, m: Message)
    requires Within(s, p)
    ensures var f := At(s, p);
      (IsError(CallbackCode(s, IdOf(s, p), m)) <==> Recv(f, m).Some?) <==>
      (CarriesResult(f, m) && (f.isVoid ==> !CarriesDeclared(f, m))) || (!f.isVoid && Numbered(f, m))
  {
    FillResultFinds(s, p);
  }

  // ----- process_fn -----

  predicate LastOf(functions: seq<Function>, name: string, k: nat) {
    k < |functions| && functions[k].name == name && forall j :: k < j < |functions| ==> functions[j].name != name
  }

  predicate NoneOf(functions: seq<Function>, name: string) {
    forall j :: 0 <= j < |functions| ==> functions[j].name != name
  }

  /** process_fn_map_ as the constructor fills it, and as it is looked up: own entries first. */
  function OwnMap(functions: seq<Function>): (m: map<string, nat>)
    ensures forall name <- m :: m[name] < |functions|
  {
    if functions == [] then
      map[]
    else
      var k := |functions| - 1;
      OwnMap(functions[..k])[functions[k].name := k]
  }

  /** The constructor's assignments: the last function of each name stays. */
  method FillMap(s: Service) returns (processFnMap: map<string, nat>)
    ensures processFnMap == OwnMap(s.functions)
    ensures forall name :: name in processFnMap ==> LastOf(s.functions, name, processFnMap[name])
    ensures forall name :: name in processFnMap || NoneOf(s.functions, name)
  {
    processFnMap := map[];
    for i := 0 to |s.functions|
      invariant processFnMap == OwnMap(s.functions[..i])
    {
      assert s.functions[..i + 1][..i] == s.functions[..i];
      processFnMap := processFnMap[s.functions[i].name := i];
    }
    assert s.functions[..|s.functions|] == s.functions;
    forall name: string
      ensures name in processFnMap ==> LastOf(s.functions, name, processFnMap[name])
      ensures name in processFnMap || NoneOf(s.functions, name)
    {
      OwnMapFinds(s.functions, name);
    }
  }

  /** Who processes a call of this name; nobody if it is an unknown method. */
  function ProcessFn(s: Service, name: string): (r: Option<Place>)
    ensures r.Some? ==> Within(s, r.value)
  {
    var own := OwnMap(s.functions);
    if name in own then
      Some(Place(0, own[name]))
    else if s.Extending? then
      var up := ProcessFn(s.base, name);
      if up.Some? then Some(Place(up.value.up + 1, up.value.index)) else None
    else
      None
  }

  lemma {:induction false} OwnMapFinds(functions: seq<Function>, name: string)
    ensures name in OwnMap(functions) ==> LastOf(functions, name, OwnMap(functions)[name])
    ensures name !in OwnMap(functions) ==> NoneOf(functions, name)
  {
    if functions != [] {
      var k := |functions| - 1;
      OwnMapFinds(functions[..k], name);
      assert forall j :: 0 <= j < k ==> functions[..k][j] == functions[j];
    }
  }

  /** A function nearer to the most derived service, or a later one of the same, wins. */
  predicate Before(p: Place, q: Place) {
    p.up < q.up || (p.up == q.up && p.index > q.index)
  }

  /** process_fn reaches the most derived function of that name, and reports an unknown method
      just if the chain has none. */
  lemma {:induction false} ProcessFnFinds(s: Service, name: string)
    ensures ProcessFn(s, name).Some? ==> var p := ProcessFn(s, name).value;
      && Within(s, p) && At(s, p).name == name
      && (forall q :: Within(s, q) && Before(q, p) ==> At(s, q).name != name)
    ensures ProcessFn(s, name).None? ==> forall q :: Within(s, q) ==> At(s, q).name != name
  {
    OwnMapFinds(s.functions, name);
    if s.Extending? {
      ProcessFnFinds(s.base, name);
    }
    if name !in OwnMap(s.functions) {
      forall q | Within(s, q) && At(s, q).name == name
        ensures q.up > 0 && Within(s.base, Place(q.up - 1, q.index))
        ensures At(s.base, Place(q.up - 1, q.index)).name == name
      {
      }
    }
  }

  /** Client and server mean the same function, if its name is not redefined below it. */
  lemma {:induction false} SameFunction(s: Service, p: Place)
    requires Within(s, p) && forall q :: Within(s, q) && Before(q, p) ==> At(s, q).name != At(s, p).name
    ensures ProcessFn(s, At(s, p).name) == Some(p)
    ensures FillResult(s, IdOf(s, p)) == if At(s, p).isVoid then None else ProcessFn(s, At(s, p).name)
  {
    ProcessFnFinds(s, At(s, p).name);
    FillResultFinds(s, p);
  }

  // ----- from the handler to the callback -----

  /** What the handler of a function does; what is thrown may be declared or not. */
  datatype Outcome = Returned | Raised(name: string)

  /** The reply of the generated process function. What is not declared travels as a
      TApplicationException made from its message alone, so of type UNKNOWN. */
  function Reply(f: Function, outcome: Outcome): Message {
    match outcome
    case Returned => Message(f.name, TReply, None, UNKNOWN, !f.isVoid, {})
    case Raised(x) =>
      if x in f.xceptions then
        Message(f.name, TReply, None, UNKNOWN, false, {x})
      else
        Message(f.name, TException, None, UNKNOWN, false, {})
  }

  /** The reply to a call of this name. */
  function Process(s: Service, name: string, outcome: Outcome): Message {
    var p := ProcessFn(s, name);
    if p.Some? then
      Reply(At(s, p.value), outcome)
    else
      Message(name, TException, None, UNKNOWN_METHOD, false, {})
  }

  /** From the handler to recv_ nothing is lost: it throws just what the handler raised, a declared
      exception by its name, and returns if the handler did. */
  lemma {:induction false} OutcomeReachesRecv(s: Service, p: Place, outcome: Outcome)
    requires Within(s, p) && forall q :: Within(s, q) && Before(q, p) ==> At(s, q).name != At(s, p).name
    ensures Recv(At(s, p), Process(s, At(s, p).name, outcome)) ==
            if outcome.Returned? then None
            else if outcome.name in At(s, p).xceptions then Some(Declared(outcome.name))
            else Some(Application(UNKNOWN))
  {
    SameFunction(s, p);
  }

  /** But nothing a handler does ever reaches the callback as an error, of whichever function. What
      was raised shows in the category alone, and there only if the function returns something. */
  lemma {:induction false} NoOutcomeIsAnError(s: Service, p: Place, outcome: Outcome)
    requires Within(s, p) && forall q :: Within(s, q) && Before(q, p) ==> At(s, q).name != At(s, p).name
    ensures var ec := CallbackCode(s, IdOf(s, p), Process(s, At(s, p).name, outcome));
      && !IsError(ec)
      && ec.category == if At(s, p).isVoid || outcome.Returned? then PosixCategory
                        else if outcome.name in At(s, p).xceptions then ThriftCategory
                        else ApplicationCategory
  {
    OutcomeReachesRecv(s, p, outcome);
    FillResultFinds(s, p);
  }

  /** A server that does not know the method is noticed, if the function returns something. */
  lemma {:induction false} UnknownMethodIsAnError(s: Service, p: Place, server: Service, outcome: Outcome)
    requires Within(s, p) && forall q :: Within(server, q) ==> At(server, q).name != At(s, p).name
    ensures var ec := CallbackCode(s, IdOf(s, p), Process(server, At(s, p).name, outcome));
      && (IsError(ec) <==> !At(s, p).isVoid)
      && (IsError(ec) ==> ec == ErrorCode(UNKNOWN_METHOD, ApplicationCategory))
  {
    ProcessFnFinds(server, At(s, p).name);
    FillResultFinds(s, p);
  }

  /** A service that shows it twice: one function returns nothing, the other something; each
      declares an exception, which its handler raises and recv_ would throw, and each callback is
      told of no error. */
  lemma ExceptionIsLost(s: Service, store: Function, load: Function)
    requires store == Function("store", true, ["Full"]) && load == Function("load", false, ["NotFound"])
    requires s == Root([store, load])
    ensures Recv(store, Process(s, "store", Raised("Full"))) == Some(Declared("Full"))
    ensures CallbackCode(s, IdOf(s, Place(0, 0)), Process(s, "store", Raised("Full"))) == SUCCESS
    ensures Recv(load, Process(s, "load", Raised("NotFound"))) == Some(Declared("NotFound"))
    ensures CallbackCode(s, IdOf(s, Place(0, 1)), Process(s, "load", Raised("NotFound")))
            == ErrorCode(0, ThriftCategory)
  {
    assert At(s, Place(0, 0)) == store && At(s, Place(0, 1)) == load;
    forall p | p == Place(0, 0) || p == Place(0, 1)
      ensures Within(s, p) && forall q :: Within(s, q) && Before(q, p) ==> At(s, q).name != At(s, p).name
    {
      assert "store"[0] != "load"[0];
    }
    OutcomeReachesRecv(s, Place(0, 0), Raised("Full"));
    NoOutcomeIsAnError(s, Place(0, 0), Raised("Full"));
    FillResultFinds(s, Place(0, 0));
    OutcomeReachesRecv(s, Place(0, 1), Raised("NotFound"));
    NoOutcomeIsAnError(s, Place(0, 1), Raised("NotFound"));
  }
}
