/** The connection pool under concurrent callers, probes and reclaim jobs (sync/thrift_pool.h):
    each step is one lock section, or what a thread does between two of them with the one
    connection in its hand. Connections and threads are numbered. */
module PoolInterleaving {

  type Connection = nat
  type Thread = nat

  /** Why a connection is taken; a probe has asks left, a reclaim run connections to open and to destroy. */
  datatype Job = ForCaller | ForProbe(tries: nat) | ForReclaim(toOpen: nat, toClose: nat)

  datatype Pc =
    | Idle
    | LookingFree(job: Job)
    | LookingClosed(job: Job)
    | Connecting(job: Job, c: Connection)
    | Making(job: Job)
    | Has(job: Job, c: Connection, fromFree: bool)
    | Granting(c: Connection)
    | Releasing(c: Connection)
    | Putting(job: Job, c: Connection)
    | Inserting(job: Job, c: Connection, asOpen: bool)
    | Opening(toOpen: nat, toClose: nat)
    | Shrinking(toFree: nat, toClose: nat)
    | Destroying(c: Connection, toFree: nat, toClose: nat)

  /** The connection a thread keeps outside all three sets. */
  function Hand(pc: Pc): set<Connection> {
    match pc
    case Connecting(_, c) => {c}
    case Has(_, c, _) => {c}
    case Granting(c) => {c}
    case Releasing(c) => {c}
    case Putting(_, c) => {c}
    case Inserting(_, c, _) => {c}
    case Destroying(c, _, _) => {c}
    case _ => {}
  }

  /** A thread, with the connections it got and has not put back. */
  datatype Caller = Caller(pc: Pc, mine: set<Connection>)

  datatype Pool = Pool(
    minFree: nat,
    maxConn: nat,
    freeConns: set<Connection>,
    allocatedConns: set<Connection>,
    closedConns: set<Connection>,
    open: set<Connection>,
    inUse: set<Connection>,
    made: set<Connection>,
    gone: set<Connection>,
    threads: map<Thread, Caller>)
  {
    ghost function Live(): set<Connection> {
      made - gone
    }

    ghost function Stored(): set<Connection> {
      freeConns + allocatedConns + closedConns
    }

    ghost function Held(t: Thread): set<Connection>
      requires t in threads
    {
      Hand(threads[t].pc)
    }
  }

  /** An idle thread may also close a connection it has, or ask for its client, which reconnects. */
  datatype Step =
    | Start(job: Job)
    | PickFree(c: Connection)
    | NoFree
    | PickClosed(c: Connection)
    | NoClosed
    | Connect(ok: bool)
    | Make(c: Connection, ok: bool)
    | Ask(throws: bool)
    | Decide
    | Grant
    | StartPut(c: Connection)
    | Release
    | Check
    | Insert
    | Break(c: Connection)
    | Reopen(c: Connection, ok: bool)
    | StartReclaim
    | OpenNext
    | PickToFree(c: Connection)
    | PickToClose(c: Connection)
    | Destroy
    | Finish

  function Monus(a: int, b: int): nat {
    if a > b then a - b else 0
  }

  function Min(a: int, b: int): int {
    if a < b then a else b
  }

  /** What the reclaim job decides from one look at the sizes. */
  function Plan(s: Pool): Pc {
    var fs, cs, ts := |s.freeConns|, |s.closedConns|, |s.allocatedConns| + |s.freeConns| + |s.closedConns|;
    if ts < s.maxConn then
      Idle
    else
      var closing: nat := Min(ts - s.maxConn, cs);
      if fs <= s.minFree then
        Opening(s.minFree - fs, closing)
      else
        Shrinking(Min(ts - s.maxConn - closing, fs - s.minFree), closing)
  }

  /** Where a thread goes on after put_connection. */
  function After(job: Job): Pc {
    match job
    case ForReclaim(toOpen, toClose) => Opening(toOpen, toClose)
    case _ => Idle
  }

  predicate Enabled(s: Pool, t: Thread, step: Step) {
    t in s.threads &&
    var me := s.threads[t];
    match step
    case Start(job) => me.pc.Idle? && !job.ForReclaim?
    case PickFree(c) => me.pc.LookingFree? && c in s.freeConns
    case NoFree => me.pc.LookingFree? && s.freeConns == {}
    case PickClosed(c) => me.pc.LookingClosed? && c in s.closedConns
    case NoClosed => me.pc.LookingClosed? && s.closedConns == {}
    case Connect(_) => me.pc.Connecting?
    case Make(c, _) => me.pc.Making? && c !in s.made
    case Ask(_) => me.pc.Has? && me.pc.job.ForProbe? && me.pc.job.tries > 0 && me.pc.c in s.open
    case Decide => me.pc.Has?
    case Grant => me.pc.Granting?
    case StartPut(c) => me.pc.Idle? && c in me.mine
    case Release => me.pc.Releasing?
    case Check => me.pc.Putting?
    case Insert => me.pc.Inserting?
    case Break(c) => me.pc.Idle? && c in me.mine
    case Reopen(c, _) => me.pc.Idle? && c in me.mine && c !in s.open
    case StartReclaim => me.pc.Idle?
    case OpenNext => me.pc.Opening?
    case PickToFree(c) => me.pc.Shrinking? && me.pc.toFree > 0 && c in s.freeConns
    case PickToClose(c) =>
      && me.pc.Shrinking? && (me.pc.toFree == 0 || s.freeConns == {})
      && me.pc.toClose > 0 && c in s.closedConns
    case Destroy => me.pc.Destroying?
    case Finish =>
      && me.pc.Shrinking? && (me.pc.toFree == 0 || s.freeConns == {})
      && (me.pc.toClose == 0 || s.closedConns == {})
  }

  /** Thread t goes on at pc. */
  function At(s: Pool, t: Thread, pc: Pc): Pool
    requires t in s.threads
  {
    s.(threads := s.threads[t := s.threads[t].(pc := pc)])
  }

  function Mark(open: set<Connection>, c: Connection, ok: bool): set<Connection> {
    if ok then open + {c} else open - {c}
  }

  function Next(s: Pool, t: Thread, step: Step): Pool
    requires Enabled(s, t, step)
  {
    var pc := s.threads[t].pc;
    match step
    case Start(job) => At(s, t, LookingFree(job))
    case PickFree(c) => At(s, t, Has(pc.job, c, true)).(freeConns := s.freeConns - {c})
    case NoFree => At(s, t, LookingClosed(pc.job))
    case PickClosed(c) => At(s, t, Connecting(pc.job, c)).(closedConns := s.closedConns - {c})
    case NoClosed => At(s, t, Making(pc.job))
    case Connect(ok) => At(s, t, Has(pc.job, pc.c, false)).(open := Mark(s.open, pc.c, ok))
    case Make(c, ok) =>
      At(s, t, Has(pc.job, c, false)).(made := s.made + {c}, open := Mark(s.open, c, ok), inUse := s.inUse - {c})
    case Ask(throws) =>
      At(s, t, Has(ForProbe(pc.job.tries - 1), pc.c, pc.fromFree)).(open := if throws then s.open - {pc.c} else s.open)
    case Decide =>
      if pc.job.ForCaller? && pc.c in s.open && pc.c !in s.inUse then
        At(s, t, Granting(pc.c)).(inUse := s.inUse + {pc.c})
      else
        At(s, t, Putting(pc.job, pc.c))
    case Grant =>
      s.(allocatedConns := s.allocatedConns + {pc.c},
         threads := s.threads[t := Caller(Idle, s.threads[t].mine + {pc.c})])
    case StartPut(c) =>
      s.(allocatedConns := s.allocatedConns - {c},
         threads := s.threads[t := Caller(Releasing(c), s.threads[t].mine - {c})])
    case Release => At(s, t, Putting(ForCaller, pc.c)).(inUse := s.inUse - {pc.c})
    case Check => At(s, t, Inserting(pc.job, pc.c, pc.c in s.open))
    case Insert =>
      if pc.asOpen then
        At(s, t, After(pc.job)).(freeConns := s.freeConns + {pc.c})
      else
        At(s, t, After(pc.job)).(closedConns := s.closedConns + {pc.c})
    case Break(c) => s.(open := s.open - {c})
    case Reopen(c, ok) => s.(open := Mark(s.open, c, ok))
    case StartReclaim => At(s, t, Plan(s))
    case OpenNext =>
      if pc.toOpen > 0 then
        At(s, t, LookingClosed(ForReclaim(pc.toOpen - 1, pc.toClose)))
      else
        At(s, t, Shrinking(0, pc.toClose))
    case PickToFree(c) => At(s, t, Destroying(c, pc.toFree - 1, pc.toClose)).(freeConns := s.freeConns - {c})
    case PickToClose(c) => At(s, t, Destroying(c, 0, pc.toClose - 1)).(closedConns := s.closedConns - {c})
    case Destroy => At(s, t, Shrinking(pc.toFree, pc.toClose)).(gone := s.gone + {pc.c})
    case Finish => At(s, t, Idle)
  }

  // ----- the invariant -----

  /** Every stored or held connection is live and in one place only. */
  ghost predicate OnePlace(s: Pool) {
    && s.gone <= s.made
    && s.freeConns !! s.allocatedConns !! s.closedConns
    && s.Stored() <= s.Live()
    && (forall t :: t in s.threads ==> s.Held(t) !! s.Stored() && s.Held(t) <= s.Live())
    && (forall t, u :: t in s.threads && u in s.threads && t != u ==> s.Held(t) !! s.Held(u))
  }

  /** No live connection is lost. */
  ghost predicate NoneLost(s: Pool) {
    forall c :: c in s.Live() ==> c in s.Stored() || exists t :: t in s.threads && c in s.Held(t)
  }

  /** The callers share out the allocated connections. */
  ghost predicate SharedOut(s: Pool) {
    && (forall t :: t in s.threads ==> s.threads[t].mine <= s.allocatedConns)
    && (forall t, u :: t in s.threads && u in s.threads && t != u ==> s.threads[t].mine !! s.threads[u].mine)
    && (forall c :: c in s.allocatedConns ==> exists t :: t in s.threads && c in s.threads[t].mine)
  }

  /** What is known of the connection in a thread's hand. */
  ghost predicate HandMarked(s: Pool, pc: Pc) {
    && (forall c :: c in Hand(pc) ==> (c in s.inUse <==> pc.Granting? || pc.Releasing?))
    && (pc.Granting? ==> pc.c in s.open)
    && (pc.Has? && pc.fromFree && pc.job.ForCaller? ==> pc.c in s.open)
    && (pc.Inserting? ==> pc.asOpen == (pc.c in s.open))
  }

  ghost predicate Marked(s: Pool) {
    && s.freeConns <= s.open && s.freeConns !! s.inUse
    && s.closedConns !! s.open && s.closedConns !! s.inUse
    && s.allocatedConns <= s.inUse
    && (forall t :: t in s.threads ==> HandMarked(s, s.threads[t].pc))
  }

  ghost predicate Inv(s: Pool) {
    OnePlace(s) && NoneLost(s) && SharedOut(s) && Marked(s)
  }

  // ----- every step keeps it -----

  /** Thread t only redistributes what is stored and what it holds itself. */
  ghost predicate Redistributes(s: Pool, s': Pool, t: Thread)
    requires t in s.threads && t in s'.threads
  {
    var before, after := s.Stored() + s.Held(t), s'.Stored() + s'.Held(t);
    && s'.gone <= s'.made
    && s'.freeConns !! s'.allocatedConns !! s'.closedConns !! s'.Held(t)
    && (after - before) !! s.Live()
    && s'.Live() == s.Live() - before + after
  }

  ghost predicate OthersWait(s: Pool, s': Pool, t: Thread) {
    && s'.threads.Keys == s.threads.Keys
    && (forall u :: u in s.threads && u != t ==> s'.threads[u] == s.threads[u])
  }

  lemma RedistributionKeepsOnePlace(s: Pool, s': Pool, t: Thread)
    requires t in s.threads && OthersWait(s, s', t) && OnePlace(s) && Redistributes(s, s', t)
    ensures OnePlace(s')
  {
  }

  lemma RedistributionLosesNone(s: Pool, s': Pool, t: Thread)
    requires t in s.threads && OthersWait(s, s', t) && NoneLost(s) && Redistributes(s, s', t)
    ensures NoneLost(s')
  {
  }

  /** Steps that take a connection out of a set, put one into a set, or make or destroy one. */
  predicate Takes(step: Step) {
    step.PickFree? || step.PickClosed? || step.StartPut? || step.PickToFree? || step.PickToClose?
  }

  predicate Gives(step: Step) {
    step.Insert? || step.Grant?
  }

  predicate MakesOrDestroys(step: Step) {
    step.Make? || step.Destroy?
  }

  /** What one thread can see of OnePlace. */
  ghost predicate LocalPlaces(s: Pool, t: Thread)
    requires t in s.threads
  {
    && s.gone <= s.made
    && s.freeConns !! s.allocatedConns !! s.closedConns !! s.Held(t)
    && s.Stored() + s.Held(t) <= s.Live()
    && s.threads[t].mine <= s.allocatedConns
  }

  lemma PickFreeRedistributes(s: Pool, t: Thread, c: Connection)
    requires t in s.threads && LocalPlaces(s, t) && Enabled(s, t, PickFree(c))
    ensures Redistributes(s, Next(s, t, PickFree(c)), t)
  {
    var s' := Next(s, t, PickFree(c));
    assert s'.Stored() + s'.Held(t) == s.Stored() + s.Held(t);
  }

  lemma PickClosedRedistributes(s: Pool, t: Thread, c: Connection)
    requires t in s.threads && LocalPlaces(s, t) && Enabled(s, t, PickClosed(c))
    ensures Redistributes(s, Next(s, t, PickClosed(c)), t)
  {
    var s' := Next(s, t, PickClosed(c));
    assert s'.Stored() + s'.Held(t) == s.Stored() + s.Held(t);
  }

  lemma StartPutRedistributes(s: Pool, t: Thread, c: Connection)
    requires t in s.threads && LocalPlaces(s, t) && Enabled(s, t, StartPut(c))
    ensures Redistributes(s, Next(s, t, StartPut(c)), t)
  {
    var s' := Next(s, t, StartPut(c));
    assert s'.Stored() + s'.Held(t) == s.Stored() + s.Held(t);
  }

  lemma PickToFreeRedistributes(s: Pool, t: Thread, c: Connection)
    requires t in s.threads && LocalPlaces(s, t) && Enabled(s, t, PickToFree(c))
    ensures Redistributes(s, Next(s, t, PickToFree(c)), t)
  {
    var s' := Next(s, t, PickToFree(c));
    assert s'.Stored() + s'.Held(t) == s.Stored() + s.Held(t);
  }

  lemma PickToCloseRedistributes(s: Pool, t: Thread, c: Connection)
    requires t in s.threads && LocalPlaces(s, t) && Enabled(s, t, PickToClose(c))
    ensures Redistributes(s, Next(s, t, PickToClose(c)), t)
  {
    var s' := Next(s, t, PickToClose(c));
    assert s'.Stored() + s'.Held(t) == s.Stored() + s.Held(t);
  }

  lemma {:induction false} TakingRedistributes(s: Pool, t: Thread, step: Step)
    requires t in s.threads && LocalPlaces(s, t) && Enabled(s, t, step) && Takes(step)
    ensures Redistributes(s, Next(s, t, step), t)
  {
    match step
    case PickFree(c) => PickFreeRedistributes(s, t, c);
    case PickClosed(c) => PickClosedRedistributes(s, t, c);
    case StartPut(c) => StartPutRedistributes(s, t, c);
    case PickToFree(c) => PickToFreeRedistributes(s, t, c);
    case PickToClose(c) => PickToCloseRedistributes(s, t, c);
    case _ =>
  }

  lemma {:induction false} GivingRedistributes(s: Pool, t: Thread, step: Step)
    requires t in s.threads && LocalPlaces(s, t) && Enabled(s, t, step) && Gives(step)
    ensures Redistributes(s, Next(s, t, step), t)
  {
  }

  lemma {:induction false} MakingRedistributes(s: Pool, t: Thread, step: Step)
    requires t in s.threads && LocalPlaces(s, t) && Enabled(s, t, step) && MakesOrDestroys(step)
    ensures Redistributes(s, Next(s, t, step), t)
  {
  }

  lemma {:induction false} QuietSteps(s: Pool, t: Thread, step: Step)
    requires Enabled(s, t, step) && !Takes(step) && !Gives(step) && !MakesOrDestroys(step)
    ensures Next(s, t, step).threads.Keys == s.threads.Keys && Next(s, t, step).Held(t) == s.Held(t)
  {
  }

  lemma {:induction false} QuietSets(s: Pool, t: Thread, step: Step)
    requires Enabled(s, t, step) && !Takes(step) && !Gives(step) && !MakesOrDestroys(step)
    ensures Next(s, t, step).Stored() == s.Stored() && Next(s, t, step).Live() == s.Live()
    ensures Next(s, t, step).freeConns == s.freeConns && Next(s, t, step).closedConns == s.closedConns
    ensures Next(s, t, step).allocatedConns == s.allocatedConns
  {
  }

  lemma OthersWaitInStep(s: Pool, t: Thread, step: Step)
    requires Enabled(s, t, step)
    ensures OthersWait(s, Next(s, t, step), t)
  {
  }

  ghost predicate LocalMarks(s: Pool, t: Thread)
    requires t in s.threads
  {
    && s.freeConns <= s.open && s.freeConns !! s.inUse
    && s.closedConns !! s.open && s.closedConns !! s.inUse
    && s.allocatedConns <= s.inUse
    && HandMarked(s, s.threads[t].pc)
  }

  lemma {:induction false} TakingKeepsMarks(s: Pool, t: Thread, step: Step)
    requires t in s.threads && LocalPlaces(s, t) && LocalMarks(s, t) && Enabled(s, t, step) && Takes(step)
    ensures LocalMarks(Next(s, t, step), t)
  {
  }

  lemma {:induction false} GivingKeepsMarks(s: Pool, t: Thread, step: Step)
    requires t in s.threads && LocalPlaces(s, t) && LocalMarks(s, t) && Enabled(s, t, step) && Gives(step)
    ensures LocalMarks(Next(s, t, step), t)
  {
  }

  lemma {:induction false} MakingKeepsMarks(s: Pool, t: Thread, step: Step)
    requires t in s.threads && LocalPlaces(s, t) && LocalMarks(s, t) && Enabled(s, t, step) && MakesOrDestroys(step)
    ensures LocalMarks(Next(s, t, step), t)
  {
  }

  /** Steps that change the marks of a connection or read them. */
  predicate Marks(step: Step) {
    step.Connect? || step.Check? || step.Ask? || step.Decide? || step.Release? || step.Break? || step.Reopen?
  }

  lemma {:induction false} MarkingKeepsMarks(s: Pool, t: Thread, step: Step)
    requires t in s.threads && LocalPlaces(s, t) && LocalMarks(s, t) && Enabled(s, t, step) && Marks(step)
    ensures LocalMarks(Next(s, t, step), t)
  {
  }

  lemma {:induction false} QuietHands(s: Pool, t: Thread, step: Step)
    requires Enabled(s, t, step) && !Takes(step) && !Gives(step) && !MakesOrDestroys(step) && !Marks(step)
    ensures Next(s, t, step).threads.Keys == s.threads.Keys && Next(s, t, step).Held(t) == {}
    ensures Next(s, t, step).open == s.open && Next(s, t, step).inUse == s.inUse
  {
  }

  lemma {:induction false} StepRedistributes(s: Pool, t: Thread, step: Step)
    requires t in s.threads && LocalPlaces(s, t) && Enabled(s, t, step)
    ensures OthersWait(s, Next(s, t, step), t) && Redistributes(s, Next(s, t, step), t)
  {
    OthersWaitInStep(s, t, step);
    if Takes(step) {
      TakingRedistributes(s, t, step);
    } else if Gives(step) {
      GivingRedistributes(s, t, step);
    } else if MakesOrDestroys(step) {
      MakingRedistributes(s, t, step);
    } else {
      QuietSets(s, t, step);
      QuietSteps(s, t, step);
    }
  }

  lemma {:induction false} StepKeepsLocalMarks(s: Pool, t: Thread, step: Step)
    requires t in s.threads && LocalPlaces(s, t) && LocalMarks(s, t) && Enabled(s, t, step)
    ensures t in Next(s, t, step).threads && LocalMarks(Next(s, t, step), t)
  {
    OthersWaitInStep(s, t, step);
    if Takes(step) {
      TakingKeepsMarks(s, t, step);
    } else if Gives(step) {
      GivingKeepsMarks(s, t, step);
    } else if MakesOrDestroys(step) {
      MakingKeepsMarks(s, t, step);
    } else if Marks(step) {
      MarkingKeepsMarks(s, t, step);
    } else {
      QuietSets(s, t, step);
      QuietHands(s, t, step);
    }
  }

  /** A step changes the marks of no connection but one in its thread's hand or among its own. */
  ghost predicate MarksOwn(s: Pool, s': Pool, t: Thread)
    requires t in s.threads
  {
    forall c :: c in s.Live() && c !in s.Held(t) + s.threads[t].mine ==>
      (c in s'.open <==> c in s.open) && (c in s'.inUse <==> c in s.inUse)
  }

  lemma {:induction false} StepMarksOwn(s: Pool, t: Thread, step: Step)
    requires t in s.threads && Enabled(s, t, step)
    ensures MarksOwn(s, Next(s, t, step), t)
  {
    var s' := Next(s, t, step);
    if Marks(step) || step.Make? {
    } else {
      assert s'.open == s.open;
    }
  }

  lemma InvLocally(s: Pool, t: Thread)
    requires Inv(s) && t in s.threads
    ensures LocalPlaces(s, t) && LocalMarks(s, t)
  {
  }

  lemma {:induction false} StepKeepsMarked(s: Pool, t: Thread, step: Step)
    requires Inv(s) && Enabled(s, t, step)
    ensures Marked(Next(s, t, step))
  {
    var s' := Next(s, t, step);
    InvLocally(s, t);
    StepKeepsLocalMarks(s, t, step);
    StepMarksOwn(s, t, step);
    OthersWaitInStep(s, t, step);
    forall u | u in s'.threads
      ensures HandMarked(s', s'.threads[u].pc)
    {
      if u != t {
        assert s.Held(u) <= s.Live() && s.Held(u) !! s.Held(t) && s.Held(u) !! s.threads[t].mine;
        assert HandMarked(s, s.threads[u].pc);
      }
    }
  }

  lemma {:induction false} GrantKeepsSharedOut(s: Pool, t: Thread)
    requires Inv(s) && Enabled(s, t, Grant)
    ensures SharedOut(Next(s, t, Grant))
  {
    var s' := Next(s, t, Grant);
    var c := s.threads[t].pc.c;
    assert c in s.Held(t) && c !in s.allocatedConns;
    forall d | d in s'.allocatedConns
      ensures exists u :: u in s'.threads && d in s'.threads[u].mine
    {
      if d == c {
        assert d in s'.threads[t].mine;
      } else {
        var u :| u in s.threads && d in s.threads[u].mine;
        assert d in s'.threads[u].mine;
      }
    }
  }

  lemma {:induction false} StartPutKeepsSharedOut(s: Pool, t: Thread, c: Connection)
    requires Inv(s) && Enabled(s, t, StartPut(c))
    ensures SharedOut(Next(s, t, StartPut(c)))
  {
    var s' := Next(s, t, StartPut(c));
    forall d | d in s'.allocatedConns
      ensures exists u :: u in s'.threads && d in s'.threads[u].mine
    {
      var u :| u in s.threads && d in s.threads[u].mine;
      assert d in s'.threads[u].mine;
    }
    forall u | u in s'.threads
      ensures s'.threads[u].mine <= s'.allocatedConns
    {
      if u != t {
        assert s.threads[u].mine !! s.threads[t].mine;
      }
    }
  }

  lemma {:induction false} MineChanges(s: Pool, t: Thread, step: Step)
    requires Enabled(s, t, step) && !step.Grant? && !step.StartPut?
    ensures t in Next(s, t, step).threads && Next(s, t, step).threads[t].mine == s.threads[t].mine
    ensures Next(s, t, step).allocatedConns == s.allocatedConns
  {
  }

  lemma {:induction false} StepKeepsSharedOut(s: Pool, t: Thread, step: Step)
    requires Inv(s) && Enabled(s, t, step)
    ensures SharedOut(Next(s, t, step))
  {
    if step.Grant? {
      GrantKeepsSharedOut(s, t);
    } else if step.StartPut? {
      StartPutKeepsSharedOut(s, t, step.c);
    } else {
      var s' := Next(s, t, step);
      MineChanges(s, t, step);
      OthersWaitInStep(s, t, step);
      forall u | u in s.threads
        ensures u in s'.threads && s'.threads[u].mine == s.threads[u].mine
      {
      }
      forall d | d in s'.allocatedConns
        ensures exists u :: u in s'.threads && d in s'.threads[u].mine
      {
        var u :| u in s.threads && d in s.threads[u].mine;
        assert d in s'.threads[u].mine;
      }
    }
  }

  /** Every step of every thread keeps the invariant. */
  lemma {:induction false} StepKeeps(s: Pool, t: Thread, step: Step)
    requires Inv(s) && Enabled(s, t, step)
    ensures Inv(Next(s, t, step))
  {
    InvLocally(s, t);
    StepRedistributes(s, t, step);
    RedistributionKeepsOnePlace(s, Next(s, t, step), t);
    RedistributionLosesNone(s, Next(s, t, step), t);
    StepKeepsMarked(s, t, step);
    StepKeepsSharedOut(s, t, step);
  }

  // ----- whole runs -----

  ghost predicate Initial(s: Pool) {
    && s.freeConns == s.allocatedConns == s.closedConns == s.made == s.gone == s.open == s.inUse == {}
    && forall t :: t in s.threads ==> s.threads[t] == Caller(Idle, {})
  }

  /** A run: which thread takes which step, in any order. */
  ghost predicate Reaches(s: Pool, run: seq<(Thread, Step)>, s': Pool)
    decreases |run|
  {
    if run == [] then s == s'
    else Enabled(s, run[0].0, run[0].1) && Reaches(Next(s, run[0].0, run[0].1), run[1..], s')
  }

  lemma {:induction false} RunKeeps(s: Pool, run: seq<(Thread, Step)>, s': Pool)
    requires Inv(s) && Reaches(s, run, s')
    ensures Inv(s')
    decreases |run|
  {
    if run != [] {
      StepKeeps(s, run[0].0, run[0].1);
      RunKeeps(Next(s, run[0].0, run[0].1), run[1..], s');
    }
  }

  ghost predicate Reachable(s: Pool) {
    exists start, run :: Initial(start) && Reaches(start, run, s)
  }

  lemma {:induction false} OneMoreStep(start: Pool, run: seq<(Thread, Step)>, s: Pool, t: Thread, step: Step)
    requires Reaches(start, run, s) && Enabled(s, t, step)
    ensures Reaches(start, run + [(t, step)], Next(s, t, step))
    decreases |run|
  {
    if run == [] {
      assert Reaches(Next(s, t, step), [], Next(s, t, step));
    } else {
      OneMoreStep(Next(start, run[0].0, run[0].1), run[1..], s, t, step);
      assert (run + [(t, step)])[1..] == run[1..] + [(t, step)];
    }
  }

  lemma {:induction false} ReachableNext(s: Pool, t: Thread, step: Step)
    requires Reachable(s) && Enabled(s, t, step)
    ensures Reachable(Next(s, t, step))
  {
    var start, run :| Initial(start) && Reaches(start, run, s);
    OneMoreStep(start, run, s, t, step);
  }

  lemma {:induction false} ReachableInv(s: Pool)
    requires Reachable(s)
    ensures Inv(s)
  {
    var start, run :| Initial(start) && Reaches(start, run, s);
    RunKeeps(start, run, s);
  }

  // ----- conservation -----

  /** The threads with a connection in hand. */
  ghost function Holders(s: Pool): set<Thread> {
    set t | t in s.threads && s.Held(t) != {}
  }

  /** What the threads ts have in their hands. */
  ghost function InHands(s: Pool, ts: set<Thread>): set<Connection>
    requires ts <= s.threads.Keys
  {
    set t, c | t in ts && c in s.Held(t) :: c
  }

  lemma {:induction false} HandsCount(s: Pool, ts: set<Thread>)
    requires OnePlace(s) && ts <= Holders(s)
    ensures |InHands(s, ts)| == |ts|
  {
    if ts == {} {
      assert InHands(s, ts) == {};
    } else {
      var t :| t in ts;
      HandsCount(s, ts - {t});
      var c :| c in s.Held(t);
      assert s.Held(t) == {c};
      assert InHands(s, ts) == InHands(s, ts - {t}) + {c};
      assert c !in InHands(s, ts - {t});
    }
  }

  lemma LiveParts(s: Pool)
    requires Inv(s)
    ensures Holders(s) <= s.threads.Keys
    ensures s.Live() == s.Stored() + InHands(s, Holders(s)) && InHands(s, Holders(s)) !! s.Stored()
  {
  }

  lemma {:induction false} LiveCount(s: Pool)
    requires Inv(s)
    ensures |s.made| - |s.gone| == |s.freeConns| + |s.allocatedConns| + |s.closedConns| + |Holders(s)|
  {
    LiveParts(s);
    HandsCount(s, Holders(s));
    assert s.made == s.gone + s.Live();
  }

  /** After any run: connections made minus destroyed are the free, allocated and closed ones and
      one for each thread between two lock sections, every live one in exactly one place; the
      callers share out the allocated ones, no two the same. */
  lemma ConnectionsConserved(s: Pool)
    requires Reachable(s)
    ensures |s.made| - |s.gone| == |s.freeConns| + |s.allocatedConns| + |s.closedConns| + |Holders(s)|
    ensures OnePlace(s) && NoneLost(s) && SharedOut(s) && Marked(s)
  {
    ReachableInv(s);
    LiveCount(s);
  }

  lemma {:induction false} OthersStep(s: Pool, t: Thread, c: Connection, u: Thread, step: Step)
    requires Reachable(s) && t in s.threads && c in s.threads[t].mine && u != t && Enabled(s, u, step)
    ensures t in Next(s, u, step).threads && Next(s, u, step).threads[t] == s.threads[t]
    ensures c in Next(s, u, step).open <==> c in s.open
  {
    ReachableInv(s);
    OthersWaitInStep(s, u, step);
    StepMarksOwn(s, u, step);
    assert s.threads[t].mine !! s.threads[u].mine && s.Held(u) !! s.Stored();
  }

  lemma {:induction false} OthersRun(s: Pool, run: seq<(Thread, Step)>, s': Pool, t: Thread, c: Connection)
    requires Reachable(s) && Reaches(s, run, s') && t in s.threads && c in s.threads[t].mine
    requires forall i :: 0 <= i < |run| ==> run[i].0 != t
    ensures t in s'.threads && s'.threads[t] == s.threads[t] && Reachable(s')
    ensures c in s'.open <==> c in s.open
    decreases |run|
  {
    if run != [] {
      OthersStep(s, t, c, run[0].0, run[0].1);
      ReachableNext(s, run[0].0, run[0].1);
      OthersRun(Next(s, run[0].0, run[0].1), run[1..], s', t, c);
    }
  }

  /** Whatever the other threads do, nobody destroys, takes, closes or frees a connection that a
      caller has, and nobody else gets it. */
  lemma NobodyElseTouches(s: Pool, run: seq<(Thread, Step)>, s': Pool, t: Thread, c: Connection)
    requires Reachable(s) && Reaches(s, run, s') && t in s.threads && c in s.threads[t].mine
    requires forall i :: 0 <= i < |run| ==> run[i].0 != t
    ensures t in s'.threads && c in s'.threads[t].mine && (c in s'.open <==> c in s.open)
    ensures c in s'.allocatedConns && c in s'.inUse && c in s'.Live()
    ensures forall u :: u in s'.threads && u != t ==> c !in s'.threads[u].mine && c !in s'.Held(u)
  {
    OthersRun(s, run, s', t, c);
    ReachableInv(s');
  }

  /** A get that took a connection out of the free set never comes back empty-handed. */
  lemma GetFromFreeIsGranted(s: Pool, t: Thread)
    requires Reachable(s) && t in s.threads
    requires s.threads[t].pc.Has? && s.threads[t].pc.job.ForCaller? && s.threads[t].pc.fromFree
    ensures Enabled(s, t, Decide) && Next(s, t, Decide).threads[t].pc == Granting(s.threads[t].pc.c)
  {
    ReachableInv(s);
    assert HandMarked(s, s.threads[t].pc);
    assert s.threads[t].pc.c in Hand(s.threads[t].pc);
  }

  // ----- no thread is ever stuck -----

  /** The most steps a thread still takes before it is idle. */
  function Work(pc: Pc): nat {
    match pc
    case Idle => 0
    case LookingFree(job) => Rest(job) + 6
    case LookingClosed(job) => Rest(job) + 5
    case Connecting(job, _) => Rest(job) + 4
    case Making(job) => Rest(job) + 4
    case Has(job, _, _) => Rest(job) + 3
    case Granting(_) => 1
    case Releasing(_) => 3
    case Putting(job, _) => Rest(job) + 2
    case Inserting(job, _, _) => Rest(job) + 1
    case Opening(toOpen, toClose) => 6 * toOpen + 2 * toClose + 2
    case Shrinking(toFree, toClose) => 2 * (toFree + toClose) + 1
    case Destroying(_, toFree, toClose) => 2 * (toFree + toClose) + 2
  }

  function Rest(job: Job): nat {
    match job
    case ForCaller => 0
    case ForProbe(tries) => tries
    case ForReclaim(toOpen, toClose) => 6 * toOpen + 2 * toClose + 2
  }

  /** Steps an idle thread chooses to begin. */
  predicate Begins(step: Step) {
    step.Start? || step.StartPut? || step.Break? || step.Reopen? || step.StartReclaim?
  }

  lemma {:induction false} StepWorks(s: Pool, t: Thread, step: Step)
    requires Enabled(s, t, step) && !Begins(step)
    ensures t in Next(s, t, step).threads && Work(Next(s, t, step).threads[t].pc) < Work(s.threads[t].pc)
  {
  }

  function StepsOf(run: seq<(Thread, Step)>, t: Thread): nat {
    if run == [] then 0 else StepsOf(run[1..], t) + if run[0].0 == t then 1 else 0
  }

  /** An operation is over after at most Work steps of its own thread, whatever the others do. */
  lemma {:induction false} OperationEnds(s: Pool, run: seq<(Thread, Step)>, s': Pool, t: Thread)
    requires t in s.threads && Reaches(s, run, s')
    requires forall i :: 0 <= i < |run| && run[i].0 == t ==> !Begins(run[i].1)
    ensures t in s'.threads && StepsOf(run, t) + Work(s'.threads[t].pc) <= Work(s.threads[t].pc)
    decreases |run|
  {
    if run != [] {
      var u, step := run[0].0, run[0].1;
      OthersWaitInStep(s, u, step);
      if u == t {
        StepWorks(s, t, step);
      }
      OperationEnds(Next(s, u, step), run[1..], s', t);
    }
  }

  lemma {:induction false} FreshConnection(made: set<Connection>) returns (c: Connection)
    ensures c !in made && forall d :: d in made ==> d < c
  {
    if made == {} {
      c := 0;
    } else {
      var d :| d in made;
      c := FreshConnection(made - {d});
      c := if c > d then c else d + 1;
      assert made == made - {d} + {d};
    }
  }

  /** and until then it always has a step to take. */
  lemma {:induction false} NoThreadStuck(s: Pool, t: Thread) returns (step: Step)
    requires t in s.threads && !s.threads[t].pc.Idle?
    ensures Enabled(s, t, step) && !Begins(step)
  {
    var pc := s.threads[t].pc;
    match pc {
      case LookingFree(_) =>
        if s.freeConns == {} {
          step := NoFree;
        } else {
          var c :| c in s.freeConns;
          step := PickFree(c);
        }
      case LookingClosed(_) =>
        if s.closedConns == {} {
          step := NoClosed;
        } else {
          var c :| c in s.closedConns;
          step := PickClosed(c);
        }
      case Connecting(_, _) => step := Connect(true);
      case Making(_) => var c := FreshConnection(s.made); step := Make(c, true);
      case Has(_, _, _) => step := Decide;
      case Granting(_) => step := Grant;
      case Releasing(_) => step := Release;
      case Putting(_, _) => step := Check;
      case Inserting(_, _, _) => step := Insert;
      case Opening(_, _) => step := OpenNext;
      case Shrinking(toFree, toClose) =>
        if toFree > 0 && s.freeConns != {} {
          var c :| c in s.freeConns;
          step := PickToFree(c);
        } else if toClose > 0 && s.closedConns != {} {
          var c :| c in s.closedConns;
          step := PickToClose(c);
        } else {
          step := Finish;
        }
      case Destroying(_, _, _) => step := Destroy;
    }
  }

  // ----- what a reclaim run may destroy -----

  /** How many connections a thread may still destroy before it is idle. */
  function Budget(pc: Pc): nat {
    match pc
    case LookingFree(job) => JobBudget(job)
    case LookingClosed(job) => JobBudget(job)
    case Connecting(job, _) => JobBudget(job)
    case Making(job) => JobBudget(job)
    case Has(job, _, _) => JobBudget(job)
    case Putting(job, _) => JobBudget(job)
    case Inserting(job, _, _) => JobBudget(job)
    case Opening(_, toClose) => toClose
    case Shrinking(toFree, toClose) => toFree + toClose
    case Destroying(_, toFree, toClose) => toFree + toClose + 1
    case _ => 0
  }

  function JobBudget(job: Job): nat {
    if job.ForReclaim? then job.toClose else 0
  }

  /** The plan never destroys more than there are too many connections, nor free ones below the
      number wanted, and destroys free ones only after all closed ones. */
  lemma PlanIsModest(s: Pool)
    ensures Budget(Plan(s)) <= Monus(|s.allocatedConns| + |s.freeConns| + |s.closedConns|, s.maxConn)
    ensures Plan(s).Shrinking? ==> Plan(s).toFree <= |s.freeConns| - s.minFree
    ensures Plan(s).Shrinking? && Plan(s).toFree > 0 ==> Plan(s).toClose == |s.closedConns|
    ensures Plan(s).Opening? ==> Plan(s).toOpen == s.minFree - |s.freeConns|
  {
  }

  lemma {:induction false} StepSpends(s: Pool, t: Thread, step: Step)
    requires Enabled(s, t, step) && !Begins(step)
    ensures t in Next(s, t, step).threads
    ensures Budget(Next(s, t, step).threads[t].pc) + (if step.Destroy? then 1 else 0) <= Budget(s.threads[t].pc)
  {
  }

  function DestroysOf(run: seq<(Thread, Step)>, t: Thread): nat {
    if run == [] then 0 else DestroysOf(run[1..], t) + if run[0] == (t, Destroy) then 1 else 0
  }

  /** However it is interleaved, a reclaim run destroys no more than it planned; so not more than
      there were too many when it looked, and a get, put or probe destroys nothing. */
  lemma {:induction false} ReclaimKeepsToPlan(s: Pool, run: seq<(Thread, Step)>, s': Pool, t: Thread)
    requires t in s.threads && Reaches(s, run, s')
    requires forall i :: 0 <= i < |run| && run[i].0 == t ==> !Begins(run[i].1)
    ensures t in s'.threads && DestroysOf(run, t) + Budget(s'.threads[t].pc) <= Budget(s.threads[t].pc)
    decreases |run|
  {
    if run != [] {
      var u, step := run[0].0, run[0].1;
      OthersWaitInStep(s, u, step);
      if u == t {
        StepSpends(s, t, step);
      }
      ReclaimKeepsToPlan(Next(s, u, step), run[1..], s', t);
    }
  }
}
