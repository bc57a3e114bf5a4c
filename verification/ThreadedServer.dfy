/** The thread-per-client server (sync/threaded_server.cpp): the serve loop and the tasks it
    starts, interleaved in any way. Starting a thread succeeds and waiting does not throw. */
module ThreadedServers {

  type Task = nat

  /** Where serve is. */
  datatype Pc =
    | Counting
    | Deciding(count: nat)
    | Accepting
    | Inserting(task: Task)
    | Starting(task: Task)
    | Closing
    | Checking
    | Waiting(notified: bool)
    | Left
    | GaveUp

  datatype Server = Server(
    workerThreadCountMax: nat,
    pc: Pc,
    stop: bool,
    listening: bool,
    tasks: set<Task>,
    running: set<Task>)

  datatype Outcome = Accepted(task: Task) | Refused | Unknown

  datatype Step =
    | Stop
    | Count
    | Decide(listens: bool)
    | Accept(outcome: Outcome)
    | Insert
    | Start
    | Finish(task: Task)
    | CloseTransport
    | Check
    | Wake
    | WakeForNothing

  predicate Enabled(s: Server, step: Step) {
    match step
    case Stop => true
    case Count => s.pc.Counting?
    case Decide(_) => s.pc.Deciding?
    case Accept(outcome) => s.pc.Accepting? && (outcome.Accepted? ==> outcome.task !in s.tasks)
    case Insert => s.pc.Inserting?
    case Start => s.pc.Starting?
    case Finish(task) => task in s.running
    case CloseTransport => s.pc.Closing?
    case Check => s.pc.Checking?
    case Wake => s.pc == Waiting(true)
    case WakeForNothing => s.pc == Waiting(false)
  }

  function Next(s: Server, step: Step): Server
    requires Enabled(s, step)
  {
    match step
    case Stop => s.(stop := true)
    case Count => s.(pc := if s.stop then Closing else Deciding(|s.tasks|))
    case Decide(listens) =>
      if s.pc.count >= s.workerThreadCountMax then s.(listening := false, pc := Counting)
      else if s.listening then s.(pc := Accepting)
      else if listens then s.(listening := true, pc := Accepting)
      else s.(pc := GaveUp)
    case Accept(outcome) =>
      (match outcome
       case Accepted(task) => s.(pc := Inserting(task))
       case Refused => s.(pc := Counting)
       case Unknown => s.(pc := if s.stop then Closing else GaveUp))
    case Insert => s.(tasks := s.tasks + {s.pc.task}, pc := Starting(s.pc.task))
    case Start => s.(running := s.running + {s.pc.task}, pc := Counting)
    case Finish(task) =>
      s.(tasks := s.tasks - {task},
         running := s.running - {task},
         pc := if s.tasks - {task} == {} && s.pc.Waiting? then Waiting(true) else s.pc)
    case CloseTransport => s.(pc := Checking)
    case Check => if s.tasks == {} then s.(pc := Left, stop := false) else s.(pc := Waiting(false))
    case Wake => s.(pc := Checking)
    case WakeForNothing => s.(pc := Checking)
  }

  predicate Stopping(pc: Pc) {
    pc.Closing? || pc.Checking? || pc.Waiting? || pc.Left?
  }

  /** The tasks counted are never too many, and a count can only be too high by the time it is
      used: only serve itself adds tasks. */
  ghost predicate Bounded(s: Server) {
    && |s.tasks| <= s.workerThreadCountMax
    && (s.pc.Deciding? ==> |s.tasks| <= s.pc.count)
    && (s.pc.Accepting? || s.pc.Inserting? ==> |s.tasks| < s.workerThreadCountMax)
  }

  /** Every listed task has a thread, or is about to get one. */
  ghost predicate Manned(s: Server) {
    && s.tasks == (if s.pc.Starting? then s.running + {s.pc.task} else s.running)
    && (s.pc.Starting? ==> s.pc.task !in s.running)
    && (s.pc.Inserting? ==> s.pc.task !in s.tasks)
  }

  /** No wake-up is lost: who waits without being notified waits for some task. */
  ghost predicate Awaited(s: Server) {
    && (s.pc == Waiting(false) ==> s.tasks != {})
    && (s.pc == Waiting(true) ==> s.tasks == {})
    && (s.pc.Left? ==> s.tasks == {})
  }

  ghost predicate Inv(s: Server) {
    Bounded(s) && Manned(s) && Awaited(s)
  }

  lemma {:induction false} StepKeepsBounded(s: Server, step: Step)
    requires Inv(s) && Enabled(s, step)
    ensures Bounded(Next(s, step))
  {
    if step.Finish? {
      assert |s.tasks - {step.task}| == |s.tasks| - 1;
    }
  }

  lemma {:induction false} StepKeepsManned(s: Server, step: Step)
    requires Manned(s) && Enabled(s, step)
    ensures Manned(Next(s, step))
  {
  }

  lemma {:induction false} StepKeepsAwaited(s: Server, step: Step)
    requires Awaited(s) && Enabled(s, step)
    ensures Awaited(Next(s, step))
  {
  }

  lemma {:induction false} StepKeeps(s: Server, step: Step)
    requires Inv(s) && Enabled(s, step)
    ensures Inv(Next(s, step))
  {
    StepKeepsBounded(s, step);
    StepKeepsManned(s, step);
    StepKeepsAwaited(s, step);
  }

  ghost predicate Initial(s: Server) {
    s.pc.Counting? && !s.stop && s.tasks == s.running == {}
  }

  ghost predicate Reaches(s: Server, run: seq<Step>, s': Server)
    decreases |run|
  {
    if run == [] then s == s' else Enabled(s, run[0]) && Reaches(Next(s, run[0]), run[1..], s')
  }

  lemma {:induction false} RunKeeps(s: Server, run: seq<Step>, s': Server)
    requires Inv(s) && Reaches(s, run, s')
    ensures Inv(s')
    decreases |run|
  {
    if run != [] {
      StepKeeps(s, run[0]);
      RunKeeps(Next(s, run[0]), run[1..], s');
    }
  }

  /** In every interleaving the task set keeps within its bound, serve has left by the stop path
      only if no task is left, and when it waits for the last task it is or will be notified. */
  lemma ServeIsBounded(s: Server, run: seq<Step>, s': Server)
    requires Initial(s) && Reaches(s, run, s')
    ensures |s'.tasks| <= s'.workerThreadCountMax
    ensures s'.pc.Left? ==> s'.tasks == {} && s'.running == {}
    ensures s'.pc.Waiting? ==> (s'.pc.notified <==> s'.tasks == {})
    ensures s'.pc.Waiting? && !s'.pc.notified ==> exists task :: Enabled(s', Finish(task))
  {
    RunKeeps(s, run, s');
    if s'.pc.Waiting? && !s'.pc.notified {
      var task :| task in s'.tasks;
      assert Enabled(s', Finish(task));
    }
  }

  // ----- the server stops -----

  /** What goes on by itself once serve has seen the stop flag. */
  predicate WindsDown(step: Step) {
    step.Finish? || step.CloseTransport? || step.Check? || step.Wake?
  }

  function Work(s: Server): nat {
    |s.tasks| +
    match s.pc
    case Closing => 4
    case Checking => if s.tasks == {} then 1 else 3
    case Waiting(_) => 2
    case _ => 0
  }

  lemma {:induction false} StepWorks(s: Server, step: Step)
    requires Inv(s) && Stopping(s.pc) && Enabled(s, step)
    ensures Stopping(Next(s, step).pc) && (WindsDown(step) || step.Stop? || step.WakeForNothing?)
    ensures Work(Next(s, step)) + (if WindsDown(step) then 1 else 0)
         <= Work(s) + (if step.WakeForNothing? then 1 else 0)
  {
    if step.Finish? {
      assert |s.tasks - {step.task}| == |s.tasks| - 1;
    }
  }

  lemma {:induction false} NotDoneMoves(s: Server) returns (step: Step)
    requires Inv(s) && Stopping(s.pc) && !s.pc.Left?
    ensures WindsDown(step) && Enabled(s, step)
  {
    match s.pc
    case Closing => step := CloseTransport;
    case Checking => step := Check;
    case Waiting(notified) =>
      if notified {
        step := Wake;
      } else {
        var task :| task in s.tasks;
        step := Finish(task);
      }
  }

  function WindingDown(run: seq<Step>): nat {
    if run == [] then 0 else WindingDown(run[1..]) + if WindsDown(run[0]) then 1 else 0
  }

  function SpuriousWakes(run: seq<Step>): nat {
    if run == [] then 0 else SpuriousWakes(run[1..]) + if run[0].WakeForNothing? then 1 else 0
  }

  lemma {:induction false} RunWorks(s: Server, run: seq<Step>, s': Server)
    requires Inv(s) && Stopping(s.pc) && Reaches(s, run, s')
    ensures Inv(s') && Stopping(s'.pc)
    ensures WindingDown(run) + Work(s') <= Work(s) + SpuriousWakes(run)
    decreases |run|
  {
    if run != [] {
      StepKeeps(s, run[0]);
      StepWorks(s, run[0]);
      RunWorks(Next(s, run[0]), run[1..], s');
    }
  }

  /** Once serve is stopping it never serves again. In any run of what can still happen, more
      calls of stop and spurious wake-ups between, it takes at most Work steps of winding down
      and one more per spurious wake-up; and until it is out there always is one to take. */
  lemma ServeStops(start: Server, before: seq<Step>, s: Server, run: seq<Step>, s': Server)
    requires Initial(start) && Reaches(start, before, s) && Stopping(s.pc) && Reaches(s, run, s')
    ensures Stopping(s'.pc) && Work(s) <= s.workerThreadCountMax + 4
    ensures WindingDown(run) + Work(s') <= Work(s) + SpuriousWakes(run)
    ensures s'.pc.Left? || exists step :: WindsDown(step) && Enabled(s', step)
  {
    RunKeeps(start, before, s);
    RunWorks(s, run, s');
    if !s'.pc.Left? {
      var step := NotDoneMoves(s');
    }
  }
}
