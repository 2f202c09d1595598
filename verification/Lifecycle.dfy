/** The lifecycle of one connector instance: start, stop and reload run one at
    a time under the operation mutex, while children die on their own and one
    exit watcher per published worker runs beside them.

    Every step below is one critical section of the instance mutex, one
    operating-system event, or one private action of a goroutine. */
module Lifecycle {
  import opened Options

  datatype Phase = Stopped | Starting | Started | Stopping

  /** `Reaped` means that Wait has returned and the done channel is closed. */
  datatype Process = Alive | Dead | Reaped

  /** Where the exit watcher of a worker stands.  `Unpublished` workers are the
      ones the instance never stored: still in their startup grace, or dead in it. */
  datatype Watcher = Unpublished | Published | Waiting | Woken | Cleared(stopping: bool) | Reporting | Finished

  datatype Worker = Worker(process: Process, watcher: Watcher)

  datatype Request = Start | Stop | Reload

  /** How far Worker.Stop has escalated: one signal, two signals, kill. */
  datatype Stage = First | Second | Killed

  /** What the holder of the operation mutex does next; `Free` when nobody holds it. */
  datatype Pc =
    | Free
    | StartCheck
    | Preparing
    | Failing
    | Spawning
    | Grace(child: nat)
    | Publishing(child: nat)
    | Launching(child: nat)
    | Marking(child: nat)
    | StopCheck(req: Request)
    | Terminating(req: Request, target: Option<nat>, ctx: Option<nat>, stage: Stage)
    | Cancelling(req: Request, ctx: Option<nat>)
    | Clearing(req: Request)
    | Settling(req: Request)

  datatype Instance = Instance(phase: Phase, worker: Option<nat>, cancel: Option<nat>, pc: Pc, workers: seq<Worker>)

  /** `Advance(ok)` moves the holder of the operation mutex; `ok` picks the
      outcome where the world decides it. */
  datatype Step = Acquire(req: Request) | Advance(ok: bool) | Die(k: nat) | Reap(k: nat) | Watch(k: nat)

  const FRESH: Instance := Instance(Stopped, None, None, Free, [])

  function AfterStop(req: Request): Pc {
    if req == Reload then StartCheck else Free
  }

  function Kill(workers: seq<Worker>, target: Option<nat>): seq<Worker> {
    match target
    case Some(k) =>
      if k < |workers| && workers[k].process == Alive then workers[k := workers[k].(process := Dead)] else workers
    case None => workers
  }

  predicate Enabled(s: Instance, step: Step) {
    match step
    case Acquire(_) => s.pc == Free
    case Die(k) => k < |s.workers| && s.workers[k].process == Alive
    case Reap(k) => k < |s.workers| && s.workers[k].process == Dead
    case Watch(k) =>
      && k < |s.workers|
      && match s.workers[k].watcher {
           case Waiting => s.workers[k].process == Reaped
           case Woken | Cleared(_) | Reporting => true
           case _ => false
         }
    case Advance(ok) =>
      match s.pc
      case Free => false
      case Grace(k) => k < |s.workers| && (ok || s.workers[k].process == Reaped)
      case Publishing(k) => k < |s.workers|
      case Launching(k) => k < |s.workers|
      case Terminating(_, target, _, stage) =>
        // Stop returns from a wait only when done is closed, and the last wait has no timeout.
        && (target.Some? ==> target.value < |s.workers|)
        && (target.Some? && ok ==> s.workers[target.value].process == Reaped)
        && (!ok ==> target.Some? && stage != Killed)
      case _ => true
  }

  /** One step of whoever holds the operation mutex. */
  function Operate(s: Instance, ok: bool): Instance
    requires Enabled(s, Advance(ok))
  {
    match s.pc
    case StartCheck =>
      if s.phase == Started || s.phase == Starting then s.(pc := Free) else s.(phase := Starting, pc := Preparing)
    case Preparing => s.(pc := if ok then Spawning else Failing)
    case Failing => s.(phase := Stopped, pc := Free)
    case Spawning =>
      if ok then s.(workers := s.workers + [Worker(Alive, Unpublished)], pc := Grace(|s.workers|))
          else s.(pc := Failing)
    case Grace(k) => s.(pc := if ok then Publishing(k) else Failing)
    case Publishing(k) =>
      s.(worker := Some(k), cancel := Some(k), workers := s.workers[k := s.workers[k].(watcher := Published)],
          pc := Launching(k))
    case Launching(k) => s.(workers := s.workers[k := s.workers[k].(watcher := Waiting)], pc := Marking(k))
    case Marking(_) => s.(phase := Started, pc := Free)
    case StopCheck(req) =>
      if s.phase == Stopped || s.phase == Stopping then s.(pc := AfterStop(req))
      else s.(phase := Stopping, pc := Terminating(req, s.worker, s.cancel, First))
    case Terminating(req, target, ctx, stage) =>
      if ok then s.(pc := Cancelling(req, ctx))
      else if stage == First then s.(pc := Terminating(req, target, ctx, Second))
      else s.(pc := Terminating(req, target, ctx, Killed), workers := Kill(s.workers, target))
    case Cancelling(req, ctx) => s.(pc := Clearing(req), workers := Kill(s.workers, ctx))
    case Clearing(req) => s.(worker := None, cancel := None, pc := Settling(req))
    case Settling(req) => s.(phase := Stopped, pc := AfterStop(req))
  }

  /** One step of the exit watcher of worker k.  It clears the instance's worker
      without asking whose worker it is. */
  function Attend(s: Instance, k: nat): Instance
    requires Enabled(s, Watch(k))
  {
    var next := (w: Watcher) => s.workers[k := s.workers[k].(watcher := w)];
    match s.workers[k].watcher
    case Waiting => s.(workers := next(Woken))
    case Woken => s.(worker := None, cancel := None, workers := next(Cleared(s.phase == Stopping)))
    case Cleared(stopping) => s.(workers := next(if stopping then Finished else Reporting))
    case Reporting => s.(phase := Stopped, workers := next(Finished))
  }

  function Do(s: Instance, step: Step): Instance
    requires Enabled(s, step)
  {
    match step
    case Acquire(req) => s.(pc := if req == Start then StartCheck else StopCheck(req))
    case Advance(ok) => Operate(s, ok)
    case Die(k) => s.(workers := s.workers[k := s.workers[k].(process := Dead)])
    case Reap(k) => s.(workers := s.workers[k := s.workers[k].(process := Reaped)])
    case Watch(k) => Attend(s, k)
  }

  // ---- What is promised --------------------------------------------------

  predicate Live(s: Instance, k: int) {
    0 <= k < |s.workers| && s.workers[k].process == Alive
  }

  ghost predicate NoLiveChild(s: Instance) {
    forall k :: !Live(s, k)
  }

  ghost predicate AtMostOneLive(s: Instance) {
    forall j, k :: Live(s, j) && Live(s, k) ==> j == k
  }

  /** Between operations, a live child is the one the instance can stop. */
  ghost predicate Owned(s: Instance) {
    s.pc == Free ==> forall k :: Live(s, k) ==> s.phase == Started && s.worker == Some(k) && s.cancel == Some(k)
  }

  predicate StopReturns(s: Instance, step: Step) {
    && step.Advance?
    && ((s.pc == StopCheck(Stop) && s.phase in {Stopped, Stopping}) || s.pc == Settling(Stop))
  }

  /** A watcher is about to write the instance's fields although a later worker
      has been published and still runs. */
  ghost predicate StaleHit(s: Instance, step: Step) {
    && step.Watch?
    && step.k < |s.workers|
    && s.workers[step.k].watcher in {Woken, Reporting}
    && exists j :: step.k < j && Live(s, j) && s.workers[j].watcher != Unpublished
  }

  /** A stale hit that matters: the clearing of the fields at any moment when the
      worker they name is the only trace of a live child, the report only when
      no operation is going to set the phase anyway. */
  ghost predicate HarmfulHit(s: Instance, step: Step) {
    && StaleHit(s, step)
    && match s.pc {
         case Free | StartCheck | StopCheck(_) => true
         case Launching(_) | Marking(_) => s.workers[step.k].watcher == Woken
         case _ => false
       }
  }

  /** The invariant behind the promises, one clause per position of the
      operation mutex holder. */
  ghost predicate Inv(s: Instance) {
    && (forall k :: Live(s, k) ==> k == |s.workers| - 1)
    && (forall k :: 0 <= k < |s.workers| && s.workers[k].watcher in {Woken, Reporting, Finished} ==>
        s.workers[k].process == Reaped)
    && (forall k :: 0 <= k < |s.workers| && s.workers[k].watcher.Cleared? ==> s.workers[k].process == Reaped)
    && match s.pc {
         case Free | StartCheck | StopCheck(_) =>
           forall k :: Live(s, k) ==>
             s.phase == Started && s.worker == Some(k) && s.cancel == Some(k) && s.workers[k].watcher != Unpublished
         case Grace(c) => c == |s.workers| - 1 && s.workers[c].watcher == Unpublished
         case Publishing(c) => c == |s.workers| - 1 && s.workers[c].watcher == Unpublished
         case Launching(c) =>
           c == |s.workers| - 1 && s.workers[c].watcher == Published
               && (Live(s, c) ==> s.worker == Some(c) && s.cancel == Some(c))
         case Marking(c) =>
           c == |s.workers| - 1 && s.workers[c].watcher != Unpublished
               && (Live(s, c) ==> s.worker == Some(c) && s.cancel == Some(c))
         case Terminating(_, target, ctx, _) =>
           forall k :: Live(s, k) ==> target == Some(k) && ctx == Some(k) && s.workers[k].watcher != Unpublished
         case _ => NoLiveChild(s)
       }
  }

  lemma StartStepKeepsInv(s: Instance, ok: bool)
    requires Inv(s) && Enabled(s, Advance(ok))
    requires s.pc in {StartCheck, Preparing, Failing, Spawning} || s.pc.Grace? || s.pc.Publishing? || s.pc.Launching?
        || s.pc.Marking?
    ensures Inv(Operate(s, ok))
  {
    var t := Operate(s, ok);
    forall k | Live(t, k)
      ensures k == |t.workers| - 1
      ensures k < |s.workers| ==> Live(s, k)
    {
      assert k < |s.workers| ==> Live(s, k);
    }
  }

  lemma StopStepKeepsInv(s: Instance, ok: bool)
    requires Inv(s) && Enabled(s, Advance(ok))
    requires s.pc.StopCheck? || s.pc.Terminating? || s.pc.Cancelling? || s.pc.Clearing? || s.pc.Settling?
    ensures Inv(Operate(s, ok))
    ensures StopReturns(s, Advance(ok)) ==> NoLiveChild(Operate(s, ok))
  {
    var t := Operate(s, ok);
    forall k | Live(t, k)
      ensures Live(s, k) && t.workers[k] == s.workers[k] && |t.workers| == |s.workers|
    {
    }
  }

  lemma EventKeepsInv(s: Instance, step: Step)
    requires Inv(s) && Enabled(s, step) && !step.Advance? && !step.Watch?
    ensures Inv(Do(s, step))
  {
    var t := Do(s, step);
    assert forall j :: Live(t, j) ==> Live(s, j) && t.workers[j] == s.workers[j];
  }

  /** A step of a watcher keeps the invariant exactly if it is not harmful. */
  lemma WatchKeepsInvIff(s: Instance, k: nat)
    requires Inv(s) && Enabled(s, Watch(k))
    ensures Inv(Attend(s, k)) <==> !HarmfulHit(s, Watch(k))
  {
    var t := Attend(s, k);
    assert s.workers[k].process == Reaped;
    forall j
      ensures Live(t, j) <==> Live(s, j)
      ensures Live(s, j) ==> t.workers[j] == s.workers[j] && j == |s.workers| - 1 && k < j
    {
      assert j != k && 0 <= j < |s.workers| ==> t.workers[j] == s.workers[j];
    }
    if HarmfulHit(s, Watch(k)) {
      var j :| k < j && Live(s, j) && s.workers[j].watcher != Unpublished;
      assert Live(t, j);
    }
  }

  lemma StepKeepsInv(s: Instance, step: Step)
    requires Inv(s) && Enabled(s, step) && !HarmfulHit(s, step)
    ensures Inv(Do(s, step))
    ensures StopReturns(s, step) ==> NoLiveChild(Do(s, step))
  {
    match step
    case Advance(ok) =>
      if s.pc.StopCheck? || s.pc.Terminating? || s.pc.Cancelling? || s.pc.Clearing? || s.pc.Settling? {
        StopStepKeepsInv(s, ok);
      } else {
        StartStepKeepsInv(s, ok);
      }
    case Watch(k) => WatchKeepsInvIff(s, k);
    case _ => EventKeepsInv(s, step);
  }

  // ---- Whole runs --------------------------------------------------------

  /** The states a sequence of enabled steps goes through, first to last. */
  ghost predicate IsRun(states: seq<Instance>, steps: seq<Step>) {
    && |states| == |steps| + 1
    && states[0] == FRESH
    && forall i :: 0 <= i < |steps| ==> Enabled(states[i], steps[i]) && states[i + 1] == Do(states[i], steps[i])
  }

  ghost predicate NoHarmfulHits(states: seq<Instance>, steps: seq<Step>)
    requires |states| == |steps| + 1
  {
    forall i :: 0 <= i < |steps| ==> !HarmfulHit(states[i], steps[i])
  }

  /** A scheduling assumption that is easy to state: whenever a worker is
      published, every earlier published worker's watcher has finished. */
  ghost predicate WatchersFinishFirst(states: seq<Instance>, steps: seq<Step>)
    requires |states| == |steps| + 1
  {
    forall i :: 0 <= i < |steps| ==> PublishesInOrder(states[i], steps[i])
  }

  ghost predicate PublishesInOrder(s: Instance, step: Step) {
    s.pc.Publishing? && step.Advance? ==>
      forall k :: 0 <= k < s.pc.child && k < |s.workers| ==> s.workers[k].watcher in {Unpublished, Finished}
  }

  lemma {:induction false} RunsKeepInv(states: seq<Instance>, steps: seq<Step>, i: nat)
    requires IsRun(states, steps) && NoHarmfulHits(states, steps) && i <= |steps|
    ensures Inv(states[i])
  {
    if i > 0 {
      RunsKeepInv(states, steps, i - 1);
      StepKeepsInv(states[i - 1], steps[i - 1]);
    }
  }

  /** Safety over every run without harmful hits. */
  lemma SafeRuns(states: seq<Instance>, steps: seq<Step>)
    requires IsRun(states, steps) && NoHarmfulHits(states, steps)
    ensures forall i :: 0 <= i <= |steps| ==> AtMostOneLive(states[i]) && Owned(states[i])
    ensures forall i :: 0 <= i < |steps| && StopReturns(states[i], steps[i]) ==> NoLiveChild(states[i + 1])
  {
    forall i | 0 <= i <= |steps|
      ensures AtMostOneLive(states[i]) && Owned(states[i])
      ensures i < |steps| && StopReturns(states[i], steps[i]) ==> NoLiveChild(states[i + 1])
    {
      RunsKeepInv(states, steps, i);
      if i < |steps| {
        StepKeepsInv(states[i], steps[i]);
      }
    }
  }

  /** Every worker but the last is out of the way once a later one is published. */
  ghost predicate Sequential(s: Instance) {
    && (forall j, k :: 0 <= k < j < |s.workers| && s.workers[j].watcher != Unpublished ==>
        s.workers[k].watcher in {Unpublished, Finished})
    && (s.pc.Grace? || s.pc.Publishing? || s.pc.Launching? ==> s.pc.child == |s.workers| - 1)
    && (s.pc.Launching? ==> s.workers[s.pc.child].watcher == Published)
  }

  lemma StepKeepsSequential(s: Instance, step: Step)
    requires Sequential(s) && Enabled(s, step) && PublishesInOrder(s, step)
    ensures Sequential(Do(s, step))
  {
  }

  lemma {:induction false} FinishFirstIsSequential(states: seq<Instance>, steps: seq<Step>, i: nat)
    requires IsRun(states, steps) && WatchersFinishFirst(states, steps) && i <= |steps|
    ensures Sequential(states[i])
  {
    if i > 0 {
      FinishFirstIsSequential(states, steps, i - 1);
      StepKeepsSequential(states[i - 1], steps[i - 1]);
    }
  }

  /** It rules out harmful hits, so every run that meets it is safe. */
  lemma FinishFirstIsSafe(states: seq<Instance>, steps: seq<Step>)
    requires IsRun(states, steps) && WatchersFinishFirst(states, steps)
    ensures NoHarmfulHits(states, steps)
    ensures forall i :: 0 <= i <= |steps| ==> AtMostOneLive(states[i]) && Owned(states[i])
    ensures forall i :: 0 <= i < |steps| && StopReturns(states[i], steps[i]) ==> NoLiveChild(states[i + 1])
  {
    forall i | 0 <= i < |steps|
      ensures !HarmfulHit(states[i], steps[i])
    {
      FinishFirstIsSequential(states, steps, i);
    }
    SafeRuns(states, steps);
  }

  /** Between operations the assumption is exact: a step keeps a live child owned
      if and only if it is not a stale hit. */
  lemma OwnershipIffNoStaleHit(s: Instance, step: Step)
    requires Inv(s) && s.pc == Free && Enabled(s, step)
    ensures Owned(Do(s, step)) <==> !StaleHit(s, step)
  {
    if StaleHit(s, step) {
      var j :| step.k < j && Live(s, j);
      assert Live(Do(s, step), j);
    } else {
      StepKeepsInv(s, step);
    }
  }

  // ---- Operations come to an end -----------------------------------------

  /** Where the phase is read, it is that of an instance at rest. */
  predicate Definite(s: Instance) {
    s.pc in {Free, StartCheck} || s.pc.StopCheck? ==> s.phase in {Started, Stopped}
  }

  lemma StepKeepsDefinite(s: Instance, step: Step)
    requires Definite(s) && Enabled(s, step)
    ensures Definite(Do(s, step))
  {
  }

  /** In every state of every run, an instance on which no operation is under way
      counts as started or as stopped, whatever went wrong before. */
  lemma {:induction false} RestsDefinite(states: seq<Instance>, steps: seq<Step>, i: nat)
    requires IsRun(states, steps) && i <= |steps|
    ensures Definite(states[i])
  {
    if i > 0 {
      RestsDefinite(states, steps, i - 1);
      StepKeepsDefinite(states[i - 1], steps[i - 1]);
    }
  }

  /** A start of a stopped instance goes ahead, and one of a started instance is
      refused and changes nothing; a stop the other way round. */
  lemma OperationsGoAhead(s: Instance, req: Request)
    requires s.pc == Free && s.phase in {Started, Stopped}
    ensures var asked := Do(s, Acquire(req)); var s' := Do(asked, Advance(true));
      match req
      case Start => if s.phase == Started then s' == s else s' == s.(phase := Starting, pc := Preparing)
      case Stop => if s.phase == Stopped then s' == s
                   else s' == s.(phase := Stopping, pc := Terminating(Stop, s.worker, s.cancel, First))
      case Reload => if s.phase == Stopped then s' == s.(pc := StartCheck)
                     else s' == s.(phase := Stopping, pc := Terminating(Reload, s.worker, s.cancel, First))
  {
  }

  /** An operation ends started only by marking, and otherwise stopped; a reload
      goes on to its start, whatever its stop found. */
  lemma OperationsEnd(s: Instance, ok: bool)
    requires Enabled(s, Advance(ok)) && s.pc !in {StartCheck} && !s.pc.StopCheck?
    ensures var s' := Operate(s, ok);
      && (s'.pc == Free <==> s.pc in {Failing, Settling(Start), Settling(Stop)} || s.pc.Marking?)
      && (s'.pc == StartCheck <==> s.pc == Settling(Reload))
      && (s'.pc in {Free, StartCheck} ==> s'.phase == if s.pc.Marking? then Started else Stopped)
  {
  }

  /** A start that cannot read its configuration, cannot spawn its child, or sees
      it die within the startup grace ends stopped, and leaves everything else as
      it was. */
  lemma FailedStartsEndStopped(s: Instance, ok: bool)
    requires Enabled(s, Advance(false)) && (s.pc in {Preparing, Spawning} || s.pc.Grace?)
    ensures var failed := Operate(s, false);
      Enabled(failed, Advance(ok)) && Operate(failed, ok) == s.(phase := Stopped, pc := Free)
  {
  }

  /** The exit watcher of a worker clears the fields and then, unless it has seen a
      stop under way, sets the phase to stopped; after that it is done. */
  lemma WatcherFinishes(s: Instance, k: nat)
    requires Enabled(s, Watch(k)) && s.workers[k].watcher == Woken
    ensures var s' := Attend(s, k);
      && s'.worker == None && s'.cancel == None && s'.phase == s.phase && Enabled(s', Watch(k))
      && var s'' := Attend(s', k);
         if s.phase == Stopping then s'' == s'.(workers := s''.workers) && s''.workers[k].watcher == Finished
         else
           && s''.phase == s.phase && Enabled(s'', Watch(k))
           && var s3 := Attend(s'', k);
              s3.phase == Stopped && s3.workers[k].watcher == Finished && s3.pc == s.pc && s3.worker == None
  {
  }

  /** How many moves the holder of the operation mutex has left at most. */
  function Left(pc: Pc): nat {
    match pc
    case Free => 0
    case Failing => 1
    case Marking(_) => 1
    case Launching(_) => 2
    case Publishing(_) => 3
    case Grace(_) => 4
    case Spawning => 5
    case Preparing => 6
    case StartCheck => 7
    case Settling(req) => 1 + (if req == Reload then 7 else 0)
    case Clearing(req) => 2 + (if req == Reload then 7 else 0)
    case Cancelling(req, _) => 3 + (if req == Reload then 7 else 0)
    case Terminating(req, _, _, Killed) => 4 + (if req == Reload then 7 else 0)
    case Terminating(req, _, _, Second) => 5 + (if req == Reload then 7 else 0)
    case Terminating(req, _, _, First) => 6 + (if req == Reload then 7 else 0)
    case StopCheck(req) => 7 + (if req == Reload then 7 else 0)
  }

  lemma EveryMoveCounts(s: Instance, ok: bool)
    requires Enabled(s, Advance(ok))
    ensures Left(Operate(s, ok).pc) < Left(s.pc) <= 14
  {
  }

  /** The positions that name a worker name one there is, and one that has been
      killed is dead. */
  predicate Grounded(s: Instance) {
    && (s.worker.Some? ==> s.worker.value < |s.workers|)
    && match s.pc
       case Grace(k) => k < |s.workers|
       case Publishing(k) => k < |s.workers|
       case Launching(k) => k < |s.workers|
       case Terminating(_, Some(k), _, stage) => k < |s.workers| && (stage == Killed ==> s.workers[k].process != Alive)
       case _ => true
  }

  lemma StepKeepsGrounded(s: Instance, step: Step)
    requires Grounded(s) && Enabled(s, step)
    ensures Grounded(Do(s, step))
  {
  }

  lemma {:induction false} RunsKeepGrounded(states: seq<Instance>, steps: seq<Step>, i: nat)
    requires IsRun(states, steps) && i <= |steps|
    ensures Grounded(states[i])
  {
    if i > 0 {
      RunsKeepGrounded(states, steps, i - 1);
      StepKeepsGrounded(states[i - 1], steps[i - 1]);
    }
  }

  /** No operation is ever stuck: in every state of every run its holder can move,
      after the operating system has reaped a child that was killed, if that is
      what it waits for; and after at most fourteen moves it is done. */
  lemma NeverStuck(states: seq<Instance>, steps: seq<Step>, i: nat)
    requires IsRun(states, steps) && i <= |steps| && states[i].pc != Free
    ensures var s := states[i];
      || Enabled(s, Advance(true)) || Enabled(s, Advance(false))
      || (s.pc.Terminating? && s.pc.stage == Killed && s.pc.target.Some? && Enabled(s, Reap(s.pc.target.value))
          && Enabled(Do(s, Reap(s.pc.target.value)), Advance(true)))
    ensures forall ok :: Enabled(states[i], Advance(ok)) ==> Left(Operate(states[i], ok).pc) < Left(states[i].pc) <= 14
  {
    RunsKeepGrounded(states, steps, i);
  }

  /** The holder of the mutex kills a child in two places only: when the child
      has outlasted both graces of a stop, and through its own context. */
  lemma KillsAfterTwoGraces(s: Instance, ok: bool, k: nat)
    requires Enabled(s, Advance(ok)) && Live(s, k)
    ensures !Live(Operate(s, ok), k) <==>
            match s.pc
            case Terminating(_, target, _, stage) => !ok && stage == Second && target == Some(k)
            case Cancelling(_, ctx) => ctx == Some(k)
            case _ => false
  {
  }

  /** A child is lost in no other way than by such a kill or by dying on its own,
      and comes to life only by being spawned. */
  lemma OnlyTheseEndChildren(s: Instance, step: Step, k: nat)
    requires Enabled(s, step)
    ensures Live(s, k) && !Live(Do(s, step), k) ==> step == Die(k) || step.Advance?
    ensures !Live(s, k) && Live(Do(s, step), k) ==> s.pc == Spawning && step == Advance(true) && k == |s.workers|
    ensures s.pc == Spawning && step == Advance(true) ==> Live(Do(s, step), |s.workers|)
  {
  }

  // ---- Runs that go wrong ------------------------------------------------

  /** A run so far, paired so that lemmas can hand it on. */
  datatype Trace = Trace(states: seq<Instance>, steps: seq<Step>) {
    ghost predicate Ok() { IsRun(states, steps) }

    function Last(): Instance
      requires |states| > 0
    {
      states[|states| - 1]
    }

    function Then(step: Step): Trace
      requires |states| > 0 && Enabled(Last(), step)
    {
      Trace(states + [Do(Last(), step)], steps + [step])
    }
  }

  lemma Extend(r: Trace, step: Step) returns (r': Trace)
    requires r.Ok() && Enabled(r.Last(), step)
    ensures r'.Ok() && r'.Last() == Do(r.Last(), step)
    ensures WatchersFinishFirst(r.states, r.steps) && PublishesInOrder(r.Last(), step) ==>
        WatchersFinishFirst(r'.states, r'.steps)
  {
    r' := r.Then(step);
  }

  lemma Spawned(r: Trace) returns (r': Trace)
    requires r.Ok() && r.Last().pc == StartCheck && r.Last().phase == Stopped
    ensures r'.Ok()
    ensures WatchersFinishFirst(r.states, r.steps) ==> WatchersFinishFirst(r'.states, r'.steps)
    ensures r'.Last() == r.Last().(phase := Starting, pc := Grace(|r.Last().workers|),
        workers := r.Last().workers + [Worker(Alive, Unpublished)])
  {
    r' := Extend(r, Advance(true));
    r' := Extend(r', Advance(true));
    r' := Extend(r', Advance(true));
  }

  /** From the start check of a stopped instance up to, but not including, the
      moment the state is set to started: a new child has been published and its
      watcher launched. */
  lemma Launched(r: Trace) returns (r': Trace)
    requires r.Ok() && r.Last().pc == StartCheck && r.Last().phase == Stopped
    ensures r'.Ok()
    ensures r.Last().workers == [] && WatchersFinishFirst(r.states, r.steps) ==>
        WatchersFinishFirst(r'.states, r'.steps)
    ensures var n := |r.Last().workers|;
      r'.Last() == Instance(Starting, Some(n), Some(n), Marking(n), r.Last().workers + [Worker(Alive, Waiting)])
  {
    r' := Spawned(r);
    r' := Extend(r', Advance(true));
    r' := Extend(r', Advance(true));
    r' := Extend(r', Advance(true));
  }

  lemma FirstLaunch() returns (r: Trace)
    ensures r.Ok() && r.Last() == Instance(Starting, Some(0), Some(0), Marking(0), [Worker(Alive, Waiting)])
    ensures WatchersFinishFirst(r.states, r.steps)
  {
    r := Trace([FRESH], []);
    r := Extend(r, Acquire(Start));
    r := Launched(r);
  }

  /** The part of a stop that follows the wait for a child that is gone, or for none. */
  lemma TornDown(r: Trace) returns (r': Trace)
    requires r.Ok() && r.Last().pc.Terminating? && r.Last().pc.ctx == r.Last().pc.target
    requires r.Last().pc.target.Some? ==>
               r.Last().pc.target.value < |r.Last().workers|
                   && r.Last().workers[r.Last().pc.target.value].process == Reaped
    ensures r'.Ok() && r'.Last() == r.Last().(worker := None, cancel := None, pc := Settling(r.Last().pc.req))
  {
    r' := Extend(r, Advance(true));
    r' := Extend(r', Advance(true));
    r' := Extend(r', Advance(true));
  }

  /** A reload waits for its child, which exits and wakes its watcher. */
  lemma ReloadWaiting() returns (r: Trace)
    ensures r.Ok()
    ensures r.Last() == Instance(Stopping, Some(0), Some(0), Terminating(Reload, Some(0), Some(0), First),
        [Worker(Reaped, Woken)])
  {
    r := FirstLaunch();
    r := Extend(r, Advance(true));
    r := Extend(r, Acquire(Reload));
    r := Extend(r, Advance(true));
    r := Extend(r, Die(0));
    r := Extend(r, Reap(0));
    r := Extend(r, Watch(0));
  }

  /** The reload completes before that watcher gets any further: the instance
      ends up started on a second child. */
  lemma ReloadedWithLateWatcher() returns (r: Trace)
    ensures r.Ok()
    ensures r.Last() == Instance(Started, Some(1), Some(1), Free, [Worker(Reaped, Woken), Worker(Alive, Waiting)])
  {
    r := ReloadWaiting();
    r := TornDown(r);
    r := Extend(r, Advance(true));
    r := Launched(r);
    r := Extend(r, Advance(true));
  }

  /** The first child's watcher then marks the instance stopped. */
  lemma StoppedUnderChild() returns (r: Trace)
    ensures r.Ok()
    ensures r.Last() == Instance(Stopped, None, None, Free, [Worker(Reaped, Finished), Worker(Alive, Waiting)])
  {
    r := ReloadedWithLateWatcher();
    r := Extend(r, Watch(0));
    r := Extend(r, Watch(0));
    r := Extend(r, Watch(0));
  }

  /** Without the scheduling assumption the promise fails: the first child's late
      watcher marks the instance stopped under the second child, so the next
      start spawns a third beside it. */
  lemma LateWatcherAllowsTwoChildren()
    ensures exists states, steps :: IsRun(states, steps) && !AtMostOneLive(states[|steps|])
  {
    var r := StoppedUnderChild();
    r := Extend(r, Acquire(Start));
    r := Launched(r);
    assert Live(r.Last(), 1) && Live(r.Last(), 2);
    assert IsRun(r.states, r.steps) && r.states[|r.steps|] == r.Last();
  }

  lemma StopEndsRun(r: Trace, k: nat)
    requires r.Ok() && r.Last().pc == Settling(Stop) && Live(r.Last(), k)
    ensures exists states, steps, i ::
              IsRun(states, steps) && 0 <= i < |steps| && StopReturns(states[i], steps[i]) && Live(states[i + 1], k)
  {
    var i := |r.steps|;
    var e := r.Then(Advance(true));
    assert IsRun(e.states, e.steps) && StopReturns(e.states[i], e.steps[i]) && Live(e.states[i + 1], k);
  }

  /** A late watcher clears the worker under a running child, so stop has nobody to wait for. */
  lemma StopFindsNoWorker() returns (r: Trace)
    ensures r.Ok() && r.Last().pc == Terminating(Stop, None, None, First) && Live(r.Last(), 1)
  {
    r := ReloadedWithLateWatcher();
    r := Extend(r, Watch(0));
    r := Extend(r, Acquire(Stop));
    r := Extend(r, Advance(true));
  }

  /** Also without it, stop can return with the child still running. */
  lemma LateWatcherLetsStopLeaveAChild()
    ensures exists states, steps, i ::
              IsRun(states, steps) && 0 <= i < |steps| && StopReturns(states[i], steps[i]) && Live(states[i + 1], 1)
  {
    var r := StopFindsNoWorker();
    r := TornDown(r);
    StopEndsRun(r, 1);
  }

  // ---- What "started" means ----------------------------------------------

  /** Nothing is under way: no operation, no exit to notice, no watcher to finish. */
  ghost predicate Quiescent(s: Instance) {
    && s.pc == Free
    && forall k :: 0 <= k < |s.workers| ==>
         && s.workers[k].process != Dead
         && (s.workers[k].watcher in {Unpublished, Finished}
             || (s.workers[k].watcher == Waiting && s.workers[k].process == Alive))
  }

  /** The watcher of the child being started reports the exit before the start
      has recorded its success. */
  predicate EarlyReport(s: Instance, step: Step) {
    step.Watch? && s.pc == Marking(step.k) && step.k < |s.workers| && s.workers[step.k].watcher == Reporting
  }

  predicate Pending(w: Watcher) {
    w in {Published, Waiting, Woken, Cleared(false), Reporting}
  }

  /** While the phase is Started or about to be, the newest child is watched by
      somebody who will still report its exit. */
  ghost predicate Watched(s: Instance) {
    match s.pc
    case Free | StartCheck | StopCheck(_) => 
      s.phase == Started ==> exists k :: 0 <= k < |s.workers| && Pending(s.workers[k].watcher)
    case Grace(_) | Publishing(_) | Preparing | Spawning | Failing => s.phase in {Starting, Stopped}
    case Launching(c) => s.phase in {Starting, Stopped} && c < |s.workers|
    case Marking(c) => s.phase in {Starting, Stopped} && c < |s.workers| && Pending(s.workers[c].watcher)
    case _ => s.phase in {Stopping, Stopped}
  }

  lemma StepKeepsWatched(s: Instance, step: Step)
    requires Watched(s) && Enabled(s, step) && !EarlyReport(s, step)
    ensures Watched(Do(s, step))
  {
    var t := Do(s, step);
    if s.phase == Started && (s.pc.Free? || s.pc.StartCheck? || s.pc.StopCheck?) {
      var k :| 0 <= k < |s.workers| && Pending(s.workers[k].watcher);
      assert t.phase == Started ==> k < |t.workers| && Pending(t.workers[k].watcher);
    }
    if s.pc.Marking? && step.Advance? {
      assert Pending(t.workers[s.pc.child].watcher);
    }
  }

  lemma {:induction false} RunsKeepWatched(states: seq<Instance>, steps: seq<Step>, i: nat)
    requires IsRun(states, steps) && i <= |steps|
    requires forall j :: 0 <= j < |steps| ==> !EarlyReport(states[j], steps[j])
    ensures Watched(states[i])
  {
    if i > 0 {
      RunsKeepWatched(states, steps, i - 1);
      StepKeepsWatched(states[i - 1], steps[i - 1]);
    }
  }

  /** At rest, "started" implies a live child in every run without an early report. */
  lemma StartedMeansAlive(states: seq<Instance>, steps: seq<Step>, i: nat)
    requires IsRun(states, steps) && i <= |steps|
    requires forall j :: 0 <= j < |steps| ==> !EarlyReport(states[j], steps[j])
    ensures Quiescent(states[i]) && states[i].phase == Started ==> exists k :: Live(states[i], k)
  {
    RunsKeepWatched(states, steps, i);
    var s := states[i];
    if Quiescent(s) && s.phase == Started {
      var k :| 0 <= k < |s.workers| && Pending(s.workers[k].watcher);
      assert Live(s, k);
    }
  }

  /** The worker the instance names is watched by a watcher that has yet to clear it. */
  predicate NamesWatched(s: Instance) {
    s.worker.Some? ==> s.worker.value < |s.workers| && s.workers[s.worker.value].watcher in {Published, Waiting, Woken}
  }

  lemma {:induction false} RunsNameWatched(states: seq<Instance>, steps: seq<Step>, i: nat)
    requires IsRun(states, steps) && i <= |steps|
    ensures NamesWatched(states[i])
  {
    if i > 0 {
      RunsNameWatched(states, steps, i - 1);
      assert states[i] == Do(states[i - 1], steps[i - 1]);
    }
  }

  /** At rest, a started instance that names a worker has that worker alive, in
      every run; and without harmful hits it has a live child exactly if it
      names one. */
  lemma StartedIsAliveIff(states: seq<Instance>, steps: seq<Step>, i: nat)
    requires IsRun(states, steps) && i <= |steps| && Quiescent(states[i]) && states[i].phase == Started
    ensures states[i].worker.Some? ==> Live(states[i], states[i].worker.value)
    ensures NoHarmfulHits(states, steps) ==> ((exists k :: Live(states[i], k)) <==> states[i].worker.Some?)
  {
    RunsNameWatched(states, steps, i);
    var s := states[i];
    assert s.worker.Some? ==> Live(s, s.worker.value);
    if NoHarmfulHits(states, steps) {
      RunsKeepInv(states, steps, i);
      assert forall k :: Live(s, k) ==> s.worker == Some(k);
    }
  }

  lemma ReportedEarly() returns (r: Trace)
    ensures r.Ok() && WatchersFinishFirst(r.states, r.steps)
    ensures r.Last() == Instance(Stopped, None, None, Marking(0), [Worker(Reaped, Finished)])
  {
    r := FirstLaunch();
    r := Extend(r, Die(0));
    r := Extend(r, Reap(0));
    r := Extend(r, Watch(0));
    r := Extend(r, Watch(0));
    r := Extend(r, Watch(0));
    r := Extend(r, Watch(0));
  }

  /** With one, the instance can rest as "started" with no child and nobody left
      to notice, in a run that meets the scheduling assumption. */
  lemma EarlyReportLeavesStartedWithoutChild()
    ensures exists states: seq<Instance>, steps ::
              && IsRun(states, steps) && WatchersFinishFirst(states, steps)
              && Quiescent(states[|steps|]) && states[|steps|].phase == Started && NoLiveChild(states[|steps|])
  {
    var r := ReportedEarly();
    r := Extend(r, Advance(true));
    assert r.Last() == Instance(Started, None, None, Free, [Worker(Reaped, Finished)]);
    assert IsRun(r.states, r.steps) && r.states[|r.steps|] == r.Last();
  }
}
