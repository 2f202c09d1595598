/** Who may run the update pipeline: scheduled, manual and bootstrap runs race
    for a try-lock, and a separate flag tells observers that a run is under way.
    Part of what the pipeline changes is also written by others, who do not ask
    for the lock. */
module UpdateLock {
  import opened Options

  /** Where one trigger stands.  `Running` carries how far the body is, what it
      found when it began, the world after its last access, and whether somebody
      else has written since it began. */
  datatype Stage<W, B> =
    | Trying | Rejected | Locked | Flagged
    | Running(body: B, start: W, seen: W, disturbed: bool)
    | Finished | Unflagged | Done

  datatype Trigger<W, J, B> = Trigger(job: J, stage: Stage<W, B>)

  /** What has happened to the world: a body ran undisturbed, or a write by
      others, or the end of a disturbed body, left it so. */
  datatype Entry<W, J> = Ran(job: J) | Wrote(world: W)

  /** W is everything a pipeline body changes. */
  datatype Gate<W, J, B> =
    Gate(holder: Option<nat>, running: bool, world: W, triggers: seq<Trigger<W, J, B>>, history: seq<Entry<W, J>>)

  /** `admits`: the check a trigger makes before it tries the lock.  A body starts
      at `first` and goes on by `next`, one access to the world at a time, until
      it is over; `rest` is what it then has made of the world if nobody else
      writes meanwhile.  `guarded`: the part that only bodies write. */
  datatype Rules<!W, !J, !B, G> = Rules(
    admits: (J, W) -> bool,
    first: J -> B,
    over: B -> bool,
    next: (J, B, W) -> (B, W),
    rest: (J, B, W) -> W,
    guarded: W -> G)

  ghost predicate Lawful<W(!new), J(!new), B(!new), G>(r: Rules<W, J, B, G>) {
    && (forall j, b, w {:trigger r.rest(j, b, w)} :: r.over(b) ==> r.rest(j, b, w) == w)
    && (forall j, b, w {:trigger r.next(j, b, w)} :: !r.over(b) ==>
          r.rest(j, b, w) == r.rest(j, r.next(j, b, w).0, r.next(j, b, w).1))
  }

  /** What a whole body makes of the world. */
  function Effect<W, J, B, G>(r: Rules<W, J, B, G>, job: J, w: W): W {
    r.rest(job, r.first(job), w)
  }

  datatype Step<W, J> =
    | Arrive(job: J) | TryLock(i: nat) | Flag(i: nat) | Begin(i: nat) | Work(i: nat) | Finish(i: nat)
    | Unflag(i: nat) | Unlock(i: nat) | Outside(w: W)

  ghost predicate Enabled<W, J, B, G>(r: Rules<W, J, B, G>, s: Gate<W, J, B>, step: Step<W, J>) {
    match step
    case Arrive(job) => r.admits(job, s.world)
    case Outside(w) => r.guarded(w) == r.guarded(s.world)
    case _ =>
      && step.i < |s.triggers|
      && var t := s.triggers[step.i];
         match step
         case TryLock(_) => t.stage.Trying?
         case Flag(_) => t.stage.Locked?
         case Begin(_) => t.stage.Flagged?
         case Work(_) => t.stage.Running? && !r.over(t.stage.body)
         case Finish(_) => t.stage.Running? && r.over(t.stage.body)
         case Unflag(_) => t.stage.Finished?
         case Unlock(_) => t.stage.Unflagged?
  }

  function Move<W, J, B>(s: Gate<W, J, B>, i: nat, stage: Stage<W, B>): seq<Trigger<W, J, B>>
    requires i < |s.triggers|
  {
    s.triggers[i := s.triggers[i].(stage := stage)]
  }

  /** The trigger whose body is under way, if any. */
  function Body<W, J, B>(s: Gate<W, J, B>): Option<nat> {
    match s.holder
    case Some(i) => if i < |s.triggers| && s.triggers[i].stage.Running? then Some(i) else None
    case None => None
  }

  ghost function Do<W, J, B, G>(r: Rules<W, J, B, G>, s: Gate<W, J, B>, step: Step<W, J>): Gate<W, J, B>
    requires Enabled(r, s, step)
  {
    match step
    case Arrive(job) => s.(triggers := s.triggers + [Trigger(job, Trying)])
    case TryLock(i) =>
      if s.holder == None then s.(holder := Some(i), triggers := Move(s, i, Locked))
      else s.(triggers := Move(s, i, Rejected))
    case Flag(i) => s.(running := true, triggers := Move(s, i, Flagged))
    case Begin(i) => s.(triggers := Move(s, i, Running(r.first(s.triggers[i].job), s.world, s.world, false)))
    case Work(i) =>
      var (body, w) := r.next(s.triggers[i].job, s.triggers[i].stage.body, s.world);
      s.(world := w, triggers := Move(s, i, s.triggers[i].stage.(body := body, seen := w)))
    case Finish(i) =>
      s.(triggers := Move(s, i, Finished),
         history := s.history + [if s.triggers[i].stage.disturbed then Wrote(s.world) else Ran(s.triggers[i].job)])
    case Unflag(i) => s.(running := false, triggers := Move(s, i, Unflagged))
    case Unlock(i) => s.(holder := None, triggers := Move(s, i, Done))
    case Outside(w) =>
      match Body(s)
      case Some(i) => s.(world := w, triggers := Move(s, i, s.triggers[i].stage.(disturbed := true)))
      case None => s.(world := w, history := s.history + [Wrote(w)])
  }

  predicate Inside<W, B>(stage: Stage<W, B>) {
    stage.Locked? || stage.Flagged? || stage.Running? || stage.Finished? || stage.Unflagged?
  }

  predicate Shown<W, B>(stage: Stage<W, B>) {
    stage.Flagged? || stage.Running? || stage.Finished?
  }

  /** The world after the first n entries of the history, one after the other. */
  function Composed<W, J, B, G>(r: Rules<W, J, B, G>, start: W, history: seq<Entry<W, J>>, n: nat): W
    requires n <= |history|
  {
    if n == 0 then start
    else match history[n - 1]
      case Ran(job) => Effect(r, job, Composed(r, start, history, n - 1))
      case Wrote(w) => w
  }

  ghost predicate Exclusive<W, J, B>(s: Gate<W, J, B>) {
    && (forall i :: 0 <= i < |s.triggers| && Inside(s.triggers[i].stage) ==> s.holder == Some(i))
    && (s.holder.Some? ==> s.holder.value < |s.triggers| && Inside(s.triggers[s.holder.value].stage))
    && (s.running <==> s.holder.Some? && Shown(s.triggers[s.holder.value].stage))
  }

  /** What the body under way, if any, has last written is still there: what only
      bodies write always, and everything unless the body is disturbed. */
  ghost predicate Watched<W, J, B, G>(r: Rules<W, J, B, G>, s: Gate<W, J, B>) {
    Body(s).Some? ==>
      var b := s.triggers[Body(s).value].stage;
      r.guarded(b.seen) == r.guarded(s.world) && (!b.disturbed ==> b.seen == s.world)
  }

  /** The world is that of the history, or on the way there from it. */
  ghost predicate Accounted<W, J, B, G>(r: Rules<W, J, B, G>, start: W, s: Gate<W, J, B>) {
    var c := Composed(r, start, s.history, |s.history|);
    match Body(s)
    case None => s.world == c
    case Some(i) =>
      var t := s.triggers[i];
      !t.stage.disturbed ==> t.stage.start == c && r.rest(t.job, t.stage.body, s.world) == Effect(r, t.job, c)
  }

  ghost predicate IsRun<W, J, B, G>(r: Rules<W, J, B, G>, states: seq<Gate<W, J, B>>, steps: seq<Step<W, J>>) {
    && |states| == |steps| + 1
    && states[0].holder == None && !states[0].running && states[0].triggers == [] && states[0].history == []
    && forall i :: 0 <= i < |steps| ==> Enabled(r, states[i], steps[i]) && states[i + 1] == Do(r, states[i], steps[i])
  }

  lemma {:induction false} ComposedPrefix<W, J, B, G>(r: Rules<W, J, B, G>, start: W, history: seq<Entry<W, J>>,
      e: Entry<W, J>, n: nat)
    requires n <= |history|
    ensures Composed(r, start, history + [e], n) == Composed(r, start, history, n)
  {
    if n > 0 {
      ComposedPrefix(r, start, history, e, n - 1);
    }
  }

  lemma StepKeepsExclusive<W, J, B, G>(r: Rules<W, J, B, G>, s: Gate<W, J, B>, step: Step<W, J>)
    requires Exclusive(s) && Enabled(r, s, step)
    ensures Exclusive(Do(r, s, step))
  {
  }

  lemma StepKeepsWatch<W, J, B, G>(r: Rules<W, J, B, G>, s: Gate<W, J, B>, step: Step<W, J>)
    requires Exclusive(s) && Watched(r, s) && Enabled(r, s, step)
    ensures Watched(r, Do(r, s, step))
  {
  }

  lemma {:induction false} RunsKeepInv<W, J, B, G>(
      r: Rules<W, J, B, G>, states: seq<Gate<W, J, B>>, steps: seq<Step<W, J>>, n: nat)
    requires IsRun(r, states, steps) && n <= |steps|
    ensures Exclusive(states[n]) && Watched(r, states[n])
  {
    if n > 0 {
      RunsKeepInv(r, states, steps, n - 1);
      StepKeepsExclusive(r, states[n - 1], steps[n - 1]);
      StepKeepsWatch(r, states[n - 1], steps[n - 1]);
    }
  }

  lemma StepKeepsAccounts<W(!new), J(!new), B(!new), G>(
      r: Rules<W, J, B, G>, start: W, s: Gate<W, J, B>, step: Step<W, J>)
    requires Lawful(r) && Exclusive(s) && Accounted(r, start, s) && Enabled(r, s, step)
    ensures Accounted(r, start, Do(r, s, step))
  {
    var s' := Do(r, s, step);
    if s'.history != s.history {
      var e := s'.history[|s.history|];
      assert s'.history == s.history + [e];
      ComposedPrefix(r, start, s.history, e, |s.history|);
    }
  }

  lemma {:induction false} RunsKeepAccounts<W(!new), J(!new), B(!new), G>(
      r: Rules<W, J, B, G>, states: seq<Gate<W, J, B>>, steps: seq<Step<W, J>>, n: nat)
    requires Lawful(r) && IsRun(r, states, steps) && n <= |steps|
    ensures Accounted(r, states[0].world, states[n])
  {
    if n > 0 {
      RunsKeepAccounts(r, states, steps, n - 1);
      RunsKeepInv(r, states, steps, n - 1);
      StepKeepsAccounts(r, states[0].world, states[n - 1], steps[n - 1]);
    }
  }

  /** In every state of every run: the flag is up only while the lock is held, at
      most one body is under way, nobody else has written what only bodies
      write, and nobody else has written anything unless the body is marked as
      disturbed. */
  lemma OneBodyAtATime<W, J, B, G>(r: Rules<W, J, B, G>, states: seq<Gate<W, J, B>>, steps: seq<Step<W, J>>, n: nat)
    requires IsRun(r, states, steps) && n <= |steps|
    ensures var s := states[n];
      && (s.running ==> s.holder.Some?)
      && (forall i, j :: 0 <= i < |s.triggers| && 0 <= j < |s.triggers| ==>
            s.triggers[i].stage.Running? && s.triggers[j].stage.Running? ==> i == j)
      && (forall i :: 0 <= i < |s.triggers| && s.triggers[i].stage.Running? ==>
            && s.running && r.guarded(s.triggers[i].stage.seen) == r.guarded(s.world)
            && (!s.triggers[i].stage.disturbed ==> s.triggers[i].stage.seen == s.world))
  {
    RunsKeepInv(r, states, steps, n);
  }

  /** Whenever no body is under way, the world is what the undisturbed bodies,
      each as a whole and in the order in which they held the lock, and the
      writes by others have made of it. */
  lemma BodiesCompose<W(!new), J(!new), B(!new), G>(
      r: Rules<W, J, B, G>, states: seq<Gate<W, J, B>>, steps: seq<Step<W, J>>, n: nat)
    requires Lawful(r) && IsRun(r, states, steps) && n <= |steps| && Body(states[n]) == None
    ensures states[n].world == Composed(r, states[0].world, states[n].history, |states[n].history|)
  {
    RunsKeepAccounts(r, states, steps, n);
  }

  /** A trigger that finds the lock taken is turned away and changes nothing. */
  lemma BusyChangesNothing<W, J, B, G>(r: Rules<W, J, B, G>, states: seq<Gate<W, J, B>>, steps: seq<Step<W, J>>, n: nat,
      i: nat)
    requires IsRun(r, states, steps) && n < |steps| && steps[n] == TryLock(i)
    ensures states[n + 1].triggers[i].stage.Rejected?
        <==> exists j :: 0 <= j < |states[n].triggers| && Inside(states[n].triggers[j].stage)
    ensures states[n + 1].triggers[i].stage.Rejected? ==>
        states[n + 1] == states[n].(triggers := Move(states[n], i, Rejected))
  {
    RunsKeepInv(r, states, steps, n);
    assert states[n + 1] == Do(r, states[n], steps[n]);
  }

  /** A lock that is held without the flag being up belongs to a trigger that is
      about to raise the flag or has just lowered it ... */
  lemma HeldWithoutFlagIff<W, J, B, G>(r: Rules<W, J, B, G>, states: seq<Gate<W, J, B>>, steps: seq<Step<W, J>>, n: nat)
    requires IsRun(r, states, steps) && n <= |steps|
    ensures var s := states[n];
      s.holder.Some? && !s.running <==>
      exists i :: 0 <= i < |s.triggers| && (s.triggers[i].stage.Locked? || s.triggers[i].stage.Unflagged?)
  {
    RunsKeepInv(r, states, steps, n);
  }

  lemma Extend<W, J, B, G>(r: Rules<W, J, B, G>, states: seq<Gate<W, J, B>>, steps: seq<Step<W, J>>, step: Step<W, J>)
    returns (states': seq<Gate<W, J, B>>, steps': seq<Step<W, J>>)
    requires IsRun(r, states, steps) && Enabled(r, states[|steps|], step)
    ensures IsRun(r, states', steps') && |steps'| == |steps| + 1
    ensures states'[0] == states[0] && steps' == steps + [step]
    ensures states'[|steps|] == states[|steps|] && states'[|steps'|] == Do(r, states[|steps|], step)
  {
    states' := states + [Do(r, states[|steps|], step)];
    steps' := steps + [step];
  }

  /** ... and both happen: holding the lock does not imply that the flag is up,
      so a trigger can be turned away while the engine reports no operation. */
  lemma RejectedWhileIdleHappens<W, J, B, G>(r: Rules<W, J, B, G>, w: W, job: J)
    returns (states: seq<Gate<W, J, B>>, steps: seq<Step<W, J>>, n: nat)
    requires r.admits(job, w)
    ensures IsRun(r, states, steps) && n < |steps|
    ensures !states[n].running && steps[n] == TryLock(1)
        && states[n + 1].triggers == [Trigger(job, Locked), Trigger(job, Rejected)]
  {
    states, steps := [Gate(None, false, w, [], [])], [];
    states, steps := Extend(r, states, steps, Arrive(job));
    states, steps := Extend(r, states, steps, Arrive(job));
    states, steps := Extend(r, states, steps, TryLock(0));
    n := |steps|;
    states, steps := Extend(r, states, steps, TryLock(1));
  }

  // ---- Where the entries of the history come from ------------------------

  /** The job arrived, and was admitted, before state n. */
  ghost predicate Admitted<W, J, B, G>(r: Rules<W, J, B, G>, states: seq<Gate<W, J, B>>, steps: seq<Step<W, J>>, n: nat,
      job: J)
    requires |states| == |steps| + 1
  {
    exists m :: 0 <= m < n && m < |steps| && steps[m] == Arrive(job) && r.admits(job, states[m].world)
  }

  lemma {:induction false} TriggersWereAdmitted<W, J, B, G>(r: Rules<W, J, B, G>, states: seq<Gate<W, J, B>>,
      steps: seq<Step<W, J>>, n: nat)
    requires IsRun(r, states, steps) && n <= |steps|
    ensures forall i :: 0 <= i < |states[n].triggers| ==> Admitted(r, states, steps, n, states[n].triggers[i].job)
    ensures forall k :: 0 <= k < |states[n].history| && states[n].history[k].Ran? ==>
        Admitted(r, states, steps, n, states[n].history[k].job)
  {
    if n > 0 {
      TriggersWereAdmitted(r, states, steps, n - 1);
      var s, s' := states[n - 1], states[n];
      assert s' == Do(r, s, steps[n - 1]);
      forall job | Admitted(r, states, steps, n - 1, job)
        ensures Admitted(r, states, steps, n, job)
      {
        var m :| 0 <= m < n - 1 && m < |steps| && steps[m] == Arrive(job) && r.admits(job, states[m].world);
        assert 0 <= m < n;
      }
      if steps[n - 1].Arrive? {
        assert Admitted(r, states, steps, n, steps[n - 1].job);
      }
      forall i | 0 <= i < |s'.triggers|
        ensures Admitted(r, states, steps, n, s'.triggers[i].job)
      {
        if i < |s.triggers| {
          assert s'.triggers[i].job == s.triggers[i].job;
        }
      }
      forall k | 0 <= k < |s'.history| && s'.history[k].Ran?
        ensures Admitted(r, states, steps, n, s'.history[k].job)
      {
        if k >= |s.history| {
          assert steps[n - 1].Finish? && s'.history[k].job == s.triggers[steps[n - 1].i].job;
        }
      }
    }
  }

  /** Without writes by others every entry of the history is a body. */
  lemma {:induction false} QuietRunsOnlyRan<W, J, B, G>(r: Rules<W, J, B, G>, states: seq<Gate<W, J, B>>,
      steps: seq<Step<W, J>>, n: nat)
    requires IsRun(r, states, steps) && n <= |steps| && forall m :: 0 <= m < n ==> !steps[m].Outside?
    ensures forall k :: 0 <= k < |states[n].history| ==> states[n].history[k].Ran?
    ensures forall i :: 0 <= i < |states[n].triggers| && states[n].triggers[i].stage.Running? ==>
        !states[n].triggers[i].stage.disturbed
  {
    if n > 0 {
      QuietRunsOnlyRan(r, states, steps, n - 1);
      assert states[n] == Do(r, states[n - 1], steps[n - 1]);
    }
  }

  /** If no body leads below what it found, neither do all of them together. */
  lemma {:induction false} ComposedClimbs<W(!new), J, B, G>(
      r: Rules<W, J, B, G>, above: (W, W) -> bool, start: W, history: seq<Entry<W, J>>, n: nat)
    requires forall a :: above(a, a)
    requires forall a, b, c :: above(a, b) && above(b, c) ==> above(a, c)
    requires n <= |history| && forall k :: 0 <= k < n ==> history[k].Ran?
    requires forall k :: 0 <= k < n ==> above(Composed(r, start, history, k + 1), Composed(r, start, history, k))
    ensures above(Composed(r, start, history, n), start)
  {
    if n > 0 {
      ComposedClimbs(r, above, start, history, n - 1);
    }
  }
}
