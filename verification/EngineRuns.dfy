/** Whole runs of the update engine: any number of updates and bootstraps that
    race for the run lock, while others may write the store at any moment. */
module EngineRuns {
  import opened Options
  import opened BinStore
  import opened Rollout
  import opened Updater
  import opened UpdaterLaws
  import opened Bodies
  import opened UpdateLock

  type Race = Gate<World, Job, Position>

  type Act = UpdateLock.Step<World, Job>

  /** The bootstrap looks before it tries the lock; updates always try it. */
  predicate Admits(job: Job, w: World) {
    job.work.Bootstrap? ==> NeedsBootstrap(w, job.settings)
  }

  function First(job: Job): Position {
    AtStart
  }

  predicate IsOver(p: Position) {
    p.Over?
  }

  /** Handlers that install, activate and delete write the store without the
      lock; the status, the calls to the instances and the place of the store are
      the engine's own. */
  function Guarded(w: World): (Status, seq<Event>, seq<string>) {
    (w.status, w.log, w.store.root)
  }

  ghost function EngineRules(): Rules<World, Job, Position, (Status, seq<Event>, seq<string>)> {
    Rules(Admits, First, IsOver, Next, Rest, Guarded)
  }

  lemma EngineIsLawful()
    ensures Lawful(EngineRules())
  {
  }

  lemma EffectIsSpec(job: Job, w: World)
    ensures Effect(EngineRules(), job, w) == Spec(job, w)
  {
    AloneMeetsSpec(job, w);
  }

  ghost predicate IsRace(states: seq<Race>, steps: seq<Act>) {
    IsRun(EngineRules(), states, steps)
  }

  // ---- Bodies that nobody disturbs ---------------------------------------

  predicate Scheduled(job: Job) {
    job.work.Update? && job.work.opts == SCHEDULED
  }

  /** The promises about one whole body that finds w and leaves w'. */
  ghost predicate KeepsPromises(job: Job, w: World, w': World) {
    && w'.status.phase == Idle && w'.status.last != Never && w'.store.root == w.store.root
    && (Unapplied(job) && job.settings.mode == Notify ==> w'.store == w.store && w'.log == w.log)
    && (Unapplied(job) ==> w'.log == w.log && w'.store.active in {w.store.active, ""})
    && (job.work.Bootstrap? ==> w'.log == w.log)
  }

  lemma DeployKeepsRoot(w: World, env: Env, s: Settings, target: string)
    ensures DeploySpec(w, env, s, target).store.root == w.store.root
  {
  }

  lemma RunKeepsRoot(w: World, env: Env, opts: RunOpts, s: Settings, target: Option<string>)
    ensures RunSpec(w, env, opts, s, target).store.root == w.store.root
  {
    if Downloads(w, env, opts, s, target) && env.fetch(target.value).Got? {
      var f := env.fetch(target.value);
      var status := w.status.(phase := Downloading, latest := target.value);
      DeployKeepsRoot(w.(store := Fetched(w.store, f), status := status), env, s, f.tag);
    }
  }

  lemma BodiesKeepPromises(job: Job, w: World)
    ensures KeepsPromises(job, w, Spec(job, w))
  {
    match job.work
    case Bootstrap(latest) => BootstrapActivatesIff(w, job.env, latest);
    case Update(opts, latest) =>
      var target := Target(opts, latest);
      RunEndsIdle(w, job.env, opts, job.settings, target);
      RunKeepsRoot(w, job.env, opts, job.settings, target);
      if !opts.apply {
        ModesAreSafe(w, job.env, opts, job.settings, target);
      }
  }

  /** In every run, every body that ran undisturbed was admitted when it arrived,
      made of what the bodies and writes before it left what its specification
      says, and kept its promises. */
  lemma EveryBodyKeepsItsPromises(states: seq<Race>, steps: seq<Act>, n: nat, k: nat)
    requires IsRace(states, steps) && n <= |steps| && k < |states[n].history| && states[n].history[k].Ran?
    ensures var h, job := states[n].history, states[n].history[k].job;
      var found := Composed(EngineRules(), states[0].world, h, k);
      && Composed(EngineRules(), states[0].world, h, k + 1) == Spec(job, found)
      && KeepsPromises(job, found, Spec(job, found))
      && Admitted(EngineRules(), states, steps, n, job)
  {
    TriggersWereAdmitted(EngineRules(), states, steps, n);
    var found := Composed(EngineRules(), states[0].world, states[n].history, k);
    EffectIsSpec(states[n].history[k].job, found);
    BodiesKeepPromises(states[n].history[k].job, found);
  }

  /** A bootstrap has run only if, at some moment, it was enabled and no version
      was active. */
  lemma BootstrapsWereNeeded(states: seq<Race>, steps: seq<Act>, n: nat, i: nat)
    requires IsRace(states, steps) && n <= |steps| && i < |states[n].triggers|
        && states[n].triggers[i].job.work.Bootstrap?
    ensures exists m :: 0 <= m < n && m < |steps| && NeedsBootstrap(states[m].world, states[n].triggers[i].job.settings)
  {
    TriggersWereAdmitted(EngineRules(), states, steps, n);
    var job := states[n].triggers[i].job;
    var m :| 0 <= m < n && m < |steps| && steps[m] == Arrive(job) && EngineRules().admits(job, states[m].world);
    assert NeedsBootstrap(states[m].world, job.settings);
  }

  // ---- Every step, whoever comes in between ------------------------------

  /** Every body is where its job can be, and has finished once it is over. */
  ghost predicate OnCourse(s: Race) {
    && (forall i :: 0 <= i < |s.triggers| && s.triggers[i].stage.Running? ==>
          Fits(s.triggers[i].job, s.triggers[i].stage.body))
    && (Body(s).Some? ==> s.world.status.phase == PhaseAt(s.triggers[Body(s).value].stage.body))
    && (Body(s).Some? && s.triggers[Body(s).value].stage.body.Over? ==> s.world.status.last != Never)
    && (Body(s) == None ==> s.world.status.phase == Idle)
  }

  lemma ActStaysOnCourse(s: Race, step: Act)
    requires Exclusive(s) && OnCourse(s) && Enabled(EngineRules(), s, step)
    ensures OnCourse(Do(EngineRules(), s, step))
  {
    if step.Work? {
      StepKeepsWord(s.triggers[step.i].job, s.triggers[step.i].stage.body, s.world);
      StepShowsPhase(s.triggers[step.i].job, s.triggers[step.i].stage.body, s.world);
    } else if step.Outside? {
      assert Guarded(step.w) == Guarded(s.world);
    }
  }

  lemma {:induction false} RunsStayOnCourse(states: seq<Race>, steps: seq<Act>, n: nat)
    requires IsRace(states, steps) && n <= |steps| && states[0].world.status.phase == Idle
    ensures OnCourse(states[n])
  {
    if n > 0 {
      RunsStayOnCourse(states, steps, n - 1);
      RunsKeepInv(EngineRules(), states, steps, n - 1);
      ActStaysOnCourse(states[n - 1], steps[n - 1]);
    }
  }

  /** Between bodies the engine is idle, whatever others have written while they
      were under way; and once a body has run there is a result. */
  lemma RestsIdle(states: seq<Race>, steps: seq<Act>, n: nat)
    requires IsRace(states, steps) && n <= |steps| && states[0].world.status.phase == Idle
    ensures Body(states[n]) == None ==> states[n].world.status.phase == Idle
    ensures n < |steps| && steps[n].Finish? ==>
              states[n + 1].world.status.phase == Idle && states[n + 1].world.status.last != Never
  {
    RunsStayOnCourse(states, steps, n);
    if n < |steps| && steps[n].Finish? {
      RunsKeepInv(EngineRules(), states, steps, n);
      assert states[n + 1] == Do(EngineRules(), states[n], steps[n]);
    }
  }

  /** While a body is under way the status shows how far it is, whatever others
      write meanwhile. */
  lemma StatusShowsPhase(states: seq<Race>, steps: seq<Act>, n: nat)
    requires IsRace(states, steps) && n <= |steps| && states[0].world.status.phase == Idle
    ensures Body(states[n]).Some? ==>
              states[n].world.status.phase == PhaseAt(states[n].triggers[Body(states[n]).value].stage.body)
  {
    RunsStayOnCourse(states, steps, n);
  }

  /** Every step of every body keeps its word, between the worlds right before
      and right after it. */
  lemma EveryStepKeepsItsWord(states: seq<Race>, steps: seq<Act>, n: nat)
    requires IsRace(states, steps) && n < |steps| && states[0].world.status.phase == Idle && steps[n].Work?
    ensures var i := steps[n].i;
      && i < |states[n].triggers| && states[n].triggers[i].stage.Running? && states[n + 1].triggers[i].stage.Running?
      && KeepsWord(states[n].triggers[i].job, states[n].triggers[i].stage.body, states[n].world,
                   states[n + 1].triggers[i].stage.body, states[n + 1].world)
  {
    RunsStayOnCourse(states, steps, n);
    var t := states[n].triggers[steps[n].i];
    assert states[n + 1] == Do(EngineRules(), states[n], steps[n]);
    StepKeepsWord(t.job, t.stage.body, states[n].world);
  }

  /** Only steps of bodies and writes by others change the world, and the latter
      leave the log alone. */
  lemma WhoWrites(states: seq<Race>, steps: seq<Act>, n: nat)
    requires IsRace(states, steps) && n < |steps|
    ensures !steps[n].Work? && !steps[n].Outside? ==> states[n + 1].world == states[n].world
    ensures steps[n].Outside? ==> states[n + 1].world == steps[n].w && steps[n].w.log == states[n].world.log
  {
    assert states[n + 1] == Do(EngineRules(), states[n], steps[n]);
    if steps[n].Outside? {
      assert Guarded(steps[n].w) == Guarded(states[n].world);
    }
  }

  /** Only the triggers of such jobs have arrived. */
  ghost predicate OnlyArrived(steps: seq<Act>, n: nat, p: Job -> bool)
    requires n <= |steps|
  {
    forall m :: 0 <= m < n && steps[m].Arrive? ==> p(steps[m].job)
  }

  lemma {:induction false} TriggersArrived(states: seq<Race>, steps: seq<Act>, n: nat, p: Job -> bool)
    requires IsRace(states, steps) && n <= |steps| && OnlyArrived(steps, n, p)
    ensures forall i :: 0 <= i < |states[n].triggers| ==> p(states[n].triggers[i].job)
  {
    if n > 0 {
      TriggersArrived(states, steps, n - 1, p);
      assert states[n] == Do(EngineRules(), states[n - 1], steps[n - 1]);
    }
  }

  // ---- Mode safety over whole runs ---------------------------------------

  /** The store as others have last written it. */
  function LeftByOthers(start: State, steps: seq<Act>, n: nat): State
    requires n <= |steps|
  {
    if n == 0 then start
    else if steps[n - 1].Outside? then steps[n - 1].w.store
    else LeftByOthers(start, steps, n - 1)
  }

  predicate OnlyNotifies(job: Job) {
    Unapplied(job) && job.settings.mode == Notify
  }

  lemma NotifyStepChangesNothing(states: seq<Race>, steps: seq<Act>, n: nat)
    requires IsRace(states, steps) && n < |steps| && states[0].world.status.phase == Idle
    requires OnlyArrived(steps, n, OnlyNotifies)
    ensures states[n + 1].world.store == if steps[n].Outside? then steps[n].w.store else states[n].world.store
    ensures states[n + 1].world.log == states[n].world.log
  {
    WhoWrites(states, steps, n);
    if steps[n].Work? {
      TriggersArrived(states, steps, n, OnlyNotifies);
      EveryStepKeepsItsWord(states, steps, n);
    }
  }

  /** While only updates arrive that are not to be applied and find notify mode,
      the engine changes neither store nor instances: in every state, also in the
      middle of a body, the store is what others left. */
  lemma {:induction false} NotifyRunsChangeNothing(states: seq<Race>, steps: seq<Act>, n: nat)
    requires IsRace(states, steps) && n <= |steps| && states[0].world.status.phase == Idle
    requires OnlyArrived(steps, n, OnlyNotifies)
    ensures states[n].world.store == LeftByOthers(states[0].world.store, steps, n)
    ensures states[n].world.log == states[0].world.log
  {
    if n > 0 {
      NotifyRunsChangeNothing(states, steps, n - 1);
      NotifyStepChangesNothing(states, steps, n - 1);
    }
  }

  /** The marker as others have last written it, or as a download that wiped the
      store has left it. */
  ghost function MarkerLeft(states: seq<Race>, steps: seq<Act>, n: nat): string
    requires n <= |steps| < |states|
  {
    if n == 0 then states[0].world.store.active
    else if steps[n - 1].Outside? then steps[n - 1].w.store.active
    else if Wiped(states[n - 1], steps[n - 1]) then ""
    else MarkerLeft(states, steps, n - 1)
  }

  predicate Wiped(s: Race, step: Act) {
    && step.Work? && step.i < |s.triggers| && s.triggers[step.i].stage.Running?
    && WipesStore(s.triggers[step.i].job, s.triggers[step.i].stage.body, s.world.store)
  }

  /** While only updates arrive that are not to be applied, in download mode or
      in notify mode, no instance is touched and the marker is never set: in every
      state it is as others, or a download that wiped the store, have left it. */
  lemma {:induction false} UnappliedRunsSetNoMarker(states: seq<Race>, steps: seq<Act>, n: nat)
    requires IsRace(states, steps) && n <= |steps| && states[0].world.status.phase == Idle
    requires OnlyArrived(steps, n, Unapplied)
    ensures states[n].world.store.active == MarkerLeft(states, steps, n)
    ensures states[n].world.log == states[0].world.log
  {
    if n > 0 {
      UnappliedRunsSetNoMarker(states, steps, n - 1);
      WhoWrites(states, steps, n - 1);
      if steps[n - 1].Work? {
        TriggersArrived(states, steps, n - 1, Unapplied);
        EveryStepKeepsItsWord(states, steps, n - 1);
      }
    }
  }

  predicate NotifiesOrBoots(job: Job) {
    job.settings.mode == Notify && (job.work.Bootstrap? || Unapplied(job))
  }

  predicate UnappliedOrBoots(job: Job) {
    job.work.Bootstrap? || Unapplied(job)
  }

  /** With bootstraps among them, the store changes in no step but a write by
      others and a step of a bootstrap that, at some moment, was enabled and found
      no active version. */
  lemma OnlyOthersAndBootstraps(states: seq<Race>, steps: seq<Act>, n: nat)
    requires IsRace(states, steps) && n < |steps| && states[0].world.status.phase == Idle
    requires OnlyArrived(steps, n, NotifiesOrBoots)
    ensures states[n + 1].world.store != states[n].world.store ==> steps[n].Outside? || BootstrapStep(states, steps, n)
    ensures states[n + 1].world.log == states[n].world.log
  {
    WhoWrites(states, steps, n);
    if steps[n].Work? {
      TriggersArrived(states, steps, n, NotifiesOrBoots);
      EveryStepKeepsItsWord(states, steps, n);
      if states[n].triggers[steps[n].i].job.work.Bootstrap? {
        BootstrapsWereNeeded(states, steps, n, steps[n].i);
      }
    }
  }

  /** In download mode as well, a version becomes active in no other step. */
  lemma OnlyOthersAndBootstrapsActivate(states: seq<Race>, steps: seq<Act>, n: nat)
    requires IsRace(states, steps) && n < |steps| && states[0].world.status.phase == Idle
    requires OnlyArrived(steps, n, UnappliedOrBoots)
    ensures states[n + 1].world.store.active !in {states[n].world.store.active, ""} ==>
              steps[n].Outside? || BootstrapStep(states, steps, n)
    ensures states[n + 1].world.log == states[n].world.log
  {
    WhoWrites(states, steps, n);
    if steps[n].Work? {
      TriggersArrived(states, steps, n, UnappliedOrBoots);
      EveryStepKeepsItsWord(states, steps, n);
      if states[n].triggers[steps[n].i].job.work.Bootstrap? {
        BootstrapsWereNeeded(states, steps, n, steps[n].i);
      }
    }
  }

  ghost predicate BootstrapStep(states: seq<Race>, steps: seq<Act>, n: nat)
    requires n < |steps| < |states|
  {
    && steps[n].Work? && steps[n].i < |states[n].triggers|
    && states[n].triggers[steps[n].i].job.work.Bootstrap?
    && exists m :: 0 <= m < n && NeedsBootstrap(states[m].world, states[n].triggers[steps[n].i].job.settings)
  }

  // ---- Downgrades --------------------------------------------------------

  predicate NeverOlder(job: Job, w: World) {
    Scheduled(job) && !BringsOlder(w, job.env, SCHEDULED, job.settings, job.work.latest)
  }

  lemma EffectNeverOlder(job: Job, w: World)
    requires NeverOlder(job, w) && TotalPreorder(job.env.compare)
    ensures job.env.compare(Effect(EngineRules(), job, w).store.active, w.store.active) >= 0
  {
    assert Target(SCHEDULED, job.work.latest) == job.work.latest;
    EffectIsSpec(job, w);
    ScheduledNeverDowngrades(w, job.env, job.settings, job.work.latest);
  }

  function NotBelow(compare: (string, string) -> int): (World, World) -> bool {
    (a: World, b: World) => compare(a.store.active, b.store.active) >= 0
  }

  lemma NotBelowIsPreorder(compare: (string, string) -> int)
    requires TotalPreorder(compare)
    ensures forall a :: NotBelow(compare)(a, a)
    ensures forall a, b, c :: NotBelow(compare)(a, b) && NotBelow(compare)(b, c) ==> NotBelow(compare)(a, c)
  {
    var above := NotBelow(compare);
    forall a: World
      ensures above(a, a)
    {
      assert compare(a.store.active, a.store.active) == 0;
    }
    forall a: World, b: World, c: World | above(a, b) && above(b, c)
      ensures above(a, c)
    {
      assert compare(a.store.active, b.store.active) >= 0 && compare(b.store.active, c.store.active) >= 0;
    }
  }

  /** As long as nobody else writes and only scheduled updates have run, none of
      which downloaded something older than what it found active, the active
      version never gets older. */
  lemma ScheduledRunsNeverDowngrade(states: seq<Race>, steps: seq<Act>, n: nat, compare: (string, string) -> int)
    requires IsRace(states, steps) && n <= |steps| && Body(states[n]) == None && TotalPreorder(compare)
    requires forall m :: 0 <= m < n ==> !steps[m].Outside?
    requires forall k :: 0 <= k < |states[n].history| && states[n].history[k].Ran? ==>
               && states[n].history[k].job.env.compare == compare
               && NeverOlder(states[n].history[k].job, Composed(EngineRules(), states[0].world, states[n].history, k))
    ensures compare(states[n].world.store.active, states[0].world.store.active) >= 0
  {
    EngineIsLawful();
    BodiesCompose(EngineRules(), states, steps, n);
    QuietRunsOnlyRan(EngineRules(), states, steps, n);
    var h, start := states[n].history, states[0].world;
    forall k | 0 <= k < |h|
      ensures NotBelow(compare)(Composed(EngineRules(), start, h, k + 1), Composed(EngineRules(), start, h, k))
    {
      EffectNeverOlder(h[k].job, Composed(EngineRules(), start, h, k));
    }
    NotBelowIsPreorder(compare);
    ComposedClimbs(EngineRules(), NotBelow(compare), start, h, |h|);
  }

  // ---- Particular runs ---------------------------------------------------

  /** One trigger whose body is under way, and nothing else has happened. */
  function Underway(job: Job, p: Position, start: World, seen: World, disturbed: bool, w: World): Race {
    Gate(Some(0), true, w, [Trigger(job, Running(p, start, seen, disturbed))], [])
  }

  lemma BeginAlone(w: World, job: Job) returns (states: seq<Race>, steps: seq<Act>)
    requires Admits(job, w)
    ensures IsRace(states, steps) && states[0].world == w && OnlyArrived(steps, |steps|, j => j == job)
    ensures states[|steps|] == Underway(job, AtStart, w, w, false, w)
  {
    var r := EngineRules();
    states, steps := [Gate(None, false, w, [], [])], [];
    states, steps := Extend(r, states, steps, Arrive(job));
    states, steps := Extend(r, states, steps, TryLock(0));
    states, steps := Extend(r, states, steps, Flag(0));
    states, steps := Extend(r, states, steps, Begin(0));
  }

  lemma WorkOnce(states: seq<Race>, steps: seq<Act>, job: Job, p: Position, start: World, disturbed: bool, p': Position,
      w': World)
    returns (states': seq<Race>, steps': seq<Act>)
    requires IsRace(states, steps) && !p.Over?
    requires var w := states[|steps|].world;
      && (exists seen :: states[|steps|] == Underway(job, p, start, seen, disturbed, w))
      && Next(job, p, w) == (p', w')
    ensures IsRace(states', steps') && steps' == steps + [UpdateLock.Work(0)] && states'[..|states|] == states
    ensures states'[|steps'|] == Underway(job, p', start, w', disturbed, w')
  {
    var seen :| states[|steps|] == Underway(job, p, start, seen, disturbed, states[|steps|].world);
    states' := states + [Do(EngineRules(), states[|steps|], UpdateLock.Work(0))];
    steps' := steps + [UpdateLock.Work(0)];
  }

  /** The body carries on to its end. */
  lemma WorkOn(states: seq<Race>, steps: seq<Act>, job: Job, p: Position, start: World)
    returns (states': seq<Race>, steps': seq<Act>)
    requires IsRace(states, steps)
    requires var w := states[|steps|].world; states[|steps|] == Underway(job, p, start, w, false, w)
    ensures IsRace(states', steps') && states'[0] == states[0]
    ensures var w := Rest(job, p, states[|steps|].world); states'[|steps'|] == Underway(job, Over, start, w, false, w)
    decreases Rank(p), Turns(job, p)
  {
    if p.Over? {
      states', steps' := states, steps;
    } else {
      var (p', w') := Next(job, p, states[|steps|].world);
      states', steps' := WorkOnce(states, steps, job, p, start, false, p', w');
      states', steps' := WorkOn(states', steps', job, p', start);
    }
  }

  lemma RunOnce(w: World, job: Job) returns (states: seq<Race>, steps: seq<Act>)
    requires Admits(job, w)
    ensures IsRace(states, steps) && states[0].world == w
    ensures states[|steps|].holder == None && states[|steps|].world == Spec(job, w)
  {
    var r := EngineRules();
    AloneMeetsSpec(job, w);
    states, steps := BeginAlone(w, job);
    states, steps := WorkOn(states, steps, job, AtStart, w);
    states, steps := Extend(r, states, steps, Finish(0));
    states, steps := Extend(r, states, steps, Unflag(0));
    states, steps := Extend(r, states, steps, Unlock(0));
  }

  /** Mode safety is a matter of the bootstrap: for an engine that is enabled and
      has no active version there is a run, in any mode and with nothing to be
      applied, that installs and activates the newest release. */
  lemma BootstrapActivatesInAnyMode(w: World, s: Settings, env: Env, release: string, tag: string)
    returns (states: seq<Race>, steps: seq<Act>)
    requires NeedsBootstrap(w, s) && env.fetch(release) == Got(tag)
    requires env.accepts(Apply(w.store, Installed(tag)), tag)
    ensures IsRace(states, steps) && states[0].world == w && states[|steps|].holder == None
    ensures states[|steps|].world.store == Apply(w.store, Installed(tag)).(active := tag)
  {
    var job := Job(Bootstrap(Some(release)), s, env);
    states, steps := RunOnce(w, job);
    BootstrapActivatesIff(w, env, Some(release));
  }

  /** So what one call of the engine that is not to apply anything does in notify
      mode, if nobody disturbs it, comes down to this: it changes the store exactly
      if it is a bootstrap that is enabled and finds no active version, and its
      download leaves something behind or is activated. */
  lemma NotifyChangesIff(job: Job, w: World)
    requires NotifiesOrBoots(job)
    ensures var w' := if Admits(job, w) then Spec(job, w) else w;
      w'.store != w.store <==>
        && job.work.Bootstrap? && job.settings.enabled && w.store.active == "" && job.work.latest.Some?
        && var f := job.env.fetch(job.work.latest.value);
           Fetched(w.store, f) != w.store || (f.Got? && f.tag != "" && job.env.accepts(Fetched(w.store, f), f.tag))
  {
    BodiesKeepPromises(job, w);
  }

  /** In notify and download mode alike it makes another version active exactly
      if it is such a bootstrap and what it downloads is activated. */
  lemma UnappliedActivatesIff(job: Job, w: World)
    requires UnappliedOrBoots(job)
    ensures var w' := if Admits(job, w) then Spec(job, w) else w;
      w'.store.active !in {w.store.active, ""} <==>
        && job.work.Bootstrap? && job.settings.enabled && w.store.active == "" && job.work.latest.Some?
        && var f := job.env.fetch(job.work.latest.value);
           f.Got? && f.tag != "" && job.env.accepts(Fetched(w.store, f), f.tag)
  {
    BodiesKeepPromises(job, w);
  }

  /** Up to the download the update has only looked at the store. */
  lemma FirstLooks(job: Job, w: World, target: string) returns (checking: World, downloading: World)
    requires job.work == Update(SCHEDULED, Some(target)) && job.settings.mode == Full
    requires w.store.active == "" || job.env.compare(w.store.active, target) < 0
    ensures Next(job, AtStart, w) == (AtCheck(target), checking)
    ensures Next(job, AtCheck(target), checking) == (AtDownload(target), downloading)
    ensures downloading.store == w.store
  {
    assert Target(SCHEDULED, Some(target)) == Some(target);
    checking := w.(status := w.status.(phase := Checking, latest := target));
    downloading := InPhase(checking, Phase.Downloading);
  }

  lemma ThenSwitches(job: Job, w: World, target: string) returns (fetched: World, switched: World)
    requires job.work == Update(SCHEDULED, Some(target)) && job.settings.mode == Full
    requires job.env.fetch(target) == Got(target) && job.env.accepts(Apply(w.store, Installed(target)), target)
    ensures Next(job, AtDownload(target), w) == (AtHandover(target), fetched)
    ensures Next(job, AtHandover(target), fetched) == (AtSwitch(target, fetched.store.active), fetched)
    ensures Next(job, AtSwitch(target, fetched.store.active), fetched)
        == (AtRestart(target, fetched.store.active, 0, []), switched)
    ensures switched.store.active == target
  {
    fetched := InPhase(w.(store := Apply(w.store, Installed(target))), Phase.Applying);
    switched := InPhase(fetched.(store := Activate(fetched.store, job.env, target)), Phase.Restarting);
  }

  lemma OutsideOnce(states: seq<Race>, steps: seq<Act>, job: Job, p: Position, start: World, w': World)
    returns (states': seq<Race>, steps': seq<Act>)
    requires IsRace(states, steps) && Guarded(w') == Guarded(states[|steps|].world)
    requires var w := states[|steps|].world; states[|steps|] == Underway(job, p, start, w, false, w)
    ensures IsRace(states', steps') && steps' == steps + [Outside(w')] && states'[..|states|] == states
    ensures states'[|steps'|] == Underway(job, p, start, states[|steps|].world, true, w')
  {
    states' := states + [Do(EngineRules(), states[|steps|], Outside(w'))];
    steps' := steps + [Outside(w')];
  }

  /** A scheduled update compares before it downloads.  What a handler activates
      in between is replaced by the download, however much newer it is. */
  lemma HandlerIsOverridden(w: World, env: Env, s: Settings, target: string, newer: string)
    returns (states: seq<Race>, steps: seq<Act>, n: nat)
    requires s.mode == Full && env.fetch(target) == Got(target)
    requires w.store.active == "" || env.compare(w.store.active, target) < 0
    requires env.accepts(Apply(w.store.(active := newer), Installed(target)), target)
    ensures IsRace(states, steps) && states[0].world == w && n < |steps|
    ensures steps[n].Outside? && steps[n].w.store == w.store.(active := newer)
    ensures states[|steps|].world.store.active == target
    ensures OnlyArrived(steps, |steps|, j => j == Job(Update(SCHEDULED, Some(target)), s, env))
  {
    var job := Job(Update(SCHEDULED, Some(target)), s, env);
    states, steps := BeginAlone(w, job);
    var checking, downloading := FirstLooks(job, w, target);
    states, steps := WorkOnce(states, steps, job, AtStart, w, false, AtCheck(target), checking);
    states, steps := WorkOnce(states, steps, job, AtCheck(target), w, false, AtDownload(target), downloading);
    n := |steps|;
    var met := downloading.(store := w.store.(active := newer));
    states, steps := OutsideOnce(states, steps, job, AtDownload(target), w, met);
    var fetched, switched := ThenSwitches(job, met, target);
    var prev := fetched.store.active;
    states, steps := WorkOnce(states, steps, job, AtDownload(target), w, true, AtHandover(target), fetched);
    states, steps := WorkOnce(states, steps, job, AtHandover(target), w, true, AtSwitch(target, prev), fetched);
    states, steps := WorkOnce(states, steps, job, AtSwitch(target, prev), w, true, AtRestart(target, prev, 0, []),
        switched);
  }
}
