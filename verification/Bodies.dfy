/** The two pipeline bodies, one access to the store at a time, so that others
    can come in between. */
module Bodies {
  import opened Options
  import opened BinStore
  import opened Ranking
  import opened Retention
  import opened Rollout
  import opened Updater
  import opened UpdaterLaws

  datatype Work = Update(opts: RunOpts, latest: Option<string>) | Bootstrap(latest: Option<string>)

  /** A trigger's body with the settings it reads and the world it meets. */
  datatype Job = Job(work: Work, settings: Settings, env: Env)

  /** How far a body is.  `prev` is the version to roll back to, `failing` and
      `degraded` the instances that did not come up, `found` the store as it was
      listed, `doomed` what pruning is about to delete. */
  datatype Position =
    | AtStart
    | AtCheck(target: string)
    | AtDownload(target: string)
    | AtHandover(target: string)
    | AtSwitch(target: string, prev: string)
    | AtRestart(target: string, prev: string, k: nat, failing: seq<string>)
    | AtRollback(prev: string, k: nat)
    | AtRevert(ids: seq<string>, j: nat, degraded: seq<string>)
    | AtListing
    | AtChoice(found: State)
    | AtPruning(doomed: seq<string>)
    | AtProvision(release: string)
    | AtEnabling(tag: string)
    | Over

  predicate Applying(job: Job) {
    job.work.Update? && (job.work.opts.apply || job.settings.mode == Full)
  }

  /** The listed versions that pruning deletes, newest first. */
  ghost function Doomed(found: State, pinned: set<string>, keep: int): seq<string> {
    if keep <= 0 then []
    else
      var c := Candidates(found, pinned);
      NewerIsStrictTotal();
      InOrder(Newer, set v | v in c && !AmongFirst(Newer, c, keep, v))
  }

  /** The deletion of a listed version, which the store refuses for the active one. */
  function Drop(s: State, v: string, undeletable: set<string>): State {
    if v == s.active || v in undeletable then s else s.(installed := s.installed - {v})
  }

  function InPhase(w: World, phase: Phase): World {
    w.(status := w.status.(phase := phase))
  }

  /** A reload and, if it goes well, a probe of the instance on the active version. */
  function AttemptedOn(w: World, id: string, outcome: Oracle): World {
    w.(log := w.log + Attempt(id, w.store.active, outcome, |w.log|))
  }

  /** The next access of a body to the store, and what it does up to the one after. */
  ghost function Next(job: Job, p: Position, w: World): (Position, World) {
    var env := job.env;
    match p
    case AtStart => Started(job, w)
    case AtCheck(target) => Checked(job, target, w)
    case AtDownload(target) => Downloading(job, target, w)
    case AtHandover(target) => (AtSwitch(target, w.store.active), w)
    case AtSwitch(target, prev) =>
      if !env.accepts(w.store, target) then (Over, Ended(w, Outcome.Failed))
      else (AtRestart(target, prev, 0, []), InPhase(w.(store := Activate(w.store, env, target)), Phase.Restarting))
    case AtRestart(target, prev, k, failing) => RestartedNext(job, target, prev, k, failing, w)
    case AtRollback(prev, k) =>
      var touched := if k < |env.followers| then env.followers[..k + 1] else env.followers;
      (AtRevert(Named(touched), 0, []), w.(store := Activate(w.store, env, prev)))
    case AtRevert(ids, j, degraded) => RevertedNext(job, ids, j, degraded, w)
    case AtListing => (if job.settings.keepVersions <= 0 then AtPruning([]) else AtChoice(w.store), w)
    case AtChoice(found) => (AtPruning(Doomed(found, env.pinned + {w.store.active}, job.settings.keepVersions)), w)
    case AtPruning(doomed) =>
      if doomed == [] then (Over, Ended(w.(status := w.status.(pending := "")), Updated))
      else (AtPruning(doomed[1..]), w.(store := Drop(w.store, doomed[0], env.undeletable)))
    case AtProvision(release) =>
      var f := env.fetch(release);
      var w := w.(store := Fetched(w.store, f));
      if f.Got? then (AtEnabling(f.tag), w) else (Over, Ended(w, Outcome.Failed))
    case AtEnabling(tag) =>
      if !env.accepts(w.store, tag) then (Over, Ended(w, Outcome.Failed))
      else (Over, Ended(w.(store := Activate(w.store, env, tag), status := w.status.(latest := tag)), Updated))
    case Over => (Over, w)
  }

  function Started(job: Job, w: World): (Position, World) {
    match job.work
    case Update(opts, latest) =>
      var target := Target(opts, latest);
      if target == None then (Over, Ended(w, Outcome.Failed))
      else (AtCheck(target.value), w.(status := w.status.(phase := Checking, latest := target.value)))
    case Bootstrap(latest) =>
      if latest == None then (Over, Ended(w, Outcome.Failed))
      else (AtProvision(latest.value), InPhase(w, Phase.Downloading))
  }

  function Checked(job: Job, target: string, w: World): (Position, World) {
    var force := job.work.Update? && job.work.opts.force;
    if !force && w.store.active != "" && job.env.compare(w.store.active, target) >= 0 then (Over, Ended(w, UpToDate))
    else if !Applying(job) && job.settings.mode == Notify then (Over, Ended(w, Notified))
    else (AtDownload(target), InPhase(w, Phase.Downloading))
  }

  function Downloading(job: Job, target: string, w: World): (Position, World) {
    var f := job.env.fetch(target);
    var w := w.(store := Fetched(w.store, f));
    if !f.Got? then (Over, Ended(w, Outcome.Failed))
    else if !Applying(job) then (Over, Ended(w.(status := w.status.(pending := f.tag)), Downloaded))
    else (AtHandover(f.tag), InPhase(w, Phase.Applying))
  }

  function RestartedNext(job: Job, target: string, prev: string, k: nat, failing: seq<string>, w: World)
      : (Position, World) {
    var ids := job.env.followers;
    if k >= |ids| then
      if failing == [] then (AtListing, w) else (Over, Ended(w, Outcome.Failed))
    else
      var w' := AttemptedOn(w, ids[k], job.env.outcome);
      if Passes(job.env.outcome, |w.log|) then (AtRestart(target, prev, k + 1, failing), w')
      else if !job.settings.autoRollback then (AtRestart(target, prev, k + 1, failing + [ids[k]]), w')
      else if prev == "" || prev == target then (Over, Ended(w', Outcome.Failed))
      else (AtRollback(prev, k), InPhase(w', RollingBack))
  }

  function RevertedNext(job: Job, ids: seq<string>, j: nat, degraded: seq<string>, w: World): (Position, World) {
    if j >= |ids| then
      (Over, Ended(w.(status := w.status.(pending := "")), if degraded == [] then RolledBack else RolledBackDegraded))
    else
      (AtRevert(ids, j + 1, if Passes(job.env.outcome, |w.log|) then degraded else degraded + [ids[j]]),
       AttemptedOn(w, ids[j], job.env.outcome))
  }

  // ---- Left alone, a body does what its specification says ----------------

  function Rank(p: Position): nat {
    match p
    case AtStart => 11
    case AtCheck(_) => 10
    case AtDownload(_) => 9
    case AtHandover(_) => 8
    case AtSwitch(_, _) => 7
    case AtRestart(_, _, _, _) => 6
    case AtRollback(_, _) => 5
    case AtRevert(_, _, _) => 4
    case AtProvision(_) => 4
    case AtListing => 3
    case AtChoice(_) => 2
    case AtEnabling(_) => 1
    case AtPruning(_) => 1
    case Over => 0
  }

  /** How many turns a loop still has to take. */
  function Turns(job: Job, p: Position): nat {
    match p
    case AtRestart(_, _, k, _) => if k < |job.env.followers| then |job.env.followers| - k else 0
    case AtRevert(ids, j, _) => if j < |ids| then |ids| - j else 0
    case AtPruning(doomed) => |doomed|
    case _ => 0
  }

  /** What a body has made of the world when it is over, if nobody else writes:
      every body ends. */
  ghost function Rest(job: Job, p: Position, w: World): World
    decreases Rank(p), Turns(job, p)
  {
    if p.Over? then w
    else
      var (p', w') := Next(job, p, w);
      Rest(job, p', w')
  }

  lemma RestNext(job: Job, p: Position, w: World, p': Position, w': World)
    requires !p.Over? && Next(job, p, w) == (p', w')
    ensures Rest(job, p, w) == Rest(job, p', w')
  {
  }

  ghost function Spec(job: Job, w: World): World {
    match job.work
    case Update(opts, latest) => RunSpec(w, job.env, opts, job.settings, Target(opts, latest))
    case Bootstrap(latest) => BootstrapSpec(w, job.env, latest)
  }

  ghost function Pruned(w: World, env: Env, keep: int): World {
    w.(store := w.store.(installed := Survivors(w.store, env.pinned, keep, env.undeletable)))
  }

  function Succeeded(w: World): World {
    Ended(w.(status := w.status.(pending := "")), Updated)
  }

  lemma {:induction false} RestOfPruning(job: Job, doomed: seq<string>, w: World)
    requires w.store.active !in doomed
    ensures Rest(job, AtPruning(doomed), w) ==
            Succeeded(w.(store := w.store.(installed := w.store.installed - (Elements(doomed) - job.env.undeletable))))
  {
    if doomed == [] {
      assert w.store.installed - (Elements(doomed) - job.env.undeletable) == w.store.installed;
    } else {
      var next := w.(store := Drop(w.store, doomed[0], job.env.undeletable));
      RestOfPruning(job, doomed[1..], next);
      assert Elements(doomed) == {doomed[0]} + Elements(doomed[1..]);
      assert next.store.installed - (Elements(doomed[1..]) - job.env.undeletable)
          == w.store.installed - (Elements(doomed) - job.env.undeletable);
    }
  }

  /** What is left when everything doomed has been deleted. */
  lemma DoomedAreNotSurvivors(s: State, env: Env, keep: int)
    ensures var doomed := Doomed(s, env.pinned + {s.active}, keep);
      && s.active !in doomed && (keep <= 0 ==> doomed == [])
      && s.installed - (Elements(doomed) - env.undeletable) == Survivors(s, env.pinned, keep, env.undeletable)
  {
    NewerIsStrictTotal();
    assert Candidates(s, env.pinned + {s.active}) == Candidates(s, env.pinned);
    var doomed := Doomed(s, env.pinned + {s.active}, keep);
    assert forall v :: v in doomed <==> v in Elements(doomed);
  }

  lemma ChoiceNext(job: Job, w: World)
    ensures Next(job, AtChoice(w.store), w)
         == (AtPruning(Doomed(w.store, job.env.pinned + {w.store.active}, job.settings.keepVersions)), w)
  {
  }

  lemma RestOfSpared(job: Job, doomed: seq<string>, w: World, left: set<string>)
    requires w.store.active !in doomed && (job.settings.keepVersions <= 0 ==> doomed == [])
    requires Next(job, AtChoice(w.store), w) == (AtPruning(doomed), w)
    requires left == w.store.installed - (Elements(doomed) - job.env.undeletable)
    ensures Rest(job, AtListing, w) == Succeeded(w.(store := w.store.(installed := left)))
  {
    RestOfDoomed(job, doomed, w);
  }

  /** Listing, choosing and deleting one by one leaves the survivors. */
  lemma RestOfListing(job: Job, w: World)
    ensures Rest(job, AtListing, w) == Succeeded(Pruned(w, job.env, job.settings.keepVersions))
  {
    ChoiceNext(job, w);
    DoomedAreNotSurvivors(w.store, job.env, job.settings.keepVersions);
    RestOfSpared(job, Doomed(w.store, job.env.pinned + {w.store.active}, job.settings.keepVersions), w,
                 Survivors(w.store, job.env.pinned, job.settings.keepVersions, job.env.undeletable));
  }

  lemma RestOfDoomed(job: Job, doomed: seq<string>, w: World)
    requires w.store.active !in doomed && (job.settings.keepVersions <= 0 ==> doomed == [])
    requires Next(job, AtChoice(w.store), w) == (AtPruning(doomed), w)
    ensures Rest(job, AtListing, w) ==
            Succeeded(w.(store := w.store.(installed := w.store.installed - (Elements(doomed) - job.env.undeletable))))
  {
    RestOfPruning(job, doomed, w);
    if job.settings.keepVersions > 0 {
      RestNext(job, AtListing, w, AtChoice(w.store), w);
      RestNext(job, AtChoice(w.store), w, AtPruning(doomed), w);
    } else {
      RestNext(job, AtListing, w, AtPruning(doomed), w);
    }
  }

  /** The world after n of the ids have been tried. */
  function Tries(w: World, ids: seq<string>, n: nat, outcome: Oracle): World
    requires n <= |ids|
  {
    w.(log := LogAfter(w, ids, n, outcome))
  }

  lemma TriesNext(w: World, ids: seq<string>, n: nat, outcome: Oracle)
    requires n < |ids|
    ensures |LogAfter(w, ids, n, outcome)| == Cursor(n, outcome, |w.log|)
    ensures Tries(w, ids, n + 1, outcome) == AttemptedOn(Tries(w, ids, n, outcome), ids[n], outcome)
  {
  }

  /** Where a revert is after n of the ids. */
  function Reverting(job: Job, ids: seq<string>, w: World, n: nat): Position
    requires n <= |ids|
  {
    AtRevert(ids, n, Failing(ids, n, job.env.outcome, |w.log|))
  }

  lemma RevertTurn(job: Job, ids: seq<string>, w: World, n: nat)
    requires n < |ids|
    ensures Next(job, Reverting(job, ids, w, n), Tries(w, ids, n, job.env.outcome))
         == (Reverting(job, ids, w, n + 1), Tries(w, ids, n + 1, job.env.outcome))
  {
    TriesNext(w, ids, n, job.env.outcome);
  }

  ghost function RestFrom(job: Job, ids: seq<string>, w: World): nat -> World {
    (n: nat) => if n <= |ids| then Rest(job, Reverting(job, ids, w, n), Tries(w, ids, n, job.env.outcome)) else w
  }

  ghost predicate Unmoved<T>(f: nat -> T, n: nat) {
    f(n) == f(n + 1)
  }

  lemma {:induction false} UnmovedThroughout<T>(f: nat -> T, n: nat)
    requires forall k: nat :: k < n ==> Unmoved(f, k)
    ensures f(0) == f(n)
  {
    if n > 0 {
      UnmovedThroughout(f, n - 1);
      assert Unmoved(f, n - 1);
    }
  }

  lemma RevertUnmoved(job: Job, ids: seq<string>, w: World, n: nat)
    requires n < |ids|
    ensures Unmoved(RestFrom(job, ids, w), n)
  {
    RevertTurn(job, ids, w, n);
    RestNext(job, Reverting(job, ids, w, n), Tries(w, ids, n, job.env.outcome),
             Reverting(job, ids, w, n + 1), Tries(w, ids, n + 1, job.env.outcome));
  }

  lemma RevertsOn(job: Job, ids: seq<string>, w: World)
    ensures Rest(job, AtRevert(ids, 0, []), w)
         == Rest(job, Reverting(job, ids, w, |ids|), Tries(w, ids, |ids|, job.env.outcome))
  {
    forall n | 0 <= n < |ids|
      ensures Unmoved(RestFrom(job, ids, w), n)
    {
      RevertUnmoved(job, ids, w, n);
    }
    UnmovedThroughout(RestFrom(job, ids, w), |ids|);
    assert Tries(w, ids, 0, job.env.outcome) == w;
  }

  lemma RestOfRollback(job: Job, prev: string, k: nat, w: World)
    requires k < |job.env.followers|
    ensures Rest(job, AtRollback(prev, k), w) == RevertSpec(w, job.env, prev, k).0
  {
    var ids := Named(job.env.followers[..k + 1]);
    var back := w.(store := Activate(w.store, job.env, prev));
    RestNext(job, AtRollback(prev, k), w, AtRevert(ids, 0, []), back);
    RevertsOn(job, ids, back);
  }

  /** Where a restart is after n of the followers. */
  function Restarted(job: Job, target: string, prev: string, w: World, n: nat): Position
    requires n <= |job.env.followers|
  {
    AtRestart(target, prev, n, Failing(job.env.followers, n, job.env.outcome, |w.log|))
  }

  lemma RestartTurn(job: Job, target: string, prev: string, w: World, n: nat)
    requires n < |job.env.followers|
    requires job.settings.autoRollback ==> Failing(job.env.followers, n + 1, job.env.outcome, |w.log|) == []
    ensures var ids, outcome := job.env.followers, job.env.outcome;
      Next(job, Restarted(job, target, prev, w, n), Tries(w, ids, n, outcome))
      == (Restarted(job, target, prev, w, n + 1), Tries(w, ids, n + 1, outcome))
  {
    TriesNext(w, job.env.followers, n, job.env.outcome);
  }

  /** As long as no attempt ends the loop, the restart goes on. */
  lemma {:induction false} RestartsOn(job: Job, target: string, prev: string, w: World, n: nat)
    requires n <= |job.env.followers|
    requires job.settings.autoRollback ==> Failing(job.env.followers, n, job.env.outcome, |w.log|) == []
    ensures Rest(job, AtRestart(target, prev, 0, []), w)
         == Rest(job, Restarted(job, target, prev, w, n), Tries(w, job.env.followers, n, job.env.outcome))
  {
    var ids, outcome := job.env.followers, job.env.outcome;
    if n == 0 {
      assert Tries(w, ids, 0, outcome) == w;
    } else {
      RestartsOn(job, target, prev, w, n - 1);
      RestartTurn(job, target, prev, w, n - 1);
      RestNext(job, Restarted(job, target, prev, w, n - 1), Tries(w, ids, n - 1, outcome),
               Restarted(job, target, prev, w, n), Tries(w, ids, n, outcome));
    }
  }

  lemma RestOfTriedAll(job: Job, target: string, prev: string, w: World)
    requires var ids := job.env.followers;
      job.settings.autoRollback ==> Failing(ids, |ids|, job.env.outcome, |w.log|) == []
    ensures var ids, outcome := job.env.followers, job.env.outcome;
      var w' := Tries(w, ids, |ids|, outcome);
      Rest(job, AtRestart(target, prev, 0, []), w) ==
      if Failing(ids, |ids|, outcome, |w.log|) == [] then Succeeded(Pruned(w', job.env, job.settings.keepVersions))
      else Ended(w', Outcome.Failed)
  {
    var ids, outcome := job.env.followers, job.env.outcome;
    var w' := Tries(w, ids, |ids|, outcome);
    RestartsOn(job, target, prev, w, |ids|);
    if Failing(ids, |ids|, outcome, |w.log|) == [] {
      RestNext(job, Restarted(job, target, prev, w, |ids|), w', AtListing, w');
      RestOfListing(job, w');
    } else {
      RestNext(job, Restarted(job, target, prev, w, |ids|), w', Over, Ended(w', Outcome.Failed));
    }
  }

  lemma RestOfFailure(job: Job, target: string, prev: string, w: World, k: nat)
    requires k < |job.env.followers| && job.settings.autoRollback
    requires Failing(job.env.followers, k, job.env.outcome, |w.log|) == []
    requires !Passes(job.env.outcome, Cursor(k, job.env.outcome, |w.log|))
    ensures var w' := Tries(w, job.env.followers, k + 1, job.env.outcome);
      Rest(job, AtRestart(target, prev, 0, []), w) ==
      if prev == "" || prev == target then Ended(w', Outcome.Failed)
      else RevertSpec(InPhase(w', RollingBack), job.env, prev, k).0
  {
    var ids, outcome := job.env.followers, job.env.outcome;
    var w' := Tries(w, ids, k + 1, outcome);
    RestartsOn(job, target, prev, w, k);
    TriesNext(w, ids, k, outcome);
    if prev == "" || prev == target {
      RestNext(job, Restarted(job, target, prev, w, k), Tries(w, ids, k, outcome), Over, Ended(w', Outcome.Failed));
    } else {
      RestNext(job, Restarted(job, target, prev, w, k), Tries(w, ids, k, outcome),
               AtRollback(prev, k), InPhase(w', RollingBack));
      RestOfRollback(job, prev, k, InPhase(w', RollingBack));
    }
  }

  /** The restart loop, its rollback and the pruning behind it. */
  lemma RestOfRestart(job: Job, prev: string, w: World)
    requires w.status.phase == Phase.Restarting
    ensures var (w', r) := RestartSpec(w, job.env, job.settings.autoRollback, prev);
      Rest(job, AtRestart(w.store.active, prev, 0, []), w) ==
      if r == AllHealthy then Succeeded(Pruned(w', job.env, job.settings.keepVersions)) else w'
  {
    var ids, outcome, at := job.env.followers, job.env.outcome, |w.log|;
    StreakStopsAtFirstFailure(ids, |ids|, outcome, at);
    var k := Streak(|ids|, outcome, at);
    if !job.settings.autoRollback || k == |ids| {
      RestOfTriedAll(job, w.store.active, prev, w);
    } else {
      RestOfFailure(job, w.store.active, prev, w, k);
    }
  }

  lemma RestartSetsPhase(w: World, env: Env, autoRollback: bool, prev: string)
    ensures RestartSpec(w, env, autoRollback, prev)
        == RestartSpec(InPhase(w, Phase.Restarting), env, autoRollback, prev)
  {
  }

  lemma RestOfHandover(job: Job, target: string, w: World)
    requires w.status.phase == Phase.Applying
    ensures Rest(job, AtHandover(target), w) == DeploySpec(w, job.env, job.settings, target)
  {
    var prev := w.store.active;
    assert Rest(job, AtHandover(target), w) == Rest(job, AtSwitch(target, prev), w);
    if job.env.accepts(w.store, target) {
      var active := InPhase(w.(store := Activate(w.store, job.env, target)), Phase.Restarting);
      assert Rest(job, AtSwitch(target, prev), w) == Rest(job, AtRestart(target, prev, 0, []), active);
      RestOfRestart(job, prev, active);
      RestartSetsPhase(w.(store := active.store), job.env, job.settings.autoRollback, prev);
    } else {
      assert Rest(job, AtSwitch(target, prev), w) == Rest(job, Over, Ended(w, Outcome.Failed));
    }
  }

  lemma RestOfDownload(job: Job, target: string, w: World)
    requires job.work.Update? && w.status.phase == Phase.Downloading
    ensures Rest(job, AtDownload(target), w) == FetchSpec(w, job.env, job.settings, Applying(job), target)
  {
    var (p, w') := Downloading(job, target, w);
    assert Rest(job, AtDownload(target), w) == Rest(job, p, w');
    if p.AtHandover? {
      RestOfHandover(job, p.target, w');
    }
  }

  lemma RestOfUpdate(job: Job, w: World)
    requires job.work.Update?
    ensures Rest(job, AtStart, w) == Spec(job, w)
  {
    var target := Target(job.work.opts, job.work.latest);
    var (p, w') := Started(job, w);
    assert Rest(job, AtStart, w) == Rest(job, p, w');
    if target.Some? {
      var (q, w'') := Checked(job, target.value, w');
      assert Rest(job, p, w') == Rest(job, q, w'');
      if q.AtDownload? {
        RestOfDownload(job, target.value, w'');
      }
    }
  }

  lemma RestOfBootstrap(job: Job, w: World)
    requires job.work.Bootstrap?
    ensures Rest(job, AtStart, w) == Spec(job, w)
  {
    var (p, w') := Started(job, w);
    assert Rest(job, AtStart, w) == Rest(job, p, w');
    if p.AtProvision? {
      var (q, w'') := Next(job, p, w');
      assert Rest(job, p, w') == Rest(job, q, w'');
      assert q.AtEnabling? ==> Rest(job, q, w'') == Next(job, q, w'').1;
    }
  }

  /** Step by step, a body that nobody interferes with ends where its
      specification says. */
  lemma AloneMeetsSpec(job: Job, w: World)
    ensures Rest(job, AtStart, w) == Spec(job, w)
  {
    if job.work.Update? {
      RestOfUpdate(job, w);
    } else {
      RestOfBootstrap(job, w);
    }
  }

  // ---- What every single step keeps, whoever comes in between -------------

  /** Where the body of a job can be at all. */
  predicate Fits(job: Job, p: Position) {
    match p
    case AtStart | Over => true
    case AtCheck(_) => job.work.Update?
    case AtDownload(_) => job.work.Update? && (Applying(job) || job.settings.mode != Notify)
    case AtProvision(_) | AtEnabling(_) => job.work.Bootstrap?
    case _ => Applying(job)
  }

  /** The phase that is shown while a body is at a position. */
  function PhaseAt(p: Position): Phase {
    match p
    case AtCheck(_) => Checking
    case AtDownload(_) | AtProvision(_) | AtEnabling(_) => Phase.Downloading
    case AtHandover(_) | AtSwitch(_, _) => Phase.Applying
    case AtRestart(_, _, _, _) | AtListing | AtChoice(_) | AtPruning(_) => Phase.Restarting
    case AtRollback(_, _) | AtRevert(_, _, _) => RollingBack
    case AtStart | Over => Idle
  }

  /** The status follows the body from position to position. */
  lemma StepShowsPhase(job: Job, p: Position, w: World)
    requires !p.Over? && w.status.phase == PhaseAt(p)
    ensures var (p', w') := Next(job, p, w); w'.status.phase == PhaseAt(p')
  {
    match p
    case AtRestart(target, prev, k, failing) => RestartShowsPhase(job, target, prev, k, failing, w);
    case AtRevert(ids, j, degraded) => RevertShowsPhase(job, ids, j, degraded, w);
    case AtDownload(target) => DownloadShowsPhase(job, target, w);
    case AtStart | AtCheck(_) | AtHandover(_) | AtSwitch(_, _) => UpdateShowsPhase(job, p, w);
    case _ => OthersShowPhase(job, p, w);
  }

  lemma UpdateShowsPhase(job: Job, p: Position, w: World)
    requires (p == AtStart || p.AtCheck? || p.AtHandover? || p.AtSwitch?) && w.status.phase == PhaseAt(p)
    ensures Next(job, p, w).1.status.phase == PhaseAt(Next(job, p, w).0)
  {
  }

  lemma OthersShowPhase(job: Job, p: Position, w: World)
    requires p == AtListing || p.AtChoice? || p.AtPruning? || p.AtRollback? || p.AtProvision? || p.AtEnabling?
    requires w.status.phase == PhaseAt(p)
    ensures Next(job, p, w).1.status.phase == PhaseAt(Next(job, p, w).0)
  {
  }

  lemma RestartShowsPhase(job: Job, target: string, prev: string, k: nat, failing: seq<string>, w: World)
    requires w.status.phase == Phase.Restarting
    ensures var (p', w') := RestartedNext(job, target, prev, k, failing, w); w'.status.phase == PhaseAt(p')
  {
  }

  lemma RevertShowsPhase(job: Job, ids: seq<string>, j: nat, degraded: seq<string>, w: World)
    requires w.status.phase == RollingBack
    ensures var (p', w') := RevertedNext(job, ids, j, degraded, w); w'.status.phase == PhaseAt(p')
  {
  }

  lemma DownloadShowsPhase(job: Job, target: string, w: World)
    requires w.status.phase == Phase.Downloading
    ensures var (p', w') := Downloading(job, target, w); w'.status.phase == PhaseAt(p')
  {
  }

  /** The step extracts a corrupt release over the whole store. */
  predicate WipesStore(job: Job, p: Position, s: State) {
    || (p.AtDownload? && Wipes(s, job.env.fetch(p.target)))
    || (p.AtProvision? && Wipes(s, job.env.fetch(p.release)))
  }

  /** An update that is not to be applied. */
  predicate Unapplied(job: Job) {
    job.work.Update? && !Applying(job)
  }

  /** The promises about one step of a body. */
  ghost predicate KeepsWord(job: Job, p: Position, w: World, p': Position, w': World) {
    && Fits(job, p') && w'.store.root == w.store.root
    && (p'.Over? ==> w'.status.phase == Idle && w'.status.last != Never)
    && (!Applying(job) ==> w'.log == w.log)
    && (Unapplied(job) && job.settings.mode == Notify ==> w'.store == w.store)
    && (Unapplied(job) ==> w'.store.active == if WipesStore(job, p, w.store) then "" else w.store.active)
    && (w'.store.active !in {w.store.active, ""} ==> p.AtSwitch? || p.AtRollback? || p.AtEnabling?)
    && (!(w.store.installed <= w'.store.installed) ==> p.AtDownload? || p.AtProvision? || p.AtPruning?)
    && (p.AtPruning? && Runnable(w.store) ==> Runnable(w'.store))
  }

  lemma StepKeepsWord(job: Job, p: Position, w: World)
    requires Fits(job, p) && !p.Over?
    ensures var (p', w') := Next(job, p, w); KeepsWord(job, p, w, p', w')
  {
    RunnableIsActive(w.store);
    RunnableIsActive(Next(job, p, w).1.store);
  }
}
