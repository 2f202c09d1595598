/** What every run of the update engine guarantees. */
module UpdaterLaws {
  import opened Options
  import opened Strings
  import opened Versions
  import opened BinStore
  import opened Rollout
  import opened Retention
  import opened Updater

  /** Reverting skips blank ids and no others. */
  lemma {:induction false} NamedSkipsBlanks(ids: seq<string>)
    ensures "" !in Named(ids) && forall id :: id in Named(ids) <==> id in ids && id != ""
    ensures "" !in ids ==> Named(ids) == ids
  {
    if ids != [] {
      NamedSkipsBlanks(ids[1..]);
      assert ids == [ids[0]] + ids[1..];
    }
  }

  /** The events a restart added to the log. */
  function Added(w: World, w': World): seq<Event>
    requires w.log <= w'.log
  {
    w'.log[|w.log|..]
  }

  /** A good reload and a good probe of each of the ids under `version`, in order. */
  ghost predicate AllGood(t: seq<Event>, ids: seq<string>, version: string) {
    && |t| == 2 * |ids|
    && forall i :: 0 <= i < |ids| ==>
         t[2 * i] == Reloaded(ids[i], version, true) && t[2 * i + 1] == Probed(ids[i], true)
  }

  /** Each of the ids reloaded exactly once under `version`, in order, and nothing else touched. */
  ghost predicate EachOnce(t: seq<Event>, ids: seq<string>, version: string) {
    && ReloadedIds(t, |t|) == ids
    && forall e :: e in t ==> e.id in ids && (e.Reloaded? ==> e.version == version)
  }

  /** The first k ids come up healthy, then the reload or the probe of the next
      one fails, and that is all. */
  ghost predicate FailsFirstAt(t: seq<Event>, ids: seq<string>, k: nat, version: string) {
    && k < |ids| && 2 * k < |t| <= 2 * k + 2
    && t[2 * k].id == ids[k]
    && AllGood(t[..2 * k], ids[..k], version)
    && t[|t| - 1].id == ids[k] && !t[|t| - 1].ok
  }

  ghost predicate ShowsFailure(t: seq<Event>, id: string) {
    exists e :: e in t && e.id == id && !e.ok
  }

  /** The ids named are those the trace shows failing. */
  ghost predicate Reports(failing: seq<string>, t: seq<Event>) {
    forall id :: id in failing <==> ShowsFailure(t, id)
  }

  lemma FailingReports(ids: seq<string>, n: nat, version: string, outcome: Oracle, at: nat)
    requires n <= |ids|
    ensures Reports(Failing(ids, n, outcome, at), Tried(ids, n, version, outcome, at))
  {
  }

  lemma TriedEachOnce(ids: seq<string>, n: nat, version: string, outcome: Oracle, at: nat)
    requires n <= |ids|
    ensures EachOnce(Tried(ids, n, version, outcome, at), ids[..n], version)
  {
    TriedReloadsEachOnce(ids, n, version, outcome, at);
    TriedTouchesOnly(ids, n, version, outcome, at);
  }

  /** With automatic rollback a restart either leaves every follower healthy on
      the new version ... */
  lemma RestartSucceedsCompletely(w: World, env: Env, prev: string)
    ensures var (w', r) := RestartSpec(w, env, true, prev);
      r == AllHealthy ==> w'.store == w.store && w.log <= w'.log && AllGood(Added(w, w'), env.followers, w.store.active)
  {
    var n := |env.followers|;
    StreakStopsAtFirstFailure(env.followers, n, env.outcome, |w.log|);
    if Streak(n, env.outcome, |w.log|) == n {
      PassingTrace(env.followers, n, w.store.active, env.outcome, |w.log|);
      var (w', r) := RestartSpec(w, env, true, prev);
      assert Added(w, w') == Tried(env.followers, n, w.store.active, env.outcome, |w.log|);
    }
  }

  lemma PassingPrefix(ids: seq<string>, k: nat, version: string, outcome: Oracle, at: nat)
    requires k < |ids| && Failing(ids, k, outcome, at) == [] && Failing(ids, k + 1, outcome, at) != []
    ensures FailsFirstAt(Tried(ids, k + 1, version, outcome, at), ids, k, version)
  {
    PassingTrace(ids, k, version, outcome, at);
    assert Tried(ids, k + 1, version, outcome, at)[..2 * k] == Tried(ids, k, version, outcome, at);
  }

  /** The ids are reloaded once each on the old version, in order, and `degraded`
      names those for which that fails. */
  ghost predicate TakesBack(t: seq<Event>, ids: seq<string>, prev: string, degraded: seq<string>) {
    EachOnce(t, ids, prev) && Reports(degraded, t)
  }

  lemma TriedTakesBack(ids: seq<string>, n: nat, prev: string, outcome: Oracle, at: nat)
    requires n == |ids|
    ensures TakesBack(Tried(ids, n, prev, outcome, at), ids, prev, Failing(ids, n, outcome, at))
  {
    TriedEachOnce(ids, n, prev, outcome, at);
    assert ids[..n] == ids;
    FailingReports(ids, n, prev, outcome, at);
  }

  lemma RevertSpecTakesBack(w: World, env: Env, prev: string, k: nat) returns (back: seq<Event>)
    requires k < |env.followers| && env.accepts(w.store, prev)
    ensures var (w', r) := RevertSpec(w, env, prev, k);
      && r.Reverted? && r.at == k
      && w'.log == w.log + back && TakesBack(back, Named(env.followers[..k + 1]), prev, r.degraded)
      && w'.store == w.store.(active := prev)
      && (w'.status.last == RolledBack <==> r.degraded == [])
  {
    var touched := Named(env.followers[..k + 1]);
    back := Tried(touched, |touched|, prev, env.outcome, |w.log|);
    TriedTakesBack(touched, |touched|, prev, env.outcome, |w.log|);
  }

  lemma RestartFailsIff(w: World, env: Env, autoRollback: bool, prev: string)
    ensures RestartSpec(w, env, autoRollback, prev).1 == AllHealthy
        <==> Streak(|env.followers|, env.outcome, |w.log|) == |env.followers|
  {
  }

  /** ... or takes back exactly the followers up to and including the first that
      failed: those before it had come up healthy, the rest are never touched,
      every one of them with an id is reloaded once more, in the same order, on the
      version from before, and reported as degraded exactly if that reload or its probe
      fails.  No version is removed. */
  lemma RestartRevertsCompletely(w: World, env: Env, prev: string) returns (forward: seq<Event>, back: seq<Event>)
    requires prev != "" && prev != w.store.active && env.accepts(w.store, prev)
    requires RestartSpec(w, env, true, prev).1 != AllHealthy
    ensures var (w', r) := RestartSpec(w, env, true, prev);
      && r.Reverted? && r.at < |env.followers|
      && w'.log == w.log + forward + back
      && w'.store == w.store.(active := prev)
      && (w'.status.last == RolledBack <==> r.degraded == [])
      && FailsFirstAt(forward, env.followers, r.at, w.store.active)
      && TakesBack(back, Named(env.followers[..r.at + 1]), prev, r.degraded)
  {
    var ids, at := env.followers, |w.log|;
    RestartFailsIff(w, env, true, prev);
    var k := Streak(|ids|, env.outcome, at);
    StreakStopsAtFirstFailure(ids, |ids|, env.outcome, at);
    PassingPrefix(ids, k, w.store.active, env.outcome, at);
    forward := Tried(ids, k + 1, w.store.active, env.outcome, at);
    var reverting := World(w.store, w.status.(phase := RollingBack), w.log + forward);
    back := RevertSpecTakesBack(reverting, env, prev, k);
  }

  /** Reverting restores the old version exactly when the store still accepts
      it; otherwise the engine reports the rollback although the new version
      stays active. */
  lemma RollbackRestoresIff(w: World, env: Env, prev: string)
    requires prev != w.store.active
    ensures var (w', r) := RestartSpec(w, env, true, prev);
      r.Reverted? ==>
        && w'.status.last in {RolledBack, RolledBackDegraded}
        && (w'.store.active == prev <==> env.accepts(w.store, prev))
        && (w'.store.active != prev ==> w'.store == w.store)
  {
  }

  /** Without automatic rollback every follower is tried once on the new version,
      whatever happens to the others. */
  lemma BestEffortTriesAll(w: World, env: Env, prev: string)
    ensures var (w', r) := RestartSpec(w, env, false, prev);
      && w'.store == w.store && w.log <= w'.log
      && EachOnce(Added(w, w'), env.followers, w.store.active)
      && (r.BestEffort? ==> w'.status.last == Outcome.Failed && Reports(r.failed, Added(w, w')))
      && (r == AllHealthy <==> forall e :: e in Added(w, w') ==> e.ok)
  {
    var ids, n, at := env.followers, |env.followers|, |w.log|;
    var t := Tried(ids, n, w.store.active, env.outcome, at);
    var (w', r) := RestartSpec(w, env, false, prev);
    assert Added(w, w') == t;
    TriedEachOnce(ids, n, w.store.active, env.outcome, at);
    assert ids[..n] == ids;
    StreakStopsAtFirstFailure(ids, n, env.outcome, at);
    FailingReports(ids, n, w.store.active, env.outcome, at);
    var failing := Failing(ids, n, env.outcome, at);
    if e :| e in t && !e.ok {
      assert ShowsFailure(t, e.id);
    } else if failing != [] {
      assert failing[0] in failing;
    }
  }

  // ---- Whole pipeline runs -----------------------------------------------

  /** Every finished run leaves the engine idle with a result. */
  lemma RunEndsIdle(w: World, env: Env, opts: RunOpts, s: Settings, target: Option<string>)
    ensures RunSpec(w, env, opts, s, target).status.phase == Idle
    ensures RunSpec(w, env, opts, s, target).status.last != Never
  {
  }

  /** The version a run goes for is the one it was told, trimmed, whatever the
      newest release is and whether or not it is known; only a run that was told
      none goes for the newest release, and fails untouched if that is unknown. */
  lemma RunsGoForWhatTheyWereTold(w: World, env: Env, opts: RunOpts, s: Settings, a: Option<string>, b: Option<string>)
    ensures Trim(opts.version) != "" ==>
              && RunSpec(w, env, opts, s, Target(opts, a)) == RunSpec(w, env, opts, s, Target(opts, b))
              && RunSpec(w, env, opts, s, Target(opts, a)).status.latest == Trim(opts.version)
    ensures Trim(opts.version) == "" && a.Some? ==> RunSpec(w, env, opts, s, Target(opts, a)).status.latest == a.value
    ensures Trim(opts.version) == "" && a == None ==>
              var w' := RunSpec(w, env, opts, s, Target(opts, a));
              && w'.status.last == Outcome.Failed && w'.status.latest == w.status.latest
              && w'.store == w.store && w'.log == w.log
  {
    LatestIsTarget(w, env, opts, s, Target(opts, a));
  }

  lemma LatestIsTarget(w: World, env: Env, opts: RunOpts, s: Settings, target: Option<string>)
    ensures RunSpec(w, env, opts, s, target).status.latest == if target.Some? then target.value else w.status.latest
  {
    if Downloads(w, env, opts, s, target) && env.fetch(target.value).Got? {
      var f := env.fetch(target.value);
      var status := w.status.(phase := Downloading, latest := target.value);
      DeployKeepsLatest(w.(store := Fetched(w.store, f), status := status), env, s, f.tag);
    }
  }

  lemma DeployKeepsLatest(w: World, env: Env, s: Settings, target: string)
    ensures DeploySpec(w, env, s, target).status.latest == w.status.latest
  {
  }

  /** The run gets as far as downloading its target. */
  predicate Downloads(w: World, env: Env, opts: RunOpts, s: Settings, target: Option<string>) {
    && target.Some?
    && (opts.force || w.store.active == "" || env.compare(w.store.active, target.value) < 0)
    && (opts.apply || s.mode != Notify)
  }

  /** The extraction of a release whose tag points to the root fails, and the
      clean-up takes the whole store along. */
  predicate Wipes(s: State, f: Fetch) {
    f.Corrupt? && PlaceOf(s.root, f.tag).Covering?
  }

  /** Unless told to apply, notify mode changes neither store nor instances, and
      download mode restarts nothing and leaves the marker alone, unless its
      download wipes the store. */
  lemma ModesAreSafe(w: World, env: Env, opts: RunOpts, s: Settings, target: Option<string>)
    requires !opts.apply
    ensures var w' := RunSpec(w, env, opts, s, target);
      && (s.mode == Notify ==> w'.store == w.store && w'.log == w.log)
      && (s.mode == Download ==> w'.log == w.log && w'.status.last != Updated)
      && (s.mode == Download ==>
            (w'.store.active == w.store.active <==>
             !(Downloads(w, env, opts, s, target) && Wipes(w.store, env.fetch(target.value)) && w.store.active != "")))
  {
  }

  /** Apart from pruning after success, a run removes installed versions exactly
      when the extraction of its download fails over one. */
  lemma OnlyUpdatesPrune(w: World, env: Env, opts: RunOpts, s: Settings, target: Option<string>)
    ensures var w' := RunSpec(w, env, opts, s, target);
      w'.status.last != Updated ==>
        (w.store.installed <= w'.store.installed <==>
         !(Downloads(w, env, opts, s, target)
             && !(w.store.installed <= Fetched(w.store, env.fetch(target.value)).installed)))
  {
  }

  /** A download leaves out installed versions only if it is corrupt and points
      to the root or to one of them. */
  lemma DownloadLosesIff(s: State, f: Fetch)
    ensures !(s.installed <= Fetched(s, f).installed) <==>
            f.Corrupt? && (var place := PlaceOf(s.root, f.tag);
              (place.Covering? && s.installed != {})
                  || (place.Entry? && place.name != MARKER && place.name in s.installed))
  {
    if f.Corrupt? && PlaceOf(s.root, f.tag).Covering? && s.installed != {} {
      var v :| v in s.installed;
      assert v !in Fetched(s, f).installed;
    }
  }

  lemma DeployedMeansHealthy(w: World, env: Env, s: Settings, target: string)
    ensures var w' := DeploySpec(w, env, s, target);
      w'.status.last == Updated ==>
        && w'.store.active == target
        && w.log <= w'.log && AllGood(Added(w, w'), env.followers, target)
        && w'.store.installed == Survivors(w.store.(active := target), env.pinned, s.keepVersions, env.undeletable)
  {
    var applying := w.(store := w.store.(active := target), status := w.status.(phase := Applying));
    if env.accepts(w.store, target) {
      RestartSucceedsCompletely(applying, env, w.store.active);
      StreakStopsAtFirstFailure(env.followers, |env.followers|, env.outcome, |w.log|);
      BestEffortTriesAll(applying, env, w.store.active);
    }
  }

  /** An order of versions in which nothing is older than the missing version. */
  ghost predicate TotalPreorder(compare: (string, string) -> int) {
    && (forall a, b :: compare(a, b) == -compare(b, a))
    && (forall a, b, c :: compare(a, b) >= 0 && compare(b, c) >= 0 ==> compare(a, c) >= 0)
    && (forall a :: compare(a, "") >= 0)
  }

  lemma CompareQualifies()
    ensures TotalPreorder(Compare)
  {
    assert Parse("") == Version(0, 0, 0) by {
      assert Trim("") == "" && SplitDots("", 3) == [""];
    }
  }

  /** What the run's download would do to the active version, if the run gets as
      far: wipe the store, or bring something older that is then activated. */
  predicate BringsOlder(w: World, env: Env, opts: RunOpts, s: Settings, target: Option<string>) {
    && Downloads(w, env, opts, s, target)
    && var f := env.fetch(target.value);
       || (Wipes(w.store, f) && env.compare("", w.store.active) < 0)
       || (f.Got? && (opts.apply || s.mode == Full) && env.compare(f.tag, w.store.active) < 0)
  }

  /** The download, once activated, stays active: no follower fails on it, or
      nothing is rolled back, or the store no longer accepts the version from
      before. */
  predicate Sticks(w: World, env: Env, s: Settings, f: Fetch)
    requires f.Got?
  {
    && env.accepts(Fetched(w.store, f), f.tag)
    && (|| Streak(|env.followers|, env.outcome, |w.log|) == |env.followers|
        || !s.autoRollback
        || !env.accepts(Fetched(w.store, f).(active := f.tag), w.store.active))
  }

  lemma DeployActive(w: World, env: Env, s: Settings, target: string)
    ensures DeploySpec(w, env, s, target).store.active ==
            if !env.accepts(w.store, target) then w.store.active
            else if || Streak(|env.followers|, env.outcome, |w.log|) == |env.followers|
                    || !s.autoRollback || w.store.active in {"", target}
                    || !env.accepts(w.store.(active := target), w.store.active)
            then target
            else w.store.active
  {
  }

  /** What is active after a run. */
  lemma RunActive(w: World, env: Env, opts: RunOpts, s: Settings, target: Option<string>)
    ensures RunSpec(w, env, opts, s, target).store.active ==
            if !Downloads(w, env, opts, s, target) then w.store.active
            else
              var f := env.fetch(target.value);
              if Wipes(w.store, f) then ""
              else if !f.Got? || !(opts.apply || s.mode == Full) then w.store.active
              else if w.store.active in {"", f.tag} && env.accepts(Fetched(w.store, f), f.tag) then f.tag
              else if Sticks(w, env, s, f) then f.tag
              else w.store.active
  {
    if Downloads(w, env, opts, s, target) && env.fetch(target.value).Got? {
      var f := env.fetch(target.value);
      DeployActive(w.(store := Fetched(w.store, f), status := w.status.(phase := Downloading, latest := target.value)),
          env, s, f.tag);
    }
  }

  /** A run, forced or not, leaves an older version active than it found exactly
      if its download does, and, unless that has wiped the store, sticks. */
  lemma DowngradesIff(w: World, env: Env, opts: RunOpts, s: Settings, target: Option<string>)
    requires TotalPreorder(env.compare)
    ensures env.compare(RunSpec(w, env, opts, s, target).store.active, w.store.active) < 0 <==>
            BringsOlder(w, env, opts, s, target)
            && (env.fetch(target.value).Got? ==> Sticks(w, env, s, env.fetch(target.value)))
  {
    assert env.compare(w.store.active, w.store.active) == 0;
    RunActive(w, env, opts, s, target);
    if Downloads(w, env, opts, s, target) && env.fetch(target.value).Got? {
      assert env.compare(w.store.active, "") >= 0;
    }
  }

  /** In particular a scheduled run never does unless its own download brings
      something older than the active version. */
  lemma ScheduledNeverDowngrades(w: World, env: Env, s: Settings, target: Option<string>)
    requires TotalPreorder(env.compare)
    requires !BringsOlder(w, env, SCHEDULED, s, target)
    ensures env.compare(RunSpec(w, env, SCHEDULED, s, target).store.active, w.store.active) >= 0
  {
    DowngradesIff(w, env, SCHEDULED, s, target);
  }

  // ---- The active version stays runnable ---------------------------------

  /** The download does no harm, and neither does activating what it brings. */
  predicate Gentle(s: State, f: Fetch) {
    match f
    case Corrupt(tag) => !Harmful(s, ExtractFailed(tag))
    case Got(tag) => !Harmful(Apply(s, Installed(tag)), Activated(tag))
    case _ => true
  }

  lemma ActivateKeepsRunnable(s: State, env: Env, tag: string)
    requires env.accepts == Accepts && Runnable(s) && !Harmful(s, Activated(tag))
    ensures Runnable(Activate(s, env, tag)) && Activate(s, env, tag).installed == s.installed
        && Activate(s, env, tag).root == s.root
  {
    RunnableIffHarmless(s, Activated(tag));
  }

  lemma RestartKeepsRunnable(w: World, env: Env, autoRollback: bool, prev: string)
    requires env.accepts == Accepts && Runnable(w.store) && !Harmful(w.store, Activated(prev))
    ensures var (w', r) := RestartSpec(w, env, autoRollback, prev);
      Runnable(w'.store) && w'.store.installed == w.store.installed && w'.store.root == w.store.root
  {
    ActivateKeepsRunnable(w.store, env, prev);
  }

  /** A valid, installed version does no harm when it is reactivated. */
  lemma ReactivatingIsHarmless(s: State, tag: string)
    requires ValidTag(tag) && tag in s.installed
    ensures !Harmful(s, Activated(tag))
  {
  }

  lemma DeployKeepsRunnable(w: World, env: Env, s: Settings, target: string)
    requires env.accepts == Accepts && Runnable(w.store) && !Harmful(w.store, Activated(target))
    ensures Runnable(DeploySpec(w, env, s, target).store)
  {
    var prev := w.store.active;
    RunnableIsActive(w.store);
    ActivateKeepsRunnable(w.store, env, target);
    var activated := w.(status := w.status.(phase := Applying), store := Activate(w.store, env, target));
    ReactivatingIsHarmless(activated.store, prev);
    RestartKeepsRunnable(activated, env, s.autoRollback, prev);
    var restarted := RestartSpec(activated, env, s.autoRollback, prev).0;
    ChangeKeepsRunnable(restarted.store, Pruned(env.pinned, s.keepVersions, env.undeletable));
  }

  /** Downloading, deploying, rolling back and pruning included, instances that
      follow the active version have a binary to run after a run if they had one
      before, as long as the run's own download is gentle. */
  lemma RunKeepsRunnable(w: World, env: Env, opts: RunOpts, s: Settings, target: Option<string>)
    requires env.accepts == Accepts && Runnable(w.store)
    requires target.Some? ==> Gentle(w.store, env.fetch(target.value))
    ensures Runnable(RunSpec(w, env, opts, s, target).store)
  {
    if Downloads(w, env, opts, s, target) {
      var f := env.fetch(target.value);
      if f.Corrupt? {
        RunnableIffHarmless(w.store, ExtractFailed(f.tag));
      } else if !f.Missing? {
        RunnableIffHarmless(w.store, Installed(f.tag));
        if f.Got? {
          var fetched := w.(store := Fetched(w.store, f),
              status := w.status.(phase := Downloading, latest := target.value));
          DeployKeepsRunnable(fetched, env, s, f.tag);
        }
      }
    }
  }

  /** A run that downloads a corrupt release keeps the active version runnable
      exactly if the clean-up does not hit it. */
  lemma CorruptDownloadIff(w: World, env: Env, opts: RunOpts, s: Settings, target: Option<string>)
    requires Runnable(w.store) && Downloads(w, env, opts, s, target) && env.fetch(target.value).Corrupt?
    ensures Runnable(RunSpec(w, env, opts, s, target).store)
        <==> !Harmful(w.store, ExtractFailed(env.fetch(target.value).tag))
  {
    RunnableIffHarmless(w.store, ExtractFailed(env.fetch(target.value).tag));
  }

  /** So reinstalling the active version by force, from an archive that fails its
      checksum, leaves nothing to run. */
  lemma ForcedReinstallBreaks(w: World, env: Env, s: Settings)
    requires Runnable(w.store) && w.store.active != MARKER && env.fetch(w.store.active) == Corrupt(w.store.active)
    ensures !Runnable(RunSpec(w, env, RunOpts(w.store.active, true, true), s, Some(w.store.active)).store)
  {
    var active := w.store.active;
    RunnableIsActive(w.store);
    ValidIsName(active);
    NameIsEntry(w.store.root, active);
    CorruptDownloadIff(w, env, RunOpts(active, true, true), s, Some(active));
  }

  // ---- The bootstrap -----------------------------------------------------

  /** The bootstrap activates a version exactly if the newest release is known,
      downloads well and is accepted; no setting of the mode holds it back. */
  lemma BootstrapActivatesIff(w: World, env: Env, latest: Option<string>)
    ensures var w' := BootstrapSpec(w, env, latest);
      && w'.status.phase == Idle && w'.log == w.log
      && (w'.status.last == Updated <==>
            latest.Some? && env.fetch(latest.value).Got?
            && env.accepts(Fetched(w.store, env.fetch(latest.value)), env.fetch(latest.value).tag))
      && (w'.status.last == Updated ==> w'.store.active == env.fetch(latest.value).tag)
      && (w'.status.last != Updated ==> w'.store == if latest == None then w.store
          else Fetched(w.store, env.fetch(latest.value)))
  {
  }
}
