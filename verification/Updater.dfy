/** The update engine: check, download, activate, rolling restart, then roll
    back or prune. */
module Updater {
  import opened Options
  import opened Strings
  import opened Versions
  import opened BinStore
  import opened Rollout
  import opened Retention

  datatype Mode = Full | Download | Notify

  datatype Settings = Settings(enabled: bool, mode: Mode, autoRollback: bool, keepVersions: int)

  datatype RunOpts = RunOpts(version: string, force: bool, apply: bool)

  /** The options of a periodic run. */
  const SCHEDULED := RunOpts("", false, false)

  datatype Phase = Idle | Checking | Downloading | Applying | Restarting | RollingBack

  datatype Outcome = Never | UpToDate | Notified | Downloaded | Updated | Failed | RolledBack | RolledBackDegraded

  datatype Status = Status(phase: Phase, last: Outcome, latest: string, pending: string)

  /** How a rolling restart ended; `at` is the position of the follower that failed. */
  datatype Restart = AllHealthy | Aborted(at: nat) | Reverted(at: nat, degraded: seq<string>)
      | BestEffort(failed: seq<string>)

  /** What an engine run changes. */
  datatype World = World(store: State, status: Status, log: seq<Event>)

  /** What it finds: the release proxy, undeletable directories, the followers in
      restart order, the pinned versions, and how reloads and probes turn out;
      `compare` is the version order and `accepts` says which tags the store
      lets be activated. */
  datatype Env = Env(compare: (string, string) -> int, accepts: (State, string) -> bool, fetch: string -> Fetch,
      undeletable: set<string>, followers: seq<string>, pinned: set<string>, outcome: Oracle)

  function Ended(w: World, last: Outcome): World {
    w.(status := w.status.(phase := Idle, last := last))
  }

  function Named(ids: seq<string>): seq<string> {
    if ids == [] then [] else (if ids[0] == "" then [] else [ids[0]]) + Named(ids[1..])
  }

  /** The log after n of the ids have been tried on the active version. */
  function LogAfter(w: World, ids: seq<string>, n: nat, outcome: Oracle): seq<Event>
    requires n <= |ids|
  {
    w.log + Tried(ids, n, w.store.active, outcome, |w.log|)
  }

  function Activate(s: State, env: Env, tag: string): State {
    if env.accepts(s, tag) then s.(active := tag) else s
  }

  predicate Accepts(s: State, tag: string) {
    Resolve(s, tag).Some?
  }

  /** Reverting the first k + 1 followers to the version from before. */
  function RevertSpec(w: World, env: Env, prev: string, k: nat): (World, Restart)
    requires k < |env.followers|
  {
    var back := w.(store := Activate(w.store, env, prev));
    var touched := Named(env.followers[..k + 1]);
    var degraded := Failing(touched, |touched|, env.outcome, |w.log|);
    (World(back.store, w.status.(phase := Idle, pending := "",
        last := if degraded == [] then RolledBack else RolledBackDegraded),
           LogAfter(back, touched, |touched|, env.outcome)),
     Reverted(k, degraded))
  }

  function RestartSpec(w: World, env: Env, autoRollback: bool, prev: string): (World, Restart) {
    var n := |env.followers|;
    var w := w.(status := w.status.(phase := Restarting));
    var k := Streak(n, env.outcome, |w.log|);
    if k == n then (w.(log := LogAfter(w, env.followers, n, env.outcome)), AllHealthy)
    else if !autoRollback then
      (Ended(w.(log := LogAfter(w, env.followers, n, env.outcome)), Outcome.Failed),
          BestEffort(Failing(env.followers, n, env.outcome, |w.log|)))
    else
      var forward := w.(log := LogAfter(w, env.followers, k + 1, env.outcome));
      if prev == "" || prev == w.store.active then (Ended(forward, Outcome.Failed), Aborted(k))
      else RevertSpec(forward.(status := forward.status.(phase := RollingBack)), env, prev, k)
  }

  /** Activating a downloaded version, restarting the followers, pruning. */
  ghost function DeploySpec(w: World, env: Env, s: Settings, target: string): World {
    var prev := w.store.active;
    var w := w.(status := w.status.(phase := Applying));
    if !env.accepts(w.store, target) then Ended(w, Outcome.Failed)
    else
      var (w, r) := RestartSpec(w.(store := Activate(w.store, env, target)), env, s.autoRollback, prev);
      if r != AllHealthy then w
      else
        var w := w.(store := w.store.(installed := Survivors(w.store, env.pinned, s.keepVersions, env.undeletable)));
        Ended(w.(status := w.status.(pending := "")), Updated)
  }

  function Target(opts: RunOpts, latest: Option<string>): Option<string> {
    if Trim(opts.version) != "" then Some(Trim(opts.version)) else latest
  }

  /** What a download leaves in the store. */
  function Fetched(s: State, f: Fetch): State {
    match f
    case Missing => s
    case Corrupt(tag) => Apply(s, ExtractFailed(tag))
    case _ => Apply(s, Installed(f.tag))
  }

  /** Downloading the target and, if it is to be applied, deploying it. */
  ghost function FetchSpec(w: World, env: Env, s: Settings, apply: bool, target: string): World {
    var f := env.fetch(target);
    var w := w.(store := Fetched(w.store, f));
    if !f.Got? then Ended(w, Outcome.Failed)
    else if !apply then Ended(w.(status := w.status.(pending := f.tag)), Downloaded)
    else DeploySpec(w, env, s, f.tag)
  }

  ghost function RunSpec(w: World, env: Env, opts: RunOpts, s: Settings, target: Option<string>): World {
    if target == None then Ended(w, Outcome.Failed)
    else
      var w := w.(status := w.status.(phase := Checking, latest := target.value));
      var apply := opts.apply || s.mode == Full;
      if !opts.force && w.store.active != "" && env.compare(w.store.active, target.value) >= 0 then Ended(w, UpToDate)
      else if !apply && s.mode == Notify then Ended(w, Notified)
      else FetchSpec(w.(status := w.status.(phase := Downloading)), env, s, apply, target.value)
  }

  /** Whether the start-up bootstrap goes ahead, as checked before it tries the lock. */
  predicate NeedsBootstrap(w: World, s: Settings) {
    s.enabled && w.store.active == ""
  }

  /** The body of the bootstrap: the newest release is installed and activated,
      whatever the mode, and nothing is restarted or pruned. */
  function BootstrapSpec(w: World, env: Env, latest: Option<string>): World {
    var w := w.(status := w.status.(phase := Downloading));
    if latest == None then Ended(w, Outcome.Failed)
    else
      var f := env.fetch(latest.value);
      var w := w.(store := Fetched(w.store, f));
      if !f.Got? || !env.accepts(w.store, f.tag) then Ended(w, Outcome.Failed)
      else Ended(w.(store := Activate(w.store, env, f.tag), status := w.status.(latest := f.tag)), Updated)
  }

  class Engine {
    const store: Store
    const fleet: Fleet
    var status: Status

    constructor (store: Store, fleet: Fleet)
      ensures this.store == store && this.fleet == fleet && status == Status(Idle, Never, "", "")
    {
      this.store, this.fleet := store, fleet;
      status := Status(Idle, Never, "", "");
    }

    ghost function Now(): World
      reads this, store, fleet
    {
      World(store.View(), status, fleet.log)
    }

    ghost function Around(): Env {
      Env(Compare, Accepts, store.fetch, store.undeletable, fleet.followers, fleet.pinned, fleet.outcome)
    }

    method End(last: Outcome)
      modifies this`status
      ensures Now() == Ended(old(Now()), last)
    {
      status := status.(phase := Idle, last := last);
    }

    method Revert(prev: string, k: nat) returns (r: Restart)
      requires k < |fleet.followers|
      modifies this`status, store`active, fleet
      ensures (Now(), r) == RevertSpec(old(Now()), Around(), prev, k)
    {
      var _ := store.Activate(prev);
      var degraded := fleet.TryAll(Named(fleet.followers[..k + 1]), store.active);
      status := status.(phase := Idle, pending := "",
          last := if degraded == [] then RolledBack else RolledBackDegraded);
      return Reverted(k, degraded);
    }

    /** Restarts every follower on the active version. */
    method RollingRestart(autoRollback: bool, prev: string) returns (r: Restart)
      modifies this`status, store`active, fleet
      ensures (Now(), r) == RestartSpec(old(Now()), Around(), autoRollback, prev)
    {
      var ids := fleet.followers;
      StreakStopsAtFirstFailure(ids, |ids|, fleet.outcome, |fleet.log|);
      status := status.(phase := Restarting);
      if !autoRollback {
        var failing := fleet.TryAll(ids, store.active);
        if failing == [] {
          return AllHealthy;
        }
        End(Outcome.Failed);
        return BestEffort(failing);
      }
      var k := fleet.TryUntilFailure(ids, store.active);
      if k == |ids| {
        return AllHealthy;
      }
      if prev == "" || prev == store.active {
        End(Outcome.Failed);
        return Aborted(k);
      }
      status := status.(phase := RollingBack);
      r := Revert(prev, k);
    }

    method Deploy(s: Settings, target: string)
      requires store.Valid()
      modifies this`status, store, fleet
      ensures store.Valid()
      ensures Now() == DeploySpec(old(Now()), Around(), s, target)
    {
      status := status.(phase := Applying);
      var prev := store.active;
      var ok := store.Activate(target);
      if !ok {
        End(Outcome.Failed);
        return;
      }
      var r := RollingRestart(s.autoRollback, prev);
      if r != AllHealthy {
        return;
      }
      Prune(store, fleet.pinned, s.keepVersions);
      status := status.(pending := "");
      End(Updated);
    }

    method FetchAndDeploy(s: Settings, apply: bool, target: string)
      requires store.Valid()
      modifies this`status, store, fleet
      ensures store.Valid()
      ensures Now() == FetchSpec(old(Now()), Around(), s, apply, target)
    {
      var tag := store.Install(target);
      if tag == None {
        End(Outcome.Failed);
        return;
      }
      if !apply {
        status := status.(pending := tag.value);
        End(Downloaded);
        return;
      }
      Deploy(s, tag.value);
    }

    /** One run of the whole pipeline.  `latest` is what resolving the newest
        release yields. */
    method Run(opts: RunOpts, s: Settings, latest: Option<string>)
      requires store.Valid()
      modifies this`status, store, fleet
      ensures store.Valid()
      ensures Now() == RunSpec(old(Now()), Around(), opts, s, Target(opts, latest))
    {
      var target := Trim(opts.version);
      if target == "" {
        if latest == None {
          End(Outcome.Failed);
          return;
        }
        target := latest.value;
      }
      Proceed(opts, s, target);
    }

    /** Whether the active version is as new as the target. */
    method IsUpToDate(force: bool, target: string) returns (done: bool)
      ensures done <==> !force && store.active != "" && Around().compare(store.active, target) >= 0
    {
      if force || store.active == "" {
        return false;
      }
      var c := CompareVersions(store.active, target);
      return c >= 0;
    }

    /** The run once its target is known. */
    method Proceed(opts: RunOpts, s: Settings, target: string)
      requires store.Valid()
      modifies this`status, store, fleet
      ensures store.Valid()
      ensures Now() == RunSpec(old(Now()), Around(), opts, s, Some(target))
    {
      status := status.(phase := Checking, latest := target);
      var done := IsUpToDate(opts.force, target);
      if done {
        End(UpToDate);
        return;
      }
      var apply := opts.apply || s.mode == Full;
      if !apply && s.mode == Notify {
        End(Notified);
        return;
      }
      status := status.(phase := Downloading);
      FetchAndDeploy(s, apply, target);
    }

    /** The start-up bootstrap of an engine that has no active version. */
    method BootstrapIfMissing(s: Settings, latest: Option<string>)
      requires store.Valid()
      modifies this`status, store
      ensures store.Valid()
      ensures Now() == if old(NeedsBootstrap(Now(), s)) then BootstrapSpec(old(Now()), Around(), latest) else old(Now())
    {
      if !s.enabled || store.active != "" {
        return;
      }
      status := status.(phase := Downloading);
      if latest == None {
        End(Outcome.Failed);
        return;
      }
      var tag := store.Install(latest.value);
      if tag == None {
        End(Outcome.Failed);
        return;
      }
      var ok := store.Activate(tag.value);
      if !ok {
        End(Outcome.Failed);
        return;
      }
      End(Updated);
      status := status.(latest := tag.value);
    }
  }
}
