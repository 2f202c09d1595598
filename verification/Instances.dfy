/** What the manager tells the update engine about its instances, and why
    updating and pruning leave pinned instances alone. */
module Instances {
  import opened Options
  import opened Sequences
  import opened Strings
  import opened BinStore
  import opened Retention

  /** `wanted` is the configured binary version, None if the configuration
      cannot be read or parsed. */
  datatype Instance = Instance(id: string, started: bool, wanted: Option<string>)

  predicate FollowsActive(version: string) {
    Trim(version) in {"", "current"}
  }

  predicate RunningFollower(i: Instance) {
    i.started && i.wanted.Some? && FollowsActive(i.wanted.value)
  }

  /** A configured version follows the active one exactly if it resolves to the
      same in every store; any other is independent of which version is active. */
  lemma FollowsIff(version: string)
    ensures FollowsActive(version) <==> forall s: State :: Resolve(s, version) == Resolve(s, "")
    ensures !FollowsActive(version) ==>
              forall s: State, tag :: Resolve(s.(active := tag), version) == Resolve(s, version)
  {
    assert Trim("") == "";
    if !FollowsActive(version) {
      var tag := if Trim(version) == "a" then "b" else "a";
      var s := State([], tag, {tag});
      assert Resolve(s, "") == Some(tag) && Resolve(s, version) != Some(tag);
    }
  }

  /** Which instances an update restarts: started ones whose configuration can be
      read and asks for no version, or for the current one. */
  lemma RestartedIff(instances: seq<Instance>, i: Instance)
    ensures i in Select(instances, |instances|, RunningFollower) <==>
              i in instances && i.started && i.wanted.Some?
                  && (Trim(i.wanted.value) == "" || Trim(i.wanted.value) == "current")
  {
    SelectIsExact(instances, |instances|, RunningFollower, i);
    assert instances[..|instances|] == instances;
  }

  function Ids(instances: seq<Instance>): (r: seq<string>)
    ensures |r| == |instances|
  {
    seq(|instances|, k requires 0 <= k < |instances| => instances[k].id)
  }

  /** The running followers, in the given order. */
  method ActiveFollowerRunningIDs(instances: seq<Instance>) returns (out: seq<string>)
    ensures out == Ids(Select(instances, |instances|, RunningFollower))
  {
    out := [];
    for k := 0 to |instances|
      invariant out == Ids(Select(instances, k, RunningFollower))
    {
      var i := instances[k];
      if !i.started || i.wanted == None {
        continue;
      }
      var v := Trim(i.wanted.value);
      if v == "" || v == "current" {
        out := out + [i.id];
      }
    }
  }

  /** The versions that some readable instance, running or not, is pinned to. */
  method PinnedBinaryVersions(instances: seq<Instance>) returns (out: set<string>)
    ensures forall v :: v in out <==>
              exists i :: i in instances && i.wanted.Some? && !FollowsActive(i.wanted.value)
                          && v == Trim(i.wanted.value)
  {
    out := {};
    for k := 0 to |instances|
      invariant forall v :: v in out <==>
        exists i :: i in instances[..k] && i.wanted.Some? && !FollowsActive(i.wanted.value) && v == Trim(i.wanted.value)
    {
      var i := instances[k];
      assert instances[..k + 1] == instances[..k] + [i];
      if i.wanted == None {
        continue;
      }
      var v := Trim(i.wanted.value);
      if v != "" && v != "current" {
        out := out + {v};
      }
    }
    assert instances[..|instances|] == instances;
  }

  /** Retention after an update: every instance with a readable configuration
      that had a binary to run has the same binary to run. */
  method Retain(store: Store, instances: seq<Instance>, keep: int)
    requires store.Valid()
    modifies store
    ensures store.Valid()
    ensures forall i :: i in instances && i.wanted.Some? && Resolve(old(store.View()), i.wanted.value).Some? ==>
              Resolve(store.View(), i.wanted.value) == Resolve(old(store.View()), i.wanted.value)
  {
    var pinned := PinnedBinaryVersions(instances);
    ghost var before := store.View();
    Prune(store, pinned, keep);
    forall i | i in instances && i.wanted.Some? && Resolve(before, i.wanted.value).Some?
      ensures Resolve(store.View(), i.wanted.value) == Resolve(before, i.wanted.value)
    {
      assert FollowsActive(i.wanted.value) || Trim(i.wanted.value) in pinned;
      PruningKeepsRunnable(before, pinned, keep, store.undeletable, i.wanted.value);
    }
  }

  // ---- Waiting for health ------------------------------------------------

  datatype Sighting = Absent | Snapshot(started: bool, failed: bool)

  predicate Healthy(s: Sighting) {
    s.Snapshot? && s.started && !s.failed
  }

  /** An instance that is gone, not started, or has failed is not healthy. */
  lemma UnhealthyIff(s: Sighting)
    ensures !Healthy(s) <==> s == Absent || !s.started || s.failed
  {
  }

  /** The first check, from the k-th on, that the clock finds at or after the
      deadline; `clock(k)` is its reading after check k. */
  ghost function LastCheck(clock: nat -> int, deadline: int, k: nat, enough: nat): (n: nat)
    requires k <= enough && clock(enough) >= deadline
    ensures k <= n <= enough && clock(n) >= deadline && forall j :: k <= j < n ==> clock(j) < deadline
    decreases enough - k
  {
    if clock(k) >= deadline then k else LastCheck(clock, deadline, k + 1, enough)
  }

  /** Looks again and again until the grace period is over, which the clock shows
      after check `enough` at the latest.  Healthy means healthy at every check,
      the last one included. */
  method WaitHealthy(look: nat -> Sighting, start: int, clock: nat -> int, grace: int, ghost enough: nat)
      returns (ok: bool)
    requires clock(enough) >= start + grace
    ensures ok <==> forall k :: 0 <= k <= LastCheck(clock, start + grace, 0, enough) ==> Healthy(look(k))
  {
    var deadline := start + grace;
    ghost var last := LastCheck(clock, deadline, 0, enough);
    var k := 0;
    while true
      invariant 0 <= k <= last && forall j :: 0 <= j < k ==> Healthy(look(j))
      decreases last - k
    {
      if !Healthy(look(k)) {
        return false;
      }
      if clock(k) >= deadline {
        return true;
      }
      k := k + 1;
    }
  }
}
