/** Restarting the instances that follow the active version, one at a time, and
    the trace such a restart leaves behind.  Reloads and health probes are
    answered by an arbitrary oracle. */
module Rollout {

  datatype Event = Reloaded(id: string, version: string, ok: bool) | Probed(id: string, ok: bool)

  type Oracle = nat -> bool

  /** The running instances, seen through the two calls the engine makes. */
  class Fleet {
    var log: seq<Event>

    /** Running instances that follow the active version, in restart order. */
    const followers: seq<string>
    /** Versions some instance is pinned to. */
    const pinned: set<string>
    /** How the world answers the call that becomes the n-th log entry. */
    const outcome: Oracle

    constructor (followers: seq<string>, pinned: set<string>, outcome: Oracle)
      ensures log == [] && this.followers == followers && this.pinned == pinned && this.outcome == outcome
    {
      log, this.followers, this.pinned, this.outcome := [], followers, pinned, outcome;
    }

    /** The child is spawned from the version that is active at this moment. */
    method Reload(id: string, active: string) returns (ok: bool)
      modifies this
      ensures ok == outcome(|old(log)|) && log == old(log) + [Reloaded(id, active, ok)]
    {
      ok := outcome(|log|);
      log := log + [Reloaded(id, active, ok)];
    }

    method WaitHealthy(id: string) returns (ok: bool)
      modifies this
      ensures ok == outcome(|old(log)|) && log == old(log) + [Probed(id, ok)]
    {
      ok := outcome(|log|);
      log := log + [Probed(id, ok)];
    }

    /** Reload, and probe if the reload went well. */
    method Try(id: string, active: string) returns (ok: bool)
      modifies this
      ensures ok == Passes(outcome, |old(log)|)
      ensures log == old(log) + Attempt(id, active, outcome, |old(log)|)
    {
      ok := Reload(id, active);
      if ok {
        ok := WaitHealthy(id);
      }
    }

    /** Tries the n-th id, after the first n since the log was `before`. */
    method TryNext(ids: seq<string>, n: nat, active: string, ghost before: seq<Event>) returns (ok: bool)
      requires n < |ids| && log == before + Tried(ids, n, active, outcome, |before|)
      modifies this
      ensures log == before + Tried(ids, n + 1, active, outcome, |before|)
      ensures ok == Passes(outcome, Cursor(n, outcome, |before|))
    {
      ok := Try(ids[n], active);
    }

    /** Tries the ids in order and returns those that do not pass. */
    method TryAll(ids: seq<string>, active: string) returns (failing: seq<string>)
      modifies this
      ensures failing == Failing(ids, |ids|, outcome, |old(log)|)
      ensures log == old(log) + Tried(ids, |ids|, active, outcome, |old(log)|)
    {
      failing := [];
      for i := 0 to |ids|
        invariant failing == Failing(ids, i, outcome, |old(log)|)
        invariant log == old(log) + Tried(ids, i, active, outcome, |old(log)|)
      {
        var ok := TryNext(ids, i, active, old(log));
        if !ok {
          failing := failing + [ids[i]];
        }
      }
    }

    /** Tries the ids in order and stops at the first that does not pass. */
    method TryUntilFailure(ids: seq<string>, active: string) returns (passed: nat)
      modifies this
      ensures passed == Streak(|ids|, outcome, |old(log)|)
      ensures log == old(log) + Tried(ids, if passed < |ids| then passed + 1 else passed, active, outcome, |old(log)|)
    {
      passed := 0;
      while passed < |ids|
        invariant passed <= |ids|
        invariant Streak(passed, outcome, |old(log)|) == passed
        invariant log == old(log) + Tried(ids, passed, active, outcome, |old(log)|)
      {
        var ok := TryNext(ids, passed, active, old(log));
        StreakNext(passed, outcome, |old(log)|);
        if !ok {
          StreakSettles(|ids|, passed + 1, outcome, |old(log)|);
          return;
        }
        passed := passed + 1;
      }
    }
  }

  // ---- The trace of a series of attempts ---------------------------------

  predicate Passes(outcome: Oracle, at: nat) {
    outcome(at) && outcome(at + 1)
  }

  function Attempt(id: string, version: string, outcome: Oracle, at: nat): seq<Event> {
    [Reloaded(id, version, outcome(at))] + if outcome(at) then [Probed(id, outcome(at + 1))] else []
  }

  /** The log position after n attempts that start at position `at`. */
  function Cursor(n: nat, outcome: Oracle, at: nat): nat {
    if n == 0 then at
    else
      var c := Cursor(n - 1, outcome, at);
      if outcome(c) then c + 2 else c + 1
  }

  /** Everything that happens when the first n ids are tried in order, starting
      at log position `at`. */
  function Tried(ids: seq<string>, n: nat, version: string, outcome: Oracle, at: nat): (t: seq<Event>)
    requires n <= |ids|
    ensures at + |t| == Cursor(n, outcome, at)
  {
    if n == 0 then []
    else Tried(ids, n - 1, version, outcome, at) + Attempt(ids[n - 1], version, outcome, Cursor(n - 1, outcome, at))
  }

  /** Those of the first n ids whose attempt does not pass. */
  function Failing(ids: seq<string>, n: nat, outcome: Oracle, at: nat): seq<string>
    requires n <= |ids|
  {
    if n == 0 then []
    else if Passes(outcome, Cursor(n - 1, outcome, at)) then Failing(ids, n - 1, outcome, at)
    else Failing(ids, n - 1, outcome, at) + [ids[n - 1]]
  }

  /** How many of n attempts pass before one does not. */
  function Streak(n: nat, outcome: Oracle, at: nat): (k: nat)
    ensures k <= n
  {
    if n == 0 then 0
    else
      var k := Streak(n - 1, outcome, at);
      if k == n - 1 && Passes(outcome, Cursor(k, outcome, at)) then n else k
  }

  lemma StreakNext(n: nat, outcome: Oracle, at: nat)
    requires Streak(n, outcome, at) == n
    ensures Streak(n + 1, outcome, at) == if Passes(outcome, Cursor(n, outcome, at)) then n + 1 else n
  {
  }

  lemma {:induction false} StreakStopsAtFirstFailure(ids: seq<string>, n: nat, outcome: Oracle, at: nat)
    requires n <= |ids|
    ensures var k := Streak(n, outcome, at);
      && (k == n <==> Failing(ids, n, outcome, at) == [])
      && Failing(ids, k, outcome, at) == []
      && (k < n ==> Failing(ids, k + 1, outcome, at) == [ids[k]])
  {
    if n > 0 {
      StreakStopsAtFirstFailure(ids, n - 1, outcome, at);
    }
  }

  /** Ids behind the first failure do not change where it is. */
  lemma {:induction false} StreakSettles(n: nat, m: nat, outcome: Oracle, at: nat)
    requires m <= n && Streak(m, outcome, at) < m
    ensures Streak(n, outcome, at) == Streak(m, outcome, at)
  {
    if m < n {
      StreakSettles(n - 1, m, outcome, at);
    }
  }

  // ---- What the trace says -----------------------------------------------

  /** The ids reloaded by the first n events. */
  function ReloadedIds(log: seq<Event>, n: nat): seq<string>
    requires n <= |log|
  {
    if n == 0 then [] else ReloadedIds(log, n - 1) + if log[n - 1].Reloaded? then [log[n - 1].id] else []
  }

  lemma {:induction false} ReloadedIdsOfPrefix(a: seq<Event>, b: seq<Event>, n: nat)
    requires n <= |a|
    ensures ReloadedIds(a + b, n) == ReloadedIds(a, n)
  {
    if n > 0 {
      ReloadedIdsOfPrefix(a, b, n - 1);
    }
  }

  lemma ReloadedIdsThenAttempt(t: seq<Event>, id: string, version: string, outcome: Oracle, at: nat)
    ensures var whole := t + Attempt(id, version, outcome, at);
      ReloadedIds(whole, |whole|) == ReloadedIds(t, |t|) + [id]
  {
    var whole := t + Attempt(id, version, outcome, at);
    ReloadedIdsOfPrefix(t, Attempt(id, version, outcome, at), |t|);
    assert whole[|t|] == Reloaded(id, version, outcome(at));
    assert ReloadedIds(whole, |t| + 1) == ReloadedIds(t, |t|) + [id];
    if outcome(at) {
      assert whole[|t| + 1].Probed?;
    }
  }

  /** Each id is reloaded exactly once, in order. */
  lemma {:induction false} TriedReloadsEachOnce(ids: seq<string>, n: nat, version: string, outcome: Oracle, at: nat)
    requires n <= |ids|
    ensures var t := Tried(ids, n, version, outcome, at);
      ReloadedIds(t, |t|) == ids[..n]
  {
    if n > 0 {
      TriedReloadsEachOnce(ids, n - 1, version, outcome, at);
      ReloadedIdsThenAttempt(Tried(ids, n - 1, version, outcome, at), ids[n - 1], version, outcome,
          Cursor(n - 1, outcome, at));
    }
  }

  /** Every reload in the trace runs `version`, and nothing but the ids is touched. */
  lemma {:induction false} TriedTouchesOnly(ids: seq<string>, n: nat, version: string, outcome: Oracle, at: nat)
    requires n <= |ids|
    ensures forall e :: e in Tried(ids, n, version, outcome, at) ==>
              e.id in ids[..n] && (e.Reloaded? ==> e.version == version)
  {
    if n > 0 {
      TriedTouchesOnly(ids, n - 1, version, outcome, at);
      assert ids[..n] == ids[..n - 1] + [ids[n - 1]];
    }
  }

  /** An id is reported as failing exactly when the trace shows its reload or its probe failing. */
  lemma {:induction false} FailingIffTraceShowsIt(ids: seq<string>, n: nat, version: string, outcome: Oracle, at: nat,
      id: string)
    requires n <= |ids|
    ensures id in Failing(ids, n, outcome, at) <==>
            exists e :: e in Tried(ids, n, version, outcome, at) && e.id == id && !e.ok
  {
    if n > 0 {
      FailingIffTraceShowsIt(ids, n - 1, version, outcome, at, id);
      var a := Attempt(ids[n - 1], version, outcome, Cursor(n - 1, outcome, at));
      assert a[0] in a && (|a| == 2 ==> a[1] in a);
    }
  }

  /** When all attempts pass, the trace is one good reload and one good probe per id, in order. */
  lemma {:induction false} PassingTrace(ids: seq<string>, n: nat, version: string, outcome: Oracle, at: nat)
    requires n <= |ids| && Failing(ids, n, outcome, at) == []
    ensures var t := Tried(ids, n, version, outcome, at);
      && |t| == 2 * n
      && forall i :: 0 <= i < n ==> t[2 * i] == Reloaded(ids[i], version, true) && t[2 * i + 1] == Probed(ids[i], true)
  {
    if n > 0 {
      PassingTrace(ids, n - 1, version, outcome, at);
    }
  }
}
