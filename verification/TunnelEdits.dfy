/** Concurrent edits of remote configurations: every request reads, edits and
    writes back under the mutex of its tunnel. */
module TunnelEdits {
  import opened Options
  import opened Ingress
  import opened TunnelConfig

  datatype Tunnel = Tunnel(account: string, id: string)

  function LockKey(t: Tunnel): string {
    t.account + "|" + t.id
  }

  /** Where one request stands; `Ready` carries what it is about to write. */
  datatype Pc<C> = Waiting | Locked | Ready(next: C) | Leaving | Done

  /** `pos` is the request's place in the order of lock acquisitions. */
  datatype Request<C, E> = Request(tunnel: Tunnel, edit: E, pc: Pc<C>, pos: nat, committed: bool)

  datatype State<C, E> = State(remote: map<Tunnel, C>, locks: map<string, nat>, requests: seq<Request<C, E>>,
      acquired: seq<nat>)

  datatype Step<E> = Arrive(tunnel: Tunnel, edit: E) | Lock(i: nat) | Fetch(i: nat, ok: bool)
      | Put(i: nat, applied: bool) | Unlock(i: nat)

  function Look<C>(remote: map<Tunnel, C>, t: Tunnel): Option<C> {
    if t in remote then Some(remote[t]) else None
  }

  predicate Enabled<C, E>(s: State<C, E>, step: Step<E>) {
    step.Arrive? ||
    (step.i < |s.requests| &&
     match step
     case Lock(i) => s.requests[i].pc.Waiting? && LockKey(s.requests[i].tunnel) !in s.locks
     case Fetch(i, _) => s.requests[i].pc.Locked?
     case Put(i, _) => s.requests[i].pc.Ready?
     case Unlock(i) => s.requests[i].pc.Leaving?)
  }

  /** `edited` yields what an edit makes of a configuration, or nothing if it is
      refused.  Reading and writing may fail, and a write may take effect even
      though it is reported as failed. */
  function Do<C, E>(edited: (Option<C>, E) -> Option<C>, s: State<C, E>, step: Step<E>): State<C, E>
    requires Enabled(s, step)
  {
    match step
    case Arrive(t, e) => s.(requests := s.requests + [Request(t, e, Waiting, 0, false)])
    case Lock(i) =>
      var r := s.requests[i];
      s.(locks := s.locks[LockKey(r.tunnel) := i],
         requests := s.requests[i := r.(pc := Locked, pos := |s.acquired|)],
         acquired := s.acquired + [i])
    case Fetch(i, ok) =>
      var r := s.requests[i];
      var next := edited(Look(s.remote, r.tunnel), r.edit);
      s.(requests := s.requests[i := r.(pc := if ok && next.Some? then Ready(next.value) else Leaving)])
    case Put(i, applied) =>
      var r := s.requests[i];
      s.(remote := if applied then s.remote[r.tunnel := r.pc.next] else s.remote,
         requests := s.requests[i := r.(pc := Leaving, committed := applied)])
    case Unlock(i) =>
      var r := s.requests[i];
      s.(locks := s.locks - {LockKey(r.tunnel)}, requests := s.requests[i := r.(pc := Done)])
  }

  ghost predicate IsRun<C, E>(edited: (Option<C>, E) -> Option<C>, states: seq<State<C, E>>, steps: seq<Step<E>>) {
    && |states| == |steps| + 1
    && states[0].requests == [] && states[0].acquired == [] && states[0].locks == map[]
    && forall i :: 0 <= i < |steps| ==> Enabled(states[i], steps[i]) && states[i + 1] == Do(edited, states[i], steps[i])
  }

  // ---- The sequential meaning --------------------------------------------

  /** The configuration of t after the first n lock holders, one by one, have
      applied their edits, counting the edits that were written back. */
  function Composed<C, E>(edited: (Option<C>, E) -> Option<C>, start: Option<C>, requests: seq<Request<C, E>>,
      acquired: seq<nat>, t: Tunnel, n: nat): Option<C>
    requires n <= |acquired|
  {
    if n == 0 then start
    else
      var c := Composed(edited, start, requests, acquired, t, n - 1);
      var i := acquired[n - 1];
      if i < |requests| && requests[i].tunnel == t && requests[i].committed && edited(c, requests[i].edit).Some?
      then edited(c, requests[i].edit) else c
  }

  predicate Inside<C, E>(r: Request<C, E>) {
    r.pc.Locked? || r.pc.Ready? || r.pc.Leaving?
  }

  /** Request i holds the lock of its tunnel and is the last to have got it. */
  ghost predicate Holds<C, E>(s: State<C, E>, i: nat)
    requires i < |s.requests|
  {
    var r := s.requests[i];
    && LockKey(r.tunnel) in s.locks && s.locks[LockKey(r.tunnel)] == i
    && forall p :: r.pos < p < |s.acquired| && s.acquired[p] < |s.requests| ==>
        s.requests[s.acquired[p]].tunnel != r.tunnel
  }

  /** Every request that has had the lock stands once in the order of acquisitions. */
  ghost predicate Ordered<C, E>(s: State<C, E>) {
    && (forall p :: 0 <= p < |s.acquired| ==>
          && s.acquired[p] < |s.requests| && !s.requests[s.acquired[p]].pc.Waiting?
          && s.requests[s.acquired[p]].pos == p)
    && (forall i :: 0 <= i < |s.requests| && !s.requests[i].pc.Waiting? ==>
          s.requests[i].pos < |s.acquired| && s.acquired[s.requests[i].pos] == i)
    && (forall i :: 0 <= i < |s.requests| && s.requests[i].committed ==>
          s.requests[i].pc.Leaving? || s.requests[i].pc.Done?)
  }

  ghost predicate Exclusive<C, E>(edited: (Option<C>, E) -> Option<C>, s: State<C, E>) {
    && (forall i :: 0 <= i < |s.requests| && Inside(s.requests[i]) ==> Holds(s, i))
    && (forall i :: 0 <= i < |s.requests| && s.requests[i].pc.Ready? ==>
          edited(Look(s.remote, s.requests[i].tunnel), s.requests[i].edit) == Some(s.requests[i].pc.next))
  }

  ghost predicate Faithful<C, E>(edited: (Option<C>, E) -> Option<C>, start: map<Tunnel, C>, s: State<C, E>) {
    forall t :: Look(s.remote, t) == Composed(edited, Look(start, t), s.requests, s.acquired, t, |s.acquired|)
  }

  lemma LockKeepsOrdered<C, E>(edited: (Option<C>, E) -> Option<C>, s: State<C, E>, i: nat)
    requires Ordered(s) && Enabled(s, Step<E>.Lock(i))
    ensures Ordered(Do(edited, s, Step<E>.Lock(i)))
  {
  }

  lemma StepKeepsOrdered<C, E>(edited: (Option<C>, E) -> Option<C>, s: State<C, E>, step: Step<E>)
    requires Ordered(s) && Enabled(s, step)
    ensures Ordered(Do(edited, s, step))
  {
    if step.Lock? {
      LockKeepsOrdered(edited, s, step.i);
    } else {
      var s' := Do(edited, s, step);
      assert s'.acquired == s.acquired;
      assert forall i :: 0 <= i < |s.requests| ==>
          s'.requests[i].pos == s.requests[i].pos && (s'.requests[i].pc.Waiting? <==> s.requests[i].pc.Waiting?);
    }
  }

  lemma LockKeepsExclusive<C, E>(edited: (Option<C>, E) -> Option<C>, s: State<C, E>, i: nat)
    requires Ordered(s) && Exclusive(edited, s) && Enabled(s, Step<E>.Lock(i))
    ensures Exclusive(edited, Do(edited, s, Step<E>.Lock(i)))
  {
  }

  lemma PutKeepsExclusive<C, E>(edited: (Option<C>, E) -> Option<C>, s: State<C, E>, i: nat, applied: bool)
    requires Ordered(s) && Exclusive(edited, s) && Enabled(s, Step<E>.Put(i, applied))
    ensures Exclusive(edited, Do(edited, s, Step<E>.Put(i, applied)))
  {
  }

  lemma OthersKeepExclusive<C, E>(edited: (Option<C>, E) -> Option<C>, s: State<C, E>, step: Step<E>)
    requires Ordered(s) && Exclusive(edited, s) && Enabled(s, step) && !step.Lock? && !step.Put?
    ensures Exclusive(edited, Do(edited, s, step))
  {
    var s' := Do(edited, s, step);
    forall j | 0 <= j < |s'.requests| && Inside(s'.requests[j])
      ensures Holds(s', j)
    {
      assert Inside(s.requests[j]) && Holds(s, j);
      if step.Unlock? {
        assert Inside(s.requests[step.i]) && Holds(s, step.i);
      }
    }
  }

  // ---- What the remote side holds ----------------------------------------

  ghost predicate Counts<C, E>(requests: seq<Request<C, E>>, i: int, t: Tunnel) {
    0 <= i < |requests| && requests[i].tunnel == t && requests[i].committed
  }

  /** Only the edits that count matter. */
  lemma {:induction false} ComposedSame<C, E>(edited: (Option<C>, E) -> Option<C>, start: Option<C>,
      a: seq<Request<C, E>>, b: seq<Request<C, E>>, acquired: seq<nat>, t: Tunnel, n: nat)
    requires n <= |acquired|
    requires forall p :: 0 <= p < n ==> (Counts(a, acquired[p], t) <==> Counts(b, acquired[p], t))
    requires forall p :: 0 <= p < n && Counts(a, acquired[p], t) && Counts(b, acquired[p], t) ==>
        a[acquired[p]].edit == b[acquired[p]].edit
    ensures Composed(edited, start, a, acquired, t, n) == Composed(edited, start, b, acquired, t, n)
  {
    if n > 0 {
      ComposedSame(edited, start, a, b, acquired, t, n - 1);
      assert Counts(a, acquired[n - 1], t) <==> Counts(b, acquired[n - 1], t);
    }
  }

  lemma {:induction false} ComposedSettles<C, E>(edited: (Option<C>, E) -> Option<C>, start: Option<C>,
      requests: seq<Request<C, E>>, acquired: seq<nat>, t: Tunnel, m: nat, n: nat)
    requires m <= n <= |acquired|
    requires forall p :: m <= p < n ==> !Counts(requests, acquired[p], t)
    ensures Composed(edited, start, requests, acquired, t, n) == Composed(edited, start, requests, acquired, t, m)
  {
    if m < n {
      ComposedSettles(edited, start, requests, acquired, t, m, n - 1);
      assert !Counts(requests, acquired[n - 1], t);
    }
  }

  lemma {:induction false} ComposedPrefix<C, E>(edited: (Option<C>, E) -> Option<C>, start: Option<C>,
      requests: seq<Request<C, E>>, acquired: seq<nat>, i: nat, t: Tunnel, n: nat)
    requires n <= |acquired|
    ensures Composed(edited, start, requests, acquired + [i], t, n) == Composed(edited, start, requests, acquired, t, n)
  {
    if n > 0 {
      ComposedPrefix(edited, start, requests, acquired, i, t, n - 1);
    }
  }

  /** Behind the writer nobody counts for its tunnel, before it nothing changes. */
  lemma CommitCounts<C, E>(edited: (Option<C>, E) -> Option<C>, s: State<C, E>, i: nat)
    requires Ordered(s) && Exclusive(edited, s) && Enabled(s, Step<E>.Put(i, true))
    ensures var s', r, acq := Do(edited, s, Step<E>.Put(i, true)), s.requests[i], s.acquired;
      && r.pos < |acq| && acq[r.pos] == i
      && (forall p :: r.pos <= p < |acq| ==> !Counts(s.requests, acq[p], r.tunnel))
      && (forall p :: r.pos < p < |acq| ==> !Counts(s'.requests, acq[p], r.tunnel))
      && (forall p :: 0 <= p < r.pos ==> acq[p] != i)
  {
    assert Inside(s.requests[i]) && Holds(s, i);
  }

  lemma CommitComposesOwn<C, E>(edited: (Option<C>, E) -> Option<C>, start: Option<C>, s: State<C, E>, i: nat)
    requires Ordered(s) && Exclusive(edited, s) && Enabled(s, Step<E>.Put(i, true))
    requires Look(s.remote, s.requests[i].tunnel)
        == Composed(edited, start, s.requests, s.acquired, s.requests[i].tunnel, |s.acquired|)
    ensures var s', t := Do(edited, s, Step<E>.Put(i, true)), s.requests[i].tunnel;
      Look(s'.remote, t) == Composed(edited, start, s'.requests, s'.acquired, t, |s'.acquired|)
  {
    var s' := Do(edited, s, Step<E>.Put(i, true));
    var r, acq := s.requests[i], s.acquired;
    CommitCounts(edited, s, i);
    ComposedSettles(edited, start, s.requests, acq, r.tunnel, r.pos, |acq|);
    ComposedSame(edited, start, s.requests, s'.requests, acq, r.tunnel, r.pos);
    ComposedSettles(edited, start, s'.requests, acq, r.tunnel, r.pos + 1, |acq|);
  }

  /** The write of request i is its edit applied to what was there, at the place
      of i in the order of acquisitions. */
  lemma CommitComposes<C, E>(edited: (Option<C>, E) -> Option<C>, start: Option<C>, s: State<C, E>, i: nat, t: Tunnel)
    requires Ordered(s) && Exclusive(edited, s) && Enabled(s, Step<E>.Put(i, true))
    requires Look(s.remote, t) == Composed(edited, start, s.requests, s.acquired, t, |s.acquired|)
    ensures var s' := Do(edited, s, Step<E>.Put(i, true));
      Look(s'.remote, t) == Composed(edited, start, s'.requests, s'.acquired, t, |s'.acquired|)
  {
    var s' := Do(edited, s, Step<E>.Put(i, true));
    if s.requests[i].tunnel == t {
      CommitComposesOwn(edited, start, s, i);
    } else {
      ComposedSame(edited, start, s.requests, s'.requests, s.acquired, t, |s.acquired|);
    }
  }

  /** A step that commits nothing composes as before. */
  lemma QuietComposes<C, E>(edited: (Option<C>, E) -> Option<C>, start: Option<C>, s: State<C, E>, step: Step<E>,
      t: Tunnel)
    requires Ordered(s) && Enabled(s, step) && !(step.Put? && step.applied)
    ensures var s' := Do(edited, s, step);
      && Look(s'.remote, t) == Look(s.remote, t)
      && Composed(edited, start, s'.requests, s'.acquired, t, |s'.acquired|)
          == Composed(edited, start, s.requests, s.acquired, t, |s.acquired|)
  {
    var s' := Do(edited, s, step);
    ComposedSame(edited, start, s.requests, s'.requests, s.acquired, t, |s.acquired|);
    if step.Lock? {
      ComposedPrefix(edited, start, s'.requests, s.acquired, step.i, t, |s.acquired|);
    }
  }

  lemma StepKeepsFaithful<C, E>(edited: (Option<C>, E) -> Option<C>, start: map<Tunnel, C>, s: State<C, E>,
      step: Step<E>)
    requires Ordered(s) && Exclusive(edited, s) && Faithful(edited, start, s) && Enabled(s, step)
    ensures Faithful(edited, start, Do(edited, s, step))
  {
    var s' := Do(edited, s, step);
    forall t
      ensures Look(s'.remote, t) == Composed(edited, Look(start, t), s'.requests, s'.acquired, t, |s'.acquired|)
    {
      assert Look(s.remote, t) == Composed(edited, Look(start, t), s.requests, s.acquired, t, |s.acquired|);
      if step.Put? && step.applied {
        CommitComposes(edited, Look(start, t), s, step.i, t);
      } else {
        QuietComposes(edited, Look(start, t), s, step, t);
      }
    }
  }

  ghost predicate Inv<C, E>(edited: (Option<C>, E) -> Option<C>, start: map<Tunnel, C>, s: State<C, E>) {
    Ordered(s) && Exclusive(edited, s) && Faithful(edited, start, s)
  }

  lemma StepKeepsInv<C, E>(edited: (Option<C>, E) -> Option<C>, start: map<Tunnel, C>, s: State<C, E>, step: Step<E>)
    requires Inv(edited, start, s) && Enabled(s, step)
    ensures Inv(edited, start, Do(edited, s, step))
  {
    StepKeepsOrdered(edited, s, step);
    StepKeepsFaithful(edited, start, s, step);
    match step
    case Lock(i) => LockKeepsExclusive(edited, s, i);
    case Put(i, applied) => PutKeepsExclusive(edited, s, i, applied);
    case _ => OthersKeepExclusive(edited, s, step);
  }

  lemma {:induction false} RunsKeepInv<C, E>(edited: (Option<C>, E) -> Option<C>, states: seq<State<C, E>>,
      steps: seq<Step<E>>, n: nat)
    requires IsRun(edited, states, steps) && n <= |steps|
    ensures Inv(edited, states[0].remote, states[n])
  {
    if n > 0 {
      RunsKeepInv(edited, states, steps, n - 1);
      StepKeepsInv(edited, states[0].remote, states[n - 1], steps[n - 1]);
    }
  }

  /** No update is lost: in every state of every run, what the remote side holds
      for a tunnel is its first configuration with the edits that were written
      back applied one after the other, in the order the lock was acquired. */
  lemma NoUpdateIsLost<C, E>(edited: (Option<C>, E) -> Option<C>, states: seq<State<C, E>>, steps: seq<Step<E>>, n: nat,
      t: Tunnel)
    requires IsRun(edited, states, steps) && n <= |steps|
    ensures var s := states[n];
      Look(s.remote, t) == Composed(edited, Look(states[0].remote, t), s.requests, s.acquired, t, |s.acquired|)
  {
    RunsKeepInv(edited, states, steps, n);
  }

  // ---- What each step does -----------------------------------------------

  /** A write that takes effect stores the edit of what was there and marks the
      request as committed; one that does not leaves both alone.  Either way the
      other tunnels and requests are as they were. */
  lemma PutIsExact<C, E>(edited: (Option<C>, E) -> Option<C>, s: State<C, E>, i: nat, applied: bool)
    requires Ordered(s) && Exclusive(edited, s) && Enabled(s, Step<E>.Put(i, applied))
    ensures var s', r := Do(edited, s, Step<E>.Put(i, applied)), s.requests[i];
      && Look(s'.remote, r.tunnel) == (if applied then edited(Look(s.remote, r.tunnel), r.edit)
          else Look(s.remote, r.tunnel))
      && s'.requests[i].pc == Leaving && s'.requests[i].committed == applied
      && (forall t :: t != r.tunnel ==> Look(s'.remote, t) == Look(s.remote, t))
      && |s'.requests| == |s.requests|
      && forall j :: 0 <= j < |s.requests| && j != i ==> s'.requests[j] == s.requests[j]
  {
  }

  /** Nothing else changes what the remote side holds. */
  lemma OnlyPutsWrite<C, E>(edited: (Option<C>, E) -> Option<C>, s: State<C, E>, step: Step<E>, t: Tunnel)
    requires Enabled(s, step) && Look(Do(edited, s, step).remote, t) != Look(s.remote, t)
    ensures step.Put? && step.applied && s.requests[step.i].tunnel == t
  {
  }

  /** The state after an edit has had the lock to itself from beginning to end. */
  function Served<C, E>(edited: (Option<C>, E) -> Option<C>, s: State<C, E>, i: nat): (s': State<C, E>)
    requires Enabled(s, Step<E>.Lock(i))
  {
    var s := Do(edited, s, Step<E>.Lock(i));
    var s := Do(edited, s, Step<E>.Fetch(i, true));
    var s := if s.requests[i].pc.Ready? then Do(edited, s, Step<E>.Put(i, true)) else s;
    Do(edited, s, Step<E>.Unlock(i))
  }

  /** A waiting edit whose lock is free can go all the way, and if its reads and
      writes succeed its tunnel holds the edit of what was there, or what was
      there if the edit is refused; the lock is free again. */
  lemma FreeEditGoesThrough<C, E>(edited: (Option<C>, E) -> Option<C>, s: State<C, E>, i: nat)
    requires i < |s.requests| && s.requests[i].pc.Waiting? && LockKey(s.requests[i].tunnel) !in s.locks
    ensures Enabled(s, Step<E>.Lock(i))
    ensures var s', t, e := Served(edited, s, i), s.requests[i].tunnel, s.requests[i].edit;
      && Look(s'.remote, t) == (if edited(Look(s.remote, t), e).Some? then edited(Look(s.remote, t), e)
          else Look(s.remote, t))
      && s'.requests[i].pc == Done && s'.locks == s.locks
      && (edited(Look(s.remote, t), e).Some? ==> s'.requests[i].committed)
  {
    assert s.locks == s.locks[LockKey(s.requests[i].tunnel) := i] - {LockKey(s.requests[i].tunnel)};
  }

  /** While one request has a lock, no other gets it. */
  lemma HeldLockIsRefused<C, E>(edited: (Option<C>, E) -> Option<C>, s: State<C, E>, i: nat, j: nat)
    requires Exclusive(edited, s) && i < |s.requests| && j < |s.requests| && Inside(s.requests[i])
    requires LockKey(s.requests[i].tunnel) == LockKey(s.requests[j].tunnel)
    ensures !Enabled(s, Step<E>.Lock(j))
    ensures i != j && s.requests[i].tunnel == s.requests[j].tunnel ==> !Inside(s.requests[j])
  {
    assert Holds(s, i);
    if Inside(s.requests[j]) {
      assert Holds(s, j);
    }
  }

  /** Tunnels of accounts without a bar in their ids have locks of their own. */
  lemma LocksAreApart(a: Tunnel, b: Tunnel)
    requires '|' !in a.account && '|' !in b.account
    ensures LockKey(a) == LockKey(b) <==> a == b
  {
    if LockKey(a) == LockKey(b) {
      var key := LockKey(a);
      assert key[|a.account|] == '|' && key[|b.account|] == '|';
      assert forall i :: 0 <= i < |a.account| ==> key[i] == a.account[i] && key[i] in a.account;
      assert forall i :: 0 <= i < |b.account| ==> key[i] == b.account[i] && key[i] in b.account;
      assert |a.account| == |b.account|;
      assert key[..|a.account|] == a.account == b.account;
      assert key[|a.account| + 1..] == a.id == b.id;
    }
  }

  /** What has arrived, in order. */
  function Arrivals<E>(steps: seq<Step<E>>, n: nat): seq<(Tunnel, E)>
    requires n <= |steps|
  {
    if n == 0 then []
    else Arrivals(steps, n - 1) + if steps[n - 1].Arrive? then [(steps[n - 1].tunnel, steps[n - 1].edit)] else []
  }

  /** In every run the requests are those that have arrived, each with its tunnel
      and its edit, and the committed ones are those whose write took effect. */
  lemma {:induction false} RequestsAreArrivals<C, E>(edited: (Option<C>, E) -> Option<C>, states: seq<State<C, E>>,
      steps: seq<Step<E>>, n: nat)
    requires IsRun(edited, states, steps) && n <= |steps|
    ensures var requests, came := states[n].requests, Arrivals(steps, n);
      && |requests| == |came|
      && (forall i :: 0 <= i < |came| ==> (requests[i].tunnel, requests[i].edit) == came[i])
      && (forall i :: 0 <= i < |came| ==>
            (requests[i].committed <==> exists m :: 0 <= m < n && steps[m] == Put(i, true)))
  {
    if n > 0 {
      RequestsAreArrivals(edited, states, steps, n - 1);
      RunsKeepInv(edited, states, steps, n - 1);
      NextRequests(edited, states[n - 1], steps[n - 1]);
      assert forall i :: (exists m :: 0 <= m < n && steps[m] == Put(i, true)) <==>
          steps[n - 1] == Put(i, true) || exists m :: 0 <= m < n - 1 && steps[m] == Put(i, true);
      NoPutBeforeArrival(edited, states, steps, n - 1);
    }
  }

  lemma NextRequests<C, E>(edited: (Option<C>, E) -> Option<C>, s: State<C, E>, step: Step<E>)
    requires Ordered(s) && Exclusive(edited, s) && Enabled(s, step)
    ensures var s' := Do(edited, s, step);
      && |s'.requests| == |s.requests| + (if step.Arrive? then 1 else 0)
      && (step.Arrive? ==> s'.requests[|s.requests|] == Request(step.tunnel, step.edit, Waiting, 0, false))
      && forall i :: 0 <= i < |s.requests| ==>
           && s'.requests[i].tunnel == s.requests[i].tunnel && s'.requests[i].edit == s.requests[i].edit
           && (s'.requests[i].committed <==> s.requests[i].committed || step == Put(i, true))
  {
  }

  lemma {:induction false} NoPutBeforeArrival<C, E>(edited: (Option<C>, E) -> Option<C>, states: seq<State<C, E>>,
      steps: seq<Step<E>>, n: nat)
    requires IsRun(edited, states, steps) && n <= |steps|
    ensures forall m :: 0 <= m < n && steps[m].Put? ==> steps[m].i < |states[n].requests|
  {
    if n > 0 {
      NoPutBeforeArrival(edited, states, steps, n - 1);
      RunsKeepInv(edited, states, steps, n - 1);
      NextRequests(edited, states[n - 1], steps[n - 1]);
    }
  }

  /** What the writes of a run make of one tunnel, read off its steps alone. */
  function AfterWrites<C, E>(edited: (Option<C>, E) -> Option<C>, start: Option<C>, steps: seq<Step<E>>, n: nat,
      t: Tunnel)
      : Option<C>
    requires n <= |steps|
  {
    if n == 0 then start
    else
      var c := AfterWrites(edited, start, steps, n - 1, t);
      var came := Arrivals(steps, n - 1);
      match steps[n - 1]
      case Put(i, true) => if i < |came| && came[i].0 == t then edited(c, came[i].1) else c
      case _ => c
  }

  /** In every state of every run the remote side holds exactly what the writes
      that took effect have made of it, each applying the edit that arrived to
      what the one before it left. */
  lemma {:induction false} RemoteIsWhatWasWritten<C, E>(edited: (Option<C>, E) -> Option<C>, states: seq<State<C, E>>,
      steps: seq<Step<E>>, n: nat, t: Tunnel)
    requires IsRun(edited, states, steps) && n <= |steps|
    ensures Look(states[n].remote, t) == AfterWrites(edited, Look(states[0].remote, t), steps, n, t)
  {
    if n > 0 {
      RemoteIsWhatWasWritten(edited, states, steps, n - 1, t);
      RequestsAreArrivals(edited, states, steps, n - 1);
      RunsKeepInv(edited, states, steps, n - 1);
      var s, step := states[n - 1], steps[n - 1];
      if step.Put? {
        PutIsExact(edited, s, step.i, step.applied);
      } else if Look(states[n].remote, t) != Look(s.remote, t) {
        OnlyPutsWrite(edited, s, step, t);
      }
    }
  }

  // ---- Public hostnames --------------------------------------------------

  /** The keys the daemon does not model are in b as they are in a. */
  ghost predicate SameUnknown(a: Option<Raw>, b: Option<Raw>) {
    forall k :: k !in MODELLED ==>
      && (a.Some? && k in a.value <==> b.Some? && k in b.value)
      && (a.Some? && k in a.value && b.Some? && k in b.value ==> a.value[k] == b.value[k])
  }

  /** What every edit keeps, every composition of edits keeps. */
  lemma {:induction false} ComposedKeeps<C(!new), E(!new)>(edited: (Option<C>, E) -> Option<C>, good: Option<C> -> bool,
      start: Option<C>, requests: seq<Request<C, E>>, acquired: seq<nat>, t: Tunnel, n: nat)
    requires n <= |acquired| && good(start)
    requires forall c, e :: good(c) && edited(c, e).Some? ==> good(edited(c, e))
    ensures good(Composed(edited, start, requests, acquired, t, n))
  {
    if n > 0 {
      ComposedKeeps(edited, good, start, requests, acquired, t, n - 1);
    }
  }

  ghost predicate Kept(start: Option<Raw>, c: Option<Raw>) {
    SameUnknown(start, c) && (Shaped(Listed(start)) ==> Shaped(Listed(c)))
  }

  lemma EditKeeps(start: Option<Raw>, c: Option<Raw>, e: Edit)
    requires Kept(start, c) && EditedRaw(c, e).Some?
    ensures Kept(start, EditedRaw(c, e))
  {
    EditedRawIsExact(c, e);
  }

  lemma CompositionKeeps(start: Option<Raw>, requests: seq<Request<Raw, Edit>>, acquired: seq<nat>, t: Tunnel, n: nat)
    requires n <= |acquired|
    ensures Kept(start, Composed(EditedRaw, start, requests, acquired, t, n))
  {
    forall c, e | Kept(start, c) && EditedRaw(c, e).Some?
      ensures Kept(start, EditedRaw(c, e))
    {
      EditKeeps(start, c, e);
    }
    ComposedKeeps(EditedRaw, c => Kept(start, c), start, requests, acquired, t, n);
  }

  /** So however many public hostnames are edited at once, a rule list that was
      empty or well shaped is well shaped in every state, and the top-level keys
      the daemon does not model are never touched. */
  lemma ConcurrentEditsKeep(states: seq<State<Raw, Edit>>, steps: seq<Step<Edit>>, n: nat, t: Tunnel)
    requires IsRun(EditedRaw, states, steps) && n <= |steps|
    ensures Kept(Look(states[0].remote, t), Look(states[n].remote, t))
  {
    NoUpdateIsLost(EditedRaw, states, steps, n, t);
    CompositionKeeps(Look(states[0].remote, t), states[n].requests, states[n].acquired, t, |states[n].acquired|);
  }
}
