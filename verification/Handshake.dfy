/** A client subscribes and then asks for a snapshot, while producers keep
    appending.  Producers append to the ring in one critical section and deliver
    to the subscriber in later steps, so both can be under way at once.  The log
    tailer and the event bus differ in when the subscriber is looked up and in
    what an overflowing queue loses. */
module Handshake {
  import opened Options
  import opened Sequences
  import opened Rings

  /** `lookupAtAppend`: the tailer decides who receives an entry when it appends
      it, the bus when it delivers it.  `dropOldest`: what a full queue loses, the
      oldest queued entry (tailer) or the new one (bus).  The snapshot shows what
      satisfies `replays` among the newest `size`, capped by `limit` if positive. */
  datatype Config<!E> = Config(lookupAtAppend: bool, dropOldest: bool, size: nat, capacity: nat, limit: int,
      matches: E -> bool, replays: E -> bool)

  /** Entries are named by their position in the history. */
  datatype State<E> = State(
    history: seq<E>,
    subscribedAt: Option<nat>,
    pending: set<nat>,
    queue: seq<nat>,
    received: seq<nat>,
    dropped: set<nat>,
    snapshot: Option<Snapshot<E>>)

  datatype Snapshot<E> = Snapshot(at: nat, shown: seq<E>)

  datatype Step<E> = Append(e: E) | Deliver(i: nat) | Subscribe | Snap | Receive

  function Start<E>(): State<E> {
    State([], None, {}, [], [], {}, None)
  }

  predicate Enabled<E>(s: State<E>, step: Step<E>) {
    match step
    case Append(_) => true
    case Deliver(i) => i in s.pending && i < |s.history|
    case Subscribe => s.subscribedAt == None
    case Snap => s.subscribedAt.Some? && s.snapshot.None?
    case Receive => s.queue != []
  }

  function Do<E>(c: Config<E>, s: State<E>, step: Step<E>): State<E>
    requires Enabled(s, step)
  {
    match step
    case Append(e) =>
      var goesOut := !c.lookupAtAppend || s.subscribedAt.Some?;
      s.(history := s.history + [e], pending := s.pending + if goesOut then {|s.history|} else {})
    case Deliver(i) =>
      var s := s.(pending := s.pending - {i});
      if s.subscribedAt == None || !c.matches(s.history[i]) then s
      else if |s.queue| < c.capacity then s.(queue := s.queue + [i])
      else if c.dropOldest && s.queue != [] then s.(queue := s.queue[1..] + [i], dropped := s.dropped + {s.queue[0]})
      else s.(dropped := s.dropped + {i})
    case Subscribe => s.(subscribedAt := Some(|s.history|))
    case Snap => s.(snapshot := Some(Snapshot(|s.history|, Visible(s.history, c.size, c.replays, c.limit))))
    case Receive => s.(queue := s.queue[1..], received := s.received + [s.queue[0]])
  }

  ghost predicate IsRun<E>(c: Config<E>, states: seq<State<E>>, steps: seq<Step<E>>) {
    && |states| == |steps| + 1 && states[0] == Start()
    && forall i :: 0 <= i < |steps| ==> Enabled(states[i], steps[i]) && states[i + 1] == Do(c, states[i], steps[i])
  }

  // ---- What each step does -----------------------------------------------

  /** An appended entry is on its way to the subscriber exactly if there is one, or
      if who gets it is decided later. */
  lemma AppendGoesOutIff<E>(c: Config<E>, s: State<E>, e: E)
    requires |s.history| !in s.pending
    ensures var s' := Do(c, s, Append(e));
      && s'.history == s.history + [e] && s'.queue == s.queue && s'.subscribedAt == s.subscribedAt
      && (|s.history| in s'.pending <==> s.subscribedAt.Some? || !c.lookupAtAppend)
      && forall i :: i != |s.history| ==> (i in s'.pending <==> i in s.pending)
  {
  }

  /** From the subscription on, what is delivered and wanted is queued behind the
      rest; what is not wanted is not; and a full queue loses its oldest entry or
      the new one, and says so. */
  lemma DeliveryIsExact<E>(c: Config<E>, s: State<E>, i: nat)
    requires Enabled(s, Deliver(i))
    ensures var s' := Do(c, s, Deliver(i));
      && i !in s'.pending && s'.received == s.received
      && (s.subscribedAt == None || !c.matches(s.history[i]) ==> s'.queue == s.queue && s'.dropped == s.dropped)
      && (s.subscribedAt.Some? && c.matches(s.history[i]) ==>
            if |s.queue| < c.capacity then s'.queue == s.queue + [i] && s'.dropped == s.dropped
            else if c.dropOldest && s.queue != [] then
              && |s'.queue| == |s.queue| && s'.queue[|s.queue| - 1] == i && s'.queue[..|s.queue| - 1] == s.queue[1..]
              && s'.dropped == s.dropped + {s.queue[0]}
            else s'.queue == s.queue && s'.dropped == s.dropped + {i})
  {
  }

  /** A subscription begins with what is appended next, a snapshot covers what has
      been appended by then, and the client receives what has waited longest. */
  lemma ClientStepsAreExact<E>(c: Config<E>, s: State<E>)
    ensures Enabled(s, Subscribe) ==> Do(c, s, Subscribe).subscribedAt == Some(|s.history|)
    ensures Enabled(s, Snap) ==>
              && Do(c, s, Snap).snapshot.Some? && Do(c, s, Snap).snapshot.value.at == |s.history|
              && Do(c, s, Snap).snapshot.value.shown == Visible(s.history, c.size, c.replays, c.limit)
    ensures Enabled(s, Receive) ==>
              && Do(c, s, Receive).received == s.received + [s.queue[0]]
                  && [s.queue[0]] + Do(c, s, Receive).queue == s.queue
  {
  }

  // ---- No gap ------------------------------------------------------------

  predicate Reached<E>(s: State<E>, i: int) {
    i in s.queue || i in s.received
  }

  ghost predicate Inv<E>(c: Config<E>, s: State<E>) {
    && (s.subscribedAt == None ==> s.queue == [] && s.received == [] && s.dropped == {} && s.snapshot == None)
    && (s.subscribedAt.Some? ==> s.subscribedAt.value <= |s.history|)
    && (s.subscribedAt.Some? ==>
          forall i :: s.subscribedAt.value <= i < |s.history| && c.matches(s.history[i]) ==>
            i in s.pending || Reached(s, i) || i in s.dropped)
    && (s.snapshot.Some? ==>
          && s.subscribedAt.Some? && s.subscribedAt.value <= s.snapshot.value.at <= |s.history|
          && s.snapshot.value.shown == Visible(s.history[..s.snapshot.value.at], c.size, c.replays, c.limit))
  }

  lemma StepKeepsInv<E>(c: Config<E>, s: State<E>, step: Step<E>)
    requires Inv(c, s) && Enabled(s, step)
    ensures Inv(c, Do(c, s, step))
  {
    var t := Do(c, s, step);
    assert forall x :: x in s.queue && s.queue != [] ==> x == s.queue[0] || x in s.queue[1..];
    if t.subscribedAt.Some? {
      forall i | t.subscribedAt.value <= i < |t.history| && c.matches(t.history[i])
        ensures i in t.pending || Reached(t, i) || i in t.dropped
      {
        assert i < |s.history| && s.subscribedAt.Some? ==> i in s.pending || Reached(s, i) || i in s.dropped;
      }
    }
    if t.snapshot.Some? {
      assert t.history[..t.snapshot.value.at] == if s.snapshot.Some? then s.history[..t.snapshot.value.at]
          else s.history;
    }
  }

  lemma {:induction false} RunsKeepInv<E>(c: Config<E>, states: seq<State<E>>, steps: seq<Step<E>>, n: nat)
    requires IsRun(c, states, steps) && n <= |steps|
    ensures Inv(c, states[n])
  {
    if n > 0 {
      RunsKeepInv(c, states, steps, n - 1);
      StepKeepsInv(c, states[n - 1], steps[n - 1]);
    }
  }

  /** The limit cut nothing off the snapshot. */
  predicate LimitNotHit<E>(c: Config<E>, s: State<E>)
    requires s.snapshot.Some? && s.snapshot.value.at <= |s.history|
  {
    var kept := LastN(s.history[..s.snapshot.value.at], c.size);
    c.limit <= 0 || |Select(kept, |kept|, c.replays)| <= c.limit
  }

  /** What was retained when the snapshot was taken, and is replayed, is in it. */
  lemma RetainedIsShown<E>(c: Config<E>, s: State<E>, i: nat)
    requires Inv(c, s) && s.snapshot.Some? && LimitNotHit(c, s)
    requires s.snapshot.value.at - c.size <= i < s.snapshot.value.at && c.replays(s.history[i])
    ensures s.history[i] in s.snapshot.value.shown
  {
    var at := s.snapshot.value.at;
    var seen := s.history[..at];
    var kept := LastN(seen, c.size);
    assert seen[i] == s.history[i] && s.history[i] in kept by {
      assert |seen| > c.size ==> kept[i - (|seen| - c.size)] == seen[i];
      assert |seen| <= c.size ==> kept[i] == seen[i];
    }
    assert kept[..|kept|] == kept;
    SelectIsExact(kept, |kept|, c.replays, s.history[i]);
  }

  /** No gap: an entry the client wants that was still in the ring when the
      snapshot was taken, or has been appended since, is in the snapshot, has
      reached the client's queue, is on its way there, or was lost to an
      overflow. */
  lemma NoGap<E>(c: Config<E>, states: seq<State<E>>, steps: seq<Step<E>>, n: nat, i: nat)
    requires IsRun(c, states, steps) && n <= |steps|
    requires states[n].snapshot.Some? && states[n].snapshot.value.at <= |states[n].history| && LimitNotHit(c, states[n])
    requires i < |states[n].history| && i + c.size >= states[n].snapshot.value.at
    requires c.matches(states[n].history[i]) && c.replays(states[n].history[i])
    ensures var s := states[n];
      s.history[i] in s.snapshot.value.shown || Reached(s, i) || i in s.pending || i in s.dropped
  {
    RunsKeepInv(c, states, steps, n);
    if i < states[n].subscribedAt.value {
      RetainedIsShown(c, states[n], i);
    }
  }

  /** Nothing is lost to overflow as long as the queue never fills up. */
  lemma {:induction false} RoomyQueueDropsNothing<E>(c: Config<E>, states: seq<State<E>>, steps: seq<Step<E>>, n: nat)
    requires IsRun(c, states, steps) && n <= |steps|
    requires forall m :: 0 <= m < n ==> |states[m].queue| < c.capacity
    ensures states[n].dropped == {}
  {
    if n > 0 {
      RoomyQueueDropsNothing(c, states, steps, n - 1);
      assert states[n] == Do(c, states[n - 1], steps[n - 1]);
    }
  }

  /** So once deliveries have settled, the snapshot and the queue together have everything. */
  lemma SettledMeansComplete<E>(c: Config<E>, states: seq<State<E>>, steps: seq<Step<E>>, n: nat, i: nat)
    requires IsRun(c, states, steps) && n <= |steps| && states[n].pending == {}
    requires forall m :: 0 <= m < n ==> |states[m].queue| < c.capacity
    requires states[n].snapshot.Some? && states[n].snapshot.value.at <= |states[n].history| && LimitNotHit(c, states[n])
    requires i < |states[n].history| && i + c.size >= states[n].snapshot.value.at
    requires c.matches(states[n].history[i]) && c.replays(states[n].history[i])
    ensures states[n].history[i] in states[n].snapshot.value.shown || Reached(states[n], i)
  {
    NoGap(c, states, steps, n, i);
    RoomyQueueDropsNothing(c, states, steps, n);
  }

  /** Everything wanted since the subscription is in the queue, so an entry from
      between the subscription and the snapshot that is still retained then is
      in both. */
  lemma OverlapIsInBoth<E>(c: Config<E>, states: seq<State<E>>, steps: seq<Step<E>>, n: nat, i: nat)
    requires IsRun(c, states, steps) && n <= |steps| && states[n].pending == {}
    requires forall m :: 0 <= m < n ==> |states[m].queue| < c.capacity
    requires states[n].subscribedAt.Some? && states[n].subscribedAt.value <= i < |states[n].history|
    requires c.matches(states[n].history[i]) && c.replays(states[n].history[i])
    ensures var s := states[n];
      && Reached(s, i)
      && (s.snapshot.Some? && s.snapshot.value.at <= |s.history| && LimitNotHit(c, s)
          && s.snapshot.value.at - c.size <= i < s.snapshot.value.at ==>
            s.history[i] in s.snapshot.value.shown)
  {
    RunsKeepInv(c, states, steps, n);
    RoomyQueueDropsNothing(c, states, steps, n);
    var s := states[n];
    if s.snapshot.Some? && s.snapshot.value.at <= |s.history| && LimitNotHit(c, s)
        && s.snapshot.value.at - c.size <= i < s.snapshot.value.at {
      RetainedIsShown(c, s, i);
    }
  }

  predicate Distinct(s: seq<nat>) {
    forall j, k :: 0 <= j < k < |s| ==> s[j] != s[k]
  }

  /** Each entry is delivered at most once, and only entries that match. */
  ghost predicate DeliveredOnce<E>(c: Config<E>, s: State<E>) {
    && (forall i :: i in s.pending ==> i < |s.history| && !Reached(s, i) && i !in s.dropped)
    && (forall i :: Reached(s, i) || i in s.dropped ==> i < |s.history| && c.matches(s.history[i]))
    && (forall i :: i in s.dropped ==> !Reached(s, i))
    && Distinct(s.queue + s.received)
  }

  lemma DistinctMembers(a: seq<nat>, b: seq<nat>, x: nat)
    requires Distinct(a + b)
    ensures x in a ==> x !in b
    ensures a != [] ==> Distinct(a[1..] + (b + [a[0]])) && a[0] !in a[1..] + b && Distinct(a[1..] + b)
  {
    var all := a + b;
    forall j, k | 0 <= j < |a| && 0 <= k < |b|
      ensures a[j] != b[k]
    {
      assert all[j] != all[|a| + k];
    }
    if a != [] {
      assert a[1..] + b == all[1..] && a[1..] + (b + [a[0]]) == all[1..] + [all[0]];
    }
  }

  lemma DistinctExtended(a: seq<nat>, b: seq<nat>, x: nat)
    requires Distinct(a + b) && x !in a && x !in b
    ensures Distinct((a + [x]) + b)
  {
    var all, more := a + b, (a + [x]) + b;
    forall j, k | 0 <= j < k < |more|
      ensures more[j] != more[k]
    {
      if j != |a| && k != |a| {
        assert more[j] == all[if j < |a| then j else j - 1] && more[k] == all[if k < |a| then k else k - 1];
      }
    }
  }

  lemma RoomDeliversOnce<E>(c: Config<E>, s: State<E>, i: nat, t: State<E>)
    requires DeliveredOnce(c, s) && i in s.pending && i < |s.history| && c.matches(s.history[i])
    requires t == s.(pending := s.pending - {i}, queue := s.queue + [i])
    ensures DeliveredOnce(c, t)
  {
    DistinctExtended(s.queue, s.received, i);
    assert forall x :: Reached(t, x) <==> Reached(s, x) || x == i;
  }

  lemma OldestDroppedDeliversOnce<E>(c: Config<E>, s: State<E>, i: nat, t: State<E>)
    requires DeliveredOnce(c, s) && i in s.pending && i < |s.history| && c.matches(s.history[i]) && s.queue != []
    requires t == s.(pending := s.pending - {i}, queue := s.queue[1..] + [i], dropped := s.dropped + {s.queue[0]})
    ensures DeliveredOnce(c, t)
  {
    var oldest := s.queue[0];
    DistinctMembers(s.queue, s.received, oldest);
    assert oldest in s.queue && Reached(s, oldest) && oldest !in s.received && oldest !in s.queue[1..];
    assert forall x :: x in s.queue <==> x == oldest || x in s.queue[1..];
    assert !Reached(s, i);
    DistinctExtended(s.queue[1..], s.received, i);
    assert forall x :: Reached(t, x) <==> x == i || (Reached(s, x) && x != oldest);
  }

  lemma DeliverDeliversOnce<E>(c: Config<E>, s: State<E>, i: nat)
    requires DeliveredOnce(c, s) && Enabled(s, Deliver(i))
    ensures DeliveredOnce(c, Do(c, s, Deliver(i)))
  {
    var t := Do(c, s, Deliver(i));
    if t.queue == s.queue {
      assert forall x :: Reached(t, x) <==> Reached(s, x);
    } else if |s.queue| < c.capacity {
      RoomDeliversOnce(c, s, i, t);
    } else {
      OldestDroppedDeliversOnce(c, s, i, t);
    }
  }

  lemma AppendDeliversOnce<E>(c: Config<E>, s: State<E>, e: E)
    requires DeliveredOnce(c, s)
    ensures DeliveredOnce(c, Do(c, s, Append(e)))
  {
    assert !Reached(s, |s.history|);
  }

  lemma ReceiveDeliversOnce<E>(c: Config<E>, s: State<E>)
    requires DeliveredOnce(c, s) && s.queue != []
    ensures DeliveredOnce(c, Do(c, s, Receive))
  {
    DistinctMembers(s.queue, s.received, 0);
    assert forall x :: x in s.queue <==> x == s.queue[0] || x in s.queue[1..];
    assert forall x :: Reached(Do(c, s, Receive), x) <==> Reached(s, x);
  }

  lemma StepDeliversOnce<E>(c: Config<E>, s: State<E>, step: Step<E>)
    requires DeliveredOnce(c, s) && Enabled(s, step)
    ensures DeliveredOnce(c, Do(c, s, step))
  {
    match step
    case Append(e) => AppendDeliversOnce(c, s, e);
    case Deliver(i) => DeliverDeliversOnce(c, s, i);
    case Receive => ReceiveDeliversOnce(c, s);
    case _ =>
  }

  lemma {:induction false} RunsDeliverOnce<E>(c: Config<E>, states: seq<State<E>>, steps: seq<Step<E>>, n: nat)
    requires IsRun(c, states, steps) && n <= |steps|
    ensures DeliveredOnce(c, states[n])
  {
    if n > 0 {
      RunsDeliverOnce(c, states, steps, n - 1);
      StepDeliversOnce(c, states[n - 1], steps[n - 1]);
    }
  }
}
