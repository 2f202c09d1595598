/** The event bus: recent events in a buffer that is shifted in place, and
    fan-out to subscribers with bounded queues. */
module EventBus {
  import opened Sequences
  import opened Rings

  datatype Event = Event(number: nat, kind: string, config: string, time: int, data: string)

  /** `Everything` is the nil filter. */
  datatype Filter = Everything | Only(kinds: seq<string>, configs: seq<string>)

  predicate Accepted(f: Filter, e: Event) {
    f.Only? ==> (f.kinds != [] ==> e.kind in f.kinds) && (f.configs != [] ==> e.config in f.configs)
  }

  /** Each list restricts on its own, and both together; an empty one does not. */
  lemma BothListsRestrict(kinds: seq<string>, configs: seq<string>, e: Event)
    ensures Accepted(Everything, e) && Accepted(Only([], []), e)
    ensures kinds != [] ==> (Accepted(Only(kinds, []), e) <==> exists i :: 0 <= i < |kinds| && kinds[i] == e.kind)
    ensures configs != [] ==> (Accepted(Only([], configs), e)
        <==> exists i :: 0 <= i < |configs| && configs[i] == e.config)
    ensures Accepted(Only(kinds, configs), e) <==> Accepted(Only(kinds, []), e) && Accepted(Only([], configs), e)
  {
  }

  method Listed(x: string, list: seq<string>) returns (ok: bool)
    ensures ok <==> x in list
  {
    for i := 0 to |list|
      invariant x !in list[..i]
    {
      if list[i] == x {
        return true;
      }
    }
    return false;
  }

  method Accepts(f: Filter, e: Event) returns (ok: bool)
    ensures ok <==> Accepted(f, e)
  {
    if f.Everything? {
      return true;
    }
    if |f.kinds| > 0 {
      ok := Listed(e.kind, f.kinds);
      if !ok {
        return false;
      }
    }
    if |f.configs| > 0 {
      ok := Listed(e.config, f.configs);
      if !ok {
        return false;
      }
    }
    return true;
  }

  // ---- Bounded queues ----------------------------------------------------

  /** A full queue of the bus turns the new event away. */
  function Offered<E>(queue: seq<E>, capacity: nat, wanted: bool, e: E): seq<E> {
    if wanted && |queue| < capacity then queue + [e] else queue
  }

  function OfferedAll<E>(events: seq<E>, n: nat, capacity: nat, wanted: E -> bool): seq<E>
    requires n <= |events|
  {
    if n == 0 then []
    else Offered(OfferedAll(events, n - 1, capacity, wanted), capacity, wanted(events[n - 1]), events[n - 1])
  }

  /** A full queue of the log tailer gives up its oldest entry instead. */
  function Pushed<E>(queue: seq<E>, capacity: nat, wanted: bool, e: E): seq<E>
    requires capacity > 0
  {
    if !wanted then queue else if |queue| < capacity then queue + [e] else queue[1..] + [e]
  }

  function PushedAll<E>(events: seq<E>, n: nat, capacity: nat, wanted: E -> bool): seq<E>
    requires n <= |events| && capacity > 0
  {
    if n == 0 then []
    else Pushed(PushedAll(events, n - 1, capacity, wanted), capacity, wanted(events[n - 1]), events[n - 1])
  }

  function FirstN<E>(s: seq<E>, n: nat): seq<E> {
    if |s| <= n then s else s[..n]
  }

  /** A subscriber that never reads finds the first events it wanted in a queue
      of the bus, and the last ones in a queue of the tailer. */
  lemma {:induction false} UnreadQueues<E>(events: seq<E>, n: nat, capacity: nat, wanted: E -> bool)
    requires n <= |events| && capacity > 0
    ensures OfferedAll(events, n, capacity, wanted) == FirstN(Select(events, n, wanted), capacity)
    ensures PushedAll(events, n, capacity, wanted) == LastN(Select(events, n, wanted), capacity)
  {
    if n > 0 {
      UnreadQueues(events, n - 1, capacity, wanted);
    }
  }

  // ---- The bus -----------------------------------------------------------

  class Subscription {
    const id: nat
    const capacity: nat
    var filter: Filter
    var queue: seq<Event>
    var closed: bool

    constructor (id: nat, capacity: nat, filter: Filter)
      ensures this.id == id && this.capacity == capacity && this.filter == filter
      ensures queue == [] && !closed
    {
      this.id, this.capacity, this.filter := id, capacity, filter;
      queue, closed := [], false;
    }

    /** A closed channel still hands out what was queued before. */
    method Receive() returns (e: Event)
      requires queue != []
      modifies this`queue
      ensures [e] + queue == old(queue)
    {
      e, queue := queue[0], queue[1..];
    }

    ghost predicate Overflows(e: Event)
      reads this
    {
      Accepted(filter, e) && |queue| >= capacity
    }

    ghost function Queued(e: Event): seq<Event>
      reads this
    {
      Offered(queue, capacity, Accepted(filter, e), e)
    }

    method Offer(e: Event) returns (full: bool)
      modifies this`queue
      ensures queue == old(Queued(e)) && full == old(Overflows(e))
    {
      full := false;
      var ok := Accepts(filter, e);
      if ok {
        if |queue| < capacity {
          queue := queue + [e];
        } else {
          full := true;
        }
      }
    }

    method SetFilter(f: Filter)
      modifies this`filter
      ensures filter == f
    {
      filter := f;
    }
  }

  function Window(history: seq<Event>, from: nat, to: nat): seq<Event>
    requires to <= |history|
  {
    if from <= to then history[from..to] else []
  }

  /** The position of the oldest event that is still held and numbered above `since`. */
  function Oldest(since: nat, published: nat, size: nat): nat {
    var gone := if published <= size then 0 else published - size;
    if since > gone then since else gone
  }

  lemma KeptFrom(history: seq<Event>, size: nat)
    ensures LastN(history, size) == history[if |history| <= size then 0 else |history| - size..]
  {
  }

  lemma InSuffix(history: seq<Event>, from: nat, e: Event)
    requires from <= |history| && forall i :: 0 <= i < |history| ==> history[i].number == i + 1
    ensures e in history[from..] <==> 0 < e.number <= |history| && history[e.number - 1] == e && e.number > from
  {
    if 0 < e.number <= |history| && history[e.number - 1] == e && e.number > from {
      assert history[from..][e.number - 1 - from] == e;
    }
  }

  /** Of numbered events that window holds exactly those with a higher number
      among the newest that fit, in order. */
  lemma SinceIsExact(history: seq<Event>, since: nat, size: nat, e: Event)
    requires forall i :: 0 <= i < |history| ==> history[i].number == i + 1
    ensures var out := Window(history, Oldest(since, |history|, size), |history|);
      && (e in out <==> e in LastN(history, size) && e.number > since)
      && |out| <= |history| && out == history[|history| - |out|..]
  {
    var gone := if |history| <= size then 0 else |history| - size;
    var from := Oldest(since, |history|, size);
    KeptFrom(history, size);
    InSuffix(history, gone, e);
    if from <= |history| {
      InSuffix(history, from, e);
    }
  }

  /** What an event does to a subscriber: one that does not want it is left alone,
      one with room gets it behind the others, and only one that wants it and has
      no room counts as a loss. */
  lemma DeliveryIsExact(s: Subscription, e: Event)
    ensures !Accepted(s.filter, e) ==> s.Queued(e) == s.queue && !s.Overflows(e)
    ensures Accepted(s.filter, e) && |s.queue| < s.capacity ==> s.Queued(e) == s.queue + [e] && !s.Overflows(e)
    ensures Accepted(s.filter, e) && |s.queue| >= s.capacity ==> s.Queued(e) == s.queue && s.Overflows(e)
    ensures forall all: set<Subscription> :: s in Overflowing(all, e) <==>
              s in all && Accepted(s.filter, e) && |s.queue| >= s.capacity
  {
  }

  lemma WindowNext(history: seq<Event>, from: nat, to: nat)
    requires to < |history|
    ensures Window(history, from, to + 1) == Window(history, from, to) + if from <= to then [history[to]] else []
  {
  }

  /** Those of a set of subscribers that want e and have no room for it. */
  ghost function Overflowing(all: set<Subscription>, e: Event): set<Subscription>
    reads all
  {
    set s | s in all && s.Overflows(e)
  }

  lemma OneMoreDone<T>(over: set<T>, todo: set<T>, s: T)
    requires s in todo
    ensures |over - (todo - {s})| == |over - todo| + if s in over then 1 else 0
  {
    assert over - (todo - {s}) == (over - todo) + (if s in over then {s} else {});
  }

  /** Offers e to some subscriber. */
  method OfferNext(todo: set<Subscription>, e: Event) returns (s: Subscription, full: bool)
    requires todo != {}
    modifies todo`queue
    ensures s in todo && s.queue == old(s.Queued(e)) && full == old(s.Overflows(e))
    ensures forall o :: o in todo && o != s ==> o.queue == old(o.queue)
  {
    s :| s in todo;
    full := s.Offer(e);
  }

  /** Offers e to every subscriber, in no particular order, and counts the refusals. */
  method FanOut(all: set<Subscription>, e: Event) returns (refused: nat)
    modifies all`queue
    ensures forall s :: s in all ==> s.queue == old(s.Queued(e))
    ensures refused == |old(Overflowing(all, e))|
  {
    ghost var over := Overflowing(all, e);
    var todo := all;
    refused := 0;
    while todo != {}
      invariant todo <= all
      invariant forall s :: s in todo ==> s.queue == old(s.queue)
      invariant forall s :: s in all && s !in todo ==> s.queue == old(s.Queued(e))
      invariant refused == |over - todo|
      decreases todo
    {
      var s, full := OfferNext(todo, e);
      OneMoreDone(over, todo, s);
      refused := refused + if full then 1 else 0;
      todo := todo - {s};
    }
    assert over - todo == over;
  }

  class Bus {
    const ring: array<Event>
    var used: nat
    var subs: map<nat, Subscription>
    var lastSub: nat
    var lastNumber: nat
    var dropped: nat

    /** Every event ever published. */
    ghost var history: seq<Event>

    ghost predicate RingValid()
      reads this`used, this`history, ring
    {
      0 < ring.Length && used <= ring.Length && ring[..used] == LastN(history, ring.Length)
    }

    ghost predicate Valid()
      reads this, ring, subs.Values
    {
      && RingValid()
      && lastNumber == |history| && (forall i :: 0 <= i < |history| ==> history[i].number == i + 1)
      && (forall id :: id in subs ==> id <= lastSub && subs[id].id == id && !subs[id].closed)
    }

    constructor (ringCap: int)
      ensures Valid() && history == [] && subs == map[] && dropped == 0 && lastSub == 0
      ensures fresh(ring) && ring.Length == if ringCap <= 0 then 1024 else ringCap
    {
      var zero := Event(0, "", "", 0, "");
      ring := new Event[if ringCap <= 0 then 1024 else ringCap](_ => zero);
      used, subs, lastSub, lastNumber, dropped, history := 0, map[], 0, 0, 0, [];
    }

    method AppendRing(e: Event)
      requires RingValid()
      modifies this`used, this`history, ring
      ensures RingValid() && history == old(history) + [e]
    {
      if used < ring.Length {
        ring[used] := e;
        used := used + 1;
      } else {
        CopyDown(ring, 0, ring, 1, used);
        ring[used - 1] := e;
      }
      history := history + [e];
    }

    method Publish(kind: string, config: string, time: int, data: string)
      requires Valid()
      modifies this, ring, subs.Values`queue
      ensures Valid() && subs == old(subs) && lastSub == old(lastSub)
      ensures var e := Event(|old(history)| + 1, kind, config, time, data);
        && history == old(history) + [e]
        && (forall s :: s in subs.Values ==> s.queue == old(s.Queued(e)))
        && dropped == old(dropped) + |old(Overflowing(subs.Values, e))|
    {
      lastNumber := lastNumber + 1;
      var e := Event(lastNumber, kind, config, time, data);
      AppendRing(e);
      var refused := FanOut(subs.Values, e);
      dropped := dropped + refused;
    }

    method Subscribe(filter: Filter, bufSize: int) returns (s: Subscription)
      requires Valid()
      modifies this`subs, this`lastSub
      ensures Valid() && fresh(s) && s.filter == filter && s.queue == [] && !s.closed
      ensures s.capacity == (if bufSize <= 0 then 64 else bufSize)
      ensures lastSub == old(lastSub) + 1 && s.id == lastSub && s.id !in old(subs) && subs == old(subs)[s.id := s]
    {
      lastSub := lastSub + 1;
      s := new Subscription(lastSub, if bufSize <= 0 then 64 else bufSize, filter);
      subs := subs[lastSub := s];
    }

    method Remove(id: nat)
      requires Valid()
      modifies this`subs, subs.Values`closed
      ensures Valid() && subs == old(subs) - {id}
      ensures forall i :: i in old(subs) ==> (old(subs)[i].closed <==> i == id)
    {
      if id in subs {
        subs[id].closed := true;
        subs := subs - {id};
      }
    }

    method Stop()
      requires Valid()
      modifies this`subs, subs.Values`closed
      ensures Valid() && subs == map[]
      ensures forall i :: i in old(subs) ==> old(subs)[i].closed
    {
      while subs != map[]
        invariant forall i :: i in subs ==> i in old(subs) && subs[i] == old(subs)[i]
        invariant forall i :: i in old(subs) ==> (old(subs)[i].closed <==> i !in subs)
        invariant Valid()
        decreases subs.Keys
      {
        var id :| id in subs;
        subs[id].closed := true;
        subs := subs - {id};
      }
    }

    /** Exactly the events with a higher number that the ring still holds, in order. */
    method Since(since: nat) returns (out: seq<Event>)
      requires Valid()
      ensures out == Window(history, Oldest(since, |history|, ring.Length), |history|)
    {
      out := [];
      assert used == |ring[..used]|;
      ghost var kept := |history| - used;
      ghost var from := Oldest(since, |history|, ring.Length);
      for i := 0 to used
        invariant out == Window(history, from, kept + i)
      {
        WindowNext(history, from, kept + i);
        assert ring[i] == ring[..used][i] == history[kept + i];
        if ring[i].number > since {
          out := out + [ring[i]];
        }
      }
    }
  }
}
