/** Traffic points: what the sampler makes of cumulative counters, and what the
    store makes of the points. */
module Traffic {
  import opened Options
  import opened Sequences
  import opened Strings

  datatype Counter = In | Out

  datatype Point = Point(time: int, instance: string, scope: string, key: string, inflow: int, outflow: int, conns: int)
  {
    function Of(counter: Counter): int {
      if counter == In then inflow else outflow
    }
  }

  /** A reading has the shape of a point, with cumulative counters. */
  type Reading = Point

  datatype Cumulative = Cumulative(inflow: int, outflow: int)

  // ---- Counter deltas ----------------------------------------------------

  function Series(r: Reading): string {
    r.instance + "|" + r.scope + "|" + r.key
  }

  /** The series of two readings are kept apart as long as the names of
      instances and scopes contain no bar. */
  lemma SeriesAreApart(a: Reading, b: Reading)
    requires '|' !in a.instance && '|' !in a.scope && '|' !in b.instance && '|' !in b.scope
    ensures Series(a) == Series(b) <==> a.instance == b.instance && a.scope == b.scope && a.key == b.key
  {
    if Series(a) == Series(b) {
      assert Series(a) == a.instance + "|" + (a.scope + "|" + a.key)
          && Series(b) == b.instance + "|" + (b.scope + "|" + b.key);
      BarsApart(a.instance, a.scope + "|" + a.key, b.instance, b.scope + "|" + b.key);
      BarsApart(a.scope, a.key, b.scope, b.key);
    }
  }

  lemma BarsApart(a: string, x: string, b: string, y: string)
    requires '|' !in a && '|' !in b && a + "|" + x == b + "|" + y
    ensures a == b && x == y
  {
    var s := a + "|" + x;
    assert forall i :: 0 <= i < |a| ==> a[i] in a;
    assert forall i :: 0 <= i < |b| ==> b[i] in b;
    BeforeUnique(s, a, {'|'});
    BeforeUnique(s, b, {'|'});
    assert s[|a| + 1..] == x && s[|b| + 1..] == y;
  }

  function Rise(before: int, now: int): (d: int)
    ensures d >= 0
  {
    if now >= before then now - before else 0
  }

  /** The latest of the first n readings of a series. */
  function Latest(readings: seq<Reading>, n: nat, series: string): Option<Cumulative>
    requires n <= |readings|
  {
    if n == 0 then None
    else if Series(readings[n - 1]) == series then Some(Cumulative(readings[n - 1].inflow, readings[n - 1].outflow))
    else Latest(readings, n - 1, series)
  }

  /** The point a reading yields, given the latest one of its series. */
  function Delta(latest: Option<Cumulative>, r: Reading): Point {
    Point(r.time, r.instance, r.scope, r.key,
          if latest == None then 0 else Rise(latest.value.inflow, r.inflow),
          if latest == None then 0 else Rise(latest.value.outflow, r.outflow),
          r.conns)
  }

  class Sampler {
    var prev: map<string, Cumulative>

    /** Every reading taken. */
    ghost var readings: seq<Reading>

    ghost predicate Valid()
      reads this
    {
      forall k :: (if k in prev then Some(prev[k]) else None) == Latest(readings, |readings|, k)
    }

    constructor ()
      ensures Valid() && readings == []
    {
      prev, readings := map[], [];
    }

    method Take(r: Reading) returns (p: Point)
      requires Valid()
      modifies this
      ensures Valid() && readings == old(readings) + [r]
      ensures p == Delta(Latest(old(readings), |old(readings)|, Series(r)), r)
    {
      var k := Series(r);
      var dIn, dOut := 0, 0;
      assert (if k in prev then Some(prev[k]) else None) == Latest(readings, |readings|, k);
      if k in prev {
        if r.inflow >= prev[k].inflow {
          dIn := r.inflow - prev[k].inflow;
        }
        if r.outflow >= prev[k].outflow {
          dOut := r.outflow - prev[k].outflow;
        }
      }
      forall s {
        LatestNext(readings, r, s);
      }
      prev := prev[k := Cumulative(r.inflow, r.outflow)];
      readings := readings + [r];
      p := Point(r.time, r.instance, r.scope, r.key, dIn, dOut, r.conns);
    }
  }

  /** A point is that of its reading, with the gauge as it is; the first reading of
      a series reports no traffic, a counter that has not fallen reports how far it
      has come, and one that has fallen reports nothing. */
  lemma DeltaIsExact(latest: Option<Cumulative>, r: Reading)
    ensures var p := Delta(latest, r);
      && p.time == r.time && p.instance == r.instance && p.scope == r.scope && p.key == r.key && p.conns == r.conns
      && (latest == None ==> p.inflow == 0 && p.outflow == 0)
      && (latest.Some? ==>
            && (if r.inflow < latest.value.inflow then p.inflow == 0 else latest.value.inflow + p.inflow == r.inflow)
            && (if r.outflow < latest.value.outflow then p.outflow == 0
                else latest.value.outflow + p.outflow == r.outflow))
  {
  }

  lemma {:induction false} LatestPrefix(readings: seq<Reading>, r: Reading, n: nat, series: string)
    requires n <= |readings|
    ensures Latest(readings + [r], n, series) == Latest(readings, n, series)
  {
    if n > 0 {
      LatestPrefix(readings, r, n - 1, series);
    }
  }

  lemma LatestNext(readings: seq<Reading>, r: Reading, series: string)
    ensures Latest(readings + [r], |readings| + 1, series)
         == if Series(r) == series then Some(Cumulative(r.inflow, r.outflow)) else Latest(readings, |readings|, series)
  {
    LatestPrefix(readings, r, |readings|, series);
  }

  /** All that the points of a series report for one of the two counters. */
  function Reported(readings: seq<Reading>, n: nat, series: string, counter: Counter): int
    requires n <= |readings|
  {
    if n == 0 then 0
    else Reported(readings, n - 1, series, counter)
         + if Series(readings[n - 1]) == series then Delta(Latest(readings, n - 1, series), readings[n - 1]).Of(counter)
             else 0
  }

  function Own(readings: seq<Reading>, n: nat, series: string): seq<Reading>
    requires n <= |readings|
  {
    Select(readings, n, (r: Reading) => Series(r) == series)
  }

  /** The sum of a counter's upward steps. */
  function Climb(own: seq<Reading>, n: nat, counter: Counter): nat
    requires n <= |own|
  {
    if n <= 1 then 0 else Climb(own, n - 1, counter) + Rise(own[n - 2].Of(counter), own[n - 1].Of(counter))
  }

  lemma {:induction false} ClimbPrefix(own: seq<Reading>, r: Reading, n: nat, counter: Counter)
    requires n <= |own|
    ensures Climb(own + [r], n, counter) == Climb(own, n, counter)
  {
    if n > 1 {
      ClimbPrefix(own, r, n - 1, counter);
    }
  }

  lemma {:induction false} LatestIsOwnLast(readings: seq<Reading>, n: nat, series: string)
    requires n <= |readings|
    ensures var own := Own(readings, n, series);
      Latest(readings, n, series) == if own == [] then None
          else Some(Cumulative(own[|own| - 1].inflow, own[|own| - 1].outflow))
  {
    if n > 0 {
      LatestIsOwnLast(readings, n - 1, series);
    }
  }

  /** Conservation: however the readings of other series come in between, what a
      series reports is the sum of its own counter's upward steps. */
  lemma {:induction false} ReportedIsClimb(readings: seq<Reading>, n: nat, series: string, counter: Counter)
    requires n <= |readings|
    ensures var own := Own(readings, n, series);
      Reported(readings, n, series, counter) == Climb(own, |own|, counter)
  {
    if n > 0 {
      ReportedIsClimb(readings, n - 1, series, counter);
      LatestIsOwnLast(readings, n - 1, series);
      var own := Own(readings, n - 1, series);
      ClimbPrefix(own, readings[n - 1], |own|, counter);
      assert Own(readings, n, series) == if Series(readings[n - 1]) == series then own + [readings[n - 1]] else own;
    }
  }

  ghost predicate NeverFalls(own: seq<Reading>, n: nat, counter: Counter)
    requires n <= |own|
  {
    forall i :: 0 < i < n ==> own[i - 1].Of(counter) <= own[i].Of(counter)
  }

  /** It is the difference between the last and the first reading exactly if the
      counter never fell, and more otherwise. */
  lemma {:induction false} ClimbIsDifferenceIff(own: seq<Reading>, n: nat, counter: Counter)
    requires 0 < n <= |own|
    ensures Climb(own, n, counter) >= own[n - 1].Of(counter) - own[0].Of(counter)
    ensures Climb(own, n, counter) == own[n - 1].Of(counter) - own[0].Of(counter) <==> NeverFalls(own, n, counter)
  {
    if n > 1 {
      ClimbIsDifferenceIff(own, n - 1, counter);
      assert NeverFalls(own, n, counter)
          <==> NeverFalls(own, n - 1, counter) && own[n - 2].Of(counter) <= own[n - 1].Of(counter);
    }
  }

  // ---- The table of points -----------------------------------------------

  datatype Query = Query(instance: string, scope: string, key: string, from: int, to: int, step: int)

  datatype Bucket = Bucket(time: int, inflow: int, outflow: int, conns: int)
  {
    function Of(counter: Counter): int {
      if counter == In then inflow else outflow
    }
  }

  predicate Matches(q: Query, p: Point) {
    p.instance == q.instance && p.scope == q.scope && p.key == q.key && q.from <= p.time <= q.to
  }

  /** Division that truncates toward zero, as the database divides. */
  function Quotient(a: int, b: int): int
    requires b > 0
  {
    if a >= 0 then a / b else -(-a / b)
  }

  function Start(time: int, step: int): int {
    var step := if step <= 0 then 60 else step;
    Quotient(time, step) * step
  }

  /** A bucket covers one step, except that the bucket at 0 covers almost two. */
  lemma StartIsNear(time: int, step: int)
    requires step > 0
    ensures time >= 0 ==> Start(time, step) <= time < Start(time, step) + step
    ensures time < 0 ==> Start(time, step) - step < time <= Start(time, step)
  {
  }

  function Merged(b: Option<Bucket>, at: int, p: Point): Bucket {
    if b == None then Bucket(at, p.inflow, p.outflow, p.conns)
    else Bucket(at, b.value.inflow + p.inflow, b.value.outflow + p.outflow,
        if p.conns > b.value.conns then p.conns else b.value.conns)
  }

  /** Adds p to the bucket that starts at `at`, keeping the buckets in order. */
  function Put(buckets: seq<Bucket>, at: int, p: Point): seq<Bucket> {
    if buckets == [] || at < buckets[0].time then [Merged(None, at, p)] + buckets
    else if at == buckets[0].time then [Merged(Some(buckets[0]), at, p)] + buckets[1..]
    else [buckets[0]] + Put(buckets[1..], at, p)
  }

  function Answer(rows: seq<Point>, n: nat, q: Query): seq<Bucket>
    requires n <= |rows|
  {
    if n == 0 then []
    else if Matches(q, rows[n - 1]) then Put(Answer(rows, n - 1, q), Start(rows[n - 1].time, q.step), rows[n - 1])
    else Answer(rows, n - 1, q)
  }

  // ---- What the answer means ---------------------------------------------

  ghost predicate InOrder(buckets: seq<Bucket>) {
    forall i, j :: 0 <= i < j < |buckets| ==> buckets[i].time < buckets[j].time
  }

  function Lookup(buckets: seq<Bucket>, at: int): Option<Bucket> {
    if buckets == [] then None
    else if buckets[0].time == at then Some(buckets[0])
    else Lookup(buckets[1..], at)
  }

  /** The points of one bucket. */
  function Members(rows: seq<Point>, n: nat, q: Query, at: int): seq<Point>
    requires n <= |rows|
  {
    Select(rows, n, (p: Point) => Matches(q, p) && Start(p.time, q.step) == at)
  }

  function Total(points: seq<Point>, n: nat, counter: Counter): int
    requires n <= |points|
  {
    if n == 0 then 0 else Total(points, n - 1, counter) + points[n - 1].Of(counter)
  }

  ghost predicate Peak(points: seq<Point>, conns: int) {
    (exists p :: p in points && p.conns == conns) && forall p :: p in points ==> p.conns <= conns
  }

  /** The bucket that describes the points: sums of the deltas, maximum of the gauge. */
  ghost predicate Describes(b: Option<Bucket>, at: int, points: seq<Point>) {
    match b
    case None => points == []
    case Some(v) =>
      && v.time == at && v.inflow == Total(points, |points|, In) && v.outflow == Total(points, |points|, Out)
      && Peak(points, v.conns)
  }

  lemma {:induction false} PutInOrder(buckets: seq<Bucket>, at: int, p: Point)
    requires InOrder(buckets)
    ensures InOrder(Put(buckets, at, p))
    ensures forall b :: b in Put(buckets, at, p) ==> b.time == at || b in buckets
  {
    if buckets != [] && at > buckets[0].time {
      PutInOrder(buckets[1..], at, p);
      assert forall b :: b in buckets[1..] ==> b.time > buckets[0].time;
    }
  }

  lemma {:induction false} PutLookup(buckets: seq<Bucket>, at: int, p: Point, t: int)
    requires InOrder(buckets)
    ensures Lookup(Put(buckets, at, p), t) == if t == at then Some(Merged(Lookup(buckets, at), at, p))
        else Lookup(buckets, t)
  {
    if buckets != [] && at > buckets[0].time {
      PutLookup(buckets[1..], at, p, t);
    } else if buckets != [] && at < buckets[0].time {
      LookupAbsent(buckets, at);
    }
  }

  lemma {:induction false} LookupAbsent(buckets: seq<Bucket>, at: int)
    requires forall b :: b in buckets ==> b.time != at
    ensures Lookup(buckets, at) == None
  {
    if buckets != [] {
      assert buckets[0] in buckets;
      LookupAbsent(buckets[1..], at);
    }
  }

  lemma {:induction false} TotalPrefix(points: seq<Point>, p: Point, n: nat, counter: Counter)
    requires n <= |points|
    ensures Total(points + [p], n, counter) == Total(points, n, counter)
  {
    if n > 0 {
      TotalPrefix(points, p, n - 1, counter);
    }
  }

  lemma MergedDescribes(b: Option<Bucket>, at: int, points: seq<Point>, p: Point)
    requires Describes(b, at, points)
    ensures Describes(Some(Merged(b, at, p)), at, points + [p])
  {
    TotalPrefix(points, p, |points|, In);
    TotalPrefix(points, p, |points|, Out);
    assert p in points + [p];
    if b.Some? {
      var top :| top in points && top.conns == b.value.conns;
      assert top in points + [p];
    }
  }

  /** The answer is in time order and has, for every start, exactly the bucket
      that describes the matching points that fall into it, and none if no
      point does. */
  lemma {:induction false} AnswerIsExact(rows: seq<Point>, n: nat, q: Query, at: int)
    requires n <= |rows|
    ensures InOrder(Answer(rows, n, q))
    ensures Describes(Lookup(Answer(rows, n, q), at), at, Members(rows, n, q, at))
  {
    if n > 0 {
      AnswerIsExact(rows, n - 1, q, at);
      var p, members := rows[n - 1], Members(rows, n - 1, q, at);
      assert Members(rows, n, q, at) == if Matches(q, p) && Start(p.time, q.step) == at then members + [p] else members;
      if Matches(q, p) {
        var start := Start(p.time, q.step);
        PutInOrder(Answer(rows, n - 1, q), start, p);
        PutLookup(Answer(rows, n - 1, q), start, p, at);
        if start == at {
          MergedDescribes(Lookup(Answer(rows, n - 1, q), at), at, members, p);
        }
      }
    }
  }

  lemma {:induction false} AnswerPrefix(rows: seq<Point>, p: Point, n: nat, q: Query)
    requires n <= |rows|
    ensures Answer(rows + [p], n, q) == Answer(rows, n, q)
  {
    if n > 0 {
      AnswerPrefix(rows, p, n - 1, q);
    }
  }

  /** One more point counts towards a query exactly if it is of the same instance,
      scope and key and its time is neither before the query's beginning nor
      after its end; then it adds its deltas to the bucket of its time, where the
      greatest gauge is kept, and changes no other bucket. */
  lemma OnePointCounts(rows: seq<Point>, p: Point, q: Query, t: int)
    ensures var before, after := Answer(rows, |rows|, q), Answer(rows + [p], |rows| + 1, q);
      if p.instance != q.instance || p.scope != q.scope || p.key != q.key || p.time < q.from || p.time > q.to then
        after == before
      else
        var at := Start(p.time, q.step);
        var b, b' := Lookup(before, at), Lookup(after, at);
        && b'.Some? && b'.value.time == at
        && (b == None ==> b'.value.inflow == p.inflow && b'.value.outflow == p.outflow && b'.value.conns == p.conns)
        && (b.Some? ==>
              && b'.value.inflow == b.value.inflow + p.inflow && b'.value.outflow == b.value.outflow + p.outflow
              && b'.value.conns >= b.value.conns && b'.value.conns >= p.conns
                  && b'.value.conns in {b.value.conns, p.conns})
        && (t != at ==> Lookup(after, t) == Lookup(before, t))
  {
    AnswerPrefix(rows, p, |rows|, q);
    AnswerIsExact(rows, |rows|, q, t);
    PutLookup(Answer(rows, |rows|, q), Start(p.time, q.step), p, t);
    PutLookup(Answer(rows, |rows|, q), Start(p.time, q.step), p, Start(p.time, q.step));
    AnswerIsExact(rows, |rows|, q, Start(p.time, q.step));
  }

  /** Without a step of its own a query takes minutes. */
  lemma StepsDefaultToMinutes(time: int, step: int)
    requires step <= 0
    ensures Start(time, step) == Start(time, 60)
  {
  }

  function Sum(buckets: seq<Bucket>, counter: Counter): int {
    if buckets == [] then 0 else buckets[0].Of(counter) + Sum(buckets[1..], counter)
  }

  function SumMatching(rows: seq<Point>, n: nat, q: Query, counter: Counter): int
    requires n <= |rows|
  {
    if n == 0 then 0
    else SumMatching(rows, n - 1, q, counter) + if Matches(q, rows[n - 1]) then rows[n - 1].Of(counter) else 0
  }

  lemma {:induction false} PutAdds(buckets: seq<Bucket>, at: int, p: Point, counter: Counter)
    ensures Sum(Put(buckets, at, p), counter) == Sum(buckets, counter) + p.Of(counter)
  {
    if buckets != [] && at > buckets[0].time {
      PutAdds(buckets[1..], at, p, counter);
    }
  }

  /** Every matching point is counted in exactly one bucket. */
  lemma {:induction false} BucketsConserve(rows: seq<Point>, n: nat, q: Query, counter: Counter)
    requires n <= |rows|
    ensures Sum(Answer(rows, n, q), counter) == SumMatching(rows, n, q, counter)
  {
    if n > 0 {
      BucketsConserve(rows, n - 1, q, counter);
      if Matches(q, rows[n - 1]) {
        PutAdds(Answer(rows, n - 1, q), Start(rows[n - 1].time, q.step), rows[n - 1], counter);
      }
    }
  }

  /** Pruning does not change the answer to a query that starts at or after the cutoff. */
  lemma {:induction false} PruningIsInvisible(rows: seq<Point>, n: nat, cutoff: int, q: Query)
    requires n <= |rows| && q.from >= cutoff
    ensures var kept := Select(rows, n, NotBefore(cutoff));
      Answer(kept, |kept|, q) == Answer(rows, n, q)
  {
    if n > 0 {
      PruningIsInvisible(rows, n - 1, cutoff, q);
      var kept := Select(rows, n - 1, NotBefore(cutoff));
      AnswerPrefix(kept, rows[n - 1], |kept|, q);
      assert Select(rows, n, NotBefore(cutoff)) == if rows[n - 1].time >= cutoff then kept + [rows[n - 1]] else kept;
    }
  }

  function NotBefore(cutoff: int): Point -> bool {
    (p: Point) => p.time >= cutoff
  }

  class Store {
    var rows: seq<Point>

    constructor ()
      ensures rows == []
    {
      rows := [];
    }

    /** One transaction: all of the points or, when a statement or the commit
        fails, none. */
    method InsertTraffic(points: seq<Point>, fails: nat -> bool) returns (ok: bool)
      modifies this
      ensures ok <==> points == [] || forall i :: 0 <= i <= |points| ==> !fails(i)
      ensures rows == if ok then old(rows) + points else old(rows)
    {
      if |points| == 0 {
        return true;
      }
      var tx := rows;
      for i := 0 to |points|
        invariant rows == old(rows) && tx == rows + points[..i]
        invariant forall j :: 0 <= j < i ==> !fails(j)
      {
        if fails(i) {
          return false;
        }
        tx := tx + [points[i]];
      }
      ok := !fails(|points|);
      if ok {
        rows := tx;
      }
    }

    method QueryTraffic(q: Query) returns (out: seq<Bucket>)
      ensures out == Answer(rows, |rows|, q)
    {
      out := [];
      for i := 0 to |rows|
        invariant out == Answer(rows, i, q)
      {
        if Matches(q, rows[i]) {
          out := Put(out, Start(rows[i].time, q.step), rows[i]);
        }
      }
    }

    method PruneBefore(cutoff: int) returns (removed: nat)
      modifies this
      ensures rows == Select(old(rows), |old(rows)|, NotBefore(cutoff))
      ensures removed == |old(rows)| - |rows|
    {
      var kept := [];
      for i := 0 to |rows|
        invariant rows == old(rows) && kept == Select(rows, i, NotBefore(cutoff))
      {
        if rows[i].time >= cutoff {
          kept := kept + [rows[i]];
        }
      }
      removed := |rows| - |kept|;
      rows := kept;
    }
  }
}
