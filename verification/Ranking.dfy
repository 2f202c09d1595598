/** Sorting and choosing the first few by an arbitrary strict total order. */
module Ranking {

  ghost predicate StrictTotal<T(!new)>(r: (T, T) -> bool) {
    && (forall a :: !r(a, a))
    && (forall a, b :: a == b || r(a, b) || r(b, a))
    && (forall a, b, c :: r(a, b) && r(b, c) ==> r(a, c))
  }

  ghost predicate Ordered<T>(r: (T, T) -> bool, s: seq<T>) {
    forall i, j :: 0 <= i < j < |s| ==> r(s[i], s[j])
  }

  ghost function Elements<T>(s: seq<T>): set<T> {
    set v | v in s
  }

  /** v placed behind the leading elements that r puts strictly before it. */
  function Insert<T>(r: (T, T) -> bool, v: T, s: seq<T>): seq<T> {
    if s == [] || !r(s[0], v) then [v] + s else [s[0]] + Insert(r, v, s[1..])
  }

  /** Stable insertion sort: of two elements that r does not separate, the
      earlier one stays in front. */
  function Sort<T>(r: (T, T) -> bool, s: seq<T>): seq<T> {
    if s == [] then [] else Insert(r, s[0], Sort(r, s[1..]))
  }

  lemma {:induction false} InsertOrdered<T(!new)>(r: (T, T) -> bool, full: (T, T) -> bool, v: T, s: seq<T>)
    requires StrictTotal(full) && Ordered(full, s)
    requires forall x :: x in s ==> if r(x, v) then full(x, v) else full(v, x)
    ensures Ordered(full, Insert(r, v, s)) && Elements(Insert(r, v, s)) == Elements(s) + {v}
  {
    if s != [] && r(s[0], v) {
      var t := Insert(r, v, s[1..]);
      InsertOrdered(r, full, v, s[1..]);
      assert s == [s[0]] + s[1..];
      forall x | x in t
        ensures full(s[0], x)
      {
        assert x in Elements(t);
      }
      assert forall x :: x in [s[0]] + t <==> x == s[0] || x in Elements(t);
    } else if s != [] {
      assert full(v, s[0]);
    }
  }

  /** Sorting stably by r what is already ordered by `tie` orders it by `full`,
      when full is r with ties broken by tie. */
  lemma {:induction false} SortOrdered<T(!new)>(r: (T, T) -> bool, tie: (T, T) -> bool, full: (T, T) -> bool, s: seq<T>)
    requires StrictTotal(full) && Ordered(tie, s)
    requires forall a, b :: r(a, b) ==> full(a, b)
    requires forall a, b :: !r(b, a) && tie(a, b) ==> full(a, b)
    ensures Ordered(full, Sort(r, s)) && Elements(Sort(r, s)) == Elements(s)
  {
    if s != [] {
      var t := Sort(r, s[1..]);
      SortOrdered(r, tie, full, s[1..]);
      assert s == [s[0]] + s[1..];
      forall x | x in t
        ensures tie(s[0], x)
      {
        assert x in Elements(t);
      }
      InsertOrdered(r, full, s[0], t);
    }
  }

  /** The elements of c, in order. */
  ghost function InOrder<T(!new)>(r: (T, T) -> bool, c: set<T>): (list: seq<T>)
    requires StrictTotal(r)
    ensures Ordered(r, list) && Elements(list) == c
    decreases c
  {
    if c == {} then []
    else
      var v :| v in c;
      var list := InOrder(r, c - {v});
      assert forall x :: x in list ==> x in Elements(list);
      InsertOrdered(r, r, v, list);
      Insert(r, v, list)
  }

  // ---- The first few -----------------------------------------------------

  ghost function Ahead<T>(r: (T, T) -> bool, c: set<T>, v: T): set<T> {
    set w | w in c && r(w, v)
  }

  /** v is one of the first `keep` members of c. */
  ghost predicate AmongFirst<T>(r: (T, T) -> bool, c: set<T>, keep: nat, v: T) {
    v in c && |Ahead(r, c, v)| < keep
  }

  ghost function First<T>(r: (T, T) -> bool, c: set<T>, keep: nat): set<T> {
    set v | v in c && AmongFirst(r, c, keep, v)
  }

  lemma {:induction false} SubsetSize<T>(a: set<T>, b: set<T>)
    requires a <= b
    ensures |a| <= |b|
  {
    assert b == a + (b - a);
  }

  /** Nothing outside the first few stands ahead of any of them. */
  lemma FirstStandAhead<T(!new)>(r: (T, T) -> bool, c: set<T>, keep: nat, v: T, w: T)
    requires StrictTotal(r) && v in First(r, c, keep) && w in c - First(r, c, keep)
    ensures r(v, w)
  {
    if r(w, v) {
      assert Ahead(r, c, w) <= Ahead(r, c, v);
      SubsetSize(Ahead(r, c, w), Ahead(r, c, v));
    }
  }

  lemma {:induction false} FirstExists<T(!new)>(r: (T, T) -> bool, c: set<T>) returns (m: T)
    requires StrictTotal(r) && c != {}
    ensures m in c && forall v :: v in c && v != m ==> r(m, v)
  {
    m :| m in c;
    if c - {m} != {} {
      var n := FirstExists(r, c - {m});
      if r(n, m) {
        m := n;
      }
    }
  }

  /** Without the very first of c, everybody moves up by one. */
  lemma MovesUp<T(!new)>(r: (T, T) -> bool, c: set<T>, m: T, v: T)
    requires StrictTotal(r) && m in c && v in c - {m} && r(m, v)
    ensures |Ahead(r, c, v)| == |Ahead(r, c - {m}, v)| + 1
  {
    assert Ahead(r, c, v) == Ahead(r, c - {m}, v) + {m};
  }

  lemma FirstAndRest<T(!new)>(r: (T, T) -> bool, c: set<T>, m: T, keep: nat)
    requires StrictTotal(r) && keep > 0 && m in c && forall v :: v in c && v != m ==> r(m, v)
    ensures First(r, c, keep) == {m} + First(r, c - {m}, keep - 1)
    ensures |First(r, c, keep)| == 1 + |First(r, c - {m}, keep - 1)|
  {
    assert Ahead(r, c, m) == {};
    forall v | v in c - {m}
      ensures |Ahead(r, c, v)| == |Ahead(r, c - {m}, v)| + 1
    {
      MovesUp(r, c, m, v);
    }
  }

  lemma FirstStep<T(!new)>(r: (T, T) -> bool, c: set<T>, keep: nat) returns (m: T)
    requires StrictTotal(r) && keep > 0 && c != {}
    ensures m in c && |c - {m}| == |c| - 1
    ensures |First(r, c, keep)| == 1 + |First(r, c - {m}, keep - 1)|
  {
    m := FirstExists(r, c);
    FirstAndRest(r, c, m, keep);
  }

  lemma NoneFirst<T>(r: (T, T) -> bool, c: set<T>, keep: nat)
    requires c == {} || keep == 0
    ensures |First(r, c, keep)| == 0
  {
  }

  /** There are `keep` of them, or all when there are fewer. */
  lemma {:induction false} FirstSize<T(!new)>(r: (T, T) -> bool, c: set<T>, keep: nat)
    requires StrictTotal(r)
    ensures |First(r, c, keep)| == if |c| < keep then |c| else keep
    decreases |c|
  {
    if c == {} || keep == 0 {
      NoneFirst(r, c, keep);
    } else {
      var m := FirstStep(r, c, keep);
      FirstSize(r, c - {m}, keep - 1);
    }
  }

  /** In an ordered list the elements ahead of position i are those before it. */
  lemma AheadStandInFront<T(!new)>(r: (T, T) -> bool, list: seq<T>, c: set<T>, i: nat)
    requires StrictTotal(r) && Ordered(r, list) && i < |list| && c <= Elements(list)
    ensures Ahead(r, c, list[i]) == set v | v in c && v in list[..i]
    ensures list[i] !in list[..i]
  {
  }

  /** The members of c among the first i elements of list. */
  ghost function Seen<T>(c: set<T>, list: seq<T>, i: nat): set<T>
    requires i <= |list|
  {
    set v | v in c && v in list[..i]
  }

  /** Walking an ordered list while counting the members of c met so far tells,
      at each of them, whether it is among the first. */
  lemma CountingRanks<T(!new)>(r: (T, T) -> bool, list: seq<T>, c: set<T>, i: nat, keep: nat)
    requires StrictTotal(r) && Ordered(r, list) && i < |list| && c <= Elements(list)
    ensures list[i] in c ==> (AmongFirst(r, c, keep, list[i]) <==> |Seen(c, list, i)| < keep)
    ensures Seen(c, list, i + 1) == Seen(c, list, i) + (if list[i] in c then {list[i]} else {})
    ensures |Seen(c, list, i + 1)| == |Seen(c, list, i)| + (if list[i] in c then 1 else 0)
  {
    AheadStandInFront(r, list, c, i);
    assert Ahead(r, c, list[i]) == Seen(c, list, i);
    assert list[..i + 1] == list[..i] + [list[i]];
    assert list[i] !in Seen(c, list, i);
  }

  /** What is left of `all` when, of the members of c seen so far, only the
      first `keep` of c and the stuck ones have been left alone. */
  ghost function Remaining<T>(r: (T, T) -> bool, all: set<T>, c: set<T>, seen: set<T>, keep: nat,
      stuck: set<T>): set<T> {
    set v | v in all && (v !in seen || AmongFirst(r, c, keep, v) || v in stuck)
  }

  lemma RemainingStep<T(!new)>(r: (T, T) -> bool, all: set<T>, c: set<T>, list: seq<T>, i: nat, keep: nat,
      stuck: set<T>)
    requires StrictTotal(r) && Ordered(r, list) && i < |list| && c <= Elements(list) <= all
    ensures |Seen(c, list, i + 1)| == |Seen(c, list, i)| + (if list[i] in c then 1 else 0)
    ensures list[i] in Remaining(r, all, c, Seen(c, list, i), keep, stuck)
    ensures Remaining(r, all, c, Seen(c, list, i + 1), keep, stuck)
         == Remaining(r, all, c, Seen(c, list, i), keep, stuck)
            - (if list[i] in c && |Seen(c, list, i)| >= keep && list[i] !in stuck then {list[i]} else {})
  {
    assert list[i] in Elements(list);
    CountingRanks(r, list, c, i, keep);
    AheadStandInFront(r, list, c, i);
  }
}
