/** Searching and filtering sequences. */
module Sequences {
  function LastN<T>(s: seq<T>, n: nat): seq<T> {
    if |s| <= n then s else s[|s| - n..]
  }

  /** The matching ones among the first n elements, in order. */
  function Select<T>(s: seq<T>, n: nat, matches: T -> bool): (r: seq<T>)
    requires n <= |s|
    ensures |r| <= n
  {
    if n == 0 then [] else Select(s, n - 1, matches) + if matches(s[n - 1]) then [s[n - 1]] else []
  }

  lemma {:induction false} SelectAll<T>(s: seq<T>, n: nat, matches: T -> bool)
    requires n <= |s| && forall x :: x in s ==> matches(x)
    ensures Select(s, n, matches) == s[..n]
  {
    if n > 0 {
      SelectAll(s, n - 1, matches);
    }
  }

  /** Nothing that matches is left out and nothing else gets in, with multiplicity. */
  lemma {:induction false} SelectIsExact<T>(s: seq<T>, n: nat, matches: T -> bool, x: T)
    requires n <= |s|
    ensures x in Select(s, n, matches) <==> x in s[..n] && matches(x)
    ensures multiset(Select(s, n, matches))[x] == if matches(x) then multiset(s[..n])[x] else 0
  {
    SelectCounts(s, n, matches, x);
    var chosen := Select(s, n, matches);
    assert x in chosen <==> x in multiset(chosen);
    assert x in s[..n] <==> x in multiset(s[..n]);
  }

  lemma {:induction false} SelectCounts<T>(s: seq<T>, n: nat, matches: T -> bool, x: T)
    requires n <= |s|
    ensures multiset(Select(s, n, matches))[x] == if matches(x) then multiset(s[..n])[x] else 0
  {
    if n > 0 {
      SelectCounts(s, n - 1, matches, x);
      assert s[..n] == s[..n - 1] + [s[n - 1]];
      assert multiset(s[..n]) == multiset(s[..n - 1]) + multiset{s[n - 1]};
    }
  }

  lemma {:induction false} SelectPrefix<T>(s: seq<T>, x: T, n: nat, p: T -> bool)
    requires n <= |s|
    ensures Select(s + [x], n, p) == Select(s, n, p)
  {
    if n > 0 {
      SelectPrefix(s, x, n - 1, p);
    }
  }

  /** The first position from i on whose element satisfies p, or the length. */
  function FirstFrom<T>(s: seq<T>, i: nat, p: T -> bool): (k: nat)
    requires i <= |s|
    ensures i <= k <= |s| && (k < |s| ==> p(s[k])) && forall j :: i <= j < k ==> !p(s[j])
    decreases |s| - i
  {
    if i == |s| || p(s[i]) then i else FirstFrom(s, i + 1, p)
  }

  function FirstWhere<T>(s: seq<T>, p: T -> bool): (k: nat)
    ensures k <= |s| && (k < |s| ==> p(s[k])) && forall j :: 0 <= j < k ==> !p(s[j])
  {
    FirstFrom(s, 0, p)
  }

  lemma FirstUnique<T>(s: seq<T>, p: T -> bool, k: nat)
    requires k <= |s| && (k < |s| ==> p(s[k])) && forall j :: 0 <= j < k ==> !p(s[j])
    ensures FirstWhere(s, p) == k
  {
  }

  /** The first element that satisfies q, among those that satisfy the weaker p. */
  lemma {:induction false} FirstOfSelection<T>(s: seq<T>, n: nat, p: T -> bool, q: T -> bool)
    requires n <= |s| && forall x :: x in s && q(x) ==> p(x)
    ensures var k, f := FirstWhere(s, q), Select(s, n, p);
      if k < n then
        |Select(s, k, p)| < |f| && f[|Select(s, k, p)|] == s[k] && FirstWhere(f, q) == |Select(s, k, p)|
      else FirstWhere(f, q) == |f|
  {
    var k, f := FirstWhere(s, q), Select(s, n, p);
    if n > 0 {
      FirstOfSelection(s, n - 1, p, q);
      var g := Select(s, n - 1, p);
      assert s[n - 1] in s;
      if k < n - 1 {
        FirstUnique(f, q, |Select(s, k, p)|);
      } else {
        FirstUnique(f, q, if k < n then |g| else |f|);
      }
    }
  }

  lemma {:induction false} SelectAgrees<T>(a: seq<T>, b: seq<T>, n: nat, p: T -> bool)
    requires n <= |a| && n <= |b| && a[..n] == b[..n]
    ensures Select(a, n, p) == Select(b, n, p)
  {
    if n > 0 {
      assert a[..n - 1] == a[..n][..n - 1] && b[..n - 1] == b[..n][..n - 1];
      assert a[n - 1] == a[..n][n - 1] && b[n - 1] == b[..n][n - 1];
      SelectAgrees(a, b, n - 1, p);
    }
  }

  lemma {:induction false} SelectGrows<T>(s: seq<T>, m: nat, n: nat, p: T -> bool)
    requires m <= n <= |s|
    ensures |Select(s, m, p)| <= |Select(s, n, p)|
  {
    if m < n {
      SelectGrows(s, m, n - 1, p);
    }
  }

  lemma {:induction false} NoneSelected<T>(s: seq<T>, n: nat, p: T -> bool)
    requires n <= |s| && forall j :: 0 <= j < n ==> !p(s[j])
    ensures Select(s, n, p) == []
  {
    if n > 0 {
      NoneSelected(s, n - 1, p);
    }
  }

  lemma CountAfterUpdate<T>(s: seq<T>, k: nat, x: T, r: T)
    requires k < |s| && r != s[k] && r != x
    ensures multiset(s[k := x])[r] == multiset(s)[r]
  {
  }

  lemma {:induction false} SelectAllBut<T>(s: seq<T>, k: nat, n: nat, p: T -> bool)
    requires k < |s| && n <= |s| && forall j :: 0 <= j < n ==> (p(s[j]) <==> j != k)
    ensures Select(s, n, p) == if n <= k then s[..n] else s[..k] + s[k + 1..n]
  {
    if n > 0 {
      SelectAllBut(s, k, n - 1, p);
    }
  }
}
