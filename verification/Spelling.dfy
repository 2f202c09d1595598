/** When byte order on version tags is version order.  Numbers are spelled
    without leading zeros. */
module Spelling {
  import opened Versions

  /** a sorts after b in byte order. */
  predicate Above(a: string, b: string) {
    a != "" && (b == "" || a[0] > b[0] || (a[0] == b[0] && Above(a[1..], b[1..])))
  }

  lemma {:induction false} AboveIsTotalOrder(a: string, b: string, c: string)
    ensures !Above(a, a)
    ensures a == b || Above(a, b) || Above(b, a)
    ensures Above(a, b) && Above(b, c) ==> Above(a, c)
    decreases |a|
  {
    if a != "" {
      AboveIsTotalOrder(a[1..], if b != "" then b[1..] else "", if c != "" then c[1..] else "");
      if b != "" && a[0] == b[0] && a[1..] == b[1..] {
        assert a == [a[0]] + a[1..] && b == [b[0]] + b[1..];
      }
    }
  }

  /** Strings that start with parts of one length are ordered by those parts first. */
  lemma {:induction false} AboveParts(a: string, s: string, b: string, t: string)
    requires |a| == |b|
    ensures Above(a + s, b + t) <==> Above(a, b) || (a == b && Above(s, t))
  {
    if a == "" {
      assert a + s == s && b + t == t;
    } else {
      assert (a + s)[1..] == a[1..] + s && (b + t)[1..] == b[1..] + t;
      AboveParts(a[1..], s, b[1..], t);
      assert a == [a[0]] + a[1..] && b == [b[0]] + b[1..];
    }
  }

  // ---- Digits ------------------------------------------------------------

  /** Among digit strings of one length, byte order is the order of the numbers. */
  lemma {:induction false} AboveIsLarger(x: string, y: string)
    requires AllDigits(x) && AllDigits(y) && |x| == |y|
    ensures Above(x, y) <==> Decimal(x) > Decimal(y)
    ensures x == y <==> Decimal(x) == Decimal(y)
  {
    if x != "" {
      var n := |x| - 1;
      AboveIsLarger(x[..n], y[..n]);
      AboveParts(x[..n], x[n..], y[..n], y[n..]);
      assert x == x[..n] + x[n..] && y == y[..n] + y[n..];
      assert x[n..] == [x[n]] && y[n..] == [y[n]];
      LastDigit(x[n], y[n]);
    }
  }

  lemma LastDigit(c: char, d: char)
    ensures Above([c], [d]) <==> c > d
  {
  }

  lemma {:induction false} DigitsGrow(m: nat, n: nat)
    requires m <= n
    ensures |Digits(m)| <= |Digits(n)|
    decreases n
  {
    if m >= 10 {
      DigitsGrow(m / 10, n / 10);
    }
  }

  /** The number that the first k digits of n form. */
  function Leading(n: nat, k: nat): nat
    requires k <= |Digits(n)|
  {
    assert forall i :: 0 <= i < k ==> IsDigit(Digits(n)[i]);
    Decimal(Digits(n)[..k])
  }

  /** What follows a segment sorts below every digit. */
  predicate Closed(s: string) {
    s == "" || s[0] < '0'
  }

  lemma PartsSortIff(x: string, s: string, p: string, q: string, t: string)
    requires AllDigits(q) && |p| == |x| && (p == x ==> q != "") && Closed(s)
    ensures Above(p + (q + t), x + s) <==> Above(p, x) || p == x
  {
    AboveParts(p, q + t, x, s);
    if q != "" {
      assert IsDigit(q[0]) && (q + t)[0] == q[0];
    }
  }

  lemma RunsSortIff(x: string, s: string, y: string, t: string)
    requires AllDigits(y) && |x| <= |y| && x != y && Closed(s)
    ensures Above(y + t, x + s) <==> Above(y[..|x|], x) || y[..|x|] == x
  {
    var p, q := y[..|x|], y[|x|..];
    assert y == p + q && y + t == p + (q + t);
    assert q == "" ==> y == p;
    PartsSortIff(x, s, p, q, t);
  }

  /** A larger number sorts above a smaller one exactly if the smaller one is at
      most the number that as many leading digits of the larger one form. */
  lemma SegmentsSortIff(m: nat, n: nat, s: string, t: string)
    requires m < n && Closed(s)
    ensures |Digits(m)| <= |Digits(n)|
    ensures Above(Digits(n) + t, Digits(m) + s) <==> m <= Leading(n, |Digits(m)|)
  {
    DigitsGrow(m, n);
    RunsSortIff(Digits(m), s, Digits(n), t);
    LeadingDigits(n, |Digits(m)|);
    AboveIsLarger(Digits(n)[..|Digits(m)|], Digits(m));
  }

  lemma LeadingDigits(n: nat, k: nat)
    requires k <= |Digits(n)|
    ensures AllDigits(Digits(n)[..k])
  {
  }

  // ---- Tags --------------------------------------------------------------

  /** The first segment in which two versions differ, in each of them. */
  function FirstGap(a: Version, b: Version): (nat, nat) {
    if a.year != b.year then (a.year, b.year) else if a.month != b.month then (a.month, b.month) else (a.patch, b.patch)
  }

  lemma TagAtYear(v: Version, prefixed: bool, suffix: string)
    ensures Tag(v, prefixed, suffix) == (if prefixed then "v" else "")
        + (Digits(v.year) + ("." + Digits(v.month) + "." + Digits(v.patch) + suffix))
  {
  }

  lemma TagAtMonth(v: Version, prefixed: bool, suffix: string)
    ensures Tag(v, prefixed, suffix)
         == ((if prefixed then "v" else "") + Digits(v.year) + ".")
             + (Digits(v.month) + ("." + Digits(v.patch) + suffix))
  {
  }

  lemma TagAtPatch(v: Version, prefixed: bool, suffix: string)
    ensures Tag(v, prefixed, suffix)
         == ((if prefixed then "v" else "") + Digits(v.year) + "." + Digits(v.month) + ".") + (Digits(v.patch) + suffix)
  {
  }

  /** The tag of a newer version sorts above that of an older one exactly if, in
      the first segment that differs, the older number is at most what as many
      leading digits of the newer one form.  Suffixes do not matter. */
  lemma TagsSortIff(a: Version, b: Version, prefixed: bool, sa: string, sb: string)
    requires Below(a, b) && Closed(sa)
    ensures var (m, n) := FirstGap(a, b);
      && m < n && |Digits(m)| <= |Digits(n)|
      && (Above(Tag(b, prefixed, sb), Tag(a, prefixed, sa)) <==> m <= Leading(n, |Digits(m)|))
  {
    var (m, n) := FirstGap(a, b);
    if a.year != b.year {
      TagAtYear(a, prefixed, sa);
      TagAtYear(b, prefixed, sb);
      GapSortsIff(if prefixed then "v" else "", m, n, "." + Digits(a.month) + "." + Digits(a.patch) + sa,
          "." + Digits(b.month) + "." + Digits(b.patch) + sb);
    } else if a.month != b.month {
      TagAtMonth(a, prefixed, sa);
      TagAtMonth(b, prefixed, sb);
      GapSortsIff((if prefixed then "v" else "") + Digits(a.year) + ".", m, n, "." + Digits(a.patch) + sa,
          "." + Digits(b.patch) + sb);
    } else {
      TagAtPatch(a, prefixed, sa);
      TagAtPatch(b, prefixed, sb);
      GapSortsIff((if prefixed then "v" else "") + Digits(a.year) + "." + Digits(a.month) + ".", m, n, sa, sb);
    }
  }

  lemma GapSortsIff(common: string, m: nat, n: nat, s: string, t: string)
    requires m < n && Closed(s)
    ensures |Digits(m)| <= |Digits(n)|
    ensures Above(common + (Digits(n) + t), common + (Digits(m) + s)) <==> m <= Leading(n, |Digits(m)|)
  {
    SegmentsSortIff(m, n, s, t);
    AboveParts(common, Digits(n) + t, common, Digits(m) + s);
    AboveIsTotalOrder(common, "", "");
  }

  /** In particular numbers of one length are in order, ... */
  lemma SameLengthSorts(m: nat, n: nat)
    requires m < n && |Digits(m)| == |Digits(n)|
    ensures m <= Leading(n, |Digits(m)|)
  {
    assert Digits(n)[..|Digits(m)|] == Digits(n);
  }

  /** ... while September stands above December of the same year. */
  lemma SpellingMisorders(year: nat, p: nat, q: nat, prefixed: bool)
    ensures Above(Tag(Version(year, 9, p), prefixed, ""), Tag(Version(year, 12, q), prefixed, ""))
  {
    var a, b := Version(year, 9, p), Version(year, 12, q);
    TagsSortIff(a, b, prefixed, "", "");
    assert Digits(9) == "9";
    assert Digits(12)[..1] == "1" by {
      assert Digits(12) == Digits(1) + "2" && Digits(1) == "1";
    }
    assert Leading(12, 1) == Decimal("1") == 1 by {
      assert "1"[..0] == "";
    }
    AboveIsTotalOrder(Tag(a, prefixed, ""), Tag(b, prefixed, ""), "");
    DifferentTags(year, p, q, prefixed);
  }

  lemma DifferentTags(year: nat, p: nat, q: nat, prefixed: bool)
    ensures Tag(Version(year, 9, p), prefixed, "") != Tag(Version(year, 12, q), prefixed, "")
  {
    var a, b := Version(year, 9, p), Version(year, 12, q);
    var common := (if prefixed then "v" else "") + Digits(year) + ".";
    TagAtMonth(a, prefixed, "");
    TagAtMonth(b, prefixed, "");
    assert Digits(9) == "9";
    assert Digits(12) == Digits(1) + "2" && Digits(1) == "1";
    assert Tag(a, prefixed, "")[|common|] == '9' && Tag(b, prefixed, "")[|common|] == '1';
  }
}
