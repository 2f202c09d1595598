/** Version tags and their order, as the update engine compares them. */
module Versions {
  import opened Strings

  /** The largest value of the 64-bit integers the tags are parsed into. */
  const MAX_INT: nat := 0x7FFF_FFFF_FFFF_FFFF

  datatype Version = Version(year: nat, month: nat, patch: nat)

  predicate IsDigit(c: char) {
    '0' <= c <= '9'
  }

  predicate AllDigits(s: string) {
    forall i :: 0 <= i < |s| ==> IsDigit(s[i])
  }

  function Decimal(s: string): nat
    requires AllDigits(s)
  {
    if s == "" then 0 else Decimal(s[..|s| - 1]) * 10 + (s[|s| - 1] - '0') as nat
  }

  /** The number that parsing leaves behind when its error is ignored: 0 for
      anything that is not a run of digits, the largest integer on overflow. */
  function Number(s: string): nat {
    if s == "" || !AllDigits(s) then 0
    else if Decimal(s) > MAX_INT then MAX_INT
    else Decimal(s)
  }

  /** A segment counts as its decimal value, up to the largest integer, and as 0 if
      it is empty or holds anything but digits. */
  lemma SegmentsCount(s: string)
    ensures Number(s) <= MAX_INT
    ensures AllDigits(s) ==> Number(s) == if Decimal(s) < MAX_INT then Decimal(s) else MAX_INT
    ensures !AllDigits(s) ==> Number(s) == 0
  {
  }

  /** s cut at its first two dots. */
  function SplitDots(s: string, parts: nat): (r: seq<string>)
    requires parts > 0
    ensures 0 < |r| <= parts
    decreases parts
  {
    var head := Before(s, {'.'});
    if parts == 1 || |head| == |s| then [s] else [head] + SplitDots(s[|head| + 1..], parts - 1)
  }

  /** What the segments of a tag are read from. */
  function Core(tag: string): string {
    var t := Trim(tag);
    Before(if t != "" && t[0] == 'v' then t[1..] else t, {'-', '+', ' '})
  }

  function Segment(parts: seq<string>, i: nat): nat {
    if i < |parts| then Number(Trim(parts[i])) else 0
  }

  function Parse(tag: string): Version {
    var parts := SplitDots(Core(tag), 3);
    Version(Segment(parts, 0), Segment(parts, 1), Segment(parts, 2))
  }

  predicate Below(a: Version, b: Version) {
    || a.year < b.year
    || (a.year == b.year && a.month < b.month)
    || (a.year == b.year && a.month == b.month && a.patch < b.patch)
  }

  function Order(v: Version, w: Version): int {
    if Below(v, w) then -1 else if v == w then 0 else 1
  }

  function Compare(a: string, b: string): int {
    Order(Parse(a), Parse(b))
  }

  method CoreOf(tag: string) returns (s: string)
    ensures s == Core(tag)
  {
    s := Trim(tag);
    if s != "" && s[0] == 'v' {
      s := s[1..];
    }
    s := Before(s, {'-', '+', ' '});
  }

  method ParseVer(tag: string) returns (out: array<nat>)
    ensures fresh(out) && out.Length == 3
    ensures Version(out[0], out[1], out[2]) == Parse(tag)
  {
    var s := CoreOf(tag);
    out := ReadSegments(SplitDots(s, 3));
  }

  method ReadSegments(parts: seq<string>) returns (out: array<nat>)
    requires |parts| <= 3
    ensures fresh(out) && out.Length == 3 && forall j :: 0 <= j < 3 ==> out[j] == Segment(parts, j)
  {
    out := new nat[3](_ => 0);
    for i := 0 to |parts|
      invariant forall j :: 0 <= j < 3 ==> out[j] == if j < i then Segment(parts, j) else 0
    {
      out[i] := Number(Trim(parts[i]));
    }
  }

  method CompareVersions(a: string, b: string) returns (r: int)
    ensures r == Compare(a, b)
  {
    var pa := ParseVer(a);
    var pb := ParseVer(b);
    r := CompareSegments(pa, pb);
  }

  method CompareSegments(pa: array<nat>, pb: array<nat>) returns (r: int)
    requires pa.Length == 3 && pb.Length == 3
    ensures r == Order(Version(pa[0], pa[1], pa[2]), Version(pb[0], pb[1], pb[2]))
  {
    for i := 0 to 3
      invariant forall j :: 0 <= j < i ==> pa[j] == pb[j]
    {
      if pa[i] != pb[i] {
        return if pa[i] < pb[i] then -1 else 1;
      }
    }
    return 0;
  }

  /** The order is a total preorder. */
  lemma CompareIsTotalPreorder(a: string, b: string, c: string)
    ensures Compare(a, a) == 0
    ensures Compare(a, b) == -Compare(b, a)
    ensures Compare(a, b) <= 0 && Compare(b, c) <= 0 ==> Compare(a, c) <= 0
    ensures Compare(a, b) == 0 && Compare(b, c) == 0 ==> Compare(a, c) == 0
  {
  }

  // ---- Printing and parsing ----------------------------------------------

  function Digits(n: nat): (s: string)
    ensures s != "" && AllDigits(s) && Decimal(s) == n
  {
    var last := [(n % 10) as char + '0'];
    if n < 10 then
      assert last[..0] == "";
      last
    else
      var s := Digits(n / 10) + last;
      assert s[..|s| - 1] == Digits(n / 10);
      s
  }

  /** A calendar-version tag, with the optional leading v and any suffix. */
  function Tag(v: Version, prefixed: bool, suffix: string): string {
    (if prefixed then "v" else "") + Digits(v.year) + "." + Digits(v.month) + "." + Digits(v.patch) + suffix
  }

  lemma NumberOfDigits(n: nat)
    requires n <= MAX_INT
    ensures Number(Trim(Digits(n))) == n
  {
  }

  lemma SplitDotted(a: string, rest: string, parts: nat)
    requires AllDigits(a) && parts > 1
    ensures SplitDots(a + "." + rest, parts) == [a] + SplitDots(rest, parts - 1)
  {
    var s := a + "." + rest;
    BeforeUnique(s, a, {'.'});
    assert s[|a| + 1..] == rest;
  }

  lemma SplitUndotted(a: string, parts: nat)
    requires AllDigits(a) && parts > 0
    ensures SplitDots(a, parts) == [a]
  {
  }

  lemma CoreOfTag(body: string, prefixed: bool, suffix: string)
    requires body != "" && IsDigit(body[0]) && IsDigit(body[|body| - 1])
    requires forall i :: 0 <= i < |body| ==> IsDigit(body[i]) || body[i] == '.'
    requires suffix != "" ==> suffix[0] in {'-', '+', ' '}
    ensures Core((if prefixed then "v" else "") + body + suffix) == body
  {
    var head := (if prefixed then "v" else "") + body;
    TrimKeepsHead(head, suffix);
    var t := Trim(head + suffix);
    BehindPrefix(t, head, body, prefixed, suffix);
    BodyEnds(if t[0] == 'v' then t[1..] else t, body);
  }

  lemma BehindPrefix(t: string, head: string, body: string, prefixed: bool, suffix: string)
    requires head == (if prefixed then "v" else "") + body && head <= t <= head + suffix
    requires body != "" && IsDigit(body[0])
    requires suffix != "" ==> suffix[0] in {'-', '+', ' '}
    ensures var s := if t[0] == 'v' then t[1..] else t;
      body <= s && (|body| < |s| ==> s[|body|] in {'-', '+', ' '})
  {
    assert |t| > |head| ==> t[|head|] == (head + suffix)[|head|] == suffix[0];
    if prefixed {
      assert head[1..] == body && t[1..][..|body|] == head[1..];
    } else {
      assert head == body;
    }
  }

  lemma TrimKeepsHead(head: string, suffix: string)
    requires Bare(head, SPACES) && head != ""
    ensures head <= Trim(head + suffix) <= head + suffix
  {
    assert StripLeft(head + suffix, SPACES) == head + suffix;
    StripRightKeeps(head, suffix, SPACES);
  }

  lemma BodyEnds(s: string, body: string)
    requires body <= s && forall i :: 0 <= i < |body| ==> IsDigit(body[i]) || body[i] == '.'
    requires |body| < |s| ==> s[|body|] in {'-', '+', ' '}
    ensures Before(s, {'-', '+', ' '}) == body
  {
  }

  lemma {:induction false} StripRightKeeps(head: string, suffix: string, cut: set<char>)
    requires head != "" && head[|head| - 1] !in cut
    ensures head <= StripRight(head + suffix, cut)
    decreases |suffix|
  {
    var s := head + suffix;
    if suffix != "" && s[|s| - 1] in cut {
      assert s[..|s| - 1] == head + suffix[..|suffix| - 1];
      StripRightKeeps(head, suffix[..|suffix| - 1], cut);
    }
  }

  lemma SplitTwo(m: string, p: string)
    requires AllDigits(m) && AllDigits(p)
    ensures SplitDots(m + "." + p, 2) == [m, p]
  {
    SplitDotted(m, p, 2);
    SplitUndotted(p, 1);
  }

  lemma SplitBody(y: string, m: string, p: string)
    requires AllDigits(y) && AllDigits(m) && AllDigits(p)
    ensures SplitDots(y + "." + m + "." + p, 3) == [y, m, p]
  {
    assert y + "." + m + "." + p == y + "." + (m + "." + p);
    SplitDotted(y, m + "." + p, 3);
    SplitTwo(m, p);
  }

  /** Parsing reads back the numbers a tag was printed from, whatever its prefix
      and pre-release or build suffix. */
  lemma ParseInvertsTag(v: Version, prefixed: bool, suffix: string)
    requires v.year <= MAX_INT && v.month <= MAX_INT && v.patch <= MAX_INT
    requires suffix != "" ==> suffix[0] in {'-', '+', ' '}
    ensures Parse(Tag(v, prefixed, suffix)) == v
  {
    var y, m, p := Digits(v.year), Digits(v.month), Digits(v.patch);
    var body := y + "." + m + "." + p;
    assert Tag(v, prefixed, suffix) == (if prefixed then "v" else "") + body + suffix;
    assert body[0] == y[0] && body[|body| - 1] == p[|p| - 1];
    CoreOfTag(body, prefixed, suffix);
    SplitBody(y, m, p);
    NumberOfDigits(v.year);
    NumberOfDigits(v.month);
    NumberOfDigits(v.patch);
  }

  /** So tags are ordered by their numbers, not by their spelling. */
  lemma TagsCompareNumerically(a: Version, b: Version, pa: bool, pb: bool, sa: string, sb: string)
    requires a.year <= MAX_INT && a.month <= MAX_INT && a.patch <= MAX_INT
    requires b.year <= MAX_INT && b.month <= MAX_INT && b.patch <= MAX_INT
    requires sa != "" ==> sa[0] in {'-', '+', ' '}
    requires sb != "" ==> sb[0] in {'-', '+', ' '}
    ensures Compare(Tag(a, pa, sa), Tag(b, pb, sb)) < 0 <==> Below(a, b)
    ensures Compare(Tag(a, pa, sa), Tag(b, pb, sb)) == 0 <==> a == b
  {
    ParseInvertsTag(a, pa, sa);
    ParseInvertsTag(b, pb, sb);
  }
}
