/** The string operations that the modelled code borrows from the Go and
    JavaScript libraries, on ASCII text. */
module Strings {

  const SPACES: set<char> := {'\t', '\n', '\U{0B}', '\U{0C}', '\r', ' '}

  /** No character of `cut` stands at either end of s. */
  predicate Bare(s: string, cut: set<char>) {
    s != "" ==> s[0] !in cut && s[|s| - 1] !in cut
  }

  function StripLeft(s: string, cut: set<char>): (r: string)
    ensures |r| <= |s|
    ensures r != "" ==> r[0] !in cut
    ensures r != "" ==> s != "" && r[|r| - 1] == s[|s| - 1]
    ensures s != "" && s[0] !in cut ==> r == s
  {
    if s != "" && s[0] in cut then StripLeft(s[1..], cut) else s
  }

  function StripRight(s: string, cut: set<char>): (r: string)
    ensures r <= s
    ensures r != "" ==> r[|r| - 1] !in cut
    ensures s != "" && s[|s| - 1] !in cut ==> r == s
  {
    if s != "" && s[|s| - 1] in cut then StripRight(s[..|s| - 1], cut) else s
  }

  function Strip(s: string, cut: set<char>): (r: string)
    ensures Bare(r, cut)
    ensures Bare(s, cut) ==> r == s
  {
    StripRight(StripLeft(s, cut), cut)
  }

  /** Stripping takes characters of `cut` off both ends, and as many as there are. */
  lemma StripIsMiddle(s: string, cut: set<char>) returns (i: nat, j: nat)
    ensures i <= j <= |s| && Strip(s, cut) == s[i..j] && Bare(s[i..j], cut)
    ensures forall k :: 0 <= k < |s| && !(i <= k < j) ==> s[k] in cut
  {
    i := LeftIsSuffix(s, cut);
    var n := RightIsPrefix(s[i..], cut);
    j := i + n;
    assert s[i..][..n] == s[i..j];
    forall k | j <= k < |s|
      ensures s[k] in cut
    {
      assert s[i..][k - i] == s[k];
    }
  }

  lemma {:induction false} LeftIsSuffix(s: string, cut: set<char>) returns (i: nat)
    ensures i <= |s| && StripLeft(s, cut) == s[i..] && forall k :: 0 <= k < i ==> s[k] in cut
  {
    i := 0;
    if s != "" && s[0] in cut {
      var n := LeftIsSuffix(s[1..], cut);
      i := n + 1;
      assert s[1..][n..] == s[i..];
      assert forall k :: 0 < k < i ==> s[k] == s[1..][k - 1];
    }
  }

  lemma {:induction false} RightIsPrefix(s: string, cut: set<char>) returns (n: nat)
    ensures n <= |s| && StripRight(s, cut) == s[..n] && forall k :: n <= k < |s| ==> s[k] in cut
  {
    n := |s|;
    if s != "" && s[|s| - 1] in cut {
      n := RightIsPrefix(s[..|s| - 1], cut);
      assert s[..|s| - 1][..n] == s[..n];
      assert forall k :: n <= k < |s| - 1 ==> s[k] == s[..|s| - 1][k];
    }
  }

  function Trim(s: string): (r: string)
    ensures Bare(r, SPACES)
    ensures Bare(s, SPACES) ==> r == s
  {
    Strip(s, SPACES)
  }

  /** Trimming takes off tabs, line ends, form feeds and blanks, and only those. */
  lemma TrimTakesSpaces(c: char)
    ensures Trim([c]) == "" <==> c as int in {9, 10, 11, 12, 13, 32}
  {
    assert c == '\U{0B}' <==> c as int == 11;
    assert c == '\U{0C}' <==> c as int == 12;
    assert c == '\t' <==> c as int == 9;
    assert c == '\n' <==> c as int == 10;
    assert c == '\r' <==> c as int == 13;
    assert c == ' ' <==> c as int == 32;
    assert c in SPACES ==> StripLeft([c], SPACES) == StripLeft("", SPACES) == "";
    assert c !in SPACES ==> Bare([c], SPACES);
  }

  function Lower(c: char): char {
    if 'A' <= c <= 'Z' then c - 'A' + 'a' else c
  }

  /** Two characters fold to the same exactly if they are the same or the two cases
      of one letter. */
  lemma CasesFold(c: char, d: char)
    ensures Lower(c) == Lower(d) <==>
            || c == d
            || ('A' <= c <= 'Z' && d as int == c as int + 32)
            || ('A' <= d <= 'Z' && c as int == d as int + 32)
  {
  }

  function ToLower(s: string): (r: string)
    ensures |r| == |s| && forall i :: 0 <= i < |s| ==> r[i] == Lower(s[i])
  {
    seq(|s|, i requires 0 <= i < |s| => Lower(s[i]))
  }

  predicate EqualFold(s: string, t: string) {
    ToLower(s) == ToLower(t)
  }

  predicate HasSuffix(s: string, t: string) {
    |t| <= |s| && s[|s| - |t|..] == t
  }

  /** The part of s before the first character of `stop`. */
  function Before(s: string, stop: set<char>): (r: string)
    ensures r <= s
    ensures forall i :: 0 <= i < |r| ==> r[i] !in stop
    ensures |r| < |s| ==> s[|r|] in stop
  {
    if s == "" || s[0] in stop then "" else [s[0]] + Before(s[1..], stop)
  }

  lemma {:induction false} BeforeUnique(s: string, r: string, stop: set<char>)
    requires r <= s
    requires forall i :: 0 <= i < |r| ==> r[i] !in stop
    requires |r| < |s| ==> s[|r|] in stop
    ensures Before(s, stop) == r
  {
  }

  lemma {:induction false} StripLeftIsSuffix(s: string, cut: set<char>)
    ensures HasSuffix(s, StripLeft(s, cut))
  {
    if s != "" && s[0] in cut {
      StripLeftIsSuffix(s[1..], cut);
      var r := StripLeft(s, cut);
      assert s[|s| - |r|..] == s[1..][|s| - 1 - |r|..];
    }
  }

  lemma PartMembers(s: string, left: string, t: string)
    requires HasSuffix(s, left) && t <= left
    ensures |t| <= |s| && forall c :: c in t ==> c in s
  {
  }

  /** Trimming only takes away. */
  lemma TrimIsPart(s: string)
    ensures |Trim(s)| <= |s| && forall c :: c in Trim(s) ==> c in s
  {
    StripLeftIsSuffix(s, SPACES);
    PartMembers(s, StripLeft(s, SPACES), Trim(s));
  }
}
