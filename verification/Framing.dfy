/** Cutting a byte stream into lines, however it arrives in chunks. */
module Framing {
  import opened Strings

  /** The terminated lines of a stream, without their newlines, and the
      unterminated rest. */
  datatype Split = Split(lines: seq<string>, rest: string)

  function Cut(s: string): (r: Split)
    decreases |s|
  {
    var head := Before(s, {'\n'});
    if |head| == |s| then Split([], s)
    else
      var tail := Cut(s[|head| + 1..]);
      Split([head] + tail.lines, tail.rest)
  }

  /** Lines are delivered without trailing carriage returns. */
  function Delivered(line: string): string {
    StripRight(line, {'\r'})
  }

  /** What one more chunk does to what has been cut so far. */
  function Feed(sofar: Split, chunk: string): Split {
    var more := Cut(sofar.rest + chunk);
    Split(sofar.lines + more.lines, more.rest)
  }

  function FeedAll(chunks: seq<string>, n: nat): Split
    requires n <= |chunks|
  {
    if n == 0 then Split([], "") else Feed(FeedAll(chunks, n - 1), chunks[n - 1])
  }

  function Joined(chunks: seq<string>, n: nat): string
    requires n <= |chunks|
  {
    if n == 0 then "" else Joined(chunks, n - 1) + chunks[n - 1]
  }

  lemma CutFirst(line: string, after: string)
    requires '\n' !in line
    ensures Cut(line + "\n" + after) == Split([line] + Cut(after).lines, Cut(after).rest)
  {
    var s := line + "\n" + after;
    assert forall i :: 0 <= i < |line| ==> line[i] in line;
    BeforeUnique(s, line, {'\n'});
    assert s[|line| + 1..] == after;
  }

  lemma CutNone(rest: string)
    requires '\n' !in rest
    ensures Cut(rest) == Split([], rest)
  {
  }

  /** s is either one line and what follows it, or has no newline. */
  lemma FirstLine(s: string) returns (line: string, after: string)
    ensures '\n' !in line
    ensures '\n' in s ==> s == line + "\n" + after
    ensures '\n' !in s ==> line == s
  {
    line := Before(s, {'\n'});
    after := if |line| < |s| then s[|line| + 1..] else "";
    assert forall i :: 0 <= i < |line| ==> s[i] == line[i];
    assert |line| < |s| ==> s == line + "\n" + after;
  }

  function Unsplit(lines: seq<string>, rest: string): string {
    if lines == [] then rest else lines[0] + "\n" + Unsplit(lines[1..], rest)
  }

  /** Cutting loses nothing and adds nothing: it inverts writing the lines out. */
  lemma {:induction false} CutInvertsUnsplit(lines: seq<string>, rest: string)
    requires '\n' !in rest && forall l :: l in lines ==> '\n' !in l
    ensures Cut(Unsplit(lines, rest)) == Split(lines, rest)
  {
    if lines == [] {
      CutNone(rest);
    } else {
      CutInvertsUnsplit(lines[1..], rest);
      CutFirst(lines[0], Unsplit(lines[1..], rest));
    }
  }

  lemma {:induction false} UnsplitInvertsCut(s: string)
    ensures Unsplit(Cut(s).lines, Cut(s).rest) == s
    ensures '\n' !in Cut(s).rest && forall l :: l in Cut(s).lines ==> '\n' !in l
    decreases |s|
  {
    var line, after := FirstLine(s);
    if '\n' in s {
      CutFirst(line, after);
      UnsplitInvertsCut(after);
      assert ([line] + Cut(after).lines)[1..] == Cut(after).lines;
    } else {
      CutNone(s);
    }
  }

  lemma {:induction false} UnsplitExtend(lines: seq<string>, rest: string, b: string)
    ensures Unsplit(lines, rest + b) == Unsplit(lines, rest) + b
  {
    if lines != [] {
      UnsplitExtend(lines[1..], rest, b);
    }
  }

  lemma {:induction false} UnsplitNest(a: seq<string>, b: seq<string>, rest: string)
    ensures Unsplit(a, Unsplit(b, rest)) == Unsplit(a + b, rest)
  {
    if a == [] {
      assert a + b == b;
    } else {
      assert (a + b)[1..] == a[1..] + b;
      UnsplitNest(a[1..], b, rest);
    }
  }

  /** Feeding a chunk to what has been cut is cutting the extended stream. */
  lemma CutConcat(a: string, b: string)
    ensures Cut(a + b) == Feed(Cut(a), b)
  {
    var sofar := Cut(a);
    var more := Cut(sofar.rest + b);
    UnsplitInvertsCut(a);
    UnsplitInvertsCut(sofar.rest + b);
    UnsplitExtend(sofar.lines, sofar.rest, b);
    UnsplitNest(sofar.lines, more.lines, more.rest);
    CutInvertsUnsplit(sofar.lines + more.lines, more.rest);
  }

  /** Framing does not depend on chunking: feeding any chunks one by one gives
      the lines and the rest of their concatenation. */
  lemma {:induction false} ChunkingDoesNotMatter(chunks: seq<string>, n: nat)
    requires n <= |chunks|
    ensures FeedAll(chunks, n) == Cut(Joined(chunks, n))
  {
    if n > 0 {
      ChunkingDoesNotMatter(chunks, n - 1);
      CutConcat(Joined(chunks, n - 1), chunks[n - 1]);
    } else {
      assert Cut("") == Split([], "");
    }
  }

  /** One more line, in front of what is left. */
  lemma UnsplitLine(lines: seq<string>, line: string, after: string)
    ensures Unsplit(lines, line + "\n" + after) == Unsplit(lines + [line], after)
  {
    assert Unsplit([line], after) == line + "\n" + after;
    UnsplitNest(lines, [line], after);
  }
}
