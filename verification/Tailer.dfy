/** The log tailer of one instance: what the child writes is framed into lines,
    and the newest entries are kept in a ring for snapshots. */
module Tailer {
  import opened Options
  import opened Sequences
  import opened Strings
  import opened Rings
  import opened Framing

  datatype Entry = Entry(number: nat, time: int, level: string, message: string, event: int, connIndex: Option<int>,
      raw: string)

  /** `since` is None for the zero time. */
  datatype Filter = Filter(minLevel: string, keyword: string, events: seq<int>, connIndex: Option<int>,
      since: Option<int>)

  const ZERO_FILTER := Filter("", "", [], None, None)

  function LevelRank(level: string): nat {
    var l := ToLower(level);
    if l == "debug" then 1 else if l == "info" then 2 else if l == "warn" then 3
    else if l == "error" then 4 else if l == "fatal" then 5 else 0
  }

  predicate Contains(s: string, t: string) {
    |t| <= |s| && (s[..|t|] == t || (s != "" && Contains(s[1..], t)))
  }

  predicate Match(e: Entry, f: Filter) {
    && (f.minLevel != "" ==> LevelRank(e.level) >= LevelRank(f.minLevel))
    && (f.keyword != "" ==>
          Contains(ToLower(e.message), ToLower(f.keyword)) || Contains(ToLower(e.raw), ToLower(f.keyword)))
    && (f.events != [] ==> e.event in f.events)
    && (f.connIndex.Some? ==> e.connIndex == f.connIndex)
    && (f.since.Some? ==> e.time > f.since.value)
  }

  function Matching(f: Filter): Entry -> bool {
    e => Match(e, f)
  }

  // ---- What a snapshot shows ---------------------------------------------

  /** The entry is in a snapshot without a limit. */
  predicate Shown(history: seq<Entry>, size: nat, f: Filter, e: Entry) {
    e in Visible(history, size, Matching(f), 0)
  }

  lemma ShownIff(history: seq<Entry>, size: nat, f: Filter, e: Entry)
    ensures Shown(history, size, f, e) <==> e in LastN(history, size) && Match(e, f)
  {
    var kept := LastN(history, size);
    SelectIsExact(kept, |kept|, Matching(f), e);
    assert kept[..|kept|] == kept;
  }

  /** The levels, least severe first. */
  const LEVELS := ["debug", "info", "warn", "error", "fatal"]

  /** A minimal level shows the entries of that level and the more severe ones,
      however they are spelled, and none of an unknown level. */
  lemma LevelsAreMinimal(history: seq<Entry>, size: nat, e: Entry, level: string, j: nat)
    requires e in LastN(history, size) && j < |LEVELS| && ToLower(level) == LEVELS[j]
    ensures var f := Filter(level, "", [], None, None);
      && (forall i :: 0 <= i < |LEVELS| && ToLower(e.level) == LEVELS[i] ==> (Shown(history, size, f, e) <==> i >= j))
      && (ToLower(e.level) !in LEVELS ==> !Shown(history, size, f, e))
  {
    ShownIff(history, size, Filter(level, "", [], None, None), e);
  }

  /** A minimal level that is unknown hides nothing, and so does the empty filter. */
  lemma UnknownLevelHidesNothing(history: seq<Entry>, size: nat, e: Entry, level: string)
    requires e in LastN(history, size) && ToLower(level) !in LEVELS
    ensures Shown(history, size, Filter(level, "", [], None, None), e) && Shown(history, size, ZERO_FILTER, e)
  {
    ShownIff(history, size, Filter(level, "", [], None, None), e);
    ShownIff(history, size, ZERO_FILTER, e);
  }

  predicate StandsAt(t: string, s: string, i: int) {
    0 <= i <= |s| - |t| && s[i..i + |t|] == t
  }

  lemma {:induction false} ContainsIff(s: string, t: string)
    ensures Contains(s, t) <==> exists i :: StandsAt(t, s, i)
  {
    if |t| <= |s| && s[..|t|] == t {
      assert StandsAt(t, s, 0);
    } else if s != "" {
      ContainsIff(s[1..], t);
      if i :| StandsAt(t, s, i) {
        assert i > 0;
        assert s[1..][i - 1..i - 1 + |t|] == s[i..i + |t|];
        assert StandsAt(t, s[1..], i - 1);
      }
      if i :| StandsAt(t, s[1..], i) {
        assert s[1..][i..i + |t|] == s[i + 1..i + 1 + |t|];
        assert StandsAt(t, s, i + 1);
      }
    } else {
      assert |t| > 0;
    }
  }

  /** The text stands at position i of s, whatever the case of the letters. */
  predicate FoldedAt(text: string, s: string, i: int) {
    0 <= i <= |s| - |text| && EqualFold(s[i..i + |text|], text)
  }

  /** The text occurs somewhere in s, whatever the case of the letters. */
  ghost predicate Occurs(text: string, s: string) {
    exists i :: FoldedAt(text, s, i)
  }

  lemma FoldedIff(text: string, s: string, i: int)
    ensures FoldedAt(text, s, i) <==> StandsAt(ToLower(text), ToLower(s), i)
  {
    if 0 <= i <= |s| - |text| {
      assert ToLower(s)[i..i + |text|] == ToLower(s[i..i + |text|]);
    }
  }

  lemma OccursIff(text: string, s: string)
    ensures Contains(ToLower(s), ToLower(text)) <==> Occurs(text, s)
  {
    ContainsIff(ToLower(s), ToLower(text));
    forall i
      ensures FoldedAt(text, s, i) <==> StandsAt(ToLower(text), ToLower(s), i)
    {
      FoldedIff(text, s, i);
    }
  }

  /** A keyword shows the entries with it in the message or in the raw line. */
  lemma KeywordsOccur(history: seq<Entry>, size: nat, e: Entry, text: string)
    requires e in LastN(history, size) && text != ""
    ensures Shown(history, size, Filter("", text, [], None, None), e)
        <==> Occurs(text, e.message) || Occurs(text, e.raw)
  {
    ShownIff(history, size, Filter("", text, [], None, None), e);
    OccursIff(text, e.message);
    OccursIff(text, e.raw);
  }

  /** Events, connection and time: a list of events shows those, a connection shows
      the entries that name it, a time shows what is strictly later. */
  lemma OtherFieldsRestrict(history: seq<Entry>, size: nat, e: Entry, events: seq<int>, conn: int, since: int)
    requires e in LastN(history, size) && events != []
    ensures Shown(history, size, Filter("", "", events, None, None), e)
        <==> exists i :: 0 <= i < |events| && events[i] == e.event
    ensures Shown(history, size, Filter("", "", [], Some(conn), None), e)
        <==> e.connIndex.Some? && e.connIndex.value == conn
    ensures Shown(history, size, Filter("", "", [], None, Some(since)), e) <==> since < e.time
  {
    ShownIff(history, size, Filter("", "", events, None, None), e);
    ShownIff(history, size, Filter("", "", [], Some(conn), None), e);
    ShownIff(history, size, Filter("", "", [], None, Some(since)), e);
  }

  /** A filter of several fields shows what each of them shows. */
  lemma FieldsCombine(history: seq<Entry>, size: nat, e: Entry, f: Filter)
    ensures Shown(history, size, f, e) <==>
              && Shown(history, size, Filter(f.minLevel, "", [], None, None), e)
              && Shown(history, size, Filter("", f.keyword, [], None, None), e)
              && Shown(history, size, Filter("", "", f.events, None, None), e)
              && Shown(history, size, Filter("", "", [], f.connIndex, None), e)
              && Shown(history, size, Filter("", "", [], None, f.since), e)
  {
    ShownIff(history, size, f, e);
    ShownIff(history, size, Filter(f.minLevel, "", [], None, None), e);
    ShownIff(history, size, Filter("", f.keyword, [], None, None), e);
    ShownIff(history, size, Filter("", "", f.events, None, None), e);
    ShownIff(history, size, Filter("", "", [], f.connIndex, None), e);
    ShownIff(history, size, Filter("", "", [], None, f.since), e);
  }

  // ---- The tailer --------------------------------------------------------

  method CopyIn(dst: array<char>, at: nat, b: string)
    requires at + |b| <= dst.Length
    modifies dst
    ensures dst[..at] == old(dst[..at]) && dst[at..at + |b|] == b
  {
    ghost var before := dst[..at];
    for i := 0 to |b|
      invariant dst[..at] == before && dst[at..at + i] == b[..i]
    {
      dst[at + i] := b[i];
    }
  }

  /** The bytes that have not been terminated by a newline yet: buffer[..tail].
      The rest of the buffer is spare capacity, reused when it suffices. */
  class LineBuffer {
    var buffer: array<char>
    var tail: nat

    ghost predicate Valid()
      reads this
    {
      tail <= buffer.Length
    }

    ghost function Tail(): string
      requires Valid()
      reads this, buffer
    {
      buffer[..tail]
    }

    constructor ()
      ensures Valid() && Tail() == "" && fresh(buffer)
    {
      buffer, tail := new char[0], 0;
    }

    /** Appends b to the tail, in the tail's own array when that has room, and
        hands out the result; the tail is empty afterwards. */
    method Grow(b: string) returns (rem: array<char>, hi: nat)
      requires Valid()
      modifies this`tail, buffer
      ensures Valid() && tail == 0 && buffer == old(buffer)
      ensures rem == buffer || fresh(rem)
      ensures hi <= rem.Length && rem[..hi] == old(Tail()) + b
    {
      var used := tail;
      hi := used + |b|;
      rem := buffer;
      if hi > buffer.Length {
        rem := new char[2 * hi];
        CopyDown(rem, 0, buffer, 0, used);
      }
      tail := 0;
      CopyIn(rem, used, b);
      assert rem[..hi] == rem[..used] + rem[used..used + |b|];
    }

    /** Makes rem[lo..hi] the tail; rem may be the tail's own array. */
    method Keep(rem: array<char>, lo: nat, hi: nat)
      requires Valid() && tail == 0 && lo <= hi <= rem.Length
      modifies this, buffer
      ensures Valid() && Tail() == old(rem[lo..hi])
      ensures buffer == old(buffer) || fresh(buffer)
    {
      var n := hi - lo;
      if n > buffer.Length {
        var bigger := new char[n];
        CopyDown(bigger, 0, rem, lo, hi);
        buffer := bigger;
      } else {
        CopyDown(buffer, 0, rem, lo, hi);
      }
      tail := n;
    }
  }

  /** The entries for the lines, numbered from `last` on. */
  function Stamped(lines: seq<string>, last: nat, parse: string -> Entry): (r: seq<Entry>)
    ensures |r| == |lines|
  {
    if lines == [] then []
    else
      var n := |lines| - 1;
      Stamped(lines[..n], last, parse) + [parse(Delivered(lines[n])).(number := last + n + 1)]
  }

  lemma StampedOneMore(lines: seq<string>, line: string, last: nat, parse: string -> Entry)
    ensures Stamped(lines + [line], last, parse)
        == Stamped(lines, last, parse) + [parse(Delivered(line)).(number := last + |lines| + 1)]
  {
  }

  /** The matching entries, moved to the front in place; a filter that asks for
      nothing is not applied. */
  method Filtered(out: array<Entry>, f: Filter) returns (n: nat)
    modifies out
    ensures n <= out.Length && out[..n] == Select(old(out[..]), out.Length, Matching(f))
  {
    n := out.Length;
    if f != ZERO_FILTER {
      n := Compact(out, Matching(f));
    } else {
      SelectAll(out[..], n, Matching(f));
    }
  }

  /** The lines that a longer stream completes. */
  ghost predicate Completes(before: string, after: string, lines: seq<string>) {
    Cut(after).lines == Cut(before).lines + lines
  }

  lemma Completed(stream: string, b: string, data: string, lines: seq<string>, rest: string)
    requires data == Cut(stream).rest + b && Cut(data) == Split(lines, rest)
    ensures Completes(stream, stream + b, lines) && Cut(stream + b).rest == rest
  {
    CutConcat(stream, b);
  }

  class ProcessTailer {
    const ring: Ring<Entry>
    const partial: LineBuffer
    const parse: string -> Entry
    var count: nat
    var stopped: bool

    /** Every byte Write has accepted. */
    ghost var stream: string

    ghost predicate Valid()
      reads this, ring, ring.cells, partial, partial.buffer
    {
      ring.Valid() && partial.Valid() && partial.Tail() == Cut(stream).rest
    }

    constructor (ringSize: int, parse: string -> Entry)
      ensures Valid() && ring.history == [] && stream == "" && !stopped && count == 0
      ensures ring.cells.Length == (if ringSize <= 0 then 8000 else ringSize) && this.parse == parse
      ensures fresh(ring) && fresh(ring.cells) && fresh(partial) && fresh(partial.buffer)
    {
      ring := new Ring<Entry>(if ringSize <= 0 then 8000 else ringSize);
      partial := new LineBuffer();
      this.parse := parse;
      count, stopped, stream := 0, false, "";
      new;
      CutNone("");
    }

    method Append(e: Entry)
      requires ring.Valid()
      modifies this`count, ring, ring.cells
      ensures ring.Valid() && count == old(count) + 1
      ensures ring.history == old(ring.history) + [e.(number := count)]
    {
      count := count + 1;
      ring.Append(e.(number := count));
    }

    /** The newest entries that match, oldest first, at most `limit` if that is positive. */
    method Snapshot(f: Filter, limit: int) returns (r: seq<Entry>)
      requires Valid()
      ensures r == Visible(ring.history, ring.cells.Length, Matching(f), limit)
    {
      var out := ring.Linear();
      var n := Filtered(out, f);
      var from := if limit > 0 && n > limit then n - limit else 0;
      r := out[from..n];
    }

    /** Frames b behind what is pending and appends one entry per completed line. */
    method Write(b: string)
      requires Valid()
      modifies this`count, this`stream, ring, ring.cells, partial, partial.buffer
      ensures Valid()
      ensures partial.buffer == old(partial.buffer) || fresh(partial.buffer)
      ensures stopped ==> stream == old(stream) && ring.history == old(ring.history)
      ensures !stopped ==> stream == old(stream) + b
      ensures !stopped ==>
        exists lines :: Completes(old(stream), stream, lines)
          && ring.history == old(ring.history) + Stamped(lines, old(count), parse)
    {
      if stopped {
        return;
      }
      ghost var lines := Take(b);
    }

    method Take(b: string) returns (ghost lines: seq<string>)
      requires Valid() && !stopped
      modifies this`count, this`stream, ring, ring.cells, partial, partial.buffer
      ensures Valid() && (partial.buffer == old(partial.buffer) || fresh(partial.buffer))
      ensures stream == old(stream) + b && Completes(old(stream), stream, lines)
      ensures ring.history == old(ring.history) + Stamped(lines, old(count), parse)
    {
      var rem, hi := partial.Grow(b);
      ghost var data := rem[..hi];
      var lo;
      lo, lines := Drain(rem, hi, data);
      Completed(stream, b, data, lines, data[lo..]);
      assert rem[lo..hi] == data[lo..];
      stream := stream + b;
      partial.Keep(rem, lo, hi);
    }

    /** Appends the entry of the line that follows `lines`, counted from `last`. */
    method AppendLine(line: string, ghost before: seq<Entry>, ghost lines: seq<string>, ghost last: nat)
      requires ring.Valid() && count == last + |lines| && ring.history == before + Stamped(lines, last, parse)
      modifies this`count, ring, ring.cells
      ensures ring.Valid() && count == last + |lines| + 1
      ensures ring.history == before + Stamped(lines + [line], last, parse)
    {
      Append(parse(Delivered(line)));
      StampedOneMore(lines, line, last, parse);
    }

    /** Appends an entry for every terminated line of rem[..hi]; what follows
        the last of them starts at lo. */
    method Drain(rem: array<char>, hi: nat, ghost data: string) returns (lo: nat, ghost lines: seq<string>)
      requires ring.Valid() && hi <= rem.Length && rem[..hi] == data
      modifies this`count, ring, ring.cells
      ensures ring.Valid() && lo <= hi && rem[..hi] == data && Cut(data) == Split(lines, data[lo..])
      ensures ring.history == old(ring.history) + Stamped(lines, old(count), parse)
    {
      lo, lines := 0, [];
      assert data[lo..] == data;
      var i := IndexOf(rem, lo, hi, data);
      while i < hi
        invariant lo <= i <= hi && ring.Valid()
        invariant rem[..hi] == data && rem[lo..i] == data[lo..i] && '\n' !in data[lo..i] && (i < hi ==> data[i] == '\n')
        invariant Framed(data, lo, lines)
        invariant count == old(count) + |lines| && ring.history == old(ring.history) + Stamped(lines, old(count), parse)
      {
        AppendLine(rem[lo..i], old(ring.history), lines, old(count));
        lo, i, lines := Advance(rem, hi, data, lo, i, lines);
      }
      assert data[lo..i] == data[lo..];
      AllFramed(data, lines, data[lo..]);
    }

    method Stop()
      modifies this`stopped
      ensures stopped
    {
      stopped := true;
    }
  }

  /** data is the given lines, each with its newline, and then data[lo..]. */
  ghost predicate Framed(data: string, lo: nat, lines: seq<string>) {
    lo <= |data| && data == Unsplit(lines, data[lo..]) && forall l :: l in lines ==> '\n' !in l
  }

  lemma LineFramed(data: string, lo: nat, i: nat, lines: seq<string>)
    requires Framed(data, lo, lines) && lo <= i < |data| && data[i] == '\n' && '\n' !in data[lo..i]
    ensures Framed(data, i + 1, lines + [data[lo..i]])
  {
    assert data[lo..] == data[lo..i] + "\n" + data[i + 1..];
    UnsplitLine(lines, data[lo..i], data[i + 1..]);
  }

  lemma AllFramed(data: string, lines: seq<string>, rest: string)
    requires data == Unsplit(lines, rest) && '\n' !in rest && forall l :: l in lines ==> '\n' !in l
    ensures Cut(data) == Split(lines, rest)
  {
    CutInvertsUnsplit(lines, rest);
  }

  /** Steps over the line data[lo..i], to the next newline. */
  method Advance(rem: array<char>, hi: nat, ghost data: string, lo: nat, i: nat, ghost lines: seq<string>)
    returns (lo': nat, i': nat, ghost lines': seq<string>)
    requires hi <= rem.Length && rem[..hi] == data && lo <= i < hi && data[i] == '\n' && '\n' !in data[lo..i]
    requires Framed(data, lo, lines)
    ensures lo' == i + 1 <= i' <= hi && lines' == lines + [data[lo..i]] && Framed(data, lo', lines')
    ensures '\n' !in data[lo'..i'] && rem[lo'..i'] == data[lo'..i'] && (i' < hi ==> data[i'] == '\n')
  {
    LineFramed(data, lo, i, lines);
    lo', lines' := i + 1, lines + [data[lo..i]];
    i' := IndexOf(rem, lo', hi, data);
  }

  /** The first newline in data[lo..], which is rem[lo..hi], or hi. */
  method IndexOf(rem: array<char>, lo: nat, hi: nat, ghost data: string) returns (i: nat)
    requires lo <= hi <= rem.Length && rem[..hi] == data
    ensures lo <= i <= hi && '\n' !in data[lo..i] && rem[lo..i] == data[lo..i]
    ensures i < hi ==> data[i] == '\n'
  {
    i := lo;
    while i < hi && rem[i] != '\n'
      invariant lo <= i <= hi && '\n' !in data[lo..i]
    {
      assert rem[..hi][i] == data[i];
      i := i + 1;
    }
    assert i < hi ==> rem[..hi][i] == data[i];
    assert rem[..i] == data[..i];
  }
}
