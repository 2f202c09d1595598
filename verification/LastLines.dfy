/** Reading the last lines of a file.  Both readers overwrite the oldest line of
    a full buffer; one hands out the lines in order, the other hands its caller
    the buffer and the position of its oldest line. */
module LastLines {
  import opened Sequences
  import opened Rings

  /** A buffer of n lines, written at idx next, after `history`. */
  ghost predicate Holds(buf: seq<string>, idx: nat, history: seq<string>) {
    && idx < |buf|
    && (|history| < |buf| ==> idx == |history| && buf[..idx] == history)
    && (|history| == |buf| ==> idx == 0)
    && (|history| >= |buf| ==> Unrolled(buf, idx) == LastN(history, |buf|))
  }

  lemma HoldsNext(buf: seq<string>, idx: nat, history: seq<string>, line: string)
    requires Holds(buf, idx, history)
    ensures Holds(buf[idx := line], Next(idx, |buf|), history + [line])
  {
    var after := buf[idx := line];
    if |history| >= |buf| {
      RingStep(buf, idx, line);
      assert LastN(history + [line], |buf|) == LastN(history, |buf|)[1..] + [line];
    } else if |history| + 1 == |buf| {
      assert after == history + [line];
      assert Unrolled(after, 0) == after;
    } else {
      assert after[..idx + 1] == history + [line];
    }
  }

  lemma FullHolds(lines: seq<string>)
    requires lines != []
    ensures Holds(lines, 0, lines)
  {
    assert Unrolled(lines, 0) == lines;
  }

  lemma HeldLast(buf: seq<string>, idx: nat, history: seq<string>)
    requires Holds(buf, idx, history)
    ensures LastN(history, |buf|) == if |history| <= |buf| then buf[..|history|] else Unrolled(buf, idx)
  {
    assert Unrolled(buf, 0) == buf;
  }

  /** The last n lines that pass the filter, or all of them if n is not positive. */
  method ReadFileLinesFiltered(lines: seq<string>, n: int, filter: string -> bool) returns (out: seq<string>)
    ensures out == Visible(lines, |lines|, filter, n)
  {
    if n <= 0 {
      out := [];
      for i := 0 to |lines|
        invariant out == Select(lines, i, filter)
      {
        if filter(lines[i]) {
          out := out + [lines[i]];
        }
      }
      return;
    }
    var buf := new string[n](_ => "");
    var idx: nat, count := 0, 0;
    for i := 0 to |lines|
      invariant count == |Select(lines, i, filter)|
      invariant Holds(buf[..], idx, Select(lines, i, filter))
    {
      if filter(lines[i]) {
        HoldsNext(buf[..], idx, Select(lines, i, filter), lines[i]);
        ghost var after := buf[..][idx := lines[i]];
        buf[idx] := lines[i];
        assert buf[..] == after;
        NextIsModular(idx, n);
        idx := (idx + 1) % n;
        count := count + 1;
      }
    }
    HeldLast(buf[..], idx, Select(lines, |lines|, filter));
    if count <= n {
      return buf[..count];
    }
    out := buf[idx..] + buf[..idx];
  }

  /** What the caller of ReadFileLines reads: `lines` from `start` on, cyclically. */
  function Rotated(lines: seq<string>, start: int): seq<string>
    requires -1 <= start < |lines|
  {
    if start < 0 then lines else Unrolled(lines, start)
  }

  /** Before a line is overwritten i is -1; from then on it is where the newest line went. */
  ghost predicate Kept(lines: seq<string>, i: int, n: int, history: seq<string>) {
    if n < 0 || |history| <= n then lines == history && i == -1
    else |lines| == n && 0 <= i < n && Holds(lines, Next(i, n), history)
  }

  lemma FirstOverwrite(lines: seq<string>, line: string)
    requires lines != []
    ensures Kept(lines[0 := line], 0, |lines|, lines + [line])
  {
    FullHolds(lines);
    HoldsNext(lines, 0, lines, line);
  }

  lemma LaterOverwrite(lines: seq<string>, i: int, n: int, line: string, history: seq<string>)
    requires n >= 0 && |history| > n && Kept(lines, i, n, history)
    ensures Kept(lines[Next(i, n) := line], Next(i, n), n, history + [line])
  {
    HoldsNext(lines, Next(i, n), history, line);
  }

  /** The position after the newest line is that of the oldest. */
  lemma Oldest(lines: seq<string>, i: int, n: nat, history: seq<string>)
    requires n > 0 && |history| >= n && Kept(lines, i, n, history)
    ensures (i + 1) % n == (if |history| == n then 0 else Next(i, n)) < |lines| == n
  {
    if |history| > n {
      NextIsModular(i, n);
    }
  }

  method Overwrite(lines: seq<string>, i: int, n: nat, line: string, ghost history: seq<string>)
      returns (lines': seq<string>, i': int)
    requires n > 0 && |history| >= n && Kept(lines, i, n, history)
    ensures Kept(lines', i', n, history + [line])
  {
    Oldest(lines, i, n, history);
    i' := (i + 1) % n;
    lines' := lines[i' := line];
    OverwriteIsKept(lines, i, n, line, history, i');
  }

  lemma OverwriteIsKept(lines: seq<string>, i: int, n: nat, line: string, history: seq<string>, at: int)
    requires n > 0 && |history| >= n && Kept(lines, i, n, history)
    requires at == (if |history| == n then 0 else Next(i, n)) < |lines| == n
    ensures Kept(lines[at := line], at, n, history + [line])
  {
    if |history| == n {
      FirstOverwrite(lines, line);
    } else {
      LaterOverwrite(lines, i, n, line, history);
    }
  }

  lemma GrowthIsKept(lines: seq<string>, i: int, n: int, line: string, history: seq<string>)
    requires Kept(lines, i, n, history) && (n < 0 || |lines| < n)
    ensures Kept(lines + [line], i, n, history + [line])
  {
  }

  /** Without a position to write to the reader fails. */
  method Place(lines: seq<string>, i: int, n: int, file: seq<string>, k: nat)
    returns (ok: bool, lines': seq<string>, i': int)
    requires k < |file| && Kept(lines, i, n, file[..k]) && (n == 0 ==> k == 0)
    ensures ok <==> n != 0
    ensures ok ==> Kept(lines', i', n, file[..k + 1])
  {
    ok, lines', i' := true, lines, i;
    var line := file[k];
    ghost var history := file[..k];
    assert file[..k + 1] == history + [line];
    if n < 0 || |lines| < n {
      GrowthIsKept(lines, i, n, line, history);
      lines' := lines + [line];
    } else if n == 0 {
      ok := false;
    } else {
      lines', i' := Overwrite(lines, i, n, line, history);
    }
  }

  lemma KeptRotates(lines: seq<string>, i: int, n: int, history: seq<string>)
    requires Kept(lines, i, n, history)
    requires n == 0 ==> history == []
    ensures i >= 0 <==> 0 <= n < |history|
    ensures i < 0 ==> i == -1 && lines == if n < 0 then history else LastN(history, n)
    ensures i >= 0 ==> 0 <= (i + 1) % n < |lines| && Rotated(lines, (i + 1) % n) == LastN(history, n)
  {
    if i >= 0 {
      HeldLast(lines, Next(i, n), history);
      NextIsModular(i, n);
    }
  }

  method Collect(file: seq<string>, n: int) returns (ok: bool, lines: seq<string>, i: int)
    ensures !ok <==> n == 0 && file != []
    ensures ok ==> Kept(lines, i, n, file)
  {
    ok, lines, i := true, [], -1;
    for k := 0 to |file|
      invariant ok && Kept(lines, i, n, file[..k]) && (n == 0 ==> k == 0)
    {
      ok, lines, i := Place(lines, i, n, file, k);
      if !ok {
        return;
      }
    }
    assert file[..|file|] == file;
  }

  /** The last n lines, or all if n is negative.  For n == 0 there is no position
      to write to, and the first line makes the reader fail. */
  method ReadFileLines(file: seq<string>, n: int) returns (ok: bool, lines: seq<string>, i: int)
    ensures !ok <==> n == 0 && file != []
    ensures ok ==> -1 <= i < |lines|
    ensures ok ==> Rotated(lines, i) == if n < 0 then file else LastN(file, n)
    ensures ok ==> (i >= 0 <==> 0 <= n < |file|)
  {
    ok, lines, i := Collect(file, n);
    if ok {
      i := StartAt(lines, i, n, file);
    }
  }

  /** The position of the oldest line, if lines were dropped. */
  method StartAt(lines: seq<string>, i: int, n: int, ghost history: seq<string>) returns (start: int)
    requires Kept(lines, i, n, history) && (n == 0 ==> history == [])
    ensures -1 <= start < |lines| && (start >= 0 <==> 0 <= n < |history|)
    ensures Rotated(lines, start) == if n < 0 then history else LastN(history, n)
  {
    KeptRotates(lines, i, n, history);
    start := if i >= 0 then (i + 1) % n else i;
  }
}
