/** A bounded buffer that overwrites its oldest element, against the plain
    specification "the last n of everything appended". */
module Rings {
  import opened Sequences

  /** What a reader of the newest `size` elements sees: the matching ones, oldest
      first, and only the newest `limit` of those when limit is positive. */
  function Visible<T>(history: seq<T>, size: nat, matches: T -> bool, limit: int): seq<T> {
    var kept := LastN(history, size);
    var chosen := Select(kept, |kept|, matches);
    if limit > 0 then LastN(chosen, limit) else chosen
  }

  /** Copies src[lo..hi] to dst[at..]; the two may be the same array. */
  method CopyDown<T>(dst: array<T>, at: nat, src: array<T>, lo: nat, hi: nat)
    requires lo <= hi <= src.Length && at + (hi - lo) <= dst.Length
    requires dst == src ==> at <= lo
    modifies dst
    ensures dst[at..at + (hi - lo)] == old(src[lo..hi])
    ensures dst[..at] == old(dst[..at]) && dst[at + (hi - lo)..] == old(dst[at + (hi - lo)..])
  {
    ghost var d, s := dst[..], src[..];
    for i := 0 to hi - lo
      invariant dst[..at] == d[..at] && dst[at..at + i] == s[lo..lo + i] && dst[at + i..] == d[at + i..]
      invariant src[lo + i..] == s[lo + i..]
    {
      dst[at + i] := src[lo + i];
    }
  }

  /** The elements of a full ring, oldest first. */
  function Unrolled<T>(ring: seq<T>, head: nat): seq<T>
    requires head < |ring|
  {
    ring[head..] + ring[..head]
  }

  function Next(head: nat, size: nat): nat {
    if head + 1 == size then 0 else head + 1
  }

  /** Overwriting the oldest element of a full ring and moving on keeps the newest elements. */
  lemma RingStep<T>(ring: seq<T>, head: nat, e: T)
    requires head < |ring|
    ensures Unrolled(ring[head := e], Next(head, |ring|)) == Unrolled(ring, head)[1..] + [e]
  {
    var r := ring[head := e];
    if head + 1 == |ring| {
      assert Unrolled(r, 0) == ring[..head] + [e];
      assert Unrolled(ring, head) == [ring[head]] + ring[..head];
    } else {
      assert Unrolled(r, head + 1) == ring[head + 1..] + (ring[..head] + [e]);
      assert Unrolled(ring, head) == [ring[head]] + (ring[head + 1..] + ring[..head]);
    }
  }

  lemma NextIsModular(head: nat, size: nat)
    requires head < size
    ensures (head + 1) % size == Next(head, size)
  {
  }

  /** So a full ring goes on holding the last elements of the history. */
  lemma OverwriteKeepsLast<T>(ring: seq<T>, head: nat, full: bool, history: seq<T>, e: T)
    requires head < |ring|
    requires if full then |history| > |ring| && Unrolled(ring, head) == LastN(history, |ring|)
             else head == 0 && ring == history
    ensures Unrolled(ring[head := e], Next(head, |ring|)) == LastN(history + [e], |ring|)
  {
    assert !full ==> Unrolled(ring, 0) == ring;
    RingStep(ring, head, e);
    assert LastN(history + [e], |ring|) == LastN(history, |ring|)[1..] + [e];
  }

  class Ring<T(0)> {
    const cells: array<T>
    var len: nat
    /** Next write index once the ring is full. */
    var head: nat
    var full: bool

    /** Every element ever appended. */
    ghost var history: seq<T>

    ghost predicate Valid()
      reads this, cells
    {
      && cells.Length > 0 && len <= cells.Length && head < cells.Length
      && (if full then |history| > len == cells.Length && Unrolled(cells[..], head) == LastN(history, cells.Length)
          else |history| == len && head == 0 && cells[..len] == history)
    }

    constructor (size: nat)
      requires size > 0
      ensures Valid() && history == [] && cells.Length == size && fresh(cells)
    {
      cells := new T[size];
      len, head, full, history := 0, 0, false, [];
    }

    method Append(e: T)
      requires Valid()
      modifies this, cells
      ensures Valid() && history == old(history) + [e]
    {
      if len < cells.Length {
        cells[len] := e;
        len := len + 1;
      } else {
        assert !full ==> cells[..] == history;
        OverwriteKeepsLast(cells[..], head, full, history, e);
        NextIsModular(head, cells.Length);
        ghost var after := cells[..][head := e];
        cells[head] := e;
        assert cells[..] == after;
        head := (head + 1) % cells.Length;
        full := true;
      }
      history := history + [e];
    }

    /** The ring's contents, oldest first, in an array of their own. */
    method Linear() returns (out: array<T>)
      requires Valid()
      ensures fresh(out) && out[..] == LastN(history, cells.Length)
    {
      out := new T[len];
      if !full {
        CopyDown(out, 0, cells, 0, len);
      } else {
        CopyDown(out, 0, cells, head, cells.Length);
        ghost var mid := cells.Length - head;
        assert out[..mid] == cells[head..];
        CopyDown(out, cells.Length - head, cells, 0, head);
        assert out[..] == out[..mid] + out[mid..];
      }
    }
  }

  /** Moves the matching elements of a to its front, in order. */
  method Compact<T>(a: array<T>, matches: T -> bool) returns (n: nat)
    modifies a
    ensures n <= a.Length && a[..n] == Select(old(a[..]), a.Length, matches)
  {
    ghost var s := a[..];
    n := 0;
    for i := 0 to a.Length
      invariant n <= i && a[..n] == Select(s, i, matches) && a[i..] == s[i..]
    {
      assert a[i] == s[i];
      if matches(a[i]) {
        a[n] := a[i];
        n := n + 1;
      }
    }
  }
}
