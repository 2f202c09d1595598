/** Which installed versions survive pruning.  The specification counts, for
    each candidate, how many candidates are newer. */
module Retention {
  import opened Options
  import opened Strings
  import opened Versions
  import opened Spelling
  import opened BinStore
  import opened Ranking

  /** The order pruning goes by: numeric version order, then spelling. */
  predicate Newer(a: string, b: string) {
    Compare(a, b) > 0 || (Compare(a, b) == 0 && Above(a, b))
  }

  lemma NewerIsTotalOrder(a: string, b: string, c: string)
    ensures !Newer(a, a)
    ensures a == b || Newer(a, b) || Newer(b, a)
    ensures Newer(a, b) && Newer(b, c) ==> Newer(a, c)
  {
    AboveIsTotalOrder(a, b, c);
  }

  lemma AboveIsStrictTotal()
    ensures StrictTotal(Above)
  {
    forall a, b, c
      ensures !Above(a, a)
      ensures a == b || Above(a, b) || Above(b, a)
      ensures Above(a, b) && Above(b, c) ==> Above(a, c)
    {
      AboveIsTotalOrder(a, b, c);
    }
  }

  lemma NewerIsStrictTotal()
    ensures StrictTotal(Newer)
  {
    forall a, b, c
      ensures !Newer(a, a)
      ensures a == b || Newer(a, b) || Newer(b, a)
      ensures Newer(a, b) && Newer(b, c) ==> Newer(a, c)
    {
      NewerIsTotalOrder(a, b, c);
    }
  }

  predicate HigherNumber(a: string, b: string) {
    Compare(a, b) > 0
  }

  /** Sorting a listing stably by version number puts it newest first. */
  lemma SortedNewestFirst(list: seq<string>)
    requires Ordered(Above, list)
    ensures Ordered(Newer, Sort(HigherNumber, list)) && Elements(Sort(HigherNumber, list)) == Elements(list)
  {
    NewerIsStrictTotal();
    forall a, b
      ensures HigherNumber(a, b) ==> Newer(a, b)
      ensures !HigherNumber(b, a) && Above(a, b) ==> Newer(a, b)
    {
      CompareIsTotalPreorder(a, b, b);
    }
    SortOrdered(HigherNumber, Above, Newer, list);
  }

  /** The listing itself, in byte order, puts the tag of a newer version before
      that of an older one exactly if, in the first segment that differs, the
      older number is at most what as many leading digits of the newer form. */
  lemma ListingAgreesIff(a: Version, b: Version, prefixed: bool, sa: string, sb: string)
    requires Below(a, b)
    requires a.year <= MAX_INT && a.month <= MAX_INT && a.patch <= MAX_INT
    requires b.year <= MAX_INT && b.month <= MAX_INT && b.patch <= MAX_INT
    requires sa != "" ==> sa[0] in {'-', '+', ' '}
    requires sb != "" ==> sb[0] in {'-', '+', ' '}
    ensures var (m, n) := FirstGap(a, b);
      && m < n && |Digits(m)| <= |Digits(n)|
      && Newer(Tag(b, prefixed, sb), Tag(a, prefixed, sa))
      && (Above(Tag(b, prefixed, sb), Tag(a, prefixed, sa)) <==> m <= Leading(n, |Digits(m)|))
  {
    TagsSortIff(a, b, prefixed, sa, sb);
    TagsCompareNumerically(b, a, prefixed, prefixed, sb, sa);
  }

  // ---- Who survives ------------------------------------------------------

  /** Versions pruning may remove. */
  function Candidates(s: State, pinned: set<string>): set<string> {
    set v | v in s.installed && v != "current" && v != s.active && v !in pinned
  }

  /** What is installed after pruning. */
  ghost function Survivors(s: State, pinned: set<string>, keep: int, undeletable: set<string>): set<string> {
    if keep <= 0 then s.installed
    else
      var c := Candidates(s, pinned);
      set v | v in s.installed && (v !in c || AmongFirst(Newer, c, keep, v) || v in undeletable)
  }

  /** A version goes exactly if pruning is on, it is neither the alias nor active
      nor pinned nor stuck, and at least `keep` versions that are none of the
      first three either are newer. */
  lemma GoesIff(s: State, pinned: set<string>, keep: int, undeletable: set<string>, v: string)
    requires v in s.installed
    ensures v !in Survivors(s, pinned, keep, undeletable) <==>
            && keep > 0 && v !in {"current", s.active} && v !in pinned && v !in undeletable
            && |NewerThan(s, pinned, v)| >= keep
  {
    NewerAreAhead(s, pinned, v);
  }

  /** The versions that are newer than v and neither alias, active nor pinned. */
  ghost function NewerThan(s: State, pinned: set<string>, v: string): set<string> {
    set w | w in s.installed && w !in {"current", s.active} && w !in pinned && Newer(w, v)
  }

  lemma NewerAreAhead(s: State, pinned: set<string>, v: string)
    ensures Ahead(Newer, Candidates(s, pinned), v) == NewerThan(s, pinned, v)
  {
  }

  /** When every removal succeeds, the candidates that stay are `keep` in number,
      or all if there are fewer, and none of them is older than a removed one. */
  lemma KeptAreTheNewest(s: State, pinned: set<string>, keep: nat)
    requires keep > 0
    ensures var c := Candidates(s, pinned);
      var stay := c * Survivors(s, pinned, keep, {});
      && |stay| == (if |c| < keep then |c| else keep)
      && (forall v, w :: v in stay && w in c - stay ==> Compare(v, w) >= 0)
      && Survivors(s, pinned, keep, {}) == stay + (s.installed - c)
  {
    var c := Candidates(s, pinned);
    var stay := c * Survivors(s, pinned, keep, {});
    NewerIsStrictTotal();
    assert stay == First(Newer, c, keep);
    FirstSize(Newer, c, keep);
    forall v, w | v in stay && w in c - stay
      ensures Compare(v, w) >= 0
    {
      FirstStandAhead(Newer, c, keep, v, w);
    }
  }

  // ---- Pruning -----------------------------------------------------------

  /** The listing the store returns: every installed version but the alias, by name. */
  method List(store: Store) returns (list: seq<string>)
    ensures Ordered(Above, list) && Elements(list) == store.installed - {"current"}
  {
    list := [];
    AboveIsStrictTotal();
    var todo := store.installed - {"current"};
    while todo != {}
      invariant todo <= store.installed - {"current"}
      invariant Ordered(Above, list) && Elements(list) == store.installed - {"current"} - todo
      decreases todo
    {
      var v :| v in todo;
      assert forall x :: x in list ==> x in Elements(list);
      InsertOrdered(Above, Above, v, list);
      list := Insert(Above, v, list);
      todo := todo - {v};
    }
  }

  /** Deleting an installed version by the name of its directory. */
  lemma DeleteByName(s: State, v: string)
    requires IsName(v) && v != MARKER && v != s.active
    ensures Apply(s, Deleted(v)) == s.(installed := s.installed - {v})
  {
    NameIsEntry(s.root, v);
  }

  /** Walks a listing that is ordered by r, sparing the active version, the
      pinned ones and the first `keep` others. */
  method PruneListed(store: Store, list: seq<string>, pinned: set<string>, keep: nat, ghost r: (string, string) -> bool)
    requires store.Valid()
    requires StrictTotal(r) && Ordered(r, list) && Elements(list) == store.installed - {"current"}
    modifies store
    ensures store.Valid() && store.active == old(store.active)
    ensures var c := Candidates(old(store.View()), pinned);
      store.installed == Remaining(r, old(store.installed), c, c, keep, store.undeletable)
  {
    var kept := 0;
    ghost var c := Candidates(store.View(), pinned);
    ghost var before := store.installed;
    for i := 0 to |list|
      invariant store.Valid() && store.active == old(store.active)
      invariant kept == |Seen(c, list, i)|
      invariant store.installed == Remaining(r, before, c, Seen(c, list, i), keep, store.undeletable)
    {
      var v := list[i];
      assert v in Elements(list);
      RemainingStep(r, before, c, list, i, keep, store.undeletable);
      if v == store.active || v in pinned {
        continue;
      }
      kept := kept + 1;
      if kept <= keep {
        continue;
      }
      DeleteByName(store.View(), v);
      var _ := store.Delete(v);
    }
    assert Seen(c, list, |list|) == c by {
      assert forall v :: v in c ==> v in Elements(list);
    }
  }

  method Prune(store: Store, pinned: set<string>, keep: int)
    requires store.Valid()
    modifies store
    ensures store.Valid()
    ensures store.installed == Survivors(old(store.View()), pinned, keep, store.undeletable)
    ensures store.active == old(store.active)
  {
    if keep > 0 {
      var byName := List(store);
      SortedNewestFirst(byName);
      NewerIsStrictTotal();
      PruneListed(store, Sort(HigherNumber, byName), pinned, keep, Newer);
    }
  }

  /** Pruning never takes the binary away from under an instance that can run. */
  lemma PruningKeepsRunnable(s: State, pinned: set<string>, keep: int, undeletable: set<string>, version: string)
    requires Resolve(s, version).Some? && (Trim(version) in pinned + {"", "current"})
    ensures Resolve(s.(installed := Survivors(s, pinned, keep, undeletable)), version) == Resolve(s, version)
  {
  }

  // ---- Sequences of operations -------------------------------------------

  /** A store operation, or a pruning. */
  datatype Change = Changed(op: Op) | Pruned(pinned: set<string>, keep: int, undeletable: set<string>)

  ghost function After(s: State, change: Change): State {
    match change
    case Changed(op) => Apply(s, op)
    case Pruned(pinned, keep, undeletable) => s.(installed := Survivors(s, pinned, keep, undeletable))
  }

  ghost function Run(s: State, changes: seq<Change>): State
    decreases |changes|
  {
    if changes == [] then s else Run(After(s, changes[0]), changes[1..])
  }

  ghost predicate AllHarmless(s: State, changes: seq<Change>)
    decreases |changes|
  {
    changes == [] ||
    ((changes[0].Changed? ==> !Harmful(s, changes[0].op)) && AllHarmless(After(s, changes[0]), changes[1..]))
  }

  lemma ChangeKeepsRunnable(s: State, change: Change)
    requires Runnable(s) && (change.Changed? ==> !Harmful(s, change.op))
    ensures Runnable(After(s, change))
  {
    match change
    case Changed(op) => RunnableIffHarmless(s, op);
    case Pruned(pinned, keep, undeletable) =>
      RunnableIsActive(s);
      RunnableIsActive(After(s, change));
  }

  /** However installations, activations, deletions and prunings follow each
      other, the active version stays runnable as long as none does harm. */
  lemma {:induction false} RunsStayRunnable(s: State, changes: seq<Change>)
    requires Runnable(s) && AllHarmless(s, changes)
    ensures Runnable(Run(s, changes))
    decreases |changes|
  {
    if changes != [] {
      ChangeKeepsRunnable(s, changes[0]);
      RunsStayRunnable(After(s, changes[0]), changes[1..]);
    }
  }
}
