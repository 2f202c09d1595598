/** The alert engine: every evaluation of a rule updates the rule's memory,
    publishes what changed and records it in the table of alert events. */
module Alerts {
  import opened Options
  import opened Sequences
  import opened Traffic

  datatype Rule = Rule(id: string, enabled: bool, instance: string, metric: string, op: string, threshold: real,
      forSeconds: int, target: string)

  /** `since` is 0 when the rule is not breached. */
  datatype Memory = Memory(since: int, fired: bool)

  datatype Note = Firing(rule: string, instance: string, target: string, firedAt: int, value: real)
                | Resolved(rule: string, instance: string, target: string, firedAt: int, resolvedAt: int, value: real)

  /** `resolvedAt` is 0 while the row is firing. */
  datatype Row = Row(rule: string, instance: string, target: string, firedAt: int, resolvedAt: int, value: real,
      firing: bool)

  /** The key of a row is the rule and the second it fired. */
  type Key = (string, int)

  /** `statements` counts the database statements so far. */
  datatype State = State(memory: map<string, Memory>, rows: map<Key, Row>, published: seq<Note>, statements: nat)

  datatype Eval = Eval(rule: Rule, instance: string, target: string, value: real, now: int)

  predicate Exceeds(v: real, op: string, threshold: real) {
    match op
    case ">" => v > threshold
    case ">=" => v >= threshold
    case "<" => v < threshold
    case "<=" => v <= threshold
    case _ => false
  }

  predicate Breached(e: Eval) {
    Exceeds(e.value, e.rule.op, e.rule.threshold)
  }

  const QUIET := Memory(0, false)

  function Recall(memory: map<string, Memory>, id: string): Memory {
    if id in memory then memory[id] else QUIET
  }

  /** What one evaluation makes of the rule's memory. */
  function Remember(m: Memory, breached: bool, forSeconds: int, now: int): Memory {
    if !breached then QUIET
    else
      var since := if m.since == 0 then now else m.since;
      Memory(since, m.fired || now - since >= forSeconds)
  }

  function Settle(rows: map<Key, Row>, rule: string, now: int): map<Key, Row> {
    map k | k in rows :: if rows[k].rule == rule && rows[k].firing then rows[k].(firing := false, resolvedAt := now)
        else rows[k]
  }

  /** `works` tells which statements the database executes. */
  function Applied(s: State, works: nat -> bool, e: Eval): State {
    var id := e.rule.id;
    var before := Recall(s.memory, id);
    var after := Remember(before, Breached(e), e.rule.forSeconds, e.now);
    var s := s.(memory := s.memory[id := after]);
    if after.fired && !before.fired then
      State(s.memory,
            if works(s.statements) && (id, e.now) !in s.rows
            then s.rows[(id, e.now) := Row(id, e.instance, e.target, e.now, 0, e.value, true)] else s.rows,
            s.published + [Firing(id, e.instance, e.target, e.now, e.value)],
            s.statements + 1)
    else if before.fired && !after.fired then
      State(s.memory,
            if works(s.statements) then Settle(s.rows, id, e.now) else s.rows,
            s.published + [Resolved(id, e.instance, e.target, before.since, e.now, e.value)],
            s.statements + 1)
    else s
  }

  function AppliedAll(s: State, works: nat -> bool, evals: seq<Eval>, n: nat): State
    requires n <= |evals|
  {
    if n == 0 then s else Applied(AppliedAll(s, works, evals, n - 1), works, evals[n - 1])
  }

  /** A sampler that starts on the table an earlier one has left: the rows are
      on disk, the memory is not. */
  function Started(rows: map<Key, Row>): State {
    State(map[], rows, [], 0)
  }

  // ---- One rule's own history --------------------------------------------

  /** The evaluations of one rule. */
  function Own(evals: seq<Eval>, n: nat, id: string): seq<Eval>
    requires n <= |evals|
  {
    Select(evals, n, (e: Eval) => e.rule.id == id)
  }

  function Remembered(own: seq<Eval>, n: nat): Memory
    requires n <= |own|
  {
    if n == 0 then QUIET
    else Remember(Remembered(own, n - 1), Breached(own[n - 1]), own[n - 1].rule.forSeconds, own[n - 1].now)
  }

  lemma {:induction false} RememberedPrefix(own: seq<Eval>, e: Eval, n: nat)
    requires n <= |own|
    ensures Remembered(own + [e], n) == Remembered(own, n)
  {
    if n > 0 {
      RememberedPrefix(own, e, n - 1);
    }
  }

  lemma AppliedRemembers(s: State, works: nat -> bool, e: Eval)
    ensures Applied(s, works, e).memory ==
            s.memory[e.rule.id := Remember(Recall(s.memory, e.rule.id), Breached(e), e.rule.forSeconds, e.now)]
  {
  }

  lemma RememberedNext(own: seq<Eval>, e: Eval)
    ensures Remembered(own + [e], |own| + 1) == Remember(Remembered(own, |own|), Breached(e), e.rule.forSeconds, e.now)
  {
    RememberedPrefix(own, e, |own|);
  }

  /** Rules do not interfere: what is remembered of a rule depends on its own
      evaluations only. */
  lemma {:induction false} RulesAreIndependent(rows: map<Key, Row>, works: nat -> bool, evals: seq<Eval>, n: nat,
      id: string)
    requires n <= |evals|
    ensures var own := Own(evals, n, id);
      Recall(AppliedAll(Started(rows), works, evals, n).memory, id) == Remembered(own, |own|)
  {
    if n > 0 {
      RulesAreIndependent(rows, works, evals, n - 1, id);
      var own, e := Own(evals, n - 1, id), evals[n - 1];
      AppliedRemembers(AppliedAll(Started(rows), works, evals, n - 1), works, e);
      RememberedNext(own, e);
      assert Own(evals, n, id) == if e.rule.id == id then own + [e] else own;
    }
  }

  ghost predicate Forward(own: seq<Eval>) {
    && (forall k :: 0 <= k < |own| ==> own[k].now > 0)
    && (forall j, k :: 0 <= j <= k < |own| ==> own[j].now <= own[k].now)
  }

  /** From evaluation j on, up to the n-th, every evaluation breached. */
  ghost predicate BreachedFrom(own: seq<Eval>, j: int, n: int) {
    0 <= j <= n <= |own| && forall k :: j <= k < n ==> Breached(own[k])
  }

  /** The breach under way since evaluation j had lasted long enough at evaluation m. */
  ghost predicate HeldAt(own: seq<Eval>, j: int, m: int, n: int) {
    BreachedFrom(own, j, n) && j <= m < n && own[m].now - own[j].now >= own[m].rule.forSeconds
  }

  lemma {:induction false} SinceIsBreachStart(own: seq<Eval>, n: nat) returns (start: nat)
    requires Forward(own) && n <= |own|
    ensures start <= n && BreachedFrom(own, start, n) && (start > 0 ==> !Breached(own[start - 1]))
    ensures Remembered(own, n).since == if start < n then own[start].now else 0
  {
    start := 0;
    if n > 0 {
      start := SinceIsBreachStart(own, n - 1);
      if !Breached(own[n - 1]) {
        start := n;
      }
    }
  }

  /** A rule counts as fired exactly while a breach is under way that has, at
      some evaluation, lasted at least as long as the rule asked for then. */
  lemma {:induction false} FiredIffHeld(own: seq<Eval>, n: nat)
    requires Forward(own) && n <= |own|
    ensures Remembered(own, n).fired <==> exists j, m :: HeldAt(own, j, m, n)
  {
    if n > 0 {
      FiredIffHeld(own, n - 1);
      var start := SinceIsBreachStart(own, n - 1);
      var e := own[n - 1];
      if Breached(e) {
        if Remembered(own, n - 1).fired {
          var j, m :| HeldAt(own, j, m, n - 1);
          assert HeldAt(own, j, m, n);
        } else if Remembered(own, n).fired {
          assert HeldAt(own, start, n - 1, n);
        } else {
          forall j, m
            ensures !HeldAt(own, j, m, n)
          {
            assert !HeldAt(own, j, m, n - 1);
          }
        }
      }
    }
  }

  // ---- What a rule compares ----------------------------------------------

  /** An evaluation of a rule that is not breached starts a breach exactly if the
      value stands to the threshold as the rule's operator says; a rule with any
      other operator is never breached. */
  lemma BreachStartsIff(s: State, works: nat -> bool, e: Eval)
    requires Recall(s.memory, e.rule.id) == QUIET && e.now > 0
    ensures var r, v := e.rule, e.value;
      var since := Recall(Applied(s, works, e).memory, r.id).since;
      && (r.op == ">" ==> (since == e.now <==> v > r.threshold))
      && (r.op == ">=" ==> (since == e.now <==> !(v < r.threshold)))
      && (r.op == "<" ==> (since == e.now <==> v < r.threshold))
      && (r.op == "<=" ==> (since == e.now <==> !(v > r.threshold)))
      && (r.op !in {">", ">=", "<", "<="} ==> since == 0)
      && since in {0, e.now}
  {
    AppliedRemembers(s, works, e);
  }

  /** And it ends one that is under way exactly if it does not: the rule is quiet
      again, and if it had fired, the resolution is published and recorded. */
  lemma BreachEndsIff(s: State, works: nat -> bool, e: Eval)
    requires e.rule.op in {">", ">=", "<", "<="}
    requires Recall(s.memory, e.rule.id).since != 0 && works(s.statements)
    ensures var s', m, r, v := Applied(s, works, e), Recall(s.memory, e.rule.id), e.rule, e.value;
      var over := match r.op
                  case ">" => v <= r.threshold
                  case ">=" => v < r.threshold
                  case "<" => v >= r.threshold
                  case _ => v > r.threshold;
      && (Recall(s'.memory, r.id) == QUIET <==> over)
      && (over && m.fired ==>
            && s'.published == s.published + [Resolved(r.id, e.instance, e.target, m.since, e.now, v)]
            && FiringRows(s', r.id) == {}
            && forall k :: k in FiringRows(s, r.id) ==>
                 k in s'.rows && s'.rows[k] == s.rows[k].(firing := false, resolvedAt := e.now))
      && (over && !m.fired ==> s'.published == s.published && s'.rows == s.rows)
  {
    AppliedRemembers(s, works, e);
  }

  /** Rows of other rules and rows that are no longer firing are never changed. */
  lemma OtherRowsStay(s: State, works: nat -> bool, e: Eval, k: Key)
    requires k in s.rows && (s.rows[k].rule != e.rule.id || !s.rows[k].firing)
    ensures k in Applied(s, works, e).rows && Applied(s, works, e).rows[k] == s.rows[k]
  {
  }

  /** A statement that the database does not execute leaves the table alone, and
      nothing else depends on it. */
  lemma FailedStatementsChangeNothing(s: State, works: nat -> bool, other: nat -> bool, e: Eval)
    requires !works(s.statements)
    ensures var failed, s' := Applied(s, works, e), Applied(s, other, e);
      failed.rows == s.rows && failed.memory == s'.memory && failed.published == s'.published
  {
  }

  /** A breach fires at the first evaluation at which it has lasted as long as the
      rule asks for, and then its row tells what was seen. */
  lemma FiringIsRecorded(s: State, works: nat -> bool, e: Eval)
    requires Breached(e) && e.now > 0 && !Recall(s.memory, e.rule.id).fired
    requires works(s.statements) && (e.rule.id, e.now) !in s.rows
    ensures var s', m := Applied(s, works, e), Recall(s.memory, e.rule.id);
      if (m.since == 0 && e.rule.forSeconds > 0) || (m.since != 0 && e.now - m.since < e.rule.forSeconds) then
        s'.published == s.published && s'.rows == s.rows
      else
        && s'.published == s.published + [Firing(e.rule.id, e.instance, e.target, e.now, e.value)]
        && s'.rows == s.rows[(e.rule.id, e.now) := Row(e.rule.id, e.instance, e.target, e.now, 0, e.value, true)]
  {
  }

  // ---- What is published and recorded ------------------------------------

  function NotesOf(published: seq<Note>, n: nat, id: string): seq<Note>
    requires n <= |published|
  {
    Select(published, n, About(id))
  }

  function About(id: string): Note -> bool {
    (note: Note) => note.rule == id
  }

  /** Firing and resolved in turn, firing first. */
  ghost predicate Alternating(notes: seq<Note>) {
    forall k :: 0 <= k < |notes| ==> (notes[k].Firing? <==> k % 2 == 0)
  }

  ghost predicate InTurn(s: State, id: string) {
    var notes := NotesOf(s.published, |s.published|, id);
    Alternating(notes) && (Recall(s.memory, id).fired <==> |notes| % 2 == 1)
  }

  /** What an evaluation adds to the published notes. */
  lemma AppliedPublishes(s: State, works: nat -> bool, e: Eval)
    ensures var before, s' := Recall(s.memory, e.rule.id).fired, Applied(s, works, e);
      var after := Recall(s'.memory, e.rule.id).fired;
      if before == after then s'.published == s.published && s'.rows == s.rows
      else
        && s'.published != [] && s'.published[..|s'.published| - 1] == s.published
        && s'.published[|s.published|].rule == e.rule.id
        && (s'.published[|s.published|].Firing? <==> after)
  {
  }

  lemma StepStaysInTurn(s: State, works: nat -> bool, e: Eval, id: string)
    requires InTurn(s, id)
    ensures InTurn(Applied(s, works, e), id)
  {
    var s' := Applied(s, works, e);
    AppliedRemembers(s, works, e);
    AppliedPublishes(s, works, e);
    if s'.published != s.published {
      var note := s'.published[|s.published|];
      assert s'.published == s.published + [note];
      SelectPrefix(s.published, note, |s.published|, About(id));
    }
  }

  /** Whatever the times and the rules, the notes published about a rule are
      firing and resolved in turn, and the last one says whether it has fired. */
  lemma {:induction false} NotesAlternate(rows: map<Key, Row>, works: nat -> bool, evals: seq<Eval>, n: nat, id: string)
    requires n <= |evals|
    ensures InTurn(AppliedAll(Started(rows), works, evals, n), id)
  {
    if n > 0 {
      NotesAlternate(rows, works, evals, n - 1, id);
      StepStaysInTurn(AppliedAll(Started(rows), works, evals, n - 1), works, evals[n - 1], id);
    }
  }

  ghost function FiringRows(s: State, id: string): set<Key> {
    set k | k in s.rows && s.rows[k].rule == id && s.rows[k].firing
  }

  /** The table shows one firing row for a fired rule, and none for another. */
  ghost predicate TableAgrees(s: State, id: string) {
    |FiringRows(s, id)| == if Recall(s.memory, id).fired then 1 else 0
  }

  ghost predicate Keyed(s: State) {
    forall k :: k in s.rows ==> s.rows[k].rule == k.0
  }

  predicate Fires(s: State, e: Eval) {
    var m := Recall(s.memory, e.rule.id);
    !m.fired && Remember(m, Breached(e), e.rule.forSeconds, e.now).fired
  }

  lemma SettledHasNone(rows: map<Key, Row>, id: string, now: int, s: State)
    requires s.rows == Settle(rows, id, now)
    ensures FiringRows(s, id) == {}
    ensures forall o: string :: o != id ==> FiringRows(s, o) == FiringRows(s.(rows := rows), o)
  {
  }

  lemma InsertedAdds(s: State, key: Key, row: Row, s': State)
    requires s'.rows == s.rows[key := row] && key !in s.rows && row.rule == key.0 && row.firing
    ensures FiringRows(s', key.0) == FiringRows(s, key.0) + {key} && key !in FiringRows(s, key.0)
    ensures forall o: string :: o != key.0 ==> FiringRows(s', o) == FiringRows(s, o)
  {
  }

  /** While the database works, an evaluation keeps table and memory in
      agreement exactly if it is not the second time the rule fires within one
      second. */
  lemma TableAgreesIff(s: State, works: nat -> bool, e: Eval)
    requires Keyed(s) && works(s.statements) && TableAgrees(s, e.rule.id)
    ensures Keyed(Applied(s, works, e))
    ensures TableAgrees(Applied(s, works, e), e.rule.id) <==> !(Fires(s, e) && (e.rule.id, e.now) in s.rows)
  {
    var id, s' := e.rule.id, Applied(s, works, e);
    AppliedRemembers(s, works, e);
    var before, after := Recall(s.memory, id).fired, Recall(s'.memory, id).fired;
    if before && !after {
      SettledHasNone(s.rows, id, e.now, s');
    } else if Fires(s, e) && (id, e.now) !in s.rows {
      InsertedAdds(s, (id, e.now), s'.rows[(id, e.now)], s');
    } else {
      assert FiringRows(s', id) == FiringRows(s, id);
    }
  }

  // ---- From any table ----------------------------------------------------

  /** The sampler has resolved the rule at least once. */
  ghost predicate Cleared(s: State, id: string) {
    exists note :: note in s.published && note.Resolved? && note.rule == id
  }

  /** The firing rows of an earlier sampler that are still there: resolving takes
      them along. */
  ghost function Leftover(rows: map<Key, Row>, s: State, id: string): set<Key> {
    if Cleared(s, id) then {} else FiringRows(Started(rows), id)
  }

  /** Apart from those, the table shows one firing row for a fired rule, and none
      for another. */
  ghost predicate Accounted(rows: map<Key, Row>, s: State, id: string) {
    && Leftover(rows, s, id) <= FiringRows(s, id)
    && |FiringRows(s, id) - Leftover(rows, s, id)| == if Recall(s.memory, id).fired then 1 else 0
  }

  lemma AppliedClears(s: State, works: nat -> bool, e: Eval, id: string)
    ensures Cleared(Applied(s, works, e), id) <==>
            Cleared(s, id)
            || (id == e.rule.id && Recall(s.memory, id).fired && !Recall(Applied(s, works, e).memory, id).fired)
  {
    var s' := Applied(s, works, e);
    AppliedRemembers(s, works, e);
    AppliedPublishes(s, works, e);
    if s'.published != s.published {
      var note := s'.published[|s.published|];
      assert s'.published == s.published + [note];
      assert note in s'.published;
      assert forall x :: x in s'.published <==> x in s.published || x == note;
    }
  }

  lemma InsertedIsOne(s: State, key: Key, row: Row, s': State, left: set<Key>)
    requires s'.rows == s.rows[key := row] && key !in s.rows && row.rule == key.0 && row.firing
    requires left <= FiringRows(s, key.0) && |FiringRows(s, key.0) - left| == 0
    ensures left <= FiringRows(s', key.0) && |FiringRows(s', key.0) - left| == 1
  {
    InsertedAdds(s, key, row, s');
    assert FiringRows(s', key.0) - left == (FiringRows(s, key.0) - left) + {key};
  }

  lemma StepAccounts(rows: map<Key, Row>, s: State, works: nat -> bool, e: Eval)
    requires works(s.statements) && Accounted(rows, s, e.rule.id)
    requires Fires(s, e) ==> (e.rule.id, e.now) !in s.rows
    ensures Accounted(rows, Applied(s, works, e), e.rule.id)
  {
    var id, s' := e.rule.id, Applied(s, works, e);
    AppliedRemembers(s, works, e);
    AppliedClears(s, works, e, id);
    if Recall(s.memory, id).fired && !Recall(s'.memory, id).fired {
      SettledHasNone(s.rows, id, e.now, s');
    } else if Fires(s, e) {
      InsertedIsOne(s, (id, e.now), s'.rows[(id, e.now)], s', Leftover(rows, s, id));
    } else {
      assert FiringRows(s', id) == FiringRows(s, id);
    }
  }

  lemma OthersKeepRows(s: State, works: nat -> bool, e: Eval, id: string)
    requires Keyed(s) && id != e.rule.id
    ensures FiringRows(Applied(s, works, e), id) == FiringRows(s, id)
  {
  }

  lemma SameAccounts(rows: map<Key, Row>, s: State, s': State, id: string)
    requires Accounted(rows, s, id) && FiringRows(s', id) == FiringRows(s, id)
    requires Recall(s'.memory, id).fired == Recall(s.memory, id).fired && (Cleared(s', id) <==> Cleared(s, id))
    ensures Accounted(rows, s', id)
  {
  }

  lemma OthersAccount(rows: map<Key, Row>, s: State, works: nat -> bool, e: Eval, id: string)
    requires Keyed(s) && id != e.rule.id && Accounted(rows, s, id)
    ensures Accounted(rows, Applied(s, works, e), id)
  {
    var s' := Applied(s, works, e);
    AppliedRemembers(s, works, e);
    AppliedClears(s, works, e, id);
    OthersKeepRows(s, works, e, id);
    SameAccounts(rows, s, s', id);
  }

  lemma AppliedKeepsKeys(s: State, works: nat -> bool, e: Eval)
    requires Keyed(s)
    ensures Keyed(Applied(s, works, e))
  {
  }

  /** The evaluations of the rule are at most one a second, and none falls into a
      second for which the table already has a row of the rule. */
  ghost predicate OncePerSecond(rows: map<Key, Row>, evals: seq<Eval>, id: string) {
    && (forall i, j :: 0 <= i < j < |evals| && evals[i].rule.id == id && evals[j].rule.id == id ==>
          evals[i].now < evals[j].now)
    && (forall i :: 0 <= i < |evals| && evals[i].rule.id == id ==> (id, evals[i].now) !in rows)
  }

  /** Every row of the rule was there before or is from one of the first n evaluations. */
  ghost predicate RowsFrom(rows: map<Key, Row>, s: State, evals: seq<Eval>, n: nat, id: string)
    requires n <= |evals|
  {
    forall k :: k in s.rows && k.0 == id ==>
      k in rows || exists i :: 0 <= i < n && evals[i].rule.id == id && evals[i].now == k.1
  }

  lemma StepAddsOwnRow(rows: map<Key, Row>, s: State, works: nat -> bool, evals: seq<Eval>, n: nat, id: string)
    requires n < |evals| && RowsFrom(rows, s, evals, n, id)
    ensures RowsFrom(rows, Applied(s, works, evals[n]), evals, n + 1, id)
  {
  }

  lemma NextAccounts(rows: map<Key, Row>, s: State, works: nat -> bool, evals: seq<Eval>, n: nat, id: string)
    requires n < |evals| && OncePerSecond(rows, evals, id) && works(s.statements)
    requires Keyed(s) && RowsFrom(rows, s, evals, n, id) && Accounted(rows, s, id)
    ensures var s' := Applied(s, works, evals[n]);
      Keyed(s') && RowsFrom(rows, s', evals, n + 1, id) && Accounted(rows, s', id)
  {
    var e := evals[n];
    StepAddsOwnRow(rows, s, works, evals, n, id);
    AppliedKeepsKeys(s, works, e);
    if e.rule.id == id {
      assert (id, e.now) !in s.rows;
      StepAccounts(rows, s, works, e);
    } else {
      OthersAccount(rows, s, works, e, id);
    }
  }

  /** What the n-th evaluation keeps, whatever the state, a run keeps. */
  lemma {:induction false} RunsKeep(
      good: (State, nat) -> bool, start: State, works: nat -> bool, evals: seq<Eval>, n: nat)
    requires good(start, 0) && n <= |evals|
    requires forall s, k: nat :: k < n && good(s, k) ==> good(Applied(s, works, evals[k]), k + 1)
    ensures good(AppliedAll(start, works, evals, n), n)
  {
    if n > 0 {
      RunsKeep(good, start, works, evals, n - 1);
    }
  }

  ghost function InBooks(rows: map<Key, Row>, evals: seq<Eval>, id: string): (State, nat) -> bool {
    (s: State, n: nat) => n <= |evals| && Keyed(s) && RowsFrom(rows, s, evals, n, id) && Accounted(rows, s, id)
  }

  lemma StartsInBooks(rows: map<Key, Row>, evals: seq<Eval>, id: string)
    requires Keyed(Started(rows))
    ensures InBooks(rows, evals, id)(Started(rows), 0)
  {
    var s := Started(rows);
    assert !Cleared(s, id);
    assert FiringRows(s, id) - Leftover(rows, s, id) == {};
    assert RowsFrom(rows, s, evals, 0, id) && Accounted(rows, s, id);
  }

  lemma RunsAccount(rows: map<Key, Row>, works: nat -> bool, evals: seq<Eval>, n: nat, id: string)
    requires Keyed(Started(rows)) && n <= |evals| && OncePerSecond(rows, evals, id) && forall i :: works(i)
    ensures InBooks(rows, evals, id)(AppliedAll(Started(rows), works, evals, n), n)
  {
    var good := InBooks(rows, evals, id);
    StartsInBooks(rows, evals, id);
    forall s, k: nat | k < n && good(s, k)
      ensures good(Applied(s, works, evals[k]), k + 1)
    {
      NextAccounts(rows, s, works, evals, k, id);
    }
    RunsKeep(good, Started(rows), works, evals, n);
  }

  lemma AgreesIfNothingLeft(rows: map<Key, Row>, s: State, id: string)
    requires Accounted(rows, s, id)
    ensures TableAgrees(s, id) <==> FiringRows(Started(rows), id) == {} || Cleared(s, id)
  {
    var left := Leftover(rows, s, id);
    assert FiringRows(s, id) == left + (FiringRows(s, id) - left);
    assert left != {} ==> |left| > 0;
  }

  /** Whatever table the sampler starts on, while the database works and a rule is
      evaluated at most once a second, its one firing row is there exactly while
      it has fired, if and only if no firing row was left to it, or the rule has
      been resolved since. */
  lemma OneFiringRowIff(rows: map<Key, Row>, works: nat -> bool, evals: seq<Eval>, n: nat, id: string)
    requires Keyed(Started(rows)) && n <= |evals| && OncePerSecond(rows, evals, id) && forall i :: works(i)
    ensures var s := AppliedAll(Started(rows), works, evals, n);
      TableAgrees(s, id) <==> FiringRows(Started(rows), id) == {} || Cleared(s, id)
  {
    RunsAccount(rows, works, evals, n, id);
    AgreesIfNothingLeft(rows, AppliedAll(Started(rows), works, evals, n), id);
  }

  lemma {:induction false} QuietStays(rows: map<Key, Row>, works: nat -> bool, evals: seq<Eval>, n: nat, id: string)
    requires n <= |evals| && forall i :: 0 <= i < |evals| ==> evals[i].rule.id == id && !Breached(evals[i])
    ensures var s := AppliedAll(Started(rows), works, evals, n);
      s.rows == rows && !Recall(s.memory, id).fired
  {
    if n > 0 {
      QuietStays(rows, works, evals, n - 1, id);
    }
  }

  /** So a restart while a rule is fired leaves its row firing for good: however
      often the rule is then evaluated without a breach, the table shows a row
      that the engine knows nothing about ... */
  lemma RestartLeavesRow(works: nat -> bool, e: Eval, quiet: seq<Eval>, n: nat)
    requires works(0) && Breached(e) && e.rule.forSeconds <= 0 && n <= |quiet|
    requires forall i :: 0 <= i < |quiet| ==> quiet[i].rule.id == e.rule.id && !Breached(quiet[i])
    ensures var rows := Applied(Started(map[]), works, e).rows;
      var s := AppliedAll(Started(rows), works, quiet, n);
      FiringRows(s, e.rule.id) == {(e.rule.id, e.now)} && !Recall(s.memory, e.rule.id).fired
  {
    var id := e.rule.id;
    var fired := Applied(Started(map[]), works, e);
    InsertedAdds(Started(map[]), (id, e.now), Row(id, e.instance, e.target, e.now, 0, e.value, true), fired);
    assert FiringRows(Started(map[]), id) == {};
    QuietStays(fired.rows, works, quiet, n, id);
    assert FiringRows(AppliedAll(Started(fired.rows), works, quiet, n), id) == FiringRows(fired, id);
  }

  /** ... and when it fires again there are two. */
  lemma RestartDoublesRow(works: nat -> bool, e: Eval, again: Eval)
    requires works(0) && e.rule.forSeconds <= 0 && Breached(e) && Breached(again)
    requires again.rule == e.rule && again.now != e.now
    ensures var rows := Applied(Started(map[]), works, e).rows;
      FiringRows(Applied(Started(rows), works, again), e.rule.id) == {(e.rule.id, e.now), (e.rule.id, again.now)}
  {
    var id := e.rule.id;
    var fired := Applied(Started(map[]), works, e);
    InsertedAdds(Started(map[]), (id, e.now), Row(id, e.instance, e.target, e.now, 0, e.value, true), fired);
    assert FiringRows(Started(map[]), id) == {};
    var s := Applied(Started(fired.rows), works, again);
    InsertedAdds(fired, (id, again.now), Row(id, again.instance, again.target, again.now, 0, again.value, true), s);
  }

  /** A rule that watches every instance is evaluated once per instance in the
      same second.  When one clears it and the next fires it again, the second
      row is lost: the rule has fired and the table shows nothing. */
  lemma SameSecondLosesRow(rows: map<Key, Row>, works: nat -> bool, rule: Rule, a: string, b: string, c: string,
      high: real, low: real, now: int)
    requires (forall i :: works(i)) && now > 0 && rule.forSeconds <= 0
    requires Exceeds(high, rule.op, rule.threshold) && !Exceeds(low, rule.op, rule.threshold)
    ensures var evals := [Eval(rule, a, "", high, now), Eval(rule, b, "", low, now), Eval(rule, c, "", high, now)];
      var s := AppliedAll(Started(rows), works, evals, 3);
      Recall(s.memory, rule.id).fired && FiringRows(s, rule.id) == {} && |s.published| == 3
  {
    var evals := [Eval(rule, a, "", high, now), Eval(rule, b, "", low, now), Eval(rule, c, "", high, now)];
    assert AppliedAll(Started(rows), works, evals, 0) == Started(rows);
    var one := AppliedAll(Started(rows), works, evals, 1);
    assert one == Applied(Started(rows), works, evals[0]);
    var two := AppliedAll(Started(rows), works, evals, 2);
    assert two == Applied(one, works, evals[1]);
    assert AppliedAll(Started(rows), works, evals, 3) == Applied(two, works, evals[2]);
  }

  /** Time 0 doubles as "not breached": a breach that starts then is timed from
      the next evaluation, and fires late. */
  lemma TimeZeroForgets(rule: Rule, value: real, later: int)
    requires Exceeds(value, rule.op, rule.threshold) && later >= rule.forSeconds > 0
    ensures var own := [Eval(rule, "", "", value, 0), Eval(rule, "", "", value, later)];
      HeldAt(own, 0, 1, 2) && !Remembered(own, 2).fired
  {
    var own := [Eval(rule, "", "", value, 0), Eval(rule, "", "", value, later)];
    assert Remembered(own, 1) == Remember(QUIET, true, rule.forSeconds, 0);
  }

  // ---- The sampler's side ------------------------------------------------

  /** The value a rule watches, if its metric is one the engine knows. */
  function Watched(metric: string, p: Point, step: int): Option<real>
    requires step > 0
  {
    match metric
    case "conns" => Some(p.conns as real)
    case "requests_rate" => Some(p.inflow as real / step as real)
    case "traffic_in_rate" => Some(p.inflow as real / step as real)
    case "errors_rate" => Some(p.outflow as real / step as real)
    case "traffic_out_rate" => Some(p.outflow as real / step as real)
    case _ => None
  }

  /** The rule is on, for this instance and target, and its metric is known. */
  predicate Applies(r: Rule, instance: string, target: string) {
    r.enabled && r.instance in {"*", instance} && (if r.target == "*" then "" else r.target) == target
  }

  /** The evaluation of a rule, if it applies. */
  function ChosenOne(r: Rule, instance: string, target: string, p: Point, step: int, now: int): Option<Eval>
    requires step > 0
  {
    if Applies(r, instance, target) && Watched(r.metric, p, step).Some?
    then Some(Eval(r, instance, target, Watched(r.metric, p, step).value, now)) else None
  }

  function Chosen(rules: seq<Rule>, n: nat, instance: string, target: string, p: Point, step: int, now: int): seq<Eval>
    requires n <= |rules| && step > 0
  {
    if n == 0 then []
    else
      Chosen(rules, n - 1, instance, target, p, step, now)
      + match ChosenOne(rules[n - 1], instance, target, p, step, now) case Some(e) => [e] case None => []
  }

  /** A rule is evaluated exactly if it is on, asks for this instance or for all,
      for this target or for the whole instance, and knows its metric; what it is
      given is the current number of connections or one of the two deltas per
      second. */
  lemma ChosenIff(r: Rule, instance: string, target: string, p: Point, step: int, now: int)
    requires step > 0
    ensures ChosenOne(r, instance, target, p, step, now).Some? <==>
              && r.enabled && (r.instance == "*" || r.instance == instance)
              && (if r.target == "*" then target == "" else r.target == target)
              && r.metric in {"conns", "requests_rate", "traffic_in_rate", "errors_rate", "traffic_out_rate"}
    ensures var e := ChosenOne(r, instance, target, p, step, now);
      e.Some? ==>
        && e.value.rule == r && e.value.instance == instance && e.value.target == target && e.value.now == now
        && (r.metric == "conns" ==> e.value.value == p.conns as real)
        && (r.metric in {"requests_rate", "traffic_in_rate"} ==> e.value.value * (step as real) == p.inflow as real)
        && (r.metric in {"errors_rate", "traffic_out_rate"} ==> e.value.value * (step as real) == p.outflow as real)
  {
  }

  /** Every rule that applies is evaluated once, in the order of the rules. */
  lemma {:induction false} ChosenInOrder(rules: seq<Rule>, n: nat, instance: string, target: string, p: Point,
      step: int, now: int)
    requires n <= |rules| && step > 0
    ensures var evals := Chosen(rules, n, instance, target, p, step, now);
      var chosen := Select(rules, n, (r: Rule) => ChosenOne(r, instance, target, p, step, now).Some?);
      |evals| == |chosen| && forall i :: 0 <= i < |evals| ==> evals[i].rule == chosen[i]
  {
    if n > 0 {
      ChosenInOrder(rules, n - 1, instance, target, p, step, now);
    }
  }

  lemma {:induction false} AppliedAllPrefix(s: State, works: nat -> bool, evals: seq<Eval>, more: seq<Eval>, n: nat)
    requires n <= |evals|
    ensures AppliedAll(s, works, evals + more, n) == AppliedAll(s, works, evals, n)
  {
    if n > 0 {
      AppliedAllPrefix(s, works, evals, more, n - 1);
    }
  }

  lemma AppliedNext(s: State, works: nat -> bool, evals: seq<Eval>, e: Eval)
    ensures AppliedAll(s, works, evals + [e], |evals| + 1) == Applied(AppliedAll(s, works, evals, |evals|), works, e)
  {
    AppliedAllPrefix(s, works, evals, [e], |evals|);
  }

  class Engine {
    var memory: map<string, Memory>
    var rows: map<Key, Row>
    var published: seq<Note>
    var statements: nat
    const works: nat -> bool

    constructor (rows: map<Key, Row>, works: nat -> bool)
      ensures Now() == Started(rows) && this.works == works
    {
      memory, this.rows, published, statements := map[], rows, [], 0;
      this.works := works;
    }

    ghost function Now(): State
      reads this
    {
      State(memory, rows, published, statements)
    }

    /** A row whose key is taken is refused, and so is any row if the database fails. */
    method InsertEvent(row: Row)
      modifies this`rows, this`statements
      ensures statements == old(statements) + 1
      ensures var key := (row.rule, row.firedAt);
        rows == if works(old(statements)) && key !in old(rows) then old(rows)[key := row] else old(rows)
    {
      if works(statements) && (row.rule, row.firedAt) !in rows {
        rows := rows[(row.rule, row.firedAt) := row];
      }
      statements := statements + 1;
    }

    method ResolveEvent(rule: string, now: int)
      modifies this`rows, this`statements
      ensures statements == old(statements) + 1
      ensures rows == if works(old(statements)) then Settle(old(rows), rule, now) else old(rows)
    {
      if works(statements) {
        rows := Settle(rows, rule, now);
      }
      statements := statements + 1;
    }

    method ApplyRule(r: Rule, instance: string, target: string, value: real, now: int)
      modifies this
      ensures Now() == Applied(old(Now()), works, Eval(r, instance, target, value, now))
    {
      if r.id !in memory {
        memory := memory[r.id := QUIET];
      }
      var m := memory[r.id];
      if Exceeds(value, r.op, r.threshold) {
        if m.since == 0 {
          m := m.(since := now);
        }
        if !m.fired && now - m.since >= r.forSeconds {
          m := m.(fired := true);
          InsertEvent(Row(r.id, instance, target, now, 0, value, true));
          published := published + [Firing(r.id, instance, target, now, value)];
        }
      } else {
        if m.fired {
          m := m.(fired := false);
          ResolveEvent(r.id, now);
          published := published + [Resolved(r.id, instance, target, m.since, now, value)];
        }
        m := m.(since := 0);
      }
      memory := memory[r.id := m];
    }

    method EvalRule(r: Rule, instance: string, target: string, p: Point, step: int, now: int)
      requires step > 0
      modifies this
      ensures Now() == match ChosenOne(r, instance, target, p, step, now)
                       case Some(e) => Applied(old(Now()), works, e)
                       case None => old(Now())
    {
      if Applies(r, instance, target) {
        var value := Watched(r.metric, p, step);
        if value.Some? {
          ApplyRule(r, instance, target, value.value, now);
        }
      }
    }

    /** Evaluates a rule after the given evaluations. */
    method EvalNext(r: Rule, instance: string, target: string, p: Point, step: int, now: int,
        ghost before: State, ghost evals: seq<Eval>) returns (ghost evals': seq<Eval>)
      requires step > 0 && Now() == AppliedAll(before, works, evals, |evals|)
      modifies this
      ensures evals' == evals + match ChosenOne(r, instance, target, p, step, now) case Some(e) => [e] case None => []
      ensures Now() == AppliedAll(before, works, evals', |evals'|)
    {
      ghost var e := ChosenOne(r, instance, target, p, step, now);
      EvalRule(r, instance, target, p, step, now);
      evals' := evals;
      if e.Some? {
        AppliedNext(before, works, evals, e.value);
        evals' := evals + [e.value];
      }
    }

    method EvalRules(rules: seq<Rule>, instance: string, target: string, p: Point, step: int, now: int)
      requires step > 0
      modifies this
      ensures var evals := Chosen(rules, |rules|, instance, target, p, step, now);
        Now() == AppliedAll(old(Now()), works, evals, |evals|)
    {
      ghost var evals := [];
      for i := 0 to |rules|
        invariant evals == Chosen(rules, i, instance, target, p, step, now)
        invariant Now() == AppliedAll(old(Now()), works, evals, |evals|)
      {
        evals := EvalNext(rules[i], instance, target, p, step, now, old(Now()), evals);
      }
    }
  }
}
