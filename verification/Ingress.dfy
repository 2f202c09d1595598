/** The ingress rules of a tunnel, which the edge matches first to last, and the
    two implementations of the edits on them: the daemon's and the console's. */
module Ingress {
  import opened Options
  import opened Sequences
  import opened Strings

  datatype Rule = Rule(hostname: string, service: string, path: string, origin: string)

  const DEFAULT := Rule("", "http_status:404", "", "")

  predicate CatchAll(r: Rule) {
    r.hostname == ""
  }

  /** The console also takes a blank hostname for a missing one. */
  predicate BlankHost(r: Rule) {
    Trim(r.hostname) == ""
  }

  // ---- The daemon --------------------------------------------------------

  function PutAt(rules: seq<Rule>, at: nat, rule: Rule): seq<Rule>
    requires at <= |rules|
  {
    rules[..at] + [rule] + rules[at..]
  }

  /** The rule goes before the first catch-all; a list without one gets one. */
  function Inserted(ingress: seq<Rule>, rule: Rule): seq<Rule> {
    var c := FirstWhere(ingress, CatchAll);
    PutAt(if c < |ingress| then ingress else ingress + [DEFAULT], c, rule)
  }

  method InsertHostnameRule(ingress: seq<Rule>, rule: Rule) returns (out: seq<Rule>)
    ensures out == Inserted(ingress, rule)
  {
    var ci := -1;
    for i := 0 to |ingress|
      invariant ci == -1 && forall j :: 0 <= j < i ==> !CatchAll(ingress[j])
    {
      if ingress[i].hostname == "" {
        ci := i;
        break;
      }
    }
    FirstUnique(ingress, CatchAll, if ci < 0 then |ingress| else ci);
    out := [];
    if ci < 0 {
      out := out + ingress;
      out := out + [rule];
      out := out + [DEFAULT];
      assert (ingress + [DEFAULT])[|ingress|..] == [DEFAULT];
      return;
    }
    out := out + ingress[..ci];
    out := out + [rule];
    out := out + ingress[ci..];
  }

  // ---- First-match routing -----------------------------------------------

  /** Which rule serves a request; what a rule matches is left open. */
  function Route<Q>(rules: seq<Rule>, matches: (Rule, Q) -> bool, q: Q): Option<Rule> {
    if rules == [] then None
    else if matches(rules[0], q) then Some(rules[0])
    else Route(rules[1..], matches, q)
  }

  lemma {:induction false} RouteConcat<Q>(a: seq<Rule>, b: seq<Rule>, matches: (Rule, Q) -> bool, q: Q)
    ensures Route(a + b, matches, q) == if Route(a, matches, q).Some? then Route(a, matches, q)
        else Route(b, matches, q)
  {
    if a == [] {
      assert a + b == b;
    } else {
      assert (a + b)[1..] == a[1..] + b;
      RouteConcat(a[1..], b, matches, q);
    }
  }

  lemma PutRoutes<Q>(rules: seq<Rule>, at: nat, rule: Rule, matches: (Rule, Q) -> bool, q: Q)
    requires at <= |rules|
    ensures Route(PutAt(rules, at, rule), matches, q)
         == if Route(rules[..at], matches, q).Some? then Route(rules[..at], matches, q)
            else if matches(rule, q) then Some(rule) else Route(rules[at..], matches, q)
    ensures Route(rules, matches, q)
         == if Route(rules[..at], matches, q).Some? then Route(rules[..at], matches, q)
             else Route(rules[at..], matches, q)
  {
    assert PutAt(rules, at, rule) == rules[..at] + ([rule] + rules[at..]);
    RouteConcat(rules[..at], [rule] + rules[at..], matches, q);
    assert ([rule] + rules[at..])[1..] == rules[at..];
    assert rules == rules[..at] + rules[at..];
    RouteConcat(rules[..at], rules[at..], matches, q);
  }

  /** Who serves a request after a rule was inserted: whoever served it before
      if a rule before the first catch-all did; otherwise the new rule if it
      matches; otherwise whoever did, or the default if there was no catch-all. */
  function RoutedAfter<Q>(ingress: seq<Rule>, rule: Rule, matches: (Rule, Q) -> bool, q: Q): Option<Rule> {
    var c := FirstWhere(ingress, CatchAll);
    if Route(ingress[..c], matches, q).Some? then Route(ingress, matches, q)
    else if matches(rule, q) then Some(rule)
    else if c < |ingress| then Route(ingress, matches, q)
    else if matches(DEFAULT, q) then Some(DEFAULT)
    else None
  }

  lemma InsertKeepsRouting<Q>(ingress: seq<Rule>, rule: Rule, matches: (Rule, Q) -> bool, q: Q)
    ensures Route(Inserted(ingress, rule), matches, q) == RoutedAfter(ingress, rule, matches, q)
  {
    var c := FirstWhere(ingress, CatchAll);
    PutRoutes(ingress, c, rule, matches, q);
    if c == |ingress| {
      var longer := ingress + [DEFAULT];
      PutRoutes(longer, c, rule, matches, q);
      assert longer[..c] == ingress[..c] == ingress && longer[c..] == [DEFAULT];
      assert [DEFAULT][1..] == [];
    }
  }

  // ---- The shape of a list -----------------------------------------------

  /** Empty, or hostname rules and then one catch-all. */
  ghost predicate Shaped(rules: seq<Rule>) {
    rules == [] ||
    (CatchAll(rules[|rules| - 1]) && forall i :: 0 <= i < |rules| - 1 ==> !CatchAll(rules[i]))
  }

  lemma InsertKeepsShape(ingress: seq<Rule>, rule: Rule)
    requires Shaped(ingress) && !CatchAll(rule)
    ensures Shaped(Inserted(ingress, rule)) && Inserted(ingress, rule) != []
  {
  }

  function Removed(ingress: seq<Rule>, i: nat): seq<Rule>
    requires i < |ingress|
  {
    ingress[..i] + ingress[i + 1..]
  }

  lemma EditsKeepShape(ingress: seq<Rule>, i: nat, rule: Rule)
    requires Shaped(ingress) && i < |ingress| && !CatchAll(ingress[i]) && !CatchAll(rule)
    ensures Shaped(ingress[i := rule]) && Shaped(Removed(ingress, i))
  {
  }

  /** Removing the inserted rule undoes the insertion, if there was a catch-all. */
  lemma RemoveUndoesInsert(ingress: seq<Rule>, rule: Rule)
    ensures var c := FirstWhere(ingress, CatchAll);
      Removed(Inserted(ingress, rule), c) == if c < |ingress| then ingress else ingress + [DEFAULT]
  {
  }

  // ---- The console -------------------------------------------------------

  /** `blank` says what a catch-all is. */
  function EnsureEnd(ingress: seq<Rule>, blank: Rule -> bool): seq<Rule> {
    if ingress == [] || !blank(ingress[|ingress| - 1]) then ingress + [DEFAULT] else ingress
  }

  function AppendBefore(base: seq<Rule>, rule: Rule, blank: Rule -> bool): seq<Rule> {
    var ingress := EnsureEnd(base, blank);
    PutAt(ingress, FirstWhere(ingress, blank), rule)
  }

  function EnsureCatchAll(ingress: seq<Rule>): seq<Rule> {
    EnsureEnd(ingress, BlankHost)
  }

  function AppendHostnameRule(base: seq<Rule>, rule: Rule): seq<Rule> {
    AppendBefore(base, rule, BlankHost)
  }

  function ReplaceRuleAt(base: seq<Rule>, index: int, rule: Rule): seq<Rule> {
    if index < 0 || index >= |base| then base else EnsureCatchAll(base[index := rule])
  }

  function RemoveRuleAt(base: seq<Rule>, index: int): seq<Rule> {
    if index < 0 || index >= |base| then base else EnsureCatchAll(Removed(base, index))
  }

  /** Replacing by the console hits the rule at the index and no other, and changes
      nothing if there is none; a catch-all is added only if none is at the end. */
  lemma ReplacingHitsItsRule(base: seq<Rule>, index: int, rule: Rule)
    ensures !(0 <= index < |base|) ==> ReplaceRuleAt(base, index, rule) == base
    ensures 0 <= index < |base| ==>
              var out := ReplaceRuleAt(base, index, rule);
              && |base| <= |out| <= |base| + 1 && out[index] == rule
              && (forall j :: 0 <= j < |base| && j != index ==> out[j] == base[j])
              && (|out| > |base| <==> Trim(out[|base| - 1].hostname) != "")
  {
  }

  /** So does removing, which leaves the others in order. */
  lemma RemovingHitsItsRule(base: seq<Rule>, index: int)
    ensures !(0 <= index < |base|) ==> RemoveRuleAt(base, index) == base
    ensures 0 <= index < |base| ==>
              var out := RemoveRuleAt(base, index);
              && |base| - 1 <= |out| <= |base|
              && (forall j :: 0 <= j < index ==> out[j] == base[j])
              && (forall j :: index < j < |base| ==> out[j - 1] == base[j])
              && (|out| == |base| ==> out[|base| - 1] == DEFAULT)
  {
  }

  predicate HasHost(r: Rule) {
    !BlankHost(r)
  }

  function ReorderHostnames(base: seq<Rule>, ordered: seq<Rule>): seq<Rule> {
    var catchAll := Select(base, |base|, BlankHost);
    var tail := if |catchAll| > 0 then catchAll else [DEFAULT];
    Select(ordered, |ordered|, HasHost) + tail
  }

  /** Two places for a rule give the same list exactly if only copies of the rule
      stand between them. */
  lemma {:induction false} PutAtSameIff(rules: seq<Rule>, at: nat, later: nat, rule: Rule)
    requires at <= later <= |rules|
    ensures PutAt(rules, at, rule) == PutAt(rules, later, rule) <==> forall i :: at <= i < later ==> rules[i] == rule
    decreases later - at
  {
    if at < later {
      assert PutAt(rules, at, rule)[at] == rule && PutAt(rules, later, rule)[at] == rules[at];
      if rules[at] == rule {
        assert rules[..at + 1] == rules[..at] + [rule] && rules[at..] == [rule] + rules[at + 1..];
        assert PutAt(rules, at, rule) == PutAt(rules, at + 1, rule);
        PutAtSameIff(rules, at + 1, later, rule);
      }
    }
  }

  lemma AppendsAgreeIff(ingress: seq<Rule>, rule: Rule, blank: Rule -> bool)
    requires forall r :: CatchAll(r) ==> blank(r)
    ensures var c := FirstWhere(ingress, CatchAll);
      AppendBefore(ingress, rule, blank) == Inserted(ingress, rule) <==>
        && (c == |ingress| <==> ingress == [] || !blank(ingress[|ingress| - 1]))
        && forall i :: FirstWhere(ingress, blank) <= i < c ==> ingress[i] == rule
  {
    var c, b := FirstWhere(ingress, CatchAll), FirstWhere(ingress, blank);
    var longer := ingress + [DEFAULT];
    assert b <= c;
    FirstUnique(longer, blank, b);
    if c == |ingress| && (ingress == [] || !blank(ingress[|ingress| - 1])) {
      PutAtSameIff(longer, b, c, rule);
      assert forall i :: 0 <= i < c ==> longer[i] == ingress[i];
    } else if c < |ingress| && blank(ingress[|ingress| - 1]) {
      PutAtSameIff(ingress, b, c, rule);
    } else {
      assert |AppendBefore(ingress, rule, blank)| != |Inserted(ingress, rule)|;
    }
  }

  /** The daemon and the console insert alike exactly if the list has no catch-all
      and its last hostname is not blank, or has one and ends in a blank one,
      and nothing but copies of the rule stands from the first blank hostname up
      to the first catch-all. */
  lemma InsertsAgreeIff(ingress: seq<Rule>, rule: Rule)
    ensures var c := FirstWhere(ingress, CatchAll);
      AppendHostnameRule(ingress, rule) == Inserted(ingress, rule) <==>
        && (c == |ingress| <==> ingress == [] || !BlankHost(ingress[|ingress| - 1]))
        && forall i :: FirstWhere(ingress, BlankHost) <= i < c ==> ingress[i] == rule
  {
    AppendsAgreeIff(ingress, rule, BlankHost);
  }

  /** In particular on every well-shaped list of hostnames that are not blank. */
  lemma ShapedInsertsAgree(ingress: seq<Rule>, rule: Rule)
    requires Shaped(ingress) && forall r :: r in ingress && !CatchAll(r) ==> HasHost(r)
    ensures AppendHostnameRule(ingress, rule) == Inserted(ingress, rule)
  {
    InsertsAgreeIff(ingress, rule);
    assert forall i :: 0 <= i < |ingress| ==> ingress[i] in ingress;
    if ingress != [] {
      FirstUnique(ingress, CatchAll, |ingress| - 1);
    }
  }

  /** On a list with a blank hostname they part ways. */
  lemma BlankHostsDisagree(rule: Rule)
    requires HasHost(rule)
    ensures var ingress := [Rule(" ", "a", "", ""), DEFAULT];
      AppendHostnameRule(ingress, rule)[0] == rule && Inserted(ingress, rule)[0] != rule
  {
  }

  ghost predicate EndsBlank(rules: seq<Rule>, blank: Rule -> bool) {
    rules != [] && blank(rules[|rules| - 1])
  }

  lemma EnsuredEndsBlank(rules: seq<Rule>, rule: Rule, blank: Rule -> bool)
    requires blank(DEFAULT)
    ensures EndsBlank(EnsureEnd(rules, blank), blank) && EndsBlank(AppendBefore(rules, rule, blank), blank)
  {
  }

  lemma ReorderedEndsBlank(base: seq<Rule>, ordered: seq<Rule>)
    ensures EndsBlank(ReorderHostnames(base, ordered), BlankHost)
  {
    var tail := Select(base, |base|, BlankHost);
    assert BlankHost(DEFAULT);
    if tail != [] {
      SelectIsExact(base, |base|, BlankHost, tail[|tail| - 1]);
    }
  }

  /** Every edit of the console leaves a catch-all at the end. */
  lemma ConsoleEndsInCatchAll(base: seq<Rule>, index: int, rule: Rule, ordered: seq<Rule>)
    ensures EndsBlank(AppendHostnameRule(base, rule), BlankHost)
        && EndsBlank(ReorderHostnames(base, ordered), BlankHost)
    ensures 0 <= index < |base| ==>
      EndsBlank(ReplaceRuleAt(base, index, rule), BlankHost) && EndsBlank(RemoveRuleAt(base, index), BlankHost)
  {
    assert BlankHost(DEFAULT);
    ReorderedEndsBlank(base, ordered);
    EnsuredEndsBlank(base, rule, BlankHost);
    if 0 <= index < |base| {
      EnsuredEndsBlank(base[index := rule], rule, BlankHost);
      EnsuredEndsBlank(Removed(base, index), rule, BlankHost);
    }
  }

  lemma SelectedSatisfy(rules: seq<Rule>, p: Rule -> bool)
    ensures forall i :: 0 <= i < |Select(rules, |rules|, p)| ==> p(Select(rules, |rules|, p)[i])
  {
    var chosen := Select(rules, |rules|, p);
    forall i | 0 <= i < |chosen|
      ensures p(chosen[i])
    {
      SelectIsExact(rules, |rules|, p, chosen[i]);
    }
  }

  /** Reordering puts the catch-alls after all hostname rules, which come in the
      order given ... */
  lemma ReorderSeparates(base: seq<Rule>, ordered: seq<Rule>)
    ensures var out, hosts := ReorderHostnames(base, ordered), Select(ordered, |ordered|, HasHost);
      && |hosts| <= |out| && out[..|hosts|] == hosts
      && forall i :: 0 <= i < |out| ==> (BlankHost(out[i]) <==> i >= |hosts|)
  {
    SelectedSatisfy(ordered, HasHost);
    SelectedSatisfy(base, BlankHost);
    assert BlankHost(DEFAULT);
  }

  /** ... and keeps the given hostname rules and the catch-alls, each as often
      as it was there. */
  lemma ReorderKeepsRules(base: seq<Rule>, ordered: seq<Rule>, r: Rule)
    ensures var out := ReorderHostnames(base, ordered);
      && (HasHost(r) ==> multiset(out)[r] == multiset(ordered)[r])
      && (!HasHost(r) && FirstWhere(base, BlankHost) < |base| ==> multiset(out)[r] == multiset(base)[r])
  {
    SelectIsExact(ordered, |ordered|, HasHost, r);
    SelectIsExact(base, |base|, BlankHost, r);
    assert ordered[..|ordered|] == ordered && base[..|base|] == base;
    assert BlankHost(DEFAULT);
    var c := FirstWhere(base, BlankHost);
    if c < |base| {
      SelectIsExact(base, |base|, BlankHost, base[c]);
    }
  }
}
