/** Which zone a hostname belongs to: the daemon asks for one candidate after
    the other, with or without a cache, and the console picks from a list. */
module Zones {
  import opened Options
  import opened Sequences
  import opened Strings

  datatype Zone = Zone(id: string, name: string)

  /** What the remote side says when asked for the zones of a name. */
  datatype Answer = Failed | Listed(zones: seq<Zone>)

  datatype Result = Found(zone: Zone) | NotFound | RemoteError

  // ---- Candidates --------------------------------------------------------

  /** The part of h behind its first dot. */
  function Parent(h: string): string
    requires '.' in h
    ensures |Parent(h)| < |h|
  {
    var head := Before(h, {'.'});
    assert '.' !in head && head != h;
    h[|head| + 1..]
  }

  /** h and its ancestors, the longest first, without the last label alone. */
  function Candidates(h: string): seq<string>
    decreases |h|
  {
    if '.' in h then [h] + Candidates(Parent(h)) else []
  }

  function Labels(h: string): (r: seq<string>)
    ensures r != []
    decreases |h|
  {
    if '.' in h then [Before(h, {'.'})] + Labels(Parent(h)) else [h]
  }

  function Join(parts: seq<string>): string
    requires parts != []
  {
    if |parts| == 1 then parts[0] else parts[0] + "." + Join(parts[1..])
  }

  function TrimDot(h: string): string {
    if h != "" && h[|h| - 1] == '.' then h[..|h| - 1] else h
  }

  /** Of any number of trailing dots one is taken off, and nothing else. */
  lemma TrimsOneDot(h: string)
    ensures TrimDot(h + ".") == h
    ensures h == "" || h[|h| - 1] != '.' ==> TrimDot(h) == h
  {
  }

  lemma SplitAtDot(h: string)
    requires '.' in h
    ensures h == Before(h, {'.'}) + "." + Parent(h)
  {
  }

  lemma JoinCons(head: string, parts: seq<string>)
    requires parts != []
    ensures Join([head] + parts) == head + "." + Join(parts)
  {
  }

  lemma {:induction false} JoinInvertsLabels(h: string)
    ensures Join(Labels(h)) == h
    decreases |h|
  {
    if '.' in h {
      JoinInvertsLabels(Parent(h));
      JoinCons(Before(h, {'.'}), Labels(Parent(h)));
      SplitAtDot(h);
    }
  }

  lemma {:induction false} CandidateAt(h: string, i: nat)
    requires i < |Labels(h)|
    ensures |Candidates(h)| == |Labels(h)| - 1
    ensures i < |Candidates(h)| ==> Candidates(h)[i] == Join(Labels(h)[i..])
    decreases |h|
  {
    if '.' in h {
      assert Labels(h)[0..] == Labels(h);
      JoinInvertsLabels(h);
      CandidateAt(Parent(h), if i > 0 then i - 1 else 0);
      assert i > 0 ==> Labels(h)[i..] == Labels(Parent(h))[i - 1..];
    }
  }

  method ZoneCandidates(hostname: string) returns (out: seq<string>)
    ensures out == Candidates(TrimDot(hostname))
  {
    var parts := Labels(TrimDot(hostname));
    out := [];
    CandidateAt(TrimDot(hostname), 0);
    for i := 0 to |parts| - 1
      invariant out == Candidates(TrimDot(hostname))[..i]
    {
      CandidateAt(TrimDot(hostname), i);
      out := out + [Join(parts[i..])];
    }
  }

  // ---- Asking ------------------------------------------------------------

  /** The first zone of that name, whatever its case. */
  function Named(zones: seq<Zone>, name: string): Option<Zone> {
    if zones == [] then None
    else if EqualFold(zones[0].name, name) then Some(zones[0])
    else Named(zones[1..], name)
  }

  method FirstNamed(zones: seq<Zone>, name: string) returns (z: Option<Zone>)
    ensures z == Named(zones, name)
  {
    assert zones[0..] == zones;
    for i := 0 to |zones|
      invariant Named(zones[i..], name) == Named(zones, name)
    {
      assert zones[i..][1..] == zones[i + 1..];
      if EqualFold(zones[i].name, name) {
        return Some(zones[i]);
      }
    }
    return None;
  }

  /** Asking for the candidates from the i-th on. */
  function FindFrom(candidates: seq<string>, i: nat, ask: string -> Answer): Result
    requires i <= |candidates|
    decreases |candidates| - i
  {
    if i == |candidates| then NotFound
    else match ask(candidates[i])
      case Failed => RemoteError
      case Listed(zones) =>
        match Named(zones, candidates[i])
        case Some(z) => Found(z)
        case None => FindFrom(candidates, i + 1, ask)
  }

  function Find(hostname: string, ask: string -> Answer): Result {
    FindFrom(Candidates(TrimDot(hostname)), 0, ask)
  }

  method FindZone(hostname: string, ask: string -> Answer) returns (r: Result)
    ensures r == Find(hostname, ask)
  {
    var candidates := ZoneCandidates(hostname);
    for i := 0 to |candidates|
      invariant FindFrom(candidates, i, ask) == FindFrom(candidates, 0, ask)
    {
      match ask(candidates[i]) {
        case Failed => return RemoteError;
        case Listed(zones) =>
          var z := FirstNamed(zones, candidates[i]);
          if z.Some? {
            return Found(z.value);
          }
      }
    }
    return NotFound;
  }

  function Single(c: string, answer: Answer): Result {
    match answer
    case Failed => RemoteError
    case Listed(zones) => match Named(zones, c) case Some(z) => Found(z) case None => NotFound
  }

  class ZoneCache {
    const ask: string -> Answer
    var zoneByName: map<string, Option<Zone>>

    /** Every name the remote side was asked for. */
    ghost var asked: seq<string>

    ghost predicate Valid()
      reads this
    {
      && (forall c :: c in zoneByName ==> ask(c).Listed? && zoneByName[c] == Named(ask(c).zones, c))
      && (forall i :: 0 <= i < |asked| ==> asked[i] in zoneByName || ask(asked[i]).Failed?)
      && (forall i, j :: 0 <= i < j < |asked| && asked[i] == asked[j] ==> ask(asked[i]).Failed?)
    }

    constructor (ask: string -> Answer)
      ensures Valid() && this.ask == ask && asked == []
    {
      this.ask := ask;
      zoneByName, asked := map[], [];
    }

    /** What asking for one candidate yields. */
    method Lookup(c: string) returns (r: Result)
      requires Valid()
      modifies this
      ensures Valid() && old(asked) <= asked
      ensures r == Single(c, ask(c))
    {
      if c in zoneByName {
        return if zoneByName[c].Some? then Found(zoneByName[c].value) else NotFound;
      }
      asked := asked + [c];
      match ask(c) {
        case Failed => return RemoteError;
        case Listed(zones) =>
          var z := FirstNamed(zones, c);
          zoneByName := zoneByName[c := z];
          return if z.Some? then Found(z.value) else NotFound;
      }
    }

    /** Agrees with the lookup without a cache, whatever has been looked up
        before, and never asks twice for a name that was answered. */
    method ZoneFor(hostname: string) returns (r: Result)
      requires Valid()
      modifies this
      ensures Valid() && r == Find(hostname, ask) && old(asked) <= asked
    {
      var candidates := ZoneCandidates(hostname);
      for i := 0 to |candidates|
        invariant Valid() && old(asked) <= asked
        invariant FindFrom(candidates, i, ask) == FindFrom(candidates, 0, ask)
      {
        r := Lookup(candidates[i]);
        if r != NotFound {
          return;
        }
      }
      return NotFound;
    }
  }

  // ---- Picking from the whole list ---------------------------------------

  /** The zone's name is h or ends h at a dot. */
  predicate Owns(z: Zone, h: string) {
    var zn := ToLower(z.name);
    zn != "" && (ToLower(h) == zn || HasSuffix(ToLower(h), "." + zn))
  }

  function OwnedBy(h: string): Zone -> bool {
    z => Owns(z, h)
  }

  /** The longest of the first n zones that satisfy `owned`, and the first of that length. */
  function Longest(owned: Zone -> bool, zones: seq<Zone>, n: nat): Option<Zone>
    requires n <= |zones|
  {
    if n == 0 then None
    else
      var best := Longest(owned, zones, n - 1);
      var z := zones[n - 1];
      if owned(z) && (best.None? || |z.name| > |best.value.name|) then Some(z) else best
  }

  function PickFrom(h: string, zones: seq<Zone>, n: nat): Option<Zone>
    requires n <= |zones|
  {
    Longest(OwnedBy(h), zones, n)
  }

  function Pick(h: string, zones: seq<Zone>): Option<Zone> {
    PickFrom(h, zones, |zones|)
  }

  method PickZone(hostname: string, zones: seq<Zone>) returns (best: Option<Zone>)
    ensures best == Pick(hostname, zones)
  {
    best := None;
    for i := 0 to |zones|
      invariant best == PickFrom(hostname, zones, i)
    {
      var z := zones[i];
      if Owns(z, hostname) {
        if best.None? || |z.name| > |best.value.name| {
          best := Some(z);
        }
      }
    }
  }

  /** The pick owns the hostname, and no zone in the list that does is longer;
      there is a pick whenever some zone does. */
  lemma {:induction false} PickIsLongest(h: string, zones: seq<Zone>, n: nat, z: Zone)
    requires n <= |zones| && z in zones[..n] && Owns(z, h)
    ensures var best := PickFrom(h, zones, n);
      best.Some? && best.value in zones[..n] && Owns(best.value, h) && |z.name| <= |best.value.name|
  {
    var last := zones[n - 1];
    assert zones[..n] == zones[..n - 1] + [last];
    if z in zones[..n - 1] {
      PickIsLongest(h, zones, n - 1, z);
    } else if PickFrom(h, zones, n - 1).Some? {
      PickedIsThere(h, zones, n - 1);
    }
  }

  lemma {:induction false} PickedIsThere(h: string, zones: seq<Zone>, n: nat)
    requires n <= |zones|
    ensures var best := PickFrom(h, zones, n);
      best.Some? ==> best.value in zones[..n] && Owns(best.value, h)
  {
    if n > 0 {
      PickedIsThere(h, zones, n - 1);
      assert zones[..n] == zones[..n - 1] + [zones[n - 1]];
    }
  }

  // ---- Asking and picking agree ------------------------------------------

  /** A remote side that filters its zones by name, whatever the case. */
  function Filtered(zones: seq<Zone>): string -> Answer {
    name => Listed(Select(zones, |zones|, IsNamed(name)))
  }

  function IsNamed(name: string): Zone -> bool {
    (z: Zone) => EqualFold(z.name, name)
  }

  lemma OwnedIsShorter(z: Zone, h: string)
    requires Owns(z, h)
    ensures |z.name| <= |h| && (|z.name| == |h| <==> EqualFold(z.name, h))
  {
  }

  lemma LowerParent(h: string)
    requires '.' in h
    ensures var d, l := |Before(h, {'.'})|, ToLower(h);
      d < |h| && l[d] == '.' && (forall i :: 0 <= i < d ==> l[i] != '.') && ToLower(Parent(h)) == l[d + 1..]
  {
  }

  /** A zone that is not the hostname itself owns it exactly if it owns its parent. */
  lemma OwnsParent(z: Zone, h: string)
    requires '.' in h && !EqualFold(z.name, h)
    ensures Owns(z, h) <==> Owns(z, Parent(h))
  {
    LowerParent(h);
    SuffixOfParent(ToLower(h), |Before(h, {'.'})|, ToLower(z.name));
  }

  lemma SuffixOfParent(l: string, d: nat, zn: string)
    requires d < |l| && l[d] == '.' && (forall i :: 0 <= i < d ==> l[i] != '.') && zn != l
    ensures HasSuffix(l, "." + zn) <==> l[d + 1..] == zn || HasSuffix(l[d + 1..], "." + zn)
  {
    var at := |l| - |zn| - 1;
    var dotted := "." + zn;
    if HasSuffix(l, dotted) {
      assert l[at..][0] == '.' && l[at..][1..] == zn;
      if at > d {
        assert l[d + 1..][at - d - 1..] == l[at..];
      }
    }
    assert l[d..] == "." + l[d + 1..];
  }

  lemma NoDotOwnsNothing(z: Zone, h: string)
    requires '.' !in h && !EqualFold(z.name, h)
    ensures !Owns(z, h)
  {
    var l, dotted := ToLower(h), "." + ToLower(z.name);
    assert forall i :: 0 <= i < |h| ==> h[i] in h && l[i] != '.';
    assert dotted[0] == '.';
  }

  ghost predicate FirstNamedAt(zones: seq<Zone>, name: string, k: nat) {
    k < |zones| && EqualFold(zones[k].name, name) && forall j :: 0 <= j < k ==> !EqualFold(zones[j].name, name)
  }

  lemma {:induction false} NamedAt(zones: seq<Zone>, name: string) returns (k: nat)
    ensures Named(zones, name) == None <==> forall j :: 0 <= j < |zones| ==> !EqualFold(zones[j].name, name)
    ensures Named(zones, name).Some? ==> FirstNamedAt(zones, name, k) && Named(zones, name).value == zones[k]
  {
    k := 0;
    if zones != [] && !EqualFold(zones[0].name, name) {
      k := NamedAt(zones[1..], name);
      assert forall j :: 0 <= j < |zones| - 1 ==> zones[1..][j] == zones[j + 1];
      assert forall j :: 0 < j < |zones| ==> zones[j] == zones[1..][j - 1];
      k := k + 1;
    }
  }

  /** Filtering by name does not change which zone of that name comes first. */
  lemma FilteringKeepsNamed(zones: seq<Zone>, name: string)
    ensures Named(Filtered(zones)(name).zones, name) == Named(zones, name)
  {
    var k := NamedAt(zones, name);
    var same := IsNamed(name);
    if Named(zones, name).None? {
      NoneSelected(zones, |zones|, same);
    } else {
      NoneSelected(zones, k, same);
      SelectStartsWith(zones, k, |zones|, same);
    }
  }

  lemma {:induction false} SelectStartsWith(zones: seq<Zone>, k: nat, n: nat, p: Zone -> bool)
    requires k < n <= |zones| && p(zones[k]) && Select(zones, k, p) == []
    ensures Select(zones, n, p) != [] && Select(zones, n, p)[0] == zones[k]
  {
    if n > k + 1 {
      SelectStartsWith(zones, k, n - 1, p);
    }
  }

  /** A zone of the hostname's own name is picked, the first of that name. */
  lemma {:induction false} PickNamed(h: string, zones: seq<Zone>, k: nat, n: nat)
    requires h != "" && FirstNamedAt(zones, h, k) && n <= |zones|
    ensures k < n ==> PickFrom(h, zones, n) == Some(zones[k])
    ensures n <= k && PickFrom(h, zones, n).Some? ==> |PickFrom(h, zones, n).value.name| < |h|
  {
    if n > 0 {
      PickNamed(h, zones, k, n - 1);
      if Owns(zones[n - 1], h) {
        OwnedIsShorter(zones[n - 1], h);
      }
    }
  }

  lemma {:induction false} LongestSame(p: Zone -> bool, q: Zone -> bool, zones: seq<Zone>, n: nat)
    requires n <= |zones| && forall j :: 0 <= j < n ==> p(zones[j]) == q(zones[j])
    ensures Longest(p, zones, n) == Longest(q, zones, n)
  {
    if n > 0 {
      LongestSame(p, q, zones, n - 1);
    }
  }

  lemma {:induction false} LongestNone(p: Zone -> bool, zones: seq<Zone>, n: nat)
    requires n <= |zones| && forall j :: 0 <= j < n ==> !p(zones[j])
    ensures Longest(p, zones, n) == None
  {
    if n > 0 {
      LongestNone(p, zones, n - 1);
    }
  }

  lemma PickParent(h: string, zones: seq<Zone>, n: nat)
    requires n <= |zones| && forall j :: 0 <= j < n ==> !EqualFold(zones[j].name, h)
    ensures PickFrom(h, zones, n) == if '.' in h then PickFrom(Parent(h), zones, n) else None
  {
    if '.' in h {
      forall j | 0 <= j < n
        ensures OwnedBy(h)(zones[j]) == OwnedBy(Parent(h))(zones[j])
      {
        OwnsParent(zones[j], h);
      }
      LongestSame(OwnedBy(h), OwnedBy(Parent(h)), zones, n);
    } else {
      forall j | 0 <= j < n
        ensures !OwnedBy(h)(zones[j])
      {
        NoDotOwnsNothing(zones[j], h);
      }
      LongestNone(OwnedBy(h), zones, n);
    }
  }

  lemma {:induction false} FindShifted(first: string, candidates: seq<string>, i: nat, ask: string -> Answer)
    requires i <= |candidates|
    ensures FindFrom([first] + candidates, i + 1, ask) == FindFrom(candidates, i, ask)
    decreases |candidates| - i
  {
    if i < |candidates| {
      FindShifted(first, candidates, i + 1, ask);
    }
  }

  lemma FindStep(h: string, zones: seq<Zone>)
    ensures FindFrom(Candidates(h), 0, Filtered(zones))
         == if '.' !in h then NotFound
            else if Named(zones, h).Some? then Found(Named(zones, h).value)
            else FindFrom(Candidates(Parent(h)), 0, Filtered(zones))
  {
    if '.' in h {
      FilteringKeepsNamed(zones, h);
      FindShifted(h, Candidates(Parent(h)), 0, Filtered(zones));
    }
  }

  /** What asking finds, given what picking from the whole list yields. */
  function Expected(pick: Option<Zone>): Result {
    if pick.Some? && '.' in pick.value.name then Found(pick.value) else NotFound
  }

  lemma {:induction false} FindIsExpected(h: string, zones: seq<Zone>)
    ensures FindFrom(Candidates(h), 0, Filtered(zones)) == Expected(Pick(h, zones))
    decreases |h|
  {
    FindStep(h, zones);
    var k := NamedAt(zones, h);
    if Named(zones, h).None? {
      PickParent(h, zones, |zones|);
      if '.' in h {
        FindIsExpected(Parent(h), zones);
      }
    } else if h != "" {
      PickNamed(h, zones, k, |zones|);
      SameDots(zones[k].name, h);
    } else {
      NothingOwnsEmpty(zones, |zones|);
    }
  }

  lemma SameDots(a: string, b: string)
    requires EqualFold(a, b)
    ensures '.' in a <==> '.' in b
  {
  }

  lemma NothingOwnsEmpty(zones: seq<Zone>, n: nat)
    requires n <= |zones|
    ensures PickFrom("", zones, n) == None
  {
    LongestNone(OwnedBy(""), zones, n);
  }

  ghost predicate Same(r: Result, pick: Option<Zone>) {
    r == match pick case Some(z) => Found(z) case None => NotFound
  }

  predicate EndsInDot(s: string) {
    s != "" && s[|s| - 1] == '.'
  }

  lemma OwnerEndsAlike(z: Zone, h: string)
    requires Owns(z, h)
    ensures EndsInDot(h) ==> EndsInDot(z.name)
  {
    var l, zn := ToLower(h), ToLower(z.name);
    assert zn[|zn| - 1] == l[|l| - 1] by {
      if HasSuffix(l, "." + zn) {
        assert l[|l| - |zn| - 1..][|zn|] == ("." + zn)[|zn|];
      }
    }
  }

  /** The console does not trim a trailing dot and then picks nothing. */
  lemma DottedPicksNothing(h: string, zones: seq<Zone>)
    requires EndsInDot(h) && forall z :: z in zones ==> !EndsInDot(z.name)
    ensures Pick(h, zones) == None
  {
    forall j | 0 <= j < |zones|
      ensures !OwnedBy(h)(zones[j])
    {
      assert zones[j] in zones;
      if Owns(zones[j], h) {
        OwnerEndsAlike(zones[j], h);
      }
    }
    LongestNone(OwnedBy(h), zones, |zones|);
  }

  /** Asking for the candidates finds the zone that the console picks from the
      whole list, exactly unless the pick is a zone of a single label.  For a
      hostname with a trailing dot the console picks nothing, while the daemon
      trims the dot: they agree exactly if the trimmed name has no zone of more
      than one label. */
  lemma FindAgreesWithPickIff(hostname: string, zones: seq<Zone>)
    ensures !EndsInDot(hostname) ==>
      var pick := Pick(hostname, zones);
      Same(Find(hostname, Filtered(zones)), pick) <==> pick == None || '.' in pick.value.name
    ensures EndsInDot(hostname) && (forall z :: z in zones ==> !EndsInDot(z.name)) ==>
      var trimmed := Pick(TrimDot(hostname), zones);
      Same(Find(hostname, Filtered(zones)), Pick(hostname, zones)) <==> trimmed == None || '.' !in trimmed.value.name
  {
    FindIsExpected(TrimDot(hostname), zones);
    if EndsInDot(hostname) && forall z :: z in zones ==> !EndsInDot(z.name) {
      DottedPicksNothing(hostname, zones);
    }
  }
}
