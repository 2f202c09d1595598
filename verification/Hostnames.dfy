/** The console's form fields: a hostname is edited as a prefix and a zone, a
    service as a type and a target. */
module Hostnames {
  import opened Options
  import opened Strings
  import opened Zones

  const DOT: set<char> := {'.'}

  function Cleaned(s: string): string {
    Strip(Trim(s), DOT)
  }

  predicate Clean(s: string) {
    Bare(s, SPACES) && Bare(s, DOT)
  }

  function BuildHostname(subdomain: string, zoneName: string): string {
    var sub, zone := Cleaned(subdomain), Cleaned(zoneName);
    if zone == "" then sub else if sub != "" then sub + "." + zone else zone
  }

  function SplitHostname(hostname: string, zones: seq<Zone>): (string, string) {
    var raw := Trim(hostname);
    if raw == "" then ("", "")
    else match Pick(raw, zones)
      case None => ("", raw)
      case Some(z) =>
        if ToLower(raw) == ToLower(z.name) then ("", z.name)
        else if HasSuffix(ToLower(raw), "." + ToLower(z.name)) then (raw[..|raw| - |z.name| - 1], z.name)
        else ("", z.name)
  }

  lemma CleanedIff(s: string)
    ensures |Cleaned(s)| <= |s|
    ensures Cleaned(s) == s <==> |Cleaned(s)| == |s|
    ensures Cleaned(s) == s <==> Clean(s)
  {
  }

  /** A hostname is the prefix, a dot and the zone; of an empty part nothing is
      left, not even the dot. */
  lemma BuiltAs(subdomain: string, zoneName: string)
    ensures var sub, zone, h := Cleaned(subdomain), Cleaned(zoneName), BuildHostname(subdomain, zoneName);
      && (zone == "" ==> h == sub) && (sub == "" ==> h == zone)
      && (sub != "" && zone != "" ==>
            |h| == |sub| + |zone| + 1 && sub <= h && h[|sub|] == '.' && h[|sub| + 1..] == zone)
  {
  }

  lemma StripLength(s: string, cut: set<char>)
    ensures |Strip(s, cut)| <= |s|
    ensures |Strip(s, cut)| == |s| ==> Strip(s, cut) == s
  {
  }

  // ---- From the form and back --------------------------------------------

  lemma SameLengthOwners(a: Zone, b: Zone, h: string)
    requires Owns(a, h) && Owns(b, h) && |a.name| == |b.name|
    ensures EqualFold(a.name, b.name)
  {
    var l := ToLower(h);
    if |a.name| < |h| {
      DotCancels(ToLower(a.name), ToLower(b.name));
      assert l[|l| - |a.name| - 1..] == "." + ToLower(a.name) == "." + ToLower(b.name);
    }
  }

  lemma DotCancels(x: string, y: string)
    ensures "." + x == "." + y ==> x == y
  {
    assert ("." + x)[1..] == x && ("." + y)[1..] == y;
  }

  /** Of the zones that own h, the longest is picked, and the first of its name. */
  lemma {:induction false} PickFirstLongest(h: string, zones: seq<Zone>, k: nat, n: nat)
    requires n <= |zones| && k < |zones| && FirstNamedAt(zones, zones[k].name, k) && Owns(zones[k], h)
    requires forall z :: z in zones && Owns(z, h) ==> |z.name| <= |zones[k].name|
    ensures k < n ==> PickFrom(h, zones, n) == Some(zones[k])
    ensures n <= k && PickFrom(h, zones, n).Some? ==> |PickFrom(h, zones, n).value.name| < |zones[k].name|
  {
    if n > 0 {
      PickFirstLongest(h, zones, k, n - 1);
      assert zones[n - 1] in zones;
      if Owns(zones[n - 1], h) && |zones[n - 1].name| == |zones[k].name| {
        SameLengthOwners(zones[n - 1], zones[k], h);
      }
    }
  }

  lemma BuiltIsOwned(sub: string, z: Zone)
    requires z.name != ""
    ensures Owns(z, if sub != "" then sub + "." + z.name else z.name)
  {
  }

  function Joined(sub: string, zone: string): string {
    if sub != "" then sub + "." + zone else zone
  }

  lemma JoinedIsBare(sub: string, zone: string)
    requires Bare(sub, SPACES) && Bare(zone, SPACES) && zone != ""
    ensures Bare(Joined(sub, zone), SPACES)
  {
  }

  lemma BuiltFrom(sub: string, zone: string)
    requires Clean(sub) && Clean(zone) && zone != ""
    ensures var h := BuildHostname(sub, zone);
      h == Joined(sub, zone) && Trim(h) == h && h != "" && Owns(Zone("", zone), h)
  {
    CleanedIff(sub);
    CleanedIff(zone);
    JoinedIsBare(sub, zone);
    BuiltIsOwned(sub, Zone("", zone));
  }

  /** What splitting a trimmed name yields when z is picked. */
  lemma SplitWhenPicked(h: string, zones: seq<Zone>, z: Zone)
    requires h != "" && Trim(h) == h && Pick(h, zones) == Some(z) && Owns(z, h)
    ensures |z.name| == |h| || |z.name| < |h|
    ensures SplitHostname(h, zones) == (if |z.name| == |h| then "" else h[..|h| - |z.name| - 1], z.name)
  {
  }

  /** No zone that owns h has a name of more than n characters. */
  ghost predicate NoneLonger(zones: seq<Zone>, h: string, n: nat) {
    forall z :: z in zones && Owns(z, h) ==> |z.name| <= n
  }

  /** The pick is the first zone of the given name exactly if no longer zone owns h. */
  lemma PickIffNoneLonger(h: string, zones: seq<Zone>, k: nat)
    requires k < |zones| && FirstNamedAt(zones, zones[k].name, k) && Owns(zones[k], h)
    ensures Pick(h, zones).Some? && Owns(Pick(h, zones).value, h)
    ensures if NoneLonger(zones, h, |zones[k].name|) then Pick(h, zones) == Some(zones[k])
            else |Pick(h, zones).value.name| > |zones[k].name|
  {
    assert zones[..|zones|] == zones && zones[k] in zones;
    PickIsLongest(h, zones, |zones|, zones[k]);
    if NoneLonger(zones, h, |zones[k].name|) {
      PickFirstLongest(h, zones, k, |zones|);
    } else {
      var z :| z in zones && Owns(z, h) && |z.name| > |zones[k].name|;
      PickIsLongest(h, zones, |zones|, z);
    }
  }

  lemma FoldedOwns(zones: seq<Zone>, k: nat, zone: string, h: string)
    requires k < |zones| && FirstNamedAt(zones, zone, k) && Owns(Zone("", zone), h)
    ensures Owns(zones[k], h) && |zones[k].name| == |zone| && FirstNamedAt(zones, zones[k].name, k)
  {
  }

  lemma PickedNameIff(h: string, zone: string, zones: seq<Zone>, k: nat)
    requires k < |zones| && FirstNamedAt(zones, zone, k) && Owns(Zone("", zone), h)
    ensures Pick(h, zones).Some? && Owns(Pick(h, zones).value, h)
    ensures Pick(h, zones).value.name == zone <==> zones[k].name == zone && NoneLonger(zones, h, |zone|)
  {
    FoldedOwns(zones, k, zone, h);
    PickIffNoneLonger(h, zones, k);
  }

  lemma CutAt(sub: string, zone: string, name: string)
    requires var h := Joined(sub, zone); |name| == |h| || |name| < |h|
    ensures var h := Joined(sub, zone);
      (if |name| == |h| then "" else h[..|h| - |name| - 1], name) == (sub, zone) <==> name == zone
  {
    var h := Joined(sub, zone);
    if name == zone && sub != "" {
      assert h[..|h| - |zone| - 1] == sub;
    }
  }

  lemma PickedSplitIff(sub: string, zone: string, zones: seq<Zone>, best: Zone)
    requires var h := Joined(sub, zone); Trim(h) == h && h != "" && Pick(h, zones) == Some(best) && Owns(best, h)
    ensures SplitHostname(Joined(sub, zone), zones) == (sub, zone) <==> best.name == zone
  {
    SplitWhenPicked(Joined(sub, zone), zones, best);
    CutAt(sub, zone, best.name);
  }

  /** Splitting inverts building, for clean fields and a listed zone, exactly if
      no longer listed zone owns the name and the first listed zone of that name
      is spelled the same. */
  lemma SplitInvertsBuildIff(sub: string, zone: string, zones: seq<Zone>, k: nat)
    requires Clean(sub) && Clean(zone) && zone != ""
    requires k < |zones| && FirstNamedAt(zones, zone, k)
    ensures SplitHostname(BuildHostname(sub, zone), zones) == (sub, zone) <==>
            zones[k].name == zone && NoneLonger(zones, BuildHostname(sub, zone), |zone|)
  {
    var h := BuildHostname(sub, zone);
    BuiltFrom(sub, zone);
    PickedNameIff(h, zone, zones, k);
    var best := Pick(h, zones).value;
    PickedSplitIff(sub, zone, zones, best);
  }

  /** The name is trimmed, and what stands before its zone, or all of it if no
      zone owns it, has no blanks or dots at its edges. */
  predicate Reversible(hostname: string, zones: seq<Zone>) {
    Bare(hostname, SPACES) &&
    match Pick(hostname, zones)
    case None => Bare(hostname, DOT)
    case Some(z) =>
      |z.name| >= |hostname| ||
      (var sub := hostname[..|hostname| - |z.name| - 1]; sub != "" && Clean(sub))
  }

  lemma FoldedSuffix(h: string, zn: string, sub: string)
    requires HasSuffix(ToLower(h), "." + ToLower(zn)) && sub == h[..|h| - |zn| - 1]
    ensures EqualFold(sub + "." + zn, h)
  {
  }

  lemma EqualFoldLength(a: string, b: string)
    requires EqualFold(a, b)
    ensures |a| == |b|
  {
  }

  /** Joining a prefix and a zone cut from h gives h back, up to case, exactly if
      the prefix is not empty and clean. */
  lemma RejoinIff(h: string, z: Zone, sub: string)
    requires Clean(z.name) && z.name != "" && HasSuffix(ToLower(h), "." + ToLower(z.name))
        && sub == h[..|h| - |z.name| - 1]
    ensures |BuildHostname(sub, z.name)| <= |h|
    ensures EqualFold(BuildHostname(sub, z.name), h) <==> sub != "" && Clean(sub)
  {
    CleanedIff(sub);
    CleanedIff(z.name);
    var built := BuildHostname(sub, z.name);
    if sub != "" && Clean(sub) {
      FoldedSuffix(h, z.name, sub);
    } else {
      assert |built| < |h|;
      if EqualFold(built, h) {
        EqualFoldLength(built, h);
      }
    }
  }

  lemma WholeIff(h: string)
    ensures BuildHostname("", h) == Cleaned(h) && |BuildHostname("", h)| <= |h|
    ensures EqualFold(BuildHostname("", h), h) <==> Clean(h)
  {
  }

  function Rebuilt(hostname: string, zones: seq<Zone>): string {
    var (sub, zone) := SplitHostname(hostname, zones);
    BuildHostname(sub, zone)
  }

  lemma TrimmedIff(raw: string, zones: seq<Zone>)
    requires Bare(raw, SPACES) && forall z :: z in zones ==> Clean(z.name)
    ensures |Rebuilt(raw, zones)| <= |raw|
    ensures EqualFold(Rebuilt(raw, zones), raw) <==> Reversible(raw, zones)
  {
    if raw == "" {
      NothingOwnsEmpty(zones, |zones|);
      WholeIff("");
    } else if Pick(raw, zones) == None {
      WholeIff(raw);
    } else {
      PickedIsThere(raw, zones, |zones|);
      var z := Pick(raw, zones).value;
      assert z in zones[..|zones|] && zones[..|zones|] == zones;
      SplitWhenPicked(raw, zones, z);
      if |z.name| == |raw| {
        WholeIff(z.name);
      } else {
        RejoinIff(raw, z, raw[..|raw| - |z.name| - 1]);
      }
    }
  }

  lemma TrimAgain(hostname: string, zones: seq<Zone>)
    ensures SplitHostname(Trim(hostname), zones) == SplitHostname(hostname, zones)
  {
  }

  /** Building inverts splitting, up to the case of letters, exactly for
      reversible names. */
  lemma BuildInvertsSplitIff(hostname: string, zones: seq<Zone>)
    requires forall z :: z in zones ==> Clean(z.name)
    ensures EqualFold(Rebuilt(hostname, zones), hostname) <==> Reversible(hostname, zones)
  {
    var raw := Trim(hostname);
    TrimmedIff(raw, zones);
    TrimAgain(hostname, zones);
    StripLength(hostname, SPACES);
    if EqualFold(Rebuilt(hostname, zones), hostname) {
      EqualFoldLength(Rebuilt(hostname, zones), hostname);
    }
  }

  // ---- Services ----------------------------------------------------------

  datatype ServiceType = Http | Https | Tcp | Ssh | Rdp | Unix | Smb | HttpStatus

  const TYPES := [Http, Https, Tcp, Ssh, Rdp, Unix, Smb, HttpStatus]

  function Scheme(t: ServiceType): string {
    match t
    case Http => "http://"
    case Https => "https://"
    case Tcp => "tcp://"
    case Ssh => "ssh://"
    case Rdp => "rdp://"
    case Unix => "unix:"
    case Smb => "smb://"
    case HttpStatus => "http_status:"
  }

  function BuildService(t: ServiceType, target: string): string {
    Scheme(t) + Trim(if t == HttpStatus && target == "" then "404" else target)
  }

  /** What a service reads like, type by type. */
  lemma ServicesReadAs(target: string)
    ensures BuildService(Http, target) == "http://" + Trim(target)
    ensures BuildService(Https, target) == "https://" + Trim(target)
    ensures BuildService(Tcp, target) == "tcp://" + Trim(target) && BuildService(Ssh, target) == "ssh://" + Trim(target)
    ensures BuildService(Rdp, target) == "rdp://" + Trim(target) && BuildService(Smb, target) == "smb://" + Trim(target)
    ensures BuildService(Unix, target) == "unix:" + Trim(target)
    ensures BuildService(HttpStatus, target) == "http_status:" + (if target == "" then "404" else Trim(target))
  {
    assert Bare("404", SPACES);
  }

  /** The first type from the i-th on whose scheme has slashes and starts s. */
  function Slashed(s: string, i: nat): Option<ServiceType>
    requires i <= |TYPES|
    decreases |TYPES| - i
  {
    if i == |TYPES| then None
    else if HasSuffix(Scheme(TYPES[i]), "//") && Scheme(TYPES[i]) <= s then Some(TYPES[i])
    else Slashed(s, i + 1)
  }

  /** A service without a known scheme is taken for the target of type http. */
  function ParseService(service: string): (ServiceType, string) {
    var s := Trim(service);
    if "http_status:" <= s then (HttpStatus, s[|"http_status:"|..])
    else if "unix:" <= s then (Unix, s[|"unix:"|..])
    else match Slashed(s, 0)
      case Some(t) => (t, s[|Scheme(t)|..])
      case None => (Http, s)
  }

  /** No scheme starts another. */
  lemma SchemesApart(t: ServiceType, u: ServiceType, target: string)
    ensures Scheme(u) <= Scheme(t) + target <==> t == u
  {
    var s := Scheme(t) + target;
    assert |Scheme(t)| >= 5 && |Scheme(u)| >= 5;
    assert s[0] == Scheme(t)[0] && s[1] == Scheme(t)[1] && s[4] == Scheme(t)[4];
    if Scheme(u) <= s {
      assert s[0] == Scheme(u)[0] && s[1] == Scheme(u)[1] && s[4] == Scheme(u)[4];
    }
  }

  lemma {:induction false} SlashedFinds(t: ServiceType, target: string, i: nat, k: nat)
    requires t != Unix && t != HttpStatus && i <= k < |TYPES| && TYPES[k] == t
    ensures Slashed(Scheme(t) + target, i) == Some(t)
    decreases k - i
  {
    SchemesApart(t, TYPES[i], target);
    if i < k {
      assert TYPES[i] != TYPES[k];
      SlashedFinds(t, target, i + 1, k);
    } else {
      var scheme := Scheme(t);
      assert scheme[|scheme| - 2..] == "//";
    }
  }

  lemma PositionOf(t: ServiceType) returns (k: nat)
    ensures k < |TYPES| && TYPES[k] == t
  {
    k := match t case Http => 0 case Https => 1 case Tcp => 2 case Ssh => 3 case Rdp => 4 case Unix => 5 case Smb => 6
        case HttpStatus => 7;
  }

  lemma ParseOfScheme(t: ServiceType, target: string)
    requires Bare(target, SPACES)
    ensures ParseService(Scheme(t) + target) == (t, target)
  {
    var s := Scheme(t) + target;
    assert s[|s| - 1] == if target == "" then Scheme(t)[|Scheme(t)| - 1] else target[|target| - 1];
    assert Bare(s, SPACES);
    SchemesApart(t, HttpStatus, target);
    SchemesApart(t, Unix, target);
    if t != Unix && t != HttpStatus {
      var k := PositionOf(t);
      SlashedFinds(t, target, 0, k);
    }
    assert s[|Scheme(t)|..] == target;
  }

  /** Parsing inverts building exactly for trimmed targets, but for an empty
      status code, which is filled in. */
  lemma ParseInvertsBuildIff(t: ServiceType, target: string)
    ensures ParseService(BuildService(t, target)) == (t, target) <==>
            Bare(target, SPACES) && !(t == HttpStatus && target == "")
  {
    var given := if t == HttpStatus && target == "" then "404" else target;
    ParseOfScheme(t, Trim(given));
  }
}
