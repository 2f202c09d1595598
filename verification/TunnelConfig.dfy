/** The remote configuration of a tunnel: how it is read and written, and what
    one edit of a public hostname makes of it. */
module TunnelConfig {
  import opened Options
  import opened Sequences
  import opened Strings
  import opened Ingress

  /** JSON values, as far as the daemon tells them apart here. */
  datatype Value = Null | Rules(rules: seq<Rule>) | Dict(entries: map<string, string>) | Warp(enabled: bool)
      | Other(text: string)

  type Raw = map<string, Value>

  datatype Config = Config(ingress: seq<Rule>, originRequest: map<string, string>, warp: Option<bool>, extra: Raw)

  const EMPTY := Config([], map[], None, map[])

  const MODELLED: set<string> := {"ingress", "originRequest", "warp-routing"}

  function Get(raw: Raw, k: string): Value {
    if k in raw then raw[k] else Null
  }

  predicate Decodable(raw: Raw) {
    && (Get(raw, "ingress").Null? || Get(raw, "ingress").Rules?)
    && (Get(raw, "originRequest").Null? || Get(raw, "originRequest").Dict?)
    && (Get(raw, "warp-routing").Null? || Get(raw, "warp-routing").Warp?)
  }

  function Decode(raw: Raw): Config
    requires Decodable(raw)
  {
    Config(
      match Get(raw, "ingress") case Rules(r) => r case _ => [],
      match Get(raw, "originRequest") case Dict(d) => d case _ => map[],
      match Get(raw, "warp-routing") case Warp(e) => Some(e) case _ => None,
      map k | k in raw && k !in MODELLED :: raw[k])
  }

  function Encode(c: Config): Raw {
    var out := c.extra;
    var out := if |c.ingress| > 0 then out["ingress" := Rules(c.ingress)] else out;
    var out := if |c.originRequest| > 0 then out["originRequest" := Dict(c.originRequest)] else out;
    if c.warp.Some? then out["warp-routing" := Warp(c.warp.value)] else out
  }

  /** The value is of the kind its key asks for. */
  predicate Fits(k: string, v: Value) {
    match k
    case "ingress" => v.Null? || v.Rules?
    case "originRequest" => v.Null? || v.Dict?
    case "warp-routing" => v.Null? || v.Warp?
    case _ => true
  }

  function WithKey(c: Config, k: string, v: Value): Config {
    match k
    case "ingress" => c.(ingress := if v.Rules? then v.rules else [])
    case "originRequest" => c.(originRequest := if v.Dict? then v.entries else map[])
    case "warp-routing" => c.(warp := if v.Warp? then Some(v.enabled) else None)
    case _ => c.(extra := c.extra[k := v])
  }

  class TunnelConfig {
    var ingress: seq<Rule>
    var originRequest: map<string, string>
    var warp: Option<bool>
    var extra: Raw

    constructor ()
      ensures View() == EMPTY
    {
      ingress, originRequest, warp, extra := [], map[], None, map[];
    }

    ghost function View(): Config
      reads this
    {
      Config(ingress, originRequest, warp, extra)
    }

    method TakeKey(k: string, v: Value) returns (ok: bool)
      modifies this
      ensures ok <==> Fits(k, v)
      ensures ok ==> View() == WithKey(old(View()), k, v)
    {
      ok := Fits(k, v);
      if !ok {
        return;
      }
      match k {
        case "ingress" => ingress := if v.Rules? then v.rules else [];
        case "originRequest" => originRequest := if v.Dict? then v.entries else map[];
        case "warp-routing" => warp := if v.Warp? then Some(v.enabled) else None;
        case _ => extra := extra[k := v];
      }
    }

    /** Takes the keys in any order; whatever the receiver held before is gone. */
    method UnmarshalJSON(raw: Raw) returns (ok: bool)
      modifies this
      ensures ok <==> Decodable(raw)
      ensures ok ==> View() == Decode(raw)
    {
      ingress, originRequest, warp, extra := [], map[], None, map[];
      var todo := raw.Keys;
      while todo != {}
        invariant todo <= raw.Keys
        invariant Decodable(Part(raw, todo)) && View() == Decode(Part(raw, todo))
        decreases todo
      {
        var k :| k in todo;
        PartGrows(raw, todo, k);
        ok := TakeKey(k, raw[k]);
        if !ok {
          return;
        }
        todo := todo - {k};
      }
      assert Part(raw, todo) == raw;
      return true;
    }

    /** Checks the edit and carries it out. */
    method Apply(e: Edit) returns (ok: bool)
      modifies this`ingress
      ensures ok <==> Allowed(old(ingress), e)
      ensures ingress == if ok then Edited(old(ingress), e) else old(ingress)
    {
      match e {
        case Create(rule) =>
          if !Complete(rule) {
            return false;
          }
          ingress := InsertHostnameRule(ingress, Cleaned(rule));
        case Update(i, rule) =>
          if i < 0 || i >= |ingress| || ingress[i].hostname == "" || !Complete(rule) {
            return false;
          }
          ingress := ingress[i := Cleaned(rule)];
        case Delete(i) =>
          if i < 0 || i >= |ingress| || ingress[i].hostname == "" {
            return false;
          }
          ingress := ingress[..i] + ingress[i + 1..];
      }
      return true;
    }

    method MarshalJSON() returns (out: Raw)
      ensures out == Encode(View())
    {
      out := map[];
      var todo := extra.Keys;
      while todo != {}
        invariant todo <= extra.Keys && out == Part(extra, todo)
        decreases todo
      {
        var k :| k in todo;
        out := out[k := extra[k]];
        todo := todo - {k};
      }
      assert Part(extra, todo) == extra;
      if |ingress| > 0 {
        out := out["ingress" := Rules(ingress)];
      }
      if |originRequest| > 0 {
        out := out["originRequest" := Dict(originRequest)];
      }
      if warp.Some? {
        out := out["warp-routing" := Warp(warp.value)];
      }
    }
  }

  /** The keys that have been dealt with. */
  ghost function Part(raw: Raw, todo: set<string>): Raw {
    map k | k in raw && k !in todo :: raw[k]
  }

  lemma PartGrows(raw: Raw, todo: set<string>, k: string)
    requires k in todo && k in raw && Decodable(Part(raw, todo))
    ensures Fits(k, raw[k]) <==> Decodable(Part(raw, todo - {k}))
    ensures Fits(k, raw[k]) ==> Decode(Part(raw, todo - {k})) == WithKey(Decode(Part(raw, todo)), k, raw[k])
    ensures !Fits(k, raw[k]) ==> !Decodable(raw)
  {
    assert Part(raw, todo - {k}) == Part(raw, todo)[k := raw[k]] && k !in Part(raw, todo);
    KeyAdded(Part(raw, todo), k, raw[k]);
  }

  lemma KeyFits(part: Raw, k: string, v: Value)
    requires Decodable(part) && k !in part
    ensures Fits(k, v) <==> Decodable(part[k := v])
  {
  }

  lemma KeyAdded(part: Raw, k: string, v: Value)
    requires Decodable(part) && k !in part
    ensures Fits(k, v) <==> Decodable(part[k := v])
    ensures Fits(k, v) ==> Decode(part[k := v]) == WithKey(Decode(part), k, v)
  {
    KeyFits(part, k, v);
    if Fits(k, v) {
      assert forall o :: o != k ==> Get(part[k := v], o) == Get(part, o);
      assert Get(part[k := v], k) == v && Get(part, k) == Null;
      assert Decode(part[k := v]).extra == WithKey(Decode(part), k, v).extra;
    }
  }

  // ---- Round trips -------------------------------------------------------

  /** Reading back what was written gives the configuration, unless it carries a
      modelled key among the unknown ones. */
  lemma DecodeInvertsEncode(c: Config)
    requires c.extra.Keys !! MODELLED
    ensures Decodable(Encode(c)) && Decode(Encode(c)) == c
  {
    assert Decode(Encode(c)).extra == c.extra;
  }

  /** Unknown keys always survive reading and writing ... */
  lemma UnknownKeysSurvive(raw: Raw, k: string)
    requires Decodable(raw) && k !in MODELLED
    ensures k in Encode(Decode(raw)) <==> k in raw
    ensures k in raw ==> Encode(Decode(raw))[k] == raw[k]
  {
  }

  /** ... and everything does exactly if no modelled value is null or empty. */
  lemma EncodeInvertsDecodeIff(raw: Raw)
    requires Decodable(raw)
    ensures Encode(Decode(raw)) == raw <==>
      && ("ingress" in raw ==> raw["ingress"].Rules? && raw["ingress"].rules != [])
      && ("originRequest" in raw ==> raw["originRequest"].Dict? && raw["originRequest"].entries != map[])
      && ("warp-routing" in raw ==> raw["warp-routing"].Warp?)
  {
  }

  // ---- Editing public hostnames ------------------------------------------

  datatype Edit = Create(rule: Rule) | Update(index: int, rule: Rule) | Delete(index: int)

  function Cleaned(r: Rule): Rule {
    r.(hostname := Trim(r.hostname), service := Trim(r.service))
  }

  predicate Complete(r: Rule) {
    Cleaned(r).hostname != "" && Cleaned(r).service != ""
  }

  /** The index is that of a hostname rule. */
  predicate Hits(ingress: seq<Rule>, index: int) {
    0 <= index < |ingress| && !CatchAll(ingress[index])
  }

  predicate Allowed(ingress: seq<Rule>, e: Edit) {
    match e
    case Create(rule) => Complete(rule)
    case Update(i, rule) => Hits(ingress, i) && Complete(rule)
    case Delete(i) => Hits(ingress, i)
  }

  function Edited(ingress: seq<Rule>, e: Edit): seq<Rule>
    requires Allowed(ingress, e)
  {
    match e
    case Create(rule) => Inserted(ingress, Cleaned(rule))
    case Update(i, rule) => ingress[i := Cleaned(rule)]
    case Delete(i) => Removed(ingress, i)
  }

  /** An update changes the rule it names and no other, a deletion takes away the
      rule it names and no other, and what is stored has its blanks trimmed and
      everything else as given. */
  lemma EditsHitTheirRule(ingress: seq<Rule>, e: Edit)
    requires Allowed(ingress, e)
    ensures match e
      case Update(i, rule) =>
        var out := Edited(ingress, e);
        && |out| == |ingress| && (forall j :: 0 <= j < |out| && j != i ==> out[j] == ingress[j])
        && out[i].hostname == Trim(rule.hostname) && out[i].service == Trim(rule.service)
        && out[i].path == rule.path && out[i].origin == rule.origin
      case Delete(i) =>
        var out := Edited(ingress, e);
        && |out| == |ingress| - 1 && (forall j :: 0 <= j < i ==> out[j] == ingress[j])
        && (forall j :: i <= j < |out| ==> out[j] == ingress[j + 1])
      case Create(rule) =>
        var out, c := Edited(ingress, e), FirstWhere(ingress, CatchAll);
        && |out| == |ingress| + (if c < |ingress| then 1 else 2)
        && (forall j :: 0 <= j < c ==> out[j] == ingress[j] && out[j].hostname != "")
        && out[c].hostname == Trim(rule.hostname) && out[c].service == Trim(rule.service)
        && out[c].path == rule.path && out[c].origin == rule.origin
        && (forall j :: c <= j < |ingress| ==> out[j + 1] == ingress[j])
        && (c == |ingress| ==> out[c + 1].hostname == "" && out[c + 1].service == "http_status:404")
  {
  }

  /** An edit is refused exactly if it names no hostname rule or leaves the
      hostname or the service blank. */
  lemma RefusedIff(ingress: seq<Rule>, e: Edit)
    ensures !Allowed(ingress, e) <==>
            match e
            case Create(rule) => Trim(rule.hostname) == "" || Trim(rule.service) == ""
            case Update(i, rule) =>
              || i < 0 || i >= |ingress| || ingress[i].hostname == ""
              || Trim(rule.hostname) == "" || Trim(rule.service) == ""
            case Delete(i) => i < 0 || i >= |ingress| || ingress[i].hostname == ""
  {
  }

  /** What is written back after an edit of what the edge returned, if anything is. */
  function EditedRaw(raw: Option<Raw>, e: Edit): Option<Raw> {
    if raw.Some? && !Decodable(raw.value) then None
    else
      var c := if raw.Some? then Decode(raw.value) else EMPTY;
      if Allowed(c.ingress, e) then Some(Encode(c.(ingress := Edited(c.ingress, e)))) else None
  }

  /** One request of the daemon, between reading and writing back. */
  method EditConfig(raw: Option<Raw>, e: Edit) returns (out: Option<Raw>)
    ensures out == EditedRaw(raw, e)
  {
    var c := new TunnelConfig();
    if raw.Some? {
      var ok := c.UnmarshalJSON(raw.value);
      if !ok {
        return None;
      }
    }
    out := EditRead(c, e);
  }

  method EditRead(c: TunnelConfig, e: Edit) returns (out: Option<Raw>)
    modifies c`ingress
    ensures out == if Allowed(old(c.ingress), e)
                   then Some(Encode(old(c.View()).(ingress := Edited(old(c.ingress), e)))) else None
  {
    var ok := c.Apply(e);
    if !ok {
      return None;
    }
    var written := c.MarshalJSON();
    return Some(written);
  }

  /** The rules of a configuration that may be missing. */
  function Listed(raw: Option<Raw>): seq<Rule> {
    if raw.Some? && Get(raw.value, "ingress").Rules? then raw.value["ingress"].rules else []
  }

  lemma EditKeepsShape(ingress: seq<Rule>, e: Edit)
    requires Shaped(ingress) && Allowed(ingress, e)
    ensures Shaped(Edited(ingress, e))
  {
    match e
    case Create(rule) => InsertKeepsShape(ingress, Cleaned(rule));
    case Update(i, rule) => EditsKeepShape(ingress, i, Cleaned(rule));
    case Delete(i) => EditsKeepShape(ingress, i, ingress[i]);
  }

  lemma RulesOfEncoded(c: Config)
    requires c.extra.Keys !! MODELLED
    ensures Listed(Some(Encode(c))) == c.ingress
    ensures forall k :: k !in MODELLED ==>
              (k in Encode(c) <==> k in c.extra) && (k in c.extra ==> Encode(c)[k] == c.extra[k])
  {
  }

  /** An edit is written back exactly if what the edge returned can be decoded, or
      is missing, and the edit is not refused. */
  lemma WrittenIff(raw: Option<Raw>, e: Edit)
    ensures EditedRaw(raw, e).Some? <==> (raw.Some? ==> Decodable(raw.value)) && Allowed(Listed(raw), e)
  {
  }

  /** A document can be decoded exactly if the three modelled keys, where they are
      there and not null, have values of their kind. */
  lemma DecodableIff(raw: Raw)
    ensures Decodable(raw) <==>
            && ("ingress" in raw ==> raw["ingress"].Null? || raw["ingress"].Rules?)
            && ("originRequest" in raw ==> raw["originRequest"].Null? || raw["originRequest"].Dict?)
            && ("warp-routing" in raw ==> raw["warp-routing"].Null? || raw["warp-routing"].Warp?)
  {
  }

  /** An edit that is written back changes the rules as it should, keeps their
      shape, and leaves every key the daemon does not model alone. */
  lemma EditedRawIsExact(raw: Option<Raw>, e: Edit)
    requires EditedRaw(raw, e).Some?
    ensures var out := EditedRaw(raw, e);
      && Allowed(Listed(raw), e) && Listed(out) == Edited(Listed(raw), e)
      && (Shaped(Listed(raw)) ==> Shaped(Listed(out)))
      && (forall k :: k !in MODELLED ==> (k in out.value <==> raw.Some? && k in raw.value))
      && (forall k :: k !in MODELLED && k in out.value ==> out.value[k] == raw.value[k])
  {
    var c := if raw.Some? then Decode(raw.value) else EMPTY;
    assert c.ingress == Listed(raw) && forall k :: k in c.extra <==> k !in MODELLED && raw.Some? && k in raw.value;
    RulesOfEncoded(c.(ingress := Edited(c.ingress, e)));
    if Shaped(Listed(raw)) {
      EditKeepsShape(Listed(raw), e);
    }
  }
}
