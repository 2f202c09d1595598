/** Reading one line of the Prometheus text format. */
module PromText {
  import opened Options
  import opened Strings

  /** `value` is the number's text; which texts are numbers is a parameter. */
  datatype Sample = Sample(name: string, labels: Option<map<string, string>>, value: string)

  // ---- Labels ------------------------------------------------------------

  const SEPARATORS: set<char> := {' ', ',', '\t'}

  function Unescaped(c: char): char {
    if c == 'n' then '\n' else c
  }

  /** The value that starts at the front of s, and what is left from its closing quote on. */
  function Value(s: string): (r: (string, string))
    ensures |r.1| <= |s|
    ensures r.1 != "" ==> r.1[0] == '"'
    decreases |s|
  {
    if s == "" || s[0] == '"' then ("", s)
    else if s[0] == '\\' && |s| > 1 then
      var (v, rest) := Value(s[2..]);
      ([Unescaped(s[1])] + v, rest)
    else
      var (v, rest) := Value(s[1..]);
      ([s[0]] + v, rest)
  }

  /** What stands at the front of a label segment; `rest` is what follows the label. */
  datatype Field = End | Malformed | Label(key: string, value: string, rest: string)

  /** The label with the given key whose quoted value stands at the front of t. */
  function Quoted(key: string, t: string): (f: Field)
    ensures f.Label? ==> f.key == key && |f.rest| < |t|
  {
    if t == "" || t[0] != '"' then Malformed
    else
      var (v, rest) := Value(t[1..]);
      Label(key, v, if rest == "" then "" else rest[1..])
  }

  function Next(s: string): (f: Field)
    ensures f.Label? ==> |f.rest| < |s|
  {
    var s := StripLeft(s, SEPARATORS);
    var k := Before(s, {'='});
    if |k| == |s| then End else Quoted(Trim(k), s[|k| + 1..])
  }

  function Labels(s: string, m: map<string, string>): Option<map<string, string>>
    decreases |s|
  {
    match Next(s)
    case End => Some(m)
    case Malformed => None
    case Label(key, value, rest) => Labels(rest, m[key := value])
  }

  // ---- Printing labels ---------------------------------------------------

  function EscapedChar(c: char): string {
    match c
    case '\\' => "\\\\"
    case '"' => "\\\""
    case '\n' => "\\n"
    case _ => [c]
  }

  function Escape(v: string): string {
    if v == "" then "" else EscapedChar(v[0]) + Escape(v[1..])
  }

  /** Followed by `post`; the concatenation nests to the right. */
  function Quote(value: string, post: string): string {
    "\"" + (Escape(value) + ("\"" + post))
  }

  function Printed(key: string, value: string, post: string): string {
    key + ("=" + Quote(value, post))
  }

  function PrintedAll(items: seq<(string, string)>): string {
    if items == [] then ""
    else Printed(items[0].0, items[0].1, if |items| == 1 then "" else "," + PrintedAll(items[1..]))
  }

  function Collected(items: seq<(string, string)>, m: map<string, string>): map<string, string> {
    if items == [] then m else Collected(items[1..], m[items[0].0 := items[0].1])
  }

  /** Keys that survive printing and parsing. */
  predicate Plain(key: string) {
    '=' !in key && Bare(key, SPACES) && (key != "" ==> key[0] != ',')
  }

  lemma ValueOfEscaped(c: char, more: string)
    ensures Value(EscapedChar(c) + more) == ([c] + Value(more).0, Value(more).1)
  {
    var s := EscapedChar(c) + more;
    if c in {'\\', '"', '\n'} {
      assert s[2..] == more;
    } else {
      assert s[1..] == more;
    }
  }

  lemma EscapeFirst(v: string, close: string)
    requires v != ""
    ensures Escape(v) + close == EscapedChar(v[0]) + (Escape(v[1..]) + close)
  {
  }

  lemma FirstAndRest(v: string)
    requires v != ""
    ensures v == [v[0]] + v[1..]
  {
  }

  /** Unescaping inverts escaping, whatever the value contains. */
  lemma {:induction false} ValueInvertsEscape(v: string, post: string)
    ensures Value(Escape(v) + ("\"" + post)) == (v, "\"" + post)
  {
    var close := "\"" + post;
    if v == "" {
      assert Escape(v) + close == close;
    } else {
      ValueInvertsEscape(v[1..], post);
      EscapeFirst(v, close);
      ValueOfEscaped(v[0], Escape(v[1..]) + close);
      FirstAndRest(v);
    }
  }

  lemma QuotedReadsBack(key: string, v: string, post: string)
    ensures Quoted(key, Quote(v, post)) == Label(key, v, post)
  {
    ValueInvertsEscape(v, post);
    assert Quote(v, post)[1..] == Escape(v) + ("\"" + post);
    assert ("\"" + post)[1..] == post;
  }

  lemma {:induction false} StripSeparators(pre: string, s: string)
    requires forall c :: c in pre ==> c in SEPARATORS
    requires s != "" ==> s[0] !in SEPARATORS
    ensures StripLeft(pre + s, SEPARATORS) == s
  {
    if pre == "" {
      assert pre + s == s;
    } else {
      assert (pre + s)[1..] == pre[1..] + s;
      assert pre[0] in pre;
      StripSeparators(pre[1..], s);
    }
  }

  lemma DropKey(key: string, t: string)
    ensures var s := key + ("=" + t); s[|key|] == '=' && s[|key| + 1..] == t
  {
  }

  lemma BeforeEquals(key: string, t: string)
    requires '=' !in key
    ensures Before(key + ("=" + t), {'='}) == key && (key + ("=" + t))[|key| + 1..] == t
  {
    DropKey(key, t);
    BeforeUnique(key + ("=" + t), key, {'='});
  }

  lemma NextBy(s: string, left: string, key: string, t: string)
    requires StripLeft(s, SEPARATORS) == left && Before(left, {'='}) == key && |key| < |left| && left[|key| + 1..] == t
    ensures Next(s) == Quoted(Trim(key), t)
  {
  }

  /** A printed label is read back, and what follows it is left. */
  lemma NextReadsBack(pre: string, key: string, v: string, post: string)
    requires Plain(key) && forall c :: c in pre ==> c in SEPARATORS
    ensures Next(pre + Printed(key, v, post)) == Label(key, v, post)
  {
    var t := Quote(v, post);
    StripSeparators(pre, key + ("=" + t));
    BeforeEquals(key, t);
    NextBy(pre + (key + ("=" + t)), key + ("=" + t), key, t);
    QuotedReadsBack(key, v, post);
  }

  lemma LabelsOfNothing(pre: string, m: map<string, string>)
    requires pre in {"", ","}
    ensures Labels(pre, m) == Some(m)
  {
  }

  /** Parsing the printed labels gives back the labels. */
  lemma {:induction false} LabelsInvertPrinting(items: seq<(string, string)>, pre: string, m: map<string, string>)
    requires (forall item :: item in items ==> Plain(item.0)) && pre in {"", ","}
    ensures Labels(pre + PrintedAll(items), m) == Some(Collected(items, m))
  {
    if items == [] {
      LabelsOfNothing(pre, m);
      assert pre + "" == pre;
    } else {
      var rest := if |items| == 1 then "" else "," + PrintedAll(items[1..]);
      assert items[0] in items;
      NextReadsBack(pre, items[0].0, items[0].1, rest);
      var m' := m[items[0].0 := items[0].1];
      if |items| == 1 {
        LabelsOfNothing("", m');
      } else {
        LabelsInvertPrinting(items[1..], ",", m');
      }
    }
  }

  lemma NextKey(s: string)
    ensures Next(s).Label? ==> '=' !in Next(s).key && Bare(Next(s).key, SPACES)
  {
    var k := Before(StripLeft(s, SEPARATORS), {'='});
    TrimIsPart(k);
    assert '=' !in k;
  }

  /** Every key the parser yields is trimmed and has no equals sign. */
  lemma {:induction false} LabelKeys(s: string, m: map<string, string>, key: string)
    requires Labels(s, m).Some? && key in Labels(s, m).value && key !in m
    ensures '=' !in key && Bare(key, SPACES)
    decreases |s|
  {
    NextKey(s);
    var f := Next(s);
    if f.Label? && key != f.key {
      LabelKeys(f.rest, m[f.key := f.value], key);
    }
  }

  lemma {:induction false} StripPastKey(key: string, t: string)
    ensures StripLeft(key + ("=" + t), SEPARATORS) == StripLeft(key, SEPARATORS) + ("=" + t)
  {
    if key == "" {
      assert key + ("=" + t) == "=" + t;
    } else {
      assert (key + ("=" + t))[1..] == key[1..] + ("=" + t);
      StripPastKey(key[1..], t);
    }
  }

  /** Leading separators are not part of a key. */
  lemma SeparatorsLost(key: string, v: string)
    requires '=' !in key
    ensures var left := StripLeft(key, SEPARATORS);
      Labels(Printed(key, v, ""), map[]) == Some(map[Trim(left) := v])
  {
    var left, t := StripLeft(key, SEPARATORS), Quote(v, "");
    StripPastKey(key, t);
    StripLeftIsSuffix(key, SEPARATORS);
    PartMembers(key, left, left);
    BeforeEquals(left, t);
    NextBy(key + ("=" + t), left + ("=" + t), left, t);
    QuotedReadsBack(Trim(left), v, "");
    LabelsOfNothing("", map[Trim(left) := v]);
  }

  lemma LeadingComma(key: string, v: string)
    requires '=' !in key && key != "" && key[0] == ','
    ensures Labels(Printed(key, v, ""), map[]) != Some(map[key := v])
  {
    var left := StripLeft(key, SEPARATORS);
    SeparatorsLost(key, v);
    assert left == StripLeft(key[1..], SEPARATORS);
    TrimIsPart(left);
    assert Trim(left) in map[Trim(left) := v];
  }

  /** A label comes back exactly if its key is plain. */
  lemma LabelReadsBackIff(key: string, v: string)
    ensures Labels(Printed(key, v, ""), map[]) == Some(map[key := v]) <==> Plain(key)
  {
    if Plain(key) {
      LabelsInvertPrinting([(key, v)], "", map[]);
      assert "" + PrintedAll([(key, v)]) == Printed(key, v, "");
      assert Collected([(key, v)], map[]) == map[key := v];
    } else if Labels(Printed(key, v, ""), map[]) == Some(map[key := v]) {
      assert key in map[key := v];
      LabelKeys(Printed(key, v, ""), map[], key);
      LeadingComma(key, v);
    }
  }

  // ---- Whole lines -------------------------------------------------------

  /** The last position of a character of `of`, or -1. */
  function LastIndex(s: string, of: set<char>): (i: int)
    ensures -1 <= i < |s|
    ensures i >= 0 ==> s[i] in of
    ensures forall j :: i < j < |s| ==> s[j] !in of
  {
    if s == "" then -1
    else if s[|s| - 1] in of then |s| - 1
    else LastIndex(s[..|s| - 1], of)
  }

  function Named(name: string, labels: Option<map<string, string>>, value: string): Option<Sample> {
    if Trim(name) == "" then None else Some(Sample(Trim(name), labels, value))
  }

  function ParseHead(head: string, value: string): Option<Sample> {
    var name := Before(head, {'{'});
    if |name| == |head| then Named(name, None, value)
    else
      var end := LastIndex(head, {'}'});
      if end <= |name| then None else Named(name, Labels(head[|name| + 1..end], map[]), value)
  }

  function ParseOne(line: string, numeric: string -> bool): Option<Sample> {
    var idx := LastIndex(line, {' ', '\t'});
    if idx < 0 then None
    else
      var value := Trim(line[idx + 1..]);
      if numeric(value) then ParseHead(Trim(line[..idx]), value) else None
  }

  /** A line whose last token is no number is not a sample, ... */
  lemma NoNumberIsRefused(head: string, value: string, numeric: string -> bool)
    requires Bare(value, SPACES) && ' ' !in value && '\t' !in value && !numeric(value)
    ensures ParseOne(head + " " + value, numeric) == None
  {
    LastIndexAt(head, ' ', value, {' ', '\t'});
    var line := head + [' '] + value;
    assert line[|head| + 1..] == value;
  }

  /** ... nor is a line of one token ... */
  lemma OneTokenIsRefused(line: string, numeric: string -> bool)
    requires forall i :: 0 <= i < |line| ==> line[i] !in {' ', '\t'}
    ensures ParseOne(line, numeric) == None
  {
    assert LastIndex(line, {' ', '\t'}) < 0;
  }

  /** ... or one whose labels are not closed. */
  lemma UnclosedLabelsAreRefused(name: string, rest: string, value: string)
    requires '{' !in name && '}' !in rest && '}' !in name
    ensures ParseHead(name + "{" + rest, value) == None
  {
    var head := name + "{" + rest;
    assert forall i :: 0 <= i < |name| ==> name[i] in name;
    BeforeUnique(head, name, {'{'});
    assert '}' !in head;
    assert forall i :: 0 <= i < |head| ==> head[i] in head;
  }

  function Braced(labels: Option<seq<(string, string)>>): string {
    match labels
    case None => ""
    case Some(items) => "{" + (PrintedAll(items) + "}")
  }

  function Line(name: string, labels: Option<seq<(string, string)>>, value: string): string {
    name + Braced(labels) + " " + value
  }

  predicate GoodName(name: string) {
    name != "" && Bare(name, SPACES) && '{' !in name
  }

  ghost predicate AllPlain(labels: Option<seq<(string, string)>>) {
    labels.Some? ==> forall item :: item in labels.value ==> Plain(item.0)
  }

  function Read(labels: Option<seq<(string, string)>>): Option<map<string, string>> {
    match labels
    case None => None
    case Some(items) => Some(Collected(items, map[]))
  }

  lemma NameEnds(name: string, more: string)
    requires '{' !in name && (more != "" ==> more[0] == '{')
    ensures Before(name + more, {'{'}) == name
  {
    assert forall i :: 0 <= i < |name| ==> name[i] in name;
    BeforeUnique(name + more, name, {'{'});
  }

  lemma BracesFound(name: string, inner: string)
    requires '{' !in name
    ensures var head := name + ("{" + (inner + "}"));
      && Before(head, {'{'}) == name && LastIndex(head, {'}'}) == |head| - 1
      && head[|name| + 1..|head| - 1] == inner
  {
    NameEnds(name, "{" + (inner + "}"));
    assert name + ("{" + (inner + "}")) == name + ("{" + inner) + ['}'];
  }

  lemma BracedHead(name: string, inner: string, value: string)
    requires '{' !in name
    ensures ParseHead(name + ("{" + (inner + "}")), value) == Named(name, Labels(inner, map[]), value)
  {
    BracesFound(name, inner);
  }

  lemma PrintedReadBack(items: seq<(string, string)>)
    requires forall item :: item in items ==> Plain(item.0)
    ensures Labels(PrintedAll(items), map[]) == Some(Collected(items, map[]))
  {
    LabelsInvertPrinting(items, "", map[]);
    assert "" + PrintedAll(items) == PrintedAll(items);
  }

  lemma HeadReadsBack(name: string, labels: Option<seq<(string, string)>>, value: string)
    requires GoodName(name) && AllPlain(labels)
    ensures ParseHead(name + Braced(labels), value) == Some(Sample(name, Read(labels), value))
  {
    match labels
    case None =>
      NameEnds(name, "");
      assert name + "" == name;
    case Some(items) =>
      BracedHead(name, PrintedAll(items), value);
      PrintedReadBack(items);
  }

  lemma NamesAreGood(head: string, value: string)
    ensures ParseHead(head, value).Some? ==> GoodName(ParseHead(head, value).value.name)
  {
    var name := Before(head, {'{'});
    TrimIsPart(name);
    assert '{' !in name;
  }

  lemma {:induction false} LastIndexAt(front: string, c: char, back: string, of: set<char>)
    requires c in of && forall b :: b in back ==> b !in of
    ensures LastIndex(front + [c] + back, of) == |front|
  {
    var s := front + [c] + back;
    assert s[|front|] == c;
    assert forall j :: |front| < j < |s| ==> s[j] == back[j - |front| - 1];
  }

  /** A number is one token. */
  ghost predicate Token(value: string, numeric: string -> bool) {
    numeric(value) && Bare(value, SPACES) && ' ' !in value && '\t' !in value
  }

  lemma LineSplits(head: string, value: string, numeric: string -> bool)
    requires Token(value, numeric)
    ensures ParseOne(head + " " + value, numeric) == ParseHead(Trim(head), value)
  {
    LastIndexAt(head, ' ', value, {' ', '\t'});
    var line := head + [' '] + value;
    assert line[|head| + 1..] == value && line[..|head|] == head;
  }

  lemma BracedEnds(name: string, labels: Option<seq<(string, string)>>)
    requires GoodName(name)
    ensures Bare(name + Braced(labels), SPACES)
  {
  }

  /** Parsing a printed line gives back its name, labels and value exactly if
      the name is good, for all labels with plain keys. */
  lemma LineReadsBackIff(name: string, labels: Option<seq<(string, string)>>, value: string, numeric: string -> bool)
    requires Token(value, numeric) && AllPlain(labels)
    ensures ParseOne(Line(name, labels, value), numeric) == Some(Sample(name, Read(labels), value)) <==> GoodName(name)
  {
    var head := name + Braced(labels);
    LineSplits(head, value, numeric);
    NamesAreGood(Trim(head), value);
    if GoodName(name) {
      BracedEnds(name, labels);
      HeadReadsBack(name, labels, value);
    }
  }

  // ---- The index loop ----------------------------------------------------

  /** From `start` to i the value read so far is val. */
  ghost predicate Reads(seg: string, start: nat, i: nat, val: string)
    requires start <= |seg| && i <= |seg|
  {
    val + Value(seg[i..]).0 == Value(seg[start..]).0 && Value(seg[i..]).1 == Value(seg[start..]).1
  }

  lemma ReadsOn(seg: string, start: nat, i: nat, val: string)
    requires start <= |seg| && i < |seg| && seg[i] != '"' && Reads(seg, start, i, val)
    ensures if seg[i] == '\\' && i + 1 < |seg| then Reads(seg, start, i + 2, val + [Unescaped(seg[i + 1])])
            else Reads(seg, start, i + 1, val + [seg[i]])
  {
  }

  lemma ReadsToEnd(seg: string, start: nat, i: nat, val: string)
    requires start <= |seg| && i <= |seg| && (i < |seg| ==> seg[i] == '"') && Reads(seg, start, i, val)
    ensures val == Value(seg[start..]).0 && seg[i..] == Value(seg[start..]).1
  {
  }

  method ReadValue(seg: string, start: nat) returns (val: string, i: nat)
    requires start <= |seg|
    ensures start <= i <= |seg| && val == Value(seg[start..]).0 && seg[i..] == Value(seg[start..]).1
  {
    val, i := "", start;
    while i < |seg| && seg[i] != '"'
      invariant start <= i <= |seg| && Reads(seg, start, i, val)
    {
      ReadsOn(seg, start, i, val);
      if seg[i] == '\\' && i + 1 < |seg| {
        val := val + [Unescaped(seg[i + 1])];
        i := i + 2;
      } else {
        val := val + [seg[i]];
        i := i + 1;
      }
    }
    ReadsToEnd(seg, start, i, val);
  }

  method SkipSeparators(seg: string, start: nat) returns (i: nat)
    requires start <= |seg|
    ensures start <= i <= |seg| && seg[i..] == StripLeft(seg[start..], SEPARATORS)
  {
    i := start;
    while i < |seg| && seg[i] in SEPARATORS
      invariant start <= i <= |seg| && StripLeft(seg[i..], SEPARATORS) == StripLeft(seg[start..], SEPARATORS)
    {
      assert seg[i..][1..] == seg[i + 1..];
      i := i + 1;
    }
  }

  method FindEquals(seg: string, start: nat) returns (i: nat)
    requires start <= |seg|
    ensures start <= i <= |seg| && seg[start..i] == Before(seg[start..], {'='})
  {
    i := start;
    while i < |seg| && seg[i] != '='
      invariant start <= i <= |seg| && '=' !in seg[start..i]
    {
      i := i + 1;
    }
    BeforeUnique(seg[start..], seg[start..i], {'='});
  }

  /** What stands in front, found by its positions. */
  lemma NextAt(seg: string, i: nat, ks: nat, ke: nat)
    requires i <= ks <= ke <= |seg|
    requires seg[ks..] == StripLeft(seg[i..], SEPARATORS) && seg[ks..ke] == Before(seg[ks..], {'='})
    ensures Next(seg[i..]) == if ke == |seg| then End else Quoted(Trim(seg[ks..ke]), seg[ke + 1..])
  {
    var left := seg[ks..];
    if ke < |seg| {
      assert left[|seg[ks..ke]| + 1..] == seg[ke + 1..];
      NextBy(seg[i..], left, seg[ks..ke], seg[ke + 1..]);
    }
  }

  lemma QuotedAt(key: string, seg: string, j: nat, val: string, q: nat)
    requires j < q <= |seg| && seg[j] == '"' && val == Value(seg[j + 1..]).0 && seg[q..] == Value(seg[j + 1..]).1
    ensures Quoted(key, seg[j..]) == Label(key, val, seg[if q < |seg| then q + 1 else q..])
  {
  }

  /** Reads the label at i; the next one starts behind it. */
  method ReadLabel(seg: string, i: nat) returns (f: Field, next: nat)
    requires i <= |seg|
    ensures f == Next(seg[i..])
    ensures f.Label? ==> i < next <= |seg| && f.rest == seg[next..]
  {
    next := i;
    var ks := SkipSeparators(seg, i);
    var ke := FindEquals(seg, ks);
    NextAt(seg, i, ks, ke);
    if ke >= |seg| {
      return End, next;
    }
    var key := Trim(seg[ks..ke]);
    if ke + 1 >= |seg| || seg[ke + 1] != '"' {
      return Malformed, next;
    }
    var val, q := ReadValue(seg, ke + 2);
    QuotedAt(key, seg, ke + 1, val, q);
    next := if q < |seg| then q + 1 else q;
    f := Label(key, val, seg[next..]);
  }

  /** The loop ends for every segment, and computes what the specification says. */
  method ParseLabels(seg: string) returns (m: Option<map<string, string>>)
    ensures m == Labels(seg, map[])
  {
    var found := map[];
    var i := 0;
    assert seg[0..] == seg;
    while i < |seg|
      invariant i <= |seg| && Labels(seg[i..], found) == Labels(seg, map[])
    {
      var f, next := ReadLabel(seg, i);
      match f {
        case End => return Some(found);
        case Malformed => return None;
        case Label(key, value, _) =>
          found := found[key := value];
          i := next;
      }
    }
    LabelsOfNothing("", found);
    m := Some(found);
  }
}
