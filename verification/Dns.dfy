/** The proxied CNAME of a public hostname: creating or repairing it, removing
    it, and reporting on it.  Listings return one page of a zone's records. */
module Dns {
  import opened Options
  import opened Sequences
  import opened Strings
  import opened Zones

  /** `proxied` may be missing in what the remote side returns. */
  datatype Record = Record(id: string, kind: string, name: string, content: string, proxied: Option<bool>)

  datatype Status = Status(present: bool, inSync: bool, id: string, content: string)

  const PAGE := 100

  predicate SameHost(host: string, r: Record) {
    EqualFold(r.name, host)
  }

  predicate IsCname(host: string, r: Record) {
    EqualFold(r.name, host) && r.kind == "CNAME"
  }

  predicate InSync(r: Record, content: string) {
    r.content == content && r.proxied == Some(true)
  }

  function OfHost(host: string): Record -> bool {
    r => SameHost(host, r)
  }

  function CnameOf(host: string): Record -> bool {
    r => IsCname(host, r)
  }

  function FirstPage(records: seq<Record>, name: string): seq<Record> {
    var all := if name == "" then records else Select(records, |records|, OfHost(name));
    if |all| <= PAGE then all else all[..PAGE]
  }

  /** A listing shows the first hundred records, of the whole zone or of a host. */
  lemma ListingsShowAHundred(records: seq<Record>, name: string)
    ensures name == "" ==> FirstPage(records, name) == if |records| > 100 then records[..100] else records
    ensures name != "" ==> forall r :: r in FirstPage(records, name) ==> r in records && EqualFold(r.name, name)
    ensures |FirstPage(records, name)| <= 100
  {
    if name != "" {
      forall r | r in FirstPage(records, name)
        ensures r in records && EqualFold(r.name, name)
      {
        SelectIsExact(records, |records|, OfHost(name), r);
        assert records[..|records|] == records;
      }
    }
  }

  // ---- The operations ----------------------------------------------------

  /** The CNAME of the host on the page that a listing by name returns. */
  function Seen(records: seq<Record>, host: string): Option<Record> {
    var page := FirstPage(records, host);
    var k := FirstWhere(page, CnameOf(host));
    if k < |page| then Some(page[k]) else None
  }

  function Desired(id: string, host: string, content: string): Record {
    Record(id, "CNAME", host, content, Some(true))
  }

  function Replaced(records: seq<Record>, id: string, r: Record): (out: seq<Record>)
    ensures |out| == |records|
  {
    seq(|records|, i requires 0 <= i < |records| => if records[i].id == id then r else records[i])
  }

  function Put(records: seq<Record>, at: nat, r: Record): seq<Record> {
    if at <= |records| then records[..at] + [r] + records[at..] else records + [r]
  }

  function OtherThan(id: string): Record -> bool {
    (r: Record) => r.id != id
  }

  function Without(records: seq<Record>, id: string): seq<Record> {
    Select(records, |records|, OtherThan(id))
  }

  /** What the zone holds after a successful upsert; a new record gets the id
      newId and turns up at position `at` of the listing. */
  function Ensured(records: seq<Record>, host: string, content: string, newId: string, at: nat): seq<Record> {
    match Seen(records, host)
    case Some(r) => if InSync(r, content) then records else Replaced(records, r.id, Desired(r.id, host, content))
    case None => Put(records, at, Desired(newId, host, content))
  }

  /** Nothing is left to do for the host. */
  predicate Settled(records: seq<Record>, host: string, content: string) {
    Seen(records, host).Some? && InSync(Seen(records, host).value, content)
  }

  /** The report on a host, from one page of records. */
  function ReportOf(page: seq<Record>, host: string, content: string): Status {
    var k := FirstWhere(page, CnameOf(host));
    if k < |page| then Status(true, InSync(page[k], content), page[k].id, page[k].content)
        else Status(false, false, "", "")
  }

  function Reported(records: seq<Record>, host: string, content: string): Status {
    ReportOf(FirstPage(records, ""), host, content)
  }

  function Deleted(records: seq<Record>, host: string): seq<Record> {
    match Seen(records, host)
    case Some(r) => Without(records, r.id)
    case None => records
  }

  datatype Snapshot = Snapshot(records: seq<Record>, requests: nat, writes: nat)

  /** The records of one zone on the remote side, and the requests about them. */
  class HostedZone {
    var records: seq<Record>

    /** How many requests have been answered, and how many of them were writes. */
    var requests: nat
    var writes: nat

    /** Which requests succeed, and what the remote side chooses for a new record. */
    const works: nat -> bool
    const newId: nat -> string
    const place: nat -> nat

    constructor (records: seq<Record>, works: nat -> bool, newId: nat -> string, place: nat -> nat)
      ensures this.records == records && requests == 0 && writes == 0
      ensures this.works == works && this.newId == newId && this.place == place
    {
      this.records, requests, writes := records, 0, 0;
      this.works, this.newId, this.place := works, newId, place;
    }

    method List(name: string) returns (out: Option<seq<Record>>)
      modifies this`requests
      ensures requests == old(requests) + 1
      ensures out == if works(old(requests)) then Some(FirstPage(records, name)) else None
    {
      out := if works(requests) then Some(FirstPage(records, name)) else None;
      requests := requests + 1;
    }

    method Update(id: string, r: Record) returns (ok: bool)
      modifies this
      ensures requests == old(requests) + 1 && ok == works(old(requests))
      ensures writes == old(writes) + if ok then 1 else 0
      ensures records == if ok then Replaced(old(records), id, r.(id := id)) else old(records)
    {
      ok := works(requests);
      if ok {
        records := Replaced(records, id, r.(id := id));
        writes := writes + 1;
      }
      requests := requests + 1;
    }

    method Create(r: Record) returns (ok: bool)
      modifies this
      ensures requests == old(requests) + 1 && ok == works(old(requests))
      ensures writes == old(writes) + if ok then 1 else 0
      ensures records == if ok then Put(old(records), place(old(requests)), r.(id := newId(old(requests))))
          else old(records)
    {
      ok := works(requests);
      if ok {
        records := Put(records, place(requests), r.(id := newId(requests)));
        writes := writes + 1;
      }
      requests := requests + 1;
    }

    method Delete(id: string) returns (ok: bool)
      modifies this
      ensures requests == old(requests) + 1 && ok == works(old(requests))
      ensures writes == old(writes) + if ok then 1 else 0
      ensures records == if ok then Without(old(records), id) else old(records)
    {
      ok := works(requests);
      if ok {
        records := Without(records, id);
        writes := writes + 1;
      }
      requests := requests + 1;
    }

    function Now(): (now: Snapshot)
      reads this
      ensures now.records == records && now.requests == requests && now.writes == writes
    {
      Snapshot(records, requests, writes)
    }

    /** What an upsert that reports ok makes of the zone, request by request. */
    predicate Upserted(was: Snapshot, host: string, content: string, ok: bool, now: Snapshot) {
      && (ok <==> works(was.requests) && (Settled(was.records, host, content) || works(was.requests + 1)))
      && now.records == (if ok then Ensured(was.records, host, content, newId(was.requests + 1),
          place(was.requests + 1)) else was.records)
      && now.writes == was.writes + (if ok && !Settled(was.records, host, content) then 1 else 0)
      && now.requests == was.requests + if works(was.requests) && !Settled(was.records, host, content) then 2 else 1
    }

    predicate Dropped(was: Snapshot, host: string, ok: bool, now: Snapshot) {
      && (ok <==> works(was.requests) && (Seen(was.records, host).None? || works(was.requests + 1)))
      && now.records == (if ok then Deleted(was.records, host) else was.records)
      && now.writes == was.writes + (if ok && Seen(was.records, host).Some? then 1 else 0)
      && now.requests == was.requests + if works(was.requests) && Seen(was.records, host).Some? then 2 else 1
    }

    /** Creates or repairs the record; a failed request leaves the zone as it is. */
    method EnsureCname(host: string, content: string) returns (ok: bool)
      modifies this
      ensures Upserted(old(Now()), host, content, ok, Now())
    {
      var recs := List(host);
      if recs.None? {
        return false;
      }
      var page := recs.value;
      var k := FindCname(page, host);
      if k < |page| {
        if InSync(page[k], content) {
          return true;
        }
        ok := Update(page[k].id, Desired("", host, content));
        return;
      }
      ok := Create(Desired("", host, content));
    }

    method DropCname(host: string) returns (ok: bool)
      modifies this
      ensures Dropped(old(Now()), host, ok, Now())
    {
      var recs := List(host);
      if recs.None? {
        return false;
      }
      var page := recs.value;
      var k := FindCname(page, host);
      if k < |page| {
        ok := Delete(page[k].id);
        return;
      }
      return true;
    }
  }

  method FindCname(recs: seq<Record>, host: string) returns (k: nat)
    ensures k == FirstWhere(recs, CnameOf(host))
  {
    k := 0;
    while k < |recs| && !IsCname(host, recs[k])
      invariant k <= |recs| && forall j :: 0 <= j < k ==> !IsCname(host, recs[j])
    {
      k := k + 1;
    }
    FirstUnique(recs, CnameOf(host), k);
  }

  method ReportOn(recs: seq<Record>, host: string, content: string) returns (st: Status)
    ensures st == ReportOf(recs, host, content)
  {
    var k := FindCname(recs, host);
    if k < |recs| {
      return Status(true, InSync(recs[k], content), recs[k].id, recs[k].content);
    }
    return Status(false, false, "", "");
  }

  // ---- A host in whichever zone owns it ----------------------------------

  /** What the two edits look at and change; a zone is hosted under its id. */
  class Account {
    const ask: string -> Answer
    const hosted: map<string, HostedZone>

    constructor (ask: string -> Answer, hosted: map<string, HostedZone>)
      ensures this.ask == ask && this.hosted == hosted
    {
      this.ask, this.hosted := ask, hosted;
    }

    /** The zone that owns the host, if it can be found and reached. */
    function Owner(host: string): (owner: set<HostedZone>)
      ensures forall h, k :: h in owner && k in owner ==> h == k
    {
      match Find(host, ask)
      case Found(z) => if z.id in hosted then {hosted[z.id]} else {}
      case _ => {}
    }

    /** Without an owning zone the edit fails and nothing changes; otherwise only
        that zone does. */
    method EnsureTunnelCNAME(host: string, content: string) returns (ok: bool)
      modifies Owner(host)
      ensures ok ==> Owner(host) != {}
      ensures forall h :: h in Owner(host) ==> h.Upserted(old(h.Now()), host, content, ok, h.Now())
    {
      var z := FindZone(host, ask);
      if !z.Found? || z.zone.id !in hosted {
        return false;
      }
      ok := hosted[z.zone.id].EnsureCname(host, content);
    }

    method DeleteTunnelCNAME(host: string) returns (ok: bool)
      modifies Owner(host)
      ensures ok ==> Owner(host) != {}
      ensures forall h :: h in Owner(host) ==> h.Dropped(old(h.Now()), host, ok, h.Now())
    {
      var z := FindZone(host, ask);
      if !z.Found? || z.zone.id !in hosted {
        return false;
      }
      ok := hosted[z.zone.id].DropCname(host);
    }
  }

  /** The report on a host, without any cache; `list` is the first page of a zone. */
  function Lookup(host: string, content: string, ask: string -> Answer,
      list: string -> Option<seq<Record>>): Option<Status> {
    match Find(host, ask)
    case Found(z) => (match list(z.id) case Some(page) => Some(ReportOf(page, host, content)) case None => None)
    case _ => None
  }

  /** The reports of one listing request, which remembers zones and pages. */
  class Reports {
    const zones: ZoneCache
    const list: string -> Option<seq<Record>>
    var pages: map<string, seq<Record>>

    ghost predicate Valid()
      reads this, zones
    {
      zones.Valid() && forall id :: id in pages ==> list(id) == Some(pages[id])
    }

    constructor (ask: string -> Answer, list: string -> Option<seq<Record>>)
      ensures Valid() && zones.ask == ask && this.list == list && fresh(zones)
    {
      zones := new ZoneCache(ask);
      this.list, pages := list, map[];
    }

    /** For fixed remote answers the report is the one without caches, whatever
        was reported on before. */
    method Status(host: string, content: string) returns (st: Option<Status>)
      requires Valid()
      modifies this`pages, zones
      ensures Valid() && st == Lookup(host, content, zones.ask, list)
    {
      var z := zones.ZoneFor(host);
      if !z.Found? {
        return None;
      }
      if z.zone.id !in pages {
        var page := list(z.zone.id);
        if page == None {
          return None;
        }
        pages := pages[z.zone.id := page.value];
      }
      var report := ReportOn(pages[z.zone.id], host, content);
      return Some(report);
    }
  }

  // ---- What the operations achieve ---------------------------------------

  ghost predicate UniqueIds(records: seq<Record>) {
    forall i, j :: 0 <= i < j < |records| ==> records[i].id != records[j].id
  }

  function FirstCname(records: seq<Record>, host: string): (k: nat)
    ensures k <= |records| && (k < |records| ==> IsCname(host, records[k]))
        && forall j :: 0 <= j < k ==> !IsCname(host, records[j])
  {
    FirstWhere(records, CnameOf(host))
  }

  /** How many of the first n records are of the host. */
  function Rank(records: seq<Record>, n: nat, host: string): nat
    requires n <= |records|
  {
    |Select(records, n, OfHost(host))|
  }

  lemma PageOf<T>(all: seq<T>, q: T -> bool, n: nat)
    requires n <= |all|
    ensures var k := FirstWhere(all, q); FirstWhere(all[..n], q) == if k < n then k else n
  {
  }

  /** A listing by name shows the zone's first CNAME of the host, if fewer than a
      page of the host's records come before it. */
  lemma SeenIsFirst(records: seq<Record>, host: string)
    requires host != ""
    ensures var k := FirstCname(records, host);
      Seen(records, host) == if k < |records| && Rank(records, k, host) < PAGE then Some(records[k]) else None
  {
    var all := Select(records, |records|, OfHost(host));
    FirstOfSelection(records, |records|, OfHost(host), CnameOf(host));
    PageOf(all, CnameOf(host), if |all| <= PAGE then |all| else PAGE);
    assert all[..|all|] == all;
  }

  /** Replacing a record by its id replaces that record alone. */
  lemma ReplacedAt(records: seq<Record>, k: nat, r: Record)
    requires UniqueIds(records) && k < |records|
    ensures Replaced(records, records[k].id, r) == records[k := r]
  {
  }

  lemma FirstCnameIs(records: seq<Record>, host: string, k: nat)
    requires k <= |records| && (k < |records| ==> IsCname(host, records[k]))
        && forall j :: 0 <= j < k ==> !IsCname(host, records[j])
    ensures FirstCname(records, host) == k
  {
  }

  /** Where the host's first CNAME stands after an upsert. */
  lemma EnsuredFirst(records: seq<Record>, host: string, content: string, newId: string, at: nat)
    requires UniqueIds(records) && host != "" && at <= |records|
    ensures var out, k := Ensured(records, host, content, newId, at), FirstCname(records, host);
      if Seen(records, host).Some? then
        FirstCname(out, host) == k < |out| && InSync(out[k], content)
            && Rank(out, k, host) == Rank(records, k, host) < PAGE
      else if at <= k then
        FirstCname(out, host) == at < |out| && InSync(out[at], content)
            && Rank(out, at, host) == Rank(records, at, host)
      else FirstCname(out, host) == k < |out| && Rank(out, k, host) == Rank(records, k, host) >= PAGE
  {
    var out, k := Ensured(records, host, content, newId, at), FirstCname(records, host);
    SeenIsFirst(records, host);
    if Seen(records, host).Some? {
      ReplacedAt(records, k, Desired(records[k].id, host, content));
      FirstCnameIs(out, host, k);
      SelectAgrees(records, out, k, OfHost(host));
    } else if at <= k {
      FirstCnameIs(out, host, at);
      SelectAgrees(records, out, at, OfHost(host));
    } else {
      FirstCnameIs(out, host, k);
      SelectAgrees(records, out, k, OfHost(host));
    }
  }

  /** Nothing is left to do exactly if the CNAME that the listing shows for the
      host points where it should and is proxied. */
  lemma SettledIff(records: seq<Record>, host: string, content: string)
    ensures Settled(records, host, content) <==>
              && Seen(records, host).Some?
              && var r := Seen(records, host).value;
                 r.kind == "CNAME" && EqualFold(r.name, host) && r.content == content && r.proxied.Some?
                     && r.proxied.value
    ensures Seen(records, host).Some? ==> Seen(records, host).value in records
  {
    if Seen(records, host).Some? {
      var all := if host == "" then records else Select(records, |records|, OfHost(host));
      var r := Seen(records, host).value;
      assert r in all;
      if host != "" {
        SelectIsExact(records, |records|, OfHost(host), r);
        assert records[..|records|] == records;
      }
    }
  }

  /** After an upsert there is a proxied CNAME of the host that points where it
      should. */
  lemma EnsuredIsThere(records: seq<Record>, host: string, content: string, newId: string, at: nat)
    requires UniqueIds(records) && host != ""
    ensures exists r ::
              r in Ensured(records, host, content, newId, at) && r.kind == "CNAME" && EqualFold(r.name, host)
                  && r.content == content && r.proxied == Some(true)
  {
    var out := Ensured(records, host, content, newId, at);
    SettledIff(records, host, content);
    SeenIsFirst(records, host);
    if Settled(records, host, content) {
      assert Seen(records, host).value in out;
    } else if Seen(records, host).Some? {
      var k := FirstCname(records, host);
      ReplacedAt(records, k, Desired(records[k].id, host, content));
      assert out[k] in out;
    } else {
      assert out[if at <= |records| then at else |records|] in out;
    }
  }

  /** The upsert converges, so that a second one writes nothing, exactly if the
      record was there or its new place is on the first page of the host's
      records. */
  lemma EnsureConvergesIff(records: seq<Record>, host: string, content: string, newId: string, at: nat)
    requires UniqueIds(records) && host != "" && at <= |records|
    ensures Settled(Ensured(records, host, content, newId, at), host, content)
       <==> Seen(records, host).Some? || Rank(records, at, host) < PAGE
  {
    var out, k := Ensured(records, host, content, newId, at), FirstCname(records, host);
    EnsuredFirst(records, host, content, newId, at);
    SeenIsFirst(out, host);
    SeenIsFirst(records, host);
    if Seen(records, host).None? && k < at {
      SelectGrows(records, k, at, OfHost(host));
    }
  }

  /** The report looks at the first page of the whole zone, so once the upsert
      has converged it says "in sync" exactly if the record stands on that page,
      and "absent" otherwise. */
  lemma ReportSeesIff(records: seq<Record>, host: string, content: string)
    requires host != "" && Settled(records, host, content)
    ensures var st := Reported(records, host, content);
      (st.present && st.inSync && st.content == content <==> FirstCname(records, host) < PAGE)
      && (!st.present <==> FirstCname(records, host) >= PAGE)
  {
    SeenIsFirst(records, host);
    PageOf(records, CnameOf(host), if |records| <= PAGE then |records| else PAGE);
    assert records[..|records|] == records;
  }

  /** A record behind the first page is reported as absent although it is there and in sync. */
  lemma BigZoneHidesRecord(fillers: seq<Record>, host: string, content: string)
    requires |fillers| == PAGE && host != "" && forall r :: r in fillers ==> !SameHost(host, r)
    ensures var records := fillers + [Desired("id", host, content)];
      Settled(records, host, content) && !Reported(records, host, content).present
  {
    var records := fillers + [Desired("id", host, content)];
    assert forall i :: 0 <= i < PAGE ==> fillers[i] in fillers;
    FirstCnameIs(records, host, PAGE);
    NoneSelected(records, PAGE, OfHost(host));
    SeenIsFirst(records, host);
    ReportSeesIff(records, host, content);
  }

  /** Records of other hosts and kinds are there as often as before. */
  lemma EnsureLeavesOthers(records: seq<Record>, host: string, content: string, newId: string, at: nat, r: Record)
    requires UniqueIds(records) && host != "" && at <= |records| && !IsCname(host, r)
    ensures multiset(Ensured(records, host, content, newId, at))[r] == multiset(records)[r]
  {
    var k := FirstCname(records, host);
    SeenIsFirst(records, host);
    if Seen(records, host).Some? {
      ReplacedAt(records, k, Desired(records[k].id, host, content));
      CountAfterUpdate(records, k, Desired(records[k].id, host, content), r);
    } else {
      assert records == records[..at] + records[at..];
    }
  }

  /** Removing by id removes that record alone. */
  lemma WithoutAt(records: seq<Record>, k: nat)
    requires UniqueIds(records) && k < |records|
    ensures Without(records, records[k].id) == records[..k] + records[k + 1..]
  {
    SelectAllBut(records, k, |records|, OtherThan(records[k].id));
  }

  /** A deletion takes away the host's first CNAME and nothing else. */
  lemma DeletedIs(records: seq<Record>, host: string)
    requires UniqueIds(records) && host != "" && Seen(records, host).Some?
    ensures FirstCname(records, host) < |records|
    ensures var k := FirstCname(records, host);
      Deleted(records, host) == records[..k] + records[k + 1..]
  {
    var k := FirstCname(records, host);
    SeenIsFirst(records, host);
    WithoutAt(records, k);
  }

  lemma NoneElse<T>(s: seq<T>, k: nat, p: T -> bool)
    requires k < |s| && forall j :: 0 <= j < k ==> !p(s[j])
    ensures (forall x :: x in s[..k] + s[k + 1..] ==> !p(x)) <==> forall j :: k < j < |s| ==> !p(s[j])
  {
  }

  lemma AbsentIsReported(records: seq<Record>, host: string, content: string)
    requires forall r :: r in records ==> !IsCname(host, r)
    ensures !Reported(records, host, content).present
  {
  }

  /** Deleting leaves no CNAME of the host exactly if there was one only, and
      then the report says "absent". */
  lemma DeleteClearsIff(records: seq<Record>, host: string, content: string)
    requires UniqueIds(records) && host != "" && Seen(records, host).Some?
    ensures var out, k := Deleted(records, host), FirstCname(records, host);
      var clear := forall r :: r in out ==> !IsCname(host, r);
      && (clear <==> forall j :: k < j < |records| ==> !IsCname(host, records[j]))
      && (clear ==> !Reported(out, host, content).present)
  {
    DeletedIs(records, host);
    var out, k := Deleted(records, host), FirstCname(records, host);
    NoneElse(records, k, CnameOf(host));
    assert (forall r :: r in out ==> !CnameOf(host)(r)) <==> (forall r :: r in out ==> !IsCname(host, r));
    if forall r :: r in out ==> !IsCname(host, r) {
      AbsentIsReported(out, host, content);
    }
  }

  // ---- What whole requests achieve ---------------------------------------

  /** An upsert whose requests work succeeds.  One that succeeds leaves a proxied
      CNAME of the host that points where it should, and has written at most once
      and only if there was something to do; one that fails changes nothing. */
  lemma UpsertAchieves(z: HostedZone, was: Snapshot, host: string, content: string, ok: bool, now: Snapshot)
    requires z.Upserted(was, host, content, ok, now)
    requires UniqueIds(was.records) && host != ""
    ensures z.works(was.requests) && z.works(was.requests + 1) ==> ok
    ensures ok ==> exists r ::
              r in now.records && r.kind == "CNAME" && EqualFold(r.name, host) && r.content == content
                  && r.proxied == Some(true)
    ensures ok ==> now.writes == was.writes + if Settled(was.records, host, content) then 0 else 1
    ensures !ok || now.writes == was.writes ==> now.records == was.records && now.writes == was.writes
    ensures !ok <==> !z.works(was.requests) || (!z.works(was.requests + 1) && !Settled(was.records, host, content))
    ensures now.requests - was.requests == if z.works(was.requests) && !Settled(was.records, host, content) then 2
        else 1
  {
    if ok {
      EnsuredIsThere(was.records, host, content, z.newId(was.requests + 1), z.place(was.requests + 1));
    }
  }

  /** Upserting again right away writes nothing, if the record was there or its
      new place is on the first page of the host's records. */
  lemma UpsertIsIdempotent(z: HostedZone, was: Snapshot, host: string, content: string, now: Snapshot, ok: bool,
      later: Snapshot)
    requires z.Upserted(was, host, content, true, now) && z.Upserted(now, host, content, ok, later)
    requires UniqueIds(was.records) && host != "" && z.place(was.requests + 1) <= |was.records|
    requires Seen(was.records, host).Some? || Rank(was.records, z.place(was.requests + 1), host) < PAGE
    ensures later.records == now.records && later.writes == now.writes && (ok <==> z.works(now.requests))
  {
    EnsureConvergesIff(was.records, host, content, z.newId(was.requests + 1), z.place(was.requests + 1));
  }

  /** A deletion whose requests work succeeds.  One that succeeds takes away the
      CNAME that the listing shows, if it shows one, and nothing else; one that
      fails changes nothing. */
  lemma DropAchieves(z: HostedZone, was: Snapshot, host: string, ok: bool, now: Snapshot)
    requires z.Dropped(was, host, ok, now) && UniqueIds(was.records) && host != ""
    ensures z.works(was.requests) && z.works(was.requests + 1) ==> ok
    ensures !ok || Seen(was.records, host).None? ==> now.records == was.records && now.writes == was.writes
    ensures !ok <==> !z.works(was.requests) || (!z.works(was.requests + 1) && Seen(was.records, host).Some?)
    ensures ok && Seen(was.records, host).Some? ==>
              && now.writes == was.writes + 1
              && var k := FirstCname(was.records, host);
                 k < |was.records| && now.records == was.records[..k] + was.records[k + 1..]
    ensures now.requests - was.requests == if z.works(was.requests) && Seen(was.records, host).Some? then 2 else 1
  {
    if ok && Seen(was.records, host).Some? {
      DeletedIs(was.records, host);
    }
  }

  /** The zone that an edit works on is the one that the lookup finds, if the
      account has it. */
  lemma OwnerIsFound(a: Account, host: string)
    ensures a.Owner(host) != {} <==> Find(host, a.ask).Found? && Find(host, a.ask).zone.id in a.hosted
    ensures a.Owner(host) != {} ==> a.Owner(host) == {a.hosted[Find(host, a.ask).zone.id]}
  {
  }

  /** The report on a host is on the first page of the zone that the lookup finds;
      it is missing only if the lookup or the listing fails. */
  lemma LookupTells(host: string, content: string, ask: string -> Answer, list: string -> Option<seq<Record>>)
    ensures var st, z := Lookup(host, content, ask, list), Find(host, ask);
      && (st.Some? <==> z.Found? && list(z.zone.id).Some?)
      && (st.Some? ==>
            var page := list(z.zone.id).value;
            var k := FirstCname(page, host);
            && (st.value.present <==> k < |page|)
            && (k < |page| ==> st.value.id == page[k].id && (st.value.inSync ==> page[k].content == content)))
  {
  }

  /** A report says of the first CNAME of the host on the listing what it is like,
      and is empty without one. */
  lemma ReportsTell(page: seq<Record>, host: string, content: string)
    ensures var st, k := ReportOf(page, host, content), FirstCname(page, host);
      if k == |page| then !st.present && !st.inSync && st.id == "" && st.content == ""
      else
        && st.present && st.id == page[k].id && st.content == page[k].content
        && (st.inSync <==> page[k].content == content && page[k].proxied.Some? && page[k].proxied.value)
  {
  }
}
