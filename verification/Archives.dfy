/** The WARC record inventory of a loaded archive and the lookup that follows a
    `revisit` record to the capture it repeats. HTTP heads arrive parsed; a body
    is the raw payload its stored location yields. */
module Archives {
  import opened Wrappers
  import opened Characters
  import opened Decimals
  import Digest

  type Bytes = string

  datatype Header =
    | WarcType | RecordId | Date | TargetUri | PageId | ContentType | ContentLength
    | RefersTo | RefersToUri | RefersToDate | Profile
    | PayloadDigest | BlockDigest | Truncated
    | DependencyId | DependencySha | DependencyLocation
    | Segment(name: string) | Field(name: string)

  datatype HttpHead = NoHead | Head(raw: Bytes, status: nat, mime: string, transferEncoding: Option<string>)

  datatype Record = Record(
    headers: map<Header, string>,
    http: HttpHead,
    status: nat,
    mime: string,
    payloadDigest: string,
    payloadLength: nat,
    member: string,
    offset: nat,
    length: nat,
    resolved: bool,
    source: Option<Bytes>,
    payloadSource: Option<Bytes>)
  {
    /** An absent header reads as the empty string. */
    function Get(key: Header): string {
      if key in headers then headers[key] else ""
    }

    function Kind(): string {
      Get(WarcType)
    }

    predicate IsCapture() {
      Kind() == "response" || Kind() == "resource"
    }

    /** An empty transfer coding reads as an absent one. */
    function TransportKey(): string {
      if http.NoHead? || http.transferEncoding.None? then "" else LowerAll(http.transferEncoding.value)
    }

    function Location(): string {
      member + ":" + Decimal(offset) + ":" + Decimal(length)
    }

    function Body(): Option<Bytes> {
      if payloadSource.Some? then payloadSource else source
    }
  }

  /** Whether `r` is a capture that the revisit `record` may stand for. */
  predicate RevisitMatches(record: Record, r: Record) {
    r.resolved &&
    (record.http.NoHead? || record.TransportKey() == r.TransportKey()) &&
    var id, url, date, digest :=
      record.Get(RefersTo), record.Get(RefersToUri), record.Get(RefersToDate), record.Get(PayloadDigest);
    (id != "" || (url != "" && date != "" && digest != "")) &&
    (id == "" || r.Get(RecordId) == id) &&
    (url == "" || r.Get(TargetUri) == url) &&
    (date == "" || r.Get(Date) == date) &&
    (record.Get(DependencyLocation) == "" || record.Get(DependencyLocation) == r.Location()) &&
    (digest == "" || r.Get(PayloadDigest) == digest || r.payloadDigest == digest ||
     SameSha256(digest, r.payloadDigest))
  }

  predicate SameSha256(expected: string, actual: string) {
    "sha256:" <= expected &&
    Digest.Normalize(expected).Ok? && Digest.Normalize(expected) == Digest.Normalize(actual)
  }

  // ---- what a revisit states ----

  /** Nothing is stated, or just this. */
  predicate Stated(stated: string, actual: string) {
    stated == "" || stated == actual
  }

  /** The revisit gives an id, or else a URL, a date and a digest. */
  predicate NamesCapture(record: Record) {
    record.Get(RefersTo) != "" ||
    (record.Get(RefersToUri) != "" && record.Get(RefersToDate) != "" && record.Get(PayloadDigest) != "")
  }

  /** Both texts spell one SHA-256 digest. */
  ghost predicate OneDigest(a: string, b: string) {
    exists d :: Digest.IsSha256(d) && Digest.Encodes(a, d) && Digest.Encodes(b, d)
  }

  /** The stated digest is the one on record for the capture, or that of its payload, or spells it. */
  ghost predicate DigestStated(stated: string, r: Record) {
    stated == "" || r.Get(PayloadDigest) == stated || r.payloadDigest == stated ||
    ("sha256:" <= stated && OneDigest(stated, r.payloadDigest))
  }

  /** The transfer coding in an HTTP head, as it is written there. */
  function CodingText(h: HttpHead): string {
    if h.Head? && h.transferEncoding.Some? then h.transferEncoding.value else ""
  }

  /** All that the revisit says of a capture is true of this one. */
  ghost predicate SaysOf(record: Record, r: Record) {
    NamesCapture(record) &&
    Stated(record.Get(RefersTo), r.Get(RecordId)) &&
    Stated(record.Get(RefersToUri), r.Get(TargetUri)) &&
    Stated(record.Get(RefersToDate), r.Get(Date)) &&
    Stated(record.Get(DependencyLocation), r.member + ":" + Decimal(r.offset) + ":" + Decimal(r.length)) &&
    DigestStated(record.Get(PayloadDigest), r) &&
    (record.http.Head? ==> EqualIgnoringCase(CodingText(record.http), CodingText(r.http)))
  }

  lemma {:induction false} SpellsOne(a: string, b: string)
    ensures Digest.Normalize(a).Ok? && Digest.Normalize(a) == Digest.Normalize(b) <==> OneDigest(a, b)
  {
    if Digest.Normalize(a).Ok? && Digest.Normalize(a) == Digest.Normalize(b) {
      var d := Digest.NormalizeNamesOneDigest(a);
      Digest.NormalizeExact(a, d);
      Digest.NormalizeExact(b, d);
    }
    if OneDigest(a, b) {
      var d :| Digest.IsSha256(d) && Digest.Encodes(a, d) && Digest.Encodes(b, d);
      Digest.NormalizeExact(a, d);
      Digest.NormalizeExact(b, d);
    }
  }

  /** A revisit matches what is resolved and is what it says. */
  lemma {:induction false} MatchMeans(record: Record, r: Record)
    ensures RevisitMatches(record, r) <==> r.resolved && SaysOf(record, r)
  {
    SpellsOne(record.Get(PayloadDigest), r.payloadDigest);
    assert LowerAll("") == "";
  }

  // ---- RecordLookup ----

  datatype Error = WorkLimit | Segmented | Unresolvable | UnstableTarget | NoMatchingPayloads

  datatype RecordLookup = RecordLookup(
    ids: map<string, seq<nat>>,
    targets: map<(string, string), seq<nat>>)

  function UrlAndDate(r: Record): (string, string) {
    (r.Get(TargetUri), r.Get(Date))
  }

  /** Positions below `n` whose record has the given id, in order. */
  function WithId(records: seq<Record>, id: string, n: nat): (at: seq<nat>)
    requires n <= |records|
    ensures forall i :: i in at <==> 0 <= i < n && records[i].Get(RecordId) == id
  {
    if n == 0 then []
    else if records[n - 1].Get(RecordId) == id then WithId(records, id, n - 1) + [n - 1]
    else WithId(records, id, n - 1)
  }

  /** Positions below `n` whose record has the given URL and date, in order. */
  function WithUrlAndDate(records: seq<Record>, key: (string, string), n: nat): (at: seq<nat>)
    requires n <= |records|
    ensures forall i :: i in at <==> 0 <= i < n && UrlAndDate(records[i]) == key
  {
    if n == 0 then []
    else if UrlAndDate(records[n - 1]) == key then WithUrlAndDate(records, key, n - 1) + [n - 1]
    else WithUrlAndDate(records, key, n - 1)
  }

  function Entry<K, V>(m: map<K, seq<V>>, k: K): seq<V> {
    if k in m then m[k] else []
  }

  ghost predicate Indexes(lookup: RecordLookup, records: seq<Record>, n: nat)
    requires n <= |records|
  {
    (forall id :: Entry(lookup.ids, id) == WithId(records, id, n)) &&
    (forall key :: Entry(lookup.targets, key) == WithUrlAndDate(records, key, n))
  }

  method NewLookup(records: seq<Record>) returns (lookup: RecordLookup)
    ensures Indexes(lookup, records, |records|)
  {
    lookup := RecordLookup(map[], map[]);
    for i := 0 to |records|
      invariant Indexes(lookup, records, i)
    {
      var r := records[i];
      var id, key := r.Get(RecordId), UrlAndDate(r);
      lookup := RecordLookup(
        lookup.ids[id := Entry(lookup.ids, id) + [i]],
        lookup.targets[key := Entry(lookup.targets, key) + [i]]);
    }
  }

  /** The positions a revisit record names: by id when it gives one, else by URL and date. */
  function Named(record: Record, records: seq<Record>): (at: seq<nat>)
    ensures InRange(records, at)
  {
    var at :=
      if record.Get(RefersTo) == "" then
        WithUrlAndDate(records, (record.Get(RefersToUri), record.Get(RefersToDate)), |records|)
      else
        WithId(records, record.Get(RefersTo), |records|);
    assert forall k :: 0 <= k < |at| ==> at[k] in at;
    at
  }

  predicate InRange(records: seq<Record>, at: seq<nat>) {
    forall k :: 0 <= k < |at| ==> at[k] < |records|
  }

  function Matching(record: Record, records: seq<Record>, at: seq<nat>): (hits: seq<nat>)
    requires InRange(records, at)
    ensures forall i :: i in hits <==> i in at && RevisitMatches(record, records[i])
  {
    if at == [] then []
    else
      var rest := at[..|at| - 1];
      var last := at[|at| - 1];
      assert at == rest + [last];
      if RevisitMatches(record, records[last]) then Matching(record, records, rest) + [last]
      else Matching(record, records, rest)
  }

  /** The one named capture that matches; none if there is none or more than one. */
  function Target(record: Record, records: seq<Record>): (t: Option<nat>)
    ensures t.Some? ==> t.value < |records| && t.value in Named(record, records) &&
                        RevisitMatches(record, records[t.value])
  {
    var hits := Matching(record, records, Named(record, records));
    if |hits| == 1 then assert hits[0] in hits; Some(hits[0]) else None
  }

  /** This is the one resolved record that is what the revisit says. */
  ghost predicate OnlyNamed(record: Record, records: seq<Record>, t: nat) {
    t < |records| && records[t].resolved && SaysOf(record, records[t]) &&
    forall j :: 0 <= j < |records| && j != t && records[j].resolved ==> !SaysOf(record, records[j])
  }

  ghost predicate Rises(at: seq<nat>) {
    forall j, k :: 0 <= j < k < |at| ==> at[j] < at[k]
  }

  lemma {:induction false} WithIdRises(rs: seq<Record>, id: string, n: nat)
    requires n <= |rs|
    ensures Rises(WithId(rs, id, n))
  {
    if n > 0 {
      WithIdRises(rs, id, n - 1);
      var at := WithId(rs, id, n - 1);
      assert forall k :: 0 <= k < |at| ==> at[k] in at;
    }
  }

  lemma {:induction false} MatchingRises(r: Record, rs: seq<Record>, at: seq<nat>)
    requires InRange(rs, at) && Rises(at)
    ensures Rises(Matching(r, rs, at))
  {
    if at != [] {
      var rest := at[..|at| - 1];
      MatchingRises(r, rs, rest);
      var hits := Matching(r, rs, rest);
      assert forall k :: 0 <= k < |hits| ==> hits[k] in hits;
      assert forall i :: i in rest ==> i < at[|at| - 1];
    }
  }

  lemma {:induction false} WithUrlAndDateRises(rs: seq<Record>, key: (string, string), n: nat)
    requires n <= |rs|
    ensures Rises(WithUrlAndDate(rs, key, n))
  {
    if n > 0 {
      WithUrlAndDateRises(rs, key, n - 1);
      var at := WithUrlAndDate(rs, key, n - 1);
      assert forall k :: 0 <= k < |at| ==> at[k] in at;
    }
  }

  /** Every match is among the positions the revisit names, and they are in order. */
  lemma {:induction false} MatchNamed(record: Record, records: seq<Record>)
    ensures var hits := Matching(record, records, Named(record, records));
            Rises(hits) && forall j: nat :: j in hits <==> j < |records| && RevisitMatches(record, records[j])
  {
    var at := Named(record, records);
    if record.Get(RefersTo) == "" {
      WithUrlAndDateRises(records, (record.Get(RefersToUri), record.Get(RefersToDate)), |records|);
    } else {
      WithIdRises(records, record.Get(RefersTo), |records|);
    }
    MatchingRises(record, records, at);
    forall j: nat | j < |records| && RevisitMatches(record, records[j])
      ensures j in at
    {
    }
  }

  /** The target of a revisit is the one resolved record that is what it says, if there is one. */
  lemma {:induction false} TargetMeans(record: Record, records: seq<Record>, t: nat)
    ensures Target(record, records) == Some(t) <==> OnlyNamed(record, records, t)
  {
    MatchNamed(record, records);
    var hits := Matching(record, records, Named(record, records));
    forall j | 0 <= j < |records|
      ensures RevisitMatches(record, records[j]) <==> records[j].resolved && SaysOf(record, records[j])
    {
      MatchMeans(record, records[j]);
    }
    OneHit(hits, t);
  }

  lemma {:induction false} OneHit(hits: seq<nat>, t: nat)
    requires Rises(hits)
    ensures |hits| == 1 && hits[0] == t <==> t in hits && forall j :: j in hits ==> j == t
  {
    if |hits| > 1 {
      assert hits[0] in hits && hits[1] in hits;
    }
  }

  /** `current` may differ from the records the lookup was built on only in fields
      that no lookup key mentions. */
  method Find(lookup: RecordLookup, record: Record, current: seq<Record>, work: nat)
    returns (r: Result<Option<nat>, Error>, left: nat)
    requires Indexes(lookup, current, |current|)
    ensures r == if |Named(record, current)| > work then Err(WorkLimit) else Ok(Target(record, current))
    ensures r.Ok? ==> left == work - |Named(record, current)|
    ensures r.Ok? ==> forall t: nat :: r.value == Some(t) <==> OnlyNamed(record, current, t)
  {
    left := work;
    var indices :=
      if record.Get(RefersTo) == "" then
        Entry(lookup.targets, (record.Get(RefersToUri), record.Get(RefersToDate)))
      else
        Entry(lookup.ids, record.Get(RefersTo));
    assert indices == Named(record, current);
    if |indices| > work {
      return Err(WorkLimit), work;
    }
    left := work - |indices|;
    var found := OnlyMatch(record, current, indices);
    forall t: nat
      ensures found == Some(t) <==> OnlyNamed(record, current, t)
    {
      TargetMeans(record, current, t);
    }
    return Ok(found), left;
  }

  /** The loop over the candidates: it stops at a second match. */
  method OnlyMatch(record: Record, current: seq<Record>, indices: seq<nat>) returns (found: Option<nat>)
    requires InRange(current, indices)
    ensures found == (var hits := Matching(record, current, indices); if |hits| == 1 then Some(hits[0]) else None)
  {
    found := None;
    ghost var hits: seq<nat> := [];
    for k := 0 to |indices|
      invariant hits == Matching(record, current, indices[..k]) && |hits| <= 1
      invariant found == if hits == [] then None else Some(hits[0])
    {
      var i := indices[k];
      MatchingNext(record, current, indices, k);
      if RevisitMatches(record, current[i]) {
        if found.Some? {
          MatchingGrows(record, current, indices, k + 1);
          return None;
        }
        found := Some(i);
        hits := hits + [i];
      }
    }
    assert indices[..|indices|] == indices;
  }

  lemma {:induction false} MatchingNext(record: Record, records: seq<Record>, at: seq<nat>, k: nat)
    requires InRange(records, at) && k < |at|
    ensures Matching(record, records, at[..k + 1]) ==
            Matching(record, records, at[..k]) + if RevisitMatches(record, records[at[k]]) then [at[k]] else []
  {
    assert at[..k + 1][..k] == at[..k];
  }

  lemma {:induction false} MatchingGrows(record: Record, records: seq<Record>, at: seq<nat>, k: nat)
    requires InRange(records, at)
    requires k <= |at|
    ensures |Matching(record, records, at[..k])| <= |Matching(record, records, at)|
    decreases |at|
  {
    if k < |at| {
      var rest := at[..|at| - 1];
      assert rest[..k] == at[..k];
      MatchingGrows(record, records, rest, k);
    } else {
      assert at[..k] == at;
    }
  }
}
