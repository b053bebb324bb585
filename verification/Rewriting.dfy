/** Writing a record and scanning it again. The scanner takes a block apart into HTTP head and
    body, decodes and hashes the body, and checks it against the digests in the header; the
    writer puts head and body together and stamps length and digests. What the scanner, local
    resolution and hydration leave of a record is stated here, and exactly which records can
    be written and read back. */
module Rewriting {
  import opened Wrappers
  import opened Archives
  import opened Characters
  import opened Decimals
  import opened LocalRevisits
  import opened Rehydration
  import Digest

  /** What lies outside: the hash, the decoding of a chunked body, taking the HTTP head off a
      block, and whether a record header can be written and is read again (no line breaks in
      it, and within 64 KiB). */
  datatype Codec = Codec(
    sha: Bytes -> string,
    dechunk: Bytes -> Option<Bytes>,
    split: Bytes -> Option<(HttpHead, Bytes)>,
    readable: map<Header, string> -> bool)

  /** A recorded digest is checked when it names SHA-256, in any notation. Digests the program
      wrote itself are already in normal form. */
  predicate Agrees(expected: string, actual: string) {
    !("sha256:" <= expected) || expected == actual || Digest.Normalize(expected) == Ok(actual)
  }

  /** A head the scanner has read: it is read again in front of any body. */
  ghost predicate IsHead(c: Codec, h: HttpHead) {
    h.Head? && h.raw != "" && forall b :: c.split(h.raw + b) == Some((h, b))
  }

  /** The transfer coding a head announces, if it has that header at all. */
  function Coding(h: HttpHead): Option<string> {
    if h.NoHead? || h.transferEncoding.None? then None else Some(LowerAll(h.transferEncoding.value))
  }

  const CHUNKED := "chunked"

  /** A header that announces any other coding, or none, is refused. */
  predicate Supported(coding: Option<string>) {
    coding == None || coding == Some(CHUNKED)
  }

  /** The entity of a body under a coding. */
  function Decode(c: Codec, coding: Option<string>, body: Bytes): (e: Option<Bytes>)
    ensures e.Some? ==> Supported(coding)
  {
    if coding == None then Some(body) else if coding == Some(CHUNKED) then c.dechunk(body) else None
  }

  /** Hashes agree only for equal bytes; a chunked body is longer than its entity; a head is read
      as written, whatever follows; no chunked body looks like an HTTP response. */
  ghost predicate Lawful(c: Codec) {
    (forall x, y :: Agrees(c.sha(x), c.sha(y)) ==> x == y) &&
    (forall b :: c.dechunk(b).Some? ==> |c.dechunk(b).value| < |b|) &&
    (forall b :: c.split(b).Some? ==> Splits(c, b, c.split(b).value.0, c.split(b).value.1)) &&
    (forall b :: c.split(b).Some? ==> c.dechunk(b).None?)
  }

  ghost predicate Splits(c: Codec, b: Bytes, h: HttpHead, rest: Bytes) {
    IsHead(c, h) && b == h.raw + rest
  }

  function Raw(h: HttpHead): Bytes {
    if h.NoHead? then "" else h.raw
  }

  // ---- the scanner ----

  datatype Place = Place(member: string, offset: nat, length: nat)

  function KindOf(headers: map<Header, string>): string {
    if WarcType in headers then headers[WarcType] else ""
  }

  function Checked(r: Record): Option<Record> {
    if r.IsCapture() && !Agrees(r.Get(PayloadDigest), r.payloadDigest) then None else Some(r)
  }

  /** What the scanner makes of one record, or its refusal. */
  function Scan(c: Codec, headers: map<Header, string>, block: Bytes, at: Place): Option<Record> {
    var kind := KindOf(headers);
    var resolved := kind != "revisit";
    if BlockDigest in headers && !Agrees(headers[BlockDigest], c.sha(block)) then None
    else if (kind == "response" || kind == "revisit") && block != "" then
      var parts := c.split(block);
      if parts.None? then None
      else
        var (head, rest) := parts.value;
        var r := Record(headers, head, HeadStatus(head), HeadMime(head), "", |rest|,
                        at.member, at.offset, at.length, resolved, Some(rest), None);
        if kind == "revisit" then Some(r)
        else
          var e := Decode(c, Coding(head), rest);
          if e.None? then None else Checked(r.(payloadDigest := c.sha(e.value)))
    else
      var mime := if ContentType in headers then headers[ContentType] else "";
      Checked(Record(headers, NoHead, if kind == "resource" then 200 else 0, mime, c.sha(block),
                     if kind == "resource" then |block| else 0,
                     at.member, at.offset, at.length, resolved, Some(block), None))
  }

  function HeadStatus(h: HttpHead): nat {
    if h.NoHead? then 0 else h.status
  }

  function HeadMime(h: HttpHead): string {
    if h.NoHead? then "" else h.mime
  }

  // ---- the writer ----

  /** The block the writer puts out: of a revisit the HTTP head alone. A body taken from another
      record must have the length that is on record. */
  function OutputBlock(r: Record): Option<Bytes> {
    if r.Kind() == "revisit" then Some(Raw(r.http))
    else if r.payloadSource.Some? then
      if |r.payloadSource.value| != r.payloadLength then None else Some(Raw(r.http) + r.payloadSource.value)
    else if r.source.Some? then Some(Raw(r.http) + r.source.value)
    else Some("")
  }

  /** The header the writer emits. */
  function Stamped(c: Codec, r: Record, block: Bytes): map<Header, string> {
    var h := r.headers[ContentLength := Decimal(|block|)][BlockDigest := c.sha(block)];
    if r.IsCapture() then h[PayloadDigest := r.payloadDigest] else h
  }

  /** What is read where the writer put `r`, if both the writer and the scanner accept it. */
  function Rescan(c: Codec, r: Record, at: Place): Option<Record> {
    var block := OutputBlock(r);
    if block.None? || !c.readable(Stamped(c, r, block.value)) then None
    else Scan(c, Stamped(c, r, block.value), block.value, at)
  }

  type Scanner = (Record, Place) -> Option<Record>

  /** Records are written under distinct ids, and what was written is loaded before it counts. */
  ghost function WrittenBy(scan: Scanner, rs: seq<Record>, at: seq<Place>): (w: Option<seq<Record>>)
    requires |at| == |rs|
    ensures w.Some? ==> |w.value| == |rs|
  {
    if UniqueIds(rs) && forall i :: 0 <= i < |rs| ==> scan(rs[i], at[i]).Some? then
      Some(seq(|rs|, i requires 0 <= i < |rs| => scan(rs[i], at[i]).value))
    else None
  }

  ghost function Written(c: Codec, rs: seq<Record>, at: seq<Place>): (w: Option<seq<Record>>)
    requires |at| == |rs|
    ensures w.Some? ==> |w.value| == |rs|
  {
    WrittenBy((r: Record, p: Place) => Rescan(c, r, p), rs, at)
  }

  // ---- what the stages leave of a record ----

  function Entity(c: Codec, r: Record): Option<Bytes> {
    if r.Body().None? then None else Decode(c, Coding(r.http), r.Body().value)
  }

  /** The recorded digest is that of the body, decoded as the record's own head says. */
  ghost predicate Fixity(c: Codec, r: Record) {
    Entity(c, r).Some? && r.payloadDigest == c.sha(Entity(c, r).value)
  }

  /** The recorded digest is that of the body, decoded under some coding. */
  ghost predicate Authentic(c: Codec, r: Record) {
    r.Body().Some? && exists t :: DecodesUnder(c, r, t)
  }

  ghost predicate DecodesUnder(c: Codec, r: Record, t: Option<string>) {
    r.Body().Some? && Decode(c, t, r.Body().value).Some? &&
    r.payloadDigest == c.sha(Decode(c, t, r.Body().value).value)
  }

  /** As the scanner leaves a record. */
  ghost predicate AsScanned(c: Codec, r: Record) {
    r.source.Some? && r.payloadSource.None? && (r.resolved <==> r.Kind() != "revisit") &&
    (r.http.Head? ==> IsHead(c, r.http) && (r.Kind() == "response" || r.Kind() == "revisit")) &&
    (r.Kind() != "revisit" ==> Fixity(c, r)) &&
    (r.IsCapture() ==> r.payloadLength == |r.source.value|) &&
    (r.Kind() == "response" && r.http.NoHead? ==> r.source.value == "")
  }

  lemma {:induction false} ScannedIs(c: Codec, headers: map<Header, string>, block: Bytes, at: Place)
    requires Lawful(c) && Scan(c, headers, block, at).Some?
    ensures AsScanned(c, Scan(c, headers, block, at).value)
  {
    var kind := KindOf(headers);
    if (kind == "response" || kind == "revisit") && block != "" {
      var (head, rest) := c.split(block).value;
      assert Splits(c, block, head, rest);
    }
  }

  /** What a body carries under the head before it: itself, or what its chunks hold. */
  ghost predicate Carries(c: Codec, h: HttpHead, body: Bytes, entity: Bytes)
    requires h.Head?
  {
    match h.transferEncoding
    case None => entity == body
    case Some(coding) => LowerAll(coding) == "chunked" && c.dechunk(body) == Some(entity)
  }

  /** The block is the record's HTTP head and its body; its digests are those the header states. Only
      responses and revisits have a head, and they do unless their block is empty. */
  ghost predicate ScannedAs(c: Codec, headers: map<Header, string>, block: Bytes, at: Place, r: Record) {
    r.headers == headers && (r.member, r.offset, r.length) == (at.member, at.offset, at.length) &&
    r.source.Some? && r.payloadSource == None && r.resolved == (r.Kind() != "revisit") &&
    block == Raw(r.http) + r.source.value && Agrees(r.Get(BlockDigest), c.sha(block)) &&
    (r.IsCapture() ==> Agrees(r.Get(PayloadDigest), r.payloadDigest)) &&
    if block != "" && (r.Kind() == "response" || r.Kind() == "revisit") then
      IsHead(c, r.http) && r.status == r.http.status && r.mime == r.http.mime && r.payloadLength == |r.source.value| &&
      if r.Kind() == "revisit" then r.payloadDigest == ""
      else exists entity :: Carries(c, r.http, r.source.value, entity) && r.payloadDigest == c.sha(entity)
    else
      r.http.NoHead? && r.payloadDigest == c.sha(block) && r.mime == r.Get(ContentType) &&
      r.status == (if r.Kind() == "resource" then 200 else 0) &&
      r.payloadLength == if r.Kind() == "resource" then |block| else 0
  }

  lemma {:induction false} ScanGives(c: Codec, headers: map<Header, string>, block: Bytes, at: Place, r: Record)
    requires Lawful(c) && Scan(c, headers, block, at) == Some(r)
    ensures ScannedAs(c, headers, block, at, r)
  {
    if r.http.Head? {
      var (head, rest) := c.split(block).value;
      assert Splits(c, block, head, rest);
      if r.Kind() != "revisit" {
        assert Carries(c, head, rest, Decode(c, Coding(head), rest).value);
      }
    }
  }

  lemma {:induction false} GivesScan(c: Codec, headers: map<Header, string>, block: Bytes, at: Place, r: Record)
    requires Lawful(c) && ScannedAs(c, headers, block, at, r)
    ensures Scan(c, headers, block, at) == Some(r)
  {
    if r.http.Head? {
      assert c.split(r.http.raw + r.source.value) == Some((r.http, r.source.value));
      if r.Kind() != "revisit" {
        var entity :| Carries(c, r.http, r.source.value, entity) && r.payloadDigest == c.sha(entity);
        assert Decode(c, Coding(r.http), r.source.value) == Some(entity);
      }
    } else {
      assert block == r.source.value;
    }
  }

  /** The scanner takes a block for a record exactly when it is one. */
  lemma {:induction false} ScanMeans(c: Codec, headers: map<Header, string>, block: Bytes, at: Place, r: Record)
    requires Lawful(c)
    ensures Scan(c, headers, block, at) == Some(r) <==> ScannedAs(c, headers, block, at, r)
  {
    if Scan(c, headers, block, at) == Some(r) {
      ScanGives(c, headers, block, at, r);
    }
    if ScannedAs(c, headers, block, at, r) {
      GivesScan(c, headers, block, at, r);
    }
  }

  ghost predicate AllScanned(c: Codec, rs: seq<Record>) {
    forall i :: 0 <= i < |rs| ==> AsScanned(c, rs[i])
  }

  /** As loading leaves a record, revisits inside the archive being resolved. */
  ghost predicate AsLoaded(c: Codec, r: Record) {
    (r.Kind() != "revisit" ==> AsScanned(c, r)) &&
    (r.http.Head? ==> IsHead(c, r.http)) &&
    (r.resolved ==> Authentic(c, r)) &&
    (r.resolved && r.Kind() == "revisit" ==> r.payloadSource.Some?)
  }

  /** What is carried along a chain is the body, length and digest of its last record. */
  lemma {:induction false} AlongEnd(c: Codec, rs: seq<Record>, path: seq<nat>)
    requires AllScanned(c, rs) && Chain(rs, path)
    ensures Along(rs, path).Body() == rs[path[|path| - 1]].Body()
    ensures Along(rs, path).payloadDigest == rs[path[|path| - 1]].payloadDigest
    ensures rs[path[|path| - 1]].resolved && (|path| > 1 ==> Along(rs, path).payloadSource.Some?)
    decreases |path|
  {
    if |path| > 1 {
      AlongEnd(c, rs, path[1..]);
      assert path[1..][|path| - 2] == path[|path| - 1];
    }
  }

  /** What is loaded was scanned, and every resolved record has a body that its digest fits under
      some coding. */
  lemma {:induction false} LoadedIs(c: Codec, raw: seq<Record>, now: seq<Record>, i: nat)
    requires Lawful(c) && AllScanned(c, raw) && Sound(raw, now) && i < |now|
    ensures AsLoaded(c, now[i])
  {
    assert AsScanned(c, raw[i]);
    if now[i].resolved {
      var path := ChainOf(raw, now, i);
      var end := raw[path[|path| - 1]];
      AlongEnd(c, raw, path);
      assert AsScanned(c, end);
      assert DecodesUnder(c, now[i], Coding(end.http));
    } else {
      Untouched(raw, now, i);
    }
  }

  ghost predicate AllLoaded(c: Codec, rs: seq<Record>) {
    forall i :: 0 <= i < |rs| ==> AsLoaded(c, rs[i])
  }

  lemma {:induction false} AllLoadedIs(c: Codec, raw: seq<Record>, now: seq<Record>)
    requires Lawful(c) && AllScanned(c, raw) && Sound(raw, now)
    ensures AllLoaded(c, now)
  {
    forall i: nat | i < |now|
      ensures AsLoaded(c, now[i])
    {
      LoadedIs(c, raw, now, i);
    }
  }

  /** A record resolved inside the archive fits its digest under its own head, if and only if that
      announces the transfer coding of the capture at the end of its chain. A revisit without a
      head that leads to a chunked capture never does, nor one whose head has an empty coding. */
  lemma {:induction false} ChainFixity(c: Codec, rs: seq<Record>, path: seq<nat>)
    requires Lawful(c) && AllScanned(c, rs) && Chain(rs, path)
    ensures Fixity(c, Along(rs, path)) <==> Coding(rs[path[0]].http) == Coding(rs[path[|path| - 1]].http)
  {
    var r, end := Along(rs, path), rs[path[|path| - 1]];
    AlongEnd(c, rs, path);
    assert AsScanned(c, end) && Fixity(c, end) && Coding(r.http) == Coding(rs[path[0]].http);
    OtherCoding(c, end.Body().value, Coding(r.http), Coding(end.http));
  }

  /** A body has one hash under one coding only. */
  lemma {:induction false} OtherCoding(c: Codec, body: Bytes, t: Option<string>, u: Option<string>)
    requires Lawful(c) && Decode(c, u, body).Some?
    ensures Decode(c, t, body).Some? && c.sha(Decode(c, t, body).value) == c.sha(Decode(c, u, body).value) <==> t == u
  {
    if Decode(c, t, body).Some? && c.sha(Decode(c, t, body).value) == c.sha(Decode(c, u, body).value) {
      assert Agrees(c.sha(Decode(c, t, body).value), c.sha(Decode(c, u, body).value));
    }
  }

  /** As hydration leaves a record. */
  ghost predicate AsHydrated(c: Codec, r: Record) {
    r.Kind() != "revisit" && !IsSegmented(r) && r.resolved && Authentic(c, r) &&
    (r.http.Head? ==> IsHead(c, r.http)) &&
    if r.payloadSource.Some? then r.Kind() == "response" else AsScanned(c, r)
  }

  ghost predicate InputsLoaded(c: Codec, inputs: seq<Input>) {
    forall k :: 0 <= k < |inputs| ==> AllLoaded(c, inputs[k].records)
  }

  lemma {:induction false} CandidatesMatch(c: Codec, r: Record, inputs: seq<Input>, work: nat)
    requires InputsLoaded(c, inputs) && Candidates(r, inputs, work).Ok?
    ensures var found := Candidates(r, inputs, work).value.0;
            forall k :: 0 <= k < |found| ==> RevisitMatches(r, found[k]) && AsLoaded(c, found[k])
  {
    if inputs != [] {
      CandidatesMatch(c, r, inputs[..|inputs| - 1], work);
      assert AllLoaded(c, inputs[|inputs| - 1].records);
    }
  }

  /** What hydration makes of loaded records. */
  lemma {:induction false} HydratedRecord(c: Codec, r: Record, inputs: seq<Input>, work: nat)
    requires Lawful(c) && AsLoaded(c, r) && InputsLoaded(c, inputs) && HydrateRecord(r, inputs, work).Ok?
    ensures AsHydrated(c, HydrateRecord(r, inputs, work).value.0)
  {
    if r.Kind() != "revisit" {
      assert DecodesUnder(c, r, Coding(r.http));
    } else if r.resolved {
      ResponseOf(c, r, AsResponse(r));
    } else {
      var found := Candidates(r, inputs, work).value.0;
      CandidatesMatch(c, r, inputs, work);
      var filled := FilledExternal(r, found[0]);
      assert Authentic(c, found[0]) && filled.Body() == found[0].Body();
      ResponseOf(c, filled, AsResponse(filled));
      var t :| DecodesUnder(c, found[0], t);
      assert DecodesUnder(c, filled, t);
    }
  }

  /** Turning a revisit into a response touches its headers only. */
  lemma {:induction false} ResponseOf(c: Codec, r: Record, h: Record)
    requires h == AsResponse(r) && !IsSegmented(r)
    ensures h.Kind() == "response" && !IsSegmented(h) && h.Body() == r.Body()
    ensures Authentic(c, r) ==> Authentic(c, h)
  {
    if Authentic(c, r) {
      var t :| DecodesUnder(c, r, t);
      assert DecodesUnder(c, h, t);
    }
  }

  // ---- which records can be written and read back ----

  /** The guards of the writer and the scanner for a record that is kept: a readable header, a
      body of the recorded length, for a response with a body an HTTP head that announces no
      coding but chunked, and a digest that fits the body under that head. */
  ghost predicate Keepable(c: Codec, r: Record) {
    (OutputBlock(r).Some? && c.readable(Stamped(c, r, OutputBlock(r).value))) &&
    (r.Kind() == "response" ==>
       if r.http.NoHead? then r.Body() == Some("") else Supported(Coding(r.http)) && Fixity(c, r))
  }

  /** A response without a head is refused as soon as it has a body, whatever the body is. */
  lemma {:induction false} HeadlessRefused(
    c: Codec, headers: map<Header, string>, body: Bytes, t: Option<string>, at: Place)
    requires Lawful(c) && KindOf(headers) == "response" && body != "" && Decode(c, t, body).Some?
    requires PayloadDigest in headers && headers[PayloadDigest] == c.sha(Decode(c, t, body).value)
    ensures Scan(c, headers, body, at).None?
  {
    var parts := c.split(body);
    if parts.Some? {
      var (head, rest) := parts.value;
      assert Splits(c, body, head, rest) && t == None;
      var e := Decode(c, Coding(head), rest);
      if e.Some? {
        assert |e.value| < |body|;
        assert !Agrees(c.sha(body), c.sha(e.value));
      }
    }
  }

  /** A response with a head is accepted exactly when the head announces no coding but chunked and
      the digest fits the body under it. */
  lemma {:induction false} HeadedChecked(c: Codec, headers: map<Header, string>, h: HttpHead, body: Bytes, digest: string, at: Place)
    requires Lawful(c) && IsHead(c, h) && KindOf(headers) == "response"
    requires BlockDigest in headers && headers[BlockDigest] == c.sha(h.raw + body)
    requires PayloadDigest in headers && headers[PayloadDigest] == digest && exists x :: digest == c.sha(x)
    ensures var s := Scan(c, headers, h.raw + body, at);
            var e := Decode(c, Coding(h), body);
            (s.Some? <==> Supported(Coding(h)) && e.Some? && c.sha(e.value) == digest) &&
            (s.Some? ==> s.value == Record(headers, h, h.status, h.mime, digest, |body|,
                                           at.member, at.offset, at.length, true, Some(body), None))
  {
    assert c.split(h.raw + body) == Some((h, body));
    var x :| digest == c.sha(x);
    var e := Decode(c, Coding(h), body);
    if e.Some? && Agrees(digest, c.sha(e.value)) {
      assert x == e.value;
    }
  }
}
