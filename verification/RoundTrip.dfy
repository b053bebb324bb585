/** Deduplicating an archive and materializing it again: both write the archive and load what
    they wrote. Exactly when the way there and back succeeds is proved here, and that it then
    gives every record back. */
module RoundTrip {
  import opened Wrappers
  import opened Archives
  import opened LocalRevisits
  import opened Rehydration
  import opened Rewriting

  // ---- the way there and back ----

  ghost function Deduplicated(c: Codec, own: seq<Record>, inputs: seq<Input>, at: seq<Place>): (d: Option<seq<Record>>)
    requires |at| == |own|
    ensures d.Some? ==> |d.value| == |own|
  {
    var out := DedupeFrom(own, inputs);
    if out.Err? || NoneMatch(own, inputs) then None else Written(c, out.value, at)
  }

  ghost function Materialized(c: Codec, rs: seq<Record>, inputs: seq<Input>, at: seq<Place>): Option<seq<Record>>
    requires |at| == |rs|
  {
    var h := HydrateAll(rs, inputs);
    if h.Err? then None else Written(c, h.value, at)
  }

  ghost function ThereAndBack(c: Codec, own: seq<Record>, inputs: seq<Input>, at: seq<Place>, again: seq<Place>)
    : Option<seq<Record>>
    requires |at| == |again| == |own|
  {
    var d := Deduplicated(c, own, inputs, at);
    if d.None? then None else Materialized(c, d.value, inputs, again)
  }

  // ---- what it starts from ----

  /** Inputs with one hash are one file. */
  ghost predicate HashIsIdentity(inputs: seq<Input>) {
    forall i, j :: 0 <= i < |inputs| && 0 <= j < |inputs| && inputs[i].sha256 == inputs[j].sha256 ==>
      inputs[i].records == inputs[j].records
  }

  ghost predicate InputOk(c: Codec, input: Input) {
    input.sha256 != "" && AllLoaded(c, input.records)
  }

  /** Loaded inputs, and a hydrated archive. */
  ghost predicate Setting(c: Codec, own: seq<Record>, inputs: seq<Input>) {
    Lawful(c) && HashIsIdentity(inputs) &&
    (forall k :: 0 <= k < |inputs| ==> InputOk(c, inputs[k])) &&
    forall i :: 0 <= i < |own| ==> AsHydrated(c, own[i])
  }

  /** Any archive that loads and hydrates is such a start. */
  lemma {:induction false} HydratedSetting(
    c: Codec, source: seq<Record>, inputs: seq<Input>, work: nat)
    requires Lawful(c) && AllLoaded(c, source) && (forall k :: 0 <= k < |inputs| ==> InputOk(c, inputs[k]))
    requires HashIsIdentity(inputs) && HydrateFrom(source, inputs, work).Ok?
    ensures Setting(c, HydrateFrom(source, inputs, work).value.0, inputs)
  {
    if source != [] {
      var n := |source| - 1;
      HydratedSetting(c, source[..n], inputs, work);
      var h := HydrateFrom(source[..n], inputs, work).value;
      HydratedRecord(c, source[n], inputs, h.1);
    }
  }

  // ---- the conditions ----

  function Sharing(inputs: seq<Input>, sha256: string): (n: nat)
    ensures n <= |inputs|
  {
    if inputs == [] then 0
    else Sharing(inputs[..|inputs| - 1], sha256) + if inputs[|inputs| - 1].sha256 == sha256 then 1 else 0
  }

  function TargetOf(cn: Canonical): Record
    requires cn.at < |cn.input.records|
  {
    cn.input.records[cn.at]
  }

  /** Writing the deduplicated archive: a record that is kept can be written and read back, one
      that is converted has a target with an id and a date, and a header that can be read. */
  ghost predicate Dedupable(c: Codec, own: Record, inputs: seq<Input>) {
    match Match(own, inputs)
    case None => Keepable(c, own)
    case Some(cn) =>
      TargetOf(cn).Get(RecordId) != "" && TargetOf(cn).Get(Date) != "" &&
      c.readable(Stamped(c, Bound(own, cn).value, Raw(own.http)))
  }

  /** No other record of the input has the id of the target and fits the revisit as well. */
  predicate Alone(own: Record, cn: Canonical)
    requires cn.at < |cn.input.records|
  {
    Bound(own, cn).Ok? &&
    forall j :: 0 <= j < |cn.input.records| && j != cn.at &&
                cn.input.records[j].Get(RecordId) == TargetOf(cn).Get(RecordId) ==>
      !RevisitMatches(Bound(own, cn).value, cn.input.records[j])
  }

  /** The input a converted record is bound to is authorized once, and has one target for it. */
  predicate BoundOnce(own: Record, inputs: seq<Input>) {
    match Match(own, inputs)
    case None => true
    case Some(cn) => Sharing(inputs, cn.input.sha256) == 1 && Alone(own, cn)
  }

  /** The records hydration looks at to find the target again: those that share its id. */
  function CostOf(own: Record, inputs: seq<Input>): nat {
    match Match(own, inputs)
    case None => 0
    case Some(cn) => |WithId(cn.input.records, TargetOf(cn).Get(RecordId), |cn.input.records|)|
  }

  function Cost(own: seq<Record>, inputs: seq<Input>): nat {
    if own == [] then 0 else Cost(own[..|own| - 1], inputs) + CostOf(own[|own| - 1], inputs)
  }

  /** Bringing a converted record back: no other authorized input is the same file as the one
      it is bound to, and no other record there fits as well; an HTTP head is there for its
      body and announces no coding but chunked, and its header can be read. */
  ghost predicate Restorable(c: Codec, own: Record, inputs: seq<Input>) {
    match Match(own, inputs)
    case None => true
    case Some(cn) =>
      BoundOnce(own, inputs) && IsReadableHead(HeadFor(own, TargetOf(cn))) &&
      c.readable(RestoredHeaders(c, own, TargetOf(cn)))
  }

  predicate IsReadableHead(h: HttpHead) {
    h.Head? && Supported(Coding(h))
  }

  function HeadFor(own: Record, target: Record): HttpHead {
    if own.http.Head? then own.http else target.http
  }

  function RestoredHeaders(c: Codec, own: Record, target: Record): map<Header, string> {
    var body := if target.Body().Some? then target.Body().value else "";
    Stamped(c, own.(headers := own.headers - REVISIT_HEADERS), Raw(HeadFor(own, target)) + body)
  }

  const CHANGED: set<Header> := REVISIT_HEADERS + {ContentLength, BlockDigest, PayloadDigest}

  /** `restored` is the record `own` again: its kind, identity and other headers, its HTTP head
      when it has one, and its entity, which now fits the digest. */
  ghost predicate SameRecord(c: Codec, own: Record, restored: Record) {
    restored.Kind() == own.Kind() && restored.resolved && restored.payloadDigest == own.payloadDigest &&
    (forall k :: k !in CHANGED ==> restored.Get(k) == own.Get(k)) &&
    (own.http.Head? ==> restored.http == own.http) &&
    Fixity(c, restored) && (Fixity(c, own) ==> Entity(c, restored) == Entity(c, own))
  }

  // ---- a record that is kept ----

  ghost predicate KeptAs(c: Codec, own: Record, d: Record) {
    OutputBlock(own).Some? && d.headers == Stamped(c, own, OutputBlock(own).value) && d.http == own.http &&
    d.Body() == own.Body() && d.payloadDigest == own.payloadDigest && AsScanned(c, d) && d.Kind() == own.Kind()
  }

  lemma {:induction false} KeptExact(c: Codec, own: Record, at: Place)
    requires Lawful(c) && AsHydrated(c, own)
    ensures Rescan(c, own, at).Some? <==> Keepable(c, own)
    ensures Rescan(c, own, at).Some? ==> KeptAs(c, own, Rescan(c, own, at).value)
  {
    var block := OutputBlock(own);
    if block.Some? && c.readable(Stamped(c, own, block.value)) {
      StampedKind(c, own, block.value);
      if own.Kind() == "response" {
        KeptResponse(c, own, at);
      } else {
        KeptOther(c, own, at);
      }
      var s := Rescan(c, own, at);
      if s.Some? {
        ScannedIs(c, Stamped(c, own, block.value), block.value, at);
      }
    }
  }

  lemma {:induction false} StampedKind(c: Codec, r: Record, block: Bytes)
    ensures KindOf(Stamped(c, r, block)) == r.Kind()
    ensures Stamped(c, r, block)[BlockDigest] == c.sha(block)
    ensures r.IsCapture() ==> Stamped(c, r, block)[PayloadDigest] == r.payloadDigest
  {
  }

  lemma {:induction false} KeptResponse(c: Codec, own: Record, at: Place)
    requires Lawful(c) && AsHydrated(c, own) && own.Kind() == "response" && OutputBlock(own).Some?
    requires c.readable(Stamped(c, own, OutputBlock(own).value))
    ensures var s := Rescan(c, own, at);
            (s.Some? <==> if own.http.NoHead? then own.Body() == Some("") else Fixity(c, own)) &&
            (s.Some? ==> s.value.http == own.http && s.value.Body() == own.Body() && s.value.resolved &&
                         s.value.payloadDigest == own.payloadDigest &&
                         s.value.headers == Stamped(c, own, OutputBlock(own).value))
  {
    var body := own.Body().value;
    var h := Stamped(c, own, Raw(own.http) + body);
    StampedKind(c, own, Raw(own.http) + body);
    var t :| DecodesUnder(c, own, t);
    assert OutputBlock(own) == Some(Raw(own.http) + body);
    if own.http.Head? {
      HeadedChecked(c, h, own.http, body, own.payloadDigest, at);
    } else {
      assert "" + body == body;
      if body != "" {
        HeadlessRefused(c, h, body, t, at);
      } else {
        assert t == None;
      }
    }
  }

  lemma {:induction false} KeptOther(c: Codec, own: Record, at: Place)
    requires Lawful(c) && AsHydrated(c, own) && own.Kind() != "response" && OutputBlock(own).Some?
    requires c.readable(Stamped(c, own, OutputBlock(own).value))
    ensures var s := Rescan(c, own, at);
            s.Some? && s.value.http == own.http && s.value.Body() == own.Body() && s.value.resolved &&
            s.value.payloadDigest == own.payloadDigest && s.value.headers == Stamped(c, own, OutputBlock(own).value)
  {
    var body := own.source.value;
    StampedKind(c, own, body);
    assert own.http.NoHead? && "" + body == body;
    assert OutputBlock(own) == Some(body);
  }

  /** What was kept once can be written and read again. */
  lemma {:induction false} KeptAgain(c: Codec, own: Record, d: Record, at: Place)
    requires Lawful(c) && AsHydrated(c, own) && Keepable(c, own) && KeptAs(c, own, d)
    ensures Rescan(c, d, at).Some? && SameRecord(c, own, Rescan(c, d, at).value)
  {
    KeptHydrated(c, own, d);
    var block := OutputBlock(own).value;
    assert OutputBlock(d) == Some(block) by {
      KeptBlock(c, own, d);
    }
    assert Stamped(c, d, block) == d.headers;
    KeptExact(c, d, at);
    KeptSame(c, own, d, Rescan(c, d, at).value);
  }

  lemma {:induction false} KeptHydrated(c: Codec, own: Record, d: Record)
    requires AsHydrated(c, own) && KeptAs(c, own, d)
    ensures AsHydrated(c, d)
  {
    assert DecodesUnder(c, d, Coding(d.http));
    assert forall k :: k in d.headers && k.Segment? ==> k in own.headers;
  }

  lemma {:induction false} KeptBlock(c: Codec, own: Record, d: Record)
    requires AsHydrated(c, own) && KeptAs(c, own, d)
    ensures OutputBlock(d) == OutputBlock(own)
  {
  }

  lemma {:induction false} KeptSame(c: Codec, own: Record, d: Record, s: Record)
    requires AsHydrated(c, own) && KeptAs(c, own, d) && KeptAs(c, d, s)
    ensures SameRecord(c, own, s)
  {
  }

  // ---- a record that is converted ----

  ghost predicate ConvertedAs(c: Codec, own: Record, cn: Canonical, d: Record) {
    cn.at < |cn.input.records| && Bound(own, cn).Ok? &&
    d.headers == Stamped(c, Bound(own, cn).value, Raw(own.http)) && d.http == own.http && !d.resolved
  }

  lemma {:induction false} ConvertedExact(c: Codec, own: Record, cn: Canonical, at: Place)
    requires Lawful(c) && AsHydrated(c, own) && cn.at < |cn.input.records| && Bound(own, cn).Ok?
    ensures var s := Rescan(c, Bound(own, cn).value, at);
            (s.Some? <==> c.readable(Stamped(c, Bound(own, cn).value, Raw(own.http)))) &&
            (s.Some? ==> ConvertedAs(c, own, cn, s.value))
  {
    var out := Bound(own, cn).value;
    assert out.Kind() == "revisit" && out.http == own.http && OutputBlock(out) == Some(Raw(own.http));
    StampedKind(c, out, Raw(own.http));
    RevisitScanned(c, Stamped(c, out, Raw(own.http)), own.http, at);
  }

  /** The block of a revisit is its HTTP head. */
  lemma {:induction false} RevisitScanned(c: Codec, headers: map<Header, string>, h: HttpHead, at: Place)
    requires (h.Head? ==> IsHead(c, h)) && KindOf(headers) == "revisit"
    requires BlockDigest in headers && headers[BlockDigest] == c.sha(Raw(h))
    ensures var s := Scan(c, headers, Raw(h), at);
            s.Some? && s.value.headers == headers && s.value.http == h && !s.value.resolved
  {
    if h.Head? {
      assert h.raw + "" == h.raw;
      assert c.split(h.raw + "") == Some((h, ""));
    }
  }

  /** The written revisit names its target by id and fits it. */
  lemma {:induction false} BoundTarget(c: Codec, own: Record, cn: Canonical, d: Record)
    requires ConvertedAs(c, own, cn, d) && InputOk(c, cn.input) && Offers(TargetOf(cn), KeyOf(own))
    ensures d.Get(DependencySha) == cn.input.sha256 && d.Kind() == "revisit"
    ensures d.Get(RefersTo) == TargetOf(cn).Get(RecordId) != "" && RevisitMatches(d, TargetOf(cn))
  {
    var target, link := TargetOf(cn), Bound(own, cn).value;
    assert AsLoaded(c, target);
    LinkOf(own, cn);
    SameLink(c, own, cn, d, target);
    StampedGet(c, link, Raw(own.http), d);
  }

  /** What the header of a converted record says of its target. */
  lemma {:induction false} LinkOf(own: Record, cn: Canonical)
    requires cn.at < |cn.input.records| && Bound(own, cn).Ok?
    ensures var link, target := Bound(own, cn).value, TargetOf(cn);
            link.Get(RefersTo) == target.Get(RecordId) && link.Get(RefersToUri) == target.Get(TargetUri) &&
            link.Get(RefersToDate) == target.Get(Date) && link.Get(PayloadDigest) == target.payloadDigest &&
            link.Get(DependencyLocation) == target.Location() && link.Get(DependencySha) == cn.input.sha256 &&
            link.Kind() == "revisit" && link.http == own.http
  {
  }

  lemma {:induction false} StampedGet(c: Codec, r: Record, block: Bytes, d: Record)
    requires d.headers == Stamped(c, r, block) && !r.IsCapture()
    ensures forall k :: k !in {ContentLength, BlockDigest} ==> d.Get(k) == r.Get(k)
  {
  }

  lemma {:induction false} SameLink(c: Codec, own: Record, cn: Canonical, d: Record, r: Record)
    requires ConvertedAs(c, own, cn, d)
    ensures RevisitMatches(d, r) <==> RevisitMatches(Bound(own, cn).value, r)
  {
  }

  /** Hydration finds the target in the bound input, if and only if it stands alone there. */
  lemma {:induction false} TargetFound(r: Record, rs: seq<Record>, t: nat)
    requires t < |rs| && r.Get(RefersTo) == rs[t].Get(RecordId) != "" && RevisitMatches(r, rs[t])
    ensures Target(r, rs) == None || Target(r, rs) == Some(t)
    ensures Target(r, rs) == Some(t) <==>
            forall j :: 0 <= j < |rs| && j != t && rs[j].Get(RecordId) == rs[t].Get(RecordId) ==> !RevisitMatches(r, rs[j])
  {
    var at := Named(r, rs);
    var hits := Matching(r, rs, at);
    assert t in at && t in hits;
    WithIdRises(rs, r.Get(RefersTo), |rs|);
    MatchingRises(r, rs, at);
    if |hits| > 1 {
      assert hits[0] in hits && hits[1] in hits;
    } else {
      assert hits == [t];
      assert forall j :: j in hits <==> j == t;
    }
  }

  /** What hydration finds in the first inputs: the target once in each that shares the bound
      hash, if it stands alone there, at the cost of the records that share its id. */
  ghost predicate Found(r: Result<(seq<Record>, nat), Error>, share: nat, target: Option<Record>, cost: nat, work: nat) {
    (r.Ok? ==> if target.Some? then r.value.0 == seq(share, i => target.value) else r.value.0 == []) &&
    (share == 0 ==> r.Ok? && r.value.1 == work) &&
    (share == 1 ==> (r.Ok? <==> work >= cost) && (r.Ok? ==> r.value.1 == work - cost))
  }

  lemma {:induction false} CandidatesAre(d: Record, inputs: seq<Input>, n: nat, input: Input, work: nat)
    requires n <= |inputs| && HashIsIdentity(inputs) && input in inputs && d.Get(DependencySha) == input.sha256 != ""
    ensures var t := Target(d, input.records);
            Found(Candidates(d, inputs[..n], work), Sharing(inputs[..n], input.sha256),
                  if t.Some? then Some(input.records[t.value]) else None, |Named(d, input.records)|, work)
  {
    if n > 0 {
      assert inputs[..n][..n - 1] == inputs[..n - 1];
      CandidatesAre(d, inputs, n - 1, input, work);
      var j :| 0 <= j < |inputs| && inputs[j] == input;
      assert inputs[n - 1].sha256 == inputs[j].sha256 ==> inputs[n - 1].records == inputs[j].records;
    }
  }

  /** What hydration makes of a record read back. */
  function Back(own: Record, d: Record, inputs: seq<Input>): Record {
    match Match(own, inputs)
    case None => d
    case Some(cn) => AsResponse(FilledExternal(d, TargetOf(cn)))
  }

  /** What hydration makes of a record read back, if it is bound to an input authorized once. */
  function BackIf(own: Record, d: Record, inputs: seq<Input>): Option<Record> {
    if BoundOnce(own, inputs) then Some(Back(own, d, inputs)) else None
  }

  /** `d` is what is read where deduplication put `own`. */
  ghost predicate ReadBack(c: Codec, own: Record, inputs: seq<Input>, d: Record) {
    match Match(own, inputs)
    case None => Keepable(c, own) && KeptAs(c, own, d)
    case Some(cn) => ConvertedAs(c, own, cn, d)
  }

  lemma {:induction false} ReadBackIs(c: Codec, own: Record, inputs: seq<Input>, at: Place)
    requires Lawful(c) && AsHydrated(c, own)
    ensures var out := DedupeRecord(own, inputs);
            (out.Ok? && Rescan(c, out.value, at).Some? <==> Dedupable(c, own, inputs)) &&
            (out.Ok? && Rescan(c, out.value, at).Some? ==> ReadBack(c, own, inputs, Rescan(c, out.value, at).value))
  {
    match Match(own, inputs) {
      case None => KeptExact(c, own, at);
      case Some(cn) =>
        if Bound(own, cn).Ok? {
          ConvertedExact(c, own, cn, at);
        }
    }
  }

  /** Hydration of this record yields that at this cost, or fails when there is nothing. */
  ghost predicate HydratesTo(d: Record, inputs: seq<Input>, b: Option<Record>, cost: nat) {
    forall work: nat :: HydratesWith(d, inputs, work, b, cost)
  }

  ghost predicate HydratesWith(d: Record, inputs: seq<Input>, work: nat, b: Option<Record>, cost: nat) {
    var h := HydrateRecord(d, inputs, work);
    (h.Ok? <==> b.Some? && work >= cost) && (h.Ok? ==> h.value == (b.value, work - cost))
  }

  lemma {:induction false} NotSegmented(c: Codec, r: Record, d: Record, block: Bytes)
    requires !IsSegmented(r) && d.headers == Stamped(c, r, block) && d.Kind() != "continuation"
    ensures !IsSegmented(d)
  {
    assert forall k :: k in d.headers && k.Segment? ==> k in r.headers;
  }

  lemma {:induction false} BoundNotSegmented(own: Record, cn: Canonical)
    requires !IsSegmented(own) && cn.at < |cn.input.records| && Bound(own, cn).Ok?
    ensures !IsSegmented(Bound(own, cn).value) && Bound(own, cn).value.Kind() == "revisit"
  {
    var out := Bound(own, cn).value;
    assert forall k :: k in out.headers && k.Segment? ==> k in own.headers;
  }

  lemma {:induction false} SharingSome(inputs: seq<Input>, input: Input)
    requires input in inputs
    ensures Sharing(inputs, input.sha256) > 0
  {
    var n := |inputs| - 1;
    assert inputs == inputs[..n] + [inputs[n]];
    if input in inputs[..n] {
      SharingSome(inputs[..n], input);
    }
  }

  lemma {:induction false} ConvertedHydrates(c: Codec, own: Record, inputs: seq<Input>, cn: Canonical, d: Record, work: nat)
    requires HashIsIdentity(inputs) && cn.input in inputs && InputOk(c, cn.input) && !IsSegmented(own)
    requires ConvertedAs(c, own, cn, d) && Offers(TargetOf(cn), KeyOf(own))
    ensures HydratesWith(d, inputs, work,
      if Sharing(inputs, cn.input.sha256) == 1 && Alone(own, cn) then Some(AsResponse(FilledExternal(d, TargetOf(cn)))) else None,
      |WithId(cn.input.records, TargetOf(cn).Get(RecordId), |cn.input.records|)|)
  {
    BoundTarget(c, own, cn, d);
    CandidatesAre(d, inputs, |inputs|, cn.input, work);
    assert inputs[..|inputs|] == inputs;
    SharingSome(inputs, cn.input);
    TargetFound(d, cn.input.records, cn.at);
    StandsAlone(c, own, cn, d);
    BoundNotSegmented(own, cn);
    NotSegmented(c, Bound(own, cn).value, d, Raw(own.http));
  }

  lemma {:induction false} StandsAlone(c: Codec, own: Record, cn: Canonical, d: Record)
    requires ConvertedAs(c, own, cn, d) && InputOk(c, cn.input) && Offers(TargetOf(cn), KeyOf(own))
    ensures Target(d, cn.input.records) == if Alone(own, cn) then Some(cn.at) else None
  {
    BoundTarget(c, own, cn, d);
    TargetFound(d, cn.input.records, cn.at);
    forall j | 0 <= j < |cn.input.records|
      ensures RevisitMatches(d, cn.input.records[j]) <==> RevisitMatches(Bound(own, cn).value, cn.input.records[j])
    {
      SameLink(c, own, cn, d, cn.input.records[j]);
    }
  }

  lemma {:induction false} HydratedBack(c: Codec, own: Record, inputs: seq<Input>, d: Record)
    requires HashIsIdentity(inputs) && (forall k :: 0 <= k < |inputs| ==> InputOk(c, inputs[k]))
    requires AsHydrated(c, own) && ReadBack(c, own, inputs, d)
    ensures HydratesTo(d, inputs, BackIf(own, d, inputs), CostOf(own, inputs))
  {
    match Match(own, inputs) {
      case None => KeptHydrated(c, own, d);
      case Some(cn) =>
        assert InputOk(c, cn.input);
        var b, cost := BackIf(own, d, inputs), CostOf(own, inputs);
        forall work: nat
          ensures HydratesWith(d, inputs, work, b, cost)
        {
          ConvertedHydrates(c, own, inputs, cn, d, work);
        }
    }
  }

  /** The record hydration fills in from its target, written and read once more. */
  lemma {:induction false} RestoredExact(c: Codec, own: Record, cn: Canonical, d: Record, at: Place)
    requires Lawful(c) && AsHydrated(c, own) && own.Kind() == "response" && InputOk(c, cn.input)
    requires ConvertedAs(c, own, cn, d) && Offers(TargetOf(cn), KeyOf(own))
    ensures var s := Rescan(c, AsResponse(FilledExternal(d, TargetOf(cn))), at);
            (s.Some? <==> IsReadableHead(HeadFor(own, TargetOf(cn))) && c.readable(RestoredHeaders(c, own, TargetOf(cn)))) &&
            (s.Some? ==> SameRecord(c, own, s.value))
  {
    var target := TargetOf(cn);
    assert AsLoaded(c, target) && AsScanned(c, target);
    var r, body := AsResponse(FilledExternal(d, target)), target.source.value;
    RestoredShape(c, own, cn, d);
    var block := Raw(r.http) + body;
    StampedKind(c, r, block);
    if c.readable(Stamped(c, r, block)) {
      if r.http.Head? {
        HeadedChecked(c, Stamped(c, r, block), r.http, body, r.payloadDigest, at);
        if Supported(Coding(r.http)) {
          assert Coding(r.http) == Coding(target.http);
          RestoredSame(c, own, cn, d, Rescan(c, r, at).value);
        }
      } else {
        assert "" + body == body;
        HeadlessRefused(c, Stamped(c, r, block), body, Coding(target.http), at);
      }
    }
  }

  lemma {:induction false} RestoredShape(c: Codec, own: Record, cn: Canonical, d: Record)
    requires Lawful(c) && AsHydrated(c, own) && own.Kind() == "response" && InputOk(c, cn.input)
    requires ConvertedAs(c, own, cn, d) && Offers(TargetOf(cn), KeyOf(own)) && AsScanned(c, TargetOf(cn))
    ensures var target, r := TargetOf(cn), AsResponse(FilledExternal(d, TargetOf(cn)));
            r.Kind() == "response" && r.http == HeadFor(own, target) && r.payloadDigest == own.payloadDigest &&
            r.TransportKey() == target.TransportKey() && (r.http.Head? ==> IsHead(c, r.http)) &&
            target.source.value != "" && OutputBlock(r) == Some(Raw(r.http) + target.source.value) &&
            Stamped(c, r, Raw(r.http) + target.source.value) == RestoredHeaders(c, own, target)
  {
    var target, r := TargetOf(cn), AsResponse(FilledExternal(d, TargetOf(cn)));
    assert AsLoaded(c, target) && target.Body() == target.source;
    HeadersBack(c, own, cn, d, r, Raw(r.http) + target.source.value);
  }

  /** Whatever conversion put into the header is gone again. */
  lemma {:induction false} HeadersBack(c: Codec, own: Record, cn: Canonical, d: Record, r: Record, block: Bytes)
    requires own.Kind() == "response" && ConvertedAs(c, own, cn, d) && r.payloadDigest == own.payloadDigest
    requires r.headers == d.headers[WarcType := "response"] - REVISIT_HEADERS
    ensures Stamped(c, r, block) == Stamped(c, own.(headers := own.headers - REVISIT_HEADERS), block)
  {
  }

  lemma {:induction false} RestoredSame(c: Codec, own: Record, cn: Canonical, d: Record, s: Record)
    requires Lawful(c) && AsHydrated(c, own) && own.Kind() == "response" && InputOk(c, cn.input)
    requires ConvertedAs(c, own, cn, d) && Offers(TargetOf(cn), KeyOf(own)) && AsScanned(c, TargetOf(cn))
    requires s.headers == RestoredHeaders(c, own, TargetOf(cn)) && s.http == HeadFor(own, TargetOf(cn)) && IsReadableHead(s.http)
    requires s.payloadDigest == own.payloadDigest && s.resolved && s.Body() == TargetOf(cn).Body()
    ensures SameRecord(c, own, s)
  {
    var target := TargetOf(cn);
    assert s.TransportKey() == target.TransportKey() && Coding(s.http) == Coding(target.http);
    SameEntity(c, own, target, s);
    assert s.Get(WarcType) == "response";
  }

  lemma {:induction false} SameEntity(c: Codec, own: Record, target: Record, s: Record)
    requires Lawful(c) && Fixity(c, target) && target.payloadDigest == own.payloadDigest == s.payloadDigest
    requires s.Body() == target.Body() && Coding(s.http) == Coding(target.http)
    ensures Fixity(c, s) && (Fixity(c, own) ==> Entity(c, s) == Entity(c, own))
  {
    if Fixity(c, own) {
      assert Agrees(c.sha(Entity(c, own).value), c.sha(Entity(c, target).value));
    }
  }

  /** There and back for one record. */
  lemma {:induction false} BackExact(c: Codec, own: Record, inputs: seq<Input>, d: Record, at: Place)
    requires Lawful(c) && (forall k :: 0 <= k < |inputs| ==> InputOk(c, inputs[k]))
    requires AsHydrated(c, own) && ReadBack(c, own, inputs, d)
    ensures var s := Rescan(c, Back(own, d, inputs), at);
            (BoundOnce(own, inputs) && s.Some? <==> Restorable(c, own, inputs)) &&
            (s.Some? ==> SameRecord(c, own, s.value))
  {
    match Match(own, inputs) {
      case None => KeptAgain(c, own, d, at);
      case Some(cn) =>
        assert InputOk(c, cn.input);
        RestoredExact(c, own, cn, d, at);
    }
  }

  // ---- a whole archive ----

  ghost predicate AllReadBack(c: Codec, own: seq<Record>, inputs: seq<Input>, derived: seq<Record>) {
    |derived| == |own| && forall i: nat :: i < |own| ==> ReadBackAt(c, own, inputs, derived, i)
  }

  ghost predicate ReadBackAt(c: Codec, own: seq<Record>, inputs: seq<Input>, derived: seq<Record>, i: nat)
    requires i < |own| == |derived|
  {
    ReadBack(c, own[i], inputs, derived[i])
  }

  lemma {:induction false} SameRecordIds(a: seq<Record>, b: seq<Record>)
    requires |a| == |b| && forall i :: 0 <= i < |a| ==> a[i].Get(RecordId) == b[i].Get(RecordId)
    ensures UniqueIds(a) <==> UniqueIds(b)
  {
  }

  /** A stage that turns every record into another, or fails, followed by writing and loading: it
      succeeds when every record passes, and then yields what is read back of each. */
  lemma {:induction false} StageExact(scan: Scanner, own: seq<Record>, out: Option<seq<Record>>, at: seq<Place>,
                                      step: seq<Option<Record>>, ok: seq<bool>)
    requires |at| == |own| == |step| == |ok|
    requires out.Some? <==> forall i :: 0 <= i < |own| ==> step[i].Some?
    requires out.Some? ==> |out.value| == |own| && forall i :: 0 <= i < |own| ==> step[i] == Some(out.value[i])
    requires forall i :: 0 <= i < |own| && step[i].Some? ==> step[i].value.Get(RecordId) == own[i].Get(RecordId)
    requires forall i :: 0 <= i < |own| ==> (ok[i] <==> step[i].Some? && scan(step[i].value, at[i]).Some?)
    ensures out.Some? && WrittenBy(scan, out.value, at).Some? <==> UniqueIds(own) && forall i :: 0 <= i < |ok| ==> ok[i]
    ensures out.Some? && WrittenBy(scan, out.value, at).Some? ==>
              forall i :: 0 <= i < |own| ==> Some(WrittenBy(scan, out.value, at).value[i]) == scan(step[i].value, at[i])
  {
    if out.Some? {
      SameRecordIds(own, out.value);
    }
  }

  function Deduped(own: Record, inputs: seq<Input>): Option<Record> {
    var out := DedupeRecord(own, inputs);
    if out.Ok? then Some(out.value) else None
  }

  lemma {:induction false} DedupeAll(own: seq<Record>, inputs: seq<Input>)
    ensures DedupeFrom(own, inputs).Ok? <==> forall i :: 0 <= i < |own| ==> Deduped(own[i], inputs).Some?
    ensures DedupeFrom(own, inputs).Ok? ==>
              forall i :: 0 <= i < |own| ==> Deduped(own[i], inputs) == Some(DedupeFrom(own, inputs).value[i])
  {
    if own != [] {
      var n := |own| - 1;
      DedupeAll(own[..n], inputs);
      assert own == own[..n] + [own[n]];
    }
  }

  lemma {:induction false} DedupedId(own: Record, inputs: seq<Input>)
    ensures Deduped(own, inputs).Some? ==> Deduped(own, inputs).value.Get(RecordId) == own.Get(RecordId)
  {
  }

  /** Deduplication of a record, written and read back. */
  ghost predicate DedupesAt(c: Codec, own: seq<Record>, inputs: seq<Input>, at: seq<Place>, i: nat)
    requires i < |own| == |at|
  {
    var out := Deduped(own[i], inputs);
    (Dedupable(c, own[i], inputs) <==> out.Some? && Rescan(c, out.value, at[i]).Some?) &&
    (Dedupable(c, own[i], inputs) ==> ReadBack(c, own[i], inputs, Rescan(c, out.value, at[i]).value))
  }

  lemma {:induction false} DedupesAll(c: Codec, own: seq<Record>, inputs: seq<Input>, at: seq<Place>)
    requires Setting(c, own, inputs) && |at| == |own|
    ensures forall i: nat :: i < |own| ==> DedupesAt(c, own, inputs, at, i)
  {
    forall i: nat | i < |own|
      ensures DedupesAt(c, own, inputs, at, i)
    {
      ReadBackIs(c, own[i], inputs, at[i]);
    }
  }

  ghost predicate AllDedupable(c: Codec, own: seq<Record>, inputs: seq<Input>) {
    forall i :: 0 <= i < |own| ==> Dedupable(c, own[i], inputs)
  }

  ghost predicate AllRestorable(c: Codec, own: seq<Record>, inputs: seq<Input>) {
    forall i :: 0 <= i < |own| ==> Restorable(c, own[i], inputs)
  }

  /** Deduplication succeeds exactly under its conditions. */
  lemma {:induction false} DeduplicateExact(c: Codec, own: seq<Record>, inputs: seq<Input>, at: seq<Place>)
    requires Setting(c, own, inputs) && |at| == |own|
    ensures Deduplicated(c, own, inputs, at).Some? <==>
            UniqueIds(own) && !NoneMatch(own, inputs) && AllDedupable(c, own, inputs)
    ensures Deduplicated(c, own, inputs, at).Some? ==>
            AllReadBack(c, own, inputs, Deduplicated(c, own, inputs, at).value)
  {
    DedupesAll(c, own, inputs, at);
    DeduplicateWhen(c, own, inputs, at);
  }

  lemma {:induction false} DeduplicateWhen(c: Codec, own: seq<Record>, inputs: seq<Input>, at: seq<Place>)
    requires |at| == |own| && forall i: nat :: i < |own| ==> DedupesAt(c, own, inputs, at, i)
    ensures Deduplicated(c, own, inputs, at).Some? <==>
            UniqueIds(own) && !NoneMatch(own, inputs) && AllDedupable(c, own, inputs)
    ensures Deduplicated(c, own, inputs, at).Some? ==>
            AllReadBack(c, own, inputs, Deduplicated(c, own, inputs, at).value)
  {
    DedupeAll(own, inputs);
    forall i | 0 <= i < |own|
      ensures Deduped(own[i], inputs).Some? ==> Deduped(own[i], inputs).value.Get(RecordId) == own[i].Get(RecordId)
    {
      DedupedId(own[i], inputs);
    }
    var scan := (r: Record, p: Place) => Rescan(c, r, p);
    var step := seq(|own|, i requires 0 <= i < |own| => Deduped(own[i], inputs));
    var ok := seq(|own|, i requires 0 <= i < |own| => Dedupable(c, own[i], inputs));
    var out := DedupeFrom(own, inputs);
    forall i | 0 <= i < |own|
      ensures ok[i] <==> step[i].Some? && scan(step[i].value, at[i]).Some?
      ensures step[i] == Deduped(own[i], inputs)
    {
      assert DedupesAt(c, own, inputs, at, i);
    }
    StageExact(scan, own, if out.Ok? then Some(out.value) else None, at, step, ok);
    var d := Deduplicated(c, own, inputs, at);
    if d.Some? {
      forall i: nat | i < |own|
        ensures ReadBackAt(c, own, inputs, d.value, i)
      {
        assert DedupesAt(c, own, inputs, at, i) && ok[i] && Some(d.value[i]) == scan(step[i].value, at[i]);
      }
    }
  }

  // ---- hydration of a whole archive ----

  ghost predicate AllHydrate(own: seq<Record>, derived: seq<Record>, inputs: seq<Input>, backs: seq<Option<Record>>) {
    |backs| == |derived| == |own| && forall i: nat :: i < |derived| ==> HydrateAt(own, derived, inputs, backs, i)
  }

  ghost predicate HydrateAt(own: seq<Record>, derived: seq<Record>, inputs: seq<Input>, backs: seq<Option<Record>>, i: nat)
    requires i < |own| == |derived| == |backs|
  {
    HydratesTo(derived[i], inputs, backs[i], CostOf(own[i], inputs))
  }

  ghost predicate HydratedTo(h: Result<(seq<Record>, nat), Error>, backs: seq<Option<Record>>, cost: nat, n: nat)
    requires n <= |backs|
  {
    (h.Ok? <==> cost <= WORK_LIMIT && forall i :: 0 <= i < n ==> backs[i].Some?) &&
    (h.Ok? ==> |h.value.0| == n && h.value.1 == WORK_LIMIT - cost &&
               forall i :: 0 <= i < n ==> backs[i] == Some(h.value.0[i]))
  }

  /** Hydration of one more record. */
  function Hydrated(h: Result<(seq<Record>, nat), Error>, d: Record, inputs: seq<Input>)
    : Result<(seq<Record>, nat), Error>
  {
    var (done, left) :- h;
    var (r, rest) :- HydrateRecord(d, inputs, left);
    Ok((done + [r], rest))
  }

  lemma {:induction false} HydrateNext(rs: seq<Record>, inputs: seq<Input>, n: nat)
    requires 0 < n <= |rs|
    ensures HydrateFrom(rs[..n], inputs, WORK_LIMIT) ==
            Hydrated(HydrateFrom(rs[..n - 1], inputs, WORK_LIMIT), rs[n - 1], inputs)
  {
    assert rs[..n][..n - 1] == rs[..n - 1];
  }

  lemma {:induction false} HydratedMore(h: Result<(seq<Record>, nat), Error>, d: Record, inputs: seq<Input>,
                                        backs: seq<Option<Record>>, before: nat, cost: nat, n: nat)
    requires n < |backs| && HydratedTo(h, backs, before, n)
    requires h.Ok? ==> HydratesWith(d, inputs, h.value.1, backs[n], cost)
    ensures HydratedTo(Hydrated(h, d, inputs), backs, before + cost, n + 1)
  {
  }

  lemma {:induction false} HydratedPrefix(
    own: seq<Record>, derived: seq<Record>, inputs: seq<Input>, backs: seq<Option<Record>>, n: nat)
    requires AllHydrate(own, derived, inputs, backs) && n <= |derived|
    ensures HydratedTo(HydrateFrom(derived[..n], inputs, WORK_LIMIT), backs, Cost(own[..n], inputs), n)
  {
    if n > 0 {
      HydratedPrefix(own, derived, inputs, backs, n - 1);
      HydrateNext(derived, inputs, n);
      assert own[..n][..n - 1] == own[..n - 1];
      var h := HydrateFrom(derived[..n - 1], inputs, WORK_LIMIT);
      assert HydrateAt(own, derived, inputs, backs, n - 1);
      HydratedMore(h, derived[n - 1], inputs, backs, Cost(own[..n - 1], inputs), CostOf(own[n - 1], inputs), n - 1);
    }
  }

  ghost predicate AllRestored(c: Codec, own: seq<Record>, restored: seq<Record>) {
    |restored| == |own| && forall i: nat :: i < |own| ==> RestoredAt(c, own, restored, i)
  }

  ghost predicate RestoredAt(c: Codec, own: seq<Record>, restored: seq<Record>, i: nat)
    requires i < |own| == |restored|
  {
    SameRecord(c, own[i], restored[i])
  }

  ghost function Backs(own: seq<Record>, derived: seq<Record>, inputs: seq<Input>): (b: seq<Option<Record>>)
    requires |own| == |derived|
    ensures |b| == |own| && forall i :: 0 <= i < |own| ==> b[i] == BackIf(own[i], derived[i], inputs)
  {
    seq(|own|, i requires 0 <= i < |own| => BackIf(own[i], derived[i], inputs))
  }

  /** The last leg for one record. */
  ghost predicate ReturnsAt(c: Codec, own: seq<Record>, inputs: seq<Input>, derived: seq<Record>, at: seq<Place>, i: nat)
    requires i < |own| == |derived| == |at|
  {
    var b := BackIf(own[i], derived[i], inputs);
    (Restorable(c, own[i], inputs) <==> b.Some? && Rescan(c, b.value, at[i]).Some?) &&
    (Restorable(c, own[i], inputs) ==> SameRecord(c, own[i], Rescan(c, b.value, at[i]).value)) &&
    (b.Some? ==> b.value.Get(RecordId) == own[i].Get(RecordId))
  }

  lemma {:induction false} ReturnsAll(
    c: Codec, own: seq<Record>, inputs: seq<Input>, derived: seq<Record>, at: seq<Place>)
    requires Setting(c, own, inputs) && AllReadBack(c, own, inputs, derived) && |at| == |own|
    ensures forall i: nat :: i < |own| ==> ReturnsAt(c, own, inputs, derived, at, i)
    ensures AllHydrate(own, derived, inputs, Backs(own, derived, inputs))
  {
    forall i: nat | i < |own|
      ensures ReturnsAt(c, own, inputs, derived, at, i)
      ensures HydrateAt(own, derived, inputs, Backs(own, derived, inputs), i)
    {
      assert ReadBackAt(c, own, inputs, derived, i);
      BackExact(c, own[i], inputs, derived[i], at[i]);
      BackId(c, own[i], inputs, derived[i]);
      HydratedBack(c, own[i], inputs, derived[i]);
    }
  }

  lemma {:induction false} BackId(c: Codec, own: Record, inputs: seq<Input>, d: Record)
    requires ReadBack(c, own, inputs, d)
    ensures Back(own, d, inputs).Get(RecordId) == own.Get(RecordId)
  {
  }

  /** Materializing what deduplication wrote succeeds exactly under its conditions. */
  lemma {:induction false} MaterializeExact(
    c: Codec, own: seq<Record>, inputs: seq<Input>, derived: seq<Record>, at: seq<Place>)
    requires Setting(c, own, inputs) && AllReadBack(c, own, inputs, derived) && UniqueIds(own) && |at| == |own|
    ensures Materialized(c, derived, inputs, at).Some? <==> AllRestorable(c, own, inputs) && Cost(own, inputs) <= WORK_LIMIT
    ensures Materialized(c, derived, inputs, at).Some? ==>
              AllRestored(c, own, Materialized(c, derived, inputs, at).value)
  {
    ReturnsAll(c, own, inputs, derived, at);
    MaterializeWhen(c, own, inputs, derived, at);
  }

  lemma {:induction false} MaterializeWhen(
    c: Codec, own: seq<Record>, inputs: seq<Input>, derived: seq<Record>, at: seq<Place>)
    requires |at| == |own| == |derived| && UniqueIds(own)
    requires forall i: nat :: i < |own| ==> ReturnsAt(c, own, inputs, derived, at, i)
    requires AllHydrate(own, derived, inputs, Backs(own, derived, inputs))
    ensures Materialized(c, derived, inputs, at).Some? <==> AllRestorable(c, own, inputs) && Cost(own, inputs) <= WORK_LIMIT
    ensures Materialized(c, derived, inputs, at).Some? ==>
              AllRestored(c, own, Materialized(c, derived, inputs, at).value)
  {
    var backs := Backs(own, derived, inputs);
    HydratedPrefix(own, derived, inputs, backs, |derived|);
    assert derived[..|derived|] == derived && own[..|own|] == own;
    if Cost(own, inputs) <= WORK_LIMIT {
      WrittenWhen(c, own, inputs, derived, at, backs);
    }
  }

  lemma {:induction false} WrittenWhen(
    c: Codec, own: seq<Record>, inputs: seq<Input>, derived: seq<Record>, at: seq<Place>, backs: seq<Option<Record>>)
    requires |at| == |own| == |derived| && UniqueIds(own) && backs == Backs(own, derived, inputs)
    requires forall i: nat :: i < |own| ==> ReturnsAt(c, own, inputs, derived, at, i)
    requires Cost(own, inputs) <= WORK_LIMIT
    requires HydratedTo(HydrateFrom(derived, inputs, WORK_LIMIT), backs, Cost(own, inputs), |own|)
    ensures Materialized(c, derived, inputs, at).Some? <==> AllRestorable(c, own, inputs)
    ensures Materialized(c, derived, inputs, at).Some? ==>
              AllRestored(c, own, Materialized(c, derived, inputs, at).value)
  {
    var scan := (r: Record, p: Place) => Rescan(c, r, p);
    var ok := seq(|own|, i requires 0 <= i < |own| => Restorable(c, own[i], inputs));
    var h := HydrateAll(derived, inputs);
    forall i | 0 <= i < |own|
      ensures ok[i] <==> backs[i].Some? && scan(backs[i].value, at[i]).Some?
      ensures backs[i].Some? ==> backs[i].value.Get(RecordId) == own[i].Get(RecordId)
    {
      assert ReturnsAt(c, own, inputs, derived, at, i);
    }
    StageExact(scan, own, if h.Ok? then Some(h.value) else None, at, backs, ok);
    var m := Materialized(c, derived, inputs, at);
    if m.Some? {
      forall i: nat | i < |own|
        ensures RestoredAt(c, own, m.value, i)
      {
        assert ReturnsAt(c, own, inputs, derived, at, i) && ok[i] && Some(m.value[i]) == scan(backs[i].value, at[i]);
      }
    }
  }

  /** Deduplicating, writing, loading, materializing, writing and loading again succeeds, and then
      gives every record back, if and only if record ids are unique, something can be converted,
      every kept record can be written and read back, every converted record has a stable target
      that stands alone in an input authorized once, and an HTTP head for its body, and the
      search for the targets stays within the work limit. */
  lemma {:induction false} DeduplicateThenMaterialize(
    c: Codec, own: seq<Record>, inputs: seq<Input>, at: seq<Place>, again: seq<Place>)
    requires Setting(c, own, inputs) && |at| == |again| == |own|
    ensures ThereAndBack(c, own, inputs, at, again).Some? <==>
            UniqueIds(own) && !NoneMatch(own, inputs) && AllDedupable(c, own, inputs) &&
            AllRestorable(c, own, inputs) && Cost(own, inputs) <= WORK_LIMIT
    ensures ThereAndBack(c, own, inputs, at, again).Some? ==>
              AllRestored(c, own, ThereAndBack(c, own, inputs, at, again).value)
  {
    DeduplicateExact(c, own, inputs, at);
    var d := Deduplicated(c, own, inputs, at);
    if d.Some? {
      MaterializeExact(c, own, inputs, d.value, again);
    }
  }

  /** When no input repeats a record id, every target stands alone and finding them again is
      within the work limit. */
  lemma {:induction false} UniqueIdsSuffice(own: seq<Record>, inputs: seq<Input>)
    requires |own| <= MAX_ITEMS && forall k :: 0 <= k < |inputs| ==> UniqueIds(inputs[k].records)
    requires forall i :: 0 <= i < |own| ==> DedupeRecord(own[i], inputs).Ok?
    ensures Cost(own, inputs) <= |own| <= WORK_LIMIT
    ensures forall i :: 0 <= i < |own| && Match(own[i], inputs).Some? ==> Alone(own[i], Match(own[i], inputs).value)
  {
    if own != [] {
      var n := |own| - 1;
      UniqueIdsSuffice(own[..n], inputs);
      assert own == own[..n] + [own[n]];
      UniqueIdSuffices(own[n], inputs);
    }
  }

  lemma {:induction false} UniqueIdSuffices(own: Record, inputs: seq<Input>)
    requires DedupeRecord(own, inputs).Ok? && forall k :: 0 <= k < |inputs| ==> UniqueIds(inputs[k].records)
    ensures CostOf(own, inputs) <= 1
    ensures Match(own, inputs).Some? ==> Alone(own, Match(own, inputs).value)
  {
    match Match(own, inputs) {
      case None =>
      case Some(cn) =>
        var rs := cn.input.records;
        assert UniqueIds(rs);
        WithIdUnique(rs, TargetOf(cn).Get(RecordId), cn.at, |rs|);
    }
  }

  /** Loading the deduplicated archive resolves nothing inside it: revisits that are bound to a
      dependency wait for hydration. */
  lemma {:induction false} BoundRevisitsWait(
    c: Codec, own: seq<Record>, inputs: seq<Input>, derived: seq<Record>, loaded: seq<Record>)
    requires Setting(c, own, inputs) && AllReadBack(c, own, inputs, derived) && Sound(derived, loaded)
    ensures loaded == derived
  {
    forall i: nat | i < |derived|
      ensures loaded[i] == derived[i]
    {
      assert ReadBackAt(c, own, inputs, derived, i);
      NeverEligible(c, own[i], inputs, derived[i]);
      IneligibleStays(derived, loaded, i);
    }
  }

  lemma {:induction false} NeverEligible(c: Codec, own: Record, inputs: seq<Input>, d: Record)
    requires AsHydrated(c, own) && ReadBack(c, own, inputs, d)
    requires forall k :: 0 <= k < |inputs| ==> InputOk(c, inputs[k])
    ensures !Eligible(d)
  {
    var m := Match(own, inputs);
    if m.Some? {
      assert InputOk(c, m.value.input);
    }
  }
}
