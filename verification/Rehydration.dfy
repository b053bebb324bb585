/** Cross-archive deduplication and its inverse. Deduplication turns a response whose
    payload an authorized input already holds into a `revisit` bound to that input;
    hydration turns revisits back into responses. What each does to a record is a
    function here. */
module Rehydration {
  import opened Wrappers
  import opened Archives
  import opened LocalRevisits
  import opened Characters
  import opened Decimals

  const MAX_ITEMS := 50_000

  /** An authorized, loaded dependency. */
  datatype Input = Input(id: string, sha256: string, records: seq<Record>)

  // ---- hydrate ----

  predicate IsSegmented(r: Record) {
    r.Kind() == "continuation" || exists k :: k in r.headers && k.Segment?
  }

  const REVISIT_HEADERS: set<Header> :=
    {Profile, RefersTo, RefersToUri, RefersToDate, DependencySha, DependencyId, DependencyLocation, Truncated}

  function AsResponse(r: Record): Record {
    r.(headers := r.headers[WarcType := "response"] - REVISIT_HEADERS)
  }

  predicate Skipped(record: Record, input: Input) {
    record.Get(DependencySha) != "" && input.sha256 != record.Get(DependencySha)
  }

  /** The matching capture of every input that may hold it, and the work left. */
  function Candidates(record: Record, inputs: seq<Input>, work: nat): Result<(seq<Record>, nat), Error> {
    if inputs == [] then Ok(([], work))
    else
      var (found, left) :- Candidates(record, inputs[..|inputs| - 1], work);
      AddCandidate(record, inputs[|inputs| - 1], found, left)
  }

  /** The target in one more input, if there is one. */
  function AddCandidate(record: Record, input: Input, found: seq<Record>, left: nat): Result<(seq<Record>, nat), Error> {
    if Skipped(record, input) then Ok((found, left))
    else if |Named(record, input.records)| > left then Err(WorkLimit)
    else
      var rest := left - |Named(record, input.records)|;
      match Target(record, input.records)
      case None => Ok((found, rest))
      case Some(t) => Ok((found + [input.records[t]], rest))
  }

  function FilledExternal(r: Record, target: Record): Record {
    Filled(r, target).(http := if r.http.NoHead? then target.http else r.http)
  }

  function HydrateRecord(r: Record, inputs: seq<Input>, work: nat): Result<(Record, nat), Error> {
    if IsSegmented(r) then Err(Segmented)
    else if r.Kind() != "revisit" then Ok((r, work))
    else if r.resolved then Ok((AsResponse(r), work))
    else
      var (found, left) :- Candidates(r, inputs, work);
      if |found| != 1 then Err(Unresolvable) else Ok((AsResponse(FilledExternal(r, found[0])), left))
  }

  function HydrateFrom(rs: seq<Record>, inputs: seq<Input>, work: nat)
    : (h: Result<(seq<Record>, nat), Error>)
    ensures h.Ok? ==> |h.value.0| == |rs|
  {
    if rs == [] then Ok(([], work))
    else
      var (done, left) :- HydrateFrom(rs[..|rs| - 1], inputs, work);
      var (r, rest) :- HydrateRecord(rs[|rs| - 1], inputs, left);
      Ok((done + [r], rest))
  }

  function HydrateAll(rs: seq<Record>, inputs: seq<Input>): (h: Result<seq<Record>, Error>)
    ensures h.Ok? ==> |h.value| == |rs|
  {
    var (done, _) :- HydrateFrom(rs, inputs, WORK_LIMIT);
    Ok(done)
  }

  // ---- deduplicate ----

  datatype Key = Key(digest: string, mime: string, transport: string)

  function KeyOf(r: Record): Key {
    Key(r.payloadDigest, r.mime, r.TransportKey())
  }

  predicate Offers(r: Record, key: Key) {
    r.IsCapture() && r.payloadLength > 0 && KeyOf(r) == key
  }

  datatype Canonical = Canonical(input: Input, at: nat)

  /** The first record of one input with the given payload key. */
  function FirstIn(rs: seq<Record>, key: Key): (at: Option<nat>)
    ensures at.Some? ==> at.value < |rs| && Offers(rs[at.value], key)
  {
    if rs == [] then None
    else
      match FirstIn(rs[..|rs| - 1], key)
      case Some(at) => Some(at)
      case None => if Offers(rs[|rs| - 1], key) then Some(|rs| - 1) else None
  }

  /** The first capture of the inputs, in their order, with the given payload key. */
  function FirstPayload(inputs: seq<Input>, key: Key): (c: Option<Canonical>)
    ensures c.Some? ==> c.value.input in inputs && c.value.at < |c.value.input.records| &&
                        Offers(c.value.input.records[c.value.at], key)
  {
    if inputs == [] then None
    else
      match FirstPayload(inputs[..|inputs| - 1], key)
      case Some(c) => Some(c)
      case None =>
        match FirstIn(inputs[|inputs| - 1].records, key)
        case Some(at) => Some(Canonical(inputs[|inputs| - 1], at))
        case None => None
  }

  const REVISIT_PROFILE := "http://netpreserve.org/warc/1.1/revisit/identical-payload-digest"

  function ToRevisit(r: Record, target: Record): Result<Record, Error> {
    if target.Get(RecordId) == "" || target.Get(Date) == "" then Err(UnstableTarget)
    else Ok(r.(
      headers := r.headers[WarcType := "revisit"][Profile := REVISIT_PROFILE]
        [RefersTo := target.Get(RecordId)][RefersToUri := target.Get(TargetUri)]
        [RefersToDate := target.Get(Date)][PayloadDigest := target.payloadDigest],
      payloadDigest := target.payloadDigest,
      resolved := false))
  }

  function Match(r: Record, inputs: seq<Input>): Option<Canonical> {
    if r.Kind() != "response" || r.payloadLength == 0 then None else FirstPayload(inputs, KeyOf(r))
  }

  function Bound(r: Record, c: Canonical): (b: Result<Record, Error>)
    requires c.at < |c.input.records|
  {
    var target := c.input.records[c.at];
    var v :- ToRevisit(r, target);
    Ok(v.(headers := v.headers[DependencyId := c.input.id][DependencySha := c.input.sha256]
                              [DependencyLocation := target.Location()]))
  }

  function DedupeRecord(r: Record, inputs: seq<Input>): Result<Record, Error> {
    match Match(r, inputs)
    case None => Ok(r)
    case Some(c) => Bound(r, c)
  }

  function DedupeFrom(rs: seq<Record>, inputs: seq<Input>): (d: Result<seq<Record>, Error>)
    ensures d.Ok? ==> |d.value| == |rs|
    ensures d.Ok? ==> forall i :: 0 <= i < |rs| ==> DedupeRecord(rs[i], inputs) == Ok(d.value[i])
  {
    if rs == [] then Ok([])
    else
      var done :- DedupeFrom(rs[..|rs| - 1], inputs);
      var r :- DedupeRecord(rs[|rs| - 1], inputs);
      Ok(done + [r])
  }

  /** Deduplication that converts nothing is refused. */
  ghost predicate NoneMatch(rs: seq<Record>, inputs: seq<Input>) {
    forall i :: 0 <= i < |rs| ==> Match(rs[i], inputs).None?
  }

  // ---- what hydration means ----

  /** The revisit is not bound to another file. */
  predicate MayHold(record: Record, input: Input) {
    record.Get(DependencySha) == "" || record.Get(DependencySha) == input.sha256
  }

  /** Of all inputs that may hold it, this one alone has one record that is what the revisit says. */
  ghost predicate OnlyIn(record: Record, inputs: seq<Input>, k: nat, t: nat) {
    k < |inputs| && MayHold(record, inputs[k]) && OnlyNamed(record, inputs[k].records, t) &&
    forall j: nat, u: nat :: j < |inputs| && j != k && MayHold(record, inputs[j]) ==> !OnlyNamed(record, inputs[j].records, u)
  }

  /** The headers that only a revisit has. */
  predicate OfRevisit(k: Header) {
    k.Profile? || k.RefersTo? || k.RefersToUri? || k.RefersToDate? ||
    k.DependencySha? || k.DependencyId? || k.DependencyLocation? || k.Truncated?
  }

  /** A response with the headers the record had, but for what makes a revisit. */
  ghost predicate ResponseHeaders(was: Record, r: Record) {
    r.Get(WarcType) == "response" &&
    forall k: Header :: k != WarcType ==>
      (k in r.headers <==> k in was.headers && !OfRevisit(k)) && (k in r.headers ==> r.headers[k] == was.headers[k])
  }

  /** Whole records only; revisits are responses now, those without a payload with that of the
      capture they name, and with its HTTP head if they had none. */
  ghost predicate HydratedAsSaid(was: Record, r: Record, inputs: seq<Input>) {
    was.Get(WarcType) != "continuation" && (forall k :: k in was.headers ==> !k.Segment?) &&
    if was.Get(WarcType) != "revisit" then r == was
    else
      ResponseHeaders(was, r) &&
      if was.resolved then r.(headers := was.headers) == was
      else exists k, t :: FilledIn(was, r, inputs, k, t)
  }

  ghost predicate FilledIn(was: Record, r: Record, inputs: seq<Input>, k: nat, t: nat) {
    OnlyIn(was, inputs, k, t) && TakesPayload(was, r, inputs[k].records[t]) &&
    r.http == if was.http.Head? then was.http else inputs[k].records[t].http
  }

  predicate HasTarget(record: Record, input: Input) {
    !Skipped(record, input) && Target(record, input.records).Some?
  }

  /** The first `n` inputs whose target is a candidate, in order. */
  ghost predicate Holders(record: Record, inputs: seq<Input>, n: nat, ks: seq<nat>)
    requires n <= |inputs|
  {
    (forall k :: k in ks <==> 0 <= k < n && HasTarget(record, inputs[k])) &&
    forall i, j :: 0 <= i < j < |ks| ==> ks[i] < ks[j]
  }

  ghost predicate CandidatesOf(record: Record, inputs: seq<Input>, found: seq<Record>, ks: seq<nat>) {
    |found| == |ks| && forall i :: 0 <= i < |ks| ==> CandidateAt(record, inputs, ks[i], found[i])
  }

  predicate CandidateAt(record: Record, inputs: seq<Input>, k: nat, x: Record) {
    k < |inputs| && HasTarget(record, inputs[k]) && x == inputs[k].records[Target(record, inputs[k].records).value]
  }

  lemma {:induction false} HoldersMore(record: Record, inputs: seq<Input>, n: nat, ks: seq<nat>)
    requires n < |inputs| && Holders(record, inputs, n, ks)
    ensures Holders(record, inputs, n + 1, if HasTarget(record, inputs[n]) then ks + [n] else ks)
  {
    assert forall i :: 0 <= i < |ks| ==> ks[i] in ks;
  }

  lemma {:induction false} CandidatesMore(record: Record, inputs: seq<Input>, found: seq<Record>, ks: seq<nat>, k: nat, x: Record)
    requires CandidatesOf(record, inputs, found, ks) && CandidateAt(record, inputs, k, x)
    ensures CandidatesOf(record, inputs, found + [x], ks + [k])
  {
  }

  lemma {:induction false} CandidatesAt(record: Record, inputs: seq<Input>, n: nat, work: nat) returns (ks: seq<nat>)
    requires n <= |inputs| && Candidates(record, inputs[..n], work).Ok?
    ensures Holders(record, inputs, n, ks) && CandidatesOf(record, inputs, Candidates(record, inputs[..n], work).value.0, ks)
  {
    ks := [];
    if n > 0 {
      assert inputs[..n][..n - 1] == inputs[..n - 1];
      ks := CandidatesAt(record, inputs, n - 1, work);
      var (found, left) := Candidates(record, inputs[..n - 1], work).value;
      HoldersMore(record, inputs, n - 1, ks);
      if HasTarget(record, inputs[n - 1]) {
        var x := inputs[n - 1].records[Target(record, inputs[n - 1].records).value];
        CandidatesMore(record, inputs, found, ks, n - 1, x);
        ks := ks + [n - 1];
      }
    }
  }

  lemma {:induction false} OneCandidate(record: Record, inputs: seq<Input>, work: nat) returns (k: nat, t: nat)
    requires Candidates(record, inputs, work).Ok? && |Candidates(record, inputs, work).value.0| == 1
    ensures OnlyIn(record, inputs, k, t) && Candidates(record, inputs, work).value.0[0] == inputs[k].records[t]
  {
    assert inputs[..|inputs|] == inputs;
    var ks := CandidatesAt(record, inputs, |inputs|, work);
    k := ks[0];
    assert CandidateAt(record, inputs, ks[0], Candidates(record, inputs, work).value.0[0]);
    t := Target(record, inputs[k].records).value;
    TargetMeans(record, inputs[k].records, t);
    forall j: nat, u: nat | j < |inputs| && j != k && MayHold(record, inputs[j])
      ensures !OnlyNamed(record, inputs[j].records, u)
    {
      TargetMeans(record, inputs[j].records, u);
      assert HasTarget(record, inputs[j]) <==> j in ks;
    }
  }

  lemma {:induction false} ResponseMeans(was: Record)
    ensures ResponseHeaders(was, AsResponse(was))
  {
  }

  lemma {:induction false} HydrationMeans(was: Record, inputs: seq<Input>, work: nat)
    requires HydrateRecord(was, inputs, work).Ok?
    ensures HydratedAsSaid(was, HydrateRecord(was, inputs, work).value.0, inputs)
  {
    var r := HydrateRecord(was, inputs, work).value.0;
    if was.Kind() == "revisit" {
      ResponseMeans(was);
      if !was.resolved {
        var k, t := OneCandidate(was, inputs, work);
        assert r == AsResponse(FilledExternal(was, inputs[k].records[t]));
        assert FilledIn(was, r, inputs, k, t);
      }
    }
  }

  ghost predicate AllHydratedAsSaid(before: seq<Record>, now: seq<Record>, inputs: seq<Input>) {
    |now| == |before| && forall i :: 0 <= i < |now| ==> HydratedAsSaid(before[i], now[i], inputs)
  }

  /** Each record is hydrated with what work is left. */
  lemma {:induction false} HydratedEach(rs: seq<Record>, inputs: seq<Input>, work: nat, i: nat) returns (left: nat)
    requires HydrateFrom(rs, inputs, work).Ok? && i < |rs|
    ensures HydrateRecord(rs[i], inputs, left).Ok?
    ensures HydrateRecord(rs[i], inputs, left).value.0 == HydrateFrom(rs, inputs, work).value.0[i]
  {
    var n := |rs| - 1;
    if i == n {
      left := HydrateFrom(rs[..n], inputs, work).value.1;
    } else {
      left := HydratedEach(rs[..n], inputs, work, i);
    }
  }

  lemma {:induction false} HydratedMean(rs: seq<Record>, inputs: seq<Input>, work: nat)
    requires HydrateFrom(rs, inputs, work).Ok?
    ensures AllHydratedAsSaid(rs, HydrateFrom(rs, inputs, work).value.0, inputs)
  {
    var now := HydrateFrom(rs, inputs, work).value.0;
    forall i | 0 <= i < |rs|
      ensures HydratedAsSaid(rs[i], now[i], inputs)
    {
      var left := HydratedEach(rs, inputs, work, i);
      HydrationMeans(rs[i], inputs, left);
    }
  }

  // ---- what deduplication means ----

  /** A response with a body. */
  predicate MayConvert(r: Record) {
    r.Get(WarcType) == "response" && r.payloadLength > 0
  }

  /** A capture with the same payload, of the same type and in the same transfer coding. */
  predicate SamePayload(r: Record, x: Record) {
    (x.Get(WarcType) == "response" || x.Get(WarcType) == "resource") && x.payloadLength > 0 &&
    x.payloadDigest == r.payloadDigest && x.mime == r.mime && EqualIgnoringCase(CodingText(x.http), CodingText(r.http))
  }

  predicate SameAt(r: Record, inputs: seq<Input>, k: nat, at: nat) {
    k < |inputs| && at < |inputs[k].records| && SamePayload(r, inputs[k].records[at])
  }

  /** The first of them, input by input. */
  ghost predicate FirstSame(r: Record, inputs: seq<Input>, k: nat, at: nat) {
    SameAt(r, inputs, k, at) &&
    forall j: nat, u: nat :: SameAt(r, inputs, j, u) ==> k < j || (k == j && at <= u)
  }

  /** A revisit of the record `x` of this input, with its own HTTP head and its other headers. */
  ghost predicate ConvertedTo(was: Record, r: Record, input: Input, x: Record) {
    x.Get(RecordId) != "" && x.Get(Date) != "" && !r.resolved && r.http == was.http && r.source == was.source &&
    r.Get(WarcType) == "revisit" && r.Get(RefersTo) == x.Get(RecordId) && r.Get(RefersToUri) == x.Get(TargetUri) &&
    r.Get(RefersToDate) == x.Get(Date) && r.Get(PayloadDigest) == x.payloadDigest == r.payloadDigest &&
    r.Get(Profile) == "http://netpreserve.org/warc/1.1/revisit/identical-payload-digest" &&
    r.Get(DependencyId) == input.id && r.Get(DependencySha) == input.sha256 &&
    r.Get(DependencyLocation) == x.member + ":" + Decimal(x.offset) + ":" + Decimal(x.length) &&
    forall k: Header :: k.Truncated? || !(OfRevisit(k) || k.WarcType? || k.PayloadDigest?) ==> r.Get(k) == was.Get(k)
  }

  ghost predicate DedupedAsSaid(was: Record, r: Record, inputs: seq<Input>) {
    if Shared(was, inputs) then
      exists k: nat, at: nat :: FirstSame(was, inputs, k, at) && ConvertedTo(was, r, inputs[k], inputs[k].records[at])
    else r == was
  }

  lemma {:induction false} OffersMeans(x: Record, r: Record)
    ensures Offers(x, KeyOf(r)) <==> SamePayload(r, x)
  {
    assert LowerAll("") == "";
  }

  lemma {:induction false} FirstInMeans(rs: seq<Record>, key: Key)
    ensures FirstIn(rs, key).None? ==> forall u :: 0 <= u < |rs| ==> !Offers(rs[u], key)
    ensures FirstIn(rs, key).Some? ==> forall u :: 0 <= u < FirstIn(rs, key).value ==> !Offers(rs[u], key)
  {
    if rs != [] {
      FirstInMeans(rs[..|rs| - 1], key);
    }
  }

  ghost predicate FirstOffer(inputs: seq<Input>, key: Key, k: nat, at: nat) {
    k < |inputs| && at < |inputs[k].records| && Offers(inputs[k].records[at], key) &&
    forall j: nat, u: nat :: j < |inputs| && u < |inputs[j].records| && Offers(inputs[j].records[u], key) ==>
      k < j || (k == j && at <= u)
  }

  lemma {:induction false} FirstPayloadMeans(inputs: seq<Input>, key: Key) returns (k: nat)
    ensures var c := FirstPayload(inputs, key);
            if c.None? then forall j: nat, u: nat :: j < |inputs| && u < |inputs[j].records| ==> !Offers(inputs[j].records[u], key)
            else FirstOffer(inputs, key, k, c.value.at) && c.value.input == inputs[k]
  {
    k := 0;
    if inputs != [] {
      var n := |inputs| - 1;
      k := FirstPayloadMeans(inputs[..n], key);
      FirstInMeans(inputs[n].records, key);
      if FirstPayload(inputs[..n], key).None? {
        k := n;
      }
    }
  }

  lemma {:induction false} MatchFirst(r: Record, inputs: seq<Input>) returns (k: nat)
    ensures var m := Match(r, inputs);
            if m.None? then !Shared(r, inputs)
            else Shared(r, inputs) && FirstSame(r, inputs, k, m.value.at) && m.value.input == inputs[k]
  {
    k := FirstPayloadMeans(inputs, KeyOf(r));
    forall j: nat, u: nat | j < |inputs| && u < |inputs[j].records|
      ensures Offers(inputs[j].records[u], KeyOf(r)) <==> SamePayload(r, inputs[j].records[u])
    {
      OffersMeans(inputs[j].records[u], r);
    }
    var m := Match(r, inputs);
    if m.Some? {
      assert SameAt(r, inputs, k, m.value.at);
    }
  }

  lemma {:induction false} BoundMeans(r: Record, c: Canonical)
    requires c.at < |c.input.records| && Bound(r, c).Ok?
    ensures ConvertedTo(r, Bound(r, c).value, c.input, c.input.records[c.at])
  {
  }

  lemma {:induction false} DedupingMeans(r: Record, inputs: seq<Input>)
    requires DedupeRecord(r, inputs).Ok?
    ensures DedupedAsSaid(r, DedupeRecord(r, inputs).value, inputs)
  {
    var k := MatchFirst(r, inputs);
    var m := Match(r, inputs);
    if m.Some? {
      BoundMeans(r, m.value);
      assert SameAt(r, inputs, k, m.value.at);
    }
  }

  ghost predicate AllDedupedAsSaid(before: seq<Record>, now: seq<Record>, inputs: seq<Input>) {
    |now| == |before| && forall i :: 0 <= i < |now| ==> DedupedAsSaid(before[i], now[i], inputs)
  }

  lemma {:induction false} DedupedMean(rs: seq<Record>, inputs: seq<Input>)
    requires DedupeFrom(rs, inputs).Ok?
    ensures AllDedupedAsSaid(rs, DedupeFrom(rs, inputs).value, inputs)
  {
    forall i | 0 <= i < |rs|
      ensures DedupedAsSaid(rs[i], DedupeFrom(rs, inputs).value[i], inputs)
    {
      DedupingMeans(rs[i], inputs);
    }
  }

  /** No response has a capture of its payload in the inputs. */
  ghost predicate NothingShared(rs: seq<Record>, inputs: seq<Input>) {
    forall i :: 0 <= i < |rs| ==> !Shared(rs[i], inputs)
  }

  ghost predicate Shared(r: Record, inputs: seq<Input>) {
    MayConvert(r) && exists k, at :: SameAt(r, inputs, k, at)
  }

  lemma {:induction false} SharedMeans(r: Record, inputs: seq<Input>)
    ensures Match(r, inputs).Some? <==> Shared(r, inputs)
  {
    var k := MatchFirst(r, inputs);
  }

  lemma {:induction false} NoneMeans(rs: seq<Record>, inputs: seq<Input>)
    ensures NoneMatch(rs, inputs) <==> NothingShared(rs, inputs)
  {
    forall i | 0 <= i < |rs|
      ensures Match(rs[i], inputs).Some? <==> Shared(rs[i], inputs)
    {
      SharedMeans(rs[i], inputs);
    }
  }

  /** The inputs that converted records are bound to, by id, each with its hash. */
  ghost predicate BoundInputs(before: seq<Record>, now: seq<Record>, inputs: seq<Input>, used: map<string, string>) {
    |now| == |before| &&
    (forall i :: 0 <= i < |now| && Shared(before[i], inputs) ==> now[i].Get(DependencyId) in used) &&
    forall id :: id in used ==> exists i :: 0 <= i < |now| && BoundTo(before[i], now[i], inputs, id, used[id])
  }

  ghost predicate BoundTo(was: Record, r: Record, inputs: seq<Input>, id: string, sha256: string) {
    Shared(was, inputs) && r.Get(DependencyId) == id && r.Get(DependencySha) == sha256
  }
}
