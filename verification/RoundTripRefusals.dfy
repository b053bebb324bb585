/** Archives for which the way there and back is refused, at concrete inputs. The hash, coding
    and HTTP head used here are as small as the laws on them allow. */
module RoundTripRefusals {
  import opened Wrappers
  import opened Archives
  import opened Characters
  import opened LocalRevisits
  import opened Rehydration
  import opened Rewriting
  import opened RoundTrip
  import Digest

  function SmallSha(x: Bytes): string {
    "sha256:!" + x
  }

  function SmallDechunk(b: Bytes): Option<Bytes> {
    if b != "" && b[0] == '#' then Some(b[1..]) else None
  }

  const PLAIN := Head("H", 200, "text/html", None)
  const CODED := Head("C", 200, "text/html", Some("chunked"))
  /** The header is there and says nothing. */
  const EMPTY := Head("E", 200, "text/html", Some(""))

  function SmallSplit(b: Bytes): Option<(HttpHead, Bytes)> {
    if b == "" then None
    else if b[0] == 'H' then Some((PLAIN, b[1..]))
    else if b[0] == 'C' then Some((CODED, b[1..]))
    else if b[0] == 'E' then Some((EMPTY, b[1..]))
    else None
  }

  const SMALL := Codec(SmallSha, SmallDechunk, SmallSplit, (h: map<Header, string>) => true)

  /** A normalized digest has hexadecimal digits after its prefix. */
  lemma {:induction false} NormalForm(value: string)
    requires Digest.Normalize(value).Ok?
    ensures |Digest.Normalize(value).value| > 7 && Digest.Normalize(value).value[7] != '!'
  {
    var encoded := Digest.SplitColon(value).value.1;
    if |encoded| == 64 && forall i :: 0 <= i < 64 ==> IsHexDigit(encoded[i]) {
      assert Digest.Normalize(value).value[7] == ToLower(encoded[0]);
    } else {
      var bytes := Digest.Decoded(Digest.TrimPadding(encoded)).value;
      assert Digest.Normalize(value).value[7] == Digest.Hex(bytes)[0];
    }
  }

  lemma {:induction false} SmallHashes(x: Bytes, y: Bytes)
    ensures Agrees(SmallSha(x), SmallSha(y)) ==> x == y
  {
    assert SmallSha(x)[8..] == x && SmallSha(y)[8..] == y;
    if Digest.Normalize(SmallSha(x)).Ok? {
      NormalForm(SmallSha(x));
    }
  }

  lemma {:induction false} SmallHeads(h: HttpHead)
    requires h == PLAIN || h == CODED || h == EMPTY
    ensures IsHead(SMALL, h)
  {
    forall b
      ensures SMALL.split(h.raw + b) == Some((h, b))
    {
      assert (h.raw + b)[1..] == b;
    }
  }

  lemma {:induction false} SmallIsLawful()
    ensures Lawful(SMALL)
  {
    forall x, y
      ensures Agrees(SMALL.sha(x), SMALL.sha(y)) ==> x == y
    {
      SmallHashes(x, y);
    }
    SmallHeads(PLAIN);
    SmallHeads(CODED);
    SmallHeads(EMPTY);
    forall b | SMALL.split(b).Some?
      ensures Splits(SMALL, b, SMALL.split(b).value.0, SMALL.split(b).value.1)
    {
      assert b == [b[0]] + b[1..];
    }
  }

  // ---- the archives ----

  function Capture(id: string, body: Bytes): Record {
    Record(map[WarcType := "response", RecordId := id, Date := "d"], PLAIN, 200, "text/html",
           SmallSha(body), |body|, "w", 0, 0, true, Some(body), None)
  }

  /** A revisit that repeats the record of some id. */
  function Repeat(h: HttpHead, id: string): Record {
    Record(map[WarcType := "revisit", RecordId := "c", RefersTo := id], h, HeadStatus(h), HeadMime(h),
           if h.NoHead? then SmallSha("") else "", 0, "w", 0, 0, false, Some(""), None)
  }

  /** Two captures and a revisit of the second, as scanned, resolved and hydrated. */
  function Source(h: HttpHead): (rs: seq<Record>)
    ensures |rs| == 3
  {
    [Capture("a", "x"), Capture("b", "y"), Repeat(h, "b")]
  }

  function Loaded(h: HttpHead): (rs: seq<Record>)
    ensures |rs| == 3
  {
    Source(h)[2 := Filled(Source(h)[2], Source(h)[1])]
  }

  function Hydrated(h: HttpHead): (rs: seq<Record>)
    ensures |rs| == 3
  {
    Loaded(h)[2 := AsResponse(Loaded(h)[2])]
  }

  /** No head, or one with an empty transfer coding. */
  predicate IsBare(h: HttpHead) {
    h == NoHead || h == EMPTY
  }

  function Authorized(id: string): Input {
    Input(id, "s", [Capture("t", "x")])
  }

  lemma {:induction false} CaptureScanned(id: string, body: Bytes)
    ensures AsScanned(SMALL, Capture(id, body)) && AsLoaded(SMALL, Capture(id, body))
    ensures !IsSegmented(Capture(id, body)) && AsHydrated(SMALL, Capture(id, body))
  {
    SmallHeads(PLAIN);
    assert DecodesUnder(SMALL, Capture(id, body), None);
  }

  lemma {:induction false} AuthorizedOk(id: string)
    ensures InputOk(SMALL, Authorized(id))
  {
    CaptureScanned("t", "x");
  }

  lemma {:induction false} RepeatScanned(h: HttpHead, id: string)
    requires IsBare(h)
    ensures AsScanned(SMALL, Repeat(h, id)) && !IsSegmented(Repeat(h, id)) && Eligible(Repeat(h, id))
  {
    if h == EMPTY {
      SmallHeads(EMPTY);
    }
  }

  lemma {:induction false} RepeatFits(h: HttpHead, id: string, body: Bytes)
    requires IsBare(h) && id != ""
    ensures RevisitMatches(Repeat(h, id), Capture(id, body))
  {
    assert LowerAll("") == "";
  }

  /** Local resolution fills the revisit in from the record it repeats. */
  lemma {:induction false} SourceLoads(h: HttpHead)
    requires IsBare(h)
    ensures AllScanned(SMALL, Source(h)) && Sound(Source(h), Loaded(h))
  {
    CaptureScanned("a", "x");
    CaptureScanned("b", "y");
    RepeatScanned(h, "b");
    RepeatFits(h, "b", "y");
    SoundAtStart(Source(h));
    SoundStep(Source(h), Source(h), 2, 1);
  }

  lemma {:induction false} SourceLoaded(h: HttpHead)
    requires IsBare(h)
    ensures AllLoaded(SMALL, Loaded(h))
  {
    SmallIsLawful();
    SourceLoads(h);
    AllLoadedIs(SMALL, Source(h), Loaded(h));
  }

  lemma {:induction false} HydratesOne(rs: seq<Record>, r: Record, inputs: seq<Input>, done: seq<Record>, h: Record)
    requires HydrateFrom(rs, inputs, WORK_LIMIT) == Ok((done, WORK_LIMIT))
    requires HydrateRecord(r, inputs, WORK_LIMIT) == Ok((h, WORK_LIMIT))
    ensures HydrateFrom(rs + [r], inputs, WORK_LIMIT) == Ok((done + [h], WORK_LIMIT))
  {
    assert (rs + [r])[..|rs|] == rs;
  }

  lemma {:induction false} SourceHydrates(h: HttpHead, inputs: seq<Input>)
    requires IsBare(h)
    ensures HydrateFrom(Loaded(h), inputs, WORK_LIMIT) == Ok((Hydrated(h), WORK_LIMIT))
  {
    var a, b := Capture("a", "x"), Capture("b", "y");
    CaptureScanned("a", "x");
    CaptureScanned("b", "y");
    RepeatScanned(h, "b");
    HydratesOne([], a, inputs, [], a);
    HydratesOne([] + [a], b, inputs, [] + [a], b);
    HydratesOne([] + [a] + [b], Loaded(h)[2], inputs, [] + [a] + [b], Hydrated(h)[2]);
    assert Loaded(h) == [] + [a] + [b] + [Loaded(h)[2]] && Hydrated(h) == [] + [a] + [b] + [Hydrated(h)[2]];
  }

  /** Only the payload of the authorized record is found. */
  lemma {:induction false} Matches(r: Record, input: string)
    requires r.Kind() == "response" && r.payloadLength != 0
    ensures Match(r, [Authorized(input)]) ==
            if KeyOf(r) == KeyOf(Capture("t", "x")) then Some(Canonical(Authorized(input), 0)) else None
  {
    var rs := Authorized(input).records;
    assert rs[..0] == [] && FirstIn([], KeyOf(r)) == None;
    assert FirstIn(rs, KeyOf(r)) == if KeyOf(r) == KeyOf(Capture("t", "x")) then Some(0) else None;
    assert [Authorized(input)][..0] == [];
  }

  lemma {:induction false} SourceSetting(h: HttpHead, inputs: seq<Input>)
    requires IsBare(h) && inputs == [Authorized("i")]
    ensures Setting(SMALL, Hydrated(h), inputs)
  {
    SmallIsLawful();
    SourceLoaded(h);
    AuthorizedOk("i");
    SourceHydrates(h, inputs);
    Start(SMALL, Loaded(h), inputs, Hydrated(h), WORK_LIMIT);
  }

  lemma {:induction false} Start(c: Codec, loaded: seq<Record>, inputs: seq<Input>, own: seq<Record>, left: nat)
    requires Lawful(c) && AllLoaded(c, loaded) && |inputs| == 1 && InputOk(c, inputs[0])
    requires HydrateFrom(loaded, inputs, WORK_LIMIT) == Ok((own, left))
    ensures Setting(c, own, inputs)
  {
    HydratedSetting(c, loaded, inputs, WORK_LIMIT);
  }

  lemma {:induction false} NotKeepable(h: HttpHead)
    requires IsBare(h)
    ensures !Dedupable(SMALL, Hydrated(h)[2], [Authorized("i")])
  {
    var r := Hydrated(h)[2];
    Matches(r, "i");
    assert SmallSha("x")[8] != SmallSha("y")[8];
    assert r.Body() == Some("y") && r.http == h;
    assert LowerAll("") == "";
  }

  lemma {:induction false} SomeMatch(h: HttpHead)
    requires IsBare(h)
    ensures UniqueIds(Hydrated(h)) && !NoneMatch(Hydrated(h), [Authorized("i")])
  {
    Matches(Hydrated(h)[0], "i");
  }

  lemma {:induction false} OneRefused(c: Codec, own: seq<Record>, inputs: seq<Input>, at: seq<Place>, i: nat)
    requires Setting(c, own, inputs) && |at| == |own| && i < |own| && !Dedupable(c, own[i], inputs)
    ensures Deduplicated(c, own, inputs, at).None?
  {
    DeduplicateExact(c, own, inputs, at);
  }

  lemma {:induction false} OneConverted(c: Codec, own: seq<Record>, inputs: seq<Input>, at: seq<Place>)
    requires Setting(c, own, inputs) && |own| == |at| == 1
    requires Match(own[0], inputs).Some? && Dedupable(c, own[0], inputs)
    ensures Deduplicated(c, own, inputs, at).Some?
  {
    DeduplicateExact(c, own, inputs, at);
    assert UniqueIds(own) && !NoneMatch(own, inputs) && AllDedupable(c, own, inputs);
  }

  lemma {:induction false} OneLost(
    c: Codec, own: seq<Record>, inputs: seq<Input>, at: seq<Place>, again: seq<Place>)
    requires Setting(c, own, inputs) && |own| == |at| == |again| == 1
    requires Match(own[0], inputs).Some? && !Restorable(c, own[0], inputs)
    ensures ThereAndBack(c, own, inputs, at, again).None?
  {
    assert !AllRestorable(c, own, inputs);
    DeduplicateThenMaterialize(c, own, inputs, at, again);
  }

  /** The archive that keeps this record is refused, although another record can be converted. */
  lemma {:induction false} Kept(h: HttpHead, at: seq<Place>)
    requires IsBare(h) && |at| == 3
    ensures AllScanned(SMALL, Source(h)) && Sound(Source(h), Loaded(h))
    ensures HydrateFrom(Loaded(h), [Authorized("i")], WORK_LIMIT) == Ok((Hydrated(h), WORK_LIMIT))
    ensures Setting(SMALL, Hydrated(h), [Authorized("i")])
    ensures UniqueIds(Hydrated(h)) && !NoneMatch(Hydrated(h), [Authorized("i")])
    ensures Deduplicated(SMALL, Hydrated(h), [Authorized("i")], at).None?
  {
    SourceLoads(h);
    SourceHydrates(h, [Authorized("i")]);
    SourceSetting(h, [Authorized("i")]);
    SomeMatch(h);
    NotKeepable(h);
    OneRefused(SMALL, Hydrated(h), [Authorized("i")], at, 2);
  }

  /** The revisit is a response now, has a body and no HTTP head, and nothing matches it. */
  lemma {:induction false} HeadlessKept(at: seq<Place>)
    requires |at| == 3
    ensures AllScanned(SMALL, Source(NoHead)) && Sound(Source(NoHead), Loaded(NoHead))
    ensures HydrateFrom(Loaded(NoHead), [Authorized("i")], WORK_LIMIT) == Ok((Hydrated(NoHead), WORK_LIMIT))
    ensures !NoneMatch(Hydrated(NoHead), [Authorized("i")])
    ensures Deduplicated(SMALL, Hydrated(NoHead), [Authorized("i")], at).None?
  {
    Kept(NoHead, at);
  }

  /** The revisit has an HTTP head with an empty transfer coding. It was never read, since a
      revisit has no body, and it is refused once the revisit is a response. */
  lemma {:induction false} EmptyCodingKept(at: seq<Place>)
    requires |at| == 3
    ensures AllScanned(SMALL, Source(EMPTY)) && Sound(Source(EMPTY), Loaded(EMPTY))
    ensures HydrateFrom(Loaded(EMPTY), [Authorized("i")], WORK_LIMIT) == Ok((Hydrated(EMPTY), WORK_LIMIT))
    ensures !NoneMatch(Hydrated(EMPTY), [Authorized("i")])
    ensures Deduplicated(SMALL, Hydrated(EMPTY), [Authorized("i")], at).None?
  {
    Kept(EMPTY, at);
  }

  // ---- an empty transfer coding that comes back ----

  function Waiting(): Record {
    Repeat(EMPTY, "t")
  }

  function Restored(): Record {
    AsResponse(FilledExternal(Waiting(), Capture("t", "x")))
  }

  lemma {:induction false} WaitingFound()
    ensures Candidates(Waiting(), [Authorized("i")], WORK_LIMIT) == Ok(([Capture("t", "x")], WORK_LIMIT - 1))
  {
    RepeatFits(EMPTY, "t", "x");
    TargetById(Waiting(), Authorized("i").records, 0);
    assert [Authorized("i")][..0] == [];
    assert [] + [Capture("t", "x")] == [Capture("t", "x")];
    assert Candidates(Waiting(), [], WORK_LIMIT) == Ok(([], WORK_LIMIT));
    assert AddCandidate(Waiting(), Authorized("i"), [], WORK_LIMIT) == Ok(([Capture("t", "x")], WORK_LIMIT - 1));
  }

  lemma {:induction false} WaitingHydrates()
    ensures HydrateFrom([Waiting()], [Authorized("i")], WORK_LIMIT) == Ok(([Restored()], WORK_LIMIT - 1))
  {
    RepeatScanned(EMPTY, "t");
    WaitingFound();
    assert [Waiting()][..0] == [] && [] + [Restored()] == [Restored()];
  }

  lemma {:induction false} WaitingSetting()
    ensures Setting(SMALL, [Restored()], [Authorized("i")])
  {
    SmallIsLawful();
    RepeatScanned(EMPTY, "t");
    AuthorizedOk("i");
    SoundAtStart([Waiting()]);
    AllLoadedIs(SMALL, [Waiting()], [Waiting()]);
    WaitingHydrates();
    Start(SMALL, [Waiting()], [Authorized("i")], [Restored()], WORK_LIMIT - 1);
  }

  lemma {:induction false} RestoredMatches()
    ensures Match(Restored(), [Authorized("i")]).Some? && Dedupable(SMALL, Restored(), [Authorized("i")])
    ensures !Restorable(SMALL, Restored(), [Authorized("i")])
  {
    assert LowerAll("") == "";
    Matches(Restored(), "i");
  }

  /** The revisit is filled in from the input and converted again; its HTTP head with the empty
      coding makes it be refused when it comes back. */
  lemma {:induction false} EmptyCodingConverted(at: seq<Place>, again: seq<Place>)
    requires |at| == |again| == 1
    ensures AsScanned(SMALL, Waiting())
    ensures HydrateFrom([Waiting()], [Authorized("i")], WORK_LIMIT) == Ok(([Restored()], WORK_LIMIT - 1))
    ensures Deduplicated(SMALL, [Restored()], [Authorized("i")], at).Some?
    ensures ThereAndBack(SMALL, [Restored()], [Authorized("i")], at, again).None?
  {
    RepeatScanned(EMPTY, "t");
    WaitingHydrates();
    WaitingSetting();
    RestoredMatches();
    OneConverted(SMALL, [Restored()], [Authorized("i")], at);
    OneLost(SMALL, [Restored()], [Authorized("i")], at, again);
  }

  // ---- one file authorized twice ----

  lemma {:induction false} TwiceMatches()
    ensures Match(Capture("a", "x"), [Authorized("i"), Authorized("j")]) == Some(Canonical(Authorized("i"), 0))
    ensures Sharing([Authorized("i"), Authorized("j")], "s") == 2
  {
    var both := [Authorized("i"), Authorized("j")];
    assert both[..1] == [Authorized("i")] && [Authorized("i")][..0] == [];
    Matches(Capture("a", "x"), "i");
    assert Sharing([Authorized("i")], "s") == 1;
  }

  /** A record is converted and written, and bound to one of two authorized inputs that are the
      same file: it can not be brought back. */
  lemma {:induction false} AuthorizedTwice(at: seq<Place>, again: seq<Place>)
    requires |at| == |again| == 1
    ensures var own, inputs := [Capture("a", "x")], [Authorized("i"), Authorized("j")];
            Setting(SMALL, own, inputs) && Deduplicated(SMALL, own, inputs, at).Some? &&
            ThereAndBack(SMALL, own, inputs, at, again).None?
  {
    var own, inputs := [Capture("a", "x")], [Authorized("i"), Authorized("j")];
    SmallIsLawful();
    CaptureScanned("a", "x");
    AuthorizedOk("i");
    AuthorizedOk("j");
    TwiceMatches();
    OneConverted(SMALL, own, inputs, at);
    OneLost(SMALL, own, inputs, at, again);
  }

  // ---- one record twice in an input ----

  const COPIES := Input("i", "s", [Capture("t", "x"), Capture("t", "x")])

  lemma {:induction false} CopiesMatch()
    ensures Match(Capture("a", "x"), [COPIES]) == Some(Canonical(COPIES, 0))
    ensures !Alone(Capture("a", "x"), Canonical(COPIES, 0))
  {
    var rs, cn := COPIES.records, Canonical(COPIES, 0);
    assert rs[..1] == [Capture("t", "x")] && rs[..1][..0] == [];
    assert FirstIn(rs[..1], KeyOf(Capture("a", "x"))) == Some(0);
    assert [COPIES][..0] == [];
    CaptureFits();
    assert rs[1].Get(RecordId) == TargetOf(cn).Get(RecordId);
  }

  lemma {:induction false} CaptureFits()
    ensures Bound(Capture("a", "x"), Canonical(COPIES, 0)).Ok?
    ensures RevisitMatches(Bound(Capture("a", "x"), Canonical(COPIES, 0)).value, Capture("t", "x"))
  {
  }

  /** The input holds two records of one id: the revisit fits both, and hydration refuses it. */
  lemma {:induction false} TargetTwice(at: seq<Place>, again: seq<Place>)
    requires |at| == |again| == 1
    ensures var own, inputs := [Capture("a", "x")], [COPIES];
            Setting(SMALL, own, inputs) && Deduplicated(SMALL, own, inputs, at).Some? &&
            ThereAndBack(SMALL, own, inputs, at, again).None?
  {
    var own, inputs := [Capture("a", "x")], [COPIES];
    SmallIsLawful();
    CaptureScanned("a", "x");
    CaptureScanned("t", "x");
    CopiesMatch();
    CaptureFits();
    OneConverted(SMALL, own, inputs, at);
    OneLost(SMALL, own, inputs, at, again);
  }

  // ---- a coded capture repeated without a head ----

  const ENCODED := Record(map[WarcType := "response", RecordId := "b"], CODED, 200, "text/html",
                          SmallSha("x"), 2, "w", 0, 0, true, Some("#x"), None)

  /** The revisit takes over the coded body and the digest of its entity, but has no head that
      names the coding. */
  lemma {:induction false} CodingLost()
    ensures var rs, path := [ENCODED, Repeat(NoHead, "b")], [1, 0];
            AllScanned(SMALL, rs) && Chain(rs, path) && Authentic(SMALL, Along(rs, path)) && !Fixity(SMALL, Along(rs, path))
  {
    var rs, path := [ENCODED, Repeat(NoHead, "b")], [1, 0];
    SmallIsLawful();
    EncodedScanned();
    RepeatScanned(NoHead, "b");
    EncodedChain();
    ChainFixity(SMALL, rs, path);
    assert DecodesUnder(SMALL, Along(rs, path), Some(CHUNKED));
  }

  lemma {:induction false} EncodedChain()
    ensures var rs, path := [ENCODED, Repeat(NoHead, "b")], [1, 0];
            Chain(rs, path) && Along(rs, path) == Filled(rs[1], ENCODED)
  {
    var rs, path := [ENCODED, Repeat(NoHead, "b")], [1, 0];
    assert path[1..] == [0] && Along(rs, [0]) == ENCODED;
    assert Eligible(rs[1]) && RevisitMatches(rs[1], ENCODED);
  }

  lemma {:induction false} EncodedScanned()
    ensures AsScanned(SMALL, ENCODED) && Coding(CODED) == Some(CHUNKED) && SmallDechunk("#x") == Some("x")
  {
    SmallHeads(CODED);
    assert LowerAll("chunked") == "chunked";
    assert "#x"[1..] == "x";
  }
}
