/** Rule texts are read back: every text the bounded CSS subset allows becomes exactly the compounds it was
    written from. */
module SelectorReading {
  import opened Wrappers
  import opened Characters
  import opened Decimals
  import opened Selectors
  import opened SelectorTexts

  // ---- what a text is read as ----

  /** A test added to a compound. */
  function Add(c: Compound, t: Test): Compound
    requires TestOk(t)
  {
    match t
    case ClassIs(name) => c.(classes := c.classes + [name])
    case IdIs(name) => c.(id := Some(name))
    case HasAttr(name, _) => c.(attrs := c.attrs + [(LowerAll(name), None)])
    case AttrIs(name, value, _, _, _, _) => c.(attrs := c.attrs + [(LowerAll(name), Some(value))])
    case ChildIs(digits) => c.(nth := Some(NumeralValue(digits)))
  }

  function AddAll(c: Compound, tests: seq<Test>): Compound
    requires forall i :: 0 <= i < |tests| ==> TestOk(tests[i])
    decreases |tests|
  {
    if tests == [] then c else AddAll(Add(c, tests[0]), tests[1..])
  }

  function SubjectCompound(s: Subject): Compound {
    match s
    case Tag(name) => ANY.(tag := Some(LowerAll(name)))
    case _ => ANY
  }

  function PartCompound(p: Part): Compound
    requires PartOk(p)
  {
    AddAll(SubjectCompound(p.subject), p.tests)
  }

  function RestSelector(rest: seq<(Gap, Part)>): Selector
    requires forall i :: 0 <= i < |rest| ==> PartOk(rest[i].1)
  {
    if rest == [] then [] else [(PartCompound(rest[0].1), rest[0].0.child)] + RestSelector(rest[1..])
  }

  function ChainSelector(c: Chain): Selector
    requires ChainOk(c)
  {
    [(PartCompound(c.first), false)] + RestSelector(c.rest)
  }

  function RuleSelectors(chains: seq<Chain>): seq<Selector>
    requires forall i :: 0 <= i < |chains| ==> ChainOk(chains[i])
  {
    if chains == [] then [] else [ChainSelector(chains[0])] + RuleSelectors(chains[1..])
  }

  // ---- one test ----

  /** The piece stands at `p`. */
  predicate Stands(b: string, p: nat, piece: string) {
    p + |piece| <= |b| && b[p..p + |piece|] == piece
  }

  predicate Ends(b: string, p: nat) {
    p == |b| || (p < |b| && !IsIdentChar(b[p]))
  }

  lemma {:induction false} StandsBoth(b: string, p: nat, x: string, y: string)
    requires Stands(b, p, x + y)
    ensures Stands(b, p, x) && Stands(b, p + |x|, y)
  {
    var both := b[p..p + |x + y|];
    assert both[..|x|] == x && both[|x|..] == y;
    assert b[p..p + |x|] == both[..|x|] && b[p + |x|..p + |x| + |y|] == both[|x|..];
  }

  lemma {:induction false} StandsAt(b: string, p: nat, piece: string, i: nat)
    requires Stands(b, p, piece) && i < |piece|
    ensures b[p + i] == piece[i]
  {
    assert b[p..p + |piece|][i] == piece[i];
  }

  lemma {:induction false} RunIs(b: string, p: nat, piece: string, f: char -> bool)
    requires Stands(b, p, piece) && forall i :: 0 <= i < |piece| ==> f(piece[i])
    requires p + |piece| < |b| ==> !f(b[p + |piece|])
    ensures RunEnd(b, p, f) == p + |piece|
  {
    forall i | p <= i < p + |piece|
      ensures f(b[i])
    {
      StandsAt(b, p, piece, i - p);
    }
    RunEndIs(b, p, p + |piece|, f);
  }

  lemma {:induction false} NameReads(b: string, p: nat, name: string)
    requires Stands(b, p, name) && IsName(name) && Ends(b, p + |name|)
    ensures Identifier(b, p) == Ok((name, p + |name|))
  {
    RunIs(b, p, name, IsIdentChar);
  }

  lemma {:induction false} BlanksRead(b: string, p: nat, n: nat)
    requires Stands(b, p, Blanks(n)) && (p + n < |b| ==> b[p + n] != ' ')
    ensures RunEnd(b, p, IsSpace) == p + n
  {
    RunIs(b, p, Blanks(n), IsSpace);
  }

  lemma {:induction false} IndexReads(b: string, p: nat, digits: string)
    requires Stands(b, p, ":nth-child(" + digits + ")") && TestOk(ChildIs(digits))
    ensures NthChild(b, p) == Ok((NumeralValue(digits), p + 12 + |digits|))
  {
    StandsBoth(b, p, ":nth-child(" + digits, ")");
    StandsBoth(b, p, ":nth-child(", digits);
    StandsAt(b, p + 11 + |digits|, ")", 0);
    assert b[p..][..11] == b[p..p + 11];
    RunIs(b, p + 11, digits, IsDigit);
  }

  /** A name and then blanks, up to `r`, where something else stands. */
  predicate NamePart(b: string, p: nat, name: string, pad: nat, r: nat) {
    r == p + |name| + pad < |b| && Stands(b, p, name) && Stands(b, p + |name|, Blanks(pad)) &&
    b[r] != ' ' && !IsIdentChar(b[r])
  }

  lemma {:induction false} NamePartReads(b: string, p: nat, name: string, pad: nat, r: nat)
    requires NamePart(b, p, name, pad, r) && IsName(name)
    ensures Identifier(b, p) == Ok((name, p + |name|)) && RunEnd(b, p + |name|, IsSpace) == r
  {
    FirstOf(b, p + |name|, Blanks(pad), r);
    NameReads(b, p, name);
    BlanksRead(b, p + |name|, pad);
  }

  /** What follows a name is a blank or the character after the blanks. */
  lemma {:induction false} FirstOf(b: string, p: nat, blanks: string, q: nat)
    requires Stands(b, p, blanks) && q == p + |blanks| < |b| && forall i :: 0 <= i < |blanks| ==> blanks[i] == ' '
    ensures b[p] == if blanks == "" then b[q] else ' '
  {
    if blanks != "" {
      StandsAt(b, p, blanks, 0);
    }
  }

  lemma {:induction false} AttrFrom(b: string, p: nat, name: string, q: nat, r: nat)
    requires p <= q <= r < |b| && Identifier(b, p) == Ok((name, q)) && RunEnd(b, q, IsSpace) == r && b[r] == ']'
    ensures Attribute(b, p) == Ok(((LowerAll(name), None), r + 1))
  {
  }

  lemma {:induction false} AttrReads(b: string, p: nat, name: string, pad: nat)
    requires Stands(b, p, NameBody(name, pad)) && IsName(name)
    ensures Attribute(b, p) == Ok(((LowerAll(name), None), p + |name| + pad + 1))
  {
    var r := p + |name| + pad;
    StandsBoth(b, p, name + Blanks(pad), "]");
    StandsBoth(b, p, name, Blanks(pad));
    StandsAt(b, r, "]", 0);
    NamePartReads(b, p, name, pad, r);
    AttrFrom(b, p, name, p + |name|, r);
  }

  predicate ValueOk(value: string, quote: Option<char>) {
    if quote.Some? then quote.value in {'\'', '"'} && quote.value !in value else IsName(value)
  }

  lemma {:induction false} ValueReads(b: string, p: nat, value: string, quote: Option<char>)
    requires Stands(b, p, Quoted(value, quote)) && ValueOk(value, quote) && Ends(b, p + |Quoted(value, quote)|)
    ensures AttributeValue(b, p) == Ok((value, p + |Quoted(value, quote)|))
  {
    StandsAt(b, p, Quoted(value, quote), 0);
    if quote.Some? {
      var q := [quote.value];
      assert Quoted(value, quote) == q + value + q;
      StandsBoth(b, p, q + value, q);
      StandsBoth(b, p, q, value);
      StandsAt(b, p + 1 + |value|, q, 0);
      RunIs(b, p + 1, value, c => c != b[p]);
    } else {
      NameReads(b, p, value);
    }
  }

  /** Blanks and then a value with blanks behind it, up to `w`. */
  predicate ValuePart(b: string, p: nat, left: nat, value: string, pad: nat, w: nat) {
    w == p + left + |value| + pad < |b| && Stands(b, p, Blanks(left)) && Stands(b, p + left, value) &&
    Stands(b, p + left + |value|, Blanks(pad)) && b[w] != ' ' && !IsIdentChar(b[w])
  }

  lemma {:induction false} BlanksBefore(b: string, p: nat, left: nat, value: string)
    requires Stands(b, p, Blanks(left)) && Stands(b, p + left, value) && value != "" && value[0] != ' '
    ensures RunEnd(b, p, IsSpace) == p + left
  {
    StandsAt(b, p + left, value, 0);
    BlanksRead(b, p, left);
  }

  lemma {:induction false} ValueAndBlanks(b: string, s: nat, value: string, quote: Option<char>, pad: nat, w: nat)
    requires Stands(b, s, Quoted(value, quote)) && ValueOk(value, quote) && w == s + |Quoted(value, quote)| + pad < |b|
    requires Stands(b, s + |Quoted(value, quote)|, Blanks(pad)) && b[w] != ' ' && !IsIdentChar(b[w])
    ensures AttributeValue(b, s) == Ok((value, s + |Quoted(value, quote)|))
    ensures RunEnd(b, s + |Quoted(value, quote)|, IsSpace) == w
  {
    FirstOf(b, s + |Quoted(value, quote)|, Blanks(pad), w);
    ValueReads(b, s, value, quote);
    BlanksRead(b, s + |Quoted(value, quote)|, pad);
  }

  lemma {:induction false} AttributeIsReads(
    b: string, p: nat, left: nat, name: string, value: string, quote: Option<char>, pad: nat, w: nat)
    requires ValuePart(b, p, left, Quoted(value, quote), pad, w) && ValueOk(value, quote) && b[w] == ']'
    ensures AttributeIs(b, p, name) == Ok(((name, Some(value)), w + 1))
  {
    BlanksBefore(b, p, left, Quoted(value, quote));
    ValueAndBlanks(b, p + left, value, quote, pad, w);
    AttributeIsFrom(b, p, p + left, p + left + |Quoted(value, quote)|, w, name, value);
  }

  lemma {:induction false} AttributeIsFrom(b: string, p: nat, s: nat, v: nat, w: nat, name: string, value: string)
    requires p <= s < v <= w < |b| && RunEnd(b, p, IsSpace) == s && AttributeValue(b, s) == Ok((value, v))
    requires RunEnd(b, v, IsSpace) == w && b[w] == ']'
    ensures AttributeIs(b, p, name) == Ok(((name, Some(value)), w + 1))
  {
  }

  lemma {:induction false} AttributeNamed(b: string, p: nat, name: string, left: nat, r: nat)
    requires NamePart(b, p, name, left, r) && IsName(name) && b[r] == '='
    ensures Attribute(b, p) == AttributeIs(b, r + 1, LowerAll(name))
  {
    NamePartReads(b, p, name, left, r);
  }

  lemma {:induction false} NamePlaces(b: string, p: nat, name: string, left: nat, right: nat, value: string, pad: nat)
    requires Stands(b, p, EqualsBody(name, left, right, value, pad))
    ensures NamePart(b, p, name, left, p + |name| + left) && b[p + |name| + left] == '='
  {
    var x, y, z := Blanks(left), Blanks(right), Blanks(pad);
    StandsBoth(b, p, name + x + "=" + y + value + z, "]");
    StandsBoth(b, p, name + x + "=" + y + value, z);
    StandsBoth(b, p, name + x + "=" + y, value);
    StandsBoth(b, p, name + x + "=", y);
    StandsBoth(b, p, name + x, "=");
    StandsBoth(b, p, name, x);
    StandsAt(b, p + |name| + left, "=", 0);
  }

  lemma {:induction false} ValuePlaces(b: string, p: nat, name: string, left: nat, right: nat, value: string, pad: nat)
    requires Stands(b, p, EqualsBody(name, left, right, value, pad))
    ensures var r := p + |name| + left + 1;
            var w := r + right + |value| + pad;
            ValuePart(b, r, right, value, pad, w) && b[w] == ']'
  {
    var x, y, z := Blanks(left), Blanks(right), Blanks(pad);
    StandsBoth(b, p, name + x + "=" + y + value + z, "]");
    StandsBoth(b, p, name + x + "=" + y + value, z);
    StandsBoth(b, p, name + x + "=" + y, value);
    StandsBoth(b, p, name + x + "=", y);
    StandsAt(b, p + |name| + left + 1 + right + |value| + pad, "]", 0);
  }

  lemma {:induction false} EqualsName(b: string, p: nat, name: string, left: nat, right: nat, value: string, pad: nat)
    requires Stands(b, p, EqualsBody(name, left, right, value, pad)) && IsName(name)
    ensures p + |name| + left < |b| && Attribute(b, p) == AttributeIs(b, p + |name| + left + 1, LowerAll(name))
  {
    NamePlaces(b, p, name, left, right, value, pad);
    AttributeNamed(b, p, name, left, p + |name| + left);
  }

  lemma {:induction false} EqualsValue(b: string, p: nat, name: string, left: nat, right: nat, value: string,
                                       quote: Option<char>, pad: nat, key: string, r: nat, w: nat)
    requires Stands(b, p, EqualsBody(name, left, right, Quoted(value, quote), pad)) && ValueOk(value, quote)
    requires r == p + |name| + left + 1 && w == r + right + |Quoted(value, quote)| + pad
    ensures r <= w < |b| && AttributeIs(b, r, key) == Ok(((key, Some(value)), w + 1))
  {
    ValuePlaces(b, p, name, left, right, Quoted(value, quote), pad);
    AttributeIsReads(b, r, right, key, value, quote, pad, w);
  }

  // ---- one compound ----

  /** A test read at `p` is added to the compound, and reading goes on behind it. */
  predicate ReadsOn(b: string, p: nat, t: Test, c: Compound)
    requires TestOk(t)
  {
    var q := p + |TestText(t)|;
    p <= q <= |b| && CompoundFrom(b, p, c) == CompoundFrom(b, q, Add(c, t))
  }

  lemma {:induction false} ClassReads(b: string, p: nat, t: Test, c: Compound)
    requires t.ClassIs? && Stands(b, p, TestText(t)) && Ends(b, p + |TestText(t)|) && TestOk(t)
    ensures ReadsOn(b, p, t, c)
  {
    StandsAt(b, p, TestText(t), 0);
    StandsBoth(b, p, ".", t.name);
    NameReads(b, p + 1, t.name);
  }

  lemma {:induction false} IdReads(b: string, p: nat, t: Test, c: Compound)
    requires t.IdIs? && Stands(b, p, TestText(t)) && Ends(b, p + |TestText(t)|) && TestOk(t) && c.id.None?
    ensures ReadsOn(b, p, t, c)
  {
    StandsAt(b, p, TestText(t), 0);
    StandsBoth(b, p, "#", t.name);
    NameReads(b, p + 1, t.name);
  }

  lemma {:induction false} NthReads(b: string, p: nat, t: Test, c: Compound)
    requires t.ChildIs? && Stands(b, p, TestText(t)) && TestOk(t)
    ensures ReadsOn(b, p, t, c)
  {
    StandsAt(b, p, TestText(t), 0);
    IndexReads(b, p, t.digits);
  }

  lemma {:induction false} AttrIsReads(
    b: string, p: nat, name: string, left: nat, right: nat, value: string, quote: Option<char>, pad: nat)
    requires Stands(b, p, EqualsBody(name, left, right, Quoted(value, quote), pad))
    requires IsName(name) && ValueOk(value, quote)
    ensures Attribute(b, p) ==
            Ok(((LowerAll(name), Some(value)), p + |EqualsBody(name, left, right, Quoted(value, quote), pad)|))
  {
    EqualsName(b, p, name, left, right, Quoted(value, quote), pad);
    var r := p + |name| + left + 1;
    EqualsValue(b, p, name, left, right, value, quote, pad, LowerAll(name), r, r + right + |Quoted(value, quote)| + pad);
  }

  lemma {:induction false} Opened(b: string, p: nat, body: string)
    requires Stands(b, p, "[" + body)
    ensures b[p] == '[' && Stands(b, p + 1, body)
  {
    StandsBoth(b, p, "[", body);
    StandsAt(b, p, "[", 0);
  }

  lemma {:induction false} BracketReads(b: string, p: nat, attr: (string, Option<string>), e: nat, c: Compound)
    requires p < |b| && b[p] == '[' && Attribute(b, p + 1) == Ok((attr, e))
    ensures p <= e <= |b| && CompoundFrom(b, p, c) == CompoundFrom(b, e, c.(attrs := c.attrs + [attr]))
  {
  }

  lemma {:induction false} AttributeReads(b: string, p: nat, t: Test)
    requires (t.HasAttr? || t.AttrIs?) && Stands(b, p, TestText(t)) && TestOk(t)
    ensures p + 1 <= |b| && b[p] == '['
    ensures Attribute(b, p + 1) ==
            Ok(((LowerAll(t.name), if t.AttrIs? then Some(t.value) else None), p + |TestText(t)|))
  {
    match t
    case HasAttr(name, pad) =>
      Opened(b, p, NameBody(name, pad));
      AttrReads(b, p + 1, name, pad);
    case AttrIs(name, value, quote, left, right, pad) =>
      Opened(b, p, EqualsBody(name, left, right, Quoted(value, quote), pad));
      AttrIsReads(b, p + 1, name, left, right, value, quote, pad);
    case _ =>
  }

  lemma {:induction false} TestReads(b: string, p: nat, t: Test, c: Compound)
    requires Stands(b, p, TestText(t)) && Ends(b, p + |TestText(t)|) && TestOk(t) && (t.IdIs? ==> c.id.None?)
    ensures ReadsOn(b, p, t, c)
  {
    if t.ClassIs? {
      ClassReads(b, p, t, c);
    } else if t.IdIs? {
      IdReads(b, p, t, c);
    } else if t.ChildIs? {
      NthReads(b, p, t, c);
    } else {
      AttributeReads(b, p, t);
      BracketReads(b, p, (LowerAll(t.name), if t.AttrIs? then Some(t.value) else None), p + |TestText(t)|, c);
    }
  }

  /** Reading, whatever it does. */
  type Reader = (nat, Compound) -> Result<Compound, Error>

  function CompoundReader(b: string): Reader {
    (p: nat, c: Compound) => if p <= |b| then CompoundFrom(b, p, c) else Err(UnsupportedSyntax)
  }

  /** Wherever this piece stands before the end of a name, reading adds the test and goes on behind it. */
  ghost predicate Takes(b: string, read: Reader, piece: string, t: Test)
    requires TestOk(t)
  {
    forall p: nat, c: Compound ::
      Stands(b, p, piece) && Ends(b, p + |piece|) && (t.IdIs? ==> c.id.None?) ==>
        read(p, c) == read(p + |piece|, Add(c, t))
  }

  lemma {:induction false} TestTakes(b: string, t: Test)
    requires TestOk(t)
    ensures Takes(b, CompoundReader(b), TestText(t), t)
  {
    var read := CompoundReader(b);
    forall p: nat, c: Compound |
      Stands(b, p, TestText(t)) && Ends(b, p + |TestText(t)|) && (t.IdIs? ==> c.id.None?)
      ensures read(p, c) == read(p + |TestText(t)|, Add(c, t))
    {
      TestReads(b, p, t, c);
    }
  }

  function Join(pieces: seq<string>): string {
    if pieces == [] then "" else pieces[0] + Join(pieces[1..])
  }

  /** Pieces that each end a name before them. */
  predicate Marked(pieces: seq<string>) {
    forall i :: 0 <= i < |pieces| ==> pieces[i] != "" && !IsIdentChar(pieces[i][0])
  }

  /** Tests that may follow what has been read. */
  predicate MayFollow(c: Compound, tests: seq<Test>) {
    (forall i :: 0 <= i < |tests| ==> TestOk(tests[i])) &&
    (forall i :: 0 <= i < |tests| ==> tests[i].IdIs? ==> c.id.None?) &&
    forall i, j :: 0 <= i < j < |tests| ==> !(tests[i].IdIs? && tests[j].IdIs?)
  }

  lemma {:induction false} FollowNext(c: Compound, tests: seq<Test>)
    requires MayFollow(c, tests) && tests != []
    ensures TestOk(tests[0]) && (tests[0].IdIs? ==> c.id.None?) && MayFollow(Add(c, tests[0]), tests[1..])
  {
  }

  lemma {:induction false} FirstStands(b: string, p: nat, x: string, y: string)
    requires p <= |b| && b[p..] == x + y
    ensures Stands(b, p, x) && b[p + |x|..] == y
  {
    assert b[p..p + |x + y|] == b[p..];
    StandsBoth(b, p, x, y);
    assert b[p + |x|..] == b[p..][|x|..] == y;
  }

  lemma {:induction false} JoinEnds(b: string, p: nat, pieces: seq<string>)
    requires p <= |b| && b[p..] == Join(pieces) && Marked(pieces)
    ensures Ends(b, p)
  {
    if pieces != [] {
      assert b[p] == b[p..][0] == pieces[0][0];
    }
  }

  lemma {:induction false} PiecesRead(b: string, p: nat, pieces: seq<string>, tests: seq<Test>, c: Compound, read: Reader)
    requires p <= |b| && b[p..] == Join(pieces) && Marked(pieces) && |pieces| == |tests| && MayFollow(c, tests)
    requires forall i :: 0 <= i < |tests| ==> TestOk(tests[i]) && Takes(b, read, pieces[i], tests[i])
    requires forall other :: read(|b|, other) == Ok(other)
    ensures read(p, c) == Ok(AddAll(c, tests))
    decreases |tests|
  {
    if tests != [] {
      var q := p + |pieces[0]|;
      FollowNext(c, tests);
      FirstStands(b, p, pieces[0], Join(pieces[1..]));
      JoinEnds(b, q, pieces[1..]);
      assert Takes(b, read, pieces[0], tests[0]);
      PiecesRead(b, q, pieces[1..], tests[1..], Add(c, tests[0]), read);
    }
  }

  function Pieces(tests: seq<Test>): seq<string> {
    seq(|tests|, i requires 0 <= i < |tests| => TestText(tests[i]))
  }

  lemma {:induction false} PiecesJoin(tests: seq<Test>)
    ensures TestsText(tests) == Join(Pieces(tests))
  {
    if tests != [] {
      PiecesJoin(tests[1..]);
      assert Pieces(tests)[1..] == Pieces(tests[1..]);
    }
  }

  lemma {:induction false} PiecesMarked(tests: seq<Test>)
    ensures Marked(Pieces(tests))
  {
    forall i | 0 <= i < |tests|
      ensures Pieces(tests)[i] != "" && !IsIdentChar(Pieces(tests)[i][0])
    {
      TestMarked(tests[i]);
    }
  }

  lemma {:induction false} TestMarked(t: Test)
    ensures TestText(t) != "" && TestText(t)[0] in {'.', '#', '[', ':'}
  {
  }

  lemma {:induction false} TestsRead(b: string, p: nat, tests: seq<Test>, c: Compound)
    requires p <= |b| && b[p..] == TestsText(tests) && MayFollow(c, tests)
    ensures CompoundFrom(b, p, c) == Ok(AddAll(c, tests))
  {
    PiecesJoin(tests);
    PiecesMarked(tests);
    forall i | 0 <= i < |tests|
      ensures TestOk(tests[i]) && Takes(b, CompoundReader(b), Pieces(tests)[i], tests[i])
    {
      TestTakes(b, tests[i]);
    }
    PiecesRead(b, p, Pieces(tests), tests, c, CompoundReader(b));
  }

  lemma {:induction false} TestsEnd(b: string, p: nat, tests: seq<Test>)
    requires p <= |b| && b[p..] == TestsText(tests)
    ensures Ends(b, p)
  {
    PiecesJoin(tests);
    PiecesMarked(tests);
    JoinEnds(b, p, Pieces(tests));
  }

  lemma {:induction false} PartReads(part: Part)
    requires PartOk(part)
    ensures PartText(part) != "" && ParseCompound(PartText(part)) == Ok(PartCompound(part))
  {
    var b, p := PartText(part), |SubjectText(part.subject)|;
    assert b[p..] == TestsText(part.tests);
    TestsRead(b, p, part.tests, SubjectCompound(part.subject));
    SubjectReads(part);
  }

  lemma {:induction false} SubjectReads(part: Part)
    requires PartOk(part)
    ensures PartText(part) != ""
    ensures ParseCompound(PartText(part)) ==
            CompoundFrom(PartText(part), |SubjectText(part.subject)|, SubjectCompound(part.subject))
  {
    var b, p := PartText(part), |SubjectText(part.subject)|;
    assert b[p..] == TestsText(part.tests);
    assert Stands(b, 0, SubjectText(part.subject));
    TestsEnd(b, p, part.tests);
    match part.subject
    case Tag(name) =>
      StandsAt(b, 0, name, 0);
      NameReads(b, 0, name);
    case Star =>
    case Anything =>
      assert b[0] == TestText(part.tests[0])[0];
  }

  // ---- the scanner ----

  function Continue(r: Result<Scan, Error>, rest: string): Result<Scan, Error> {
    if r.Ok? then ScanFrom(r.value, rest) else Err(r.error)
  }

  /** Whatever follows the text, the scanner gets from here to there by it. */
  ghost predicate Goes(st: Scan, text: string, r: Result<Scan, Error>) {
    forall rest :: ScanFrom(st, text + rest) == Continue(r, rest)
  }

  lemma {:induction false} GoesWith(st: Scan, text: string, r: Result<Scan, Error>, rest: string)
    requires Goes(st, text, r)
    ensures ScanFrom(st, text + rest) == Continue(r, rest)
  {
  }

  lemma {:induction false} GoesBoth(st: Scan, x: string, next: Scan, y: string, r: Result<Scan, Error>)
    requires Goes(st, x, Ok(next)) && Goes(next, y, r)
    ensures Goes(st, x + y, r)
  {
    forall rest
      ensures ScanFrom(st, x + y + rest) == Continue(r, rest)
    {
      assert x + y + rest == x + (y + rest);
      GoesWith(st, x, Ok(next), y + rest);
      GoesWith(next, y, r, rest);
    }
  }

  lemma {:induction false} GoesThrice(st: Scan, x: string, a: Scan, y: string, b: Scan, z: string, r: Result<Scan, Error>)
    requires Goes(st, x, Ok(a)) && Goes(a, y, Ok(b)) && Goes(b, z, r)
    ensures Goes(st, x + (y + z), r)
  {
    GoesBoth(a, y, b, z, r);
    GoesBoth(st, x, a, y + z, r);
  }

  lemma {:induction false} GoesNowhere(st: Scan)
    ensures Goes(st, "", Ok(st))
  {
    forall rest
      ensures ScanFrom(st, "" + rest) == ScanFrom(st, rest)
    {
      assert "" + rest == rest;
    }
  }

  lemma {:induction false} GoesOne(st: Scan, ch: char)
    ensures Goes(st, [ch], Step(st, ch))
  {
    forall rest
      ensures ScanFrom(st, [ch] + rest) == Continue(Step(st, ch), rest)
    {
      assert ([ch] + rest)[0] == ch && ([ch] + rest)[1..] == rest;
    }
  }

  /** A character that is taken into the token and changes nothing else. */
  predicate Steady(st: Scan, ch: char) {
    if st.quote.Some? then ch != st.quote.value
    else ch != '[' && ch != ']' &&
         if st.bracket > 0 then st.bracket == 1 && ch != '\'' && ch != '"'
         else st.bracket == 0 && ch != '>' && ch != ',' && !IsAsciiWhitespace(ch)
  }

  /** The text is taken into the token and changes nothing else. */
  ghost predicate Taken(st: Scan, text: string) {
    Goes(st, text, Ok(st.(token := st.token + text)))
  }

  lemma {:induction false} SteadyTaken(st: Scan, word: string)
    requires forall i :: 0 <= i < |word| ==> Steady(st, word[i])
    ensures Taken(st, word)
    decreases |word|
  {
    if word == "" {
      GoesNowhere(st);
      assert st.token + word == st.token;
    } else {
      var next := st.(token := st.token + [word[0]]);
      GoesOne(st, word[0]);
      assert Step(st, word[0]) == Ok(next);
      SteadyTaken(next, word[1..]);
      TakenBoth(st, [word[0]], word[1..]);
      assert [word[0]] + word[1..] == word;
    }
  }

  lemma {:induction false} TakenBoth(st: Scan, x: string, y: string)
    requires Taken(st, x) && Taken(st.(token := st.token + x), y)
    ensures Taken(st, x + y)
  {
    assert st.token + x + y == st.token + (x + y);
    GoesBoth(st, x, st.(token := st.token + x), y, Ok(st.(token := st.token + (x + y))));
  }

  // ---- one part, read by the scanner ----

  predicate Outside(st: Scan) {
    st.bracket == 0 && st.quote.None?
  }

  lemma {:induction false} BracketsTaken(st: Scan, body: string)
    requires Outside(st) && Taken(st.(token := st.token + "[", bracket := 1), body)
    ensures Taken(st, "[" + body + "]")
  {
    var within := st.(token := st.token + "[", bracket := 1);
    var full := within.(token := within.token + body);
    GoesOne(st, '[');
    GoesBoth(st, "[", within, body, Ok(full));
    GoesOne(full, ']');
    GoesBoth(st, "[" + body, full, "]", Ok(st.(token := full.token + "]")));
    assert full.token + "]" == st.token + ("[" + body + "]");
  }

  lemma {:induction false} QuotesTaken(st: Scan, value: string, quote: char)
    requires st.bracket == 1 && st.quote.None? && quote in {'\'', '"'} && quote !in value
    ensures Taken(st, [quote] + value + [quote])
  {
    var within := st.(token := st.token + [quote], quote := Some(quote));
    var full := within.(token := within.token + value);
    GoesOne(st, quote);
    SteadyTaken(within, value);
    GoesBoth(st, [quote], within, value, Ok(full));
    GoesOne(full, quote);
    GoesBoth(st, [quote] + value, full, [quote], Ok(full.(token := full.token + [quote], quote := None)));
    assert full.token + [quote] == st.token + ([quote] + value + [quote]);
  }

  lemma {:induction false} EqualsTaken(st: Scan, t: Test)
    requires t.AttrIs? && TestOk(t) && Outside(st)
    ensures Taken(st, TestText(t))
  {
    var within := st.(token := st.token + "[", bracket := 1);
    var name := t.name + Blanks(t.left) + "=" + Blanks(t.right);
    var value, pad := Quoted(t.value, t.quote), Blanks(t.pad);
    SteadyTaken(within, name);
    var next := within.(token := within.token + name);
    if t.quote.Some? {
      QuotesTaken(next, t.value, t.quote.value);
    } else {
      SteadyTaken(next, value);
    }
    TakenBoth(within, name, value);
    SteadyTaken(within.(token := within.token + (name + value)), pad);
    TakenBoth(within, name + value, pad);
    BracketsTaken(st, name + value + pad);
    assert TestText(t) == "[" + (name + value + pad) + "]";
  }

  lemma {:induction false} TestTaken(st: Scan, t: Test)
    requires TestOk(t) && Outside(st)
    ensures Taken(st, TestText(t))
  {
    match t
    case AttrIs(_, _, _, _, _, _) => EqualsTaken(st, t);
    case HasAttr(name, pad) =>
      SteadyTaken(st.(token := st.token + "[", bracket := 1), name + Blanks(pad));
      BracketsTaken(st, name + Blanks(pad));
      assert TestText(t) == "[" + (name + Blanks(pad)) + "]";
    case ChildIs(digits) =>
      SteadyTaken(st, TestText(t));
    case _ =>
      SteadyTaken(st, TestText(t));
  }

  lemma {:induction false} TestsTaken(st: Scan, tests: seq<Test>)
    requires (forall i :: 0 <= i < |tests| ==> TestOk(tests[i])) && Outside(st)
    ensures Taken(st, TestsText(tests))
    decreases |tests|
  {
    if tests == [] {
      SteadyTaken(st, "");
    } else {
      var text := TestText(tests[0]);
      TestTaken(st, tests[0]);
      TestsTaken(st.(token := st.token + text), tests[1..]);
      TakenBoth(st, text, TestsText(tests[1..]));
    }
  }

  lemma {:induction false} PartTaken(st: Scan, part: Part)
    requires PartOk(part) && Outside(st)
    ensures Taken(st, PartText(part))
  {
    var text := SubjectText(part.subject);
    SteadyTaken(st, text);
    TestsTaken(st.(token := st.token + text), part.tests);
    TakenBoth(st, text, TestsText(part.tests));
  }

  // ---- one alternative ----

  /** Outside brackets and quotes, with this token pending. */
  function Open(parts: Selector, token: string, child: bool, out: seq<Selector>): Scan {
    Scan(token, parts, 0, None, child, out)
  }

  lemma {:induction false} SpacesRead(parts: Selector, child: bool, out: seq<Selector>, spaces: string)
    requires IsSpaces(spaces)
    ensures Goes(Open(parts, "", child, out), spaces, Ok(Open(parts, "", child, out)))
    decreases |spaces|
  {
    var st := Open(parts, "", child, out);
    if spaces == "" {
      GoesNowhere(st);
    } else {
      GoesOne(st, spaces[0]);
      SpacesRead(parts, child, out, spaces[1..]);
      GoesBoth(st, [spaces[0]], st, spaces[1..], Ok(st));
      assert [spaces[0]] + spaces[1..] == spaces;
    }
  }

  /** White space ends the token. */
  lemma {:induction false} TokenEnds(parts: Selector, token: string, child: bool, out: seq<Selector>, c: Compound,
                                     spaces: string)
    requires token != "" && ParseCompound(token) == Ok(c) && spaces != "" && IsSpaces(spaces)
    ensures Goes(Open(parts, token, child, out), spaces, Ok(Open(parts + [(c, child)], "", false, out)))
  {
    var st, next := Open(parts, token, child, out), Open(parts + [(c, child)], "", false, out);
    GoesOne(st, spaces[0]);
    assert Step(st, spaces[0]) == Ok(next);
    SpacesRead(parts + [(c, child)], false, out, spaces[1..]);
    GoesBoth(st, [spaces[0]], next, spaces[1..], Ok(next));
    assert [spaces[0]] + spaces[1..] == spaces;
  }

  /** So does a combinator or a comma, with white space before it or not. */
  lemma {:induction false} MarkReads(parts: Selector, token: string, child: bool, out: seq<Selector>, c: Compound,
                                     spaces: string, mark: char, r: Result<Scan, Error>)
    requires token != "" && ParseCompound(token) == Ok(c) && IsSpaces(spaces) && mark in {'>', ','}
    requires Step(Open(parts + [(c, child)], "", false, out), mark) == r
    ensures Goes(Open(parts, token, child, out), spaces + [mark], r)
  {
    var st, next := Open(parts, token, child, out), Open(parts + [(c, child)], "", false, out);
    if spaces == "" {
      assert Step(st, mark) == r && spaces + [mark] == [mark];
      GoesOne(st, mark);
    } else {
      TokenEnds(parts, token, child, out, c, spaces);
      GoesOne(next, mark);
      GoesBoth(st, spaces, next, [mark], r);
    }
  }

  lemma {:induction false} GapReads(parts: Selector, token: string, child: bool, out: seq<Selector>, c: Compound, g: Gap)
    requires token != "" && ParseCompound(token) == Ok(c) && GapOk(g)
    ensures Goes(Open(parts, token, child, out), GapText(g), Ok(Open(parts + [(c, child)], "", g.child, out)))
  {
    var st, next := Open(parts, token, child, out), Open(parts + [(c, child)], "", g.child, out);
    if g.child {
      MarkReads(parts, token, child, out, c, g.space, '>', Ok(next));
      SpacesRead(parts + [(c, child)], true, out, g.more);
      GoesBoth(st, g.space + ['>'], next, g.more, Ok(next));
    } else {
      TokenEnds(parts, token, child, out, c, g.space);
      SpacesRead(parts + [(c, child)], false, out, g.more);
      GoesBoth(st, g.space, next, g.more, Ok(next));
      assert GapText(g) == g.space + g.more;
    }
  }

  /** A part that follows in its place becomes the pending token. */
  lemma {:induction false} PartPends(parts: Selector, child: bool, out: seq<Selector>, part: Part)
    requires PartOk(part)
    ensures Goes(Open(parts, "", child, out), PartText(part), Ok(Open(parts, PartText(part), child, out)))
  {
    PartTaken(Open(parts, "", child, out), part);
    assert "" + PartText(part) == PartText(part);
  }

  /** What a comma makes of the parts before it. */
  function Closed(parts: Selector, out: seq<Selector>): Result<Scan, Error> {
    if |parts| > 16 then Err(InvalidList)
    else if |out| >= 32 then Err(TooManyAlternatives)
    else Ok(Open([], "", false, out + [parts]))
  }

  lemma {:induction false} RestTextSplits(rest: seq<(Gap, Part)>, trail: string)
    requires rest != []
    ensures RestText(rest) + trail + "," ==
            GapText(rest[0].0) + (PartText(rest[0].1) + (RestText(rest[1..]) + trail + ","))
  {
  }

  lemma {:induction false} RestReads(parts: Selector, part: Part, child: bool, rest: seq<(Gap, Part)>, trail: string,
                                     out: seq<Selector>, all: Selector)
    requires PartOk(part) && IsSpaces(trail)
    requires forall i :: 0 <= i < |rest| ==> GapOk(rest[i].0) && PartOk(rest[i].1)
    requires all == parts + [(PartCompound(part), child)] + RestSelector(rest)
    ensures Goes(Open(parts, PartText(part), child, out), RestText(rest) + trail + ",", Closed(all, out))
    decreases |rest|
  {
    var here := parts + [(PartCompound(part), child)];
    if rest == [] {
      assert RestText(rest) + trail + "," == trail + "," && here == all;
      RestEnds(parts, part, child, trail, out);
    } else {
      assert here + [(PartCompound(rest[0].1), rest[0].0.child)] + RestSelector(rest[1..]) == all;
      RestReads(here, rest[0].1, rest[0].0.child, rest[1..], trail, out, all);
      RestStep(parts, part, child, rest, trail, out, Closed(all, out));
    }
  }

  lemma {:induction false} RestEnds(parts: Selector, part: Part, child: bool, trail: string, out: seq<Selector>)
    requires PartOk(part) && IsSpaces(trail)
    ensures Goes(Open(parts, PartText(part), child, out), trail + ",", Closed(parts + [(PartCompound(part), child)], out))
  {
    PartReads(part);
    MarkReads(parts, PartText(part), child, out, PartCompound(part), trail, ',',
              Closed(parts + [(PartCompound(part), child)], out));
  }

  lemma {:induction false} RestStep(parts: Selector, part: Part, child: bool, rest: seq<(Gap, Part)>, trail: string,
                                    out: seq<Selector>, r: Result<Scan, Error>)
    requires rest != [] && PartOk(part) && GapOk(rest[0].0) && PartOk(rest[0].1)
    requires Goes(Open(parts + [(PartCompound(part), child)], PartText(rest[0].1), rest[0].0.child, out),
                  RestText(rest[1..]) + trail + ",", r)
    ensures Goes(Open(parts, PartText(part), child, out), RestText(rest) + trail + ",", r)
  {
    var here, g, next := parts + [(PartCompound(part), child)], rest[0].0, rest[0].1;
    PartReads(part);
    GapReads(parts, PartText(part), child, out, PartCompound(part), g);
    PartPends(here, g.child, out, next);
    GoesThrice(Open(parts, PartText(part), child, out), GapText(g), Open(here, "", g.child, out), PartText(next),
               Open(here, PartText(next), g.child, out), RestText(rest[1..]) + trail + ",", r);
    RestTextSplits(rest, trail);
  }

  lemma {:induction false} ChainTextSplits(c: Chain)
    ensures ChainText(c) + "," == c.lead + (PartText(c.first) + (RestText(c.rest) + c.trail + ","))
  {
  }

  lemma {:induction false} ChainReads(c: Chain, out: seq<Selector>, all: Selector)
    requires ChainOk(c) && all == ChainSelector(c)
    ensures Goes(Open([], "", false, out), ChainText(c) + ",", Closed(all, out))
  {
    var start, first := Open([], "", false, out), Open([], PartText(c.first), false, out);
    SpacesRead([], false, out, c.lead);
    PartPends([], false, out, c.first);
    assert [] + [(PartCompound(c.first), false)] + RestSelector(c.rest) == all;
    RestReads([], c.first, false, c.rest, c.trail, out, all);
    GoesThrice(start, c.lead, start, PartText(c.first), first, RestText(c.rest) + c.trail + ",", Closed(all, out));
    ChainTextSplits(c);
  }

  // ---- whole rules ----

  /** At most sixteen parts in an alternative and thirty-two alternatives in all. */
  predicate WithinLimits(chains: seq<Chain>, others: nat) {
    others + |chains| <= 32 && forall i :: 0 <= i < |chains| ==> |chains[i].rest| < 16
  }

  lemma {:induction false} RestLength(rest: seq<(Gap, Part)>)
    requires forall i :: 0 <= i < |rest| ==> PartOk(rest[i].1)
    ensures |RestSelector(rest)| == |rest|
  {
    if rest != [] {
      RestLength(rest[1..]);
    }
  }

  lemma {:induction false} FewerChains(chains: seq<Chain>, others: nat)
    requires chains != []
    ensures WithinLimits(chains, others) <==> |chains[0].rest| < 16 && WithinLimits(chains[1..], others + 1)
  {
    assert forall i :: 0 < i < |chains| ==> chains[i] == chains[1..][i - 1];
  }

  /** What the alternatives are read as, or refused. */
  ghost predicate ReadAs(r: Result<Scan, Error>, chains: seq<Chain>, out: seq<Selector>)
    requires forall i :: 0 <= i < |chains| ==> ChainOk(chains[i])
  {
    if WithinLimits(chains, |out|) then r == Ok(Open([], "", false, out + RuleSelectors(chains))) else r.Err?
  }

  /** What is left of a rule with its final comma behind its first alternative. */
  function More(chains: seq<Chain>): string
    requires chains != []
  {
    if |chains| == 1 then "" else RuleText(chains[1..]) + ","
  }

  lemma {:induction false} FirstReads(chains: seq<Chain>, out: seq<Selector>)
    requires chains != [] && ChainOk(chains[0])
    ensures ScanFrom(Open([], "", false, out), RuleText(chains) + ",") ==
            Continue(Closed(ChainSelector(chains[0]), out), More(chains))
  {
    ChainReads(chains[0], out, ChainSelector(chains[0]));
    GoesWith(Open([], "", false, out), ChainText(chains[0]) + ",", Closed(ChainSelector(chains[0]), out), More(chains));
    assert RuleText(chains) + "," == ChainText(chains[0]) + "," + More(chains);
  }

  lemma {:induction false} ListStep(chains: seq<Chain>, out: seq<Selector>, r: Result<Scan, Error>, rest: Result<Scan, Error>)
    requires chains != [] && (forall i :: 0 <= i < |chains| ==> ChainOk(chains[i])) && |out| <= 32
    requires r == if Closed(ChainSelector(chains[0]), out).Ok? then rest else Err(Closed(ChainSelector(chains[0]), out).error)
    requires |out| < 32 ==> ReadAs(rest, chains[1..], out + [ChainSelector(chains[0])])
    ensures ReadAs(r, chains, out)
  {
    RestLength(chains[0].rest);
    FewerChains(chains, |out|);
    assert out + [ChainSelector(chains[0])] + RuleSelectors(chains[1..]) == out + RuleSelectors(chains);
  }

  lemma {:induction false} ListReads(chains: seq<Chain>, out: seq<Selector>)
    requires chains != [] && (forall i :: 0 <= i < |chains| ==> ChainOk(chains[i])) && |out| <= 32
    ensures ReadAs(ScanFrom(Open([], "", false, out), RuleText(chains) + ","), chains, out)
    decreases |chains|
  {
    var next := out + [ChainSelector(chains[0])];
    var rest := ScanFrom(Open([], "", false, next), More(chains));
    FirstReads(chains, out);
    if |out| < 32 {
      if |chains| == 1 {
        assert next + RuleSelectors(chains[1..]) == next;
      } else {
        ListReads(chains[1..], next);
      }
    }
    ListStep(chains, out, ScanFrom(Open([], "", false, out), RuleText(chains) + ","), rest);
  }

  /** A rule is read as what it was written from, unless it passes a limit. */
  lemma {:induction false} RuleReads(chains: seq<Chain>, out: seq<Selector>)
    requires RuleOk(chains) && |out| <= 32
    ensures if WithinLimits(chains, |out|) then ParseRule(RuleText(chains), out) == Ok(out + RuleSelectors(chains))
            else ParseRule(RuleText(chains), out).Err?
  {
    TextNonempty(chains);
    ListReads(chains, out);
  }

  lemma {:induction false} TextNonempty(chains: seq<Chain>)
    requires chains != [] && forall i :: 0 <= i < |chains| ==> ChainOk(chains[i])
    ensures RuleText(chains) != ""
  {
    PartReads(chains[0].first);
  }
}
