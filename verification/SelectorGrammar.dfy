/** Unsupported selectors are rejected, never approximated: whatever the reader accepts is written by the grammar
    of the bounded CSS subset, and so is read as what it was written from. */
module SelectorGrammar {
  import opened Wrappers
  import opened Characters
  import opened Decimals
  import opened Selectors
  import opened SelectorTexts
  import opened SelectorReading

  // ---- what was read, spelled out again ----

  /** The text from `p` to `q`. */
  predicate Spans(b: string, p: nat, q: nat, piece: string) {
    p <= q <= |b| && b[p..q] == piece
  }

  lemma {:induction false} SpansJoin(b: string, p: nat, q: nat, r: nat, x: string, y: string)
    requires Spans(b, p, q, x) && Spans(b, q, r, y)
    ensures Spans(b, p, r, x + y)
  {
    assert b[p..r] == b[p..q] + b[q..r];
  }

  lemma {:induction false} Regroup(a: string, b: string, c: string, d: string)
    ensures (a + b) + c + d == a + (b + c + d)
  {
  }

  lemma {:induction false} Inside(a: string, b: string, c: string, d: string)
    ensures a + b + c + d == a + (b + c) + d
  {
  }

  lemma {:induction false} NameSpelled(b: string, p: nat)
    requires p <= |b| && Identifier(b, p).Ok?
    ensures var (name, q) := Identifier(b, p).value; IsName(name) && Spans(b, p, q, name)
  {
    RunEndSpec(b, p, IsIdentChar);
  }

  lemma {:induction false} BlanksSpelled(b: string, p: nat)
    requires p <= |b|
    ensures var q := RunEnd(b, p, IsSpace); Spans(b, p, q, Blanks(q - p))
  {
    RunEndSpec(b, p, IsSpace);
  }

  lemma {:induction false} MarkSpelled(b: string, p: nat)
    requires p < |b|
    ensures Spans(b, p, p + 1, [b[p]])
  {
  }

  lemma {:induction false} ValueSpelled(b: string, p: nat) returns (quote: Option<char>)
    requires p <= |b| && AttributeValue(b, p).Ok?
    ensures var (value, q) := AttributeValue(b, p).value; ValueOk(value, quote) && Spans(b, p, q, Quoted(value, quote))
  {
    if p < |b| && (b[p] == '\'' || b[p] == '"') {
      quote := Some(b[p]);
      var e := RunEnd(b, p + 1, c => c != b[p]);
      RunEndSpec(b, p + 1, c => c != b[p]);
      assert b[p..e + 1] == [b[p]] + b[p + 1..e] + [b[e]];
    } else {
      quote := None;
      NameSpelled(b, p);
    }
  }

  lemma {:induction false} ThreeSpelled(b: string, p: nat, s: nat, v: nat, w: nat, x: string, y: string, z: string)
    requires Spans(b, p, s, x) && Spans(b, s, v, y) && Spans(b, v, w, z) && w < |b|
    ensures Spans(b, p, w + 1, x + y + z + [b[w]])
  {
    SpansJoin(b, p, s, v, x, y);
    SpansJoin(b, p, v, w, x + y, z);
    MarkSpelled(b, w);
    SpansJoin(b, p, w, w + 1, x + y + z, [b[w]]);
  }

  lemma {:induction false} EqualsSpelled(b: string, p: nat, name: string) returns (t: Test)
    requires p <= |b| && IsName(name) && AttributeIs(b, p, LowerAll(name)).Ok?
    ensures t.AttrIs? && t.name == name && t.left == 0 && TestOk(t)
    ensures Spans(b, p, AttributeIs(b, p, LowerAll(name)).value.1,
                  Blanks(t.right) + Quoted(t.value, t.quote) + Blanks(t.pad) + "]")
  {
    var s := RunEnd(b, p, IsSpace);
    BlanksSpelled(b, p);
    var quote := ValueSpelled(b, s);
    var (value, v) := AttributeValue(b, s).value;
    var w := RunEnd(b, v, IsSpace);
    BlanksSpelled(b, v);
    ThreeSpelled(b, p, s, v, w, Blanks(s - p), Quoted(value, quote), Blanks(w - v));
    t := AttrIs(name, value, quote, 0, s - p, w - v);
  }

  lemma {:induction false} AttributeSpelled(b: string, p: nat) returns (t: Test)
    requires p <= |b| && Attribute(b, p).Ok?
    ensures (t.HasAttr? || t.AttrIs?) && TestOk(t)
    ensures Spans(b, p, Attribute(b, p).value.1, TestText(t)[1..])
  {
    NameSpelled(b, p);
    var (name, n) := Identifier(b, p).value;
    var q := RunEnd(b, n, IsSpace);
    BlanksSpelled(b, n);
    SpansJoin(b, p, n, q, name, Blanks(q - n));
    MarkSpelled(b, q);
    SpansJoin(b, p, q, q + 1, name + Blanks(q - n), [b[q]]);
    if b[q] == '=' {
      var rest := EqualsSpelled(b, q + 1, name);
      t := rest.(left := q - n);
      EqualsOpens(b, p, q + 1, AttributeIs(b, q + 1, LowerAll(name)).value.1, t);
    } else {
      t := HasAttr(name, q - n);
      assert ("[" + NameBody(name, q - n))[1..] == NameBody(name, q - n);
    }
  }

  lemma {:induction false} EqualsOpens(b: string, p: nat, q: nat, r: nat, t: Test)
    requires t.AttrIs? && Spans(b, p, q, t.name + Blanks(t.left) + "=")
    requires Spans(b, q, r, Blanks(t.right) + Quoted(t.value, t.quote) + Blanks(t.pad) + "]")
    ensures Spans(b, p, r, TestText(t)[1..])
  {
    var front, back := t.name + Blanks(t.left) + "=", Blanks(t.right) + Quoted(t.value, t.quote) + Blanks(t.pad) + "]";
    SpansJoin(b, p, q, r, front, back);
    var body := EqualsBody(t.name, t.left, t.right, Quoted(t.value, t.quote), t.pad);
    assert front + back == body;
    assert ("[" + body)[1..] == body;
  }

  lemma {:induction false} IndexSpelled(b: string, p: nat) returns (t: Test)
    requires p <= |b| && NthChild(b, p).Ok?
    ensures t.ChildIs? && TestOk(t) && Spans(b, p, NthChild(b, p).value.1, TestText(t))
  {
    var start := p + |NTH_CHILD|;
    var e := RunEnd(b, start, IsDigit);
    RunEndSpec(b, start, IsDigit);
    t := ChildIs(b[start..e]);
    assert b[p..][..|NTH_CHILD|] == b[p..start];
    MarkSpelled(b, e);
    SpansJoin(b, p, start, e, NTH_CHILD, b[start..e]);
    SpansJoin(b, p, e, e + 1, NTH_CHILD + b[start..e], ")");
  }

  predicate AllTestsOk(tests: seq<Test>) {
    forall i :: 0 <= i < |tests| ==> TestOk(tests[i])
  }

  predicate NoId(tests: seq<Test>) {
    forall i :: 0 <= i < |tests| ==> !tests[i].IdIs?
  }

  predicate OneId(tests: seq<Test>) {
    forall i, j :: 0 <= i < j < |tests| ==> !(tests[i].IdIs? && tests[j].IdIs?)
  }

  /** The tests that stand from `p` on, the reader having gone through them with `c` in hand. */
  predicate Written(b: string, p: nat, c: Compound, tests: seq<Test>) {
    AllTestsOk(tests) && OneId(tests) && (c.id.Some? ==> NoId(tests)) && Spans(b, p, |b|, TestsText(tests))
  }

  lemma {:induction false} TestBefore(b: string, p: nat, q: nat, t: Test, rest: seq<Test>, c: Compound, next: Compound)
    requires TestOk(t) && Spans(b, p, q, TestText(t)) && Written(b, q, next, rest)
    requires if t.IdIs? then c.id.None? && next.id.Some? else next.id == c.id
    ensures Written(b, p, c, [t] + rest)
  {
    var tests := [t] + rest;
    SpansJoin(b, p, q, |b|, TestText(t), TestsText(rest));
    assert tests[1..] == rest;
    assert forall i :: 0 < i < |tests| ==> tests[i] == rest[i - 1];
  }

  lemma {:induction false} FirstTest(b: string, p: nat, c: Compound) returns (t: Test, q: nat, next: Compound)
    requires p < |b| && CompoundFrom(b, p, c).Ok?
    ensures TestOk(t) && p < q && Spans(b, p, q, TestText(t)) && CompoundFrom(b, q, next) == CompoundFrom(b, p, c)
    ensures if t.IdIs? then c.id.None? && next.id.Some? else next.id == c.id
  {
    MarkSpelled(b, p);
    if b[p] == '#' {
      NameSpelled(b, p + 1);
      t, q := IdIs(Identifier(b, p + 1).value.0), Identifier(b, p + 1).value.1;
      next := c.(id := Some(t.name));
      SpansJoin(b, p, p + 1, q, "#", t.name);
    } else if b[p] == '.' {
      NameSpelled(b, p + 1);
      t, q := ClassIs(Identifier(b, p + 1).value.0), Identifier(b, p + 1).value.1;
      next := c.(classes := c.classes + [t.name]);
      SpansJoin(b, p, p + 1, q, ".", t.name);
    } else if b[p] == '[' {
      t := AttributeSpelled(b, p + 1);
      q := Attribute(b, p + 1).value.1;
      next := c.(attrs := c.attrs + [Attribute(b, p + 1).value.0]);
      SpansJoin(b, p, p + 1, q, "[", TestText(t)[1..]);
      assert "[" + TestText(t)[1..] == TestText(t);
    } else {
      t := IndexSpelled(b, p);
      q := NthChild(b, p).value.1;
      next := c.(nth := Some(NthChild(b, p).value.0));
    }
  }

  lemma {:induction false} TestsSpelled(b: string, p: nat, c: Compound) returns (tests: seq<Test>)
    requires p <= |b| && CompoundFrom(b, p, c).Ok?
    ensures Written(b, p, c, tests)
    decreases |b| - p
  {
    if p == |b| {
      tests := [];
    } else {
      var t, q, next := FirstTest(b, p, c);
      var rest := TestsSpelled(b, q, next);
      TestBefore(b, p, q, t, rest, c, next);
      tests := [t] + rest;
    }
  }

  /** A compound that is accepted is a subject with its tests. */
  lemma {:induction false} PartSpelled(s: string) returns (part: Part)
    requires s != "" && ParseCompound(s).Ok?
    ensures PartOk(part) && PartText(part) == s
  {
    if s[0] == '*' {
      var tests := TestsSpelled(s, 1, ANY);
      part := Part(Star, tests);
      assert s == s[..1] + s[1..];
    } else if IsAlpha(s[0]) {
      NameSpelled(s, 0);
      var (tag, p) := Identifier(s, 0).value;
      var tests := TestsSpelled(s, p, ANY.(tag := Some(LowerAll(tag))));
      part := Part(Tag(tag), tests);
      assert s == s[..p] + s[p..];
    } else {
      var tests := TestsSpelled(s, 0, ANY);
      part := Part(Anything, tests);
    }
  }

  // ---- the scanner over a whole rule ----

  const NO_GAP := Gap("", false, "")

  /** What a scanner has gone through: whole alternatives, then white space and parts of one, each with the gap
      before it (the first one has none), and the gap that is open. */
  datatype Passed = Passed(chains: seq<Chain>, lead: string, parts: seq<(Gap, Part)>, gap: Gap)

  function CommaText(chains: seq<Chain>): string {
    if chains == [] then "" else CommaText(chains[..|chains| - 1]) + ChainText(chains[|chains| - 1]) + ","
  }

  function PassedText(w: Passed): string {
    CommaText(w.chains) + (w.lead + RestText(w.parts) + GapText(w.gap))
  }

  predicate PartsOk(parts: seq<(Gap, Part)>) {
    (parts != [] ==> parts[0].0 == NO_GAP) &&
    forall i :: 0 <= i < |parts| ==> PartOk(parts[i].1) && (i > 0 ==> GapOk(parts[i].0))
  }

  predicate PassedOk(w: Passed) {
    (forall i :: 0 <= i < |w.chains| ==> ChainOk(w.chains[i])) && IsSpaces(w.lead) && PartsOk(w.parts) &&
    IsSpaces(w.gap.space) && IsSpaces(w.gap.more) && (!w.gap.child ==> w.gap.more == "") &&
    (w.parts == [] ==> w.gap == NO_GAP)
  }

  /** The scanner is where the text ends. */
  predicate StandsAfter(st: Scan, w: Passed, text: string) {
    PassedOk(w) && text == PassedText(w) + st.token && st.child == w.gap.child && |st.parts| == |w.parts|
  }

  /** It is not right behind a part that it has gone through. */
  predicate Fits(st: Scan, w: Passed, text: string) {
    StandsAfter(st, w, text) && (w.parts != [] ==> GapOk(w.gap))
  }

  lemma {:induction false} RestAppends(rest: seq<(Gap, Part)>, gap: Gap, part: Part)
    ensures RestText(rest + [(gap, part)]) == RestText(rest) + GapText(gap) + PartText(part)
  {
    var all := rest + [(gap, part)];
    if rest == [] {
      assert all[1..] == [];
      assert RestText(all) == GapText(gap) + PartText(part) + "";
    } else {
      assert all[1..] == rest[1..] + [(gap, part)];
      RestAppends(rest[1..], gap, part);
      Regroup(GapText(rest[0].0) + PartText(rest[0].1), RestText(rest[1..]), GapText(gap), PartText(part));
    }
  }

  lemma {:induction false} PartPasses(w: Passed, part: Part) returns (next: Passed)
    requires PassedOk(w) && PartOk(part) && (w.parts != [] ==> GapOk(w.gap))
    ensures PassedOk(next) && PassedText(next) == PassedText(w) + PartText(part)
    ensures next == w.(parts := w.parts + [(w.gap, part)], gap := NO_GAP)
  {
    next := w.(parts := w.parts + [(w.gap, part)], gap := NO_GAP);
    RestAppends(w.parts, w.gap, part);
    Longer(CommaText(w.chains), w.lead, RestText(w.parts), GapText(w.gap), PartText(part));
  }

  lemma {:induction false} Longer(a: string, b: string, c: string, d: string, e: string)
    ensures a + (b + (c + d + e) + GapText(NO_GAP)) == a + (b + c + d) + e
  {
    assert b + (c + d + e) + GapText(NO_GAP) == b + c + d + e;
  }

  lemma {:induction false} FlushSpelled(st: Scan, w: Passed, text: string) returns (next: Passed)
    requires Fits(st, w, text) && Flush(st).Ok?
    ensures StandsAfter(Flush(st).value, next, text) && Flush(st).value.token == ""
  {
    next := w;
    if st.token != "" {
      var part := PartSpelled(st.token);
      next := PartPasses(w, part);
    }
  }

  /** The alternative that ends at a comma. */
  function ChainOf(w: Passed): Chain
    requires w.parts != []
  {
    Chain(w.lead, w.parts[0].1, w.parts[1..], w.gap.space)
  }

  lemma {:induction false} FirstPart(parts: seq<(Gap, Part)>)
    requires parts != [] && parts[0].0 == NO_GAP
    ensures RestText(parts) == PartText(parts[0].1) + RestText(parts[1..])
  {
    var first, rest := PartText(parts[0].1), RestText(parts[1..]);
    assert GapText(NO_GAP) == "";
    assert RestText(parts) == "" + first + rest;
  }

  lemma {:induction false} PlainGap(g: Gap)
    requires !g.child && g.more == ""
    ensures GapText(g) == g.space
  {
  }

  lemma {:induction false} ChainCloses(w: Passed)
    requires PassedOk(w) && w.parts != [] && !w.gap.child
    ensures ChainOk(ChainOf(w)) && ChainText(ChainOf(w)) == w.lead + RestText(w.parts) + GapText(w.gap)
  {
    FirstPart(w.parts);
    PlainGap(w.gap);
    Inside(w.lead, PartText(w.parts[0].1), RestText(w.parts[1..]), w.gap.space);
  }

  lemma {:induction false} CommaSpelled(w: Passed) returns (next: Passed)
    requires PassedOk(w) && w.parts != [] && !w.gap.child
    ensures next == Passed(w.chains + [ChainOf(w)], "", [], NO_GAP)
    ensures PassedOk(next) && PassedText(next) == PassedText(w) + ","
  {
    ChainCloses(w);
    next := Passed(w.chains + [ChainOf(w)], "", [], NO_GAP);
    assert next.chains[..|w.chains|] == w.chains;
    assert PassedText(next) == CommaText(next.chains);
  }

  function WithSpace(g: Gap, ch: char): Gap {
    if g.child then g.(more := g.more + [ch]) else g.(space := g.space + [ch])
  }

  lemma {:induction false} GapGrows(g: Gap, ch: char)
    requires IsAsciiWhitespace(ch) && IsSpaces(g.space) && IsSpaces(g.more) && (!g.child ==> g.more == "")
    ensures GapText(WithSpace(g, ch)) == GapText(g) + [ch] && GapOk(WithSpace(g, ch))
  {
  }

  lemma {:induction false} SpaceSpelled(w: Passed, ch: char) returns (next: Passed)
    requires PassedOk(w) && IsAsciiWhitespace(ch)
    ensures PassedOk(next) && PassedText(next) == PassedText(w) + [ch]
    ensures next.parts == w.parts && next.chains == w.chains && next.gap.child == w.gap.child
    ensures w.parts != [] ==> GapOk(next.gap)
  {
    var before := CommaText(w.chains);
    if w.parts == [] {
      next := w.(lead := w.lead + [ch]);
      assert GapText(NO_GAP) == "" && PassedText(w) == before + (w.lead + "" + "");
      assert PassedText(next) == before + (w.lead + [ch] + "" + "");
    } else {
      next := w.(gap := WithSpace(w.gap, ch));
      GapGrows(w.gap, ch);
      Inside(before, w.lead + RestText(w.parts), GapText(w.gap), [ch]);
    }
  }

  lemma {:induction false} ChildSpelled(w: Passed) returns (next: Passed)
    requires PassedOk(w) && w.parts != [] && !w.gap.child
    ensures next == w.(gap := w.gap.(child := true))
    ensures PassedOk(next) && PassedText(next) == PassedText(w) + ">"
  {
    next := w.(gap := w.gap.(child := true));
    assert GapText(next.gap) == GapText(w.gap) + ">";
  }

  /** Behind a separator, the scanner's new state being that of the text's new end. */
  lemma {:induction false} SeparateSpelled(st: Scan, ch: char, w: Passed, text: string) returns (next: Passed)
    requires Fits(st, w, text) && Separate(st, ch).Ok? && (IsAsciiWhitespace(ch) || ch == '>' || ch == ',')
    ensures Fits(Separate(st, ch).value, next, text + [ch])
    ensures ch == ',' ==> Whole(next, text + [ch])
  {
    var flushed := FlushSpelled(st, w, text);
    next := MarkPasses(Flush(st).value, ch, flushed, text);
  }

  /** Alternatives, and nothing behind their last comma. */
  predicate Whole(w: Passed, text: string) {
    PassedOk(w) && w.chains != [] && text == CommaText(w.chains)
  }

  lemma {:induction false} SeparateIs(st: Scan, ch: char)
    requires st.token == "" && Separate(st, ch).Ok?
    ensures ch == '>' ==> st.parts != [] && !st.child && Separate(st, ch).value == st.(child := true)
    ensures ch == ',' ==>
      st.parts != [] && !st.child && Separate(st, ch).value == st.(parts := [], out := st.out + [st.parts])
    ensures ch != '>' && ch != ',' ==> Separate(st, ch).value == st
  {
    assert Flush(st) == Ok(st);
  }

  lemma {:induction false} MarkPasses(st: Scan, ch: char, w: Passed, text: string) returns (next: Passed)
    requires StandsAfter(st, w, text) && st.token == "" && (IsAsciiWhitespace(ch) || ch == '>' || ch == ',')
    requires Separate(st, ch).Ok?
    ensures Fits(Separate(st, ch).value, next, text + [ch])
    ensures ch == ',' ==> Whole(next, text + [ch])
  {
    SeparateIs(st, ch);
    next := MarkMoves(st, ch, w, text, Separate(st, ch).value);
  }

  lemma {:induction false} MarkMoves(st: Scan, ch: char, w: Passed, text: string, after: Scan) returns (next: Passed)
    requires StandsAfter(st, w, text) && st.token == "" && (IsAsciiWhitespace(ch) || ch == '>' || ch == ',')
    requires ch == '>' || ch == ',' ==> st.parts != [] && !st.child
    requires after == if ch == '>' then st.(child := true)
                      else if ch == ',' then st.(parts := [], out := st.out + [st.parts]) else st
    ensures Fits(after, next, text + [ch])
    ensures ch == ',' ==> Whole(next, text + [ch])
  {
    assert text == PassedText(w);
    if ch == '>' {
      next := ChildSpelled(w);
    } else if ch == ',' {
      next := CommaSpelled(w);
      assert PassedText(next) == CommaText(next.chains);
    } else {
      next := SpaceSpelled(w, ch);
    }
    assert PassedText(next) + "" == text + [ch];
  }

  lemma {:induction false} TokenSpelled(st: Scan, ch: char, w: Passed, text: string, next: Scan)
    requires Fits(st, w, text)
    requires next.token == st.token + [ch] && next.child == st.child && next.parts == st.parts
    ensures Fits(next, w, text + [ch])
  {
  }

  /** The scanner has gone through alternatives and no more when it is behind a comma and outside
      brackets and quotes. */
  predicate GoneThrough(st: Scan, w: Passed, text: string) {
    Fits(st, w, text) && (st.quote.Some? ==> st.quote.value != ',') &&
    (text != "" && text[|text| - 1] == ',' && st.bracket == 0 && st.quote.None? ==> Whole(w, text))
  }

  ghost predicate Through(st: Scan, text: string) {
    exists w :: GoneThrough(st, w, text)
  }

  predicate Marks(st: Scan, ch: char) {
    st.quote.None? && !(st.bracket > 0 && (ch == '\'' || ch == '"')) && (IsAsciiWhitespace(ch) || ch == '>' || ch == ',')
  }

  lemma {:induction false} StepIs(st: Scan, ch: char)
    requires Step(st, ch).Ok? && (st.quote.Some? ==> st.quote.value != ',')
    ensures var next := Step(st, ch).value;
            (next.quote.Some? ==> next.quote.value != ',') &&
            if Marks(st, ch) && st.bracket == 0 then Step(st, ch) == Separate(st, ch)
            else next.token == st.token + [ch] && next.child == st.child && next.parts == st.parts &&
                 (ch == ',' ==> next.bracket != 0 || next.quote.Some?)
  {
    if Marks(st, ch) && st.bracket == 0 {
      assert st.(bracket := 0) == st;
    }
  }

  lemma {:induction false} StepSpelled(st: Scan, ch: char, text: string)
    requires Through(st, text) && Step(st, ch).Ok?
    ensures Through(Step(st, ch).value, text + [ch])
  {
    var w :| GoneThrough(st, w, text);
    StepIs(st, ch);
    if Marks(st, ch) && st.bracket == 0 {
      var next := SeparateSpelled(st, ch, w, text);
      assert GoneThrough(Separate(st, ch).value, next, text + [ch]);
    } else {
      TokenSpelled(st, ch, w, text, Step(st, ch).value);
      assert GoneThrough(Step(st, ch).value, w, text + [ch]);
    }
  }

  /** What every character keeps, every text keeps. */
  lemma {:induction false} ScanKeeps(kept: (Scan, string) -> bool, st: Scan, rest: string, text: string)
    requires forall s, ch, t :: kept(s, t) && Step(s, ch).Ok? ==> kept(Step(s, ch).value, t + [ch])
    requires kept(st, text) && ScanFrom(st, rest).Ok?
    ensures kept(ScanFrom(st, rest).value, text + rest)
    decreases |rest|
  {
    if rest == "" {
      assert text + rest == text;
    } else {
      ScanKeeps(kept, Step(st, rest[0]).value, rest[1..], text + [rest[0]]);
      assert text + [rest[0]] + rest[1..] == text + rest;
    }
  }

  // ---- the grammar is exact ----

  lemma {:induction false} CommaRule(chains: seq<Chain>)
    requires chains != []
    ensures CommaText(chains) == RuleText(chains) + ","
  {
    var first, rest := chains[0], chains[1..];
    CommaAfter(first, rest);
    assert chains == [first] + rest;
    if rest == [] {
      assert ChainText(first) + "," + "" == ChainText(first) + ",";
    } else {
      CommaRule(rest);
      Inside("", ChainText(first) + ",", RuleText(rest), ",");
      assert RuleText(chains) == ChainText(first) + "," + RuleText(rest);
    }
  }

  lemma {:induction false} CommaAfter(first: Chain, chains: seq<Chain>)
    ensures CommaText([first] + chains) == ChainText(first) + "," + CommaText(chains)
  {
    var all, n := [first] + chains, |chains|;
    if n > 0 {
      var last := ChainText(chains[n - 1]);
      CommaAfter(first, chains[..n - 1]);
      assert all[..n] == [first] + chains[..n - 1] && all[n] == chains[n - 1];
      assert CommaText(all) == CommaText(all[..n]) + last + ",";
      Regroup(ChainText(first) + ",", CommaText(chains[..n - 1]), last, ",");
    } else {
      assert all[..0] == [] && CommaText(all) == "" + ChainText(first) + ",";
    }
  }

  lemma {:induction false} AcceptedSpelled(source: string, out: seq<Selector>) returns (chains: seq<Chain>)
    requires ParseRule(source, out).Ok?
    ensures RuleOk(chains) && RuleText(chains) == source
  {
    var start, text := Scan("", [], 0, None, false, out), source + ",";
    assert GoneThrough(start, Passed([], "", [], NO_GAP), "");
    forall s: Scan, ch, t | Through(s, t) && Step(s, ch).Ok?
      ensures Through(Step(s, ch).value, t + [ch])
    {
      StepSpelled(s, ch, t);
    }
    ScanKeeps((s, t) => Through(s, t), start, text, "");
    assert "" + text == text;
    var w :| GoneThrough(ScanFrom(start, text).value, w, text);
    chains := w.chains;
    CommaRule(chains);
    assert text[..|source|] == source && (RuleText(chains) + ",")[..|text| - 1] == RuleText(chains);
  }

  /** A rule is accepted if and only if it is written by the grammar, within the limits. */
  lemma {:induction false} RuleAccepted(source: string, out: seq<Selector>)
    requires |out| <= 32
    ensures ParseRule(source, out).Ok? <==>
      exists chains :: RuleOk(chains) && RuleText(chains) == source && WithinLimits(chains, |out|)
  {
    if ParseRule(source, out).Ok? {
      var chains := AcceptedSpelled(source, out);
      RuleReads(chains, out);
    }
    if chains :| RuleOk(chains) && RuleText(chains) == source && WithinLimits(chains, |out|) {
      RuleReads(chains, out);
    }
  }
}
