/** The selector the page preview writes on an element, read back by the rule parser: it names
    that element and no other, if and only if it is a unique id, or a path of at most sixteen
    elements whose tags are plain identifiers and that nothing deeper in the page repeats. */
module PreviewSelectors {
  import opened Wrappers
  import opened Characters
  import opened Decimals
  import opened Selectors
  import opened PreviewPaths

  /** Tags as the HTML parser spells them: a lower-case letter, and then anything but upper-case
      letters, white space, slashes and closing angles. */
  predicate ParsedTag(tag: string) {
    tag != "" && 'a' <= tag[0] <= 'z' &&
    forall i :: 0 <= i < |tag| ==> !IsAsciiWhitespace(tag[i]) && tag[i] != '>' && !('A' <= tag[i] <= 'Z')
  }

  predicate ParsedAt(root: Node, at: Address, n: nat)
    requires Valid(root, at)
  {
    0 < n <= |at| && (PrefixValid(root, at, n); NodeAt(root, at[..n]).Element?) && ParsedTag(NodeAt(root, at[..n]).tag)
  }

  ghost predicate ParsedPath(root: Node, at: Address) {
    Valid(root, at) && forall n :: 0 < n <= |at| ==> ParsedAt(root, at, n)
  }

  /** The rules are one rule, which names the element and no other. */
  ghost predicate Named(rules: Result<seq<Selector>, Error>, root: Node, at: Address) {
    rules.Ok? && |rules.value| == 1 && NamesExactly(rules.value[0], root, at)
  }

  // ---- matching a path from its end ----

  /** A rule of children only matches a node through its nearest ancestors. */
  lemma {:induction false} MatchesChain(rule: Selector, root: Node, at: Address, k: nat)
    requires rule != [] && ChildOnly(rule) && Valid(root, at) && Matches(rule, root, at) && k < |rule|
    ensures |rule| <= |at| + 1
    ensures Valid(root, at[..|at| + 1 + k - |rule|]) && MatchesCompound(rule[k].0, root, at[..|at| + 1 + k - |rule|])
    decreases |rule|
  {
    var before := rule[..|rule| - 1];
    if before != [] {
      var n :| 0 <= n < |at| && (rule[|rule| - 1].1 ==> n == |at| - 1) && MatchesAncestor(before, root, at, n);
      PrefixValid(root, at, n);
      MatchesChain(before, root, at[..n], if k < |before| then k else 0);
      if k < |before| {
        assert at[..n][..n + 1 + k - |before|] == at[..|at| + 1 + k - |rule|];
      }
    }
    assert at[..|at|] == at;
  }

  // ---- what the scanner makes of a path ----

  lemma {:induction false} ScanAppend(st: Scan, a: string, b: string)
    ensures ScanFrom(st, a + b) == if ScanFrom(st, a).Ok? then ScanFrom(ScanFrom(st, a).value, b) else ScanFrom(st, a)
    decreases |a|
  {
    if a == "" {
      assert a + b == b;
    } else {
      assert (a + b)[0] == a[0] && (a + b)[1..] == a[1..] + b;
      if Step(st, a[0]).Ok? {
        ScanAppend(Step(st, a[0]).value, a[1..], b);
      }
    }
  }

  /** Inside brackets or quotes nothing separates. */
  predicate Inside(st: Scan) {
    st.bracket != 0 || st.quote.Some?
  }

  /** A rule is complete, or a token has been begun with a letter. */
  predicate Begun(st: Scan) {
    (st.quote.Some? ==> st.quote.value in {'\'', '"'}) &&
    (st.out != [] || (st.token != "" && 'a' <= st.token[0] <= 'z'))
  }

  /** No character that separates compounds. */
  predicate Solid(s: string) {
    forall i :: 0 <= i < |s| ==> s[i] != '>' && !IsAsciiWhitespace(s[i])
  }

  lemma {:induction false} StepBegun(st: Scan, ch: char)
    requires Begun(st) && ch != '>' && !IsAsciiWhitespace(ch) && Step(st, ch).Ok?
    ensures Begun(Step(st, ch).value)
  {
  }

  lemma {:induction false} ScanBegun(st: Scan, s: string)
    requires Begun(st) && Solid(s) && ScanFrom(st, s).Ok?
    ensures Begun(ScanFrom(st, s).value)
    decreases |s|
  {
    if s != "" {
      StepBegun(st, s[0]);
      ScanBegun(Step(st, s[0]).value, s[1..]);
    }
  }

  /** What a child combinator does: inside brackets nothing, elsewhere it ends the compound. */
  lemma {:induction false} Combinator(st: Scan)
    requires Begun(st) && ScanFrom(st, " > ").Ok?
    ensures var next := ScanFrom(st, " > ").value;
            if Inside(st) then next == st.(token := st.token + " > ")
            else Flush(st).Ok? && next == Flush(st).value.(child := true) && !Inside(next) && next.token == ""
  {
    assert " > " == [' '] + (['>'] + ([' '] + ""));
    ScanStep(st, ' ', ['>'] + ([' '] + ""));
    var one := Step(st, ' ').value;
    ScanStep(one, '>', [' '] + "");
    var two := Step(one, '>').value;
    ScanStep(two, ' ', "");
    if Inside(st) {
      assert st.token + [' '] + ['>'] + [' '] == st.token + " > ";
    }
  }

  /** After a combinator, a segment begins a token again. */
  lemma {:induction false} SegmentBegun(st: Scan, s: string)
    requires Begun(st) && Solid(s) && s != "" && 'a' <= s[0] <= 'z' && ScanFrom(st, " > " + s).Ok?
    ensures Begun(ScanFrom(st, " > " + s).value)
  {
    ScanAppend(st, " > ", s);
    Combinator(st);
    FirstBegun(ScanFrom(st, " > ").value, s);
  }

  lemma {:induction false} FirstBegun(st: Scan, s: string)
    requires Begun(st) || (st.token == "" && !Inside(st))
    requires Solid(s) && s != "" && 'a' <= s[0] <= 'z' && ScanFrom(st, s).Ok?
    ensures Begun(ScanFrom(st, s).value)
  {
    if !Begun(st) {
      ScanBegun(Step(st, s[0]).value, s[1..]);
    } else {
      ScanBegun(st, s);
    }
  }

  lemma {:induction false} SegmentSolid(tag: string, ordinal: nat)
    requires ParsedTag(tag)
    ensures Solid(Segment(tag, ordinal)) && 'a' <= Segment(tag, ordinal)[0] <= 'z'
  {
    var s := Segment(tag, ordinal);
    forall i | 0 <= i < |s|
      ensures s[i] != '>' && !IsAsciiWhitespace(s[i])
    {
      if i < |tag| {
        assert s[i] == tag[i];
      } else if i < |tag| + 11 {
        assert s[i] == NTH_CHILD[i - |tag|];
      } else if i < |tag| + 11 + |Decimal(ordinal)| {
        assert s[i] == Decimal(ordinal)[i - |tag| - 11];
      }
    }
  }

  // ---- the compound of a segment that cannot be read ----

  lemma {:induction false} CompoundTag(b: string, p: nat, c: Compound)
    requires p <= |b| && CompoundFrom(b, p, c).Ok?
    ensures CompoundFrom(b, p, c).value.tag == c.tag
    decreases |b| - p
  {
    if p < |b| {
      if b[p] == '#' {
        var r := Identifier(b, p + 1).value;
        CompoundTag(b, r.1, c.(id := Some(r.0)));
      } else if b[p] == '.' {
        var r := Identifier(b, p + 1).value;
        CompoundTag(b, r.1, c.(classes := c.classes + [r.0]));
      } else if b[p] == '[' {
        var r := Attribute(b, p + 1).value;
        CompoundTag(b, r.1, c.(attrs := c.attrs + [r.0]));
      } else {
        var r := NthChild(b, p).value;
        CompoundTag(b, r.1, c.(nth := Some(r.0)));
      }
    }
  }

  predicate IsIdent(tag: Option<string>) {
    tag.Some? && forall i :: 0 <= i < |tag.value| ==> IsIdentChar(tag.value[i])
  }

  /** A token that begins with a letter has an identifier for its tag. */
  lemma {:induction false} TokenIdent(token: string)
    requires token != "" && 'a' <= token[0] <= 'z' && ParseCompound(token).Ok?
    ensures IsIdent(ParseCompound(token).value.tag)
  {
    var (tag, p) := Identifier(token, 0).value;
    RunEndSpec(token, 0, IsIdentChar);
    CompoundTag(token, p, ANY.(tag := Some(LowerAll(tag))));
  }

  /** The compound asks for another tag. */
  predicate Asks(c: Compound, tag: string) {
    c.tag.Some? && c.tag.value != tag
  }

  /** `m` compounds back from the token being read there is one that asks for another tag than
      `tag`; or the path has fallen apart, or hangs in brackets. */
  predicate Trails(st: Scan, m: nat, tag: string) {
    Begun(st) &&
    (st.out != [] || Inside(st) ||
     if m == 0 then ParseCompound(st.token).Ok? ==> Asks(ParseCompound(st.token).value, tag)
     else m <= |st.parts| && Asks(st.parts[|st.parts| - m].0, tag))
  }

  /** Plain and without quotes, as tags that are identifiers and their ordinals are. */
  predicate Bare(s: string) {
    Plain(s) && forall i :: 0 <= i < |s| ==> s[i] !in {'\'', '"'}
  }

  lemma {:induction false} SegmentBare(tag: string, ordinal: nat)
    requires SimpleTag(tag)
    ensures Bare(Segment(tag, ordinal)) && Solid(Segment(tag, ordinal)) && 'a' <= Segment(tag, ordinal)[0] <= 'z'
  {
    TagPlain(tag);
    SegmentPlain(tag, ordinal);
    var s := Segment(tag, ordinal);
    forall i | 0 <= i < |s|
      ensures s[i] !in {'\'', '"'}
    {
      if i < |tag| {
        assert s[i] == tag[i];
      } else if i < |tag| + 11 {
        assert s[i] == NTH_CHILD[i - |tag|];
      } else if i < |tag| + 11 + |Decimal(ordinal)| {
        assert s[i] == Decimal(ordinal)[i - |tag| - 11];
      }
    }
  }

  /** Inside brackets it stays there, and a complete rule stays complete. */
  lemma {:induction false} StaysInside(st: Scan, s: string)
    requires Begun(st) && Bare(s) && Inside(st) && ScanFrom(st, s).Ok?
    ensures Inside(ScanFrom(st, s).value)
    decreases |s|
  {
    if s != "" {
      StepBegun(st, s[0]);
      StaysInside(Step(st, s[0]).value, s[1..]);
    }
  }

  lemma {:induction false} OutStays(st: Scan, s: string)
    requires ScanFrom(st, s).Ok?
    ensures |ScanFrom(st, s).value.out| >= |st.out|
    decreases |s|
  {
    if s != "" {
      OutStays(Step(st, s[0]).value, s[1..]);
    }
  }

  /** One more segment with a plain tag adds one compound. */
  lemma {:induction false} TrailsNext(st: Scan, m: nat, tag: string, s: string)
    requires Trails(st, m, tag) && Bare(s) && Solid(s) && s != "" && 'a' <= s[0] <= 'z'
    requires ScanFrom(st, " > " + s).Ok?
    ensures Trails(ScanFrom(st, " > " + s).value, m + 1, tag)
  {
    SegmentBegun(st, s);
    ScanAppend(st, " > ", s);
    Combinator(st);
    var next := ScanFrom(st, " > ").value;
    if st.out != [] {
      OutStays(next, s);
    } else if Inside(st) {
      StaysInside(next, s);
    } else {
      assert next == At("", next.parts, true);
      ScanPlain(s, "", "", next.parts, true);
      assert s + "" == s && "" + s == s;
      assert next.parts == st.parts + [(ParseCompound(st.token).value, st.child)];
    }
  }

  /** The rule that is complete in the end, if it is one, asks for another tag there. */
  predicate Missed(st: Scan, m: nat, tag: string) {
    Inside(st) || |st.out| >= 2 || (|st.out| == 1 && m < |st.out[0]| && Asks(st.out[0][|st.out[0]| - 1 - m].0, tag))
  }

  lemma {:induction false} TrailsEnd(st: Scan, m: nat, tag: string)
    requires Trails(st, m, tag) && ScanFrom(st, ",").Ok?
    ensures Missed(ScanFrom(st, ",").value, m, tag)
  {
    assert "," == [','] + "";
    ScanStep(st, ',', "");
  }

  // ---- paths that are not readable ----

  lemma {:induction false} PathBegun(root: Node, at: Address)
    requires ElementPath(root, at) && ParsedPath(root, at) && at != []
    requires ScanFrom(At("", [], false), OwnPath(root, at)).Ok?
    ensures Begun(ScanFrom(At("", [], false), OwnPath(root, at)).value)
    decreases |at|
  {
    StepTo(root, at);
    SegmentSolid(NodeAt(root, at).tag, OrdinalAt(root, at));
    if |at| == 1 {
      FirstBegun(At("", [], false), Last(root, at));
    } else {
      ScanAppend(At("", [], false), OwnPath(root, Parent(at)), " > " + Last(root, at));
      PathBegun(root, Parent(at));
      SegmentBegun(ScanFrom(At("", [], false), OwnPath(root, Parent(at))).value, Last(root, at));
    }
  }

  /** The last step of a path. */
  lemma {:induction false} StepTo(root: Node, at: Address)
    requires ElementPath(root, at) && ParsedPath(root, at) && at != []
    ensures Valid(root, Parent(at)) && ElementPath(root, Parent(at)) && ParsedPath(root, Parent(at))
    ensures NodeAt(root, at).Element? && ParsedTag(NodeAt(root, at).tag)
    ensures OwnPath(root, at) == if |at| == 1 then Last(root, at) else OwnPath(root, Parent(at)) + (" > " + Last(root, at))
  {
    ElementPathParent(root, at);
    ParentValid(root, at);
    assert ParsedAt(root, at, |at|) && at[..|at|] == at;
    forall n | 0 < n <= |Parent(at)|
      ensures ParsedAt(root, Parent(at), n)
    {
      assert ParsedAt(root, at, n) && at[..n] == Parent(at)[..n];
    }
    if |at| > 1 {
      PathStep(root, at);
    }
  }

  lemma {:induction false} OverlongIndex(tag: string, ordinal: nat)
    requires SimpleTag(tag) && ordinal > MAX_NTH
    ensures ParseCompound(Segment(tag, ordinal)).Err?
  {
    var b, p := Segment(tag, ordinal), |tag|;
    assert b[p] == ':' && forall i :: 0 <= i < p ==> b[i] == tag[i];
    RunEndIs(b, 0, p, IsIdentChar);
    assert b[0..p] == tag;
    assert Identifier(b, 0) == Ok((tag, p));
    ReadIndex(tag, ordinal);
  }

  /** At the unreadable segment itself. */
  lemma {:induction false} BadSegment(root: Node, at: Address)
    requires ElementPath(root, at) && ParsedPath(root, at) && at != [] && !ReadableAt(root, at, |at|)
    requires ScanFrom(At("", [], false), OwnPath(root, at)).Ok? && NodeAt(root, at).Element?
    ensures Trails(ScanFrom(At("", [], false), OwnPath(root, at)).value, 0, NodeAt(root, at).tag)
  {
    StepTo(root, at);
    PathBegun(root, at);
    var tag, ordinal := NodeAt(root, at).tag, OrdinalAt(root, at);
    var st := ScanFrom(At("", [], false), OwnPath(root, at)).value;
    assert at[..|at|] == at;
    if SimpleTag(tag) {
      OverlongIndex(tag, ordinal);
      OverlongToken(root, at);
    } else if st.token != "" && 'a' <= st.token[0] <= 'z' && ParseCompound(st.token).Ok? {
      TokenIdent(st.token);
    }
  }

  /** A plain tag with an overlong ordinal is a token of its own. */
  lemma {:induction false} OverlongToken(root: Node, at: Address)
    requires ElementPath(root, at) && ParsedPath(root, at) && at != []
    requires ScanFrom(At("", [], false), OwnPath(root, at)).Ok? && NodeAt(root, at).Element? && SimpleTag(NodeAt(root, at).tag)
    ensures var st := ScanFrom(At("", [], false), OwnPath(root, at)).value;
            st.out != [] || Inside(st) || st.token == Last(root, at)
  {
    StepTo(root, at);
    var s := Last(root, at);
    SegmentBare(NodeAt(root, at).tag, OrdinalAt(root, at));
    assert s + "" == s && "" + s == s;
    if |at| == 1 {
      ScanPlain(s, "", "", [], false);
    } else {
      ScanAppend(At("", [], false), OwnPath(root, Parent(at)), " > " + s);
      PathBegun(root, Parent(at));
      var st := ScanFrom(At("", [], false), OwnPath(root, Parent(at))).value;
      ScanAppend(st, " > ", s);
      Combinator(st);
      var next := ScanFrom(st, " > ").value;
      if st.out != [] {
        OutStays(next, s);
      } else if Inside(st) {
        StaysInside(next, s);
      } else {
        ScanPlain(s, "", "", next.parts, true);
      }
    }
  }

  /** After the last unreadable segment every one adds a compound. */
  lemma {:induction false} PathTrails(root: Node, at: Address, w: nat, tag: string)
    requires ElementPath(root, at) && ParsedPath(root, at) && 0 < w <= |at| && !ReadableAt(root, at, w)
    requires forall n :: w < n <= |at| ==> ReadableAt(root, at, n)
    requires ElementAt(root, at, w) && Valid(root, at[..w]) && tag == NodeAt(root, at[..w]).tag
    requires ScanFrom(At("", [], false), OwnPath(root, at)).Ok?
    ensures Trails(ScanFrom(At("", [], false), OwnPath(root, at)).value, |at| - w, tag)
    decreases |at|
  {
    StepTo(root, at);
    if w == |at| {
      assert at[..w] == at;
      BadSegment(root, at);
    } else {
      var parent := Parent(at);
      forall n | w <= n <= |parent|
        ensures ReadableAt(root, parent, n) == ReadableAt(root, at, n)
      {
        assert parent[..n] == at[..n];
      }
      assert parent[..w] == at[..w];
      ScanAppend(At("", [], false), OwnPath(root, parent), " > " + Last(root, at));
      PathTrails(root, parent, w, tag);
      assert ReadableAt(root, at, |at|) && at[..|at|] == at;
      SegmentBare(NodeAt(root, at).tag, OrdinalAt(root, at));
      TrailsNext(ScanFrom(At("", [], false), OwnPath(root, parent)).value, |parent| - w, tag, Last(root, at));
    }
  }

  lemma {:induction false} LastUnreadable(root: Node, at: Address) returns (w: nat)
    requires Valid(root, at) && !ReadablePath(root, at)
    ensures 0 < w <= |at| && !ReadableAt(root, at, w) && forall n :: w < n <= |at| ==> ReadableAt(root, at, n)
  {
    w := |at|;
    while w > 0 && ReadableAt(root, at, w)
      invariant w <= |at| && forall n :: w < n <= |at| ==> ReadableAt(root, at, n)
    {
      w := w - 1;
    }
  }

  /** A path with an unreadable segment is refused, or read as rules that do not name the element. */
  lemma {:induction false} UnreadableMisses(root: Node, at: Address)
    requires ElementPath(root, at) && ParsedPath(root, at) && at != [] && !ReadablePath(root, at)
    ensures !Named(Parse([OwnPath(root, at)]), root, at)
  {
    var w := LastUnreadable(root, at);
    assert ElementAt(root, at, w);
    PrefixValid(root, at, w);
    var path, tag := OwnPath(root, at), NodeAt(root, at[..w]).tag;
    if ScanFrom(At("", [], false), path).Ok? {
      PathTrails(root, at, w, tag);
    }
    OneRule(path, |at| - w, tag);
    if Named(Parse([path]), root, at) {
      RuleMisses(Parse([path]).value[0], root, at, w, tag);
    }
  }

  /** The one rule, if the path is read as one. */
  lemma {:induction false} OneRule(path: string, m: nat, tag: string)
    requires var r := ScanFrom(At("", [], false), path); r.Ok? ==> Trails(r.value, m, tag)
    ensures var rules := Parse([path]);
            rules.Ok? && |rules.value| == 1 ==>
              m < |rules.value[0]| && Asks(rules.value[0][|rules.value[0]| - 1 - m].0, tag)
  {
    assert [path][1..] == [] && ParseRules([path], []) == ParseRule(path, []);
    var r := ScanFrom(At("", [], false), path);
    ScanAppend(At("", [], false), path, ",");
    if r.Ok? && ScanFrom(r.value, ",").Ok? {
      TrailsEnd(r.value, m, tag);
    }
  }

  lemma {:induction false} RuleMisses(rule: Selector, root: Node, at: Address, w: nat, tag: string)
    requires 0 < w <= |at| && Valid(root, at) && ElementAt(root, at, w) && Valid(root, at[..w])
    requires tag == NodeAt(root, at[..w]).tag
    requires ChildOnly(rule) && |at| - w < |rule| && Asks(rule[|rule| - 1 - (|at| - w)].0, tag)
    ensures !Matches(rule, root, at)
  {
    if Matches(rule, root, at) {
      MatchesChain(rule, root, at, |rule| - 1 - (|at| - w));
    }
  }

  // ---- the main result ----

  /** The selector the preview writes on an element, when it fits the bridge limit, is read back
      as one rule that names exactly that element, if and only if it is an id, or a path of at
      most sixteen elements with plain tags and nothing deeper in the page is reached by a way
      that ends like it. A path with plain tags is refused only for its depth. */
  lemma {:induction false} PreviewSelectorExact(root: Node, at: Address)
    requires ParsedPath(root, at) && at != [] && |SelectorFor(root, at)| <= MAX_SELECTOR
    ensures Named(Parse([SelectorFor(root, at)]), root, at) <==>
            UsesId(root, at) || (|at| <= MAX_COMPOUNDS && ReadablePath(root, at) && StandsAlone(root, at))
    ensures ReadablePath(root, at) ==>
            (Parse([SelectorFor(root, at)]).Ok? <==> UsesId(root, at) || |at| <= MAX_COMPOUNDS)
  {
    ParsedElements(root, at);
    if UsesId(root, at) {
      IdNames(root, at);
    } else if ReadablePath(root, at) {
      PathNames(root, at);
    } else {
      UnreadableMisses(root, at);
    }
  }

  lemma {:induction false} ParsedElements(root: Node, at: Address)
    requires ParsedPath(root, at)
    ensures ElementPath(root, at)
  {
    forall n | 0 < n <= |at|
      ensures ElementAt(root, at, n)
    {
      assert ParsedAt(root, at, n);
    }
  }

  lemma {:induction false} IdNames(root: Node, at: Address)
    requires Valid(root, at) && UsesId(root, at) && |SelectorFor(root, at)| <= MAX_SELECTOR
    ensures Named(Parse([SelectorFor(root, at)]), root, at)
  {
    var id := Attr(NodeAt(root, at), "id").value;
    ReadId(id);
    forall other | Valid(root, other)
      ensures Matches(IdSelector(id), root, other) <==> other == at
    {
      IdMatches(root, at, id, other);
    }
  }

  lemma {:induction false} PathNames(root: Node, at: Address)
    requires ReadablePath(root, at) && ElementPath(root, at) && at != []
    requires !UsesId(root, at) && |SelectorFor(root, at)| <= MAX_SELECTOR
    ensures Named(Parse([SelectorFor(root, at)]), root, at) <==> |at| <= MAX_COMPOUNDS && StandsAlone(root, at)
    ensures Parse([SelectorFor(root, at)]).Ok? <==> |at| <= MAX_COMPOUNDS
  {
    ReadPath(root, at);
    forall other | Valid(root, other)
      ensures Matches(PathSelector(root, at), root, other) <==> EndsLike(root, at, other)
      ensures EndsLike(root, at, other) ==> other == at || |other| > |at|
    {
      PathMatches(root, at, other);
      if EndsLike(root, at, other) {
        EndsLikeSame(root, at, other);
      }
    }
    EndsLikeItself(root, at);
  }

  /** When the tag of the root element occurs nowhere below, as that of `html` in most pages, every
      element stands alone. */
  lemma {:induction false} RootTagOnce(root: Node, at: Address)
    requires ElementPath(root, at) && at != []
    requires forall b :: Valid(root, b) && |b| > 1 && NodeAt(root, b).Element? ==> NodeAt(root, b).tag != RootTag(root, at)
    ensures StandsAlone(root, at)
  {
    forall other | Valid(root, other) && |other| > |at|
      ensures !EndsLike(root, at, other)
    {
      if EndsLike(root, at, other) {
        var b := FirstStep(root, at, other);
      }
    }
  }

  function RootTag(root: Node, at: Address): string
    requires Valid(root, at) && at != []
  {
    PrefixValid(root, at, 1);
    var node := NodeAt(root, at[..1]);
    if node.Element? then node.tag else ""
  }

  lemma {:induction false} FirstStep(root: Node, at: Address, other: Address) returns (b: Address)
    requires ElementPath(root, at) && at != [] && Valid(root, other) && EndsLike(root, at, other)
    ensures Valid(root, b) && |b| == |other| + 1 - |at| && NodeAt(root, b).Element? && NodeAt(root, b).tag == RootTag(root, at)
    decreases |at|
  {
    ElementPathParent(root, at);
    if |at| == 1 {
      b := other;
      assert at[..1] == at;
    } else {
      ParentValid(root, other);
      b := FirstStep(root, Parent(at), Parent(other));
      assert Parent(at)[..1] == at[..1];
    }
  }

  /** A page with an `svg` that holds an element of the name `html`. */
  const NESTED := Node.Other([Element("html", [], [Element("svg", [], [Element("html", [], [])])])])

  /** The selector of its root element names the other one, too. */
  lemma {:induction false} NestedRoot()
    ensures Valid(NESTED, [0]) && Valid(NESTED, [0, 0, 0]) && SelectorFor(NESTED, [0]) == "html:nth-child(1)"
    ensures !Named(Parse([SelectorFor(NESTED, [0])]), NESTED, [0])
  {
    NestedPath();
    NestedTwin();
    PreviewSelectorExact(NESTED, [0]);
  }

  lemma {:induction false} NestedPath()
    ensures ParsedPath(NESTED, [0]) && !UsesId(NESTED, [0]) && SelectorFor(NESTED, [0]) == "html:nth-child(1)"
  {
    var node := NESTED.children[0];
    assert NodeAt(NESTED, [0]) == node && Attr(node, "id") == None;
    assert Ordinal(NESTED.children, 0) == 1 && Decimal(1) == "1";
    assert Parent([0]) == [] && OwnPath(NESTED, []) == "";
    assert forall n :: 0 < n <= 1 ==> [0][..n] == [0];
    assert ParsedAt(NESTED, [0], 1);
  }

  lemma {:induction false} NestedTwin()
    ensures Valid(NESTED, [0]) && Valid(NESTED, [0, 0, 0]) && !StandsAlone(NESTED, [0])
  {
    var html, svg := NESTED.children[0], NESTED.children[0].children[0];
    assert NodeAt(NESTED, [0]) == html;
    assert [0, 0, 0][1..] == [0, 0] && [0, 0][1..] == [0] && [0][1..] == [];
    assert NodeAt(NESTED, [0, 0]) == svg && NodeAt(NESTED, [0, 0, 0]) == svg.children[0];
    assert Parent([0, 0, 0]) == [0, 0] && Parent([0]) == [];
    assert Ordinal(NESTED.children, 0) == 1 == Ordinal(svg.children, 0);
    assert SameStep(NESTED, [0], [0, 0, 0]) && EndsLike(NESTED, [0], [0, 0, 0]);
  }

  // ---- two tags that are no identifiers ----

  /** The path of an `o:p` element, as office documents have them, is refused. */
  lemma {:induction false} ColonTag(root: Node, at: Address)
    requires ElementPath(root, at) && at != [] && !UsesId(root, at)
    requires Valid(root, Parent(at)) && ReadablePath(root, Parent(at))
    requires NodeAt(root, at).Element? && NodeAt(root, at).tag == "o:p"
    ensures Parse([SelectorFor(root, at)]).Err?
  {
    ElementPathParent(root, at);
    ScanTo(root, at, ",");
    ColonSegment(OrdinalAt(root, at));
    SegmentPlain("o:p", OrdinalAt(root, at));
    EndRefused(OwnPath(root, at), Last(root, at), PathSelector(root, Parent(at)), |at| > 1);
  }

  lemma {:induction false} RefusedToken(token: string, rest: string, parts: Selector, child: bool)
    requires Plain(token) && token != "" && ParseCompound(token).Err? && rest != "" && (rest[0] == ' ' || rest[0] == ',')
    ensures ScanFrom(At("", parts, child), token + rest).Err?
  {
    ScanPlain(token, rest, "", parts, child);
    assert "" + token == token;
    assert Flush(At(token, parts, child)).Err?;
  }

  lemma {:induction false} EndRefused(path: string, last: string, parts: Selector, child: bool)
    requires ScanFrom(At("", [], false), path + ",") == ScanFrom(At("", parts, child), last + ",")
    requires Plain(last) && last != "" && ParseCompound(last).Err?
    ensures Parse([path]).Err?
  {
    RefusedToken(last, ",", parts, child);
    assert [path][1..] == [] && ParseRules([path], []) == ParseRule(path, []);
  }

  lemma {:induction false} ColonSegment(ordinal: nat)
    ensures ParseCompound(Segment("o:p", ordinal)) == Err(UnsupportedPseudo)
  {
    var b := Segment("o:p", ordinal);
    RunEndIs(b, 0, 1, IsIdentChar);
    assert b[0..1] == "o" && Identifier(b, 0) == Ok(("o", 1));
    assert b[1..][1] == 'p' && NTH_CHILD[1] == 'n';
    assert !(NTH_CHILD <= b[1..]);
  }

  /** The path of an `a.b` element is accepted, and does not name it. */
  lemma {:induction false} DottedTag(root: Node, at: Address)
    requires ElementPath(root, at) && 0 < |at| <= MAX_COMPOUNDS && !UsesId(root, at)
    requires Valid(root, Parent(at)) && ReadablePath(root, Parent(at)) && OrdinalAt(root, at) <= MAX_NTH
    requires NodeAt(root, at).Element? && NodeAt(root, at).tag == "a.b" && |SelectorFor(root, at)| <= MAX_SELECTOR
    ensures var rules := Parse([SelectorFor(root, at)]);
            rules.Ok? && |rules.value| == 1 && rules.value[0] != [] && !Matches(rules.value[0], root, at)
  {
    var c := ANY.(tag := Some("a"), classes := ["b"], nth := Some(OrdinalAt(root, at)));
    ReadDotted(root, at, c);
    OtherTag(PathSelector(root, Parent(at)) + [(c, |at| > 1)], root, at);
  }

  lemma {:induction false} ReadDotted(root: Node, at: Address, c: Compound)
    requires ElementPath(root, at) && 0 < |at| <= MAX_COMPOUNDS
    requires Valid(root, Parent(at)) && ReadablePath(root, Parent(at)) && OrdinalAt(root, at) <= MAX_NTH
    requires NodeAt(root, at).Element? && NodeAt(root, at).tag == "a.b" && |OwnPath(root, at)| <= MAX_SELECTOR
    requires c == ANY.(tag := Some("a"), classes := ["b"], nth := Some(OrdinalAt(root, at)))
    ensures ElementPath(root, Parent(at))
    ensures Parse([OwnPath(root, at)]) == Ok([PathSelector(root, Parent(at)) + [(c, |at| > 1)]])
  {
    ElementPathParent(root, at);
    ScanTo(root, at, ",");
    DottedSegment(OrdinalAt(root, at));
    SegmentPlain("a.b", OrdinalAt(root, at));
    DottedAscii(root, at);
    PathNonEmpty(root, at);
    EndRead(OwnPath(root, at), Last(root, at), PathSelector(root, Parent(at)), |at| > 1, c);
  }

  lemma {:induction false} OtherTag(rule: Selector, root: Node, at: Address)
    requires rule != [] && Valid(root, at) && NodeAt(root, at).Element?
    requires rule[|rule| - 1].0.tag.Some? && rule[|rule| - 1].0.tag.value != NodeAt(root, at).tag
    ensures !Matches(rule, root, at)
  {
  }

  lemma {:induction false} DottedAscii(root: Node, at: Address)
    requires ElementPath(root, at) && at != [] && Valid(root, Parent(at)) && ElementPath(root, Parent(at))
    requires ReadablePath(root, Parent(at)) && NodeAt(root, at).Element? && NodeAt(root, at).tag == "a.b"
    ensures IsAscii(OwnPath(root, at))
  {
    ParentValid(root, at);
    PathAscii(root, Parent(at));
    SegmentAscii("a.b", OrdinalAt(root, at));
  }

  lemma {:induction false} DottedSegment(ordinal: nat)
    requires 1 <= ordinal <= MAX_NTH
    ensures ParseCompound(Segment("a.b", ordinal)) ==
            Ok(ANY.(tag := Some("a"), classes := ["b"], nth := Some(ordinal)))
  {
    var b := Segment("a.b", ordinal);
    RunEndIs(b, 0, 1, IsIdentChar);
    RunEndIs(b, 2, 3, IsIdentChar);
    assert b[0..1] == "a" && Identifier(b, 0) == Ok(("a", 1));
    assert b[2..3] == "b" && Identifier(b, 2) == Ok(("b", 3));
    ReadIndex("a.b", ordinal);
    var c := ANY.(tag := Some("a"));
    assert c.classes + ["b"] == ["b"] && LowerAll("a") == "a";
    assert ParseCompound(b) == CompoundFrom(b, 1, c);
    assert CompoundFrom(b, 1, c) == CompoundFrom(b, 3, c.(classes := ["b"]));
    assert CompoundFrom(b, 3, c.(classes := ["b"])) == CompoundFrom(b, |b|, c.(classes := ["b"], nth := Some(ordinal)));
  }
}
