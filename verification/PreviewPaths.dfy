/** The selector the page preview writes on each element, and the theorem that this
    selector, read back by the rule parser, names that element and no other. */
module PreviewPaths {
  import opened Wrappers
  import opened Characters
  import opened Decimals
  import opened Selectors

  const MAX_COMPOUNDS := 16
  const MAX_SELECTOR := 512

  // ---- what the preview writes ----

  predicate SimpleIdentifier(s: string) {
    s != "" && (IsAlpha(s[0]) || s[0] == '_') && forall i :: 0 <= i < |s| ==> IsIdentChar(s[i])
  }

  function Segment(tag: string, ordinal: nat): string {
    tag + ":nth-child(" + Decimal(ordinal) + ")"
  }

  /** The path of tags and ordinals from the root element down to `at`. */
  function OwnPath(root: Node, at: Address): string
    requires Valid(root, at)
    decreases |at|
  {
    if at == [] then ""
    else
      ParentValid(root, at);
      var parent := OwnPath(root, Parent(at));
      var node := NodeAt(root, at);
      if node.Other? then parent
      else if parent == "" then Segment(node.tag, OrdinalAt(root, at))
      else parent + " > " + Segment(node.tag, OrdinalAt(root, at))
  }

  /** How many elements below `node`, itself included, carry this id. */
  function IdCount(node: Node, id: string): nat
    decreases node, 1
  {
    (if Attr(node, "id") == Some(id) then 1 else 0) + IdCountAll(node.children, id)
  }

  function IdCountAll(nodes: seq<Node>, id: string): nat
    decreases nodes, 0
  {
    if nodes == [] then 0 else IdCount(nodes[0], id) + IdCountAll(nodes[1..], id)
  }

  /** An id that is unique and simple is used instead of the path. */
  function SelectorFor(root: Node, at: Address): string
    requires Valid(root, at)
  {
    var id := Attr(NodeAt(root, at), "id");
    if id.Some? && IdCount(root, id.value) == 1 && SimpleIdentifier(id.value) then "#" + id.value
    else OwnPath(root, at)
  }

  // ---- documents as the HTML parser builds them ----

  predicate SimpleTag(tag: string) {
    tag != "" && 'a' <= tag[0] <= 'z' &&
    forall i :: 0 <= i < |tag| ==> IsIdentChar(tag[i]) && !('A' <= tag[i] <= 'Z')
  }

  // ---- reading a segment back ----

  function SegmentCompound(tag: string, ordinal: nat): Compound {
    ANY.(tag := Some(tag), nth := Some(ordinal))
  }

  lemma {:induction false} DecimalSpan(n: nat, before: string, after: string)
    requires after != "" && !IsDigit(after[0])
    ensures RunEnd(before + Decimal(n) + after, |before|, IsDigit) == |before| + |Decimal(n)|
  {
    var b, e := before + Decimal(n) + after, |before| + |Decimal(n)|;
    forall i | |before| <= i < e
      ensures IsDigit(b[i])
    {
      assert b[i] == Decimal(n)[i - |before|];
    }
    assert b[e] == after[0];
    RunEndIs(b, |before|, e, IsDigit);
  }

  /** The ordinal of a segment is read back whenever it is in range. */
  lemma {:induction false} ReadIndex(tag: string, ordinal: nat)
    requires 1 <= ordinal
    ensures var b := Segment(tag, ordinal);
            NthChild(b, |tag|) == if ordinal <= MAX_NTH then Ok((ordinal, |b|)) else Err(InvalidIndex)
  {
    var b, p := Segment(tag, ordinal), |tag|;
    var digits := p + |NTH_CHILD|;
    assert b == (tag + NTH_CHILD) + Decimal(ordinal) + ")";
    assert b[p..][..|NTH_CHILD|] == NTH_CHILD;
    DecimalSpan(ordinal, tag + NTH_CHILD, ")");
    var e := digits + |Decimal(ordinal)|;
    assert b[digits..e] == Decimal(ordinal) && b[e] == ')' && e + 1 == |b|;
    DecimalParses(ordinal);
  }

  lemma {:induction false} ReadSegment(tag: string, ordinal: nat)
    requires SimpleTag(tag) && 1 <= ordinal <= MAX_NTH
    ensures ParseCompound(Segment(tag, ordinal)) == Ok(SegmentCompound(tag, ordinal))
  {
    var b, p := Segment(tag, ordinal), |tag|;
    assert b[p] == ':' && forall i :: 0 <= i < p ==> b[i] == tag[i];
    RunEndIs(b, 0, p, IsIdentChar);
    assert b[0..p] == tag && LowerAll(tag) == tag;
    assert Identifier(b, 0) == Ok((tag, p));
    ReadIndex(tag, ordinal);
    var c := ANY.(tag := Some(tag));
    assert CompoundFrom(b, p, c) == CompoundFrom(b, |b|, c.(nth := Some(ordinal)));
  }

  // ---- reading a path back ----

  predicate Plain(s: string) {
    forall i :: 0 <= i < |s| ==> s[i] !in {'[', ']', '>', ','} && !IsAsciiWhitespace(s[i])
  }

  /** Between compounds the scanner is outside brackets and quotes. */
  function At(token: string, parts: Selector, child: bool): Scan {
    Scan(token, parts, 0, None, child, [])
  }

  lemma {:induction false} ScanPlain(word: string, rest: string, token: string, parts: Selector, child: bool)
    requires Plain(word)
    ensures ScanFrom(At(token, parts, child), word + rest) == ScanFrom(At(token + word, parts, child), rest)
    decreases |word|
  {
    if word == "" {
      assert word + rest == rest && token + word == token;
    } else {
      assert (word + rest)[1..] == word[1..] + rest && (word + rest)[0] == word[0];
      ScanPlain(word[1..], rest, token + [word[0]], parts, child);
      assert token + [word[0]] + word[1..] == token + word;
    }
  }

  lemma {:induction false} TagPlain(tag: string)
    requires SimpleTag(tag)
    ensures Plain(tag)
  {
  }

  lemma {:induction false} SegmentPlain(tag: string, ordinal: nat)
    requires Plain(tag)
    ensures Plain(Segment(tag, ordinal)) && Segment(tag, ordinal) != ""
  {
    var s := Segment(tag, ordinal);
    forall i | 0 <= i < |s|
      ensures s[i] !in {'[', ']', '>', ','} && !IsAsciiWhitespace(s[i])
    {
      if i < |tag| {
        assert s[i] == tag[i];
      } else if i < |tag| + 11 {
        assert s[i] == NTH_CHILD[i - |tag|];
      } else if i < |tag| + 11 + |Decimal(ordinal)| {
        assert s[i] == Decimal(ordinal)[i - |tag| - 11];
      }
    }
  }

  /** The compounds that the path to `at` stands for. */
  function PathSelector(root: Node, at: Address): (s: Selector)
    requires Valid(root, at) && forall n :: 0 < n <= |at| ==> ElementAt(root, at, n)
    ensures |s| == |at| && ChildOnly(s)
    decreases |at|
  {
    if at == [] then []
    else
      ParentValid(root, at);
      assert ElementAt(root, at, |at|) && at[..|at|] == at;
      assert forall n :: 0 < n <= |Parent(at)| ==> ElementAt(root, at, n) && at[..n] == Parent(at)[..n];
      PathSelector(root, Parent(at)) +
        [(SegmentCompound(NodeAt(root, at).tag, OrdinalAt(root, at)), |at| > 1)]
  }

  predicate ElementAt(root: Node, at: Address, n: nat)
    requires Valid(root, at)
  {
    n <= |at| && (PrefixValid(root, at, n); NodeAt(root, at[..n]).Element?)
  }

  /** Every node on the way to `at` is an element. */
  ghost predicate ElementPath(root: Node, at: Address) {
    Valid(root, at) && forall n :: 0 < n <= |at| ==> ElementAt(root, at, n)
  }

  lemma {:induction false} ElementPathParent(root: Node, at: Address)
    requires ElementPath(root, at) && at != []
    ensures ElementPath(root, Parent(at)) && NodeAt(root, at).Element?
  {
    ParentValid(root, at);
    assert ElementAt(root, at, |at|) && at[..|at|] == at;
    forall n | 0 < n <= |Parent(at)|
      ensures ElementAt(root, Parent(at), n)
    {
      assert ElementAt(root, at, n) && at[..n] == Parent(at)[..n];
    }
  }

  /** The node at depth `n` has a plain lower-case tag, and few enough element siblings before it. */
  predicate ReadableAt(root: Node, at: Address, n: nat)
    requires Valid(root, at)
  {
    0 < n <= |at| && (PrefixValid(root, at, n); NodeAt(root, at[..n]).Element?) &&
    SimpleTag(NodeAt(root, at[..n]).tag) && OrdinalAt(root, at[..n]) <= MAX_NTH
  }

  /** So have all nodes on the way to `at`. */
  ghost predicate ReadablePath(root: Node, at: Address) {
    Valid(root, at) && forall n :: 0 < n <= |at| ==> ReadableAt(root, at, n)
  }

  lemma {:induction false} ReadableParent(root: Node, at: Address)
    requires ReadablePath(root, at) && at != []
    ensures Valid(root, Parent(at)) && ReadablePath(root, Parent(at))
    ensures NodeAt(root, at).Element? && SimpleTag(NodeAt(root, at).tag) && 1 <= OrdinalAt(root, at) <= MAX_NTH
  {
    ParentValid(root, at);
    assert ReadableAt(root, at, |at|) && at[..|at|] == at;
    forall n | 0 < n <= |Parent(at)|
      ensures ReadableAt(root, Parent(at), n)
    {
      assert ReadableAt(root, at, n) && at[..n] == Parent(at)[..n];
    }
  }

  lemma {:induction false} PathNonEmpty(root: Node, at: Address)
    requires ElementPath(root, at) && at != []
    ensures OwnPath(root, at) != ""
  {
    ElementPathParent(root, at);
    ParentValid(root, at);
  }

  function Last(root: Node, at: Address): string
    requires Valid(root, at) && at != [] && NodeAt(root, at).Element?
  {
    Segment(NodeAt(root, at).tag, OrdinalAt(root, at))
  }

  /** Scanning a path up to its last segment leaves the compounds before it behind. */
  lemma {:induction false} ScanTo(root: Node, at: Address, rest: string)
    requires ElementPath(root, at) && at != [] && ElementPath(root, Parent(at)) && NodeAt(root, at).Element?
    requires ReadablePath(root, Parent(at))
    ensures ScanFrom(At("", [], false), OwnPath(root, at) + rest) ==
            ScanFrom(At("", PathSelector(root, Parent(at)), |at| > 1), Last(root, at) + rest)
    decreases |at|
  {
    ParentValid(root, at);
    var parent := Parent(at);
    if parent != [] {
      ReadableParent(root, parent);
      ElementPathParent(root, parent);
      var segment := Last(root, parent);
      PathJoin(root, at, rest);
      ScanTo(root, parent, " > " + (Last(root, at) + rest));
      TagPlain(NodeAt(root, parent).tag);
      SegmentPlain(NodeAt(root, parent).tag, OrdinalAt(root, parent));
      ScanPlain(segment, " > " + (Last(root, at) + rest), "", PathSelector(root, Parent(parent)), |parent| > 1);
      assert "" + segment == segment;
      ReadSegment(NodeAt(root, parent).tag, OrdinalAt(root, parent));
      ScanChild(segment, PathSelector(root, Parent(parent)), |parent| > 1, Last(root, at) + rest,
                SegmentCompound(NodeAt(root, parent).tag, OrdinalAt(root, parent)));
    }
  }

  /** Scanning all of it leaves the last segment in the token. */
  lemma {:induction false} ScanPath(root: Node, at: Address, rest: string)
    requires ReadablePath(root, at) && at != []
    requires ElementPath(root, at) && ElementPath(root, Parent(at)) && NodeAt(root, at).Element?
    ensures ScanFrom(At("", [], false), OwnPath(root, at) + rest) ==
            ScanFrom(At(Last(root, at), PathSelector(root, Parent(at)), |at| > 1), rest)
  {
    ReadableParent(root, at);
    ScanTo(root, at, rest);
    TagPlain(NodeAt(root, at).tag);
    SegmentPlain(NodeAt(root, at).tag, OrdinalAt(root, at));
    ScanPlain(Last(root, at), rest, "", PathSelector(root, Parent(at)), |at| > 1);
    assert "" + Last(root, at) == Last(root, at);
  }

  lemma {:induction false} PathStep(root: Node, at: Address)
    requires ElementPath(root, at) && |at| > 1 && ElementPath(root, Parent(at)) && NodeAt(root, at).Element?
    ensures OwnPath(root, at) == OwnPath(root, Parent(at)) + " > " + Last(root, at)
  {
    PathNonEmpty(root, Parent(at));
  }

  lemma {:induction false} PathJoin(root: Node, at: Address, rest: string)
    requires ElementPath(root, at) && |at| > 1 && ElementPath(root, Parent(at)) && NodeAt(root, at).Element?
    ensures OwnPath(root, at) + rest == OwnPath(root, Parent(at)) + (" > " + (Last(root, at) + rest))
  {
    PathStep(root, at);
    Regroup(OwnPath(root, Parent(at)), " > ", Last(root, at), rest);
  }

  lemma {:induction false} Regroup(a: string, b: string, c: string, d: string)
    ensures a + b + c + d == a + (b + (c + d))
  {
  }

  /** A child combinator ends the compound before it and marks the one after it. */
  lemma {:induction false} ScanChild(token: string, parts: Selector, child: bool, rest: string, c: Compound)
    requires token != "" && ParseCompound(token) == Ok(c)
    ensures ScanFrom(At(token, parts, child), " > " + rest) ==
            ScanFrom(At("", parts + [(c, child)], true), rest)
  {
    var open := At("", parts + [(c, child)], false);
    FlushToken(token, parts, child, c);
    assert " > " + rest == [' '] + (['>'] + ([' '] + rest));
    ScanStep(At(token, parts, child), ' ', ['>'] + ([' '] + rest));
    ScanStep(open, '>', [' '] + rest);
    ScanStep(open.(child := true), ' ', rest);
  }

  lemma {:induction false} ScanStep(st: Scan, ch: char, rest: string)
    ensures ScanFrom(st, [ch] + rest) ==
            if Step(st, ch).Ok? then ScanFrom(Step(st, ch).value, rest) else Err(Step(st, ch).error)
  {
    assert ([ch] + rest)[1..] == rest;
  }

  lemma {:induction false} FlushToken(token: string, parts: Selector, child: bool, c: Compound)
    requires token != "" && ParseCompound(token) == Ok(c)
    ensures Flush(At(token, parts, child)) == Ok(At("", parts + [(c, child)], false))
  {
  }

  lemma {:induction false} PathAscii(root: Node, at: Address)
    requires ReadablePath(root, at) && ElementPath(root, at)
    ensures IsAscii(OwnPath(root, at))
    decreases |at|
  {
    if at != [] {
      ReadableParent(root, at);
      ElementPathParent(root, at);
      PathAscii(root, Parent(at));
      SegmentAscii(NodeAt(root, at).tag, OrdinalAt(root, at));
    }
  }

  lemma {:induction false} SegmentAscii(tag: string, ordinal: nat)
    requires IsAscii(tag)
    ensures IsAscii(Segment(tag, ordinal))
  {
    var s := Segment(tag, ordinal);
    forall i | 0 <= i < |s|
      ensures s[i] as int < 128
    {
      if i < |tag| {
        assert s[i] == tag[i];
      } else if i < |tag| + 11 {
        assert s[i] == NTH_CHILD[i - |tag|];
      } else if i < |tag| + 11 + |Decimal(ordinal)| {
        assert s[i] == Decimal(ordinal)[i - |tag| - 11];
      }
    }
  }

  /** A path of acceptable length is read back as exactly its compounds, if and only if
      there are at most sixteen of them. */
  lemma {:induction false} ReadPath(root: Node, at: Address)
    requires ReadablePath(root, at) && ElementPath(root, at) && at != []
    requires |OwnPath(root, at)| <= MAX_SELECTOR
    ensures Parse([OwnPath(root, at)]) ==
            if |at| <= MAX_COMPOUNDS then Ok([PathSelector(root, at)]) else Err(InvalidList)
  {
    var path := OwnPath(root, at);
    PathAscii(root, at);
    ReadableParent(root, at);
    PathNonEmpty(root, at);
    ElementPathParent(root, at);
    ScanPath(root, at, ",");
    var tag, ordinal := NodeAt(root, at).tag, OrdinalAt(root, at);
    ReadSegment(tag, ordinal);
    TagPlain(tag);
    SegmentPlain(tag, ordinal);
    assert Last(root, at) == Segment(tag, ordinal);
    ScanEnd(Last(root, at), PathSelector(root, Parent(at)), |at| > 1, SegmentCompound(tag, ordinal));
    assert [path][1..] == [] && [path][0] == path;
    assert PathSelector(root, Parent(at)) + [(SegmentCompound(tag, ordinal), |at| > 1)] == PathSelector(root, at);
    assert ParseRules([path], []) == ParseRule(path, []);
  }

  lemma {:induction false} ScanEnd(token: string, parts: Selector, child: bool, c: Compound)
    requires token != "" && ParseCompound(token) == Ok(c)
    ensures ScanFrom(At(token, parts, child), ",") ==
            if |parts| >= 16 then Err(InvalidList)
            else Ok(At("", [], false).(out := [parts + [(c, child)]]))
  {
    FlushToken(token, parts, child, c);
    assert "," == [','] + "" && [] + [parts + [(c, child)]] == [parts + [(c, child)]];
    ScanStep(At(token, parts, child), ',', "");
  }

  /** A path whose last token is read is a rule. */
  lemma {:induction false} EndRead(path: string, last: string, parts: Selector, child: bool, c: Compound)
    requires ScanFrom(At("", [], false), path + ",") == ScanFrom(At("", parts, child), last + ",")
    requires Plain(last) && last != "" && ParseCompound(last) == Ok(c)
    requires |parts| < MAX_COMPOUNDS && IsAscii(path) && 0 < |path| <= MAX_SELECTOR
    ensures Parse([path]) == Ok([parts + [(c, child)]])
  {
    ScanPlain(last, ",", "", parts, child);
    assert "" + last == last;
    ScanEnd(last, parts, child, c);
    assert [path][1..] == [] && ParseRules([path], []) == ParseRule(path, []);
  }

  // ---- matching ----

  /** Two elements with one tag and one ordinal. */
  predicate SameStep(root: Node, at: Address, other: Address)
    requires Valid(root, at) && Valid(root, other) && at != [] && other != []
  {
    NodeAt(root, at).Element? && NodeAt(root, other).Element? &&
    NodeAt(root, at).tag == NodeAt(root, other).tag && OrdinalAt(root, at) == OrdinalAt(root, other)
  }

  /** The way to `other` ends with the tags and ordinals of the whole way to `at`. */
  predicate EndsLike(root: Node, at: Address, other: Address)
    requires Valid(root, at) && Valid(root, other)
    decreases |at|
  {
    at == [] ||
    (other != [] && SameStep(root, at, other) &&
     (ParentValid(root, at); ParentValid(root, other); EndsLike(root, Parent(at), Parent(other))))
  }

  /** The path selector matches exactly the nodes whose way ends like that of its own node. */
  lemma {:induction false} PathMatches(root: Node, at: Address, other: Address)
    requires ElementPath(root, at) && at != [] && Valid(root, other)
    ensures Matches(PathSelector(root, at), root, other) <==> EndsLike(root, at, other)
    decreases |at|
  {
    ElementPathParent(root, at);
    ParentValid(root, at);
    var parts, parent := PathSelector(root, at), Parent(at);
    assert parts[..|at| - 1] == PathSelector(root, parent);
    if other == [] {
      assert !MatchesCompound(parts[|at| - 1].0, root, other);
    } else {
      ParentValid(root, other);
      assert other[..|other| - 1] == Parent(other);
      assert MatchesCompound(parts[|at| - 1].0, root, other) <==> SameStep(root, at, other);
      if |at| > 1 {
        PathMatches(root, parent, Parent(other));
        assert MatchesAncestor(PathSelector(root, parent), root, other, |other| - 1) <==> EndsLike(root, parent, Parent(other));
      }
    }
  }

  /** Nothing deeper in the page has a way that ends like that to `at`. */
  ghost predicate StandsAlone(root: Node, at: Address)
    requires Valid(root, at)
  {
    forall other :: Valid(root, other) && |other| > |at| ==> !EndsLike(root, at, other)
  }

  /** A way that ends like another and is not longer is that way. */
  lemma {:induction false} EndsLikeSame(root: Node, at: Address, other: Address)
    requires ElementPath(root, at) && Valid(root, other) && EndsLike(root, at, other)
    ensures |other| >= |at| && (|other| == |at| ==> other == at)
    decreases |at|
  {
    if at != [] {
      ElementPathParent(root, at);
      ParentValid(root, other);
      EndsLikeSame(root, Parent(at), Parent(other));
      if |other| == |at| {
        ChildMatches(root, at, other);
      }
    }
  }

  lemma {:induction false} EndsLikeItself(root: Node, at: Address)
    requires ElementPath(root, at)
    ensures EndsLike(root, at, at)
    decreases |at|
  {
    if at != [] {
      ElementPathParent(root, at);
      EndsLikeItself(root, Parent(at));
    }
  }

  /** Among the children of one node, tag and ordinal match only the node they name. */
  lemma {:induction false} ChildMatches(root: Node, at: Address, other: Address)
    requires ElementPath(root, at) && at != [] && Valid(root, other) && other != []
    ensures Valid(root, at) && NodeAt(root, at).Element?
    ensures Parent(other) == Parent(at) ==>
              (MatchesCompound(SegmentCompound(NodeAt(root, at).tag, OrdinalAt(root, at)), root, other) <==>
               other == at)
  {
    ElementPathParent(root, at);
    ParentValid(root, at);
    ParentValid(root, other);
    var c := SegmentCompound(NodeAt(root, at).tag, OrdinalAt(root, at));
    if Parent(other) == Parent(at) && MatchesCompound(c, root, other) {
      var children := NodeAt(root, Parent(at)).children;
      OrdinalInjective(children, at[|at| - 1], other[|other| - 1]);
      assert at == Parent(at) + [at[|at| - 1]] && other == Parent(other) + [other[|other| - 1]];
    }
  }

  // ---- ids ----

  predicate Carries(root: Node, at: Address, id: string) {
    Valid(root, at) && Attr(NodeAt(root, at), "id") == Some(id)
  }

  lemma {:induction false} CountSum(nodes: seq<Node>, id: string, i: nat, j: nat)
    requires i < j < |nodes|
    ensures IdCountAll(nodes, id) >= IdCount(nodes[i], id) + IdCount(nodes[j], id)
    decreases i
  {
    if i > 0 {
      CountSum(nodes[1..], id, i - 1, j - 1);
    } else {
      CountOne(nodes[1..], id, j - 1);
    }
  }

  lemma {:induction false} CountOne(nodes: seq<Node>, id: string, i: nat)
    requires i < |nodes|
    ensures IdCountAll(nodes, id) >= IdCount(nodes[i], id)
    decreases i
  {
    if i > 0 {
      CountOne(nodes[1..], id, i - 1);
    }
  }

  lemma {:induction false} CountPositive(node: Node, at: Address, id: string)
    requires Carries(node, at, id)
    ensures IdCount(node, id) >= 1
    decreases |at|
  {
    if at != [] {
      CountPositive(node.children[at[0]], at[1..], id);
      CountOne(node.children, id, at[0]);
    }
  }

  /** An id counted once is carried by one element. */
  lemma {:induction false} CountedOnce(node: Node, id: string, a: Address, b: Address)
    requires IdCount(node, id) == 1 && Carries(node, a, id) && Carries(node, b, id)
    ensures a == b
    decreases |a|
  {
    if a == [] && b != [] {
      CountPositive(node.children[b[0]], b[1..], id);
      CountOne(node.children, id, b[0]);
    } else if a != [] && b == [] {
      CountPositive(node.children[a[0]], a[1..], id);
      CountOne(node.children, id, a[0]);
    } else if a != [] {
      CountPositive(node.children[a[0]], a[1..], id);
      CountPositive(node.children[b[0]], b[1..], id);
      if a[0] < b[0] {
        CountSum(node.children, id, a[0], b[0]);
      } else if b[0] < a[0] {
        CountSum(node.children, id, b[0], a[0]);
      } else {
        CountOne(node.children, id, a[0]);
        CountedOnce(node.children[a[0]], id, a[1..], b[1..]);
        assert a == [a[0]] + a[1..] && b == [b[0]] + b[1..];
      }
    }
  }

  function IdSelector(id: string): Selector {
    [(ANY.(id := Some(id)), false)]
  }

  lemma {:induction false} ReadId(id: string)
    requires SimpleIdentifier(id) && |id| < MAX_SELECTOR
    ensures Parse(["#" + id]) == Ok([IdSelector(id)])
  {
    var s := "#" + id;
    forall i | 0 <= i < |s|
      ensures s[i] !in {'[', ']', '>', ','} && !IsAsciiWhitespace(s[i]) && s[i] as int < 128
    {
      assert i > 0 ==> s[i] == id[i - 1] && IsIdentChar(id[i - 1]);
    }
    IdCompound(id);
    EndRead(s, s, [], false, ANY.(id := Some(id)));
    assert [] + [(ANY.(id := Some(id)), false)] == IdSelector(id);
  }

  lemma {:induction false} IdCompound(id: string)
    requires SimpleIdentifier(id)
    ensures ParseCompound("#" + id) == Ok(ANY.(id := Some(id)))
  {
    var s := "#" + id;
    assert s[0] == '#' && s[1..] == id;
    forall i | 0 < i < |s|
      ensures IsIdentChar(s[i])
    {
      assert s[i] == id[i - 1];
    }
    RunEndIs(s, 1, |s|, IsIdentChar);
    assert s[1..|s|] == id && Identifier(s, 1) == Ok((id, |s|));
    assert CompoundFrom(s, 0, ANY) == CompoundFrom(s, |s|, ANY.(id := Some(id)));
  }

  // ---- the main result ----

  predicate UsesId(root: Node, at: Address)
    requires Valid(root, at)
  {
    var id := Attr(NodeAt(root, at), "id");
    id.Some? && IdCount(root, id.value) == 1 && SimpleIdentifier(id.value)
  }

  /** The rule matches `at` and no other node, and matching never searches further than
      its own length. */
  ghost predicate NamesExactly(rule: Selector, root: Node, at: Address) {
    rule != [] && ChildOnly(rule) && |rule| <= MAX_COMPOUNDS &&
    forall other :: Valid(root, other) ==> (Matches(rule, root, other) <==> other == at)
  }

  lemma {:induction false} IdMatches(root: Node, at: Address, id: string, other: Address)
    requires Carries(root, at, id) && IdCount(root, id) == 1 && Valid(root, other)
    ensures Matches(IdSelector(id), root, other) <==> other == at
  {
    if Matches(IdSelector(id), root, other) {
      CountedOnce(root, id, at, other);
    }
  }
}
