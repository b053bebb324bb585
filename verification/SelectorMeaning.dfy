/** A rule matches exactly the nodes it is meant for: the search over compounds, against the attributes that
    the rule's text names. */
module SelectorMeaning {
  import opened Wrappers
  import opened Characters
  import opened Decimals
  import opened Selectors
  import opened SelectorReading
  import opened SelectorTexts

  // ---- attributes ----

  lemma {:induction false} LowerSpells(key: string, name: string)
    ensures key == LowerAll(name) <==> Spells(key, name)
  {
    if Spells(key, name) {
      forall i | 0 <= i < |name|
        ensures key[i] == ToLower(name[i])
      {
      }
    }
  }

  /** The first attribute with this name, and its value. */
  ghost predicate FirstNamed(attrs: seq<(string, string)>, name: string, value: string) {
    exists k :: 0 <= k < |attrs| && Spells(attrs[k].0, name) && attrs[k].1 == value &&
      forall j :: 0 <= j < k ==> !Spells(attrs[j].0, name)
  }

  lemma {:induction false} FindMeans(attrs: seq<(string, string)>, name: string, value: string)
    ensures Find(attrs, LowerAll(name)) == Some(value) <==> FirstNamed(attrs, name, value)
  {
    if attrs != [] {
      var rest := attrs[1..];
      LowerSpells(attrs[0].0, name);
      if Spells(attrs[0].0, name) {
        if attrs[0].1 == value {
          assert FirstNamed(attrs, name, value);
        }
      } else {
        FindMeans(rest, name, value);
        if FirstNamed(rest, name, value) {
          var k :| 0 <= k < |rest| && Spells(rest[k].0, name) && rest[k].1 == value &&
                   forall j :: 0 <= j < k ==> !Spells(rest[j].0, name);
          forall j | 0 <= j < k + 1
            ensures !Spells(attrs[j].0, name)
          {
            assert j > 0 ==> attrs[j] == rest[j - 1];
          }
          assert attrs[k + 1] == rest[k];
        }
        if FirstNamed(attrs, name, value) {
          var k :| 0 <= k < |attrs| && Spells(attrs[k].0, name) && attrs[k].1 == value &&
                   forall j :: 0 <= j < k ==> !Spells(attrs[j].0, name);
          forall j | 0 <= j < k - 1
            ensures !Spells(rest[j].0, name)
          {
            assert rest[j] == attrs[j + 1];
          }
          assert rest[k - 1] == attrs[k];
        }
      }
    }
  }

  lemma {:induction false} AttrMeans(node: Node, name: string, value: string)
    ensures Attr(node, LowerAll(name)) == Some(value) <==> Carries(node, name, value)
  {
    if node.Element? {
      FindMeans(node.attrs, name, value);
    }
  }

  // ---- words ----

  lemma {:induction false} WordShifts(text: string, k: nat, i: nat, j: nat)
    requires 0 < k <= |text| && (IsWhitespace(text[k - 1]) || (k < |text| && IsWhitespace(text[k])))
    ensures WordAt(text[k..], i, j) <==> WordAt(text, i + k, j + k)
    ensures i <= j <= |text| - k ==> text[k..][i..j] == text[i + k..j + k]
  {
    var rest := text[k..];
    if i < j <= |rest| {
      assert forall x :: i <= x < j ==> rest[x] == text[x + k];
      assert forall x :: i + k <= x < j + k ==> text[x] == rest[x - k];
    }
  }

  ghost predicate WordFrom(text: string, low: nat, word: string) {
    exists i: nat, j: nat :: low <= i && WordAt(text, i, j) && text[i..j] == word
  }

  lemma {:induction false} LaterWord(text: string, k: nat, word: string)
    requires 0 < k <= |text| && (IsWhitespace(text[k - 1]) || (k < |text| && IsWhitespace(text[k])))
    ensures HasWord(text[k..], word) <==> WordFrom(text, k, word)
  {
    if HasWord(text[k..], word) {
      var i: nat, j: nat :| WordAt(text[k..], i, j) && text[k..][i..j] == word;
      WordShifts(text, k, i, j);
      assert WordAt(text, i + k, j + k) && text[i + k..j + k] == word;
    }
    if WordFrom(text, k, word) {
      var i: nat, j: nat :| k <= i && WordAt(text, i, j) && text[i..j] == word;
      WordShifts(text, k, i - k, j - k);
      assert WordAt(text[k..], i - k, j - k) && text[k..][i - k..j - k] == word;
    }
  }

  /** The words of a text are what stands between its white space. */
  lemma {:induction false} WordsMean(text: string, word: string)
    ensures word in Words(text) <==> HasWord(text, word)
    decreases |text|
  {
    if text == "" {
    } else if IsWhitespace(text[0]) {
      WordsMean(text[1..], word);
      LaterWord(text, 1, word);
      assert forall i: nat, j: nat :: WordAt(text, i, j) ==> 1 <= i;
    } else {
      FirstWord(text, word, WordEnd(text));
    }
  }

  function WordEnd(text: string): nat {
    RunEnd(text, 0, c => !IsWhitespace(c))
  }

  lemma {:induction false} FirstWord(text: string, word: string, e: nat)
    requires text != "" && !IsWhitespace(text[0]) && e == WordEnd(text)
    ensures word in Words(text) <==> HasWord(text, word)
    decreases |text|, 0
  {
    RunEndSpec(text, 0, c => !IsWhitespace(c));
    assert 0 < e <= |text|;
    assert Words(text) == [text[..e]] + Words(text[e..]);
    assert WordAt(text, 0, e) && text[0..e] == text[..e];
    forall i: nat, j: nat | WordAt(text, i, j)
      ensures (i == 0 && j == e) || e <= i
    {
    }
    if e < |text| {
      WordsMean(text[e..], word);
      LaterWord(text, e, word);
    } else {
      assert text[e..] == "";
    }
    assert word in Words(text) <==> word == text[..e] || word in Words(text[e..]);
  }

  // ---- child indices ----

  ghost function ElementsUpTo(children: seq<Node>, i: nat): set<nat>
    requires i <= |children|
  {
    set j: nat | j < i && children[j].Element?
  }

  lemma {:induction false} ElementsCounted(children: seq<Node>, i: nat)
    requires i <= |children|
    ensures ElementsBefore(children, i) == |ElementsUpTo(children, i)|
  {
    if i > 0 {
      ElementsCounted(children, i - 1);
      var before, here := ElementsUpTo(children, i - 1), if children[i - 1].Element? then {i - 1} else {};
      assert ElementsUpTo(children, i) == before + here && before !! here;
    }
  }

  lemma {:induction false} NthMeans(root: Node, at: Address, n: nat)
    requires Valid(root, at) && at != [] && n > 0
    ensures OrdinalAt(root, at) == n <==> IsNth(root, at, n)
  {
    ParentValid(root, at);
    var children, i := NodeAt(root, Parent(at)).children, at[|at| - 1];
    ElementsCounted(children, i);
    assert (set j | 0 <= j < i && children[j].Element?) == ElementsUpTo(children, i);
  }

  // ---- one part ----

  /** A compound without its child index. */
  predicate Basic(c: Compound, node: Node) {
    node.Element? && (c.tag.Some? ==> c.tag.value == node.tag) && (c.id.Some? ==> Attr(node, "id") == c.id) &&
    (forall i :: 0 <= i < |c.classes| ==> HasClass(node, c.classes[i])) &&
    forall i :: 0 <= i < |c.attrs| ==> HasAttribute(node, c.attrs[i])
  }

  predicate HasClass(node: Node, name: string) {
    var value := Attr(node, "class");
    name in Words(if value.Some? then value.value else "")
  }

  predicate HasAttribute(node: Node, attr: (string, Option<string>)) {
    var value := Attr(node, attr.0);
    value.Some? && (attr.1.Some? ==> value == attr.1)
  }

  lemma {:induction false} CompoundSplits(c: Compound, root: Node, at: Address)
    requires Valid(root, at)
    ensures MatchesCompound(c, root, at) <==>
            Basic(c, NodeAt(root, at)) && (c.nth.Some? ==> at != [] && OrdinalAt(root, at) == c.nth.value)
  {
  }

  /** A test other than of the child index, of the node alone. */
  ghost predicate Passes(t: Test, node: Node)
    requires TestOk(t)
  {
    match t
    case ClassIs(name) => exists value :: Carries(node, "class", value) && HasWord(value, name)
    case IdIs(name) => Carries(node, "id", name)
    case HasAttr(name, _) => exists value :: Carries(node, name, value)
    case AttrIs(name, value, _, _, _, _) => Carries(node, name, value)
    case ChildIs(_) => true
  }

  lemma {:induction false} ClassMeans(node: Node, name: string)
    requires IsName(name)
    ensures HasClass(node, name) <==> exists value :: Carries(node, "class", value) && HasWord(value, name)
  {
    var value := Attr(node, "class");
    assert LowerAll("class") == "class";
    if value.Some? {
      AttrMeans(node, "class", value.value);
      WordsMean(value.value, name);
    }
    forall other | Carries(node, "class", other)
      ensures value == Some(other)
    {
      AttrMeans(node, "class", other);
    }
  }

  lemma {:induction false} HasMeans(node: Node, name: string)
    ensures Attr(node, LowerAll(name)).Some? <==> exists value :: Carries(node, name, value)
  {
    var value := Attr(node, LowerAll(name));
    if value.Some? {
      AttrMeans(node, name, value.value);
    }
    forall other | Carries(node, name, other)
      ensures value == Some(other)
    {
      AttrMeans(node, name, other);
    }
  }

  /** Adding a test adds its condition. */
  lemma {:induction false} AddMeans(c: Compound, t: Test, node: Node)
    requires TestOk(t) && (t.IdIs? ==> c.id.None?) && node.Element?
    ensures Basic(Add(c, t), node) <==> Basic(c, node) && Passes(t, node)
  {
    match t
    case ClassIs(name) =>
      ClassMeans(node, name);
      ClassAdded(c, name, node);
    case IdIs(name) =>
      assert LowerAll("id") == "id";
      AttrMeans(node, "id", name);
    case HasAttr(name, _) =>
      HasMeans(node, name);
      AttributeAdded(c, (LowerAll(name), None), node);
    case AttrIs(name, value, _, _, _, _) =>
      AttrMeans(node, name, value);
      AttributeAdded(c, (LowerAll(name), Some(value)), node);
    case ChildIs(_) =>
  }

  lemma {:induction false} ClassAdded(c: Compound, name: string, node: Node)
    ensures Basic(c.(classes := c.classes + [name]), node) <==> Basic(c, node) && HasClass(node, name)
  {
    var more := c.classes + [name];
    assert more[|c.classes|] == name && forall i :: 0 <= i < |c.classes| ==> more[i] == c.classes[i];
  }

  lemma {:induction false} AttributeAdded(c: Compound, attr: (string, Option<string>), node: Node)
    ensures Basic(c.(attrs := c.attrs + [attr]), node) <==> Basic(c, node) && HasAttribute(node, attr)
  {
    var more := c.attrs + [attr];
    assert more[|c.attrs|] == attr && forall i :: 0 <= i < |c.attrs| ==> more[i] == c.attrs[i];
  }

  ghost predicate AllPass(tests: seq<Test>, node: Node)
    requires forall i :: 0 <= i < |tests| ==> TestOk(tests[i])
  {
    forall i :: 0 <= i < |tests| ==> Passes(tests[i], node)
  }

  lemma {:induction false} AddAllMeans(c: Compound, tests: seq<Test>, node: Node)
    requires MayFollow(c, tests) && node.Element?
    ensures Basic(AddAll(c, tests), node) <==> Basic(c, node) && AllPass(tests, node)
    decreases |tests|
  {
    if tests != [] {
      FollowNext(c, tests);
      AddMeans(c, tests[0], node);
      AddAllMeans(Add(c, tests[0]), tests[1..], node);
      assert AllPass(tests, node) <==> Passes(tests[0], node) && AllPass(tests[1..], node) by {
        assert forall i :: 0 < i < |tests| ==> tests[i] == tests[1..][i - 1];
      }
    }
  }

  function IndexOr(t: Test, before: Option<nat>): Option<nat>
    requires TestOk(t)
  {
    if t.ChildIs? then Some(NumeralValue(t.digits)) else before
  }

  /** The child index that counts. */
  function LastIndex(tests: seq<Test>, before: Option<nat>): Option<nat>
    requires forall i :: 0 <= i < |tests| ==> TestOk(tests[i])
    decreases |tests|
  {
    if tests == [] then before
    else LastIndex(tests[1..], IndexOr(tests[0], before))
  }

  lemma {:induction false} AddAllIndex(c: Compound, tests: seq<Test>)
    requires forall i :: 0 <= i < |tests| ==> TestOk(tests[i])
    ensures AddAll(c, tests).nth == LastIndex(tests, c.nth) && AddAll(c, tests).tag == c.tag
    decreases |tests|
  {
    if tests != [] {
      AddAllIndex(Add(c, tests[0]), tests[1..]);
    }
  }

  /** The index that counts is that of the test that no other child index follows. */
  lemma {:induction false} LastIndexIs(tests: seq<Test>, before: Option<nat>)
    requires forall i :: 0 <= i < |tests| ==> TestOk(tests[i])
    ensures forall i :: 0 <= i < |tests| && TestOk(tests[i]) && tests[i].ChildIs? && Counts(tests, i) ==>
              LastIndex(tests, before) == Some(NumeralValue(tests[i].digits))
    ensures (forall i :: 0 <= i < |tests| ==> !tests[i].ChildIs?) ==> LastIndex(tests, before) == before
    ensures (exists i :: 0 <= i < |tests| && tests[i].ChildIs?) ==>
              exists i :: 0 <= i < |tests| && tests[i].ChildIs? && Counts(tests, i)
    decreases |tests|
  {
    if tests != [] {
      var rest := tests[1..];
      LastIndexIs(rest, IndexOr(tests[0], before));
      assert forall i :: 0 <= i < |rest| ==> rest[i] == tests[i + 1];
      if exists i :: 0 <= i < |rest| && rest[i].ChildIs? {
        var i :| 0 <= i < |rest| && rest[i].ChildIs? && Counts(rest, i);
        assert tests[i + 1].ChildIs? && Counts(tests, i + 1);
      } else if tests[0].ChildIs? {
        assert Counts(tests, 0);
      }
    }
  }

  lemma {:induction false} IndexMeans(tests: seq<Test>, root: Node, at: Address)
    requires Valid(root, at) && forall i :: 0 <= i < |tests| ==> TestOk(tests[i])
    ensures var n := LastIndex(tests, None);
            (n.Some? ==> at != [] && OrdinalAt(root, at) == n.value) <==>
            forall i :: 0 <= i < |tests| && TestOk(tests[i]) && tests[i].ChildIs? && Counts(tests, i) ==>
              TestHolds(tests[i], root, at)
  {
    var n := LastIndex(tests, None);
    LastIndexIs(tests, None);
    forall i | 0 <= i < |tests| && TestOk(tests[i]) && tests[i].ChildIs? && Counts(tests, i)
      ensures TestHolds(tests[i], root, at) <==> at != [] && OrdinalAt(root, at) == n.value
    {
      if at != [] {
        NthMeans(root, at, n.value);
      }
    }
  }

  lemma {:induction false} SubjectMeans(s: Subject, node: Node)
    ensures node.Element? && Basic(SubjectCompound(s), node) <==>
            node.Element? && (s.Tag? ==> Spells(node.tag, s.name))
  {
    if s.Tag? && node.Element? {
      LowerSpells(node.tag, s.name);
    }
  }

  /** Apart from the child index, every test counts. */
  lemma {:induction false} TestsSplit(tests: seq<Test>, root: Node, at: Address)
    requires Valid(root, at) && NodeAt(root, at).Element? && forall i :: 0 <= i < |tests| ==> TestOk(tests[i])
    ensures (forall i :: 0 <= i < |tests| && Counts(tests, i) ==> TestHolds(tests[i], root, at)) <==>
            AllPass(tests, NodeAt(root, at)) &&
            forall i :: 0 <= i < |tests| && TestOk(tests[i]) && tests[i].ChildIs? && Counts(tests, i) ==>
              TestHolds(tests[i], root, at)
  {
    forall i | 0 <= i < |tests|
      ensures !tests[i].ChildIs? ==> Counts(tests, i) && (TestHolds(tests[i], root, at) <==> Passes(tests[i], NodeAt(root, at)))
      ensures tests[i].ChildIs? ==> Passes(tests[i], NodeAt(root, at))
    {
    }
  }

  /** A compound matches exactly the elements that have what the part names. */
  lemma {:induction false} PartMeans(p: Part, root: Node, at: Address)
    requires Valid(root, at) && PartOk(p)
    ensures MatchesCompound(PartCompound(p), root, at) <==> PartHolds(p, root, at)
  {
    var c, node := PartCompound(p), NodeAt(root, at);
    CompoundSplits(c, root, at);
    SubjectMeans(p.subject, node);
    AddAllIndex(SubjectCompound(p.subject), p.tests);
    IndexMeans(p.tests, root, at);
    if node.Element? {
      AddAllMeans(SubjectCompound(p.subject), p.tests, node);
      TestsSplit(p.tests, root, at);
    }
  }

  // ---- one alternative ----

  lemma {:induction false} ChainPart(c: Chain, k: nat)
    requires ChainOk(c) && k <= |c.rest|
    ensures |ChainSelector(c)| == |c.rest| + 1 && PartOk(PartOf(c, k))
    ensures ChainSelector(c)[k] == (PartCompound(PartOf(c, k)), ChildOf(c, k))
  {
    RestLength(c.rest);
    if k > 0 {
      RestPart(c.rest, k - 1);
    }
  }

  lemma {:induction false} RestPart(rest: seq<(Gap, Part)>, k: nat)
    requires k < |rest| && forall i :: 0 <= i < |rest| ==> PartOk(rest[i].1)
    ensures k < |RestSelector(rest)| && RestSelector(rest)[k] == (PartCompound(rest[k].1), rest[k].0.child)
  {
    if k > 0 {
      RestPart(rest[1..], k - 1);
    }
  }

  lemma {:induction false} SamePrefix(at: Address, n: nat, m: nat)
    requires m <= n <= |at|
    ensures at[..n][..m] == at[..m]
  {
  }

  lemma {:induction false} HoldsAbove(p: Part, root: Node, at: Address, n: nat, m: nat)
    requires m <= n <= |at| && Valid(root, at) && Valid(root, at[..n]) && PartOk(p)
    ensures HoldsAt(p, root, at[..n], m) <==> HoldsAt(p, root, at, m)
  {
    SamePrefix(at, n, m);
  }

  lemma {:induction false} HoldsHere(p: Part, root: Node, at: Address)
    requires Valid(root, at) && PartOk(p)
    ensures HoldsAt(p, root, at, |at|) <==> PartHolds(p, root, at)
  {
    assert at[..|at|] == at;
  }

  lemma {:induction false} WitnessExtends(c: Chain, k: nat, root: Node, at: Address, n: nat, depths: seq<nat>)
    requires ChainOk(c) && 0 < k <= |c.rest| && n < |at| && Valid(root, at) && Valid(root, at[..n])
    requires Witnesses(c, k - 1, root, at[..n], depths) && PartHolds(PartOf(c, k), root, at)
    requires ChildOf(c, k) ==> n == |at| - 1
    ensures Witnesses(c, k, root, at, depths + [|at|])
  {
    var more := depths + [|at|];
    HoldsHere(PartOf(c, k), root, at);
    forall j | 0 <= j <= k
      ensures more[j] <= |at| && HoldsAt(PartOf(c, j), root, at, more[j])
    {
      if j < k {
        HoldsAbove(PartOf(c, j), root, at, n, depths[j]);
      }
    }
  }

  lemma {:induction false} WitnessShrinks(c: Chain, k: nat, root: Node, at: Address, depths: seq<nat>, n: nat)
    requires ChainOk(c) && 0 < k <= |c.rest| && Valid(root, at) && Witnesses(c, k, root, at, depths) && n == depths[k - 1]
    ensures n < |at| && Valid(root, at[..n]) && Witnesses(c, k - 1, root, at[..n], depths[..k])
    ensures PartHolds(PartOf(c, k), root, at) && (ChildOf(c, k) ==> n == |at| - 1)
  {
    PrefixValid(root, at, n);
    HoldsHere(PartOf(c, k), root, at);
    DepthsRise(c, k, root, at, depths);
    forall j | 0 <= j <= k - 1
      ensures depths[j] <= n && HoldsAt(PartOf(c, j), root, at[..n], depths[j])
    {
      HoldsAbove(PartOf(c, j), root, at, n, depths[j]);
    }
  }

  lemma {:induction false} DepthsRise(c: Chain, k: nat, root: Node, at: Address, depths: seq<nat>)
    requires ChainOk(c) && k <= |c.rest| && Valid(root, at) && Witnesses(c, k, root, at, depths)
    ensures forall i, j :: 0 <= i <= j <= k ==> depths[i] <= depths[j]
  {
    RisingSteps(depths);
  }

  lemma {:induction false} RisingSteps(depths: seq<nat>)
    requires forall j :: 0 < j < |depths| ==> depths[j - 1] < depths[j]
    ensures forall i, j :: 0 <= i <= j < |depths| ==> depths[i] <= depths[j]
  {
    if |depths| > 1 {
      var init := depths[..|depths| - 1];
      RisingSteps(init);
      assert forall i :: 0 <= i < |init| ==> init[i] <= init[|init| - 1];
    }
  }

  ghost predicate Reaches(c: Chain, k: nat, root: Node, at: Address)
    requires Valid(root, at) && ChainOk(c) && k <= |c.rest|
  {
    exists depths :: Witnesses(c, k, root, at, depths)
  }

  /** The parts before match some ancestor, or the parent. */
  ghost predicate Above(before: Selector, child: bool, root: Node, at: Address)
    requires before != [] && Valid(root, at)
  {
    exists n :: 0 <= n < |at| && (child ==> n == |at| - 1) && MatchesAncestor(before, root, at, n)
  }

  lemma {:induction false} MatchesSplits(before: Selector, c: Compound, child: bool, root: Node, at: Address)
    requires Valid(root, at)
    ensures Matches(before + [(c, child)], root, at) <==>
            MatchesCompound(c, root, at) && (before == [] || Above(before, child, root, at))
  {
    var parts := before + [(c, child)];
    assert parts[|parts| - 1] == (c, child) && parts[..|parts| - 1] == before;
  }

  lemma {:induction false} ReachedAbove(c: Chain, k: nat, root: Node, at: Address, before: Selector, depths: seq<nat>)
    requires Valid(root, at) && ChainOk(c) && 0 < k <= |c.rest| && before != [] && Witnesses(c, k, root, at, depths)
    requires forall n :: 0 <= n < |at| && Valid(root, at[..n]) ==>
               (Matches(before, root, at[..n]) <==> Reaches(c, k - 1, root, at[..n]))
    ensures PartHolds(PartOf(c, k), root, at) && Above(before, ChildOf(c, k), root, at)
  {
    var n := depths[k - 1];
    WitnessShrinks(c, k, root, at, depths, n);
    assert Matches(before, root, at[..n]);
    assert MatchesAncestor(before, root, at, n);
  }

  lemma {:induction false} AboveReached(c: Chain, k: nat, root: Node, at: Address, before: Selector)
    requires Valid(root, at) && ChainOk(c) && 0 < k <= |c.rest| && before != []
    requires PartHolds(PartOf(c, k), root, at) && Above(before, ChildOf(c, k), root, at)
    requires forall n :: 0 <= n < |at| && Valid(root, at[..n]) ==>
               (Matches(before, root, at[..n]) <==> Reaches(c, k - 1, root, at[..n]))
    ensures Reaches(c, k, root, at)
  {
    var n: nat :| n < |at| && (ChildOf(c, k) ==> n == |at| - 1) && MatchesAncestor(before, root, at, n);
    PrefixValid(root, at, n);
    assert Matches(before, root, at[..n]);
    var depths :| Witnesses(c, k - 1, root, at[..n], depths);
    WitnessExtends(c, k, root, at, n, depths);
  }

  /** The parts up to `k`, as a rule of their own, match exactly where they find ancestors. */
  lemma {:induction false} ChainReaches(c: Chain, k: nat, root: Node, at: Address)
    requires Valid(root, at) && ChainOk(c) && k <= |c.rest|
    ensures |ChainSelector(c)| == |c.rest| + 1
    ensures Matches(ChainSelector(c)[..k + 1], root, at) <==> Reaches(c, k, root, at)
    decreases k
  {
    var rule, p := ChainSelector(c), PartOf(c, k);
    ChainPart(c, k);
    PartMeans(p, root, at);
    assert rule[..k + 1] == rule[..k] + [(PartCompound(p), ChildOf(c, k))];
    MatchesSplits(rule[..k], PartCompound(p), ChildOf(c, k), root, at);
    if k == 0 {
      HoldsHere(p, root, at);
      if PartHolds(p, root, at) {
        assert Witnesses(c, 0, root, at, [|at|]);
      }
    } else {
      StepReaches(c, k, root, at, rule[..k]);
    }
  }

  lemma {:induction false} StepReaches(c: Chain, k: nat, root: Node, at: Address, before: Selector)
    requires Valid(root, at) && ChainOk(c) && 0 < k <= |c.rest| && k <= |ChainSelector(c)| && before == ChainSelector(c)[..k]
    ensures Reaches(c, k, root, at) <==> PartHolds(PartOf(c, k), root, at) && Above(before, ChildOf(c, k), root, at)
    decreases k, 0
  {
    forall n | 0 <= n < |at| && Valid(root, at[..n])
      ensures Matches(before, root, at[..n]) <==> Reaches(c, k - 1, root, at[..n])
    {
      ChainReaches(c, k - 1, root, at[..n]);
    }
    if Reaches(c, k, root, at) {
      var depths :| Witnesses(c, k, root, at, depths);
      ReachedAbove(c, k, root, at, before, depths);
    }
    if PartHolds(PartOf(c, k), root, at) && Above(before, ChildOf(c, k), root, at) {
      AboveReached(c, k, root, at, before);
    }
  }

  /** An alternative matches exactly the nodes it is meant for. */
  lemma {:induction false} ChainMeans(c: Chain, root: Node, at: Address)
    requires Valid(root, at) && ChainOk(c)
    ensures ChainSelector(c) != [] && (Matches(ChainSelector(c), root, at) <==> ChainHolds(c, root, at))
  {
    ChainReaches(c, |c.rest|, root, at);
    assert ChainSelector(c)[..|c.rest| + 1] == ChainSelector(c);
  }
}
