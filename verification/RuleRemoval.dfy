/** From rule texts to the document: removal takes out exactly the elements that the rules ask for, with what
    lies under them, and no other node. */
module RuleRemoval {
  import opened Wrappers
  import opened Selectors
  import opened SelectorGrammar
  import opened SelectorMeaning
  import opened SelectorReading
  import opened SelectorTexts
  import opened DomRemoval

  // ---- several rules ----

  predicate AllChains(chains: seq<Chain>) {
    forall k :: 0 <= k < |chains| ==> ChainOk(chains[k])
  }

  predicate AllRules(rules: seq<seq<Chain>>) {
    forall i :: 0 <= i < |rules| ==> RuleOk(rules[i])
  }

  function Texts(rules: seq<seq<Chain>>): seq<string>
    requires AllRules(rules)
  {
    seq(|rules|, i requires 0 <= i < |rules| => if RuleOk(rules[i]) then RuleText(rules[i]) else "")
  }

  /** The alternatives of all rules. */
  function Alternatives(rules: seq<seq<Chain>>): (chains: seq<Chain>)
    requires AllRules(rules)
    ensures AllChains(chains)
  {
    if rules == [] then []
    else
      assert RuleOk(rules[0]) && AllRules(rules[1..]);
      rules[0] + Alternatives(rules[1..])
  }

  lemma {:induction false} SelectorsJoin(a: seq<Chain>, b: seq<Chain>)
    requires AllChains(a) && AllChains(b) && AllChains(a + b)
    ensures RuleSelectors(a + b) == RuleSelectors(a) + RuleSelectors(b)
  {
    if a == [] {
      assert a + b == b;
    } else {
      assert (a + b)[1..] == a[1..] + b;
      SelectorsJoin(a[1..], b);
    }
  }

  lemma {:induction false} SelectorsCount(chains: seq<Chain>)
    requires AllChains(chains)
    ensures |RuleSelectors(chains)| == |chains|
    ensures forall k :: 0 <= k < |chains| ==> RuleSelectors(chains)[k] == ChainSelector(chains[k])
  {
    if chains != [] {
      SelectorsCount(chains[1..]);
    }
  }

  lemma {:induction false} LimitsJoin(a: seq<Chain>, b: seq<Chain>, others: nat)
    ensures WithinLimits(a + b, others) <==> WithinLimits(a, others) && WithinLimits(b, others + |a|)
  {
    var both := a + b;
    assert forall i :: 0 <= i < |a| ==> both[i] == a[i];
    assert forall i :: 0 <= i < |b| ==> both[|a| + i] == b[i];
  }

  /** What alternatives are read as, or refused. */
  ghost predicate ListRead(r: Result<seq<Selector>, Error>, chains: seq<Chain>, out: seq<Selector>)
    requires AllChains(chains)
  {
    if WithinLimits(chains, |out|) then r == Ok(out + RuleSelectors(chains)) else r.Err?
  }

  /** One rule and then the others. */
  lemma {:induction false} ListJoins(a: seq<Chain>, b: seq<Chain>, out: seq<Selector>,
                                     first: Result<seq<Selector>, Error>, r: Result<seq<Selector>, Error>)
    requires AllChains(a) && AllChains(b) && AllChains(a + b) && ListRead(first, a, out)
    requires first.Ok? ==> ListRead(r, b, first.value)
    requires first.Err? ==> r.Err?
    ensures ListRead(r, a + b, out)
  {
    LimitsJoin(a, b, |out|);
    SelectorsJoin(a, b);
    SelectorsCount(a);
    assert out + RuleSelectors(a) + RuleSelectors(b) == out + RuleSelectors(a + b);
  }

  lemma {:induction false} FirstRule(rules: seq<seq<Chain>>)
    requires AllRules(rules) && rules != []
    ensures RuleOk(rules[0]) && AllRules(rules[1..]) && Alternatives(rules) == rules[0] + Alternatives(rules[1..])
    ensures Texts(rules) != [] && Texts(rules)[0] == RuleText(rules[0]) && Texts(rules)[1..] == Texts(rules[1..])
  {
  }

  /** Rules are read one after another, up to the limits on all of them together. */
  lemma {:induction false} RulesRead(rules: seq<seq<Chain>>, out: seq<Selector>)
    requires |out| <= 32 && AllRules(rules)
    ensures ListRead(ParseRules(Texts(rules), out), Alternatives(rules), out)
    decreases |rules|
  {
    if rules == [] {
      assert out + RuleSelectors([]) == out;
    } else {
      FirstRule(rules);
      RuleReads(rules[0], out);
      SelectorsCount(rules[0]);
      var first := ParseRule(RuleText(rules[0]), out);
      if first.Ok? {
        RulesRead(rules[1..], first.value);
      }
      ListJoins(rules[0], Alternatives(rules[1..]), out, first, ParseRules(Texts(rules), out));
    }
  }

  lemma {:induction false} RulesSpelled(sources: seq<string>, out: seq<Selector>) returns (rules: seq<seq<Chain>>)
    requires ParseRules(sources, out).Ok?
    ensures AllRules(rules) && Texts(rules) == sources
    decreases |sources|
  {
    if sources == [] {
      rules := [];
    } else {
      var first := AcceptedSpelled(sources[0], out);
      var rest := RulesSpelled(sources[1..], ParseRule(sources[0], out).value);
      rules := [first] + rest;
      assert rules[1..] == rest;
      FirstRule(rules);
      assert sources == [sources[0]] + sources[1..] && Texts(rules) == [Texts(rules)[0]] + Texts(rules)[1..];
    }
  }

  /** Rules are accepted if and only if each is written by the grammar, and all are within the limits. */
  lemma {:induction false} RulesAccepted(sources: seq<string>)
    ensures Parse(sources).Ok? <==>
      |sources| <= 32 &&
      exists rules :: AllRules(rules) && Texts(rules) == sources && WithinLimits(Alternatives(rules), 0)
  {
    if Parse(sources).Ok? {
      var rules := RulesSpelled(sources, []);
      RulesRead(rules, []);
    }
    if rules :| AllRules(rules) && Texts(rules) == sources && WithinLimits(Alternatives(rules), 0) {
      RulesRead(rules, []);
    }
  }

  /** Some alternative of some rule is meant for the node. */
  ghost predicate Meant(rules: seq<seq<Chain>>, root: Node, at: Address)
    requires Valid(root, at) && AllRules(rules)
  {
    exists i :: MeantBy(rules, i, root, at)
  }

  ghost predicate MeantBy(rules: seq<seq<Chain>>, i: int, root: Node, at: Address)
    requires Valid(root, at) && AllRules(rules)
  {
    0 <= i < |rules| && RuleHolds(rules[i], root, at)
  }

  ghost predicate SomeHolds(chains: seq<Chain>, root: Node, at: Address)
    requires Valid(root, at) && AllChains(chains)
  {
    exists k :: 0 <= k < |chains| && ChainHolds(chains[k], root, at)
  }

  lemma {:induction false} HoldsJoin(a: seq<Chain>, b: seq<Chain>, root: Node, at: Address)
    requires Valid(root, at) && AllChains(a + b) && AllChains(a) && AllChains(b)
    ensures SomeHolds(a + b, root, at) <==> SomeHolds(a, root, at) || SomeHolds(b, root, at)
  {
    var both := a + b;
    assert forall i :: 0 <= i < |a| ==> both[i] == a[i];
    assert forall i :: 0 <= i < |b| ==> both[|a| + i] == b[i];
  }

  lemma {:induction false} MeantShift(rules: seq<seq<Chain>>, i: nat, root: Node, at: Address)
    requires Valid(root, at) && AllRules(rules) && rules != [] && AllRules(rules[1..])
    ensures MeantBy(rules, i + 1, root, at) <==> MeantBy(rules[1..], i, root, at)
  {
  }

  lemma {:induction false} MeantFirst(rules: seq<seq<Chain>>, root: Node, at: Address)
    requires Valid(root, at) && AllRules(rules) && rules != [] && AllRules(rules[1..])
    ensures Meant(rules, root, at) <==> MeantBy(rules, 0, root, at) || Meant(rules[1..], root, at)
  {
    if Meant(rules, root, at) {
      var i :| MeantBy(rules, i, root, at);
      if i > 0 {
        MeantShift(rules, i - 1, root, at);
      }
    }
    if Meant(rules[1..], root, at) {
      var i :| MeantBy(rules[1..], i, root, at);
      MeantShift(rules, i, root, at);
    }
  }

  lemma {:induction false} MeantAlternatives(rules: seq<seq<Chain>>, root: Node, at: Address)
    requires Valid(root, at) && AllRules(rules)
    ensures SomeHolds(Alternatives(rules), root, at) <==> Meant(rules, root, at)
  {
    if rules != [] {
      FirstRule(rules);
      MeantFirst(rules, root, at);
      MeantAlternatives(rules[1..], root, at);
      HoldsJoin(rules[0], Alternatives(rules[1..]), root, at);
      assert MeantBy(rules, 0, root, at) <==> SomeHolds(rules[0], root, at);
    }
  }

  predicate Filled(rules: seq<Selector>) {
    forall k :: 0 <= k < |rules| ==> rules[k] != []
  }

  /** What the rules were read as matches exactly the nodes they are meant for. */
  lemma {:induction false} MatchedMeant(rules: seq<seq<Chain>>, sel: seq<Selector>, root: Node, at: Address)
    requires Valid(root, at) && AllRules(rules) && sel == RuleSelectors(Alternatives(rules))
    ensures Filled(sel) && (AnyMatches(sel, root, at) <==> Meant(rules, root, at))
  {
    var cs := Alternatives(rules);
    SelectorsCount(cs);
    forall k | 0 <= k < |cs|
      ensures sel[k] != [] && (Matches(sel[k], root, at) <==> ChainHolds(cs[k], root, at))
    {
      ChainMeans(cs[k], root, at);
    }
    MeantAlternatives(rules, root, at);
  }

  // ---- the nodes of a document ----

  datatype Label = ElementLabel(tag: string, attrs: seq<(string, string)>) | OtherLabel

  function LabelOf(node: Node): Label {
    if node.Element? then ElementLabel(node.tag, node.attrs) else OtherLabel
  }

  /** Every node with its place, in document order. */
  function Listing(node: Node, at: Address): seq<(Address, Label)>
    decreases node, 1
  {
    [(at, LabelOf(node))] + ListingAll(node.children, at, 0)
  }

  function ListingAll(nodes: seq<Node>, at: Address, i: nat): seq<(Address, Label)>
    decreases nodes, 0
  {
    if nodes == [] then [] else Listing(nodes[0], at + [i]) + ListingAll(nodes[1..], at, i + 1)
  }

  /** Every node with its depth, in document order. */
  function Outline(node: Node, depth: nat): seq<(nat, Label)>
    decreases node, 1
  {
    [(depth, LabelOf(node))] + OutlineAll(node.children, depth + 1)
  }

  function OutlineAll(nodes: seq<Node>, depth: nat): seq<(nat, Label)>
    decreases nodes, 0
  {
    if nodes == [] then [] else Outline(nodes[0], depth) + OutlineAll(nodes[1..], depth)
  }

  /** The node, or one above it other than the root, is a target. */
  predicate Under(targets: set<Address>, at: Address) {
    exists n :: 0 < n <= |at| && at[..n] in targets
  }

  /** The nodes that are not under a target, at their depths. */
  function Kept(nodes: seq<(Address, Label)>, targets: set<Address>): seq<(nat, Label)> {
    if nodes == [] then [] else KeptOne(nodes[0], targets) + Kept(nodes[1..], targets)
  }

  function KeptOne(node: (Address, Label), targets: set<Address>): seq<(nat, Label)> {
    if Under(targets, node.0) then [] else [(|node.0|, node.1)]
  }

  lemma {:induction false} KeptJoin(a: seq<(Address, Label)>, b: seq<(Address, Label)>, targets: set<Address>)
    ensures Kept(a + b, targets) == Kept(a, targets) + Kept(b, targets)
  {
    if a == [] {
      assert a + b == b;
    } else {
      KeptJoin(a[1..], b, targets);
      assert (a + b)[0] == a[0] && (a + b)[1..] == a[1..] + b;
      var first, x, y := KeptOne(a[0], targets), Kept(a[1..], targets), Kept(b, targets);
      assert first + (x + y) == first + x + y;
    }
  }

  lemma {:induction false} UnderChild(targets: set<Address>, at: Address, i: nat)
    ensures Under(targets, at + [i]) <==> Under(targets, at) || at + [i] in targets
  {
    var child := at + [i];
    assert child[..|child|] == child;
    forall n | 0 < n <= |at|
      ensures child[..n] == at[..n]
    {
    }
  }

  /** Nothing under a target is kept. */
  lemma {:induction false} NoneKept(node: Node, at: Address, targets: set<Address>)
    requires Under(targets, at)
    ensures Kept(Listing(node, at), targets) == []
    decreases node, 1
  {
    NoneKeptAll(node.children, at, 0, targets);
    KeptJoin([(at, LabelOf(node))], ListingAll(node.children, at, 0), targets);
  }

  lemma {:induction false} NoneKeptAll(nodes: seq<Node>, at: Address, i: nat, targets: set<Address>)
    requires Under(targets, at)
    ensures Kept(ListingAll(nodes, at, i), targets) == []
    decreases nodes, 0
  {
    if nodes != [] {
      UnderChild(targets, at, i);
      NoneKept(nodes[0], at + [i], targets);
      NoneKeptAll(nodes[1..], at, i + 1, targets);
      KeptJoin(Listing(nodes[0], at + [i]), ListingAll(nodes[1..], at, i + 1), targets);
    }
  }

  /** Taking the targets out leaves exactly the nodes that are not under one, in their order and at their depths. */
  lemma {:induction false} PrunedKeeps(node: Node, at: Address, targets: set<Address>)
    requires !Under(targets, at)
    ensures Outline(Pruned(node, at, targets), |at|) == Kept(Listing(node, at), targets)
    decreases node, 1
  {
    PrunedKeepsAll(node.children, at, 0, targets);
    KeptJoin([(at, LabelOf(node))], ListingAll(node.children, at, 0), targets);
  }

  lemma {:induction false} PrunedKeepsAll(nodes: seq<Node>, at: Address, i: nat, targets: set<Address>)
    requires !Under(targets, at)
    ensures OutlineAll(PrunedAll(nodes, at, i, targets), |at| + 1) == Kept(ListingAll(nodes, at, i), targets)
    decreases nodes, 0
  {
    if nodes != [] {
      var child := at + [i];
      UnderChild(targets, at, i);
      PrunedKeepsAll(nodes[1..], at, i + 1, targets);
      KeptJoin(Listing(nodes[0], child), ListingAll(nodes[1..], at, i + 1), targets);
      if child in targets {
        NoneKept(nodes[0], child, targets);
      } else {
        PrunedKeeps(nodes[0], child, targets);
      }
    }
  }

  // ---- the outline is the document ----

  lemma {:induction false} OutlineDepths(node: Node, depth: nat)
    ensures forall k :: 0 <= k < |Outline(node, depth)| ==> Outline(node, depth)[k].0 >= depth
    decreases node, 1
  {
    OutlineAllDepths(node.children, depth + 1);
  }

  lemma {:induction false} OutlineAllDepths(nodes: seq<Node>, depth: nat)
    ensures forall k :: 0 <= k < |OutlineAll(nodes, depth)| ==> OutlineAll(nodes, depth)[k].0 >= depth
    ensures nodes != [] ==> OutlineAll(nodes, depth) != [] && OutlineAll(nodes, depth)[0] == (depth, LabelOf(nodes[0]))
    ensures nodes == [] ==> OutlineAll(nodes, depth) == []
    decreases nodes, 0
  {
    if nodes != [] {
      OutlineDepths(nodes[0], depth);
      OutlineAllDepths(nodes[1..], depth);
    }
  }

  lemma {:induction false} DivisionAt(x: seq<(nat, Label)>, y: seq<(nat, Label)>, depth: nat)
    requires (y != [] ==> y[0].0 == depth) && forall k :: 0 <= k < |x| ==> x[k].0 > depth
    ensures forall k :: 0 <= k < |x| ==> (x + y)[k].0 > depth
    ensures |x| < |x + y| ==> (x + y)[|x|].0 == depth
  {
  }

  /** What is deeper and what follows it cannot be divided in two ways. */
  lemma {:induction false} OneDivision(
    x: seq<(nat, Label)>, y: seq<(nat, Label)>, v: seq<(nat, Label)>, w: seq<(nat, Label)>, depth: nat)
    requires x + y == v + w && (y != [] ==> y[0].0 == depth) && (w != [] ==> w[0].0 == depth)
    requires (forall k :: 0 <= k < |x| ==> x[k].0 > depth) && forall k :: 0 <= k < |v| ==> v[k].0 > depth
    ensures x == v && y == w
  {
    DivisionAt(x, y, depth);
    DivisionAt(v, w, depth);
    assert x == (x + y)[..|x|] && y == (x + y)[|x|..] && v == (v + w)[..|v|] && w == (v + w)[|v|..];
  }

  lemma {:induction false} OutlineSplits(nodes: seq<Node>, depth: nat)
    requires nodes != []
    ensures OutlineAll(nodes, depth) ==
            [(depth, LabelOf(nodes[0]))] + (OutlineAll(nodes[0].children, depth + 1) + OutlineAll(nodes[1..], depth))
  {
  }

  lemma {:induction false} SameNode(a: Node, b: Node)
    requires LabelOf(a) == LabelOf(b) && a.children == b.children
    ensures a == b
  {
  }

  /** Two documents with one outline are one document. */
  lemma {:induction false} OutlineDetermines(a: Node, b: Node, depth: nat)
    requires Outline(a, depth) == Outline(b, depth)
    ensures a == b
    decreases a, 1
  {
    assert Outline(a, depth)[0] == (depth, LabelOf(a)) && Outline(b, depth)[0] == (depth, LabelOf(b));
    assert Outline(a, depth)[1..] == OutlineAll(a.children, depth + 1);
    assert Outline(b, depth)[1..] == OutlineAll(b.children, depth + 1);
    OutlineAllDetermines(a.children, b.children, depth + 1);
    SameNode(a, b);
  }

  lemma {:induction false} OutlineAllDetermines(a: seq<Node>, b: seq<Node>, depth: nat)
    requires OutlineAll(a, depth) == OutlineAll(b, depth)
    ensures a == b
    decreases a, 0
  {
    OutlineAllDepths(a, depth);
    OutlineAllDepths(b, depth);
    if a != [] {
      var x, y := OutlineAll(a[0].children, depth + 1), OutlineAll(a[1..], depth);
      var v, w := OutlineAll(b[0].children, depth + 1), OutlineAll(b[1..], depth);
      OutlineSplits(a, depth);
      OutlineSplits(b, depth);
      assert OutlineAll(a, depth)[1..] == x + y && OutlineAll(b, depth)[1..] == v + w;
      DivisionsAgree(a, b, depth);
      OutlineAllDetermines(a[0].children, b[0].children, depth + 1);
      OutlineAllDetermines(a[1..], b[1..], depth);
      SameNode(a[0], b[0]);
      assert a == [a[0]] + a[1..] && b == [b[0]] + b[1..];
    }
  }

  lemma {:induction false} DivisionsAgree(a: seq<Node>, b: seq<Node>, depth: nat)
    requires a != [] && b != [] && OutlineAll(a, depth) == OutlineAll(b, depth)
    ensures OutlineAll(a[0].children, depth + 1) == OutlineAll(b[0].children, depth + 1)
    ensures OutlineAll(a[1..], depth) == OutlineAll(b[1..], depth)
  {
    var x, y := OutlineAll(a[0].children, depth + 1), OutlineAll(a[1..], depth);
    var v, w := OutlineAll(b[0].children, depth + 1), OutlineAll(b[1..], depth);
    OutlineSplits(a, depth);
    OutlineSplits(b, depth);
    OutlineAllDepths(a[0].children, depth + 1);
    OutlineAllDepths(b[0].children, depth + 1);
    OutlineAllDepths(a[1..], depth);
    OutlineAllDepths(b[1..], depth);
    assert x + y == OutlineAll(a, depth)[1..] && v + w == OutlineAll(b, depth)[1..];
    OneDivision(x, y, v, w, depth);
  }

  // ---- from rule texts to the document ----

  /** Exactly the nodes that the rules ask for. */
  ghost predicate AreMeant(rules: seq<seq<Chain>>, root: Node, targets: set<Address>)
    requires AllRules(rules)
  {
    forall at :: at in targets <==> Valid(root, at) && Meant(rules, root, at)
  }

  lemma {:induction false} TargetsMeant(rules: seq<seq<Chain>>, sel: seq<Selector>, root: Node, targets: set<Address>)
    requires AllRules(rules) && sel == RuleSelectors(Alternatives(rules)) && Filled(sel)
    requires AreTargets(root, sel, targets)
    ensures AreMeant(rules, root, targets)
  {
    forall at
      ensures at in targets <==> Valid(root, at) && Meant(rules, root, at)
    {
      if Valid(root, at) {
        MatchedMeant(rules, sel, root, at);
      }
    }
  }

  lemma {:induction false} SelectorsFilled(chains: seq<Chain>)
    requires AllChains(chains)
    ensures Filled(RuleSelectors(chains))
  {
    SelectorsCount(chains);
  }

  /** Removal by rule texts takes out the elements that the rules ask for, with what lies under them, and
      leaves every other node where it was. */
  method RemoveByRules(root: Node, sources: seq<string>, ghost rules: seq<seq<Chain>>)
    returns (r: Result<(Node, set<Address>), Error>)
    requires AllRules(rules) && sources == Texts(rules)
    ensures r.Ok? ==> |rules| <= 32 && WithinLimits(Alternatives(rules), 0)
    ensures r.Ok? ==> AreMeant(rules, root, r.value.1)
    ensures r.Ok? ==> Outline(r.value.0, 0) == Kept(Listing(root, []), r.value.1)
    ensures WithinLimits(Alternatives(rules), 0) && Affordable(RuleSelectors(Alternatives(rules)), root) ==>
              r.Ok? || |rules| > 32
  {
    RulesRead(rules, []);
    assert [] + RuleSelectors(Alternatives(rules)) == RuleSelectors(Alternatives(rules));
    var sel :- ReadRules(sources);
    SelectorsFilled(Alternatives(rules));
    r := Remove(root, sel);
    if r.Ok? {
      TargetsMeant(rules, sel, root, r.value.1);
      PrunedKeeps(root, [], r.value.1);
    }
  }

  // ---- some rules ----

  function OneTest(t: Test): seq<Chain> {
    [Chain("", Part(Anything, [t]), [], "")]
  }

  /** A rule of one test asks for every element that passes it. */
  lemma {:induction false} OneTestMeans(t: Test, root: Node, at: Address)
    requires TestOk(t) && |TestText(t)| <= 512 && IsAscii(TestText(t)) && Valid(root, at)
    ensures RuleOk(OneTest(t)) && RuleText(OneTest(t)) == TestText(t)
    ensures RuleHolds(OneTest(t), root, at) <==> NodeAt(root, at).Element? && TestHolds(t, root, at)
  {
    OneTestText(t);
    var c := OneTest(t)[0];
    HoldsHere(c.first, root, at);
    assert c.first.tests[0] == t && Counts(c.first.tests, 0);
    if NodeAt(root, at).Element? && TestHolds(t, root, at) {
      assert Witnesses(c, 0, root, at, [|at|]);
    }
    assert RuleHolds(OneTest(t), root, at) <==> ChainHolds(c, root, at);
  }

  lemma {:induction false} OneTestText(t: Test)
    requires TestOk(t) && |TestText(t)| <= 512 && IsAscii(TestText(t))
    ensures RuleOk(OneTest(t)) && RuleText(OneTest(t)) == TestText(t)
  {
    assert TestsText([t]) == TestText(t) + TestsText([t][1..]) && [t][1..] == [];
    assert TestText(t) + "" == TestText(t) && "" + TestText(t) == TestText(t);
  }

  function Below(outer: Part, inner: Part): seq<Chain> {
    [Chain("", outer, [(Gap(" ", false, ""), inner)], "")]
  }

  /** A rule of two parts with a blank between them asks for the elements with the second that lie anywhere
      below one with the first. */
  lemma {:induction false} BelowMeans(outer: Part, inner: Part, root: Node, at: Address)
    requires PartOk(outer) && PartOk(inner) && Valid(root, at)
    requires |PartText(outer)| + |PartText(inner)| < 512 && IsAscii(PartText(outer)) && IsAscii(PartText(inner))
    ensures RuleOk(Below(outer, inner)) && RuleText(Below(outer, inner)) == PartText(outer) + " " + PartText(inner)
    ensures RuleHolds(Below(outer, inner), root, at) <==>
            PartHolds(inner, root, at) && exists n: nat :: n < |at| && HoldsAt(outer, root, at, n)
  {
    BelowText(outer, inner);
    var c := Below(outer, inner)[0];
    HoldsHere(inner, root, at);
    if ChainHolds(c, root, at) {
      var depths :| Witnesses(c, 1, root, at, depths);
      assert HoldsAt(PartOf(c, 0), root, at, depths[0]) && HoldsAt(PartOf(c, 1), root, at, depths[1]);
    }
    forall n: nat | PartHolds(inner, root, at) && n < |at| && HoldsAt(outer, root, at, n)
      ensures Witnesses(c, 1, root, at, [n, |at|])
    {
    }
    assert RuleHolds(Below(outer, inner), root, at) <==> ChainHolds(c, root, at);
  }

  lemma {:induction false} BelowText(outer: Part, inner: Part)
    requires PartOk(outer) && PartOk(inner)
    requires |PartText(outer)| + |PartText(inner)| < 512 && IsAscii(PartText(outer)) && IsAscii(PartText(inner))
    ensures RuleOk(Below(outer, inner)) && RuleText(Below(outer, inner)) == PartText(outer) + " " + PartText(inner)
  {
    BelowJoins(outer, inner);
    var x, y := PartText(outer), PartText(inner);
    assert IsAscii(x + " " + y);
  }

  lemma {:induction false} BelowJoins(outer: Part, inner: Part)
    ensures RuleText(Below(outer, inner)) == PartText(outer) + " " + PartText(inner)
  {
    RestOne(Gap(" ", false, ""), inner);
    BlankGap();
    Trimmed(PartText(outer), PartText(inner));
  }

  lemma {:induction false} BlankGap()
    ensures GapText(Gap(" ", false, "")) == " "
  {
  }

  lemma {:induction false} Trimmed(x: string, y: string)
    ensures "" + x + (" " + y) + "" == x + " " + y
  {
  }

  lemma {:induction false} RestOne(g: Gap, p: Part)
    ensures RestText([(g, p)]) == GapText(g) + PartText(p)
  {
    assert [(g, p)][1..] == [] && GapText(g) + PartText(p) + "" == GapText(g) + PartText(p);
  }
}
