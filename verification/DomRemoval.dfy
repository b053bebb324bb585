/** Removal of the nodes that match a rule: every node is tried once, then each matching
    node is taken out of its parent. */
module DomRemoval {
  import opened Wrappers
  import opened Selectors
  import opened PreviewPaths

  const MATCH_BUDGET := 2_000_000

  // ---- finding the targets ----

  ghost predicate AnyMatches(rules: seq<Selector>, root: Node, at: Address)
    requires Valid(root, at) && forall k :: 0 <= k < |rules| ==> rules[k] != []
  {
    exists k :: 0 <= k < |rules| && Matches(rules[k], root, at)
  }

  predicate IsPrefix(a: Address, b: Address) {
    |a| <= |b| && b[..|a|] == a
  }

  function Size(node: Node): (n: nat)
    ensures n == 1 + SizeAll(node.children)
    decreases node, 1
  {
    1 + SizeAll(node.children)
  }

  function SizeAll(nodes: seq<Node>): nat
    decreases nodes, 0
  {
    if nodes == [] then 0 else Size(nodes[0]) + SizeAll(nodes[1..])
  }

  ghost predicate AllValid(root: Node, stack: seq<Address>) {
    forall k :: 0 <= k < |stack| ==> Valid(root, stack[k])
  }

  ghost function StackSize(root: Node, stack: seq<Address>): nat
    requires AllValid(root, stack)
  {
    if stack == [] then 0
    else StackSize(root, stack[..|stack| - 1]) + Size(NodeAt(root, stack[|stack| - 1]))
  }

  /** Exactly the nodes that some rule matches. */
  ghost predicate AreTargets(root: Node, rules: seq<Selector>, targets: set<Address>)
    requires forall k :: 0 <= k < |rules| ==> rules[k] != []
  {
    forall at :: at in targets <==> Valid(root, at) && AnyMatches(rules, root, at)
  }

  /** Every node is behind the search: under a pending address, or already decided. */
  ghost predicate Covered(root: Node, rules: seq<Selector>, stack: seq<Address>, targets: set<Address>)
    requires forall k :: 0 <= k < |rules| ==> rules[k] != []
  {
    AllValid(root, stack) &&
    (forall at :: at in targets ==> Valid(root, at) && AnyMatches(rules, root, at)) &&
    forall at :: Valid(root, at) && AnyMatches(rules, root, at) && at !in targets ==> Pending(stack, at)
  }

  ghost predicate Pending(stack: seq<Address>, at: Address) {
    exists k :: 0 <= k < |stack| && IsPrefix(stack[k], at)
  }

  lemma {:induction false} ValidAppend(root: Node, at: Address, i: nat)
    requires Valid(root, at)
    ensures Valid(root, at + [i]) <==> i < |NodeAt(root, at).children|
    ensures i < |NodeAt(root, at).children| ==> NodeAt(root, at + [i]) == NodeAt(root, at).children[i]
    decreases |at|
  {
    if at == [] {
      assert (at + [i])[1..] == [];
    } else {
      assert (at + [i])[0] == at[0] && (at + [i])[1..] == at[1..] + [i];
      ValidAppend(root.children[at[0]], at[1..], i);
    }
  }

  lemma {:induction false} SizeSplit(nodes: seq<Node>, n: nat)
    requires n < |nodes|
    ensures SizeAll(nodes[..n + 1]) == SizeAll(nodes[..n]) + Size(nodes[n])
    decreases n
  {
    if n == 0 {
      assert nodes[..1][1..] == [] && nodes[..0] == [];
    } else {
      assert nodes[..n + 1][1..] == nodes[1..][..n] && nodes[..n][1..] == nodes[1..][..n - 1];
      assert nodes[..n + 1][0] == nodes[0] && nodes[..n][0] == nodes[0];
      SizeSplit(nodes[1..], n - 1);
      assert nodes[1..][n - 1] == nodes[n];
    }
  }

  /** Rules that step to children only. */
  predicate AllChildOnly(rules: seq<Selector>) {
    forall k :: 0 <= k < |rules| ==> ChildOnly(rules[k])
  }

  /** What matching one node against the first `n` rules costs at most, when they step to children only. */
  function Cost(rules: seq<Selector>, n: nat): nat
    requires n <= |rules|
  {
    if n == 0 then 0 else Cost(rules, n - 1) + |rules[n - 1]|
  }

  lemma {:induction false} CostGrows(rules: seq<Selector>, n: nat, m: nat)
    requires n <= m <= |rules|
    ensures Cost(rules, n) <= Cost(rules, m)
    decreases m - n
  {
    if n < m {
      CostGrows(rules, n, m - 1);
    }
  }

  method MatchesAny(rules: seq<Selector>, root: Node, at: Address, budget: nat)
    returns (r: Result<bool, Error>, left: nat)
    requires Valid(root, at) && forall k :: 0 <= k < |rules| ==> rules[k] != []
    ensures r.Ok? ==> r.value == AnyMatches(rules, root, at)
    ensures AllChildOnly(rules) && budget >= Cost(rules, |rules|) ==> r.Ok? && left >= budget - Cost(rules, |rules|)
  {
    left := budget;
    for k := 0 to |rules|
      invariant forall j :: 0 <= j < k ==> !Matches(rules[j], root, at)
      invariant AllChildOnly(rules) && budget >= Cost(rules, |rules|) ==> left >= budget - Cost(rules, k)
    {
      CostGrows(rules, k + 1, |rules|);
      var found;
      found, left := MatchesAt(rules[k], root, at, left);
      if found.Err? || found.value {
        return found, left;
      }
    }
    return Ok(false), left;
  }

  /** `stack` is `stack0` with the first `n` children of `at` on top. */
  predicate Pushed(at: Address, n: nat, stack0: seq<Address>, stack: seq<Address>) {
    |stack| == |stack0| + n && stack[..|stack0|] == stack0 &&
    forall j :: 0 <= j < n ==> stack[|stack0| + j] == at + [j]
  }

  lemma {:induction false} PushedNext(at: Address, n: nat, stack0: seq<Address>, stack: seq<Address>)
    requires Pushed(at, n, stack0, stack)
    ensures Pushed(at, n + 1, stack0, stack + [at + [n]])
  {
  }

  lemma {:induction false} PushOne(root: Node, at: Address, i: nat, stack: seq<Address>)
    requires Valid(root, at) && i < |NodeAt(root, at).children| && AllValid(root, stack)
    ensures AllValid(root, stack + [at + [i]])
    ensures StackSize(root, stack + [at + [i]]) == StackSize(root, stack) + Size(NodeAt(root, at).children[i])
  {
    ValidAppend(root, at, i);
    assert (stack + [at + [i]])[..|stack|] == stack;
  }

  method PushChildren(root: Node, at: Address, stack0: seq<Address>) returns (stack: seq<Address>)
    requires Valid(root, at) && AllValid(root, stack0)
    ensures AllValid(root, stack) && Pushed(at, |NodeAt(root, at).children|, stack0, stack)
    ensures StackSize(root, stack) == StackSize(root, stack0) + Size(NodeAt(root, at)) - 1
  {
    var children := NodeAt(root, at).children;
    stack := stack0;
    for i := 0 to |children|
      invariant AllValid(root, stack) && Pushed(at, i, stack0, stack)
      invariant StackSize(root, stack) == StackSize(root, stack0) + SizeAll(children[..i])
    {
      PushOne(root, at, i, stack);
      PushedNext(at, i, stack0, stack);
      SizeSplit(children, i);
      stack := stack + [at + [i]];
    }
    assert children[..|children|] == children;
  }

  lemma {:induction false} PushedPending(root: Node, at: Address, stack0: seq<Address>, stack: seq<Address>)
    requires Valid(root, at) && Pushed(at, |NodeAt(root, at).children|, stack0, stack)
    ensures forall other :: Pending(stack0, other) ==> Pending(stack, other)
    ensures forall other :: Valid(root, other) && IsPrefix(at, other) && other != at ==> Pending(stack, other)
  {
    forall other | Valid(root, other) && IsPrefix(at, other) && other != at
      ensures Pending(stack, other)
    {
      BelowPending(root, at, stack0, stack, other);
    }
    forall other | Pending(stack0, other)
      ensures Pending(stack, other)
    {
      StillPending(stack0, stack, other);
    }
  }

  lemma {:induction false} StillPending(stack0: seq<Address>, stack: seq<Address>, other: Address)
    requires stack0 <= stack && Pending(stack0, other)
    ensures Pending(stack, other)
  {
    var k :| 0 <= k < |stack0| && IsPrefix(stack0[k], other);
    assert stack[k] == stack0[k];
  }

  /** Whatever lies below a node lies below one of the children pushed for it. */
  lemma {:induction false} BelowPending(root: Node, at: Address, stack0: seq<Address>, stack: seq<Address>, other: Address)
    requires Valid(root, at) && Valid(root, other) && IsPrefix(at, other) && other != at
    requires Pushed(at, |NodeAt(root, at).children|, stack0, stack)
    ensures Pending(stack, other)
  {
    var j := other[|at|];
    PrefixValid(root, other, |at| + 1);
    assert other[..|at| + 1] == at + [j];
    ValidAppend(root, at, j);
    assert IsPrefix(stack[|stack0| + j], other);
  }

  /** What the whole search costs at most: as much for every node. */
  function Total(cost: nat, nodes: nat): nat {
    if nodes == 0 then 0 else Total(cost, nodes - 1) + cost
  }

  lemma {:induction false} TotalIs(cost: nat, nodes: nat)
    ensures Total(cost, nodes) == cost * nodes
  {
    if nodes > 0 {
      TotalIs(cost, nodes - 1);
      assert cost * nodes == cost * (nodes - 1) + cost;
    }
  }

  /** The search cannot exhaust its budget: rules of children only, on a document of limited size. */
  predicate Affordable(rules: seq<Selector>, root: Node) {
    AllChildOnly(rules) && Total(Cost(rules, |rules|), Size(root)) <= MATCH_BUDGET
  }

  lemma {:induction false} Popped(before: seq<Address>, after: seq<Address>, root: Node, at: Address)
    requires before != [] && at == before[|before| - 1]
    requires forall other :: Pending(before[..|before| - 1], other) ==> Pending(after, other)
    requires forall other :: Valid(root, other) && IsPrefix(at, other) && other != at ==> Pending(after, other)
    ensures forall other :: Valid(root, other) && Pending(before, other) && other != at ==> Pending(after, other)
  {
    forall other | Valid(root, other) && Pending(before, other) && other != at
      ensures Pending(after, other)
    {
      var k :| 0 <= k < |before| && IsPrefix(before[k], other);
      if k < |before| - 1 {
        assert before[..|before| - 1][k] == before[k];
      }
    }
  }

  /** A node that has been tried is decided; its children are pending. */
  lemma {:induction false} VisitedCovered(root: Node, rules: seq<Selector>, stack0: seq<Address>, stack: seq<Address>,
                                          targets0: set<Address>, targets: set<Address>)
    requires forall k :: 0 <= k < |rules| ==> rules[k] != []
    requires stack0 != [] && Covered(root, rules, stack0, targets0) && AllValid(root, stack)
    requires Pushed(stack0[|stack0| - 1], |NodeAt(root, stack0[|stack0| - 1]).children|, stack0[..|stack0| - 1], stack)
    requires targets == targets0 + if AnyMatches(rules, root, stack0[|stack0| - 1]) then {stack0[|stack0| - 1]} else {}
    ensures Covered(root, rules, stack, targets)
  {
    var at := stack0[|stack0| - 1];
    PushedPending(root, at, stack0[..|stack0| - 1], stack);
    Popped(stack0, stack, root, at);
  }

  /** One turn of the search. */
  method VisitOne(root: Node, rules: seq<Selector>, stack0: seq<Address>, targets0: set<Address>, budget: nat)
    returns (e: Option<Error>, stack: seq<Address>, targets: set<Address>, left: nat)
    requires forall k :: 0 <= k < |rules| ==> rules[k] != []
    requires stack0 != [] && Covered(root, rules, stack0, targets0)
    ensures e.None? ==> Covered(root, rules, stack, targets) && StackSize(root, stack) == StackSize(root, stack0) - 1
    ensures AllChildOnly(rules) && budget >= Cost(rules, |rules|) ==> e.None? && left >= budget - Cost(rules, |rules|)
  {
    var at := stack0[|stack0| - 1];
    stack, targets := stack0, targets0;
    var found;
    found, left := MatchesAny(rules, root, at, budget);
    if found.Err? {
      return Some(found.error), stack, targets, left;
    }
    stack := PushChildren(root, at, stack0[..|stack0| - 1]);
    if found.value {
      targets := targets + {at};
    }
    VisitedCovered(root, rules, stack0, stack, targets0, targets);
    return None, stack, targets, left;
  }

  lemma {:induction false} CoveredAtStart(root: Node, rules: seq<Selector>)
    requires forall k :: 0 <= k < |rules| ==> rules[k] != []
    ensures Covered(root, rules, [[]], {}) && StackSize(root, [[]]) == Size(root)
  {
    var stack: seq<Address> := [[]];
    forall at: Address
      ensures Pending(stack, at)
    {
      assert IsPrefix(stack[0], at);
    }
    assert stack[..0] == [] && StackSize(root, stack[..0]) == 0;
  }

  lemma {:induction false} CoveredAtEnd(root: Node, rules: seq<Selector>, targets: set<Address>)
    requires forall k :: 0 <= k < |rules| ==> rules[k] != []
    requires Covered(root, rules, [], targets)
    ensures AreTargets(root, rules, targets)
  {
  }

  method FindTargets(root: Node, rules: seq<Selector>) returns (r: Result<set<Address>, Error>)
    requires forall k :: 0 <= k < |rules| ==> rules[k] != []
    ensures r.Ok? ==> AreTargets(root, rules, r.value)
    ensures Affordable(rules, root) ==> r.Ok?
  {
    var stack: seq<Address> := [[]];
    var targets: set<Address> := {};
    var budget: nat := MATCH_BUDGET;
    CoveredAtStart(root, rules);
    ghost var cheap, cost, left := Affordable(rules, root), Cost(rules, |rules|), Size(root);
    while stack != []
      invariant Covered(root, rules, stack, targets) && left == StackSize(root, stack)
      invariant cheap ==> budget >= Total(cost, left)
      decreases left
    {
      var e;
      e, stack, targets, budget := VisitOne(root, rules, stack, targets, budget);
      if e.Some? {
        return Err(e.value);
      }
      left := left - 1;
    }
    CoveredAtEnd(root, rules, targets);
    return Ok(targets);
  }

  // ---- taking them out ----

  /** The node at `at` without the target nodes below it. */
  function Pruned(node: Node, at: Address, targets: set<Address>): Node
    decreases node, 1
  {
    node.(children := PrunedAll(node.children, at, 0, targets))
  }

  /** The children of `at` from position `i` on. */
  function PrunedAll(nodes: seq<Node>, at: Address, i: nat, targets: set<Address>): seq<Node>
    decreases nodes, 0
  {
    if nodes == [] then []
    else if at + [i] in targets then PrunedAll(nodes[1..], at, i + 1, targets)
    else [Pruned(nodes[0], at + [i], targets)] + PrunedAll(nodes[1..], at, i + 1, targets)
  }

  method Remove(root: Node, rules: seq<Selector>) returns (r: Result<(Node, set<Address>), Error>)
    requires forall k :: 0 <= k < |rules| ==> rules[k] != []
    ensures r.Ok? ==> AreTargets(root, rules, r.value.1)
    ensures r.Ok? ==> r.value.0 == Pruned(root, [], r.value.1)
    ensures Affordable(rules, root) ==> r.Ok?
  {
    var targets :- FindTargets(root, rules);
    return Ok((Pruned(root, [], targets), targets));
  }

  // ---- removing by a preview selector ----

  /** The document without the node at `at`, everything else unchanged. */
  function Without(node: Node, at: Address): Node
    requires Valid(node, at) && at != []
    decreases |at|
  {
    if |at| == 1 then node.(children := node.children[..at[0]] + node.children[at[0] + 1..])
    else node.(children := node.children[at[0] := Without(node.children[at[0]], at[1..])])
  }

  lemma {:induction false} PrunedNothing(node: Node, at: Address, target: Address)
    requires !IsPrefix(at, target) || target == at
    ensures Pruned(node, at, {target}) == node
    decreases node, 1
  {
    PrunedNothingAll(node.children, at, 0, target);
  }

  lemma {:induction false} PrunedNothingAll(nodes: seq<Node>, at: Address, i: nat, target: Address)
    requires forall j :: i <= j < i + |nodes| ==> !IsPrefix(at + [j], target)
    ensures PrunedAll(nodes, at, i, {target}) == nodes
    decreases nodes, 0
  {
    if nodes != [] {
      assert !IsPrefix(at + [i], target);
      assert at + [i] != target by {
        assert (at + [i])[..|at| + 1] == at + [i];
      }
      PrunedNothing(nodes[0], at + [i], target);
      PrunedNothingAll(nodes[1..], at, i + 1, target);
      assert nodes == [nodes[0]] + nodes[1..];
    }
  }

  /** Taking out one node leaves every other node in place. */
  lemma {:induction false} PrunedOne(node: Node, at: Address, rest: Address)
    requires Valid(node, rest) && rest != []
    ensures Pruned(node, at, {at + rest}) == Without(node, rest)
    decreases |rest|, 1
  {
    PrunedOneAll(node.children, at, 0, rest);
    assert node.children[rest[0]..][0] == node.children[rest[0]];
  }

  lemma {:induction false} PrunedOneAll(nodes: seq<Node>, at: Address, i: nat, rest: Address)
    requires rest != [] && i <= rest[0] < i + |nodes| && Valid(nodes[rest[0] - i], rest[1..])
    ensures var k := rest[0] - i;
            PrunedAll(nodes, at, i, {at + rest}) ==
            if |rest| == 1 then nodes[..k] + nodes[k + 1..]
            else nodes[k := Without(nodes[k], rest[1..])]
    decreases |rest|, 0, |nodes|
  {
    var target := at + rest;
    if i < rest[0] {
      NotPrefix(at, i, rest);
      PrunedNothing(nodes[0], at + [i], target);
      assert nodes[1..][rest[0] - (i + 1)] == nodes[rest[0] - i];
      PrunedOneAll(nodes[1..], at, i + 1, rest);
      assert nodes == [nodes[0]] + nodes[1..];
    } else {
      assert target == (at + [i]) + rest[1..];
      forall j | i + 1 <= j < i + 1 + |nodes[1..]|
        ensures !IsPrefix(at + [j], target)
      {
        NotPrefix(at, j, rest);
      }
      PrunedNothingAll(nodes[1..], at, i + 1, target);
      if |rest| > 1 {
        assert target[|at| + 1] == rest[1];
        PrunedOne(nodes[0], at + [i], rest[1..]);
      } else {
        assert target == at + [i];
      }
    }
  }

  lemma {:induction false} NotPrefix(at: Address, j: nat, rest: Address)
    requires rest != [] && j != rest[0]
    ensures !IsPrefix(at + [j], at + rest) && at + [j] != at + rest
  {
    assert (at + rest)[|at|] == rest[0] && (at + [j])[|at|] == j;
    assert (at + rest)[..|at| + 1] == at + [rest[0]];
  }

  /** A rule that names one node exactly removes that node and nothing else. */
  lemma {:induction false} NamedNodeRemoved(root: Node, at: Address, rule: Selector, targets: set<Address>)
    requires Valid(root, at) && at != [] && NamesExactly(rule, root, at)
    requires AreTargets(root, [rule], targets)
    ensures targets == {at} && Pruned(root, [], targets) == Without(root, at)
  {
    forall other
      ensures other in targets <==> other == at
    {
      if Valid(root, other) && Matches(rule, root, other) {
        assert Matches([rule][0], root, other);
      }
    }
    assert targets == {at} && [] + at == at;
    PrunedOne(root, [], at);
  }

  /** So the selector of a preview really removes its node, from any document of up to 125,000 nodes. */
  method RemoveNamed(root: Node, rule: Selector, ghost at: Address) returns (r: Result<(Node, set<Address>), Error>)
    requires Valid(root, at) && at != [] && NamesExactly(rule, root, at)
    ensures MAX_COMPOUNDS * Size(root) <= MATCH_BUDGET ==> r == Ok((Without(root, at), {at}))
  {
    Within(|rule|, MAX_COMPOUNDS, Size(root));
    TotalIs(|rule|, Size(root));
    assert Cost([rule], 1) == Cost([rule], 0) + |[rule][0]|;
    r := Remove(root, [rule]);
    if r.Ok? {
      NamedNodeRemoved(root, at, rule, r.value.1);
    }
  }

  lemma {:induction false} Within(n: nat, m: nat, size: nat)
    requires n <= m
    ensures n * size <= m * size
  {
  }
}
