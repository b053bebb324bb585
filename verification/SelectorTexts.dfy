/** Rule texts and what they ask for, told by the attributes of elements: every text the bounded CSS subset
    allows is written from its parts, and a node is meant by a rule when it and its ancestors have what the
    parts name. Nothing here refers to how rules are read or matched. */
module SelectorTexts {
  import opened Wrappers
  import opened Characters
  import opened Decimals
  import opened Selectors

  // ---- texts ----

  /** One test of an element. The numbers are the blanks allowed inside brackets. */
  datatype Test =
    | ClassIs(name: string)
    | IdIs(name: string)
    | HasAttr(name: string, pad: nat)
    | AttrIs(name: string, value: string, quote: Option<char>, left: nat, right: nat, pad: nat)
    | ChildIs(digits: string)

  datatype Subject = Anything | Star | Tag(name: string)

  datatype Part = Part(subject: Subject, tests: seq<Test>)

  /** What stands between two parts: blank space, with a child combinator in it or not. */
  datatype Gap = Gap(space: string, child: bool, more: string)

  datatype Chain = Chain(lead: string, first: Part, rest: seq<(Gap, Part)>, trail: string)

  function Blanks(n: nat): string {
    seq(n, i => ' ')
  }

  function Quoted(value: string, quote: Option<char>): string {
    if quote.Some? then [quote.value] + value + [quote.value] else value
  }

  /** What stands between the bracket that opens an attribute test and the end of it. */
  function NameBody(name: string, pad: nat): (s: string)
    ensures |s| == |name| + pad + 1
  {
    name + Blanks(pad) + "]"
  }

  function EqualsBody(name: string, left: nat, right: nat, value: string, pad: nat): (s: string)
    ensures |s| == |name| + left + right + |value| + pad + 2
  {
    name + Blanks(left) + "=" + Blanks(right) + value + Blanks(pad) + "]"
  }

  function TestText(t: Test): string {
    match t
    case ClassIs(name) => "." + name
    case IdIs(name) => "#" + name
    case HasAttr(name, pad) => "[" + NameBody(name, pad)
    case AttrIs(name, value, quote, left, right, pad) => "[" + EqualsBody(name, left, right, Quoted(value, quote), pad)
    case ChildIs(digits) => ":nth-child(" + digits + ")"
  }

  function TestsText(tests: seq<Test>): string {
    if tests == [] then "" else TestText(tests[0]) + TestsText(tests[1..])
  }

  function SubjectText(s: Subject): string {
    match s
    case Anything => ""
    case Star => "*"
    case Tag(name) => name
  }

  function PartText(p: Part): string {
    SubjectText(p.subject) + TestsText(p.tests)
  }

  function GapText(g: Gap): string {
    g.space + (if g.child then ">" else "") + g.more
  }

  function RestText(rest: seq<(Gap, Part)>): string {
    if rest == [] then "" else GapText(rest[0].0) + PartText(rest[0].1) + RestText(rest[1..])
  }

  function ChainText(c: Chain): string {
    c.lead + PartText(c.first) + RestText(c.rest) + c.trail
  }

  /** A rule: its alternatives with commas between them. */
  function RuleText(chains: seq<Chain>): string
    requires chains != []
  {
    if |chains| == 1 then ChainText(chains[0]) else ChainText(chains[0]) + "," + RuleText(chains[1..])
  }

  // ---- well-formed texts ----

  predicate IsName(s: string) {
    s != "" && forall i :: 0 <= i < |s| ==> 'a' <= s[i] <= 'z' || 'A' <= s[i] <= 'Z' || '0' <= s[i] <= '9' || s[i] in {'_', '-'}
  }

  predicate TestOk(t: Test) {
    match t
    case ClassIs(name) => IsName(name)
    case IdIs(name) => IsName(name)
    case HasAttr(name, _) => IsName(name)
    case AttrIs(name, value, quote, _, _, _) =>
      IsName(name) && if quote.Some? then quote.value in {'\'', '"'} && quote.value !in value else IsName(value)
    case ChildIs(digits) => IsNumeral(digits) && 1 <= NumeralValue(digits) <= 50_000
  }

  /** Not empty, a tag that starts with a letter, and at most one id. */
  predicate PartOk(p: Part) {
    (p.subject.Anything? ==> p.tests != []) &&
    (p.subject.Tag? ==> IsName(p.subject.name) && ('a' <= p.subject.name[0] <= 'z' || 'A' <= p.subject.name[0] <= 'Z')) &&
    (forall i :: 0 <= i < |p.tests| ==> TestOk(p.tests[i])) &&
    forall i, j :: 0 <= i < j < |p.tests| ==> !(p.tests[i].IdIs? && p.tests[j].IdIs?)
  }

  predicate IsSpaces(s: string) {
    forall i :: 0 <= i < |s| ==> IsAsciiWhitespace(s[i])
  }

  predicate GapOk(g: Gap) {
    IsSpaces(g.space) && IsSpaces(g.more) && (g.child || g.space != "")
  }

  predicate ChainOk(c: Chain) {
    IsSpaces(c.lead) && IsSpaces(c.trail) && PartOk(c.first) &&
    forall i :: 0 <= i < |c.rest| ==> GapOk(c.rest[i].0) && PartOk(c.rest[i].1)
  }

  /** A rule of acceptable length, in ASCII. */
  predicate RuleOk(chains: seq<Chain>) {
    chains != [] && (forall i :: 0 <= i < |chains| ==> ChainOk(chains[i])) &&
    |RuleText(chains)| <= 512 && IsAscii(RuleText(chains))
  }

  // ---- meanings ----

  /** `key` is the name as the document spells it, in lower case. */
  predicate Spells(key: string, name: string) {
    |key| == |name| &&
    forall i :: 0 <= i < |name| ==>
      key[i] as int == name[i] as int + if 'A' <= name[i] <= 'Z' then 32 else 0
  }

  /** The element's first attribute of that name has that value. */
  ghost predicate Carries(node: Node, name: string, value: string) {
    node.Element? &&
    exists k :: 0 <= k < |node.attrs| && Spells(node.attrs[k].0, name) && node.attrs[k].1 == value &&
      forall j :: 0 <= j < k ==> !Spells(node.attrs[j].0, name)
  }

  /** Somewhere in the text, between white space or its ends, stands this word. */
  ghost predicate HasWord(text: string, word: string) {
    exists i: nat, j: nat :: WordAt(text, i, j) && text[i..j] == word
  }

  predicate WordAt(text: string, i: nat, j: nat) {
    i < j <= |text| && (i == 0 || IsWhitespace(text[i - 1])) && (j == |text| || IsWhitespace(text[j])) &&
    forall k :: i <= k < j ==> !IsWhitespace(text[k])
  }

  /** Exactly `n` element children stand before child `i`. */
  ghost predicate After(children: seq<Node>, i: nat, n: nat)
    requires i < |children|
  {
    |set j | 0 <= j < i && children[j].Element?| == n
  }

  ghost predicate TestHolds(t: Test, root: Node, at: Address)
    requires Valid(root, at) && TestOk(t)
  {
    match t
    case ClassIs(name) => exists value :: Carries(NodeAt(root, at), "class", value) && HasWord(value, name)
    case IdIs(name) => Carries(NodeAt(root, at), "id", name)
    case HasAttr(name, _) => exists value :: Carries(NodeAt(root, at), name, value)
    case AttrIs(name, value, _, _, _, _) => Carries(NodeAt(root, at), name, value)
    case ChildIs(digits) => at != [] && IsNth(root, at, NumeralValue(digits))
  }

  /** The node is the `n`th element among its siblings. */
  ghost predicate IsNth(root: Node, at: Address, n: nat)
    requires Valid(root, at) && at != []
  {
    ParentValid(root, at);
    n > 0 && After(NodeAt(root, Parent(at)).children, at[|at| - 1], n - 1)
  }

  /** Of several child indices only the last one counts. */
  predicate Counts(tests: seq<Test>, i: nat)
    requires i < |tests|
  {
    tests[i].ChildIs? ==> forall j :: i < j < |tests| ==> !tests[j].ChildIs?
  }

  ghost predicate PartHolds(p: Part, root: Node, at: Address)
    requires Valid(root, at) && PartOk(p)
  {
    NodeAt(root, at).Element? && (p.subject.Tag? ==> Spells(NodeAt(root, at).tag, p.subject.name)) &&
    forall i :: 0 <= i < |p.tests| && Counts(p.tests, i) ==> TestHolds(p.tests[i], root, at)
  }

  function PartOf(c: Chain, k: nat): Part
    requires k <= |c.rest|
  {
    if k == 0 then c.first else c.rest[k - 1].1
  }

  /** Part `k` is a child, not just a descendant, of the part before it. */
  predicate ChildOf(c: Chain, k: nat)
    requires k <= |c.rest|
  {
    k > 0 && c.rest[k - 1].0.child
  }

  ghost predicate HoldsAt(p: Part, root: Node, at: Address, depth: nat)
    requires Valid(root, at) && depth <= |at| && PartOk(p)
  {
    PrefixValid(root, at, depth);
    PartHolds(p, root, at[..depth])
  }

  /** The depths of the ancestors that the parts of a rule up to `k` ask for, outermost first, down to the node. */
  ghost predicate Witnesses(c: Chain, k: nat, root: Node, at: Address, depths: seq<nat>)
    requires Valid(root, at) && ChainOk(c) && k <= |c.rest|
  {
    |depths| == k + 1 && depths[k] == |at| &&
    (forall j :: 0 < j <= k ==> depths[j - 1] < depths[j] && (ChildOf(c, j) ==> depths[j] == depths[j - 1] + 1)) &&
    forall j :: 0 <= j <= k ==> depths[j] <= |at| && HoldsAt(PartOf(c, j), root, at, depths[j])
  }

  ghost predicate ChainHolds(c: Chain, root: Node, at: Address)
    requires Valid(root, at) && ChainOk(c)
  {
    exists depths :: Witnesses(c, |c.rest|, root, at, depths)
  }

  ghost predicate RuleHolds(chains: seq<Chain>, root: Node, at: Address)
    requires Valid(root, at) && RuleOk(chains)
  {
    exists i :: 0 <= i < |chains| && ChainHolds(chains[i], root, at)
  }
}
