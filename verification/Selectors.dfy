/** The bounded CSS subset: parsing rules character by character, and matching a rule
    against a DOM node from its last compound outwards under a shared work budget. */
module Selectors {
  import opened Wrappers
  import opened Characters
  import opened Decimals

  datatype Error =
    | EmptyIdentifier | MultipleIds | UnterminatedValue | UnsupportedAttribute | UnsupportedPseudo
    | InvalidIndex | UnsupportedSyntax | TooManyRules | InvalidLength | InvalidBrackets
    | InvalidChild | InvalidList | TooManyAlternatives | Unterminated | WorkLimit

  datatype Compound = Compound(
    tag: Option<string>,
    id: Option<string>,
    classes: seq<string>,
    attrs: seq<(string, Option<string>)>,
    nth: Option<nat>)

  /** Compounds from outermost to innermost; the flag says that a compound is a child,
      not just a descendant, of the one before it. */
  type Selector = seq<(Compound, bool)>

  const MAX_NTH := 50_000
  const NTH_CHILD := ":nth-child("
  const ANY := Compound(None, None, [], [], None)

  // ---- compounds ----

  predicate IsIdentChar(c: char) {
    IsAlphanumeric(c) || c == '_' || c == '-'
  }

  /** Where the run of characters satisfying `f` that starts at `p` ends. */
  function RunEnd(b: string, p: nat, f: char -> bool): (e: nat)
    requires p <= |b|
    ensures p <= e <= |b|
    decreases |b| - p
  {
    if p < |b| && f(b[p]) then RunEnd(b, p + 1, f) else p
  }

  lemma {:induction false} RunEndIs(b: string, p: nat, e: nat, f: char -> bool)
    requires p <= e <= |b| && (forall i :: p <= i < e ==> f(b[i])) && (e < |b| ==> !f(b[e]))
    ensures RunEnd(b, p, f) == e
    decreases e - p
  {
    if p < e {
      RunEndIs(b, p + 1, e, f);
    }
  }

  lemma {:induction false} RunEndSpec(b: string, p: nat, f: char -> bool)
    requires p <= |b|
    ensures var e := RunEnd(b, p, f); (forall i :: p <= i < e ==> f(b[i])) && (e < |b| ==> !f(b[e]))
    decreases |b| - p
  {
    if p < |b| && f(b[p]) {
      RunEndSpec(b, p + 1, f);
    }
  }

  predicate IsSpace(c: char) {
    c == ' '
  }

  /** An identifier at `p`, and where it ends. */
  function Identifier(b: string, p: nat): (r: Result<(string, nat), Error>)
    requires p <= |b|
    ensures r.Ok? ==> p < r.value.1 <= |b|
  {
    var e := RunEnd(b, p, IsIdentChar);
    if e == p then Err(EmptyIdentifier) else Ok((b[p..e], e))
  }

  method ReadIdentifier(b: string, p0: nat) returns (r: Result<(string, nat), Error>)
    requires p0 <= |b|
    ensures r == Identifier(b, p0)
  {
    var p := p0;
    while p < |b| && IsIdentChar(b[p])
      invariant p0 <= p <= |b| && forall i :: p0 <= i < p ==> IsIdentChar(b[i])
    {
      p := p + 1;
    }
    RunEndIs(b, p0, p, IsIdentChar);
    if p == p0 {
      return Err(EmptyIdentifier);
    }
    return Ok((b[p0..p], p));
  }

  /** The value of an attribute test, quoted or bare, that starts at `p`. */
  function AttributeValue(b: string, p: nat): (r: Result<(string, nat), Error>)
    requires p <= |b|
    ensures r.Ok? ==> p < r.value.1 <= |b|
  {
    if p < |b| && (b[p] == '\'' || b[p] == '"') then
      var e := RunEnd(b, p + 1, c => c != b[p]);
      if e == |b| then Err(UnterminatedValue) else Ok((b[p + 1..e], e + 1))
    else Identifier(b, p)
  }

  /** The rest of an attribute test whose `=` is just before `p`. */
  function AttributeIs(b: string, p: nat, name: string): (r: Result<((string, Option<string>), nat), Error>)
    requires p <= |b|
    ensures r.Ok? ==> p < r.value.1 <= |b|
  {
    var (value, q) :- AttributeValue(b, RunEnd(b, p, IsSpace));
    var q := RunEnd(b, q, IsSpace);
    if q < |b| && b[q] == ']' then Ok(((name, Some(value)), q + 1)) else Err(UnsupportedAttribute)
  }

  /** An attribute test whose `[` is just before `p`. */
  function Attribute(b: string, p: nat): (r: Result<((string, Option<string>), nat), Error>)
    requires p <= |b|
    ensures r.Ok? ==> p < r.value.1 <= |b|
  {
    var (name, q) :- Identifier(b, p);
    var q := RunEnd(b, q, IsSpace);
    if q < |b| && b[q] == '=' then AttributeIs(b, q + 1, LowerAll(name))
    else if q < |b| && b[q] == ']' then Ok(((LowerAll(name), None), q + 1))
    else Err(UnsupportedAttribute)
  }

  /** The index of `:nth-child(` at `p`. An overlong digit run is out of range either way. */
  function NthChild(b: string, p: nat): (r: Result<(nat, nat), Error>)
    requires p <= |b|
    ensures r.Ok? ==> p < r.value.1 <= |b|
  {
    if !(NTH_CHILD <= b[p..]) then Err(UnsupportedPseudo)
    else
      var start := p + |NTH_CHILD|;
      var e := RunEnd(b, start, IsDigit);
      if e == start then Err(InvalidIndex)
      else
        RunEndSpec(b, start, IsDigit);
        var n := NumeralValue(b[start..e]);
        if n == 0 || n > MAX_NTH || e == |b| || b[e] != ')' then Err(InvalidIndex) else Ok((n, e + 1))
  }

  /** The rest of a compound from `p`, added to what has been read. */
  function CompoundFrom(b: string, p: nat, c: Compound): Result<Compound, Error>
    requires p <= |b|
    decreases |b| - p
  {
    if p == |b| then Ok(c)
    else if b[p] == '#' then
      if c.id.Some? then Err(MultipleIds)
      else var (id, q) :- Identifier(b, p + 1); CompoundFrom(b, q, c.(id := Some(id)))
    else if b[p] == '.' then
      var (name, q) :- Identifier(b, p + 1); CompoundFrom(b, q, c.(classes := c.classes + [name]))
    else if b[p] == '[' then
      var (attr, q) :- Attribute(b, p + 1); CompoundFrom(b, q, c.(attrs := c.attrs + [attr]))
    else if b[p] == ':' then
      var (n, q) :- NthChild(b, p); CompoundFrom(b, q, c.(nth := Some(n)))
    else Err(UnsupportedSyntax)
  }

  function ParseCompound(s: string): Result<Compound, Error> {
    if s != "" && s[0] == '*' then CompoundFrom(s, 1, ANY)
    else if s != "" && IsAlpha(s[0]) then
      var (tag, p) :- Identifier(s, 0); CompoundFrom(s, p, ANY.(tag := Some(LowerAll(tag))))
    else CompoundFrom(s, 0, ANY)
  }

  method ReadCompound(s: string) returns (r: Result<Compound, Error>)
    ensures r == ParseCompound(s)
  {
    var p, c := 0, ANY;
    if s != "" && s[0] == '*' {
      p := 1;
    } else if s != "" && IsAlpha(s[0]) {
      var tag :- ReadIdentifier(s, 0);
      c, p := c.(tag := Some(LowerAll(tag.0))), tag.1;
    }
    while p < |s|
      invariant p <= |s| && CompoundFrom(s, p, c) == ParseCompound(s)
      decreases |s| - p
    {
      if s[p] == '#' {
        if c.id.Some? {
          return Err(MultipleIds);
        }
        var id :- ReadIdentifier(s, p + 1);
        c, p := c.(id := Some(id.0)), id.1;
      } else if s[p] == '.' {
        var name :- ReadIdentifier(s, p + 1);
        c, p := c.(classes := c.classes + [name.0]), name.1;
      } else if s[p] == '[' {
        var attr :- Attribute(s, p + 1);
        c, p := c.(attrs := c.attrs + [attr.0]), attr.1;
      } else if s[p] == ':' {
        var n :- NthChild(s, p);
        c, p := c.(nth := Some(n.0)), n.1;
      } else {
        return Err(UnsupportedSyntax);
      }
    }
    return Ok(c);
  }

  // ---- rules ----

  datatype Scan = Scan(
    token: string, parts: Selector, bracket: int, quote: Option<char>, child: bool, out: seq<Selector>)

  /** Ends the compound being read, if any. */
  function Flush(st: Scan): Result<Scan, Error> {
    if st.token == "" then Ok(st)
    else
      var c :- ParseCompound(st.token);
      Ok(st.(token := "", parts := st.parts + [(c, st.child)], child := false))
  }

  function Separate(st: Scan, ch: char): Result<Scan, Error> {
    var st :- Flush(st);
    if ch == '>' then
      if st.parts == [] || st.child then Err(InvalidChild) else Ok(st.(child := true))
    else if ch == ',' then
      if st.parts == [] || |st.parts| > 16 || st.child then Err(InvalidList)
      else if |st.out| >= 32 then Err(TooManyAlternatives)
      else Ok(st.(parts := [], out := st.out + [st.parts]))
    else Ok(st)
  }

  function Step(st: Scan, ch: char): Result<Scan, Error> {
    if st.quote.Some? then
      Ok(st.(token := st.token + [ch], quote := if ch == st.quote.value then None else st.quote))
    else if st.bracket > 0 && (ch == '\'' || ch == '"') then
      Ok(st.(token := st.token + [ch], quote := Some(ch)))
    else
      var bracket := if ch == '[' then st.bracket + 1 else if ch == ']' then st.bracket - 1 else st.bracket;
      if bracket < 0 || bracket > 1 then Err(InvalidBrackets)
      else if bracket == 0 && (IsAsciiWhitespace(ch) || ch == '>' || ch == ',') then
        Separate(st.(bracket := bracket), ch)
      else Ok(st.(bracket := bracket, token := st.token + [ch]))
  }

  function ScanFrom(st: Scan, text: string): Result<Scan, Error>
    decreases |text|
  {
    if text == "" then Ok(st)
    else var next :- Step(st, text[0]); ScanFrom(next, text[1..])
  }

  predicate IsAscii(s: string) {
    forall i :: 0 <= i < |s| ==> s[i] as int < 128
  }

  function ParseRule(source: string, out: seq<Selector>): Result<seq<Selector>, Error> {
    if source == "" || |source| > 512 || !IsAscii(source) then Err(InvalidLength)
    else
      var st :- ScanFrom(Scan("", [], 0, None, false, out), source + ",");
      if st.bracket != 0 || st.quote.Some? then Err(Unterminated) else Ok(st.out)
  }

  function ParseRules(sources: seq<string>, out: seq<Selector>): Result<seq<Selector>, Error> {
    if sources == [] then Ok(out)
    else var out :- ParseRule(sources[0], out); ParseRules(sources[1..], out)
  }

  function Parse(sources: seq<string>): Result<seq<Selector>, Error> {
    if |sources| > 32 then Err(TooManyRules) else ParseRules(sources, [])
  }

  method ReadRules(sources: seq<string>) returns (r: Result<seq<Selector>, Error>)
    ensures r == Parse(sources)
  {
    if |sources| > 32 {
      return Err(TooManyRules);
    }
    var out: seq<Selector> := [];
    for k := 0 to |sources|
      invariant ParseRules(sources[k..], out) == Parse(sources)
    {
      assert sources[k..][1..] == sources[k + 1..];
      out :- ReadRule(sources[k], out);
    }
    return Ok(out);
  }

  method ReadRule(source: string, out0: seq<Selector>) returns (r: Result<seq<Selector>, Error>)
    ensures r == ParseRule(source, out0)
  {
    if source == "" || |source| > 512 || !IsAscii(source) {
      return Err(InvalidLength);
    }
    var token, parts, bracket, quote: Option<char>, child, out := "", [], 0, None, false, out0;
    var text := source + ",";
    for k := 0 to |text|
      invariant ScanFrom(Scan(token, parts, bracket, quote, child, out), text[k..]) ==
                ScanFrom(Scan("", [], 0, None, false, out0), text)
    {
      var ch := text[k];
      assert text[k..][0] == ch && text[k..][1..] == text[k + 1..];
      if quote.Some? {
        token := token + [ch];
        if ch == quote.value {
          quote := None;
        }
        continue;
      }
      if bracket > 0 && (ch == '\'' || ch == '"') {
        quote := Some(ch);
        token := token + [ch];
        continue;
      }
      if ch == '[' {
        bracket := bracket + 1;
      }
      if ch == ']' {
        bracket := bracket - 1;
      }
      if bracket < 0 || bracket > 1 {
        return Err(InvalidBrackets);
      }
      if bracket == 0 && (IsAsciiWhitespace(ch) || ch == '>' || ch == ',') {
        if token != "" {
          var c :- ReadCompound(token);
          parts := parts + [(c, child)];
          token, child := "", false;
        }
        if ch == '>' {
          if parts == [] || child {
            return Err(InvalidChild);
          }
          child := true;
        }
        if ch == ',' {
          if parts == [] || |parts| > 16 || child {
            return Err(InvalidList);
          }
          out, parts := out + [parts], [];
          if |out| > 32 {
            return Err(TooManyAlternatives);
          }
        }
      } else {
        token := token + [ch];
      }
    }
    assert text[|text|..] == "";
    if bracket != 0 || quote.Some? {
      return Err(Unterminated);
    }
    return Ok(out);
  }

  // ---- the document ----

  /** A DOM node: an element with its tag and attributes, or anything else. */
  datatype Node =
    | Element(tag: string, attrs: seq<(string, string)>, children: seq<Node>)
    | Other(children: seq<Node>)

  /** A node of a document, by the child positions that lead to it from the root. */
  type Address = seq<nat>

  predicate Valid(root: Node, at: Address) {
    at == [] || (at[0] < |root.children| && Valid(root.children[at[0]], at[1..]))
  }

  function NodeAt(root: Node, at: Address): Node
    requires Valid(root, at)
  {
    if at == [] then root else NodeAt(root.children[at[0]], at[1..])
  }

  function Parent(at: Address): Address
    requires at != []
  {
    at[..|at| - 1]
  }

  lemma {:induction false} ParentValid(root: Node, at: Address)
    requires Valid(root, at) && at != []
    ensures Valid(root, Parent(at))
    ensures at[|at| - 1] < |NodeAt(root, Parent(at)).children|
    ensures NodeAt(root, at) == NodeAt(root, Parent(at)).children[at[|at| - 1]]
  {
    if |at| > 1 {
      ParentValid(root.children[at[0]], at[1..]);
      assert Parent(at)[1..] == Parent(at[1..]);
    } else {
      assert Parent(at) == [];
    }
  }

  /** The value of the first attribute with this name. */
  function Attr(node: Node, key: string): Option<string> {
    if node.Other? then None else Find(node.attrs, key)
  }

  function Find(attrs: seq<(string, string)>, key: string): Option<string> {
    if attrs == [] then None else if attrs[0].0 == key then Some(attrs[0].1) else Find(attrs[1..], key)
  }

  /** The position of child `i` among its element siblings, from one. */
  function Ordinal(children: seq<Node>, i: nat): (n: nat)
    requires i < |children|
    ensures n >= 1
  {
    1 + ElementsBefore(children, i)
  }

  function ElementsBefore(children: seq<Node>, i: nat): nat
    requires i <= |children|
  {
    if i == 0 then 0 else ElementsBefore(children, i - 1) + if children[i - 1].Element? then 1 else 0
  }

  lemma {:induction false} ElementsBeforeMonotone(children: seq<Node>, i: nat, j: nat)
    requires i <= j <= |children|
    ensures ElementsBefore(children, i) <= ElementsBefore(children, j)
    decreases j - i
  {
    if i < j {
      ElementsBeforeMonotone(children, i, j - 1);
    }
  }

  /** Among element siblings the ordinal determines the child. */
  lemma {:induction false} OrdinalInjective(children: seq<Node>, i: nat, j: nat)
    requires i < |children| && j < |children| && children[i].Element? && children[j].Element?
    requires Ordinal(children, i) == Ordinal(children, j)
    ensures i == j
  {
    if i < j {
      ElementsBeforeMonotone(children, i + 1, j);
    } else if j < i {
      ElementsBeforeMonotone(children, j + 1, i);
    }
  }

  // ---- matching ----

  /** The whitespace-separated words of a class attribute. */
  function Words(s: string): (ws: seq<string>)
    ensures forall i :: 0 <= i < |ws| ==> ws[i] != ""
    decreases |s|
  {
    if s == "" then []
    else if IsWhitespace(s[0]) then Words(s[1..])
    else
      var e := RunEnd(s, 0, c => !IsWhitespace(c));
      assert e > 0;
      [s[..e]] + Words(s[e..])
  }

  predicate MatchesCompound(c: Compound, root: Node, at: Address)
    requires Valid(root, at)
  {
    var node := NodeAt(root, at);
    node.Element? && (c.tag.Some? ==> c.tag.value == node.tag) &&
    (c.id.Some? ==> Attr(node, "id") == c.id) &&
    (forall i :: 0 <= i < |c.classes| ==>
       var value := Attr(node, "class");
       c.classes[i] in Words(if value.Some? then value.value else "")) &&
    (forall i :: 0 <= i < |c.attrs| ==>
       var value := Attr(node, c.attrs[i].0);
       value.Some? && (c.attrs[i].1.Some? ==> value == c.attrs[i].1)) &&
    (c.nth.Some? ==> at != [] && OrdinalAt(root, at) == c.nth.value)
  }

  function OrdinalAt(root: Node, at: Address): nat
    requires Valid(root, at) && at != []
  {
    ParentValid(root, at);
    Ordinal(NodeAt(root, Parent(at)).children, at[|at| - 1])
  }

  /** What a rule means: its last compound matches the node, and the ones before it match
      the parent or some ancestor, outwards. */
  ghost predicate Matches(parts: Selector, root: Node, at: Address)
    requires parts != [] && Valid(root, at)
    decreases |parts|, 0
  {
    var (last, child) := parts[|parts| - 1];
    var before := parts[..|parts| - 1];
    MatchesCompound(last, root, at) &&
    (before == [] ||
     exists n :: 0 <= n < |at| && (child ==> n == |at| - 1) && MatchesAncestor(before, root, at, n))
  }

  /** The rule matches the ancestor at depth `n`. */
  ghost predicate MatchesAncestor(parts: Selector, root: Node, at: Address, n: nat)
    requires parts != [] && Valid(root, at) && n <= |at|
    decreases |parts|, 1
  {
    PrefixValid(root, at, n);
    Matches(parts, root, at[..n])
  }

  lemma {:induction false} PrefixValid(root: Node, at: Address, n: nat)
    requires Valid(root, at) && n <= |at|
    ensures Valid(root, at[..n])
    decreases |at| - n
  {
    if n < |at| {
      PrefixValid(root, at, n + 1);
      ParentValid(root, at[..n + 1]);
      assert Parent(at[..n + 1]) == at[..n];
    } else {
      assert at[..n] == at;
    }
  }

  /** Every step is to a child, so matching never has to look further than the parent. */
  predicate ChildOnly(parts: Selector) {
    forall k :: 1 <= k < |parts| ==> parts[k].1
  }

  /** The program's search, which shares one budget between all attempts. */
  method MatchesAt(parts: Selector, root: Node, at: Address, budget: nat)
    returns (r: Result<bool, Error>, left: nat)
    requires parts != [] && Valid(root, at)
    ensures r.Ok? ==> r.value == Matches(parts, root, at)
    ensures left <= budget
    ensures ChildOnly(parts) && budget >= |parts| ==> r.Ok? && left >= budget - |parts|
    decreases |parts|
  {
    if budget == 0 {
      return Err(WorkLimit), 0;
    }
    left := budget - 1;
    var (last, child) := parts[|parts| - 1];
    if !MatchesCompound(last, root, at) {
      return Ok(false), left;
    }
    if |parts| == 1 {
      return Ok(true), left;
    }
    var before := parts[..|parts| - 1];
    var n := |at|;
    while n > 0
      invariant 0 <= n <= |at| && left <= budget - 1
      invariant forall k: nat :: n <= k < |at| ==> !MatchesAncestor(before, root, at, k)
      invariant n < |at| ==> !child
      invariant ChildOnly(parts) && n == |at| ==> left == budget - 1
    {
      n := n - 1;
      PrefixValid(root, at, n);
      var found;
      found, left := MatchesAt(before, root, at[..n], left);
      if found.Err? {
        return found, left;
      }
      if found.value {
        assert MatchesAncestor(before, root, at, n);
        return Ok(true), left;
      }
      if child {
        return Ok(false), left;
      }
    }
    return Ok(false), left;
  }
}
