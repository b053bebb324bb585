/** The natural ordering of file names in the converter: numbers by value, other bytes without
    regard to ASCII case, and at the end the lengths. */
module NaturalOrder {
  import opened Wrappers

  type byte = b: int | 0 <= b < 256

  const U128 := 0x1_0000_0000_0000_0000_0000_0000_0000_0000

  datatype Ordering = Less | Equal | Greater {
    function Reverse(): Ordering {
      match this
      case Less => Greater
      case Equal => Equal
      case Greater => Less
    }
  }

  function Order(m: int, n: int): Ordering {
    if m < n then Less else if m == n then Equal else Greater
  }

  predicate IsDigit(b: byte) {
    48 <= b <= 57
  }

  function Lower(b: byte): byte {
    if 65 <= b <= 90 then b + 32 else b
  }

  function LowerAll(s: seq<byte>): (r: seq<byte>)
    ensures |r| == |s|
  {
    seq(|s|, i requires 0 <= i < |s| => Lower(s[i]))
  }

  /** Where the digits that start at `k` end. */
  function RunFrom(s: seq<byte>, k: nat): (n: nat)
    requires k <= |s|
    ensures k <= n <= |s|
    decreases |s| - k
  {
    if k < |s| && IsDigit(s[k]) then RunFrom(s, k + 1) else k
  }

  function RunLength(s: seq<byte>): (n: nat)
    ensures n <= |s|
  {
    RunFrom(s, 0)
  }

  function Number(run: seq<byte>): int {
    if run == [] then 0 else Number(run[..|run| - 1]) * 10 + (run[|run| - 1] as int - 48)
  }

  /** The value of a run of digits; one that is too long counts as zero. */
  function Parsed(run: seq<byte>): int {
    if Number(run) < U128 then Number(run) else 0
  }

  /** Comparing from the start of both, as long as neither ends: the first difference. */
  function Scan(a: seq<byte>, b: seq<byte>): Option<Ordering>
    decreases |a|
  {
    if a == [] || b == [] then None
    else if IsDigit(a[0]) && IsDigit(b[0]) then
      var m, n := RunLength(a), RunLength(b);
      RunStarts(a);
      var o := Order(Parsed(a[..m]), Parsed(b[..n]));
      if o.Equal? then Scan(a[m..], b[n..]) else Some(o)
    else
      var o := Order(Lower(a[0]), Lower(b[0]));
      if o.Equal? then Scan(a[1..], b[1..]) else Some(o)
  }

  lemma {:induction false} RunStarts(s: seq<byte>)
    requires s != [] && IsDigit(s[0])
    ensures RunLength(s) > 0
  {
  }

  function Decided(found: Option<Ordering>, m: nat, n: nat): Ordering {
    match found
    case Some(o) => o
    case None => Order(m, n)
  }

  function NaturalCmp(a: seq<byte>, b: seq<byte>): Ordering {
    Decided(Scan(a, b), |a|, |b|)
  }

  lemma {:induction false} RunIs(s: seq<byte>, k: nat, n: nat)
    requires k <= n <= |s| && (forall i :: k <= i < n ==> IsDigit(s[i])) && (n < |s| ==> !IsDigit(s[n]))
    ensures RunFrom(s, k) == n
    decreases n - k
  {
    if k < n {
      RunIs(s, k + 1, n);
    }
  }

  lemma {:induction false} RunHas(s: seq<byte>, k: nat)
    requires k <= |s|
    ensures forall i :: k <= i < RunFrom(s, k) ==> IsDigit(s[i])
    ensures RunFrom(s, k) < |s| ==> !IsDigit(s[RunFrom(s, k)])
    decreases |s| - k
  {
    if k < |s| && IsDigit(s[k]) {
      RunHas(s, k + 1);
    }
  }

  // ---- the program's loop ----

  /** A cursor moved past the digits it stands at. */
  method SkipDigits(s: seq<byte>, start: nat) returns (i: nat)
    requires start <= |s|
    ensures start <= i <= |s| && i - start == RunLength(s[start..])
    ensures s[start..][..i - start] == s[start..i] && s[start..][i - start..] == s[i..]
  {
    i := start;
    while i < |s| && IsDigit(s[i])
      invariant start <= i <= |s| && forall k :: start <= k < i ==> IsDigit(s[k])
    {
      i := i + 1;
    }
    RunIs(s[start..], 0, i - start);
  }

  method Compare(a: seq<byte>, b: seq<byte>) returns (o: Ordering)
    ensures o == NaturalCmp(a, b)
  {
    var i: nat, j: nat := 0, 0;
    assert a[0..] == a && b[0..] == b;
    while i < |a| && j < |b|
      invariant i <= |a| && j <= |b| && Scan(a[i..], b[j..]) == Scan(a, b)
      decreases |a| - i
    {
      if IsDigit(a[i]) && IsDigit(b[j]) {
        var si, sj := i, j;
        RunStarts(a[i..]);
        i := SkipDigits(a, si);
        j := SkipDigits(b, sj);
        var na, nb := Parsed(a[si..i]), Parsed(b[sj..j]);
        if na != nb {
          return Order(na, nb);
        }
      } else {
        o := Order(Lower(a[i]), Lower(b[j]));
        if !o.Equal? {
          return;
        }
        assert a[i..][1..] == a[i + 1..] && b[j..][1..] == b[j + 1..];
        i := i + 1;
        j := j + 1;
      }
    }
    return Order(|a|, |b|);
  }

  // ---- for all strings ----

  lemma {:induction false} ScanSwapped(a: seq<byte>, b: seq<byte>)
    ensures Scan(b, a) == match Scan(a, b) { case None => None case Some(o) => Some(o.Reverse()) }
    decreases |a|
  {
    if a != [] && b != [] {
      if IsDigit(a[0]) && IsDigit(b[0]) {
        RunStarts(a);
        ScanSwapped(a[RunLength(a)..], b[RunLength(b)..]);
      } else {
        ScanSwapped(a[1..], b[1..]);
      }
    }
  }

  /** Swapping the strings reverses the answer. */
  lemma {:induction false} Antisymmetric(a: seq<byte>, b: seq<byte>)
    ensures NaturalCmp(b, a) == NaturalCmp(a, b).Reverse()
  {
    ScanSwapped(a, b);
  }

  // ---- canonical strings ----

  /** No leading zero, and a value that fits. */
  predicate GoodRun(run: seq<byte>) {
    run != [] && (run[0] != 48 || |run| == 1) && Number(run) < U128
  }

  /** Every run of digits is a good one. */
  predicate Canonical(s: seq<byte>)
    decreases |s|
  {
    if s == [] then true
    else if IsDigit(s[0]) then RunStarts(s); GoodRun(s[..RunLength(s)]) && Canonical(s[RunLength(s)..])
    else Canonical(s[1..])
  }

  ghost predicate AllDigits(run: seq<byte>) {
    forall i :: 0 <= i < |run| ==> IsDigit(run[i])
  }

  lemma {:induction false} NumberBounds(run: seq<byte>)
    requires AllDigits(run)
    ensures Number(run) >= 0
    ensures run != [] && run[0] != 48 ==> Number(run) > 0
  {
    if run != [] {
      NumberBounds(run[..|run| - 1]);
    }
  }

  /** Without leading zeros, equal numbers have equal digits. */
  lemma {:induction false} SameNumberSameRun(x: seq<byte>, y: seq<byte>)
    requires AllDigits(x) && AllDigits(y) && GoodRun(x) && GoodRun(y) && Number(x) == Number(y)
    ensures x == y
  {
    var p, q := x[..|x| - 1], y[..|y| - 1];
    NumberBounds(p);
    NumberBounds(q);
    assert Number(p) == Number(q) && x[|x| - 1] == y[|y| - 1];
    if p != [] && q != [] {
      SameNumberSameRun(p, q);
    }
    assert x == p + [x[|x| - 1]] && y == q + [y[|y| - 1]];
  }

  datatype Token = Byte(b: byte) | Num(n: int)

  /** A canonical string as numbers and lower-case bytes. */
  function Tokens(s: seq<byte>): seq<Token>
    decreases |s|
  {
    if s == [] then []
    else if IsDigit(s[0]) then RunStarts(s); [Num(Number(s[..RunLength(s)]))] + Tokens(s[RunLength(s)..])
    else [Byte(Lower(s[0]))] + Tokens(s[1..])
  }

  /** Numbers stand where the digits do among the bytes, and by value among themselves. */
  function TokenOrder(x: Token, y: Token): Ordering {
    match (x, y)
    case (Num(m), Num(n)) => Order(m, n)
    case (Byte(b), Byte(c)) => Order(b, c)
    case (Num(_), Byte(c)) => Order(48, c)
    case (Byte(b), Num(_)) => Order(b, 48)
  }

  /** Token by token; a proper prefix comes first. */
  function Lexical(x: seq<Token>, y: seq<Token>): Ordering {
    if x == [] || y == [] then Order(|x|, |y|)
    else
      var o := TokenOrder(x[0], y[0]);
      if o.Equal? then Lexical(x[1..], y[1..]) else o
  }

  lemma {:induction false} LexicalCons(t: Token, u: Token, x: seq<Token>, y: seq<Token>)
    ensures Lexical([t] + x, [u] + y) == if TokenOrder(t, u).Equal? then Lexical(x, y) else TokenOrder(t, u)
  {
    assert ([t] + x)[1..] == x && ([u] + y)[1..] == y;
  }

  /** On canonical strings the comparison is the lexical one: both cursors move in step, since
      equal numbers have digits of equal length. */
  lemma {:induction false} IsLexical(a: seq<byte>, b: seq<byte>)
    requires Canonical(a) && Canonical(b)
    ensures NaturalCmp(a, b) == Lexical(Tokens(a), Tokens(b))
    decreases |a|
  {
    if a == [] || b == [] {
      assert a != [] ==> Tokens(a) != [];
      assert b != [] ==> Tokens(b) != [];
    } else if IsDigit(a[0]) && IsDigit(b[0]) {
      var m, n := RunLength(a), RunLength(b);
      RunStarts(a);
      RunHas(a, 0);
      RunHas(b, 0);
      LexicalCons(Num(Number(a[..m])), Num(Number(b[..n])), Tokens(a[m..]), Tokens(b[n..]));
      if Number(a[..m]) == Number(b[..n]) {
        SameNumberSameRun(a[..m], b[..n]);
        assert m == |a[..m]| == |b[..n]| == n;
        IsLexical(a[m..], b[n..]);
      }
    } else {
      var x, y := Tokens(a)[0], Tokens(b)[0];
      LexicalCons(x, y, Tokens(a)[1..], Tokens(b)[1..]);
      assert [x] + Tokens(a)[1..] == Tokens(a) && [y] + Tokens(b)[1..] == Tokens(b);
      if !IsDigit(a[0]) && !IsDigit(b[0]) {
        IsLexical(a[1..], b[1..]);
      }
    }
  }

  predicate IsToken(t: Token) {
    t.Num? || !IsDigit(t.b)
  }

  ghost predicate AreTokens(x: seq<Token>) {
    forall k :: 0 <= k < |x| ==> IsToken(x[k])
  }

  lemma {:induction false} TokensAre(s: seq<byte>)
    ensures AreTokens(Tokens(s))
    decreases |s|
  {
    if s != [] {
      if IsDigit(s[0]) {
        RunStarts(s);
        TokensAre(s[RunLength(s)..]);
      } else {
        TokensAre(s[1..]);
      }
    }
  }

  predicate AtMost(o: Ordering) {
    !o.Greater?
  }

  lemma {:induction false} TokenTransitive(x: Token, y: Token, z: Token)
    requires IsToken(x) && IsToken(y) && IsToken(z)
    requires AtMost(TokenOrder(x, y)) && AtMost(TokenOrder(y, z))
    ensures AtMost(TokenOrder(x, z))
    ensures TokenOrder(x, z).Equal? <==> TokenOrder(x, y).Equal? && TokenOrder(y, z).Equal?
  {
  }

  lemma {:induction false} LexicalTransitive(x: seq<Token>, y: seq<Token>, z: seq<Token>)
    requires AreTokens(x) && AreTokens(y) && AreTokens(z)
    requires AtMost(Lexical(x, y)) && AtMost(Lexical(y, z))
    ensures AtMost(Lexical(x, z))
    ensures Lexical(x, z).Equal? <==> Lexical(x, y).Equal? && Lexical(y, z).Equal?
  {
    if x != [] && y != [] && z != [] {
      TokenTransitive(x[0], y[0], z[0]);
      if TokenOrder(x[0], y[0]).Equal? && TokenOrder(y[0], z[0]).Equal? {
        LexicalTransitive(x[1..], y[1..], z[1..]);
      }
    }
  }

  /** On canonical strings the comparison is a total preorder: transitive, with ties that are
      transitive too and do not change how others compare. */
  lemma {:induction false} Transitive(a: seq<byte>, b: seq<byte>, c: seq<byte>)
    requires Canonical(a) && Canonical(b) && Canonical(c)
    requires AtMost(NaturalCmp(a, b)) && AtMost(NaturalCmp(b, c))
    ensures AtMost(NaturalCmp(a, c))
    ensures NaturalCmp(a, c).Equal? <==> NaturalCmp(a, b).Equal? && NaturalCmp(b, c).Equal?
  {
    IsLexical(a, b);
    IsLexical(b, c);
    IsLexical(a, c);
    TokensAre(a);
    TokensAre(b);
    TokensAre(c);
    LexicalTransitive(Tokens(a), Tokens(b), Tokens(c));
  }

  // ---- ties ----

  lemma {:induction false} SameLetters(a: seq<byte>, b: seq<byte>)
    requires LowerAll(a) == LowerAll(b)
    ensures |a| == |b| && forall i :: 0 <= i < |a| ==> Lower(a[i]) == Lower(b[i]) && (IsDigit(a[i]) ==> a[i] == b[i])
  {
    assert |LowerAll(a)| == |LowerAll(b)|;
    forall i | 0 <= i < |a|
      ensures Lower(a[i]) == Lower(b[i])
    {
      assert LowerAll(a)[i] == LowerAll(b)[i];
    }
  }

  lemma {:induction false} LettersScan(a: seq<byte>, b: seq<byte>)
    requires |a| == |b| && forall i :: 0 <= i < |a| ==> Lower(a[i]) == Lower(b[i])
    ensures Scan(a, b) == None
    decreases |a|
  {
    if a != [] {
      if IsDigit(a[0]) && IsDigit(b[0]) {
        var m := RunLength(a);
        RunStarts(a);
        RunHas(a, 0);
        assert forall i :: 0 <= i < |a| ==> (IsDigit(a[i]) <==> IsDigit(b[i]));
        RunIs(b, 0, m);
        assert a[..m] == b[..m];
        LettersScan(a[m..], b[m..]);
      } else {
        LettersScan(a[1..], b[1..]);
      }
    }
  }

  lemma {:induction false} TieLetters(a: seq<byte>, b: seq<byte>)
    requires Canonical(a) && Canonical(b) && NaturalCmp(a, b).Equal?
    ensures |a| == |b| && forall i :: 0 <= i < |a| ==> Lower(a[i]) == Lower(b[i])
    decreases |a|
  {
    if a != [] && b != [] {
      if IsDigit(a[0]) && IsDigit(b[0]) {
        var m, n := RunLength(a), RunLength(b);
        RunStarts(a);
        RunHas(a, 0);
        RunHas(b, 0);
        SameNumberSameRun(a[..m], b[..n]);
        assert m == |a[..m]| == |b[..n]| == n;
        TieLetters(a[m..], b[m..]);
        forall i | 0 <= i < |a|
          ensures Lower(a[i]) == Lower(b[i])
        {
          assert i < m ==> a[i] == a[..m][i] && b[i] == b[..n][i];
          assert i >= m ==> a[i] == a[m..][i - m] && b[i] == b[m..][i - m];
        }
      } else {
        TieLetters(a[1..], b[1..]);
        forall i | 0 <= i < |a|
          ensures Lower(a[i]) == Lower(b[i])
        {
          assert i >= 1 ==> a[i] == a[1..][i - 1] && b[i] == b[1..][i - 1];
        }
      }
    }
  }

  /** Canonical strings tie exactly when they are equal but for ASCII case. */
  lemma {:induction false} TiesExact(a: seq<byte>, b: seq<byte>)
    requires Canonical(a) && Canonical(b)
    ensures NaturalCmp(a, b).Equal? <==> LowerAll(a) == LowerAll(b)
  {
    if LowerAll(a) == LowerAll(b) {
      SameLetters(a, b);
      LettersScan(a, b);
    }
    if NaturalCmp(a, b).Equal? {
      TieLetters(a, b);
    }
  }

  // ---- other strings ----

  predicate StartsPlain(s: seq<byte>) {
    s != [] && !IsDigit(s[0])
  }

  lemma {:induction false} RunBefore(run: seq<byte>, rest: seq<byte>)
    requires AllDigits(run) && (rest == [] || !IsDigit(rest[0]))
    ensures RunLength(run + rest) == |run| && (run + rest)[..|run|] == run && (run + rest)[|run|..] == rest
  {
    RunIs(run + rest, 0, |run|);
  }

  /** After a common start the first difference is that of what follows. */
  lemma {:induction false} ScanAfter(s: seq<byte>, x: seq<byte>, y: seq<byte>)
    requires x == [] || StartsPlain(x)
    requires y == [] || StartsPlain(y)
    ensures Scan(s + x, s + y) == Scan(x, y)
    decreases |s|
  {
    if s == [] {
      assert s + x == x && s + y == y;
    } else if IsDigit(s[0]) {
      var m := RunLength(s);
      RunStarts(s);
      RunHas(s, 0);
      var run, rest := s[..m], s[m..];
      assert s + x == run + (rest + x) && s + y == run + (rest + y);
      assert rest != [] ==> (rest + x)[0] == rest[0] && (rest + y)[0] == rest[0];
      RunBefore(run, rest + x);
      RunBefore(run, rest + y);
      ScanAfter(rest, x, y);
    } else {
      assert (s + x)[1..] == s[1..] + x && (s + y)[1..] == s[1..] + y;
      ScanAfter(s[1..], x, y);
    }
  }

  function Repeat(b: byte, n: nat): (s: seq<byte>)
    ensures |s| == n
  {
    seq(n, _ => b)
  }

  /** A shorter run of the same value. */
  function Shorter(run: seq<byte>): seq<byte>
    requires run != []
  {
    if run[0] == 48 && |run| > 1 then run[1..] else [48]
  }

  lemma {:induction false} LeadingZero(run: seq<byte>)
    requires run != [] && run[0] == 48
    ensures Number(run) == Number(run[1..])
  {
    if |run| > 1 {
      var init := run[..|run| - 1];
      LeadingZero(init);
      assert run[1..][..|run| - 2] == init[1..];
    }
  }

  lemma {:induction false} OneDigit(run: seq<byte>)
    requires AllDigits(run)
    ensures |run| == 1 ==> Number(run) < 10
  {
    if |run| == 1 {
      assert run[..|run| - 1] == [];
    }
  }

  lemma {:induction false} ShorterSame(run: seq<byte>)
    requires AllDigits(run) && run != [] && !GoodRun(run)
    ensures AllDigits(Shorter(run)) && 0 < |Shorter(run)| < |run| && Parsed(Shorter(run)) == Parsed(run)
  {
    if run[0] == 48 && |run| > 1 {
      LeadingZero(run);
    } else {
      assert Number(run) >= U128;
      assert [48 as byte][..0] == [];
      assert Number([48]) == 0;
      OneDigit(run);
    }
  }

  /** Padding letters make up for the digits saved, so both lengths agree. */
  function Imitation(s: seq<byte>, letter: byte): seq<byte>
    requires !Canonical(s)
    decreases |s|
  {
    if IsDigit(s[0]) then
      RunStarts(s);
      var run, rest := s[..RunLength(s)], s[RunLength(s)..];
      if GoodRun(run) then run + Imitation(rest, letter)
      else Shorter(run) + rest + Repeat(letter, |run| - (if |Shorter(run)| <= |run| then |Shorter(run)| else |run|))
    else [s[0]] + Imitation(s[1..], letter)
  }

  lemma {:induction false} Imitates(s: seq<byte>)
    requires !Canonical(s)
    ensures var t, u := Imitation(s, 97), Imitation(s, 98);
            |t| == |u| == |s| && Scan(s, t) == None && Scan(s, u) == None && Scan(t, u) == Some(Less) &&
            (!IsDigit(s[0]) ==> t[0] == u[0] == s[0])
    decreases |s|
  {
    var t, u := Imitation(s, 97), Imitation(s, 98);
    if IsDigit(s[0]) {
      var m := RunLength(s);
      RunStarts(s);
      RunHas(s, 0);
      var run, rest := s[..m], s[m..];
      assert s == run + rest;
      if GoodRun(run) {
        Imitates(rest);
        GoodStart(run, rest, Imitation(rest, 97), Imitation(rest, 98));
      } else {
        ShorterSame(run);
        var n := |run| - |Shorter(run)|;
        BadStart(run, Shorter(run), rest, Repeat(97, n));
        BadStart(run, Shorter(run), rest, Repeat(98, n));
        ScanAfter(Shorter(run) + rest, Repeat(97, n), Repeat(98, n));
      }
    } else {
      Imitates(s[1..]);
      assert t[1..] == Imitation(s[1..], 97) && u[1..] == Imitation(s[1..], 98);
    }
  }

  lemma {:induction false} GoodStart(run: seq<byte>, rest: seq<byte>, t: seq<byte>, u: seq<byte>)
    requires AllDigits(run) && run != [] && StartsPlain(rest) && StartsPlain(t) && StartsPlain(u)
    requires Scan(rest, t) == None && Scan(rest, u) == None && Scan(t, u) == Some(Less)
    ensures Scan(run + rest, run + t) == None && Scan(run + rest, run + u) == None && Scan(run + t, run + u) == Some(Less)
  {
    ScanAfter(run, rest, t);
    ScanAfter(run, rest, u);
    ScanAfter(run, t, u);
  }

  lemma {:induction false} BadStart(run: seq<byte>, short: seq<byte>, rest: seq<byte>, pad: seq<byte>)
    requires AllDigits(run) && AllDigits(short) && run != [] && short != [] && Parsed(run) == Parsed(short)
    requires (rest == [] || !IsDigit(rest[0])) && StartsPlain(pad)
    ensures Scan(run + rest, short + rest + pad) == None
  {
    RunBefore(run, rest);
    assert short + rest + pad == short + (rest + pad);
    RunBefore(short, rest + pad);
    ScanAfter(rest, [], pad);
    assert rest + [] == rest;
  }

  /** Every other string breaks the order: it ties with two strings of which one is less than
      the other. */
  lemma {:induction false} NotCanonicalBreaks(s: seq<byte>)
    requires !Canonical(s)
    ensures var t, u := Imitation(s, 97), Imitation(s, 98);
            NaturalCmp(s, t).Equal? && NaturalCmp(s, u).Equal? && NaturalCmp(t, u).Less?
  {
    Imitates(s);
  }
}
