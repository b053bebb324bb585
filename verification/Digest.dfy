/** Digest normalization of the WACZ reader: hexadecimal and Base32 spellings of
    a SHA-256 value (section 6 of RFC 4648) brought to one canonical string.
    `Normalize` says what the result is by positional arithmetic on the whole
    number; `NormalizeSha256` is the bit-accumulating loop of the program. */
module Digest {
  import opened Wrappers
  import opened Characters
  import opened Radix

  datatype Error = UnsupportedAlgorithm | InvalidEncoding | InvalidBase32 | InvalidPadding

  type u32 = x: int | 0 <= x < 0x1_0000_0000

  predicate IsSha256(d: seq<nat>) {
    |d| == 32 && Digits(256, d)
  }

  // ---- the two spellings ----

  function HexChar(n: nat): char
    requires n < 16
  {
    if n < 10 then ('0' as int + n) as char else ('a' as int + n - 10) as char
  }

  function Hex(d: seq<nat>): (s: string)
    requires Digits(256, d)
    ensures |s| == 2 * |d|
  {
    seq(2 * |d|, i requires 0 <= i < 2 * |d| =>
      HexChar(if i % 2 == 0 then d[i / 2] / 16 else d[i / 2] % 16))
  }

  predicate IsBase32Char(c: char) {
    IsAlpha(c) || '2' <= c <= '7'
  }

  function Base32Digit(c: char): (n: nat)
    requires IsBase32Char(c)
    ensures n < 32
  {
    if IsAlpha(c) then ToUpper(c) as int - 'A' as int else c as int - '2' as int + 26
  }

  function Base32Char(n: nat): (c: char)
    requires n < 32
    ensures IsBase32Char(c) && Base32Digit(c) == n && ToUpper(c) == c
  {
    if n < 26 then ('A' as int + n) as char else ('2' as int + n - 26) as char
  }

  predicate IsBase32(s: string) {
    forall i :: 0 <= i < |s| ==> IsBase32Char(s[i])
  }

  function Base32Digits(s: string): (ds: seq<nat>)
    requires IsBase32(s)
    ensures |ds| == |s| && Digits(32, ds)
  {
    seq(|s|, i requires 0 <= i < |s| => Base32Digit(s[i]))
  }

  /** The 52 upper-case symbols of the 256 bits followed by four zero bits. */
  function Base32(d: seq<nat>): (s: string)
    requires IsSha256(d)
    ensures |s| == 52
  {
    var ds := Quintets(d);
    seq(52, i requires 0 <= i < 52 => Base32Char(ds[i]))
  }

  function Quintets(d: seq<nat>): (ds: seq<nat>)
    requires IsSha256(d)
    ensures |ds| == 52 && Digits(32, ds)
  {
    Expand(32, (8 * |d| + 4) / 5, Value(256, d) * 16)
  }

  /** The 32 bytes of a 52-symbol text whose last four bits are left over. */
  function Bytes(core: string): (d: seq<nat>)
    requires |core| == 52 && IsBase32(core)
    ensures IsSha256(d)
  {
    Expand(256, 5 * |core| / 8, Value(32, Base32Digits(core)) / 16)
  }

  /** `value` names the digest `d` in an accepted spelling: hexadecimal in any
      case, or Base32 in any case followed by any number of padding signs. */
  ghost predicate Encodes(value: string, d: seq<nat>)
    requires IsSha256(d)
  {
    exists alg: string, body: string :: Spells(value, alg, body, d)
  }

  ghost predicate Spells(value: string, alg: string, body: string, d: seq<nat>)
    requires IsSha256(d)
  {
    value == alg + ":" + body && ':' !in alg && EqualIgnoringCase(alg, "sha256") &&
    (LowerAll(body) == Hex(d) ||
     exists core: string :: Padded(core, body) && UpperAll(core) == Base32(d))
  }

  predicate Padded(core: string, body: string) {
    |core| <= |body| && body[..|core|] == core &&
    forall i :: |core| <= i < |body| ==> body[i] == '='
  }

  // ---- what normalization computes ----

  function SplitColon(s: string): (r: Option<(string, string)>)
    ensures r.Some? ==> s == r.value.0 + ":" + r.value.1 && ':' !in r.value.0
    ensures r.None? ==> ':' !in s
  {
    if s == "" then None
    else if s[0] == ':' then assert s == "" + ":" + s[1..]; Some(("", s[1..]))
    else
      match SplitColon(s[1..])
      case None => None
      case Some((a, b)) => assert s == [s[0]] + s[1..]; Some(([s[0]] + a, b))
  }

  lemma {:induction false} SplitColonAt(a: string, b: string)
    requires ':' !in a
    ensures SplitColon(a + ":" + b) == Some((a, b))
  {
    var s := a + ":" + b;
    if a == "" {
      assert s[1..] == b;
    } else {
      assert s[1..] == a[1..] + ":" + b && s[0] == a[0];
      SplitColonAt(a[1..], b);
      assert [a[0]] + a[1..] == a;
    }
  }

  function TrimPadding(s: string): (core: string)
    ensures Padded(core, s)
    ensures core != "" ==> core[|core| - 1] != '='
  {
    if s != "" && s[|s| - 1] == '=' then TrimPadding(s[..|s| - 1]) else s
  }

  lemma {:induction false} TrimPadded(core: string, s: string)
    requires Padded(core, s) && (core != "" ==> core[|core| - 1] != '=')
    ensures TrimPadding(s) == core
  {
    if |core| == |s| {
      assert s[..|core|] == s;
    } else {
      TrimPadded(core, s[..|s| - 1]);
    }
  }

  /** What 52 symbols decode to. */
  function Decoded(encoded: string): (r: Result<seq<nat>, Error>)
    requires |encoded| == 52
  {
    if !IsBase32(encoded) then Err(InvalidBase32)
    else if Value(32, Base32Digits(encoded)) % 16 != 0 then Err(InvalidPadding)
    else Ok(Bytes(encoded))
  }

  function Normalize(value: string): Result<string, Error> {
    match SplitColon(value)
    case None => Err(UnsupportedAlgorithm)
    case Some((alg, encoded)) =>
      if !EqualIgnoringCase(alg, "sha256") then Err(UnsupportedAlgorithm)
      else if |encoded| == 64 && forall i :: 0 <= i < 64 ==> IsHexDigit(encoded[i]) then
        Ok("sha256:" + LowerAll(encoded))
      else
        var core := TrimPadding(encoded);
        if |core| != 52 then Err(InvalidEncoding)
        else var bytes :- Decoded(core); Ok("sha256:" + Hex(bytes))
  }

  // ---- the program's loop ----

  function Pow2(k: nat): (p: nat)
    requires k < 13
    ensures p > 0
  {
    [1, 2, 4, 8, 16, 32, 64, 128, 256, 512, 1024, 2048, 4096][k]
  }

  /** The number held by the bytes given out so far and the `bits` pending bits. */
  function Held(bytes: nat, bits: nat, acc: nat): nat
    requires bits < 13
  {
    bytes * Pow2(bits) + acc
  }

  /** Taking in five more bits. */
  lemma {:induction false} PushBits(b: nat, bits: nat, acc: nat, v: nat)
    requires bits < 8 && acc < Pow2(bits) && v < 32
    ensures acc * 32 + v < Pow2(bits + 5) <= 4096
    ensures Held(b, bits, acc) * 32 + v == Held(b, bits + 5, acc * 32 + v)
  {
    match bits {
      case 0 => case 1 => case 2 => case 3 => case 4 => case 5 => case 6 => case 7 =>
    }
  }

  /** Giving out a byte when eight bits are there. */
  lemma {:induction false} PopByte(b: nat, bits: nat, acc: nat)
    requires 8 <= bits < 13 && acc < Pow2(bits)
    ensures acc / Pow2(bits - 8) < 256 && acc % Pow2(bits - 8) < Pow2(bits - 8)
    ensures Held(b, bits, acc) == Held(b * 256 + acc / Pow2(bits - 8), bits - 8, acc % Pow2(bits - 8))
  {
    match bits {
      case 8 => case 9 => case 10 => case 11 => case 12 =>
    }
  }

  /** The bytes given out and the accumulator together hold what has been read;
      the accumulator stays below two to the number of pending bits. */
  ghost predicate Taken(read: string, bytes: seq<nat>, acc: nat, bits: nat) {
    bits < 13 && acc < Pow2(bits) && Digits(256, bytes) && IsBase32(read) &&
    Value(32, Base32Digits(read)) == Held(Value(256, bytes), bits, acc)
  }

  lemma {:induction false} TakeSymbol(read: string, bytes: seq<nat>, acc: nat, bits: nat, ch: char)
    requires Taken(read, bytes, acc, bits) && bits < 8 && IsBase32Char(ch)
    ensures acc * 32 + Base32Digit(ch) < 4096
    ensures Taken(read + [ch], bytes, acc * 32 + Base32Digit(ch), bits + 5)
  {
    var v := Base32Digit(ch);
    var before := Base32Digits(read);
    assert Base32Digits(read + [ch]) == before + [v];
    ValueAppend(32, before, v);
    PushBits(Value(256, bytes), bits, acc, v);
  }

  lemma {:induction false} TakeAndGive(read: string, bytes: seq<nat>, acc: nat, bits: nat, ch: char)
    requires Taken(read, bytes, acc, bits) && bits < 8 && IsBase32Char(ch)
    ensures var a := acc * 32 + Base32Digit(ch);
            a < 4096 &&
            if bits < 3 then Taken(read + [ch], bytes, a, bits + 5)
            else Taken(read + [ch], bytes + [a / Pow2(bits - 3)], a % Pow2(bits - 3), bits - 3)
  {
    TakeSymbol(read, bytes, acc, bits, ch);
    if bits >= 3 {
      GiveByte(read + [ch], bytes, acc * 32 + Base32Digit(ch), bits + 5);
    }
  }

  lemma {:induction false} GiveByte(read: string, bytes: seq<nat>, acc: nat, bits: nat)
    requires Taken(read, bytes, acc, bits) && bits >= 8
    ensures acc / Pow2(bits - 8) < 256
    ensures Taken(read, bytes + [acc / Pow2(bits - 8)], acc % Pow2(bits - 8), bits - 8)
  {
    PopByte(Value(256, bytes), bits, acc);
    ValueAppend(256, bytes, acc / Pow2(bits - 8));
  }

  lemma {:induction false} AllTaken(read: string, bytes: seq<nat>, acc: nat)
    requires |read| == 52 && |bytes| == 32 && Taken(read, bytes, acc, 4)
    ensures Value(32, Base32Digits(read)) % 16 == acc
    ensures acc == 0 ==> Bytes(read) == bytes
  {
    assert Value(32, Base32Digits(read)) == Value(256, bytes) * 16 + acc && acc < 16;
    DivModUnique(Value(256, bytes), acc, 16);
    ExpandValue(256, bytes);
  }

  method NormalizeSha256(value: string) returns (r: Result<string, Error>)
    ensures r == Normalize(value)
  {
    var split := SplitColon(value);
    if split.None? {
      return Err(UnsupportedAlgorithm);
    }
    var (algorithm, encoded) := split.value;
    if !EqualIgnoringCase(algorithm, "sha256") {
      return Err(UnsupportedAlgorithm);
    }
    if |encoded| == 64 && forall i :: 0 <= i < 64 ==> IsHexDigit(encoded[i]) {
      return Ok("sha256:" + LowerAll(encoded));
    }
    encoded := TrimPadding(encoded);
    if |encoded| != 52 {
      return Err(InvalidEncoding);
    }
    var bytes :- DecodeBase32(encoded);
    return Ok("sha256:" + Hex(bytes));
  }

  /** One turn of the loop: five bits in, and a byte out when there are eight. */
  method PushSymbol(ghost read: string, bytes0: seq<nat>, acc0: u32, bits0: nat, ch: char)
    returns (bytes: seq<nat>, acc: u32, bits: nat)
    requires bits0 < 8 && Taken(read, bytes0, acc0, bits0) && IsBase32Char(ch)
    ensures bits < 8 && Taken(read + [ch], bytes, acc, bits)
    ensures 8 * |bytes| + bits == 8 * |bytes0| + bits0 + 5
  {
    TakeAndGive(read, bytes0, acc0, bits0, ch);
    bytes, acc, bits := bytes0, acc0 * 32 + Base32Digit(ch), bits0 + 5;
    if bits >= 8 {
      bits := bits - 8;
      var out, rest := SplitBits(acc, bits);
      bytes := bytes + [out];
      acc := rest;
    }
  }

  /** The bits above the lowest `bits`, and those. */
  method SplitBits(acc: u32, bits: nat) returns (out: nat, rest: u32)
    requires bits < 8 && acc < 4096
    ensures out == acc / Pow2(bits) && rest == acc % Pow2(bits)
  {
    out := acc / Pow2(bits);
    rest := acc % Pow2(bits);
  }

  lemma {:induction false} NothingTaken()
    ensures Taken("", [], 0, 0)
  {
  }

  lemma {:induction false} ForeignSymbol(encoded: string, k: nat)
    requires |encoded| == 52 && k < 52 && !IsBase32Char(encoded[k])
    ensures Decoded(encoded) == Err(InvalidBase32)
  {
  }

  lemma {:induction false} LoopEnds(encoded: string, bytes: seq<nat>, acc: nat, bits: nat)
    requires |encoded| == 52 && Taken(encoded, bytes, acc, bits) && 8 * |bytes| + bits == 260 && bits < 8
    ensures |bytes| == 32 && Decoded(encoded) == if acc != 0 then Err(InvalidPadding) else Ok(bytes)
  {
    AllTaken(encoded, bytes, acc);
  }

  /** The accumulator loop over the 52 symbols. */
  method DecodeBase32(encoded: string) returns (r: Result<seq<nat>, Error>)
    requires |encoded| == 52
    ensures r == Decoded(encoded)
  {
    var bytes: seq<nat> := [];
    var acc: u32 := 0;
    var bits := 0;
    NothingTaken();
    for k := 0 to 52
      invariant 5 * k == 8 * |bytes| + bits && bits < 8
      invariant Taken(encoded[..k], bytes, acc, bits)
    {
      var ch := encoded[k];
      if !IsBase32Char(ch) {
        ForeignSymbol(encoded, k);
        return Err(InvalidBase32);
      }
      assert encoded[..k + 1] == encoded[..k] + [ch];
      bytes, acc, bits := PushSymbol(encoded[..k], bytes, acc, bits, ch);
    }
    assert encoded[..52] == encoded;
    LoopEnds(encoded, bytes, acc, bits);
    if |bytes| != 32 || acc != 0 {
      return Err(InvalidPadding);
    }
    return Ok(bytes);
  }

  // ---- main results ----

  lemma {:induction false} PowSum(base: Base, m: nat, n: nat)
    ensures Pow(base, m + n) == Pow(base, m) * Pow(base, n)
  {
    if n > 0 {
      PowSum(base, m, n - 1);
      MulRegroup(Pow(base, m), Pow(base, n - 1), base);
    }
  }

  lemma {:induction false} MulRegroup(a: nat, b: nat, c: nat)
    ensures a * b * c == a * (b * c)
  {
  }

  /** 260 bits read five at a time, or eight at a time and four over. */
  lemma {:induction false} BitLengths(k: nat)
    ensures Pow(32, 8 * k + 4) == Pow(256, 5 * k + 2) * 16
  {
    if k == 0 {
      assert Pow(32, 4) == Pow(32, 2) * 32 * 32 && Pow(32, 2) == 1024;
      assert Pow(256, 2) == 65536;
    } else {
      BitLengths(k - 1);
      PowSum(32, 8 * k - 4, 8);
      PowSum(256, 5 * k - 3, 5);
      assert Pow(32, 8) == Pow(256, 5) == 0x100_0000_0000 by {
        PowSum(32, 4, 4);
        assert Pow(32, 4) == Pow(32, 2) * 32 * 32 && Pow(32, 2) == 1024;
        PowSum(256, 2, 3);
        assert Pow(256, 3) == Pow(256, 2) * 256 && Pow(256, 2) == 65536;
      }
    }
  }

  lemma {:induction false} HexInjective(a: seq<nat>, b: seq<nat>)
    requires IsSha256(a) && IsSha256(b) && Hex(a) == Hex(b)
    ensures a == b
  {
    forall i | 0 <= i < 32
      ensures a[i] == b[i]
    {
      assert Hex(a)[2 * i] == HexChar(a[i] / 16) && Hex(b)[2 * i] == HexChar(b[i] / 16);
      assert Hex(a)[2 * i + 1] == HexChar(a[i] % 16) && Hex(b)[2 * i + 1] == HexChar(b[i] % 16);
    }
  }

  function HexValue(c: char): (n: nat)
    requires IsHexDigit(c)
    ensures n < 16 && HexChar(n) == ToLower(c)
  {
    if IsDigit(c) then c as int - '0' as int else ToLower(c) as int - 'a' as int + 10
  }

  /** Every 64-digit hexadecimal text spells some digest. */
  lemma {:induction false} HexSurjective(s: string) returns (d: seq<nat>)
    requires |s| == 64 && forall i :: 0 <= i < 64 ==> IsHexDigit(s[i])
    ensures IsSha256(d) && Hex(d) == LowerAll(s)
  {
    d := seq(32, i requires 0 <= i < 32 => HexPair(s[2 * i], s[2 * i + 1]));
    forall i | 0 <= i < 64
      ensures Hex(d)[i] == ToLower(s[i])
    {
      var j := i / 2;
      PairAt(s, d, j);
      assert i == 2 * j || i == 2 * j + 1;
    }
  }

  lemma {:induction false} PairAt(s: string, d: seq<nat>, j: nat)
    requires |s| == 2 * |d| && j < |d| && Digits(256, d) && IsHexDigit(s[2 * j]) && IsHexDigit(s[2 * j + 1])
    requires d[j] == HexPair(s[2 * j], s[2 * j + 1])
    ensures Hex(d)[2 * j] == ToLower(s[2 * j]) && Hex(d)[2 * j + 1] == ToLower(s[2 * j + 1])
  {
    HexAt(d, j);
  }

  lemma {:induction false} HexAt(d: seq<nat>, j: nat)
    requires Digits(256, d) && j < |d|
    ensures Hex(d)[2 * j] == HexChar(d[j] / 16) && Hex(d)[2 * j + 1] == HexChar(d[j] % 16)
  {
    assert 2 * j / 2 == j && (2 * j + 1) / 2 == j;
  }

  function HexPair(high: char, low: char): (n: nat)
    requires IsHexDigit(high) && IsHexDigit(low)
    ensures n < 256 && HexChar(n / 16) == ToLower(high) && HexChar(n % 16) == ToLower(low)
  {
    HexValue(high) * 16 + HexValue(low)
  }

  lemma {:induction false} HexIsHex(d: seq<nat>, body: string)
    requires IsSha256(d) && LowerAll(body) == Hex(d)
    ensures |body| == 64 && forall i :: 0 <= i < 64 ==> IsHexDigit(body[i])
  {
    forall i | 0 <= i < 64
      ensures IsHexDigit(body[i])
    {
      assert LowerAll(body)[i] == Hex(d)[i];
    }
  }

  /** The Base32 spelling of a digest decodes to that digest, with no stray low bits. */
  lemma {:induction false} SpellingDecodes(core: string, d: seq<nat>)
    requires IsSha256(d) && |core| == 52 && IsBase32(core) && UpperAll(core) == Base32(d)
    ensures Value(32, Base32Digits(core)) % 16 == 0
    ensures Bytes(core) == d
  {
    forall i | 0 <= i < 52
      ensures Base32Digits(core)[i] == Quintets(d)[i]
    {
      assert UpperAll(core)[i] == Base32(d)[i];
    }
    assert Base32Digits(core) == Quintets(d);
    QuintetsValue(d);
    ExpandValue(256, d);
  }

  lemma {:induction false} QuintetsValue(d: seq<nat>)
    requires IsSha256(d)
    ensures Value(32, Quintets(d)) == Value(256, d) * 16
  {
    ExpandQuintets(d, 6);
  }

  lemma {:induction false} ExpandQuintets(d: seq<nat>, k: nat)
    requires |d| == 5 * k + 2 && Digits(256, d)
    ensures Value(32, Expand(32, 8 * k + 4, Value(256, d) * 16)) == Value(256, d) * 16
  {
    BitLengths(k);
    ValueBound(256, d);
    ValueExpand(32, 8 * k + 4, Value(256, d) * 16);
  }

  /** A Base32 text without stray low bits is the spelling of what it decodes to. */
  lemma {:induction false} DecodedIsSpelling(core: string, d: seq<nat>)
    requires |core| == 52 && IsBase32(core) && Bytes(core) == d
    requires Value(32, Base32Digits(core)) % 16 == 0
    ensures UpperAll(core) == Base32(d)
  {
    BytesValue(core);
    ExpandValue(32, Base32Digits(core));
    forall i | 0 <= i < 52
      ensures UpperAll(core)[i] == Base32(d)[i]
    {
      assert Base32Char(Base32Digits(core)[i]) == ToUpper(core[i]);
    }
  }

  lemma {:induction false} BytesValue(core: string)
    requires |core| == 52 && IsBase32(core)
    ensures Value(256, Bytes(core)) == Value(32, Base32Digits(core)) / 16
  {
    ExpandBytes(Base32Digits(core), 6);
  }

  lemma {:induction false} ExpandBytes(ds: seq<nat>, k: nat)
    requires |ds| == 8 * k + 4 && Digits(32, ds)
    ensures Value(256, Expand(256, 5 * k + 2, Value(32, ds) / 16)) == Value(32, ds) / 16
  {
    var n := Value(32, ds);
    BitLengths(k);
    ValueBound(32, ds);
    DivBound(n, Pow(256, 5 * k + 2), 16);
    ValueExpand(256, 5 * k + 2, n / 16);
  }

  lemma {:induction false} Base32Recognized(core: string, d: seq<nat>)
    requires IsSha256(d) && UpperAll(core) == Base32(d)
    ensures |core| == 52 && IsBase32(core) && core[51] != '='
  {
    forall i | 0 <= i < 52
      ensures IsBase32Char(core[i])
    {
      assert UpperAll(core)[i] == Base32(d)[i];
    }
  }

  /** Normalization is exact: a text normalizes to the canonical name of the digest
      `d` if and only if it is one of the accepted spellings of `d`. */
  lemma {:induction false} NormalizeExact(value: string, d: seq<nat>)
    requires IsSha256(d)
    ensures Normalize(value) == Ok("sha256:" + Hex(d)) <==> Encodes(value, d)
  {
    if Normalize(value) == Ok("sha256:" + Hex(d)) {
      NormalizedEncodes(value, d);
    }
    if Encodes(value, d) {
      var alg: string, body: string :| Spells(value, alg, body, d);
      EncodesNormalized(value, alg, body, d);
    }
  }

  lemma {:induction false} EncodesNormalized(value: string, alg: string, body: string, d: seq<nat>)
    requires IsSha256(d) && Spells(value, alg, body, d)
    ensures Normalize(value) == Ok("sha256:" + Hex(d))
  {
    SplitColonAt(alg, body);
    if LowerAll(body) == Hex(d) {
      HexIsHex(d, body);
    } else {
      var core :| Padded(core, body) && UpperAll(core) == Base32(d);
      Base32Recognized(core, d);
      TrimPadded(core, body);
      SpellingDecodes(core, d);
      assert |body| == 64 ==> !IsHexDigit(body[63]);
    }
  }

  lemma {:induction false} NormalizedEncodes(value: string, d: seq<nat>)
    requires IsSha256(d) && Normalize(value) == Ok("sha256:" + Hex(d))
    ensures Encodes(value, d)
  {
    var (alg, body) := SplitColon(value).value;
    if |body| == 64 && forall i :: 0 <= i < 64 ==> IsHexDigit(body[i]) {
      assert ("sha256:" + LowerAll(body))[7..] == LowerAll(body);
      assert ("sha256:" + Hex(d))[7..] == Hex(d);
    } else {
      var core := TrimPadding(body);
      var e := Bytes(core);
      assert ("sha256:" + Hex(e))[7..] == Hex(e);
      assert ("sha256:" + Hex(d))[7..] == Hex(d);
      HexInjective(e, d);
      DecodedIsSpelling(core, d);
      assert Padded(core, body);
    }
    assert Spells(value, alg, body, d);
  }

  /** Every accepted text names exactly one digest, so spellings of different
      digests never normalize to the same string. */
  lemma {:induction false} NormalizeNamesOneDigest(value: string) returns (d: seq<nat>)
    requires Normalize(value).Ok?
    ensures IsSha256(d) && Normalize(value) == Ok("sha256:" + Hex(d))
    ensures forall e :: IsSha256(e) && Encodes(value, e) ==> e == d
  {
    var (alg, body) := SplitColon(value).value;
    if |body| == 64 && forall i :: 0 <= i < 64 ==> IsHexDigit(body[i]) {
      d := HexSurjective(body);
    } else {
      d := Bytes(TrimPadding(body));
    }
    forall e | IsSha256(e) && Encodes(value, e)
      ensures e == d
    {
      NormalizeExact(value, e);
      assert ("sha256:" + Hex(e))[7..] == Hex(e);
      assert ("sha256:" + Hex(d))[7..] == Hex(d);
      HexInjective(e, d);
    }
  }
}
