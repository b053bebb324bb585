/** The two decoders of chunked bodies (section 7.1 of RFC 9112): the streaming one that
    hashes an entity while an archive is scanned, and the one that decodes a payload in
    memory. UTF-8 decoding is a parameter of which `IsUtf8` states the laws used. */
module Chunked {
  import opened Wrappers
  import opened Characters

  const MAX_HEADER := 64 * 1024
  const MAX_RECORD := 32 * 1024 * 1024
  const MAX_BODY := 2 * 1024 * 1024 * 1024 + 64 * 1024
  const MAX_CHUNKS := 1_000_000

  type byte = b: int | 0 <= b < 256

  const CR: byte := 13
  const LF: byte := 10
  const CRLF: seq<byte> := [CR, LF]

  datatype Error = TooManyChunks | BadSizeLine | BadSize | BadTrailer | TooLarge | Truncated | BadDelimiter

  type Utf8 = seq<byte> -> Option<string>

  function Ascii(s: string): (bs: seq<byte>)
    requires forall i :: 0 <= i < |s| ==> s[i] as int < 128
    ensures |bs| == |s|
  {
    seq(|s|, i requires 0 <= i < |s| => s[i] as int)
  }

  ghost predicate IsUtf8(u: Utf8) {
    (forall s :: IsAscii(s) ==> u(Ascii(s)) == Some(s)) &&
    (forall a, b :: u(a).Some? && u(b).Some? ==> u(a + b) == Some(u(a).value + u(b).value)) &&
    forall a :: u(a + CRLF).Some? ==> u(a).Some?
  }

  predicate IsAscii(s: string) {
    forall i :: 0 <= i < |s| ==> s[i] as int < 128
  }

  // ---- size fields ----

  function HexDigit(c: char): (n: nat)
    requires IsHexDigit(c)
    ensures n < 16
  {
    if IsDigit(c) then c as int - '0' as int else ToLower(c) as int - 'a' as int + 10
  }

  predicate IsHex(s: string) {
    s != "" && forall i :: 0 <= i < |s| ==> IsHexDigit(s[i])
  }

  function HexValue(s: string): nat
    requires forall i :: 0 <= i < |s| ==> IsHexDigit(s[i])
  {
    if s == "" then 0 else HexValue(s[..|s| - 1]) * 16 + HexDigit(s[|s| - 1])
  }

  /** A hexadecimal number of 64 bits, as the standard library reads it. */
  function FromHex(s: string): Option<nat> {
    var digits := if s != "" && s[0] == '+' then s[1..] else s;
    if !IsHex(digits) || HexValue(digits) >= 0x1_0000_0000_0000_0000 then None else Some(HexValue(digits))
  }

  function BeforeSemicolon(s: string): string {
    if s == "" || s[0] == ';' then "" else [s[0]] + BeforeSemicolon(s[1..])
  }

  function TrimStart(s: string): string {
    if s != "" && IsWhitespace(s[0]) then TrimStart(s[1..]) else s
  }

  function TrimEnd(s: string): string {
    if s != "" && IsWhitespace(s[|s| - 1]) then TrimEnd(s[..|s| - 1]) else s
  }

  // ---- lines ----

  /** Where the line ends that has no line feed before `k`. */
  function LineFrom(rest: seq<byte>, k: nat): (n: nat)
    requires k <= |rest|
    ensures k <= n <= |rest|
    decreases |rest| - k
  {
    if k == |rest| then k else if rest[k] == LF then k + 1 else LineFrom(rest, k + 1)
  }

  /** Bytes up to and including the first line feed. */
  function LineLength(rest: seq<byte>): (n: nat)
    ensures n <= |rest|
  {
    LineFrom(rest, 0)
  }

  /** What one bounded read of a line returns. */
  function RawLine(rest: seq<byte>): (line: seq<byte>)
    ensures |line| <= |rest|
  {
    var n := LineLength(rest);
    rest[..if n <= MAX_HEADER + 1 then n else MAX_HEADER + 1]
  }

  predicate EndsWith(bs: seq<byte>, tail: seq<byte>) {
    |bs| >= |tail| && bs[|bs| - |tail|..] == tail
  }

  /** Where the first CRLF from `k` on starts. */
  function CrlfFrom(rest: seq<byte>, k: nat): (at: Option<nat>)
    ensures at.Some? ==> at.value + 2 <= |rest|
    decreases |rest| - k
  {
    if k + 2 > |rest| then None
    else if rest[k] == CR && rest[k + 1] == LF then Some(k)
    else CrlfFrom(rest, k + 1)
  }

  function CrlfAt(rest: seq<byte>): (at: Option<nat>)
    ensures at.Some? ==> at.value + 2 <= |rest|
  {
    CrlfFrom(rest, 0)
  }

  // ---- what the decoders make of a size line ----

  /** The size in the bytes of a size line. */
  type SizeOf = seq<byte> -> Option<nat>

  /** The streaming decoder looks at the line with its end, and trims it. */
  function EntitySize(u: Utf8, line: seq<byte>): Option<nat> {
    match u(line)
    case None => None
    case Some(text) => FromHex(BeforeSemicolon(TrimEnd(TrimStart(text))))
  }

  function EntitySizes(u: Utf8): SizeOf {
    line => EntitySize(u, line)
  }

  /** The decoder in memory looks at the line without its end, as it is. */
  function TransferSize(u: Utf8, line: seq<byte>): Option<nat> {
    match u(line)
    case None => None
    case Some(text) => FromHex(BeforeSemicolon(text))
  }

  function TransferSizes(u: Utf8): SizeOf {
    line => TransferSize(u, line)
  }

  // ---- the streaming decoder ----

  predicate TrailerOk(rest: seq<byte>, seen: nat)
    decreases |rest|
  {
    var line := RawLine(rest);
    seen + |line| <= MAX_HEADER && EndsWith(line, CRLF) &&
    if line == CRLF then rest[2..] == [] else TrailerOk(rest[|line|..], seen + |line|)
  }

  /** What one turn of a decoder finds: the end of the body, or data and what follows it. */
  datatype Turn = Last | Data(data: seq<byte>, next: seq<byte>)

  /** A turn, given what is left to read and how many bytes are decoded so far. */
  type TurnOf = (seq<byte>, nat) -> Result<Turn, Error>

  ghost predicate Shrinks(turn: TurnOf) {
    forall rest, have: nat :: turn(rest, have).Ok? && turn(rest, have).value.Data? ==> |turn(rest, have).value.next| < |rest|
  }

  /** The data of a chunk once its size is known. */
  function TakeData(after: seq<byte>, size: nat): (r: Result<Turn, Error>)
    ensures r.Ok? ==> r.value.Data? && |r.value.data| == size && |r.value.next| < |after|
  {
    if size > |after| then Err(Truncated)
    else if !(CRLF <= after[size..]) then Err(BadDelimiter)
    else Ok(Data(after[..size], after[size + 2..]))
  }

  function EntityTurn(sizeOf: SizeOf, rest: seq<byte>, total: nat): (r: Result<Turn, Error>)
    ensures r.Ok? && r.value.Data? ==> |r.value.next| < |rest|
  {
    var line := RawLine(rest);
    if |line| > MAX_HEADER || !EndsWith(line, CRLF) then Err(BadSizeLine)
    else
      var size := sizeOf(line);
      var after := rest[|line|..];
      if size.None? then Err(BadSize)
      else if size.value == 0 then (if TrailerOk(after, 0) then Ok(Last) else Err(BadTrailer))
      else if total + size.value > MAX_BODY then Err(TooLarge)
      else TakeData(after, size.value)
  }

  function EntityTurns(u: Utf8): (turn: TurnOf)
    ensures Shrinks(turn)
  {
    (rest, total: nat) => EntityTurn(EntitySizes(u), rest, total)
  }

  /** The bytes the streaming decoder hashes: those so far and those from `rest` on. */
  function Entity(turn: TurnOf, rest: seq<byte>, chunks: nat, hashed: seq<byte>): Result<seq<byte>, Error>
    requires Shrinks(turn)
    decreases |rest|
  {
    if chunks + 1 > MAX_CHUNKS then Err(TooManyChunks)
    else
      match turn(rest, |hashed|)
      case Err(e) => Err(e)
      case Ok(Last) => Ok(hashed)
      case Ok(Data(data, next)) => Entity(turn, next, chunks + 1, hashed + data)
  }

  // ---- the decoder in memory ----

  function TransferTurn(sizeOf: SizeOf, rest: seq<byte>, have: nat): (r: Result<Turn, Error>)
    requires have <= MAX_RECORD
    ensures r.Ok? && r.value.Data? ==> |r.value.next| < |rest| && have + |r.value.data| <= MAX_RECORD
  {
    var at := CrlfAt(rest);
    if at.None? then Err(BadSizeLine)
    else
      var size := sizeOf(rest[..at.value]);
      var after := rest[at.value + 2..];
      if size.None? then Err(BadSize)
      else if size.value == 0 then
        (if after == CRLF || (EndsWith(after, CRLF + CRLF) && |after| <= 65536) then Ok(Last) else Err(BadTrailer))
      else if size.value > MAX_RECORD - have then Err(Truncated)
      else TakeData(after, size.value)
  }

  function TransferTurns(u: Utf8): (turn: TurnOf)
    ensures Shrinks(turn)
  {
    (rest, have: nat) => if have <= MAX_RECORD then TransferTurn(TransferSizes(u), rest, have) else Err(Truncated)
  }

  /** The bytes it decodes: those so far and those from `rest` on. */
  function Transfer(turn: TurnOf, rest: seq<byte>, decoded: seq<byte>): Result<seq<byte>, Error>
    requires Shrinks(turn)
    decreases |rest|
  {
    match turn(rest, |decoded|)
    case Err(e) => Err(e)
    case Ok(Last) => Ok(decoded)
    case Ok(Data(data, next)) => Transfer(turn, next, decoded + data)
  }

  // ---- the program's loops ----

  /** One turn of the decoder on the bytes from its cursor on. */
  method TransferChunk(sizeOf: SizeOf, bytes: seq<byte>, have: nat) returns (r: Result<Turn, Error>)
    requires have <= MAX_RECORD
    ensures r == TransferTurn(sizeOf, bytes, have)
  {
    var at := CrlfAt(bytes);
    if at.None? {
      return Err(BadSizeLine);
    }
    var size := sizeOf(bytes[..at.value]);
    if size.None? {
      return Err(BadSize);
    }
    var tail := bytes[at.value + 2..];
    if size.value == 0 {
      if tail != CRLF && (!EndsWith(tail, CRLF + CRLF) || |tail| > 65536) {
        return Err(BadTrailer);
      }
      return Ok(Last);
    }
    if !(size.value <= |tail| && size.value <= MAX_RECORD - have) {
      return Err(Truncated);
    }
    if !(CRLF <= tail[size.value..]) {
      return Err(BadDelimiter);
    }
    return Ok(Data(tail[..size.value], tail[size.value + 2..]));
  }

  method TransferPayload(u: Utf8, payload: seq<byte>) returns (r: Result<seq<byte>, Error>)
    ensures r == Transfer(TransferTurns(u), payload, [])
  {
    var bytes, decoded: seq<byte> := payload, [];
    while true
      invariant |decoded| <= MAX_RECORD
      invariant Transfer(TransferTurns(u), bytes, decoded) == Transfer(TransferTurns(u), payload, [])
      decreases |bytes|
    {
      var turn := TransferChunk(TransferSizes(u), bytes, |decoded|);
      if turn.Err? {
        return Err(turn.error);
      }
      if turn.value.Last? {
        return Ok(decoded);
      }
      decoded := decoded + turn.value.data;
      bytes := turn.value.next;
    }
  }

  method ReadTrailer(start: seq<byte>) returns (ok: bool)
    ensures ok == TrailerOk(start, 0)
  {
    var input := start;
    var trailer: nat := 0;
    while true
      invariant TrailerOk(input, trailer) == TrailerOk(start, 0)
      decreases |input|
    {
      var line := RawLine(input);
      trailer := trailer + |line|;
      if trailer > MAX_HEADER || !EndsWith(line, CRLF) {
        return false;
      }
      input := input[|line|..];
      if line == CRLF {
        return input == [];
      }
    }
  }

  /** One turn of the scanner on what is left of its input. */
  method EntityChunk(sizeOf: SizeOf, input: seq<byte>, total: nat) returns (r: Result<Turn, Error>)
    ensures r == EntityTurn(sizeOf, input, total)
  {
    var line := RawLine(input);
    if |line| > MAX_HEADER || !EndsWith(line, CRLF) {
      return Err(BadSizeLine);
    }
    var size := sizeOf(line);
    if size.None? {
      return Err(BadSize);
    }
    var after := input[|line|..];
    if size.value == 0 {
      var ok := ReadTrailer(after);
      return if ok then Ok(Last) else Err(BadTrailer);
    }
    if total + size.value > MAX_BODY {
      return Err(TooLarge);
    }
    if size.value > |after| {
      return Err(Truncated);
    }
    if !(CRLF <= after[size.value..]) {
      return Err(BadDelimiter);
    }
    return Ok(Data(after[..size.value], after[size.value + 2..]));
  }

  /** The bytes whose digest the scanner records. */
  method EntityHash(u: Utf8, body: seq<byte>) returns (r: Result<seq<byte>, Error>)
    ensures r == Entity(EntityTurns(u), body, 0, [])
  {
    var input, hashed: seq<byte> := body, [];
    var chunks: nat := 0;
    while true
      invariant Entity(EntityTurns(u), input, chunks, hashed) == Entity(EntityTurns(u), body, 0, [])
      decreases |input|
    {
      chunks := chunks + 1;
      if chunks > MAX_CHUNKS {
        return Err(TooManyChunks);
      }
      var turn := EntityChunk(EntitySizes(u), input, |hashed|);
      if turn.Err? {
        return Err(turn.error);
      }
      if turn.value.Last? {
        return Ok(hashed);
      }
      hashed := hashed + turn.value.data;
      input := turn.value.next;
    }
  }
}
