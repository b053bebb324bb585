/** The streaming and the in-memory decoder of chunked bodies agree, exactly when no size field
    is padded with whitespace and the body fits in memory; and any chunking of a body,
    with any extensions and trailers, decodes to that body. */
module ChunkedAgree {
  import opened Wrappers
  import opened Characters
  import opened Chunked

  // ---- one size line ----

  /** Whitespace before the size, or after it when nothing else follows. */
  predicate Padded(text: string) {
    text != "" && (IsWhitespace(text[0]) || (';' !in text && IsWhitespace(text[|text| - 1])))
  }

  lemma {:induction false} NoSpaceInHex(s: string, i: nat)
    requires FromHex(s).Some? && i < |s|
    ensures !IsWhitespace(s[i])
  {
    if s[0] == '+' && i > 0 {
      assert s[1..][i - 1] == s[i];
    }
  }

  lemma {:induction false} PrefixOfTrimmed(s: string)
    requires s == "" || !IsWhitespace(s[0])
    ensures TrimStart(s + "\r\n") == s + "\r\n" || s == ""
    ensures s == "" ==> TrimEnd(TrimStart(s + "\r\n")) == ""
    ensures TrimEnd(s + "\r\n") == TrimEnd(s)
  {
    var t := s + "\r\n";
    assert t[..|t| - 1] == s + "\r";
    assert (s + "\r")[..|s|] == s;
    if s == "" {
      assert t == "\r\n" && t[1..] == "\n" && "\n"[1..] == "";
    }
  }

  lemma {:induction false} TrimEndKeeps(s: string)
    ensures TrimEnd(s) <= s
    ensures forall i :: |TrimEnd(s)| <= i < |s| ==> IsWhitespace(s[i])
    ensures TrimEnd(s) == s <==> s == "" || !IsWhitespace(s[|s| - 1])
  {
    if s != "" && IsWhitespace(s[|s| - 1]) {
      TrimEndKeeps(s[..|s| - 1]);
    }
  }

  lemma {:induction false} FieldPrefix(s: string)
    ensures BeforeSemicolon(s) <= s && ';' !in BeforeSemicolon(s)
    ensures BeforeSemicolon(s) == s <==> ';' !in s
  {
    if s != "" && s[0] != ';' {
      FieldPrefix(s[1..]);
      assert s == [s[0]] + s[1..];
    }
  }

  lemma {:induction false} SemicolonPrefix(a: string, s: string)
    requires a <= s && ';' in a
    ensures BeforeSemicolon(a) == BeforeSemicolon(s)
  {
    if a[0] != ';' {
      assert a == [a[0]] + a[1..];
      SemicolonPrefix(a[1..], s[1..]);
    }
  }

  lemma {:induction false} SemicolonIn(s: string)
    requires ';' in s
    ensures |BeforeSemicolon(s)| < |s| && s[|BeforeSemicolon(s)|] == ';'
  {
    if s[0] != ';' {
      assert s == [s[0]] + s[1..];
      SemicolonIn(s[1..]);
    }
  }

  /** Without padding, trimming the line leaves the size field as it is. */
  lemma {:induction false} UnpaddedField(text: string)
    requires !Padded(text)
    ensures BeforeSemicolon(TrimEnd(TrimStart(text + "\r\n"))) == BeforeSemicolon(text)
  {
    PrefixOfTrimmed(text);
    if text != "" {
      TrimEndKeeps(text);
      var t := TrimEnd(text);
      if ';' in text {
        FieldPrefix(text);
        SemicolonIn(text);
        var at := |BeforeSemicolon(text)|;
        assert !IsWhitespace(';');
        assert at < |t| && t[at] == ';';
        SemicolonPrefix(t, text);
      }
    }
  }

  /** With padding, the untrimmed field is no number. */
  lemma {:induction false} PaddedField(text: string)
    requires Padded(text)
    ensures FromHex(BeforeSemicolon(text)).None?
  {
    var field := BeforeSemicolon(text);
    FieldPrefix(text);
    if FromHex(field).Some? {
      if IsWhitespace(text[0]) {
        assert field != "" && field[0] == text[0];
        NoSpaceInHex(field, 0);
      } else {
        assert field == text;
        NoSpaceInHex(field, |field| - 1);
      }
    }
  }

  /** The text of a size line, without its end, is padded. */
  predicate PaddedLine(u: Utf8, line: seq<byte>) {
    EndsWith(line, CRLF) && u(line[..|line| - 2]).Some? && Padded(u(line[..|line| - 2]).value)
  }

  /** On a line that has a size for the one decoder, the other finds none if the line is bad,
      and the same size if it is not. */
  ghost predicate Differ(e: SizeOf, t: SizeOf, bad: seq<byte> -> bool) {
    forall line :: EndsWith(line, CRLF) && e(line).Some? ==>
      t(line[..|line| - 2]) == if bad(line) then None else e(line)
  }

  lemma {:induction false} SizeLine(u: Utf8, line: seq<byte>)
    requires IsUtf8(u) && EndsWith(line, CRLF) && EntitySize(u, line).Some?
    ensures TransferSize(u, line[..|line| - 2]) == if PaddedLine(u, line) then None else EntitySize(u, line)
  {
    var head := line[..|line| - 2];
    assert line == head + CRLF;
    var text := u(head).value;
    CrlfText(u);
    assert u(line) == Some(text + "\r\n");
    if Padded(text) {
      PaddedField(text);
    } else {
      UnpaddedField(text);
    }
  }

  lemma {:induction false} SizesDiffer(u: Utf8)
    requires IsUtf8(u)
    ensures Differ(EntitySizes(u), TransferSizes(u), line => PaddedLine(u, line))
  {
    forall line | EndsWith(line, CRLF) && EntitySizes(u)(line).Some?
      ensures TransferSize(u, line[..|line| - 2]) == if PaddedLine(u, line) then None else EntitySize(u, line)
    {
      SizeLine(u, line);
    }
  }

  lemma {:induction false} CrlfText(u: Utf8)
    requires IsUtf8(u)
    ensures u(CRLF) == Some("\r\n")
  {
    assert IsAscii("\r\n") && Ascii("\r\n") == CRLF;
  }

  // ---- finding the line ----

  lemma {:induction false} CrlfIs(rest: seq<byte>, k: nat, n: nat)
    requires k <= n && n + 2 <= |rest| && rest[n] == CR && rest[n + 1] == LF
    requires forall i :: k <= i <= n ==> rest[i] != LF
    ensures CrlfFrom(rest, k) == Some(n)
    decreases n - k
  {
    if k < n {
      CrlfIs(rest, k + 1, n);
    }
  }

  lemma {:induction false} LineHas(rest: seq<byte>, k: nat)
    requires k <= |rest|
    ensures forall i :: k <= i < LineFrom(rest, k) - 1 ==> rest[i] != LF
    decreases |rest| - k
  {
    if k < |rest| && rest[k] != LF {
      LineHas(rest, k + 1);
    }
  }

  /** Both decoders see the same size line. */
  lemma {:induction false} SameLine(rest: seq<byte>)
    requires |RawLine(rest)| <= MAX_HEADER && EndsWith(RawLine(rest), CRLF)
    ensures CrlfAt(rest) == Some(|RawLine(rest)| - 2)
  {
    var line := RawLine(rest);
    var n := |line|;
    LineHas(rest, 0);
    assert line[n - 2..][0] == rest[n - 2] && line[n - 2..][1] == rest[n - 1];
    CrlfIs(rest, 0, n - 2);
  }

  // ---- trailers ----

  lemma {:induction false} TailEnds(line: seq<byte>, after: seq<byte>)
    requires EndsWith(line, CRLF) && (after == CRLF || EndsWith(after, CRLF + CRLF))
    ensures EndsWith(line + after, CRLF + CRLF)
  {
    var rest := line + after;
    if after == CRLF {
      assert rest[|rest| - 4..] == line[|line| - 2..] + CRLF;
    } else {
      assert rest[|rest| - 4..] == after[|after| - 4..];
    }
  }

  lemma {:induction false} LineFirst(rest: seq<byte>)
    ensures rest == RawLine(rest) + rest[|RawLine(rest)|..]
  {
  }

  lemma {:induction false} TrailerAccepted(rest: seq<byte>, seen: nat)
    requires TrailerOk(rest, seen)
    ensures seen + |rest| <= MAX_HEADER
    ensures rest == CRLF || EndsWith(rest, CRLF + CRLF)
    decreases |rest|
  {
    var line := RawLine(rest);
    var after := rest[|line|..];
    LineFirst(rest);
    if line != CRLF {
      TrailerAccepted(after, seen + |line|);
      TailEnds(line, after);
    }
  }

  // ---- agreement ----

  /** Somewhere from `rest` on the streaming decoder reads a bad size line. */
  predicate HasBad(turn: TurnOf, bad: seq<byte> -> bool, rest: seq<byte>, hashed: nat)
    requires Shrinks(turn)
    decreases |rest|
  {
    bad(rest) ||
    match turn(rest, hashed)
    case Ok(Data(data, next)) => HasBad(turn, bad, next, hashed + |data|)
    case _ => false
  }

  /** The size each decoder finds at the start of the same bytes. */
  lemma {:induction false} SizesAgree(e: SizeOf, t: SizeOf, bad: seq<byte> -> bool, rest: seq<byte>)
    requires Differ(e, t, bad) && EndsWith(RawLine(rest), CRLF) && e(RawLine(rest)).Some?
    ensures |RawLine(rest)| >= 2
    ensures t(rest[..|RawLine(rest)| - 2]) == if bad(RawLine(rest)) then None else e(RawLine(rest))
  {
    var line := RawLine(rest);
    assert rest[..|line| - 2] == line[..|line| - 2];
  }

  lemma {:induction false} SameAfter(e: SizeOf, t: SizeOf, bad: bool, rest: seq<byte>, have: nat)
    requires have <= MAX_RECORD && EntityTurn(e, rest, have).Ok? && CrlfAt(rest) == Some(|RawLine(rest)| - 2)
    requires t(rest[..|RawLine(rest)| - 2]) == if bad then None else e(RawLine(rest))
    ensures SameTurn(bad, EntityTurn(e, rest, have), TransferTurn(t, rest, have), have)
  {
    var line := RawLine(rest);
    if e(line) == Some(0) {
      TrailerAccepted(rest[|line|..], 0);
    }
  }

  /** One turn of the scanner, and what the other decoder makes of the same bytes. */
  lemma {:induction false} TurnsAgree(e: SizeOf, t: SizeOf, bad: seq<byte> -> bool, rest: seq<byte>, have: nat)
    requires Differ(e, t, bad) && have <= MAX_RECORD
    ensures SameTurn(bad(RawLine(rest)), EntityTurn(e, rest, have), TransferTurn(t, rest, have), have)
  {
    if EntityTurn(e, rest, have).Ok? {
      SameLine(rest);
      SizesAgree(e, t, bad, rest);
      SameAfter(e, t, bad(RawLine(rest)), rest, have);
    }
  }

  /** When the one decoder takes a turn, the other takes the same one, unless the size line
      is bad or the data no longer fits. */
  predicate SameTurn(bad: bool, e: Result<Turn, Error>, t: Result<Turn, Error>, have: nat) {
    e.Ok? ==>
      if bad || (e.value.Data? && have + |e.value.data| > MAX_RECORD) then t.Err? else t == e
  }

  ghost predicate TurnsDiffer(e: TurnOf, t: TurnOf, bad: seq<byte> -> bool) {
    forall rest, have: nat :: have <= MAX_RECORD ==> SameTurn(bad(rest), e(rest, have), t(rest, have), have)
  }

  predicate PaddedNext(u: Utf8, rest: seq<byte>) {
    PaddedLine(u, RawLine(rest))
  }

  lemma {:induction false} DecodersSameTurn(u: Utf8, rest: seq<byte>, have: nat)
    requires IsUtf8(u) && have <= MAX_RECORD
    ensures SameTurn(PaddedNext(u, rest), EntityTurns(u)(rest, have), TransferTurns(u)(rest, have), have)
  {
    SizesDiffer(u);
    TurnsAgree(EntitySizes(u), TransferSizes(u), line => PaddedLine(u, line), rest, have);
  }

  lemma {:induction false} DecodersTurn(u: Utf8)
    requires IsUtf8(u)
    ensures TurnsDiffer(EntityTurns(u), TransferTurns(u), rest => PaddedNext(u, rest))
  {
    forall rest, have: nat | have <= MAX_RECORD
      ensures SameTurn(PaddedNext(u, rest), EntityTurns(u)(rest, have), TransferTurns(u)(rest, have), have)
    {
      DecodersSameTurn(u, rest, have);
    }
  }

  lemma {:induction false} EntityGrows(e: TurnOf, rest: seq<byte>, chunks: nat, hashed: seq<byte>)
    requires Shrinks(e) && Entity(e, rest, chunks, hashed).Ok?
    ensures |hashed| <= |Entity(e, rest, chunks, hashed).value|
    decreases |rest|
  {
    var turn := e(rest, |hashed|).value;
    if turn.Data? {
      EntityGrows(e, turn.next, chunks + 1, hashed + turn.data);
    }
  }

  lemma {:induction false} AgreeFrom(e: TurnOf, t: TurnOf, bad: seq<byte> -> bool,
                                     rest: seq<byte>, chunks: nat, hashed: seq<byte>)
    requires Shrinks(e) && Shrinks(t) && TurnsDiffer(e, t, bad)
    requires |hashed| <= MAX_RECORD && Entity(e, rest, chunks, hashed).Ok?
    ensures Transfer(t, rest, hashed).Ok? <==>
              !HasBad(e, bad, rest, |hashed|) && |Entity(e, rest, chunks, hashed).value| <= MAX_RECORD
    ensures Transfer(t, rest, hashed).Ok? ==> Transfer(t, rest, hashed) == Entity(e, rest, chunks, hashed)
    decreases |rest|
  {
    var turn := e(rest, |hashed|).value;
    if turn.Data? {
      EntityGrows(e, turn.next, chunks + 1, hashed + turn.data);
      if |hashed| + |turn.data| <= MAX_RECORD {
        AgreeFrom(e, t, bad, turn.next, chunks + 1, hashed + turn.data);
      }
    }
  }

  /** Some size line of the body is padded with whitespace. */
  ghost predicate HasPadding(u: Utf8, body: seq<byte>) {
    HasBad(EntityTurns(u), rest => PaddedNext(u, rest), body, 0)
  }

  /** For every body the scanner accepts: the payload decodes exactly when no size field is
      padded and the body fits in memory, and then to the very bytes that were hashed. */
  lemma {:induction false} DecodersAgree(u: Utf8, body: seq<byte>)
    requires IsUtf8(u) && Entity(EntityTurns(u), body, 0, []).Ok?
    ensures Transfer(TransferTurns(u), body, []).Ok? <==>
              !HasPadding(u, body) && |Entity(EntityTurns(u), body, 0, []).value| <= MAX_RECORD
    ensures Transfer(TransferTurns(u), body, []).Ok? ==>
              Transfer(TransferTurns(u), body, []) == Entity(EntityTurns(u), body, 0, [])
  {
    DecodersTurn(u);
    AgreeFrom(EntityTurns(u), TransferTurns(u), rest => PaddedNext(u, rest), body, 0, []);
  }

  // ---- every chunking decodes ----

  /** A chunk in transit: a spelling of its size, an extension, and its data. */
  datatype Chunk = Chunk(size: string, extension: seq<byte>, data: seq<byte>)

  datatype Message = Message(chunks: seq<Chunk>, last: Chunk, trailer: seq<seq<byte>>)

  ghost predicate IsChunk(u: Utf8, c: Chunk) {
    IsHex(c.size) && HexValue(c.size) == |c.data| && |c.data| <= MAX_BODY &&
    IsExtension(u, c.extension) && LF !in c.extension &&
    |c.size| + |c.extension| + 2 <= MAX_HEADER
  }

  /** Nothing, or a semicolon and any text. */
  ghost predicate IsExtension(u: Utf8, extension: seq<byte>) {
    extension == [] || (extension[0] == ';' as int && u(extension[1..]).Some?)
  }

  function SizeBytes(c: Chunk): seq<byte>
    requires IsHex(c.size)
  {
    Ascii(c.size) + c.extension + CRLF
  }

  ghost predicate IsMessage(u: Utf8, m: Message) {
    (forall k :: 0 <= k < |m.chunks| ==> IsChunk(u, m.chunks[k]) && m.chunks[k].data != []) &&
    IsChunk(u, m.last) && m.last.data == [] &&
    IsTrailer(m.trailer)
  }

  function TrailerBytes(lines: seq<seq<byte>>): (bs: seq<byte>)
    ensures |bs| >= 2
  {
    if lines == [] then CRLF else lines[0] + CRLF + TrailerBytes(lines[1..])
  }

  function Encode(m: Message): seq<byte>
    requires forall k :: 0 <= k < |m.chunks| ==> IsHex(m.chunks[k].size)
    requires IsHex(m.last.size)
    decreases |m.chunks|
  {
    if m.chunks == [] then SizeBytes(m.last) + TrailerBytes(m.trailer)
    else SizeBytes(m.chunks[0]) + (m.chunks[0].data + (CRLF + Encode(m.(chunks := m.chunks[1..]))))
  }

  function Body(chunks: seq<Chunk>): seq<byte> {
    if chunks == [] then [] else chunks[0].data + Body(chunks[1..])
  }

  lemma {:induction false} LineIs(rest: seq<byte>, k: nat, n: nat)
    requires k <= n < |rest| && rest[n] == LF && forall i :: k <= i < n ==> rest[i] != LF
    ensures LineFrom(rest, k) == n + 1
    decreases n - k
  {
    if k < n {
      LineIs(rest, k + 1, n);
    }
  }

  lemma {:induction false} LineRead(line: seq<byte>, rest: seq<byte>)
    requires LF !in line && |line| + 2 <= MAX_HEADER
    ensures RawLine(line + CRLF + rest) == line + CRLF && EndsWith(line + CRLF, CRLF)
  {
    var all := line + CRLF + rest;
    assert forall i :: 0 <= i < |line| ==> all[i] == line[i] && line[i] in line;
    LineIs(all, 0, |line| + 1);
    assert all[..|line| + 2] == line + CRLF;
    assert (line + CRLF)[|line|..] == CRLF;
  }

  /** Size and extension as text. */
  lemma {:induction false} FieldText(size: string, extension: string)
    requires IsHex(size) && (extension == "" || extension[0] == ';')
    ensures !Padded(size + extension) && BeforeSemicolon(size + extension) == size
  {
    HexAscii(size);
    var text := size + extension;
    assert ';' !in size;
    FieldOf(size, extension);
    assert text[0] == size[0];
    if extension == "" {
      assert text == size;
    } else {
      assert text[|size|] == ';' && ';' in text;
    }
  }

  lemma {:induction false} FromHexDigits(s: string)
    requires IsHex(s) && HexValue(s) < 0x1_0000_0000_0000_0000
    ensures FromHex(s) == Some(HexValue(s))
  {
    assert IsHexDigit(s[0]) && s[0] != '+';
  }

  /** A size line as the streaming decoder reads it. */
  lemma {:induction false} SizeRead(u: Utf8, c: Chunk)
    requires IsUtf8(u) && IsChunk(u, c)
    ensures EntitySize(u, SizeBytes(c)) == Some(|c.data|) && !PaddedLine(u, SizeBytes(c))
  {
    HexAscii(c.size);
    var head := Ascii(c.size) + c.extension;
    ExtensionText(u, c.extension);
    var text := c.size + u(c.extension).value;
    assert u(head) == Some(text);
    assert SizeBytes(c) == head + CRLF && SizeBytes(c)[..|SizeBytes(c)| - 2] == head;
    CrlfText(u);
    assert u(SizeBytes(c)) == Some(text + "\r\n");
    FieldText(c.size, u(c.extension).value);
    UnpaddedField(text);
    FromHexDigits(c.size);
  }

  lemma {:induction false} SizeLineRead(u: Utf8, c: Chunk, rest: seq<byte>)
    requires IsChunk(u, c)
    ensures RawLine(SizeBytes(c) + rest) == SizeBytes(c) && EndsWith(SizeBytes(c), CRLF)
  {
    HexAscii(c.size);
    LineRead(Ascii(c.size) + c.extension, rest);
  }

  lemma {:induction false} HexAscii(s: string)
    requires IsHex(s)
    ensures IsAscii(s) && LF !in Ascii(s)
    ensures forall i :: 0 <= i < |s| ==> !IsWhitespace(s[i]) && s[i] != ';'
  {
    forall i | 0 <= i < |s|
      ensures s[i] as int < 128 && s[i] as int != 10 && !IsWhitespace(s[i]) && s[i] != ';'
    {
      assert IsHexDigit(s[i]);
    }
  }

  lemma {:induction false} ExtensionText(u: Utf8, extension: seq<byte>)
    requires IsUtf8(u) && IsExtension(u, extension)
    ensures u(extension).Some? && (u(extension).value == "" || u(extension).value[0] == ';')
    ensures extension == [] <==> u(extension).value == ""
  {
    assert IsAscii("") && Ascii("") == [];
    assert IsAscii(";") && Ascii(";") == [';' as int];
    if extension != [] {
      assert extension == Ascii(";") + extension[1..];
    }
  }

  lemma {:induction false} FieldOf(size: string, extension: string)
    requires ';' !in size && (extension == "" || extension[0] == ';')
    ensures BeforeSemicolon(size + extension) == size
  {
    if size == "" {
      assert size + extension == extension;
    } else {
      assert (size + extension)[1..] == size[1..] + extension;
      FieldOf(size[1..], extension);
      assert [size[0]] + size[1..] == size;
    }
  }

  lemma {:induction false} TrailerRead(lines: seq<seq<byte>>, seen: nat)
    requires forall k :: 0 <= k < |lines| ==> LF !in lines[k] && lines[k] != []
    requires seen + |TrailerBytes(lines)| <= MAX_HEADER
    ensures TrailerOk(TrailerBytes(lines), seen)
  {
    var all := TrailerBytes(lines);
    if lines == [] {
      LineRead([], []);
      assert [] + CRLF + [] == CRLF == [] + CRLF;
    } else {
      var after := TrailerBytes(lines[1..]);
      LineRead(lines[0], after);
      assert all[|lines[0]| + 2..] == after;
      assert |lines[0] + CRLF| > 2;
      TrailerRead(lines[1..], seen + |lines[0]| + 2);
    }
  }

  ghost predicate IsTrailer(lines: seq<seq<byte>>) {
    (forall k :: 0 <= k < |lines| ==> LF !in lines[k] && lines[k] != []) && |TrailerBytes(lines)| <= MAX_HEADER
  }

  lemma {:induction false} LastTurn(u: Utf8, last: Chunk, trailer: seq<seq<byte>>, have: nat)
    requires IsUtf8(u) && IsChunk(u, last) && last.data == [] && IsTrailer(trailer)
    ensures var all := SizeBytes(last) + TrailerBytes(trailer);
            EntityTurns(u)(all, have) == Ok(Last) && !PaddedNext(u, all)
  {
    var after := TrailerBytes(trailer);
    SizeRead(u, last);
    SizeLineRead(u, last, after);
    TrailerRead(trailer, 0);
    LastTurnOf(EntitySizes(u), SizeBytes(last), after, have);
  }

  lemma {:induction false} LastTurnOf(e: SizeOf, line: seq<byte>, after: seq<byte>, have: nat)
    requires RawLine(line + after) == line && |line| <= MAX_HEADER && EndsWith(line, CRLF)
    requires e(line) == Some(0) && TrailerOk(after, 0)
    ensures EntityTurn(e, line + after, have) == Ok(Last)
  {
    assert (line + after)[|line|..] == after;
  }

  lemma {:induction false} DataTurn(u: Utf8, c: Chunk, next: seq<byte>, have: nat)
    requires IsUtf8(u) && IsChunk(u, c) && c.data != [] && have + |c.data| <= MAX_BODY
    ensures var all := SizeBytes(c) + (c.data + (CRLF + next));
            EntityTurns(u)(all, have) == Ok(Data(c.data, next)) && !PaddedNext(u, all)
  {
    SizeRead(u, c);
    SizeLineRead(u, c, c.data + (CRLF + next));
    DataTurnOf(EntitySizes(u), SizeBytes(c), c.data, next, have);
  }

  lemma {:induction false} DataTurnOf(e: SizeOf, line: seq<byte>, data: seq<byte>, next: seq<byte>, have: nat)
    requires RawLine(line + (data + (CRLF + next))) == line && |line| <= MAX_HEADER && EndsWith(line, CRLF)
    requires data != [] && e(line) == Some(|data|) && have + |data| <= MAX_BODY
    ensures EntityTurn(e, line + (data + (CRLF + next)), have) == Ok(Data(data, next))
  {
    var after := data + (CRLF + next);
    assert (line + after)[|line|..] == after;
    assert after[..|data|] == data && after[|data|..] == CRLF + next && after[|data| + 2..] == next;
  }

  /** The turns of the streaming decoder over a message. */
  ghost predicate Turned(turn: TurnOf, bad: seq<byte> -> bool, m: Message, have: nat)
    requires forall k :: 0 <= k < |m.chunks| ==> IsHex(m.chunks[k].size)
    requires IsHex(m.last.size)
    decreases |m.chunks|
  {
    !bad(Encode(m)) &&
    if m.chunks == [] then turn(Encode(m), have) == Ok(Last)
    else
      var rest := m.(chunks := m.chunks[1..]);
      turn(Encode(m), have) == Ok(Data(m.chunks[0].data, Encode(rest))) &&
      Turned(turn, bad, rest, have + |m.chunks[0].data|)
  }

  /** The decoder reads a chunk as its data, and the last chunk with its trailer as the end. */
  ghost predicate ReadsChunks(u: Utf8, turn: TurnOf, bad: seq<byte> -> bool) {
    (forall c, next, have: nat :: IsChunk(u, c) && c.data != [] && have + |c.data| <= MAX_BODY ==>
       var all := SizeBytes(c) + (c.data + (CRLF + next));
       turn(all, have) == Ok(Data(c.data, next)) && !bad(all)) &&
    forall last, trailer, have: nat :: IsChunk(u, last) && last.data == [] && IsTrailer(trailer) ==>
      var all := SizeBytes(last) + TrailerBytes(trailer);
      turn(all, have) == Ok(Last) && !bad(all)
  }

  lemma {:induction false} EntityReadsChunks(u: Utf8)
    requires IsUtf8(u)
    ensures ReadsChunks(u, EntityTurns(u), rest => PaddedNext(u, rest))
  {
    forall c, next, have: nat | IsChunk(u, c) && c.data != [] && have + |c.data| <= MAX_BODY
      ensures var all := SizeBytes(c) + (c.data + (CRLF + next));
              EntityTurns(u)(all, have) == Ok(Data(c.data, next)) && !PaddedNext(u, all)
    {
      DataTurn(u, c, next, have);
    }
    forall last, trailer, have: nat | IsChunk(u, last) && last.data == [] && IsTrailer(trailer)
      ensures var all := SizeBytes(last) + TrailerBytes(trailer);
              EntityTurns(u)(all, have) == Ok(Last) && !PaddedNext(u, all)
    {
      LastTurn(u, last, trailer, have);
    }
  }

  lemma {:induction false} MessageTurned(u: Utf8, turn: TurnOf, bad: seq<byte> -> bool, m: Message, have: nat)
    requires ReadsChunks(u, turn, bad) && IsMessage(u, m) && have + |Body(m.chunks)| <= MAX_BODY
    ensures Turned(turn, bad, m, have)
    decreases |m.chunks|
  {
    if m.chunks == [] {
      assert turn(SizeBytes(m.last) + TrailerBytes(m.trailer), have) == Ok(Last);
    } else {
      var rest := m.(chunks := m.chunks[1..]);
      assert IsMessage(u, rest);
      var c := m.chunks[0];
      assert IsChunk(u, c);
      assert turn(SizeBytes(c) + (c.data + (CRLF + Encode(rest))), have) == Ok(Data(c.data, Encode(rest)));
      MessageTurned(u, turn, bad, rest, have + |m.chunks[0].data|);
    }
  }

  lemma {:induction false} DecodesFrom(turn: TurnOf, bad: seq<byte> -> bool, m: Message, chunks: nat, hashed: seq<byte>)
    requires forall k :: 0 <= k < |m.chunks| ==> IsHex(m.chunks[k].size)
    requires IsHex(m.last.size)
    requires Shrinks(turn) && Turned(turn, bad, m, |hashed|) && chunks + |m.chunks| < MAX_CHUNKS
    ensures Entity(turn, Encode(m), chunks, hashed) == Ok(hashed + Body(m.chunks))
    ensures !HasBad(turn, bad, Encode(m), |hashed|)
    decreases |m.chunks|
  {
    if m.chunks == [] {
      assert hashed + [] == hashed;
    } else {
      var c, rest := m.chunks[0], m.(chunks := m.chunks[1..]);
      DecodesFrom(turn, bad, rest, chunks + 1, hashed + c.data);
      assert hashed + c.data + Body(rest.chunks) == hashed + (c.data + Body(rest.chunks));
    }
  }

  /** Any chunking of a body, whatever the chunk sizes, spellings, extensions and trailer,
      is read back as that body by both decoders. */
  lemma {:induction false} ChunkingDecodes(u: Utf8, m: Message)
    requires IsUtf8(u) && IsMessage(u, m) && |m.chunks| < MAX_CHUNKS && |Body(m.chunks)| <= MAX_BODY
    ensures Entity(EntityTurns(u), Encode(m), 0, []) == Ok(Body(m.chunks))
    ensures |Body(m.chunks)| <= MAX_RECORD ==> Transfer(TransferTurns(u), Encode(m), []) == Ok(Body(m.chunks))
  {
    EntityReadsChunks(u);
    MessageTurned(u, EntityTurns(u), rest => PaddedNext(u, rest), m, 0);
    DecodesFrom(EntityTurns(u), rest => PaddedNext(u, rest), m, 0, []);
    assert [] + Body(m.chunks) == Body(m.chunks);
    DecodersAgree(u, Encode(m));
  }
}
