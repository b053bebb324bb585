/** Which bodies the streaming decoder accepts: exactly those that are chunks one after another, each a size
    line, that many bytes and an end of line, then a line of size zero and a trailer. */
module ChunkedMeaning {
  import opened Wrappers
  import opened Characters
  import opened Chunked
  import opened ChunkedAgree

  // ---- size lines ----

  predicate IsBlank(s: string) {
    forall i :: 0 <= i < |s| ==> IsWhitespace(s[i])
  }

  /** Hexadecimal digits of a 64-bit number, with a plus sign before them or not. */
  predicate IsField(field: string, n: nat) {
    var digits := if field != "" && field[0] == '+' then field[1..] else field;
    IsHex(digits) && HexValue(digits) == n && n < 0x1_0000_0000_0000_0000
  }

  /** White space, a field, and then nothing but white space, or anything behind a semicolon. */
  predicate TellsAt(text: string, i: nat, j: nat, n: nat) {
    i <= j <= |text| && IsBlank(text[..i]) && IsField(text[i..j], n) &&
    (IsBlank(text[j..]) || (j < |text| && text[j] == ';'))
  }

  ghost predicate Tells(text: string, n: nat) {
    exists i: nat, j: nat :: TellsAt(text, i, j, n)
  }

  function SizeIn(text: string): Option<nat> {
    FromHex(BeforeSemicolon(TrimEnd(TrimStart(text))))
  }

  lemma {:induction false} FieldMeans(field: string, n: nat)
    ensures FromHex(field) == Some(n) <==> IsField(field, n)
  {
  }

  lemma {:induction false} FieldSolid(field: string, n: nat)
    requires IsField(field, n)
    ensures field != "" && forall i :: 0 <= i < |field| ==> !IsWhitespace(field[i]) && field[i] != ';'
  {
    FieldMeans(field, n);
    forall i | 0 <= i < |field|
      ensures !IsWhitespace(field[i]) && field[i] != ';'
    {
      NoSpaceInHex(field, i);
      if field[0] == '+' && i > 0 {
        assert field[1..][i - 1] == field[i] && IsHexDigit(field[1..][i - 1]);
      }
    }
  }

  lemma {:induction false} TrimStartIs(s: string, i: nat)
    requires i <= |s| && IsBlank(s[..i]) && (i < |s| ==> !IsWhitespace(s[i]))
    ensures TrimStart(s) == s[i..]
    decreases i
  {
    if i > 0 {
      assert s[..i][0] == s[0] && s[1..][..i - 1] == s[..i][1..];
      TrimStartIs(s[1..], i - 1);
      assert s[1..][i - 1..] == s[i..];
    } else {
      assert s[0..] == s;
    }
  }

  lemma {:induction false} TrimStartAt(s: string) returns (i: nat)
    ensures i <= |s| && IsBlank(s[..i]) && TrimStart(s) == s[i..]
  {
    if s != "" && IsWhitespace(s[0]) {
      var k := TrimStartAt(s[1..]);
      i := k + 1;
      assert s[..i] == [s[0]] + s[1..][..k] && s[1..][k..] == s[i..];
    } else {
      i := 0;
      assert s[0..] == s;
    }
  }

  /** After the last character that is not white space everything is cut off. */
  lemma {:induction false} TrimEndIs(s: string, j: nat)
    requires j <= |s| && IsBlank(s[j..]) && (j > 0 ==> !IsWhitespace(s[j - 1]))
    ensures TrimEnd(s) == s[..j]
    decreases |s|
  {
    if j < |s| {
      assert s[j..][|s| - 1 - j] == s[|s| - 1];
      assert s[..|s| - 1][j..] == s[j..][..|s| - 1 - j];
      TrimEndIs(s[..|s| - 1], j);
      assert s[..|s| - 1][..j] == s[..j];
    } else {
      assert s[..j] == s;
    }
  }

  lemma {:induction false} FieldFirst(field: string, tail: string)
    requires (forall i :: 0 <= i < |field| ==> field[i] != ';') && (tail == "" || tail[0] == ';')
    ensures BeforeSemicolon(field + tail) == field
  {
    FieldOf(field, tail);
  }

  lemma {:induction false} TellsGives(text: string, i: nat, j: nat, n: nat)
    requires TellsAt(text, i, j, n)
    ensures SizeIn(text) == Some(n)
  {
    var field := text[i..j];
    FieldSolid(field, n);
    FieldMeans(field, n);
    assert field[0] == text[i] && field[|field| - 1] == text[j - 1];
    TrimStartIs(text, i);
    var rest := text[i..];
    assert rest == field + text[j..];
    if IsBlank(text[j..]) {
      assert rest[|field|..] == text[j..];
      TrimEndIs(rest, |field|);
      assert rest[..|field|] == field + "";
      FieldFirst(field, "");
    } else {
      TrimEndKeeps(rest);
      var t := TrimEnd(rest);
      assert rest[|field|] == ';' && |t| > |field|;
      assert t == field + t[|field|..];
      FieldFirst(field, t[|field|..]);
    }
  }

  /** The field that remains of a text once it is trimmed stands at its beginning. */
  lemma {:induction false} FieldStands(rest: string, n: nat) returns (k: nat)
    requires FromHex(BeforeSemicolon(TrimEnd(rest))) == Some(n)
    ensures k <= |rest| && IsField(rest[..k], n)
    ensures IsBlank(rest[k..]) || (k < |rest| && rest[k] == ';')
  {
    var t := TrimEnd(rest);
    var field := BeforeSemicolon(t);
    TrimEndKeeps(rest);
    FieldPrefix(t);
    FieldMeans(field, n);
    k := |field|;
    assert rest[..k] == t[..k] == field;
    if ';' in t {
      SemicolonIn(t);
    } else {
      assert forall m :: 0 <= m < |rest[k..]| ==> rest[k..][m] == rest[k + m];
    }
  }

  lemma {:induction false} GivesTells(text: string, n: nat)
    requires SizeIn(text) == Some(n)
    ensures Tells(text, n)
  {
    var i := TrimStartAt(text);
    var rest := text[i..];
    var k := FieldStands(rest, n);
    assert text[i..i + k] == rest[..k] && text[i + k..] == rest[k..];
    assert TellsAt(text, i, i + k, n);
  }

  /** A line of bytes whose text tells this size. */
  ghost predicate SizeLineOf(u: Utf8, line: seq<byte>, n: nat) {
    IsLine(line) && u(line).Some? && Tells(u(line).value, n)
  }

  lemma {:induction false} SizeMeans(u: Utf8, line: seq<byte>, n: nat)
    ensures EntitySize(u, line) == Some(n) <==> u(line).Some? && Tells(u(line).value, n)
  {
    if u(line).Some? {
      var text := u(line).value;
      if SizeIn(text) == Some(n) {
        GivesTells(text, n);
      }
      if Tells(text, n) {
        var i: nat, j: nat :| TellsAt(text, i, j, n);
        TellsGives(text, i, j, n);
      }
    }
  }

  // ---- lines ----

  /** One line, with its end, no longer than a header may be. */
  predicate IsLine(line: seq<byte>) {
    2 <= |line| <= 64 * 1024 && line[|line| - 2..] == [13, 10] && forall i :: 0 <= i < |line| - 1 ==> line[i] != 10
  }

  lemma {:induction false} LineMeans(rest: seq<byte>)
    ensures var line := RawLine(rest);
            |line| <= MAX_HEADER && EndsWith(line, CRLF) ==> IsLine(line) && rest == line + rest[|line|..]
  {
    var line := RawLine(rest);
    if |line| <= MAX_HEADER && EndsWith(line, CRLF) {
      LineHas(rest, 0);
    }
  }

  lemma {:induction false} LineTaken(line: seq<byte>, after: seq<byte>)
    requires IsLine(line)
    ensures RawLine(line + after) == line && EndsWith(line, CRLF) && (line + after)[|line|..] == after
  {
    var head := line[..|line| - 2];
    assert line == head + CRLF;
    LineRead(head, after);
    assert head + CRLF + after == line + after;
  }

  // ---- turns ----

  /** A chunk as it stands in the body: its size line and its data. */
  datatype Frame = Frame(line: seq<byte>, data: seq<byte>)

  ghost predicate IsFrame(u: Utf8, f: Frame) {
    SizeLineOf(u, f.line, |f.data|) && f.data != []
  }

  lemma {:induction false} DataMeans(u: Utf8, rest: seq<byte>, total: nat, f: Frame, next: seq<byte>)
    requires rest == f.line + (f.data + (CRLF + next)) && IsFrame(u, f) && total + |f.data| <= MAX_BODY
    ensures EntityTurns(u)(rest, total) == Ok(Data(f.data, next))
  {
    var after := f.data + (CRLF + next);
    LineTaken(f.line, after);
    SizeMeans(u, f.line, |f.data|);
    DataTurnOf(EntitySizes(u), f.line, f.data, next, total);
  }

  /** Data that a turn yields comes from a chunk that stands there. */
  lemma {:induction false} DataFound(u: Utf8, rest: seq<byte>, total: nat, data: seq<byte>, next: seq<byte>)
    requires EntityTurns(u)(rest, total) == Ok(Data(data, next))
    ensures var f := Frame(RawLine(rest), data);
            IsFrame(u, f) && total + |data| <= MAX_BODY && rest == f.line + (f.data + (CRLF + next))
  {
    var line := RawLine(rest);
    LineMeans(rest);
    var after := rest[|line|..];
    SizeMeans(u, line, EntitySizes(u)(line).value);
    assert after == after[..|data|] + after[|data|..];
    assert after[|data|..] == CRLF + after[|data| + 2..];
  }

  // ---- trailers ----

  /** The last line tells size zero, and lines of a trailer follow, up to an empty one. */
  ghost predicate IsEnd(u: Utf8, last: seq<byte>, trailer: seq<seq<byte>>) {
    SizeLineOf(u, last, 0) && IsTrailer(trailer)
  }

  lemma {:induction false} TrailerFound(rest: seq<byte>, seen: nat) returns (lines: seq<seq<byte>>)
    requires TrailerOk(rest, seen)
    ensures rest == TrailerBytes(lines) && forall k :: 0 <= k < |lines| ==> LF !in lines[k] && lines[k] != []
    decreases |rest|
  {
    var line := RawLine(rest);
    var after := rest[|line|..];
    LineMeans(rest);
    if line == CRLF {
      lines := [];
      assert rest == CRLF + after;
    } else {
      var others := TrailerFound(after, seen + |line|);
      var head := line[..|line| - 2];
      assert line == head + CRLF;
      lines := [head] + others;
      assert lines[1..] == others;
      assert rest == head + CRLF + TrailerBytes(others);
    }
  }

  lemma {:induction false} EndMeans(u: Utf8, last: seq<byte>, trailer: seq<seq<byte>>, total: nat)
    requires IsEnd(u, last, trailer)
    ensures EntityTurns(u)(last + TrailerBytes(trailer), total) == Ok(Last)
  {
    LineTaken(last, TrailerBytes(trailer));
    SizeMeans(u, last, 0);
    TrailerRead(trailer, 0);
    LastTurnOf(EntitySizes(u), last, TrailerBytes(trailer), total);
  }

  lemma {:induction false} EndFound(u: Utf8, rest: seq<byte>, total: nat) returns (trailer: seq<seq<byte>>)
    requires EntityTurns(u)(rest, total) == Ok(Last)
    ensures IsEnd(u, RawLine(rest), trailer) && rest == RawLine(rest) + TrailerBytes(trailer)
  {
    var line := RawLine(rest);
    LineMeans(rest);
    SizeMeans(u, line, 0);
    TrailerAccepted(rest[|line|..], 0);
    trailer := TrailerFound(rest[|line|..], 0);
  }

  // ---- whole bodies ----

  function Framed(frames: seq<Frame>, last: seq<byte>, trailer: seq<seq<byte>>): seq<byte> {
    if frames == [] then last + TrailerBytes(trailer)
    else frames[0].line + (frames[0].data + (CRLF + Framed(frames[1..], last, trailer)))
  }

  function DataOf(frames: seq<Frame>): seq<byte> {
    if frames == [] then [] else frames[0].data + DataOf(frames[1..])
  }

  /** What counts as a chunk, and as the end of a body. */
  type Chunks = Frame -> bool

  type Endings = (seq<byte>, seq<seq<byte>>) -> bool

  predicate AllFrames(chunk: Chunks, frames: seq<Frame>) {
    forall k :: 0 <= k < |frames| ==> chunk(frames[k])
  }

  /** A chunk that stands at the beginning is taken in one turn, and an end ends the body. */
  ghost predicate Takes(turn: TurnOf, chunk: Chunks, ending: Endings) {
    (forall f: Frame, next, have: nat :: TakesChunk(turn, chunk, f, next, have)) &&
    forall last, trailer, have: nat :: TakesEnd(turn, ending, last, trailer, have)
  }

  predicate TakesChunk(turn: TurnOf, chunk: Chunks, f: Frame, next: seq<byte>, have: nat) {
    chunk(f) && have + |f.data| <= MAX_BODY ==> turn(f.line + (f.data + (CRLF + next)), have) == Ok(Data(f.data, next))
  }

  predicate TakesEnd(turn: TurnOf, ending: Endings, last: seq<byte>, trailer: seq<seq<byte>>, have: nat) {
    ending(last, trailer) ==> turn(last + TrailerBytes(trailer), have) == Ok(Last)
  }

  /** Every turn takes such a chunk or ends at such an end. */
  ghost predicate Finds(turn: TurnOf, chunk: Chunks, ending: Endings) {
    forall rest, have: nat :: turn(rest, have).Ok? ==>
      if turn(rest, have).value.Last? then EndStands(ending, rest)
      else ChunkStands(chunk, rest, turn(rest, have).value, have)
  }

  ghost predicate EndStands(ending: Endings, rest: seq<byte>) {
    exists last, trailer :: ending(last, trailer) && rest == last + TrailerBytes(trailer)
  }

  ghost predicate ChunkStands(chunk: Chunks, rest: seq<byte>, t: Turn, have: nat)
    requires t.Data?
  {
    have + |t.data| <= MAX_BODY &&
    exists line :: chunk(Frame(line, t.data)) && rest == line + (t.data + (CRLF + t.next))
  }

  lemma {:induction false} FramesRead(turn: TurnOf, chunk: Chunks, ending: Endings, frames: seq<Frame>, last: seq<byte>,
                                      trailer: seq<seq<byte>>, chunks: nat, hashed: seq<byte>)
    requires Takes(turn, chunk, ending) && Shrinks(turn) && AllFrames(chunk, frames) && ending(last, trailer)
    requires chunks + |frames| < MAX_CHUNKS && |hashed| + |DataOf(frames)| <= MAX_BODY
    ensures Entity(turn, Framed(frames, last, trailer), chunks, hashed) == Ok(hashed + DataOf(frames))
    decreases |frames|
  {
    if frames == [] {
      assert TakesEnd(turn, ending, last, trailer, |hashed|);
      assert hashed + [] == hashed;
    } else {
      var f, rest := frames[0], frames[1..];
      assert chunk(f) && TakesChunk(turn, chunk, f, Framed(rest, last, trailer), |hashed|);
      FramesRead(turn, chunk, ending, rest, last, trailer, chunks + 1, hashed + f.data);
      assert hashed + f.data + DataOf(rest) == hashed + (f.data + DataOf(rest));
    }
  }

  lemma {:induction false} FramesFound(turn: TurnOf, chunk: Chunks, ending: Endings, rest: seq<byte>, chunks: nat,
                                       hashed: seq<byte>)
    returns (frames: seq<Frame>, last: seq<byte>, trailer: seq<seq<byte>>)
    requires Finds(turn, chunk, ending) && Shrinks(turn) && Entity(turn, rest, chunks, hashed).Ok? && |hashed| <= MAX_BODY
    ensures rest == Framed(frames, last, trailer) && AllFrames(chunk, frames) && ending(last, trailer)
    ensures chunks + |frames| < MAX_CHUNKS && |hashed| + |DataOf(frames)| <= MAX_BODY
    ensures Entity(turn, rest, chunks, hashed) == Ok(hashed + DataOf(frames))
    decreases |rest|
  {
    var t := turn(rest, |hashed|).value;
    if t.Last? {
      last, trailer :| ending(last, trailer) && rest == last + TrailerBytes(trailer);
      frames := [];
      assert hashed + [] == hashed;
    } else {
      assert ChunkStands(chunk, rest, t, |hashed|);
      var line :| chunk(Frame(line, t.data)) && rest == line + (t.data + (CRLF + t.next));
      var others;
      others, last, trailer := FramesFound(turn, chunk, ending, t.next, chunks + 1, hashed + t.data);
      frames := [Frame(line, t.data)] + others;
      assert frames[1..] == others;
      assert hashed + t.data + DataOf(others) == hashed + (t.data + DataOf(others));
    }
  }

  ghost function ChunksOf(u: Utf8): Chunks {
    f => IsFrame(u, f)
  }

  ghost function EndingsOf(u: Utf8): Endings {
    (last, trailer) => IsEnd(u, last, trailer)
  }

  lemma {:induction false} EntityTakes(u: Utf8)
    ensures Takes(EntityTurns(u), ChunksOf(u), EndingsOf(u))
  {
    forall f: Frame, next, have: nat
      ensures TakesChunk(EntityTurns(u), ChunksOf(u), f, next, have)
    {
      if IsFrame(u, f) && have + |f.data| <= MAX_BODY {
        DataMeans(u, f.line + (f.data + (CRLF + next)), have, f, next);
      }
    }
    forall last, trailer, have: nat
      ensures TakesEnd(EntityTurns(u), EndingsOf(u), last, trailer, have)
    {
      if IsEnd(u, last, trailer) {
        EndMeans(u, last, trailer, have);
      }
    }
  }

  lemma {:induction false} EntityFinds(u: Utf8)
    ensures Finds(EntityTurns(u), ChunksOf(u), EndingsOf(u))
  {
    var turn := EntityTurns(u);
    forall rest, have: nat | turn(rest, have).Ok?
      ensures if turn(rest, have).value.Last? then EndStands(EndingsOf(u), rest)
              else ChunkStands(ChunksOf(u), rest, turn(rest, have).value, have)
    {
      var t := turn(rest, have).value;
      if t.Last? {
        var trailer := EndFound(u, rest, have);
        assert EndingsOf(u)(RawLine(rest), trailer);
      } else {
        DataFound(u, rest, have, t.data, t.next);
        assert ChunksOf(u)(Frame(RawLine(rest), t.data));
      }
    }
  }

  /** The body is these chunks, a last line and a trailer, within the limits. */
  ghost predicate IsBody(u: Utf8, body: seq<byte>, frames: seq<Frame>, last: seq<byte>, trailer: seq<seq<byte>>) {
    body == Framed(frames, last, trailer) && (forall k :: 0 <= k < |frames| ==> IsFrame(u, frames[k])) &&
    IsEnd(u, last, trailer) && |frames| < 1_000_000 && |DataOf(frames)| <= 2 * 1024 * 1024 * 1024 + 64 * 1024
  }

  lemma {:induction false} BodyFrames(u: Utf8, frames: seq<Frame>)
    ensures AllFrames(ChunksOf(u), frames) <==> forall k :: 0 <= k < |frames| ==> IsFrame(u, frames[k])
  {
    forall k | 0 <= k < |frames|
      ensures ChunksOf(u)(frames[k]) == IsFrame(u, frames[k])
    {
    }
  }

  /** The streaming decoder hashes an entity exactly when the body is chunks whose data makes it up. */
  lemma {:induction false} EntityMeans(u: Utf8, body: seq<byte>, entity: seq<byte>)
    ensures Entity(EntityTurns(u), body, 0, []) == Ok(entity) <==>
            exists frames, last, trailer :: IsBody(u, body, frames, last, trailer) && entity == DataOf(frames)
  {
    if Entity(EntityTurns(u), body, 0, []) == Ok(entity) {
      EntityFinds(u);
      var frames, last, trailer := FramesFound(EntityTurns(u), ChunksOf(u), EndingsOf(u), body, 0, []);
      BodyFrames(u, frames);
      assert [] + DataOf(frames) == DataOf(frames);
      assert IsBody(u, body, frames, last, trailer);
    }
    forall frames, last, trailer | IsBody(u, body, frames, last, trailer) && entity == DataOf(frames)
      ensures Entity(EntityTurns(u), body, 0, []) == Ok(entity)
    {
      EntityTakes(u);
      BodyFrames(u, frames);
      FramesRead(EntityTurns(u), ChunksOf(u), EndingsOf(u), frames, last, trailer, 0, []);
      assert [] + DataOf(frames) == DataOf(frames);
    }
  }
}
