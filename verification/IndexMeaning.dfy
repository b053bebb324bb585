/** What the reader of an index demands, told line by line and record by record: the lines, their keys, the
    records they stand for, and that every record has exactly one. */
module IndexMeaning {
  import opened Wrappers
  import opened Characters
  import opened Decimals
  import opened ArchiveIndex
  import Digest

  // ---- lines ----

  /** Two words between white space, and nothing else. */
  ghost predicate TwoWords(s: string, x: string, y: string) {
    exists a, b, c :: s == a + x + (b + y + c) && IsBlank(a) && IsBlank(b) && IsBlank(c) && b != "" && IsWord(x) && IsWord(y)
  }

  lemma {:induction false} NoWords(s: string)
    ensures Words(s) == [] <==> IsBlank(s)
    decreases |s|
  {
    if s != "" {
      assert s == [s[0]] + s[1..];
      if IsWhitespace(s[0]) {
        NoWords(s[1..]);
      } else {
        assert s[0] in s;
      }
    }
  }

  /** After blanks and a word, the words of what follows. */
  lemma {:induction false} WordsSpaced(a: string, w: string, t: string)
    requires IsBlank(a) && IsWord(w) && (t == "" || IsWhitespace(t[0]))
    ensures Words(a + w + t) == [w] + Words(t)
    decreases |a|
  {
    var s := a + w + t;
    if a == "" {
      assert s == w + t;
      WordEndIs(w, t);
      assert s[..|w|] == w && s[|w|..] == t && s[0] == w[0] && w[0] in w;
    } else {
      assert s[0] == a[0] && a[0] in a && s[1..] == a[1..] + w + t;
      WordsSpaced(a[1..], w, t);
    }
  }

  lemma {:induction false} WordEndIs(w: string, t: string)
    requires (forall c :: c in w ==> !IsWhitespace(c)) && (t == "" || IsWhitespace(t[0]))
    ensures WordEnd(w + t) == |w|
  {
    if w == "" {
      assert w + t == t;
    } else {
      assert w == [w[0]] + w[1..] && (w + t)[0] == w[0] && (w + t)[1..] == w[1..] + t;
      WordEndIs(w[1..], t);
    }
  }

  /** The first word, the blanks before it and what follows it. */
  lemma {:induction false} FirstWord(s: string) returns (a: string, t: string)
    requires Words(s) != []
    ensures s == a + Words(s)[0] + t && IsBlank(a) && (t == "" || IsWhitespace(t[0])) && Words(t) == Words(s)[1..]
    decreases |s|
  {
    if IsWhitespace(s[0]) {
      var b;
      b, t := FirstWord(s[1..]);
      a := [s[0]] + b;
      assert s == [s[0]] + s[1..];
    } else {
      a, t := "", s[WordEnd(s)..];
      assert s == s[..WordEnd(s)] + t;
    }
  }

  lemma {:induction false} TwoWordsMean(s: string, x: string, y: string)
    ensures Words(s) == [x, y] <==> TwoWords(s, x, y)
  {
    if Words(s) == [x, y] {
      var a, t := FirstWord(s);
      var b, c := FirstWord(t);
      NoWords(c);
      assert t[|b|] == y[0] && y[0] in y;
      assert s == a + x + (b + y + c);
    }
    if TwoWords(s, x, y) {
      var a, b, c :| s == a + x + (b + y + c) && IsBlank(a) && IsBlank(b) && IsBlank(c) && b != "" && IsWord(x) && IsWord(y);
      assert b[0] in b && (b + y + c)[0] == b[0];
      WordsSpaced(a, x, b + y + c);
      assert c == "" || c[0] in c;
      WordsSpaced(b, y, c);
      NoWords(c);
    }
  }

  /** The line has these two words before its first brace, and from there on the text of this row. */
  ghost predicate Says(d: Dialect, line: string, key: string, stamp: string, row: Row) {
    exists p :: 0 <= p < |line| && line[p] == '{' && '{' !in line[..p] && TwoWords(line[..p], key, stamp) &&
      d.decode(line[p..]) == Some(row)
  }

  lemma {:induction false} ParseMeans(d: Dialect, line: string, key: string, stamp: string, row: Row)
    ensures ParseLine(d, line) == Ok((key, stamp, row)) <==>
            Says(d, line, key, stamp, row) && d.expected(row.url, row.request) == Some(key)
  {
    var at := BraceAt(line);
    if at.Some? {
      var p := at.value;
      assert '{' !in line[..p];
      TwoWordsMean(line[..p], key, stamp);
      forall q | 0 <= q < |line| && line[q] == '{' && '{' !in line[..q]
        ensures q == p
      {
        BraceIs(line, q);
      }
      assert |Words(line[..p])| == 2 ==> Words(line[..p]) == [Words(line[..p])[0], Words(line[..p])[1]];
    }
  }

  // ---- records ----

  /** The row has the record's place, URL and capture time. */
  predicate Describes(row: Row, stamp: string, r: Scanned) {
    !r.kind.Other? && r.member == "archive/" + row.filename && Numeric(row.offset) == Some(r.offset) &&
    Numeric(row.length) == Some(r.length) && r.url == row.url && r.stamp == Some(stamp)
  }

  /** It describes this record and no other. */
  predicate StandsFor(rs: seq<Scanned>, row: Row, stamp: string, i: nat) {
    i < |rs| && forall j :: 0 <= j < |rs| ==> (Describes(row, stamp, rs[j]) <==> j == i)
  }

  lemma {:induction false} LocatedOnce(rs: seq<Scanned>, n: nat, place: Place)
    requires n <= |rs|
    ensures forall j, k :: 0 <= j < k < |Located(rs, n, place)| ==> Located(rs, n, place)[j] < Located(rs, n, place)[k]
  {
    if n > 0 {
      LocatedOnce(rs, n - 1, place);
      var before := Located(rs, n - 1, place);
      assert forall j :: 0 <= j < |before| ==> before[j] in before;
    }
  }

  lemma {:induction false} AtTimeRises(rs: seq<Scanned>, at: seq<nat>, stamp: string)
    requires (forall k :: 0 <= k < |at| ==> at[k] < |rs|) && forall j, k :: 0 <= j < k < |at| ==> at[j] < at[k]
    ensures forall j, k :: 0 <= j < k < |AtTime(rs, at, stamp)| ==> AtTime(rs, at, stamp)[j] < AtTime(rs, at, stamp)[k]
  {
    if at != [] {
      AtTimeRises(rs, at[1..], stamp);
      AtTimeSubset(rs, at[1..], stamp);
      var rest := AtTime(rs, at[1..], stamp);
      assert forall j :: 0 <= j < |rest| ==> rest[j] in rest;
    }
  }

  lemma {:induction false} RisingOne(s: seq<nat>, i: nat)
    requires forall j, k :: 0 <= j < k < |s| ==> s[j] < s[k]
    ensures (|s| == 1 && s[0] == i) <==> forall j :: j in s <==> j == i
  {
    if forall j :: j in s <==> j == i {
      assert i in s;
      forall k | 0 <= k < |s|
        ensures s[k] == i
      {
        assert s[k] in s;
      }
      assert s[0] == i && s[|s| - 1] == i;
    }
  }

  /** A record is found exactly when the row stands for it. */
  lemma {:induction false} FoundMeans(rs: seq<Scanned>, row: Row, stamp: string, i: nat)
    ensures FindRecord(rs, row, stamp) == Ok(i) <==> StandsFor(rs, row, stamp, i)
  {
    var offset, length := Numeric(row.offset), Numeric(row.length);
    if offset.Some? && length.Some? {
      var place := Place("archive/" + row.filename, offset.value, length.value, row.url);
      var at := Located(rs, |rs|, place);
      assert forall k :: 0 <= k < |at| ==> at[k] in at;
      LocatedOnce(rs, |rs|, place);
      AtTimeSubset(rs, at, stamp);
      AtTimeRises(rs, at, stamp);
      FoundAmong(rs, row, stamp, place, at, i);
    } else {
      assert i < |rs| ==> !Describes(row, stamp, rs[i]);
    }
  }

  lemma {:induction false} FoundAmong(rs: seq<Scanned>, row: Row, stamp: string, place: Place, at: seq<nat>, i: nat)
    requires Numeric(row.offset) == Some(place.offset) && Numeric(row.length) == Some(place.length)
    requires place.member == "archive/" + row.filename && place.url == row.url && at == Located(rs, |rs|, place)
    requires forall k :: 0 <= k < |at| ==> at[k] < |rs|
    requires forall k :: k in AtTime(rs, at, stamp) <==> k in at && rs[k].stamp == Some(stamp)
    requires forall j, k :: 0 <= j < k < |AtTime(rs, at, stamp)| ==> AtTime(rs, at, stamp)[j] < AtTime(rs, at, stamp)[k]
    ensures FindRecord(rs, row, stamp) == Ok(i) <==> StandsFor(rs, row, stamp, i)
  {
    var found := AtTime(rs, at, stamp);
    RisingOne(found, i);
    forall j: nat | j < |rs|
      ensures j in found <==> Describes(row, stamp, rs[j])
    {
    }
    assert found != [] ==> found[0] in found && found[0] in at;
  }

  // ---- digests ----

  /** A digest in one of the notations that are compared. */
  predicate Compared(written: string) {
    Prefixed(written) || HexSized(written) || PaddedFrom52(written)
  }

  predicate Prefixed(written: string) {
    |written| >= 7 && written[..7] == "sha256:"
  }

  predicate HexSized(bare: string) {
    |bare| == 64 && forall i :: 0 <= i < 64 ==> IsHexDigit(bare[i])
  }

  predicate PaddedFrom52(bare: string) {
    |bare| >= 52 && bare[51] != '=' && forall i :: 52 <= i < |bare| ==> bare[i] == '='
  }

  ghost predicate Spells(value: string, bytes: seq<nat>) {
    Digest.IsSha256(bytes) && Digest.Encodes(value, bytes)
  }

  /** If it is compared, both spell one digest. */
  ghost predicate Fits(written: string, actual: string) {
    Compared(written) ==>
      exists bytes :: Spells(if Prefixed(written) then written else "sha256:" + written, bytes) &&
        Spells(actual, bytes)
  }

  lemma {:induction false} ComparedMeans(written: string)
    ensures Recognized(written) <==> Compared(written)
    ensures SHA256 + Stripped(written) == if Prefixed(written) then written else "sha256:" + written
  {
    assert SHA256 <= written <==> Prefixed(written);
    if !Prefixed(written) {
      HexMeans(written);
      PaddedAfter(written);
    }
  }

  lemma {:induction false} HexMeans(bare: string)
    ensures |bare| == 64 && (forall c :: c in bare ==> IsHexDigit(c)) <==> HexSized(bare)
  {
    assert (forall c :: c in bare ==> IsHexDigit(c)) <==> forall i :: 0 <= i < |bare| ==> IsHexDigit(bare[i]);
  }

  lemma {:induction false} PaddedAfter(bare: string)
    ensures |Digest.TrimPadding(bare)| == 52 <==> PaddedFrom52(bare)
  {
    var core := Digest.TrimPadding(bare);
    if PaddedFrom52(bare) {
      Digest.TrimPadded(bare[..52], bare);
    }
    if |core| == 52 {
      assert bare[51] == bare[..52][51] == core[51];
    }
  }

  lemma {:induction false} FitsMeans(written: string, actual: string)
    ensures DigestAgrees(written, actual) <==> Fits(written, actual)
  {
    ComparedMeans(written);
    var full := SHA256 + Stripped(written);
    if Digest.Normalize(full).Ok? {
      var bytes := Digest.NormalizeNamesOneDigest(full);
      Digest.NormalizeExact(full, bytes);
      Digest.NormalizeExact(actual, bytes);
      if Digest.Normalize(full) == Digest.Normalize(actual) {
        assert Spells(full, bytes) && Spells(actual, bytes);
      }
    }
    forall bytes | Spells(full, bytes) && Spells(actual, bytes)
      ensures Digest.Normalize(full).Ok? && Digest.Normalize(full) == Digest.Normalize(actual)
    {
      Digest.NormalizeExact(full, bytes);
      Digest.NormalizeExact(actual, bytes);
    }
  }

  // ---- whole indexes ----

  /** What a line says and the record it stands for. */
  datatype Entry = Entry(key: string, stamp: string, row: Row, record: nat)

  ghost predicate IsEntry(d: Dialect, rs: seq<Scanned>, line: string, e: Entry) {
    Says(d, line, e.key, e.stamp, e.row) && d.expected(e.row.url, e.row.request) == Some(e.key) && Names(rs, e)
  }

  /** The row stands for the record, and its digest, if it has one, fits. */
  ghost predicate Names(rs: seq<Scanned>, e: Entry) {
    StandsFor(rs, e.row, e.stamp, e.record) && (e.row.digest.Some? ==> Fits(e.row.digest.value, rs[e.record].digest))
  }

  function OrderKey(e: Entry): string {
    e.key + " " + e.stamp
  }

  /** Every line has its entry, none falls behind the one before it, and no record has two. */
  ghost predicate AreEntries(d: Dialect, rs: seq<Scanned>, ls: seq<string>, es: seq<Entry>) {
    Each(d, rs, ls, es) && Ordered(es) && NoDoubles(es)
  }

  ghost predicate Each(d: Dialect, rs: seq<Scanned>, ls: seq<string>, es: seq<Entry>) {
    |es| == |ls| && forall k :: 0 <= k < |ls| ==> IsEntry(d, rs, ls[k], es[k])
  }

  ghost predicate Ordered(es: seq<Entry>) {
    forall k :: 0 < k < |es| ==> !Less(OrderKey(es[k]), OrderKey(es[k - 1]))
  }

  ghost predicate NoDoubles(es: seq<Entry>) {
    forall j, k :: 0 <= j < k < |es| ==> es[j].record != es[k].record
  }

  function Found(es: seq<Entry>): map<nat, (string, Row)> {
    if es == [] then map[]
    else var last := es[|es| - 1]; Found(es[..|es| - 1])[last.record := (last.key, last.row)]
  }

  lemma {:induction false} FoundKeys(es: seq<Entry>, i: nat)
    ensures i in Found(es) <==> exists k :: 0 <= k < |es| && es[k].record == i
  {
    if es != [] {
      FoundKeys(es[..|es| - 1], i);
      if exists k :: 0 <= k < |es| && es[k].record == i {
        var k :| 0 <= k < |es| && es[k].record == i;
        assert k < |es| - 1 ==> es[..|es| - 1][k].record == i;
      }
    }
  }

  /** The state of the reader after some entries. */
  function After(es: seq<Entry>): Reading {
    Reading(Found(es), if es == [] then "" else OrderKey(es[|es| - 1]), |es|)
  }

  /** The line's entry may come after these. */
  ghost predicate Follows(d: Dialect, rs: seq<Scanned>, line: string, before: seq<Entry>, e: Entry) {
    IsEntry(d, rs, line, e) && InTurn(before, e) && NotAmong(before, e)
  }

  predicate InTurn(before: seq<Entry>, e: Entry) {
    before != [] ==> !Less(OrderKey(e), OrderKey(before[|before| - 1]))
  }

  predicate NotAmong(before: seq<Entry>, e: Entry) {
    forall k :: 0 <= k < |before| ==> before[k].record != e.record
  }

  lemma {:induction false} AfterNext(before: seq<Entry>, e: Entry)
    ensures After(before + [e]) == Reading(Found(before)[e.record := (e.key, e.row)], OrderKey(e), |before| + 1)
  {
    assert (before + [e])[..|before|] == before;
  }

  lemma {:induction false} DigestMeans(row: Row, actual: string)
    ensures (row.digest.Some? ==> DigestAgrees(row.digest.value, actual)) <==>
            (row.digest.Some? ==> Fits(row.digest.value, actual))
  {
    if row.digest.Some? {
      FitsMeans(row.digest.value, actual);
    }
  }

  /** A row that stands for a record is accepted when its turn has come, the record is new and the digest fits. */
  lemma {:induction false} AcceptedIs(rs: seq<Scanned>, e: Entry, st: Reading, next: Reading, fits: bool)
    requires FindRecord(rs, e.row, e.stamp) == Ok(e.record) && e.record < |rs|
    requires next == Reading(st.used[e.record := (e.key, e.row)], OrderKey(e), st.count + 1)
    requires fits <==> (e.row.digest.Some? ==> DigestAgrees(e.row.digest.value, rs[e.record].digest))
    ensures Accepted(rs, e.key, e.stamp, e.row, st) == Ok(next) <==>
      !Less(OrderKey(e), st.previous) && e.record !in st.used && fits
  {
  }

  lemma {:induction false} AcceptedMeans(rs: seq<Scanned>, before: seq<Entry>, e: Entry)
    ensures Accepted(rs, e.key, e.stamp, e.row, After(before)) == Ok(After(before + [e])) &&
            FindRecord(rs, e.row, e.stamp) == Ok(e.record) <==>
            Names(rs, e) && InTurn(before, e) && NotAmong(before, e)
  {
    FoundMeans(rs, e.row, e.stamp, e.record);
    if FindRecord(rs, e.row, e.stamp) == Ok(e.record) {
      AfterNext(before, e);
      DigestMeans(e.row, rs[e.record].digest);
      AcceptedIs(rs, e, After(before), After(before + [e]),
                 e.row.digest.Some? ==> Fits(e.row.digest.value, rs[e.record].digest));
      TurnMeans(before, e);
    }
  }

  lemma {:induction false} TurnMeans(before: seq<Entry>, e: Entry)
    ensures InTurn(before, e) <==> !Less(OrderKey(e), After(before).previous)
    ensures NotAmong(before, e) <==> e.record !in After(before).used
  {
    FoundKeys(before, e.record);
  }

  lemma {:induction false} EntryRead(d: Dialect, rs: seq<Scanned>, line: string, before: seq<Entry>, e: Entry)
    requires |before| < MAX_ITEMS
    ensures ReadLine(d, rs, line, After(before)) == Ok(After(before + [e])) &&
            ParseLine(d, line) == Ok((e.key, e.stamp, e.row)) && FindRecord(rs, e.row, e.stamp) == Ok(e.record) <==>
            Follows(d, rs, line, before, e)
  {
    ParseMeans(d, line, e.key, e.stamp, e.row);
    AcceptedMeans(rs, before, e);
  }

  /** The entry of a line that is read. */
  lemma {:induction false} LastEntry(d: Dialect, rs: seq<Scanned>, line: string, before: seq<Entry>, next: Reading)
    returns (e: Entry)
    requires ReadLine(d, rs, line, After(before)) == Ok(next)
    ensures |before| < MAX_ITEMS && Follows(d, rs, line, before, e) && next == After(before + [e])
  {
    e := TakenFrom(d, rs, line, After(before), next);
    AfterNext(before, e);
    EntryRead(d, rs, line, before, e);
  }

  lemma {:induction false} TakenFrom(d: Dialect, rs: seq<Scanned>, line: string, st: Reading, next: Reading) returns (e: Entry)
    requires ReadLine(d, rs, line, st) == Ok(next)
    ensures st.count < MAX_ITEMS && ParseLine(d, line) == Ok((e.key, e.stamp, e.row))
    ensures FindRecord(rs, e.row, e.stamp) == Ok(e.record)
    ensures next == Reading(st.used[e.record := (e.key, e.row)], OrderKey(e), st.count + 1)
  {
    var (key, stamp, row) := ParseLine(d, line).value;
    e := Entry(key, stamp, row, FindRecord(rs, row, stamp).value);
  }

  // ---- one line after another ----

  /** What a line does to a state, whether an entry may follow others on a line, and the state after entries. */
  type Reads = (string, Reading) -> Result<Reading, Error>

  type Step = (string, seq<Entry>, Entry) -> bool

  type States = seq<Entry> -> Reading

  function Fold(read: Reads, ls: seq<string>, st: Reading): Result<Reading, Error> {
    if ls == [] then Ok(st)
    else
      var before := Fold(read, ls[..|ls| - 1], st);
      if before.Err? then before else read(ls[|ls| - 1], before.value)
  }

  predicate Runs(step: Step, ls: seq<string>, es: seq<Entry>) {
    |es| == |ls| &&
    (ls == [] || (Runs(step, ls[..|ls| - 1], es[..|es| - 1]) && step(ls[|ls| - 1], es[..|es| - 1], es[|es| - 1])))
  }

  ghost predicate Forwards(read: Reads, step: Step, after: States) {
    forall line, before, e :: |before| < MAX_ITEMS && step(line, before, e) ==>
      read(line, after(before)) == Ok(after(before + [e]))
  }

  ghost predicate Backwards(read: Reads, step: Step, after: States) {
    forall line, before, next :: read(line, after(before)) == Ok(next) ==>
      |before| < MAX_ITEMS && Stepped(step, after, line, before, next)
  }

  ghost predicate Stepped(step: Step, after: States, line: string, before: seq<Entry>, next: Reading) {
    exists e :: step(line, before, e) && next == after(before + [e])
  }

  lemma {:induction false} FoldRuns(read: Reads, step: Step, after: States, ls: seq<string>, es: seq<Entry>)
    requires Forwards(read, step, after) && Runs(step, ls, es) && |ls| <= MAX_ITEMS
    ensures Fold(read, ls, after([])) == Ok(after(es))
  {
    if ls != [] {
      var n := |ls| - 1;
      FoldRuns(read, step, after, ls[..n], es[..n]);
      assert es == es[..n] + [es[n]];
    } else {
      assert es == [];
    }
  }

  lemma {:induction false} RunsFold(read: Reads, step: Step, after: States, ls: seq<string>, r: Reading)
    returns (es: seq<Entry>)
    requires Backwards(read, step, after) && Fold(read, ls, after([])) == Ok(r)
    ensures Runs(step, ls, es) && |ls| <= MAX_ITEMS && r == after(es)
  {
    if ls == [] {
      es := [];
    } else {
      var n := |ls| - 1;
      var before := RunsFold(read, step, after, ls[..n], Fold(read, ls[..n], after([])).value);
      assert Stepped(step, after, ls[n], before, r);
      var e :| step(ls[n], before, e) && r == after(before + [e]);
      es := before + [e];
      assert es[..n] == before;
    }
  }

  function LineReader(d: Dialect, rs: seq<Scanned>): Reads {
    (line, st) => ReadLine(d, rs, line, st)
  }

  ghost function Steps(d: Dialect, rs: seq<Scanned>): Step {
    (line, before, e) => Follows(d, rs, line, before, e)
  }

  function AfterAll(): States {
    es => After(es)
  }

  lemma {:induction false} ReadAppend(d: Dialect, rs: seq<Scanned>, ls: seq<string>, st: Reading)
    requires ls != []
    ensures var before := ReadLines(d, rs, ls[..|ls| - 1], st);
            ReadLines(d, rs, ls, st) ==
              if before.Err? then before else ReadLine(d, rs, ls[|ls| - 1], before.value)
  {
    var n := |ls| - 1;
    if n > 0 {
      var next := ReadLine(d, rs, ls[0], st);
      if next.Ok? {
        ReadAppend(d, rs, ls[1..], next.value);
        assert ls[1..][..n - 1] == ls[..n][1..] && ls[1..][n - 1] == ls[n] && ls[..n][0] == ls[0];
      } else {
        assert ls[..n][0] == ls[0];
      }
    } else {
      assert ls[..n] == [] && ls[1..] == [];
    }
  }

  lemma {:induction false} ReadIsFold(d: Dialect, rs: seq<Scanned>, ls: seq<string>, st: Reading)
    ensures ReadLines(d, rs, ls, st) == Fold(LineReader(d, rs), ls, st)
    decreases |ls|
  {
    if ls != [] {
      ReadAppend(d, rs, ls, st);
      ReadIsFold(d, rs, ls[..|ls| - 1], st);
    }
  }

  lemma {:induction false} ReadsForwards(d: Dialect, rs: seq<Scanned>)
    ensures Forwards(LineReader(d, rs), Steps(d, rs), AfterAll())
  {
    var read, step, after := LineReader(d, rs), Steps(d, rs), AfterAll();
    forall line, before, e | |before| < MAX_ITEMS && step(line, before, e)
      ensures read(line, after(before)) == Ok(after(before + [e]))
    {
      EntryRead(d, rs, line, before, e);
    }
  }

  lemma {:induction false} ReadsBackwards(d: Dialect, rs: seq<Scanned>)
    ensures Backwards(LineReader(d, rs), Steps(d, rs), AfterAll())
  {
    var read, step, after := LineReader(d, rs), Steps(d, rs), AfterAll();
    forall line, before, next | read(line, after(before)) == Ok(next)
      ensures |before| < MAX_ITEMS && Stepped(step, after, line, before, next)
    {
      var e := LastEntry(d, rs, line, before, next);
      assert step(line, before, e);
    }
  }

  predicate StepAt(step: Step, ls: seq<string>, es: seq<Entry>, k: nat)
    requires k < |ls| == |es|
  {
    step(ls[k], es[..k], es[k])
  }

  lemma {:induction false} RunsEach(step: Step, ls: seq<string>, es: seq<Entry>)
    ensures Runs(step, ls, es) <==> |es| == |ls| && forall k :: 0 <= k < |ls| ==> StepAt(step, ls, es, k)
  {
    if |es| == |ls| && ls != [] {
      var n := |ls| - 1;
      RunsEach(step, ls[..n], es[..n]);
      forall k | 0 <= k < n
        ensures StepAt(step, ls[..n], es[..n], k) == StepAt(step, ls, es, k)
      {
        assert ls[..n][k] == ls[k] && es[..n][..k] == es[..k] && es[..n][k] == es[k];
      }
      assert StepAt(step, ls, es, n) == step(ls[n], es[..n], es[n]);
    }
  }

  ghost predicate InPlace(d: Dialect, rs: seq<Scanned>, ls: seq<string>, es: seq<Entry>, k: nat)
    requires k < |ls| == |es|
  {
    IsEntry(d, rs, ls[k], es[k]) && (k > 0 ==> !Less(OrderKey(es[k]), OrderKey(es[k - 1]))) &&
    forall j :: 0 <= j < k ==> es[j].record != es[k].record
  }

  lemma {:induction false} FollowsAt(d: Dialect, rs: seq<Scanned>, ls: seq<string>, es: seq<Entry>, k: nat)
    requires k < |ls| == |es|
    ensures StepAt(Steps(d, rs), ls, es, k) <==> InPlace(d, rs, ls, es, k)
  {
    assert forall j :: 0 <= j < k ==> es[..k][j] == es[j];
  }

  ghost predicate AllInPlace(d: Dialect, rs: seq<Scanned>, ls: seq<string>, es: seq<Entry>)
    requires |ls| == |es|
  {
    forall k :: 0 <= k < |ls| ==> InPlace(d, rs, ls, es, k)
  }

  lemma {:induction false} PlacesMean(d: Dialect, rs: seq<Scanned>, ls: seq<string>, es: seq<Entry>)
    requires |ls| == |es|
    ensures AllInPlace(d, rs, ls, es) <==> AreEntries(d, rs, ls, es)
  {
    if AllInPlace(d, rs, ls, es) {
      forall k | 0 <= k < |ls|
        ensures IsEntry(d, rs, ls[k], es[k]) && (k > 0 ==> !Less(OrderKey(es[k]), OrderKey(es[k - 1])))
      {
        assert InPlace(d, rs, ls, es, k);
      }
      forall j, k | 0 <= j < k < |es|
        ensures es[j].record != es[k].record
      {
        assert InPlace(d, rs, ls, es, k);
      }
    }
  }

  /** Entries in turn are entries for all lines, in order and without doubles. */
  lemma {:induction false} RunsMean(d: Dialect, rs: seq<Scanned>, ls: seq<string>, es: seq<Entry>)
    ensures Runs(Steps(d, rs), ls, es) <==> AreEntries(d, rs, ls, es)
  {
    var step := Steps(d, rs);
    if |es| == |ls| {
      forall k | 0 <= k < |ls|
        ensures StepAt(step, ls, es, k) <==> InPlace(d, rs, ls, es, k)
      {
        FollowsAt(d, rs, ls, es, k);
      }
      RunsInPlace(d, rs, step, ls, es);
      PlacesMean(d, rs, ls, es);
    }
  }

  lemma {:induction false} RunsInPlace(d: Dialect, rs: seq<Scanned>, step: Step, ls: seq<string>, es: seq<Entry>)
    requires |ls| == |es| && forall k :: 0 <= k < |ls| ==> (StepAt(step, ls, es, k) <==> InPlace(d, rs, ls, es, k))
    ensures Runs(step, ls, es) <==> AllInPlace(d, rs, ls, es)
  {
    RunsEach(step, ls, es);
  }

  /** Lines are read exactly when each has its entry, and there are not too many. */
  lemma {:induction false} LinesMean(d: Dialect, rs: seq<Scanned>, ls: seq<string>, r: Reading)
    ensures ReadLines(d, rs, ls, START) == Ok(r) <==> |ls| <= MAX_ITEMS && exists es :: EntriesTo(d, rs, ls, es, r)
  {
    var read, step, after := LineReader(d, rs), Steps(d, rs), AfterAll();
    ReadIsFold(d, rs, ls, START);
    assert after([]) == START;
    if Fold(read, ls, START) == Ok(r) {
      ReadsBackwards(d, rs);
      var es := RunsFold(read, step, after, ls, r);
      RunsMean(d, rs, ls, es);
      assert EntriesTo(d, rs, ls, es, r);
    }
    if |ls| <= MAX_ITEMS && exists es :: EntriesTo(d, rs, ls, es, r) {
      var es :| EntriesTo(d, rs, ls, es, r);
      ReadsForwards(d, rs);
      RunsMean(d, rs, ls, es);
      FoldRuns(read, step, after, ls, es);
    }
  }

  ghost predicate EntriesTo(d: Dialect, rs: seq<Scanned>, ls: seq<string>, es: seq<Entry>, r: Reading) {
    AreEntries(d, rs, ls, es) && r == After(es)
  }

  /** Every record of the archive that is to be indexed has its entry. */
  ghost predicate Covers(rs: seq<Scanned>, es: seq<Entry>) {
    forall i :: 0 <= i < |rs| && !rs[i].kind.Other? ==> exists k :: 0 <= k < |es| && es[k].record == i
  }

  ghost predicate Indexes(d: Dialect, rs: seq<Scanned>, text: string, es: seq<Entry>) {
    AreEntries(d, rs, Filled(Lines(text)), es) && 0 < |es| <= 50_000 && Covers(rs, es)
  }

  /** An index is accepted exactly when each of its lines names one record, by key, capture time and place,
      that agrees in URL and digest, when the lines are in order, when no record is named twice and none is
      left out, and when there is a line and no more than fifty thousand. */
  lemma {:induction false} IndexMeans(d: Dialect, rs: seq<Scanned>, text: string, found: map<nat, (string, Row)>)
    ensures ReadIndex(d, rs, text) == Ok(found) <==>
            |text| <= 32 * 1024 * 1024 && exists es :: Indexes(d, rs, text, es) && found == Found(es)
  {
    if ReadIndex(d, rs, text) == Ok(found) {
      var es := IndexRead(d, rs, text, found);
    }
    forall es | |text| <= MAX_METADATA && Indexes(d, rs, text, es) && found == Found(es)
      ensures ReadIndex(d, rs, text) == Ok(found)
    {
      EntriesRead(d, rs, text, es);
    }
  }

  lemma {:induction false} IndexRead(d: Dialect, rs: seq<Scanned>, text: string, found: map<nat, (string, Row)>)
    returns (es: seq<Entry>)
    requires ReadIndex(d, rs, text) == Ok(found)
    ensures |text| <= MAX_METADATA && Indexes(d, rs, text, es) && found == Found(es)
  {
    var r := FromAccepted(d, rs, text, found);
    es := EntriesOf(d, rs, Filled(Lines(text)), r);
    CoversMeans(rs, es);
  }

  lemma {:induction false} FromAccepted(d: Dialect, rs: seq<Scanned>, text: string, found: map<nat, (string, Row)>)
    returns (r: Reading)
    requires ReadIndex(d, rs, text) == Ok(found)
    ensures |text| <= MAX_METADATA && ReadLines(d, rs, Filled(Lines(text)), START) == Ok(r) && r.used == found
    ensures AllIndexed(rs, found) && found != map[]
  {
    r := ReadLines(d, rs, Filled(Lines(text)), START).value;
  }

  lemma {:induction false} EntriesOf(d: Dialect, rs: seq<Scanned>, ls: seq<string>, r: Reading) returns (es: seq<Entry>)
    requires ReadLines(d, rs, ls, START) == Ok(r)
    ensures |ls| <= MAX_ITEMS && EntriesTo(d, rs, ls, es, r)
  {
    LinesMean(d, rs, ls, r);
    es :| EntriesTo(d, rs, ls, es, r);
  }

  lemma {:induction false} EntriesRead(d: Dialect, rs: seq<Scanned>, text: string, es: seq<Entry>)
    requires |text| <= MAX_METADATA && Indexes(d, rs, text, es)
    ensures ReadIndex(d, rs, text) == Ok(Found(es))
  {
    ReadEntries(d, rs, Filled(Lines(text)), es, After(es));
    CoversMeans(rs, es);
    AcceptedFrom(d, rs, text, After(es));
  }

  lemma {:induction false} ReadEntries(d: Dialect, rs: seq<Scanned>, ls: seq<string>, es: seq<Entry>, r: Reading)
    requires EntriesTo(d, rs, ls, es, r) && |ls| <= MAX_ITEMS
    ensures ReadLines(d, rs, ls, START) == Ok(r)
  {
    LinesMean(d, rs, ls, r);
  }

  lemma {:induction false} AcceptedFrom(d: Dialect, rs: seq<Scanned>, text: string, st: Reading)
    requires |text| <= MAX_METADATA && ReadLines(d, rs, Filled(Lines(text)), START) == Ok(st)
    requires AllIndexed(rs, st.used) && st.used != map[]
    ensures ReadIndex(d, rs, text) == Ok(st.used)
  {
  }

  lemma {:induction false} CoversMeans(rs: seq<Scanned>, es: seq<Entry>)
    ensures AllIndexed(rs, Found(es)) <==> Covers(rs, es)
    ensures Found(es) == map[] <==> es == []
  {
    forall i: nat
      ensures i in Found(es) <==> exists k :: 0 <= k < |es| && es[k].record == i
    {
      FoundKeys(es, i);
    }
    assert es != [] ==> es[0].record in Found(es);
  }
}
