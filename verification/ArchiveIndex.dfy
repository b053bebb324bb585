/** The CDXJ index of an archive: how the writer lays out records and sorts its index, and
    what the reader demands of an index. JSON text is a codec of which only the laws in
    `IsDialect` are known; the lookup key of a URL is an unknown function. */
module ArchiveIndex {
  import opened Wrappers
  import opened Characters
  import opened Decimals
  import Digest

  const MAX_ITEMS := 50_000
  const MAX_METADATA := 32 * 1024 * 1024
  const MAX_ARCHIVE := 32 * 1024 * 1024 * 1024

  datatype Kind = Response | Resource | Revisit | Other

  /** A row of the index; `request` holds method and body, `rest` the fields nobody checks. */
  datatype Row = Row(
    url: string, request: string, digest: Option<string>, offset: string, length: string,
    filename: string, rest: string)

  datatype Dialect = Dialect(
    encode: Row -> string, decode: string -> Option<Row>, expected: (string, string) -> Option<string>)

  ghost predicate IsDialect(d: Dialect) {
    (forall r :: d.decode(d.encode(r)) == Some(r)) &&
    (forall r :: IsObjectText(d.encode(r))) &&
    forall p, t, r :: Opens(p) ==> d.decode(Before(p, t, d.encode(r))) == None
  }

  /** One line between braces. */
  predicate IsObjectText(s: string) {
    |s| >= 2 && s[0] == '{' && s[|s| - 1] == '}' && '\n' !in s
  }

  predicate Opens(p: string) {
    p != "" && p[0] == '{'
  }

  /** Three fields of a line. No JSON text has a whole object as its last field. */
  function Before(key: string, stamp: string, json: string): string {
    key + " " + stamp + " " + json
  }

  // ---- order of strings ----

  predicate Less(a: string, b: string) {
    b != "" && (a == "" || a[0] < b[0] || (a[0] == b[0] && Less(a[1..], b[1..])))
  }

  lemma {:induction false} NotLessTransitive(a: string, b: string, c: string)
    requires !Less(b, a) && !Less(c, b)
    ensures !Less(c, a)
  {
    if a != "" && c != "" && c[0] == a[0] {
      NotLessTransitive(a[1..], b[1..], c[1..]);
    }
  }

  lemma {:induction false} LessAsymmetric(a: string, b: string)
    requires Less(a, b)
    ensures !Less(b, a)
  {
    if a != "" && a[0] == b[0] {
      LessAsymmetric(a[1..], b[1..]);
    }
  }

  ghost predicate Sorted(ls: seq<string>) {
    forall j, k :: 0 <= j < k < |ls| ==> !Less(ls[k], ls[j])
  }

  function Insert(x: string, ls: seq<string>): (r: seq<string>)
    ensures multiset(r) == multiset(ls) + multiset{x}
  {
    if ls == [] || Less(x, ls[0]) then [x] + ls
    else assert ls == [ls[0]] + ls[1..]; [ls[0]] + Insert(x, ls[1..])
  }

  /** The sort of the standard library, by insertion. */
  function Sort(ls: seq<string>): (r: seq<string>)
    ensures multiset(r) == multiset(ls)
  {
    if ls == [] then [] else assert ls == [ls[0]] + ls[1..]; Insert(ls[0], Sort(ls[1..]))
  }

  lemma {:induction false} InsertSorted(x: string, ls: seq<string>)
    requires Sorted(ls)
    ensures Sorted(Insert(x, ls))
  {
    if ls == [] {
    } else if Less(x, ls[0]) {
      LessAsymmetric(x, ls[0]);
      forall k | 0 <= k < |ls|
        ensures !Less(ls[k], x)
      {
        if k > 0 {
          NotLessTransitive(x, ls[0], ls[k]);
        }
      }
    } else {
      var rest := Insert(x, ls[1..]);
      InsertSorted(x, ls[1..]);
      forall k | 0 <= k < |rest|
        ensures !Less(rest[k], ls[0])
      {
        assert rest[k] in multiset(rest);
        assert rest[k] == x || rest[k] in ls[1..];
      }
    }
  }

  lemma {:induction false} SortSorted(ls: seq<string>)
    ensures Sorted(Sort(ls))
  {
    if ls != [] {
      SortSorted(ls[1..]);
      InsertSorted(ls[0], Sort(ls[1..]));
    }
  }

  /** A longer text after a smaller key stays smaller, unless the larger key goes on with
      something not above a space. */
  lemma {:induction false} LessExtends(a: string, b: string, x: string, y: string)
    requires Less(a, b) && x != "" && x[0] == ' '
    requires a < b ==> b[|a|] > ' '
    ensures Less(a + x, b + y)
  {
    var ax, bx := a + x, b + y;
    if a == "" {
      assert ax[0] == ' ' && bx[0] == b[0];
    } else if a[0] == b[0] {
      assert ax[1..] == a[1..] + x && bx[1..] == b[1..] + y;
      assert a[1..] < b[1..] ==> a < b && b[|a|] == b[1..][|a| - 1] by {
        assert a == [a[0]] + a[1..] && b == [b[0]] + b[1..];
      }
      LessExtends(a[1..], b[1..], x, y);
    } else {
      assert ax[0] == a[0] && bx[0] == b[0];
    }
  }

  // ---- text ----

  function LineEnd(text: string): (e: nat)
    ensures e <= |text| && (forall i :: 0 <= i < e ==> text[i] != '\n') && (e < |text| ==> text[e] == '\n')
  {
    if text == "" || text[0] == '\n' then 0
    else
      var n := LineEnd(text[1..]);
      assert text[..n + 1] == [text[0]] + text[1..][..n];
      n + 1
  }

  /** Lines without their ends; a carriage return belongs to the line feed it precedes. */
  function Lines(text: string): seq<string> {
    if text == "" then []
    else
      var e := LineEnd(text);
      if e == |text| then [text] else [Chomped(text[..e])] + Lines(text[e + 1..])
  }

  function Chomped(line: string): string {
    if line != "" && line[|line| - 1] == '\r' then line[..|line| - 1] else line
  }

  predicate IsBlank(line: string) {
    forall c :: c in line ==> IsWhitespace(c)
  }

  function Filled(ls: seq<string>): seq<string> {
    if ls == [] then [] else (if IsBlank(ls[0]) then [] else [ls[0]]) + Filled(ls[1..])
  }

  function Concat(ls: seq<string>): string {
    if ls == [] then "" else ls[0] + Concat(ls[1..])
  }

  lemma {:induction false} LineEndAt(a: string, b: string)
    requires '\n' !in a
    ensures LineEnd(a + "\n" + b) == |a|
  {
    var t := a + "\n" + b;
    if a != "" {
      assert t[1..] == a[1..] + "\n" + b && t[0] == a[0];
      LineEndAt(a[1..], b);
    }
  }

  lemma {:induction false} LinesCons(a: string, b: string)
    requires '\n' !in a
    ensures Lines(a + "\n" + b) == [Chomped(a)] + Lines(b)
  {
    var t := a + "\n" + b;
    LineEndAt(a, b);
    assert t[..|a|] == a && t[|a| + 1..] == b;
  }

  predicate Ended(s: string) {
    s != "" && s[|s| - 1] == '\n'
  }

  lemma {:induction false} LinesConcat(a: string, b: string)
    requires a == "" || Ended(a)
    ensures Lines(a + b) == Lines(a) + Lines(b)
    decreases |a|
  {
    if a == "" {
      assert a + b == b;
    } else {
      EndedLine(a);
      var e := LineEnd(a);
      var head, rest := a[..e], a[e + 1..];
      assert a == head + "\n" + rest;
      assert rest == "" || rest[|rest| - 1] == a[|a| - 1];
      LinesConcat(rest, b);
      LinesConcatStep(head, rest, b);
    }
  }

  lemma {:induction false} LinesConcatStep(head: string, rest: string, b: string)
    requires '\n' !in head && Lines(rest + b) == Lines(rest) + Lines(b)
    ensures Lines(head + "\n" + rest + b) == Lines(head + "\n" + rest) + Lines(b)
  {
    var first := Chomped(head);
    LinesCons(head, rest);
    LinesCons(head, rest + b);
    Regroup(head, "\n", rest, b);
    Associate([first], Lines(rest), Lines(b));
  }

  lemma {:induction false} Regroup(a: string, b: string, c: string, d: string)
    ensures a + b + c + d == a + b + (c + d)
  {
  }

  lemma {:induction false} Associate(a: seq<string>, b: seq<string>, c: seq<string>)
    ensures a + (b + c) == a + b + c
  {
  }

  lemma {:induction false} EndedLine(a: string)
    requires Ended(a)
    ensures LineEnd(a) < |a|
  {
    if |a| > 1 && a[0] != '\n' {
      EndedLine(a[1..]);
    }
  }

  /** What follows the last line feed. */
  function Tail(s: string): (t: string)
    ensures '\n' !in t
    ensures '\n' !in s ==> t == s
    decreases |s|
  {
    var e := LineEnd(s);
    if e == |s| then assert s == s[..e]; s else Tail(s[e + 1..])
  }

  lemma {:induction false} TailLine(key: string, rest: string)
    requires rest != "" && '\n' !in rest && rest[|rest| - 1] != '\r'
    ensures Tail(key) + rest in Lines(key + rest + "\n")
    decreases |key|
  {
    var e := LineEnd(key);
    var t := key + rest + "\n";
    if e == |key| {
      assert key == key[..e];
      assert (key + rest)[|key + rest| - 1] == rest[|rest| - 1];
      LinesCons(key + rest, "");
      assert t == (key + rest) + "\n" + "";
    } else {
      var below := key[e + 1..];
      LineEndAt(key[..e], below + rest + "\n");
      assert t == key[..e] + "\n" + (below + rest + "\n");
      assert t[e + 1..] == below + rest + "\n";
      TailLine(below, rest);
    }
  }

  lemma {:induction false} LineOfConcat(ls: seq<string>, k: nat, line: string)
    requires k < |ls| && (forall j :: 0 <= j < |ls| ==> Ended(ls[j])) && line in Lines(ls[k])
    ensures line in Lines(Concat(ls))
  {
    LinesConcat(ls[0], Concat(ls[1..]));
    if k > 0 {
      LineOfConcat(ls[1..], k - 1, line);
    }
  }

  lemma {:induction false} FilledHas(ls: seq<string>, line: string)
    requires line in ls && !IsBlank(line)
    ensures line in Filled(ls)
  {
    if ls[0] != line {
      FilledHas(ls[1..], line);
    }
  }

  predicate IsPlain(line: string) {
    '\n' !in line && !IsBlank(line) && line != "" && line[|line| - 1] != '\r'
  }

  lemma {:induction false} PlainLines(ls: seq<string>, plain: seq<string>)
    requires |ls| == |plain|
    requires forall j :: 0 <= j < |ls| ==> IsPlain(plain[j]) && ls[j] == plain[j] + "\n"
    ensures Filled(Lines(Concat(ls))) == plain
  {
    if ls != [] {
      PlainLines(ls[1..], plain[1..]);
      var rest := Concat(ls[1..]);
      assert Concat(ls) == plain[0] + "\n" + rest;
      LinesCons(plain[0], rest);
      assert ([plain[0]] + Lines(rest))[1..] == Lines(rest);
    }
  }

  /** Words between whitespace. */
  function Words(s: string): (ws: seq<string>)
    ensures forall j :: 0 <= j < |ws| ==> IsWord(ws[j])
    decreases |s|
  {
    if s == "" then []
    else if IsWhitespace(s[0]) then Words(s[1..])
    else var n := WordEnd(s); [s[..n]] + Words(s[n..])
  }

  predicate IsWord(w: string) {
    w != "" && forall c :: c in w ==> !IsWhitespace(c)
  }

  function WordEnd(s: string): (n: nat)
    ensures n <= |s| && (forall i :: 0 <= i < n ==> !IsWhitespace(s[i]))
    ensures n < |s| ==> IsWhitespace(s[n])
  {
    if s == "" || IsWhitespace(s[0]) then 0 else WordEnd(s[1..]) + 1
  }

  lemma {:induction false} WordsCons(w: string, rest: string)
    requires IsWord(w)
    ensures Words(w + " " + rest) == [w] + Words(rest)
  {
    var s := w + " " + rest;
    var n := WordEnd(s);
    assert forall i :: 0 <= i < |w| ==> s[i] == w[i] && w[i] in w;
    assert s[|w|] == ' ';
    assert n == |w|;
    assert s[..n] == w && s[n..] == " " + rest;
    assert (" " + rest)[1..] == rest;
  }

  function BraceAt(s: string): (p: Option<nat>)
    ensures p.Some? ==> p.value < |s| && s[p.value] == '{' && forall i :: 0 <= i < p.value ==> s[i] != '{'
    ensures p.None? ==> '{' !in s
  {
    if s == "" then None
    else if s[0] == '{' then Some(0)
    else
      match BraceAt(s[1..])
      case None => assert s == [s[0]] + s[1..]; None
      case Some(n) => assert s[..n + 1] == [s[0]] + s[1..][..n]; Some(n + 1)
  }

  lemma {:induction false} BraceIs(s: string, p: nat)
    requires p < |s| && s[p] == '{' && '{' !in s[..p]
    ensures BraceAt(s) == Some(p)
  {
    if p > 0 {
      assert s[..p][0] == s[0];
      assert s[..p] == [s[0]] + s[1..][..p - 1];
      BraceIs(s[1..], p - 1);
    }
  }

  // ---- the reader ----

  /** A record found by scanning; `stamp` is its capture date as an index writes it. */
  datatype Scanned = Scanned(
    kind: Kind, member: string, offset: nat, length: nat, url: string, stamp: Option<string>, digest: string)

  datatype Place = Place(member: string, offset: nat, length: nat, url: string)

  predicate Indexable(kind: Kind) {
    !kind.Other?
  }

  function PlaceOf(r: Scanned): Place {
    Place(r.member, r.offset, r.length, r.url)
  }

  /** The records at a place among the first `n`. */
  function Located(rs: seq<Scanned>, n: nat, place: Place): (at: seq<nat>)
    requires n <= |rs|
    ensures forall i: nat :: i in at <==> i < n && Indexable(rs[i].kind) && PlaceOf(rs[i]) == place
  {
    if n == 0 then []
    else Located(rs, n - 1, place) +
         if Indexable(rs[n - 1].kind) && PlaceOf(rs[n - 1]) == place then [n - 1] else []
  }

  function AtTime(rs: seq<Scanned>, at: seq<nat>, stamp: string): seq<nat>
    requires forall k :: 0 <= k < |at| ==> at[k] < |rs|
  {
    if at == [] then []
    else (if rs[at[0]].stamp == Some(stamp) then [at[0]] else []) + AtTime(rs, at[1..], stamp)
  }

  datatype Error =
    TooLarge | TooMany | NoJson | BadJson | NoKey | NoStamp | Layout | WrongKey | Unsorted | BadNumber |
    Outside | Ambiguous | Duplicate | WrongDigest | Unindexed | Empty | BadDate

  /** A decimal field as a 64-bit number. */
  function Numeric(s: string): Option<nat> {
    var digits := if s != "" && s[0] == '+' then s[1..] else s;
    if !IsNumeral(digits) || NumeralValue(digits) >= 0x1_0000_0000_0000_0000 then None
    else Some(NumeralValue(digits))
  }

  const SHA256 := "sha256:"

  function Stripped(digest: string): string {
    if SHA256 <= digest then digest[|SHA256|..] else digest
  }

  predicate Recognized(digest: string) {
    var bare := Stripped(digest);
    SHA256 <= digest || (|bare| == 64 && forall c :: c in bare ==> IsHexDigit(c)) || |Digest.TrimPadding(bare)| == 52
  }

  /** Digests in other notations are not compared. */
  predicate DigestAgrees(written: string, actual: string) {
    Recognized(written) ==>
      Digest.Normalize(SHA256 + Stripped(written)).Ok? &&
      Digest.Normalize(SHA256 + Stripped(written)) == Digest.Normalize(actual)
  }

  /** Records found so far with their key and row, the last sort key, and the rows read. */
  datatype Reading = Reading(used: map<nat, (string, Row)>, previous: string, count: nat)

  /** A line taken apart: lookup key, timestamp and row. */
  function ParseLine(d: Dialect, line: string): Result<(string, string, Row), Error> {
    var start := BraceAt(line);
    if start.None? then Err(NoJson)
    else
      var row := d.decode(line[start.value..]);
      if row.None? then Err(BadJson)
      else
        var prefix := Words(line[..start.value]);
        if |prefix| == 0 then Err(NoKey)
        else if |prefix| == 1 then Err(NoStamp)
        else if |prefix| > 2 then Err(Layout)
        else if d.expected(row.value.url, row.value.request) != Some(prefix[0]) then Err(WrongKey)
        else Ok((prefix[0], prefix[1], row.value))
  }

  /** The one record a row stands for. */
  function FindRecord(rs: seq<Scanned>, row: Row, stamp: string): (r: Result<nat, Error>)
    ensures r.Ok? ==> r.value < |rs| && Indexable(rs[r.value].kind)
  {
    var offset, length := Numeric(row.offset), Numeric(row.length);
    if offset.None? || length.None? then Err(BadNumber)
    else
      var at := Located(rs, |rs|, Place("archive/" + row.filename, offset.value, length.value, row.url));
      if at == [] then Err(Outside)
      else
        assert forall k :: 0 <= k < |at| ==> at[k] in at;
        AtTimeSubset(rs, at, stamp);
        var found := AtTime(rs, at, stamp);
        if |found| != 1 then Err(Ambiguous) else assert found[0] in found; Ok(found[0])
  }

  lemma {:induction false} AtTimeSubset(rs: seq<Scanned>, at: seq<nat>, stamp: string)
    requires forall k :: 0 <= k < |at| ==> at[k] < |rs|
    ensures forall i :: i in AtTime(rs, at, stamp) <==> i in at && rs[i].stamp == Some(stamp)
  {
    if at != [] {
      AtTimeSubset(rs, at[1..], stamp);
      assert at == [at[0]] + at[1..];
    }
  }

  function SortKey(key: string, stamp: string): string {
    key + " " + stamp
  }

  function Accepted(rs: seq<Scanned>, key: string, stamp: string, row: Row, st: Reading): Result<Reading, Error> {
    if Less(SortKey(key, stamp), st.previous) then Err(Unsorted)
    else
      var i := FindRecord(rs, row, stamp);
      if i.Err? then Err(i.error)
      else if i.value in st.used then Err(Duplicate)
      else if row.digest.Some? && !DigestAgrees(row.digest.value, rs[i.value].digest) then Err(WrongDigest)
      else Ok(Reading(st.used[i.value := (key, row)], SortKey(key, stamp), st.count + 1))
  }

  function ReadLine(d: Dialect, rs: seq<Scanned>, line: string, st: Reading): Result<Reading, Error> {
    if st.count + 1 > MAX_ITEMS then Err(TooMany)
    else
      var parsed := ParseLine(d, line);
      if parsed.Err? then Err(parsed.error)
      else Accepted(rs, parsed.value.0, parsed.value.1, parsed.value.2, st)
  }

  function ReadLines(d: Dialect, rs: seq<Scanned>, ls: seq<string>, st: Reading): Result<Reading, Error> {
    if ls == [] then Ok(st)
    else
      var next := ReadLine(d, rs, ls[0], st);
      if next.Err? then next else ReadLines(d, rs, ls[1..], next.value)
  }

  const START := Reading(map[], "", 0)

  predicate AllIndexed(rs: seq<Scanned>, used: map<nat, (string, Row)>) {
    forall i :: 0 <= i < |rs| && Indexable(rs[i].kind) ==> i in used
  }

  /** What the reader makes of an index: the key and row of every record, or a refusal. */
  function ReadIndex(d: Dialect, rs: seq<Scanned>, text: string): Result<map<nat, (string, Row)>, Error> {
    if |text| > MAX_METADATA then Err(TooLarge)
    else
      var st := ReadLines(d, rs, Filled(Lines(text)), START);
      if st.Err? then Err(st.error)
      else if !AllIndexed(rs, st.value.used) then Err(Unindexed)
      else if st.value.used == map[] then Err(Empty)
      else Ok(st.value.used)
  }

  // ---- the reader's loops ----

  function Group(locations: map<Place, seq<nat>>, place: Place): seq<nat> {
    if place in locations then locations[place] else []
  }

  ghost predicate Tabulates(locations: map<Place, seq<nat>>, rs: seq<Scanned>, n: nat)
    requires n <= |rs|
  {
    forall p :: Group(locations, p) == Located(rs, n, p)
  }

  /** The reader's table of record places. */
  method Locations(rs: seq<Scanned>) returns (locations: map<Place, seq<nat>>)
    ensures Tabulates(locations, rs, |rs|)
  {
    locations := map[];
    for i := 0 to |rs|
      invariant Tabulates(locations, rs, i)
    {
      Tabulated(locations, rs, i);
      if Indexable(rs[i].kind) {
        var place := PlaceOf(rs[i]);
        locations := locations[place := Group(locations, place) + [i]];
      }
    }
  }

  lemma {:induction false} Tabulated(locations: map<Place, seq<nat>>, rs: seq<Scanned>, i: nat)
    requires i < |rs| && Tabulates(locations, rs, i)
    ensures var place := PlaceOf(rs[i]);
            Tabulates(if Indexable(rs[i].kind) then locations[place := Group(locations, place) + [i]] else locations,
                      rs, i + 1)
  {
    var place := PlaceOf(rs[i]);
    var next := if Indexable(rs[i].kind) then locations[place := Group(locations, place) + [i]] else locations;
    forall p
      ensures Group(next, p) == Located(rs, i + 1, p)
    {
      assert Group(locations, p) == Located(rs, i, p);
    }
  }

  method Candidates(rs: seq<Scanned>, group: seq<nat>, stamp: string) returns (found: seq<nat>)
    requires forall k :: 0 <= k < |group| ==> group[k] < |rs|
    ensures found == AtTime(rs, group, stamp)
  {
    found := [];
    assert group[0..] == group;
    for k := 0 to |group|
      invariant found + AtTime(rs, group[k..], stamp) == AtTime(rs, group, stamp)
    {
      AtTimeNext(rs, group, stamp, k, found);
      if rs[group[k]].stamp == Some(stamp) {
        found := found + [group[k]];
      }
    }
  }

  lemma {:induction false} AtTimeNext(rs: seq<Scanned>, group: seq<nat>, stamp: string, k: nat, found: seq<nat>)
    requires (forall i :: 0 <= i < |group| ==> group[i] < |rs|) && k < |group|
    ensures found + AtTime(rs, group[k..], stamp) ==
            (if rs[group[k]].stamp == Some(stamp) then found + [group[k]] else found) + AtTime(rs, group[k + 1..], stamp)
  {
    assert group[k..][0] == group[k] && group[k..][1..] == group[k + 1..];
  }

  /** The statements that follow once a line has been taken apart. */
  method Identify(rs: seq<Scanned>, locations: map<Place, seq<nat>>, row: Row, stamp: string)
    returns (r: Result<nat, Error>)
    requires Tabulates(locations, rs, |rs|)
    ensures r == FindRecord(rs, row, stamp)
  {
    var offset, length := Numeric(row.offset), Numeric(row.length);
    if offset.None? || length.None? {
      return Err(BadNumber);
    }
    var place := Place("archive/" + row.filename, offset.value, length.value, row.url);
    assert Group(locations, place) == Located(rs, |rs|, place);
    if place !in locations || locations[place] == [] {
      return Err(Outside);
    }
    assert forall k :: 0 <= k < |locations[place]| ==> locations[place][k] in locations[place];
    var found := Candidates(rs, locations[place], stamp);
    if |found| != 1 {
      return Err(Ambiguous);
    }
    return Ok(found[0]);
  }

  method AcceptRow(rs: seq<Scanned>, locations: map<Place, seq<nat>>, key: string, stamp: string, row: Row, st: Reading)
    returns (r: Result<Reading, Error>)
    requires Tabulates(locations, rs, |rs|)
    ensures r == Accepted(rs, key, stamp, row, st)
  {
    var sortKey := key + " " + stamp;
    if Less(sortKey, st.previous) {
      return Err(Unsorted);
    }
    var i := Identify(rs, locations, row, stamp);
    if i.Err? {
      return Err(i.error);
    }
    if i.value in st.used {
      return Err(Duplicate);
    }
    if row.digest.Some? && !DigestAgrees(row.digest.value, rs[i.value].digest) {
      return Err(WrongDigest);
    }
    return Ok(Reading(st.used[i.value := (key, row)], sortKey, st.count + 1));
  }

  method ValidateIndex(d: Dialect, rs: seq<Scanned>, text: string)
    returns (r: Result<map<nat, (string, Row)>, Error>)
    ensures r == ReadIndex(d, rs, text)
  {
    var locations := Locations(rs);
    if |text| > MAX_METADATA {
      return Err(TooLarge);
    }
    var ls := Filled(Lines(text));
    var st := START;
    assert ls[0..] == ls;
    for k := 0 to |ls|
      invariant ReadLines(d, rs, ls[k..], st) == ReadLines(d, rs, ls, START)
    {
      assert ls[k..][0] == ls[k] && ls[k..][1..] == ls[k + 1..];
      if st.count + 1 > MAX_ITEMS {
        return Err(TooMany);
      }
      var parsed := ParseLine(d, ls[k]);
      if parsed.Err? {
        return Err(parsed.error);
      }
      var next := AcceptRow(rs, locations, parsed.value.0, parsed.value.1, parsed.value.2, st);
      if next.Err? {
        return Err(next.error);
      }
      st := next.value;
    }
    if !AllIndexed(rs, st.used) {
      return Err(Unindexed);
    }
    if st.used == map[] {
      return Err(Empty);
    }
    return Ok(st.used);
  }

  // ---- the writer ----

  /** A record to be written; `key` is its lookup key, `size` its compressed length. */
  datatype Draft = Draft(
    kind: Kind, url: string, stamp: Option<string>, digest: string, key: string, request: string,
    rest: string, size: nat)

  const FILENAME := "derived.warc.gz"

  function Offset(ds: seq<Draft>, n: nat): nat
    requires n <= |ds|
  {
    if n == 0 then 0 else Offset(ds, n - 1) + ds[n - 1].size
  }

  /** The record as a scan of the written file finds it. */
  function Rescanned(ds: seq<Draft>): (rs: seq<Scanned>)
    ensures |rs| == |ds|
  {
    seq(|ds|, i requires 0 <= i < |ds| =>
      Scanned(ds[i].kind, "archive/" + FILENAME, Offset(ds, i), ds[i].size, ds[i].url, ds[i].stamp, ds[i].digest))
  }

  function RowAt(ds: seq<Draft>, i: nat): Row
    requires i < |ds|
  {
    Row(ds[i].url, ds[i].request, Some(ds[i].digest), Decimal(Offset(ds, i)), Decimal(ds[i].size), FILENAME, ds[i].rest)
  }

  function LineAt(d: Dialect, ds: seq<Draft>, i: nat): string
    requires i < |ds| && ds[i].stamp.Some?
  {
    Before(ds[i].key, ds[i].stamp.value, d.encode(RowAt(ds, i)))
  }

  predicate Dated(ds: seq<Draft>, n: nat)
    requires n <= |ds|
  {
    forall i :: 0 <= i < n && Indexable(ds[i].kind) ==> ds[i].stamp.Some?
  }

  predicate Fits(ds: seq<Draft>, n: nat)
    requires n <= |ds|
  {
    forall i :: 0 <= i <= n ==> Offset(ds, i) <= MAX_ARCHIVE
  }

  /** Records that get a row, in file order. */
  function Indexed(ds: seq<Draft>, n: nat): (at: seq<nat>)
    requires n <= |ds|
    ensures forall i: nat :: i in at <==> i < n && Indexable(ds[i].kind)
    ensures forall j, k :: 0 <= j < k < |at| ==> at[j] < at[k]
  {
    if n == 0 then []
    else
      var at := Indexed(ds, n - 1);
      assert forall k :: 0 <= k < |at| ==> at[k] in at;
      if Indexable(ds[n - 1].kind) then at + [n - 1] else at
  }

  function IndexLines(d: Dialect, ds: seq<Draft>, n: nat): (ls: seq<string>)
    requires n <= |ds| && Dated(ds, n)
    ensures |ls| == |Indexed(ds, n)|
  {
    var at := Indexed(ds, n);
    seq(|at|, k requires 0 <= k < |at| => assert at[k] in at; LineAt(d, ds, at[k]) + "\n")
  }

  function TotalLength(ls: seq<string>): nat {
    if ls == [] then 0 else |ls[0]| + TotalLength(ls[1..])
  }

  /** The text of the index, unless the output or a date is refused. */
  function WriteIndex(d: Dialect, ds: seq<Draft>): Option<string> {
    if !Fits(ds, |ds|) || !Dated(ds, |ds|) || TotalLength(IndexLines(d, ds, |ds|)) > MAX_METADATA then None
    else Some(Concat(Sort(IndexLines(d, ds, |ds|))))
  }

  method WriteArchiveIndex(d: Dialect, ds: seq<Draft>) returns (r: Option<string>)
    ensures r == WriteIndex(d, ds)
  {
    var index: seq<string> := [];
    var warcPosition: nat := 0;
    for i := 0 to |ds|
      invariant warcPosition == Offset(ds, i) && Fits(ds, i) && Dated(ds, i)
      invariant index == IndexLines(d, ds, i)
    {
      var offset := warcPosition;
      warcPosition := warcPosition + ds[i].size;
      if warcPosition > MAX_ARCHIVE {
        assert Offset(ds, i + 1) > MAX_ARCHIVE;
        return None;
      }
      var encodedLength := warcPosition - offset;
      if Indexable(ds[i].kind) {
        if ds[i].stamp.None? {
          return None;
        }
        var row := Row(ds[i].url, ds[i].request, Some(ds[i].digest), Decimal(offset), Decimal(encodedLength),
                       FILENAME, ds[i].rest);
        index := index + [ds[i].key + " " + ds[i].stamp.value + " " + d.encode(row) + "\n"];
      }
    }
    var total := Sum(index);
    if total > MAX_METADATA {
      return None;
    }
    return Some(Concat(Sort(index)));
  }

  method Sum(ls: seq<string>) returns (total: nat)
    ensures total == TotalLength(ls)
  {
    total := 0;
    assert ls[0..] == ls;
    for k := 0 to |ls|
      invariant total + TotalLength(ls[k..]) == TotalLength(ls)
    {
      assert ls[k..][1..] == ls[k + 1..];
      total := total + |ls[k]|;
    }
  }
}
