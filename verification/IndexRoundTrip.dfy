/** The index the writer produces is the index the reader accepts: exactly when the lookup keys
    are single words without an opening brace, the digests can be read, and there are neither
    no rows nor too many. */
module IndexRoundTrip {
  import opened Wrappers
  import opened Characters
  import opened Decimals
  import opened ArchiveIndex

  predicate IsClean(key: string) {
    IsWord(key) && '{' !in key
  }

  /** A timestamp: digits, and a sign when the year needs one. */
  predicate IsStamp(t: string) {
    t != "" && forall c :: c in t ==> IsDigit(c) || c == '+' || c == '-'
  }

  predicate Readable(r: Draft) {
    IsClean(r.key) && DigestAgrees(r.digest, r.digest)
  }

  /** What holds of the records of any archive: compressed records are not empty, dates become
      timestamps, and the key is the one their URL and request lead to. */
  ghost predicate Consistent(d: Dialect, ds: seq<Draft>) {
    forall i :: 0 <= i < |ds| ==> IsConsistent(d, ds[i])
  }

  predicate IsConsistent(d: Dialect, r: Draft) {
    r.size > 0 && (Indexable(r.kind) && r.stamp.Some? ==> IsStamp(r.stamp.value)) &&
    (Indexable(r.kind) ==> d.expected(r.url, r.request) == Some(r.key))
  }

  // ---- one line ----

  lemma {:induction false} StampIsWord(t: string)
    requires IsStamp(t)
    ensures IsWord(t) && '{' !in t && '\n' !in t && ' ' !in t && forall c :: c in t ==> c > ' '
  {
  }

  lemma {:induction false} BraceOfLine(key: string, stamp: string, json: string)
    requires '{' !in key && IsStamp(stamp) && IsObjectText(json)
    ensures var p := |key| + |stamp| + 2;
            var line := Before(key, stamp, json);
            BraceAt(line) == Some(p) && line[p..] == json && line[..p] == key + " " + (stamp + " " + "")
  {
    var p := |key| + |stamp| + 2;
    var line := Before(key, stamp, json);
    StampIsWord(stamp);
    assert line[p..] == json && line[..p] == key + " " + stamp + " ";
    forall i | 0 <= i < p
      ensures line[i] != '{'
    {
      assert i < |key| ==> line[i] == key[i] && key[i] in key;
      assert |key| < i < p - 1 ==> line[i] == stamp[i - |key| - 1] && stamp[i - |key| - 1] in stamp;
    }
    BraceIs(line, p);
  }

  lemma {:induction false} ParseClean(d: Dialect, key: string, stamp: string, row: Row)
    requires IsDialect(d) && IsClean(key) && IsStamp(stamp) && d.expected(row.url, row.request) == Some(key)
    ensures ParseLine(d, Before(key, stamp, d.encode(row))) == Ok((key, stamp, row))
  {
    assert IsObjectText(d.encode(row));
    BraceOfLine(key, stamp, d.encode(row));
    StampIsWord(stamp);
    WordsCons(key, stamp + " " + "");
    WordsCons(stamp, "");
  }

  /** JSON that starts inside a key is not JSON. */
  lemma {:induction false} BraceRefused(d: Dialect, key: string, stamp: string, row: Row)
    requires IsDialect(d) && '{' in key
    ensures ParseLine(d, Before(key, stamp, d.encode(row))).Err?
  {
    var line := Before(key, stamp, d.encode(row));
    var p := BraceAt(key).value;
    assert line[p] == key[p] && line[..p] == key[..p];
    BraceIs(line, p);
    assert line[p..] == Before(key[p..], stamp, d.encode(row));
    assert Opens(key[p..]);
  }

  /** Whatever follows the last line feed of a key, the row is refused unless the key is clean. */
  lemma {:induction false} ParseUnclean(d: Dialect, key: string, stamp: string, row: Row)
    requires IsDialect(d) && IsStamp(stamp) && d.expected(row.url, row.request) == Some(key)
    requires ParseLine(d, Before(Tail(key), stamp, d.encode(row))).Ok?
    ensures IsClean(key)
  {
    var tail, json := Tail(key), d.encode(row);
    assert IsObjectText(json);
    var line := Before(tail, stamp, json);
    if '{' in tail {
      BraceRefused(d, tail, stamp, row);
    } else {
      BraceOfLine(tail, stamp, json);
      var words := Words(tail + " " + (stamp + " " + ""));
      assert words[0] == key && IsWord(key);
      assert IsWhitespace('\n');
      assert '\n' !in key;
    }
  }

  // ---- one record ----

  lemma {:induction false} NumericDecimal(n: nat)
    requires n <= MAX_ARCHIVE
    ensures Numeric(Decimal(n)) == Some(n)
  {
    DecimalParses(n);
    assert IsDigit(Decimal(n)[0]);
  }

  lemma {:induction false} OffsetGrows(ds: seq<Draft>, i: nat, j: nat)
    requires i < j <= |ds| && forall k :: 0 <= k < |ds| ==> ds[k].size > 0
    ensures Offset(ds, i) + ds[i].size <= Offset(ds, j)
  {
    if i + 1 < j {
      OffsetGrows(ds, i, j - 1);
    }
  }

  /** The records tile the output file: the first starts it, each ends where the next one
      starts, none overlaps a later one, and the last ends the file. */
  lemma {:induction false} RecordsTile(ds: seq<Draft>, i: nat, j: nat)
    requires i < j <= |ds| && forall k :: 0 <= k < |ds| ==> ds[k].size > 0
    ensures var rs := Rescanned(ds);
            var start := if j < |ds| then rs[j].offset else Offset(ds, |ds|);
            (i == 0 ==> rs[i].offset == 0) && rs[i].length > 0 && rs[i].offset + rs[i].length <= start &&
            (j == i + 1 ==> rs[i].offset + rs[i].length == start)
  {
    OffsetGrows(ds, i, j);
  }

  lemma {:induction false} LocatedOne(rs: seq<Scanned>, n: nat, place: Place, i: nat)
    requires n <= |rs| && i < |rs| && Indexable(rs[i].kind)
    requires forall k :: 0 <= k < |rs| ==> (PlaceOf(rs[k]) == place <==> k == i)
    ensures Located(rs, n, place) == if i < n then [i] else []
  {
    if n > 0 {
      LocatedOne(rs, n - 1, place, i);
    }
  }

  lemma {:induction false} FindWritten(d: Dialect, ds: seq<Draft>, i: nat)
    requires Consistent(d, ds) && Fits(ds, |ds|) && i < |ds| && Indexable(ds[i].kind) && ds[i].stamp.Some?
    ensures FindRecord(Rescanned(ds), RowAt(ds, i), ds[i].stamp.value) == Ok(i)
  {
    var rs := Rescanned(ds);
    assert Offset(ds, i + 1) <= MAX_ARCHIVE;
    NumericDecimal(Offset(ds, i));
    NumericDecimal(ds[i].size);
    forall k | 0 <= k < |rs|
      ensures PlaceOf(rs[k]) == PlaceOf(rs[i]) <==> k == i
    {
      assert IsConsistent(d, ds[k]) && IsConsistent(d, ds[i]);
      assert forall k :: 0 <= k < |ds| ==> IsConsistent(d, ds[k]);
      if k < i {
        OffsetGrows(ds, k, i);
      } else if i < k {
        OffsetGrows(ds, i, k);
      }
    }
    LocatedOne(rs, |rs|, PlaceOf(rs[i]), i);
    assert AtTime(rs, [i], ds[i].stamp.value) == [i] + AtTime(rs, [i][1..], ds[i].stamp.value);
  }

  // ---- sorting lines sorts keys ----

  lemma {:induction false} KeyPrefix(k1: string, t1: string, k2: string, t2: string)
    requires ' ' !in k1 && ' ' !in k2 && IsStamp(t1) && IsStamp(t2)
    requires SortKey(k2, t2) < SortKey(k1, t1)
    ensures SortKey(k1, t1)[|SortKey(k2, t2)|] > ' '
  {
    var s1, s2 := SortKey(k1, t1), SortKey(k2, t2);
    StampIsWord(t1);
    assert s1[|k2|] == s2[|k2|] == ' ';
    NoSpaceBefore(k1, t1);
    NoSpaceBefore(k2, t2);
    assert s1[|k1|] == ' ';
    assert |k1| == |k2|;
    assert s1[|s2|] == t1[|t2|] && t1[|t2|] in t1;
  }

  lemma {:induction false} NoSpaceBefore(key: string, stamp: string)
    requires ' ' !in key
    ensures forall i :: 0 <= i < |key| ==> SortKey(key, stamp)[i] != ' '
  {
    forall i | 0 <= i < |key|
      ensures SortKey(key, stamp)[i] != ' '
    {
      assert key[i] in key;
    }
  }

  lemma {:induction false} LinesSortKeys(k1: string, t1: string, x1: string, k2: string, t2: string, x2: string)
    requires ' ' !in k1 && ' ' !in k2 && IsStamp(t1) && IsStamp(t2)
    requires !Less(SortKey(k2, t2) + (" " + x2), SortKey(k1, t1) + (" " + x1))
    ensures !Less(SortKey(k2, t2), SortKey(k1, t1))
  {
    if Less(SortKey(k2, t2), SortKey(k1, t1)) {
      if SortKey(k2, t2) < SortKey(k1, t1) {
        KeyPrefix(k1, t1, k2, t2);
      }
      LessExtends(SortKey(k2, t2), SortKey(k1, t1), " " + x2, " " + x1);
    }
  }

  // ---- distinct lines ----

  ghost predicate NoRepeats<T>(s: seq<T>) {
    forall j, k :: 0 <= j < k < |s| ==> s[j] != s[k]
  }

  lemma {:induction false} CountOnce<T>(s: seq<T>, x: T)
    requires NoRepeats(s)
    ensures multiset(s)[x] <= 1
  {
    if s != [] {
      assert s == [s[0]] + s[1..];
      CountOnce(s[1..], x);
      assert x == s[0] ==> x !in s[1..];
    }
  }

  lemma {:induction false} RepeatsCount<T>(s: seq<T>, j: nat, k: nat)
    requires j < k < |s| && s[j] == s[k]
    ensures multiset(s)[s[j]] >= 2
  {
    assert s == s[..j] + [s[j]] + s[j + 1..];
    assert s[k] == s[j + 1..][k - j - 1] && s[k] in s[j + 1..];
  }

  lemma {:induction false} SortNoRepeats(ls: seq<string>)
    requires NoRepeats(ls)
    ensures NoRepeats(Sort(ls))
  {
    var s := Sort(ls);
    forall j, k | 0 <= j < k < |s|
      ensures s[j] != s[k]
    {
      CountOnce(ls, s[j]);
      if s[j] == s[k] {
        RepeatsCount(s, j, k);
      }
    }
  }

  lemma {:induction false} InsertLength(x: string, ls: seq<string>)
    ensures TotalLength(Insert(x, ls)) == |x| + TotalLength(ls)
  {
    if ls != [] && !Less(x, ls[0]) {
      InsertLength(x, ls[1..]);
      assert ([ls[0]] + Insert(x, ls[1..]))[1..] == Insert(x, ls[1..]);
    } else {
      assert ([x] + ls)[1..] == ls;
    }
  }

  lemma {:induction false} SortLength(ls: seq<string>)
    ensures TotalLength(Sort(ls)) == TotalLength(ls)
  {
    if ls != [] {
      SortLength(ls[1..]);
      InsertLength(ls[0], Sort(ls[1..]));
    }
  }

  lemma {:induction false} ConcatLength(ls: seq<string>)
    ensures |Concat(ls)| == TotalLength(ls)
  {
    if ls != [] {
      ConcatLength(ls[1..]);
    }
  }

  // ---- the whole index ----

  ghost predicate AllReadable(ds: seq<Draft>) {
    forall i :: 0 <= i < |ds| && Indexable(ds[i].kind) ==> Readable(ds[i])
  }

  ghost predicate Written(d: Dialect, ds: seq<Draft>) {
    IsDialect(d) && Consistent(d, ds) && Fits(ds, |ds|) && Dated(ds, |ds|)
  }

  predicate IsRow(ds: seq<Draft>, i: int) {
    0 <= i < |ds| && Indexable(ds[i].kind) && ds[i].stamp.Some?
  }

  lemma {:induction false} LineParses(d: Dialect, ds: seq<Draft>, i: nat)
    requires Written(d, ds) && IsRow(ds, i) && IsClean(ds[i].key)
    ensures ParseLine(d, LineAt(d, ds, i)) == Ok((ds[i].key, ds[i].stamp.value, RowAt(ds, i)))
  {
    assert IsConsistent(d, ds[i]);
    ParseClean(d, ds[i].key, ds[i].stamp.value, RowAt(ds, i));
  }

  lemma {:induction false} LinesDiffer(d: Dialect, ds: seq<Draft>, i: nat, j: nat)
    requires Written(d, ds) && IsRow(ds, i) && IsRow(ds, j) && IsClean(ds[i].key) && IsClean(ds[j].key)
    requires LineAt(d, ds, i) + "\n" == LineAt(d, ds, j) + "\n"
    ensures i == j
  {
    var a, b := LineAt(d, ds, i), LineAt(d, ds, j);
    assert a == (a + "\n")[..|a|] && b == (b + "\n")[..|b|];
    LineParses(d, ds, i);
    LineParses(d, ds, j);
    FindWritten(d, ds, i);
    FindWritten(d, ds, j);
  }

  /** Each line is about the record in the same position. */
  ghost predicate Describes(d: Dialect, ds: seq<Draft>, ls: seq<string>, o: seq<nat>) {
    |o| == |ls| && forall k :: 0 <= k < |o| ==> IsRow(ds, o[k]) && ls[k] == LineAt(d, ds, o[k]) + "\n"
  }

  /** Which record each sorted line is about. */
  lemma {:induction false} OrderOf(d: Dialect, ds: seq<Draft>, ls: seq<string>) returns (o: seq<nat>)
    requires Dated(ds, |ds|)
    requires forall k :: 0 <= k < |ls| ==> ls[k] in IndexLines(d, ds, |ds|)
    ensures Describes(d, ds, ls, o)
  {
    o := [];
    for n := 0 to |ls|
      invariant |o| == n && forall k :: 0 <= k < n ==> IsRow(ds, o[k]) && ls[k] == LineAt(d, ds, o[k]) + "\n"
    {
      var at := Indexed(ds, |ds|);
      var k :| 0 <= k < |at| && IndexLines(d, ds, |ds|)[k] == ls[n];
      assert at[k] in at;
      o := o + [at[k]];
    }
  }

  function Recorded(ds: seq<Draft>, o: seq<nat>): map<nat, (string, Row)>
    requires forall k :: 0 <= k < |o| ==> o[k] < |ds|
  {
    map i | i in o :: assert exists k :: 0 <= k < |o| && o[k] == i; (ds[i].key, RowAt(ds, i))
  }

  /** The order in which the reader meets the records: each once, by rising key. */
  ghost predicate ReadingOrder(ds: seq<Draft>, o: seq<nat>) {
    NoRepeats(o) && (forall k :: 0 <= k < |o| ==> IsRow(ds, o[k])) &&
    forall k :: 0 < k < |o| ==> !Less(KeyAt(ds, o[k]), KeyAt(ds, o[k - 1]))
  }

  function KeyAt(ds: seq<Draft>, i: nat): string
    requires IsRow(ds, i)
  {
    SortKey(ds[i].key, ds[i].stamp.value)
  }

  lemma {:induction false} ReadWrittenLine(d: Dialect, ds: seq<Draft>, i: nat, st: Reading)
    requires Written(d, ds) && IsRow(ds, i) && Readable(ds[i])
    requires i !in st.used && st.count < MAX_ITEMS && !Less(KeyAt(ds, i), st.previous)
    ensures ReadLine(d, Rescanned(ds), LineAt(d, ds, i), st) ==
            Ok(Reading(st.used[i := (ds[i].key, RowAt(ds, i))], KeyAt(ds, i), st.count + 1))
  {
    LineParses(d, ds, i);
    FindWritten(d, ds, i);
  }

  ghost predicate Reads(d: Dialect, rs: seq<Scanned>, line: string, st: Reading, next: Reading) {
    ReadLine(d, rs, line, st) == Ok(next)
  }

  ghost predicate IsTrace(d: Dialect, rs: seq<Scanned>, ls: seq<string>, states: seq<Reading>) {
    |states| == |ls| + 1 && forall j :: 0 <= j < |ls| ==> Reads(d, rs, ls[j], states[j], states[j + 1])
  }

  /** A reader whose states are known accepts every line. */
  lemma {:induction false} TraceReads(d: Dialect, rs: seq<Scanned>, ls: seq<string>, states: seq<Reading>)
    requires IsTrace(d, rs, ls, states)
    ensures ReadLines(d, rs, ls, states[0]) == Ok(states[|ls|])
  {
    if ls != [] {
      assert Reads(d, rs, ls[0], states[0], states[1]);
      TraceReads(d, rs, ls[1..], states[1..]);
    }
  }

  /** The reader's state after the first rows. */
  function StateAt(ds: seq<Draft>, o: seq<nat>, k: nat): Reading
    requires k <= |o| && forall j :: 0 <= j < |o| ==> IsRow(ds, o[j])
  {
    assert forall j :: 0 <= j < k ==> o[..k][j] == o[j] && IsRow(ds, o[j]);
    Reading(Recorded(ds, o[..k]), if k == 0 then "" else KeyAt(ds, o[k - 1]), k)
  }

  lemma {:induction false} ReadNext(d: Dialect, ds: seq<Draft>, o: seq<nat>, k: nat)
    requires Written(d, ds) && AllReadable(ds) && ReadingOrder(ds, o) && |o| <= MAX_ITEMS && k < |o|
    ensures Reads(d, Rescanned(ds), LineAt(d, ds, o[k]), StateAt(ds, o, k), StateAt(ds, o, k + 1))
  {
    assert IsRow(ds, o[k]) && Readable(ds[o[k]]);
    assert o[k] !in o[..k];
    ReadWrittenLine(d, ds, o[k], StateAt(ds, o, k));
    RecordedNext(ds, o, k);
  }

  lemma {:induction false} TraceInOrder(
    d: Dialect, rs: seq<Scanned>, ds: seq<Draft>, o: seq<nat>, ls: seq<string>) returns (states: seq<Reading>)
    requires |ls| == |o| && forall j :: 0 <= j < |o| ==> IsRow(ds, o[j])
    requires forall k :: 0 <= k < |o| ==> Reads(d, rs, ls[k], StateAt(ds, o, k), StateAt(ds, o, k + 1))
    ensures IsTrace(d, rs, ls, states)
    ensures states[0] == START && states[|ls|] == StateAt(ds, o, |o|)
  {
    states := seq(|o| + 1, k requires 0 <= k <= |o| => StateAt(ds, o, k));
    assert states[0].used == map[];
  }

  lemma {:induction false} ReadInOrder(d: Dialect, ds: seq<Draft>, o: seq<nat>, ls: seq<string>)
    requires Written(d, ds) && AllReadable(ds) && ReadingOrder(ds, o) && |ls| == |o| <= MAX_ITEMS
    requires forall j :: 0 <= j < |ls| ==> ls[j] == LineAt(d, ds, o[j])
    ensures ReadLines(d, Rescanned(ds), ls, START) == Ok(StateAt(ds, o, |o|))
  {
    forall k | 0 <= k < |o|
      ensures Reads(d, Rescanned(ds), ls[k], StateAt(ds, o, k), StateAt(ds, o, k + 1))
    {
      ReadNext(d, ds, o, k);
    }
    var states := TraceInOrder(d, Rescanned(ds), ds, o, ls);
    TraceReads(d, Rescanned(ds), ls, states);
  }

  lemma {:induction false} RecordedNext(ds: seq<Draft>, o: seq<nat>, k: nat)
    requires k < |o| && forall j :: 0 <= j < |o| ==> o[j] < |ds|
    ensures Recorded(ds, o[..k + 1]) == Recorded(ds, o[..k])[o[k] := (ds[o[k]].key, RowAt(ds, o[k]))]
  {
    assert o[..k + 1] == o[..k] + [o[k]];
  }

  lemma {:induction false} SortedLinesOrder(d: Dialect, ds: seq<Draft>) returns (o: seq<nat>)
    requires Written(d, ds) && AllReadable(ds)
    ensures ReadingOrder(ds, o) && |o| == |Indexed(ds, |ds|)|
    ensures forall i :: i in o <==> IsRow(ds, i)
    ensures Describes(d, ds, Sort(IndexLines(d, ds, |ds|)), o)
  {
    var ls := Sort(IndexLines(d, ds, |ds|));
    SortedAreLines(d, ds);
    o := OrderOf(d, ds, ls);
    OrderRises(d, ds, o);
    forall i | IsRow(ds, i)
      ensures i in o
    {
      RowInOrder(d, ds, ls, o, i);
    }
  }

  lemma {:induction false} SortedAreLines(d: Dialect, ds: seq<Draft>)
    requires Dated(ds, |ds|)
    ensures var lines := IndexLines(d, ds, |ds|);
            |Sort(lines)| == |lines| && forall k :: 0 <= k < |lines| ==> Sort(lines)[k] in lines
  {
    var lines := IndexLines(d, ds, |ds|);
    var ls := Sort(lines);
    assert |ls| == |multiset(ls)| == |multiset(lines)| == |lines|;
    forall k | 0 <= k < |ls|
      ensures ls[k] in lines
    {
      assert ls[k] in multiset(ls);
    }
  }

  lemma {:induction false} OrderRises(d: Dialect, ds: seq<Draft>, o: seq<nat>)
    requires Written(d, ds) && AllReadable(ds)
    requires Describes(d, ds, Sort(IndexLines(d, ds, |ds|)), o)
    ensures ReadingOrder(ds, o)
  {
    var lines := IndexLines(d, ds, |ds|);
    SortSorted(lines);
    IndexLinesDiffer(d, ds);
    SortNoRepeats(lines);
    assert NoRepeats(o) by {
      assert forall j, k :: 0 <= j < k < |o| ==> Sort(lines)[j] != Sort(lines)[k];
    }
    forall k | 0 < k < |o|
      ensures !Less(KeyAt(ds, o[k]), KeyAt(ds, o[k - 1]))
    {
      assert Readable(ds[o[k]]) && Readable(ds[o[k - 1]]);
      KeysRise(d, ds, o[k - 1], o[k]);
    }
  }

  lemma {:induction false} RowInOrder(d: Dialect, ds: seq<Draft>, ls: seq<string>, o: seq<nat>, i: nat)
    requires Written(d, ds) && AllReadable(ds) && IsRow(ds, i)
    requires multiset(ls) == multiset(IndexLines(d, ds, |ds|)) && Describes(d, ds, ls, o)
    ensures i in o
  {
    LineWritten(d, ds, i);
    assert LineAt(d, ds, i) + "\n" in multiset(ls);
    var k :| 0 <= k < |ls| && ls[k] == LineAt(d, ds, i) + "\n";
    assert Readable(ds[i]) && Readable(ds[o[k]]);
    LinesDiffer(d, ds, i, o[k]);
  }

  lemma {:induction false} LineWritten(d: Dialect, ds: seq<Draft>, i: nat)
    requires Dated(ds, |ds|) && IsRow(ds, i)
    ensures LineAt(d, ds, i) + "\n" in IndexLines(d, ds, |ds|)
  {
    var at := Indexed(ds, |ds|);
    assert i in at;
    var k :| 0 <= k < |at| && at[k] == i;
    assert IndexLines(d, ds, |ds|)[k] == LineAt(d, ds, i) + "\n";
  }

  lemma {:induction false} IndexLinesDiffer(d: Dialect, ds: seq<Draft>)
    requires Written(d, ds) && AllReadable(ds)
    ensures NoRepeats(IndexLines(d, ds, |ds|))
  {
    var at, ls := Indexed(ds, |ds|), IndexLines(d, ds, |ds|);
    forall j, k | 0 <= j < k < |ls|
      ensures ls[j] != ls[k]
    {
      assert at[j] in at && at[k] in at;
      if ls[j] == ls[k] {
        LinesDiffer(d, ds, at[j], at[k]);
      }
    }
  }

  lemma {:induction false} KeysRise(d: Dialect, ds: seq<Draft>, i: nat, j: nat)
    requires Written(d, ds) && IsRow(ds, i) && IsRow(ds, j) && Readable(ds[i]) && Readable(ds[j])
    requires !Less(LineAt(d, ds, j) + "\n", LineAt(d, ds, i) + "\n")
    ensures !Less(KeyAt(ds, j), KeyAt(ds, i))
  {
    assert IsConsistent(d, ds[i]) && IsConsistent(d, ds[j]);
    assert IsWhitespace(' ');
    var x, y := d.encode(RowAt(ds, i)) + "\n", d.encode(RowAt(ds, j)) + "\n";
    assert LineAt(d, ds, i) + "\n" == KeyAt(ds, i) + (" " + x);
    assert LineAt(d, ds, j) + "\n" == KeyAt(ds, j) + (" " + y);
    LinesSortKeys(ds[i].key, ds[i].stamp.value, x, ds[j].key, ds[j].stamp.value, y);
  }

  lemma {:induction false} LineIsPlain(d: Dialect, ds: seq<Draft>, i: nat)
    requires Written(d, ds) && IsRow(ds, i) && IsClean(ds[i].key)
    ensures IsPlain(LineAt(d, ds, i))
  {
    assert IsConsistent(d, ds[i]);
    var json := d.encode(RowAt(ds, i));
    assert IsObjectText(json);
    StampIsWord(ds[i].stamp.value);
    var line := LineAt(d, ds, i);
    assert IsWhitespace('\n') && !IsWhitespace('{');
    assert line[|line| - 1] == json[|json| - 1] == '}';
    assert line[|line| - |json|] == '{' && '{' in line;
  }

  /** The lines the reader sees are the lines written. */
  lemma {:induction false} LinesReadBack(d: Dialect, ds: seq<Draft>, o: seq<nat>, ls: seq<string>) returns (plain: seq<string>)
    requires Written(d, ds) && AllReadable(ds) && Describes(d, ds, ls, o)
    ensures |plain| == |o| && forall k :: 0 <= k < |o| ==> IsRow(ds, o[k]) && plain[k] == LineAt(d, ds, o[k])
    ensures Filled(Lines(Concat(ls))) == plain
  {
    plain := seq(|o|, k requires 0 <= k < |o| => LineAt(d, ds, o[k]));
    forall k | 0 <= k < |o|
      ensures IsPlain(plain[k])
    {
      assert Readable(ds[o[k]]);
      LineIsPlain(d, ds, o[k]);
    }
    PlainLines(ls, plain);
  }

  /** Every record with its key and row. */
  function Rows(ds: seq<Draft>): map<nat, (string, Row)> {
    map i: nat | i < |ds| && Indexable(ds[i].kind) :: (ds[i].key, RowAt(ds, i))
  }

  lemma {:induction false} RowsRead(ds: seq<Draft>, o: seq<nat>)
    requires Dated(ds, |ds|) && (forall i :: i in o <==> IsRow(ds, i)) && |o| > 0
    requires forall j :: 0 <= j < |o| ==> IsRow(ds, o[j])
    ensures StateAt(ds, o, |o|).used == Rows(ds) && Rows(ds) != map[] && AllIndexed(Rescanned(ds), Rows(ds))
  {
    assert o[..|o|] == o;
    assert forall i :: i in o <==> i in Rows(ds);
    assert o[0] in Rows(ds);
  }

  lemma {:induction false} TextRead(d: Dialect, ds: seq<Draft>, o: seq<nat>)
    requires Written(d, ds) && AllReadable(ds) && ReadingOrder(ds, o) && |o| <= MAX_ITEMS
    requires Describes(d, ds, Sort(IndexLines(d, ds, |ds|)), o)
    ensures ReadLines(d, Rescanned(ds), Filled(Lines(Concat(Sort(IndexLines(d, ds, |ds|))))), START) ==
            Ok(StateAt(ds, o, |o|))
  {
    var plain := LinesReadBack(d, ds, o, Sort(IndexLines(d, ds, |ds|)));
    ReadInOrder(d, ds, o, plain);
  }

  lemma {:induction false} ReadIndexIs(d: Dialect, rs: seq<Scanned>, text: string, st: Reading)
    requires |text| <= MAX_METADATA && ReadLines(d, rs, Filled(Lines(text)), START) == Ok(st)
    requires AllIndexed(rs, st.used) && st.used != map[]
    ensures ReadIndex(d, rs, text) == Ok(st.used)
  {
  }

  lemma {:induction false} TextFits(d: Dialect, ds: seq<Draft>)
    requires WriteIndex(d, ds).Some?
    ensures |WriteIndex(d, ds).value| <= MAX_METADATA
  {
    SortLength(IndexLines(d, ds, |ds|));
    ConcatLength(Sort(IndexLines(d, ds, |ds|)));
  }

  lemma {:induction false} ReadsBack(d: Dialect, ds: seq<Draft>)
    requires Written(d, ds) && AllReadable(ds) && WriteIndex(d, ds).Some?
    requires 0 < |Indexed(ds, |ds|)| <= MAX_ITEMS
    ensures ReadIndex(d, Rescanned(ds), WriteIndex(d, ds).value) == Ok(Rows(ds))
  {
    var o := SortedLinesOrder(d, ds);
    TextFits(d, ds);
    TextRead(d, ds, o);
    RowsRead(ds, o);
    ReadIndexIs(d, Rescanned(ds), WriteIndex(d, ds).value, StateAt(ds, o, |o|));
  }

  // ---- what the reader refuses ----

  lemma {:induction false} EveryLineRead(d: Dialect, rs: seq<Scanned>, ls: seq<string>, st: Reading, line: string)
    returns (at: Reading)
    requires ReadLines(d, rs, ls, st).Ok? && line in ls
    ensures ReadLine(d, rs, line, at).Ok?
  {
    if line == ls[0] {
      at := st;
    } else {
      at := EveryLineRead(d, rs, ls[1..], ReadLine(d, rs, ls[0], st).value, line);
    }
  }

  lemma {:induction false} LinesCounted(d: Dialect, rs: seq<Scanned>, ls: seq<string>, st: Reading)
    requires ReadLines(d, rs, ls, st).Ok? && st.count <= MAX_ITEMS
    ensures st.count + |ls| <= MAX_ITEMS
  {
    if ls != [] {
      LinesCounted(d, rs, ls[1..], ReadLine(d, rs, ls[0], st).value);
    }
  }

  /** What the reader sees of a written row: whatever follows the last line feed of its key. */
  function SeenAt(d: Dialect, ds: seq<Draft>, i: nat): string
    requires IsRow(ds, i)
  {
    Before(Tail(ds[i].key), ds[i].stamp.value, d.encode(RowAt(ds, i)))
  }

  lemma {:induction false} TailInLine(key: string, stamp: string, json: string)
    requires IsStamp(stamp) && IsObjectText(json)
    ensures Before(Tail(key), stamp, json) in Lines(Before(key, stamp, json) + "\n")
    ensures !IsBlank(Before(Tail(key), stamp, json))
  {
    var rest := " " + stamp + " " + json;
    StampIsWord(stamp);
    assert rest[|rest| - 1] == json[|json| - 1];
    TailLine(key, rest);
    assert Before(key, stamp, json) == key + rest && Before(Tail(key), stamp, json) == Tail(key) + rest;
    assert (Tail(key) + rest)[|Tail(key)| + |rest| - |json|] == '{' && !IsWhitespace('{');
    assert '{' in Tail(key) + rest;
  }

  lemma {:induction false} SeenInLine(d: Dialect, ds: seq<Draft>, i: nat)
    requires Written(d, ds) && IsRow(ds, i)
    ensures SeenAt(d, ds, i) in Lines(LineAt(d, ds, i) + "\n") && !IsBlank(SeenAt(d, ds, i))
  {
    assert IsConsistent(d, ds[i]);
    TailInLine(ds[i].key, ds[i].stamp.value, d.encode(RowAt(ds, i)));
  }

  lemma {:induction false} SeenInText(d: Dialect, ds: seq<Draft>, i: nat)
    requires Written(d, ds) && IsRow(ds, i)
    ensures SeenAt(d, ds, i) in Filled(Lines(Concat(Sort(IndexLines(d, ds, |ds|)))))
  {
    var lines := IndexLines(d, ds, |ds|);
    SeenInLine(d, ds, i);
    LineWritten(d, ds, i);
    var k := Placed(lines, LineAt(d, ds, i) + "\n");
    AllEnded(d, ds);
    LineOfConcat(Sort(lines), k, SeenAt(d, ds, i));
    FilledHas(Lines(Concat(Sort(lines))), SeenAt(d, ds, i));
  }

  lemma {:induction false} TailRead(d: Dialect, ds: seq<Draft>, i: nat) returns (at: Reading)
    requires Written(d, ds) && WriteIndex(d, ds).Some? && IsRow(ds, i)
    requires ReadIndex(d, Rescanned(ds), WriteIndex(d, ds).value).Ok?
    ensures ReadLine(d, Rescanned(ds), SeenAt(d, ds, i), at).Ok?
  {
    SeenInText(d, ds, i);
    at := EveryLineRead(d, Rescanned(ds), Filled(Lines(WriteIndex(d, ds).value)), START, SeenAt(d, ds, i));
  }

  lemma {:induction false} Placed(lines: seq<string>, line: string) returns (k: nat)
    requires line in lines
    ensures k < |Sort(lines)| && Sort(lines)[k] == line
  {
    assert line in multiset(Sort(lines));
    k :| 0 <= k < |Sort(lines)| && Sort(lines)[k] == line;
  }

  lemma {:induction false} AllEnded(d: Dialect, ds: seq<Draft>)
    requires Dated(ds, |ds|)
    ensures var ls := Sort(IndexLines(d, ds, |ds|)); forall j :: 0 <= j < |ls| ==> Ended(ls[j])
  {
    var lines := IndexLines(d, ds, |ds|);
    var ls := Sort(lines);
    forall j | 0 <= j < |ls|
      ensures Ended(ls[j])
    {
      assert ls[j] in multiset(lines);
    }
  }

  lemma {:induction false} AcceptedReadable(d: Dialect, ds: seq<Draft>, i: nat)
    requires Written(d, ds) && WriteIndex(d, ds).Some? && IsRow(ds, i)
    requires ReadIndex(d, Rescanned(ds), WriteIndex(d, ds).value).Ok?
    ensures Readable(ds[i])
  {
    var at := TailRead(d, ds, i);
    SeenReadable(d, ds, i, at);
  }

  lemma {:induction false} SeenReadable(d: Dialect, ds: seq<Draft>, i: nat, at: Reading)
    requires Written(d, ds) && IsRow(ds, i) && ReadLine(d, Rescanned(ds), SeenAt(d, ds, i), at).Ok?
    ensures Readable(ds[i])
  {
    assert IsConsistent(d, ds[i]);
    ParseUnclean(d, ds[i].key, ds[i].stamp.value, RowAt(ds, i));
    assert IsWhitespace('\n');
    LineParses(d, ds, i);
    FindWritten(d, ds, i);
  }

  /** What the writer writes, the reader accepts, and gives every record its key and row back,
      exactly when every key is one word without an opening brace, every digest can be read,
      and there is at least one row and no more than the reader's bound. */
  lemma {:induction false} IndexAccepted(d: Dialect, ds: seq<Draft>)
    requires IsDialect(d) && Consistent(d, ds) && WriteIndex(d, ds).Some?
    ensures ReadIndex(d, Rescanned(ds), WriteIndex(d, ds).value).Ok? <==>
              AllReadable(ds) && 0 < |Indexed(ds, |ds|)| <= MAX_ITEMS
    ensures ReadIndex(d, Rescanned(ds), WriteIndex(d, ds).value).Ok? ==>
              ReadIndex(d, Rescanned(ds), WriteIndex(d, ds).value) == Ok(Rows(ds))
  {
    if AllReadable(ds) && 0 < |Indexed(ds, |ds|)| <= MAX_ITEMS {
      ReadsBack(d, ds);
    }
    if ReadIndex(d, Rescanned(ds), WriteIndex(d, ds).value).Ok? {
      AcceptedBounds(d, ds);
      ReadsBack(d, ds);
    }
  }

  /** A page with a brace in the query of its URL, which its lookup key keeps. */
  const BRACED := Draft(Response, "http://a/?{b}", Some("20240101000000"), "", "a)/?{b}", "", "", 1)

  /** Its row is refused, whatever the JSON text is: no archive that holds it can be read. */
  lemma {:induction false} BraceInKey(d: Dialect)
    requires IsDialect(d) && d.expected(BRACED.url, BRACED.request) == Some(BRACED.key)
    requires WriteIndex(d, [BRACED]).Some?
    ensures Consistent(d, [BRACED]) && ReadIndex(d, Rescanned([BRACED]), WriteIndex(d, [BRACED]).value).Err?
  {
    assert BRACED.key[4] == '{';
    assert !Readable([BRACED][0]);
    IndexAccepted(d, [BRACED]);
  }

  /** The index of no records is written and refused. */
  lemma {:induction false} NoRowsRefused(d: Dialect)
    requires IsDialect(d)
    ensures WriteIndex(d, []).Some? && ReadIndex(d, Rescanned([]), WriteIndex(d, []).value).Err?
  {
    assert IndexLines(d, [], 0) == [] && TotalLength([]) == 0;
    IndexAccepted(d, []);
  }

  lemma {:induction false} AcceptedBounds(d: Dialect, ds: seq<Draft>)
    requires Written(d, ds) && WriteIndex(d, ds).Some?
    requires ReadIndex(d, Rescanned(ds), WriteIndex(d, ds).value).Ok?
    ensures AllReadable(ds) && 0 < |Indexed(ds, |ds|)| <= MAX_ITEMS
  {
    forall i | 0 <= i < |ds| && Indexable(ds[i].kind)
      ensures Readable(ds[i])
    {
      AcceptedReadable(d, ds, i);
    }
    var o := SortedLinesOrder(d, ds);
    var plain := LinesReadBack(d, ds, o, Sort(IndexLines(d, ds, |ds|)));
    LinesCounted(d, Rescanned(ds), plain, START);
  }

  /** Keys that come from an accepted index are clean, so what is read can be written again. */
  lemma {:induction false} AcceptedKeysClean(d: Dialect, rs: seq<Scanned>, ls: seq<string>, st: Reading)
    requires ReadLines(d, rs, ls, st).Ok?
    requires forall i :: i in st.used ==> IsClean(st.used[i].0)
    ensures forall i :: i in ReadLines(d, rs, ls, st).value.used ==> IsClean(ReadLines(d, rs, ls, st).value.used[i].0)
  {
    if ls != [] {
      ParsedKeyClean(d, ls[0]);
      AcceptedKeysClean(d, rs, ls[1..], ReadLine(d, rs, ls[0], st).value);
    }
  }

  // ---- reading, then writing ----

  /** The reader has checked the key of every record it has found. */
  ghost predicate KeysChecked(d: Dialect, rs: seq<Scanned>, used: map<nat, (string, Row)>) {
    forall i :: i in used ==> i < |rs| && KeyChecked(d, rs[i], used[i].0, used[i].1)
  }

  predicate KeyChecked(d: Dialect, r: Scanned, key: string, row: Row) {
    IsClean(key) && r.url == row.url && d.expected(r.url, row.request) == Some(key)
  }

  lemma {:induction false} FoundUrl(rs: seq<Scanned>, row: Row, stamp: string)
    requires FindRecord(rs, row, stamp).Ok?
    ensures rs[FindRecord(rs, row, stamp).value].url == row.url
  {
    var at := Located(rs, |rs|, Place("archive/" + row.filename, Numeric(row.offset).value, Numeric(row.length).value, row.url));
    assert forall k :: 0 <= k < |at| ==> at[k] in at;
    AtTimeSubset(rs, at, stamp);
    var found := AtTime(rs, at, stamp);
    assert found[0] in found;
  }

  lemma {:induction false} LineChecked(d: Dialect, rs: seq<Scanned>, line: string, st: Reading)
    requires ReadLine(d, rs, line, st).Ok? && KeysChecked(d, rs, st.used)
    ensures KeysChecked(d, rs, ReadLine(d, rs, line, st).value.used)
  {
    var (key, stamp, row) := ParseLine(d, line).value;
    ParsedKeyClean(d, line);
    FoundUrl(rs, row, stamp);
  }

  lemma {:induction false} ReadKeysChecked(d: Dialect, rs: seq<Scanned>, ls: seq<string>, st: Reading)
    requires ReadLines(d, rs, ls, st).Ok? && KeysChecked(d, rs, st.used)
    ensures KeysChecked(d, rs, ReadLines(d, rs, ls, st).value.used)
  {
    if ls != [] {
      LineChecked(d, rs, ls[0], st);
      ReadKeysChecked(d, rs, ls[1..], ReadLine(d, rs, ls[0], st).value);
    }
  }

  /** A record as it was read from some accepted index: its URL, and the key and request of its row. */
  ghost predicate ReadFromIndex(d: Dialect, r: Draft) {
    exists rs, text, i :: IsRead(d, r, rs, text, i)
  }

  predicate IsRead(d: Dialect, r: Draft, rs: seq<Scanned>, text: string, i: nat) {
    var index := ReadIndex(d, rs, text);
    i < |rs| && index.Ok? && i in index.value &&
    r.url == rs[i].url && r.key == index.value[i].0 && r.request == index.value[i].1.request
  }

  lemma {:induction false} ReadKeyClean(d: Dialect, r: Draft)
    requires ReadFromIndex(d, r)
    ensures IsClean(r.key) && d.expected(r.url, r.request) == Some(r.key)
  {
    var rs, text, i :| IsRead(d, r, rs, text, i);
    ReadKeysChecked(d, rs, Filled(Lines(text)), START);
    assert KeyChecked(d, rs[i], r.key, ReadIndex(d, rs, text).value[i].1);
  }

  /** A record to be written again: compressed, with a formatted date and a digest in normal form. */
  predicate IsDerived(r: Draft) {
    r.size > 0 && (r.stamp.Some? ==> IsStamp(r.stamp.value)) && Digest.Normalize(r.digest) == Ok(r.digest)
  }

  lemma {:induction false} NormalDigest(digest: string)
    requires Digest.Normalize(digest) == Ok(digest)
    ensures DigestAgrees(digest, digest)
  {
    assert SHA256 <= digest;
    assert SHA256 + Stripped(digest) == digest;
  }

  /** Records that were read from accepted indexes, of whatever archives, are always indexed in a
      way that is accepted again, and give every record its key and row back. */
  lemma {:induction false} ReadThenWritten(d: Dialect, ds: seq<Draft>)
    requires IsDialect(d) && WriteIndex(d, ds).Some? && 0 < |Indexed(ds, |ds|)| <= MAX_ITEMS
    requires forall k :: 0 <= k < |ds| ==> ds[k].size > 0
    requires forall k :: 0 <= k < |ds| && Indexable(ds[k].kind) ==> IsDerived(ds[k]) && ReadFromIndex(d, ds[k])
    ensures ReadIndex(d, Rescanned(ds), WriteIndex(d, ds).value) == Ok(Rows(ds))
  {
    forall k | 0 <= k < |ds|
      ensures IsConsistent(d, ds[k]) && (Indexable(ds[k].kind) ==> Readable(ds[k]))
    {
      if Indexable(ds[k].kind) {
        ReadKeyClean(d, ds[k]);
        NormalDigest(ds[k].digest);
      }
    }
    IndexAccepted(d, ds);
  }

  lemma {:induction false} ParsedKeyClean(d: Dialect, line: string)
    requires ParseLine(d, line).Ok?
    ensures IsClean(ParseLine(d, line).value.0)
  {
    var p := BraceAt(line).value;
    WordsWithin(line[..p], '{');
  }

  lemma {:induction false} WordsWithin(s: string, c: char)
    requires c !in s
    ensures forall j :: 0 <= j < |Words(s)| ==> c !in Words(s)[j]
    decreases |s|
  {
    if s != "" {
      if IsWhitespace(s[0]) {
        WordsWithin(s[1..], c);
      } else {
        WordsWithin(s[WordEnd(s)..], c);
      }
    }
  }
}
