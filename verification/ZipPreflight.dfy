/** The preflight's own passes over the bytes, with 64-bit offsets that never overflow, proved
    to accept exactly the sound directories; and the reader that hides the rest of the file. */
module ZipPreflight {
  import opened Wrappers
  import opened ZipDirectory

  // ---- spans ----

  type Span = (nat, nat)

  predicate Apart(a: Span, b: Span) {
    a.1 <= b.0 || b.1 <= a.0
  }

  predicate Before(a: Span, b: Span) {
    a.0 < b.0 || (a.0 == b.0 && a.1 <= b.1)
  }

  ghost predicate AllApart(s: seq<Span>) {
    forall i, j :: 0 <= i < j < |s| ==> Apart(s[i], s[j])
  }

  ghost predicate Rising(s: seq<Span>) {
    forall i, j :: 0 <= i < j < |s| ==> Before(s[i], s[j])
  }

  ghost predicate NeighboursApart(s: seq<Span>) {
    forall i :: 0 <= i < |s| - 1 ==> s[i].1 <= s[i + 1].0
  }

  function Insert(x: Span, s: seq<Span>): seq<Span> {
    if s == [] || Before(x, s[0]) then [x] + s else [s[0]] + Insert(x, s[1..])
  }

  /** The sort of the standard library, by insertion. */
  function Sort(s: seq<Span>): seq<Span> {
    if s == [] then [] else Insert(s[0], Sort(s[1..]))
  }

  ghost predicate ApartFrom(x: Span, s: seq<Span>) {
    forall i :: 0 <= i < |s| ==> Apart(x, s[i])
  }

  lemma {:induction false} ApartCons(x: Span, s: seq<Span>)
    ensures AllApart([x] + s) <==> ApartFrom(x, s) && AllApart(s)
  {
    var t := [x] + s;
    assert forall i :: 0 <= i < |s| ==> s[i] == t[i + 1];
    assert t[0] == x;
  }

  lemma {:induction false} ApartFromCons(x: Span, y: Span, s: seq<Span>)
    ensures ApartFrom(x, [y] + s) <==> Apart(x, y) && ApartFrom(x, s)
  {
    var t := [y] + s;
    assert forall i :: 0 <= i < |s| ==> s[i] == t[i + 1];
    assert t[0] == y;
  }

  lemma {:induction false} InsertApartFrom(x: Span, y: Span, s: seq<Span>)
    ensures ApartFrom(x, Insert(y, s)) <==> Apart(x, y) && ApartFrom(x, s)
  {
    if s == [] || Before(y, s[0]) {
      ApartFromCons(x, y, s);
    } else {
      InsertApartFrom(x, y, s[1..]);
      ApartFromCons(x, s[0], Insert(y, s[1..]));
      ApartFromCons(x, s[0], s[1..]);
      assert [s[0]] + s[1..] == s;
    }
  }

  lemma {:induction false} InsertApart(x: Span, s: seq<Span>)
    ensures AllApart(Insert(x, s)) <==> ApartFrom(x, s) && AllApart(s)
  {
    if s == [] || Before(x, s[0]) {
      ApartCons(x, s);
    } else {
      InsertApart(x, s[1..]);
      ApartCons(s[0], Insert(x, s[1..]));
      InsertApartFrom(s[0], x, s[1..]);
      ApartCons(s[0], s[1..]);
      ApartFromCons(x, s[0], s[1..]);
      assert [s[0]] + s[1..] == s;
    }
  }

  /** Sorting neither makes nor resolves an overlap. */
  lemma {:induction false} SortApart(s: seq<Span>)
    ensures AllApart(Sort(s)) <==> AllApart(s)
  {
    if s != [] {
      var rest := Sort(s[1..]);
      SortApart(s[1..]);
      InsertApart(s[0], rest);
      SortApartFrom(s[0], s[1..]);
      ApartCons(s[0], s[1..]);
      assert [s[0]] + s[1..] == s;
    }
  }

  lemma {:induction false} SortApartFrom(x: Span, s: seq<Span>)
    ensures ApartFrom(x, Sort(s)) <==> ApartFrom(x, s)
  {
    if s != [] {
      SortApartFrom(x, s[1..]);
      InsertApartFrom(x, s[0], Sort(s[1..]));
      ApartFromCons(x, s[0], s[1..]);
      assert [s[0]] + s[1..] == s;
    }
  }

  ghost predicate Nonempty(s: seq<Span>) {
    forall i :: 0 <= i < |s| ==> s[i].0 < s[i].1
  }

  ghost predicate Leads(y: Span, s: seq<Span>) {
    forall i :: 0 <= i < |s| ==> Before(y, s[i])
  }

  lemma {:induction false} InsertLeads(y: Span, x: Span, s: seq<Span>)
    requires Leads(y, s) && Before(y, x)
    ensures Leads(y, Insert(x, s))
  {
    if s != [] && !Before(x, s[0]) {
      InsertLeads(y, x, s[1..]);
    }
  }

  lemma {:induction false} InsertRising(x: Span, s: seq<Span>)
    requires Rising(s) && Nonempty(s) && x.0 < x.1
    ensures Rising(Insert(x, s)) && Nonempty(Insert(x, s))
  {
    if s != [] && !Before(x, s[0]) {
      InsertRising(x, s[1..]);
      InsertLeads(s[0], x, s[1..]);
    } else if s != [] {
      assert forall i :: 0 < i < |s| ==> Before(s[0], s[i]);
      assert Leads(x, s);
    }
  }

  lemma {:induction false} SortRising(s: seq<Span>)
    requires Nonempty(s)
    ensures Rising(Sort(s)) && Nonempty(Sort(s))
  {
    if s != [] {
      SortRising(s[1..]);
      InsertRising(s[0], Sort(s[1..]));
    }
  }

  /** In sorted order only neighbours need comparing. */
  lemma {:induction false} NeighboursSuffice(s: seq<Span>)
    requires Rising(s) && Nonempty(s)
    ensures AllApart(s) <==> NeighboursApart(s)
  {
    if NeighboursApart(s) {
      forall i, j | 0 <= i < j < |s|
        ensures Apart(s[i], s[j])
      {
        if i + 1 < j {
          assert Before(s[i + 1], s[j]);
        }
      }
    }
    if AllApart(s) {
      forall i | 0 <= i < |s| - 1
        ensures s[i].1 <= s[i + 1].0
      {
        assert Apart(s[i], s[i + 1]) && Before(s[i], s[i + 1]);
      }
    }
  }

  // ---- one member ----

  method FindExtra(data: seq<byte>, name: seq<byte>) returns (r: Option<Option<seq<byte>>>)
    ensures r == Extra(data, name, 0, None)
  {
    var p: nat := 0;
    var zip64: Option<seq<byte>> := None;
    while p < |data|
      invariant p <= |data| && Extra(data, name, p, zip64) == Extra(data, name, 0, None)
      decreases |data| - p
    {
      if |data| - p < 4 {
        return None;
      }
      var tag := U16(data, p);
      var end := p + 4 + U16(data, p + 2);
      if end > |data| {
        return None;
      }
      var value := data[p + 4..end];
      if tag == 1 {
        if zip64.Some? {
          return None;
        }
        zip64 := Some(value);
      }
      if tag == 0x7075 && (|value| < 5 || value[5..] != name) {
        return None;
      }
      p := end;
    }
    return Some(zip64);
  }

  method Take64(data: seq<byte>, p: nat) returns (r: Option<(u64, nat)>)
    ensures p + 8 > |data| ==> r.None?
    ensures p + 8 <= |data| ==> r == Some((U64(data, p) as u64, p + 8))
  {
    if p + 8 > |data| {
      return None;
    }
    return Some((U64(data, p) as u64, p + 8));
  }

  /** The three saturating fields, widened in the order the 64-bit field lists them. */
  method TakeSizes(h: seq<byte>, z: seq<byte>) returns (r: Option<Sizes>)
    requires |h| >= 46
    ensures r == ReadSizes(h, z)
  {
    var p: nat := 0;
    var unpacked, packed, local := U32(h, 24) as u64, U32(h, 20) as u64, U32(h, 42) as u64;
    if unpacked as int == U32MAX {
      var t := Take64(z, p);
      if t.None? {
        return None;
      }
      unpacked, p := t.value.0, t.value.1;
    }
    if packed as int == U32MAX {
      var t := Take64(z, p);
      if t.None? {
        return None;
      }
      packed, p := t.value.0, t.value.1;
    }
    if local as int == U32MAX {
      var t := Take64(z, p);
      if t.None? {
        return None;
      }
      local, p := t.value.0, t.value.1;
    }
    var disk := U16(h, 34);
    if disk == U16MAX {
      if p + 4 > |z| {
        return None;
      }
      disk := U32(z, p);
    }
    if disk != 0 {
      return None;
    }
    return Some(Sizes(unpacked as int, packed as int, local as int));
  }

  method LocalSpan(file: seq<byte>, start: u64, h: seq<byte>, name: seq<byte>, s: Sizes) returns (end: Option<u64>)
    requires |h| >= 46 && start as int <= |file| < 0x8000_0000_0000_0000 && |name| <= MAX_NAME
    requires s.local < 0x1_0000_0000_0000_0000 && s.packed < 0x1_0000_0000_0000_0000
    ensures LocalEnd(file, start as int, h, name, s) == if end.Some? then Some(end.value as int) else None
  {
    var local := s.local as u64;
    var headerEnd := CheckedAdd(local, 30);
    if headerEnd.None? || headerEnd.value > start {
      return None;
    }
    var lh := file[local..local + 30];
    if !Signed(lh, 0, 3, 4) || U16(lh, 6) != U16(h, 8) || U16(lh, 8) != U16(h, 10) || U16(lh, 26) != |name| {
      return None;
    }
    var localExtra := U16(lh, 28);
    var data: u64 := local + 30 + (|name| + localExtra) as u64;
    var dataEnd := CheckedAdd(data, s.packed as u64);
    if dataEnd.None? || dataEnd.value > start {
      return None;
    }
    var nameEnd: u64 := local + 30 + |name| as u64;
    if file[local + 30..nameEnd] != name {
      return None;
    }
    var extras := FindExtra(file[nameEnd..data], name);
    if extras.None? {
      return None;
    }
    return dataEnd;
  }

  lemma {:induction false} SnapshotAt(file: seq<byte>, start: nat, from: nat, upto: nat)
    requires start <= from <= upto <= |file|
    ensures file[start..][from - start..upto - start] == file[from..upto]
  {
  }

  method ParseRecord(file: seq<byte>, snapshot: seq<byte>, d: End, start: u64, directoryEnd: u64, position: u64)
    returns (r: Option<Header>)
    requires EndOk(file, d) && |file| < 0x8000_0000_0000_0000
    requires start as int == d.start && directoryEnd as int == d.directoryEnd && snapshot == file[d.start..]
    requires start <= position
    ensures r == ReadRecord(file, d, position as int)
  {
    var headerEnd := CheckedAdd(position, 46);
    if headerEnd.None? || headerEnd.value > directoryEnd {
      return None;
    }
    var at := (position - start) as int;
    SnapshotAt(file, d.start, position as int, position as int + 46);
    var h := snapshot[at..at + 46];
    assert h == file[position as int..position as int + 46];
    if !Signed(h, 0, 1, 2) {
      return None;
    }
    var nameLen, extraLen, commentLen := U16(h, 28), U16(h, 30), U16(h, 32);
    var next: u64 := position + 46 + (nameLen + extraLen + commentLen) as u64;
    if next > directoryEnd || nameLen == 0 || nameLen > MAX_NAME {
      return None;
    }
    var nameAt, extraAt := at + 46, at + 46 + nameLen;
    SnapshotAt(file, d.start, d.start + nameAt, d.start + extraAt);
    SnapshotAt(file, d.start, d.start + extraAt, d.start + extraAt + extraLen);
    return Some(Header(h, snapshot[nameAt..extraAt], snapshot[extraAt..extraAt + extraLen], next as int));
  }

  method TakeCheckedSizes(h: seq<byte>, z: Option<seq<byte>>) returns (r: Option<Sizes>)
    requires |h| >= 46
    ensures r == CheckedSizes(h, z)
    ensures r.Some? ==> r.value.packed < 0x1_0000_0000_0000_0000 && r.value.local < 0x1_0000_0000_0000_0000
  {
    var extra := if z.Some? then z.value else [];
    r := TakeSizes(h, extra);
    if r.None? {
      return;
    }
    SizesBounded(h, extra);
    var how := U16(h, 10);
    if how !in {0, 8} || (how == 0 && r.value.packed != r.value.unpacked) {
      return None;
    }
  }

  method ParseMember(u: Utf8, file: seq<byte>, snapshot: seq<byte>, d: End, start: u64, directoryEnd: u64, position: u64)
    returns (m: Option<Member>)
    requires EndOk(file, d) && |file| < 0x8000_0000_0000_0000
    requires start as int == d.start && directoryEnd as int == d.directoryEnd && snapshot == file[d.start..]
    requires start <= position
    ensures m == ReadMember(u, file, d, position as int)
  {
    var record := ParseRecord(file, snapshot, d, start, directoryEnd, position);
    if record.None? {
      return None;
    }
    var Header(h, name, extra, next) := record.value;
    if !NameOk(u, name, U16(h, 8)) {
      return None;
    }
    var z := FindExtra(extra, name);
    if z.None? {
      return None;
    }
    var sizes := TakeCheckedSizes(h, z.value);
    if sizes.None? {
      return None;
    }
    var end := LocalSpan(file, start, h, name, sizes.value);
    if end.None? {
      return None;
    }
    return Some(Member(position as int, next, name, sizes.value.packed, sizes.value.unpacked,
                       sizes.value.local, end.value as int));
  }

  lemma {:induction false} SizesBounded(h: seq<byte>, z: seq<byte>)
    requires |h| >= 46 && ReadSizes(h, z).Some?
    ensures var s := ReadSizes(h, z).value;
            s.unpacked < 0x1_0000_0000_0000_0000 && s.packed < 0x1_0000_0000_0000_0000 &&
            s.local < 0x1_0000_0000_0000_0000
  {
  }

  // ---- the end of the directory ----

  method FindEndRecord(tail: seq<byte>) returns (at: Option<nat>)
    ensures at == FindEnd(tail, if |tail| <= 21 then 0 else |tail| - 21)
  {
    var n: nat := if |tail| <= 21 then 0 else |tail| - 21;
    while n > 0
      invariant n == 0 || n + 21 <= |tail|
      invariant FindEnd(tail, n) == FindEnd(tail, if |tail| <= 21 then 0 else |tail| - 21)
    {
      n := n - 1;
      if Signed(tail, n, 5, 6) && n + 22 + U16(tail, n + 20) == |tail| {
        return Some(n);
      }
    }
    return None;
  }

  method ReadEndRecord64(file: seq<byte>, endAt: u64, count: nat, length: nat, start: nat) returns (d: Option<End>)
    requires HasLocator(file, endAt as int) && |file| < 0x8000_0000_0000_0000
    ensures d == ReadEnd64(file, endAt as int, count, length, start)
  {
    var locator := (endAt - 20) as int;
    if U32(file, locator + 4) != 0 || U32(file, locator + 16) != 1 {
      return None;
    }
    var at := U64(file, locator + 8) as u64;
    var end := CheckedAdd(at, 56);
    if end.None? || end.value > endAt - 20 {
      return None;
    }
    if !Signed(file, at as int, 6, 6) || U64(file, at as int + 4) != 44 || at + 56 != endAt - 20 {
      return None;
    }
    var z := at as int;
    if U32(file, z + 16) != 0 || U32(file, z + 20) != 0 || U64(file, z + 24) != U64(file, z + 32) {
      return None;
    }
    var values := (U64(file, z + 32), U64(file, z + 40), U64(file, z + 48));
    if (count != U16MAX && count != values.0) || (length != U32MAX && length != values.1) ||
       (start != U32MAX && start != values.2)
    {
      return None;
    }
    return Some(End(endAt as int, z, values.0, values.1, values.2));
  }

  /** The record at this place; a field at its largest value stands for one in the 64-bit record. */
  method TakeEndRecord(file: seq<byte>, end: u64) returns (d: Option<End>)
    requires end as int + 22 <= |file| < 0x8000_0000_0000_0000
    ensures d == ReadEndAt(file, end as int)
  {
    var e := end as int;
    if U16(file, e + 4) != 0 || U16(file, e + 6) != 0 || U16(file, e + 8) != U16(file, e + 10) {
      return None;
    }
    var count, length, start := U16(file, e + 10), U32(file, e + 12), U32(file, e + 16);
    if HasLocator(file, e) {
      d := ReadEndRecord64(file, end, count, length, start);
      return;
    }
    if count == U16MAX || length == U32MAX || start == U32MAX {
      return None;
    }
    return Some(End(e, e, count, length, start));
  }

  method ReadEndRecord(file: seq<byte>) returns (d: Option<End>)
    requires |file| < 0x8000_0000_0000_0000
    ensures d == ReadEnd(file)
  {
    var found := FindEndRecord(file[TailStart(file)..]);
    if found.None? {
      return None;
    }
    d := TakeEndRecord(file, (TailStart(file) + found.value) as u64);
  }

  lemma {:induction false} EndInside(file: seq<byte>)
    requires ReadEnd(file).Some?
    ensures var d := ReadEnd(file).value; d.directoryEnd <= d.endAt && d.endAt + 22 <= |file|
  {
  }

  ghost predicate NoneNested(file: seq<byte>, d: End) {
    forall at :: d.start <= at <= |file| - 4 ==> !Nested(file, d, at)
  }

  method ScanSignatures(file: seq<byte>, d: End) returns (ok: bool)
    requires d.start <= |file|
    ensures ok <==> NoneNested(file, d)
  {
    var at := d.start;
    while at + 4 <= |file|
      invariant d.start <= at <= |file| && forall k :: d.start <= k < at ==> !Nested(file, d, k)
    {
      if Nested(file, d, at) {
        return false;
      }
      at := at + 1;
    }
    return true;
  }

  // ---- all members ----

  function SpansOf(ms: seq<Member>): (s: seq<Span>)
    ensures |s| == |ms|
  {
    seq(|ms|, i requires 0 <= i < |ms| => (ms[i].local, ms[i].end))
  }

  function NamesOf(ms: seq<Member>): set<seq<byte>> {
    set m | m in ms :: m.name
  }

  /** What the loop has checked of the members so far. */
  ghost predicate Checked(ms: seq<Member>, names: set<seq<byte>>, inflated: nat, ranges: seq<Span>) {
    DistinctNames(ms) && names == NamesOf(ms) && inflated == Total(ms) <= MAX_INFLATED && ranges == SpansOf(ms)
  }

  lemma {:induction false} CheckedNext(ms: seq<Member>, names: set<seq<byte>>, inflated: nat, ranges: seq<Span>, m: Member)
    requires Checked(ms, names, inflated, ranges)
    ensures Total(ms + [m]) == inflated + m.unpacked
    ensures m.name in names ==> !DistinctNames(ms + [m])
    ensures m.name !in names && inflated + m.unpacked <= MAX_INFLATED ==>
              Checked(ms + [m], names + {m.name}, inflated + m.unpacked, ranges + [(m.local, m.end)])
  {
    var next := ms + [m];
    assert next[..|ms|] == ms;
    if m.name in names {
      var k :| 0 <= k < |ms| && ms[k].name == m.name;
      assert next[k].name == next[|ms|].name;
    } else {
      assert forall k :: 0 <= k < |ms| ==> ms[k] in ms && ms[k].name in names;
      assert SpansOf(next) == SpansOf(ms) + [(m.local, m.end)];
      assert NamesOf(next) == names + {m.name};
    }
  }

  /** More members make neither names distinct nor the total smaller. */
  lemma {:induction false} SoundPrefix(ms: seq<Member>, rest: seq<Member>)
    ensures DistinctNames(ms + rest) ==> DistinctNames(ms)
    ensures Total(ms) <= Total(ms + rest)
  {
    var all := ms + rest;
    assert forall k :: 0 <= k < |ms| ==> all[k] == ms[k];
    if rest == [] {
      assert all == ms;
    } else {
      assert all[..|all| - 1] == ms + rest[..|rest| - 1];
      SoundPrefix(ms, rest[..|rest| - 1]);
    }
  }

  function Joined(ms: seq<Member>, rest: Option<seq<Member>>): Option<seq<Member>> {
    if rest.None? then None else Some(ms + rest.value)
  }

  lemma {:induction false} SpansApart(ms: seq<Member>)
    ensures AllApart(SpansOf(ms)) <==> DisjointMembers(ms)
  {
    var s := SpansOf(ms);
    if AllApart(s) {
      forall i, j | 0 <= i < j < |ms|
        ensures ms[i].end <= ms[j].local || ms[j].end <= ms[i].local
      {
        assert Apart(s[i], s[j]);
      }
    }
  }

  method CheckOverlaps(ranges: seq<Span>) returns (ok: bool)
    requires Nonempty(ranges)
    ensures ok <==> AllApart(ranges)
  {
    var sorted := Sort(ranges);
    SortApart(ranges);
    SortRising(ranges);
    NeighboursSuffice(sorted);
    var k := 0;
    while k + 1 < |sorted|
      invariant 0 <= k && forall i :: 0 <= i < k && i + 1 < |sorted| ==> sorted[i].1 <= sorted[i + 1].0
    {
      if sorted[k].1 > sorted[k + 1].0 {
        return false;
      }
      k := k + 1;
    }
    return true;
  }

  /** The reader gives at each place what the file has there. */
  ghost predicate ReadsFile(read: ReadAt, u: Utf8, file: seq<byte>, d: End)
    requires EndOk(file, d)
  {
    forall at: nat :: ReadsThere(read, u, file, d, at)
  }

  ghost predicate ReadsThere(read: ReadAt, u: Utf8, file: seq<byte>, d: End, at: nat)
    requires EndOk(file, d)
  {
    read(at) == MemberReader(u, file, d)(at)
  }

  method NextMember(u: Utf8, file: seq<byte>, snapshot: seq<byte>, d: End, ghost read: ReadAt,
                    start: u64, directoryEnd: u64, position: u64) returns (m: Option<Member>)
    requires EndOk(file, d) && |file| < 0x8000_0000_0000_0000 && ReadsFile(read, u, file, d)
    requires start as int == d.start && directoryEnd as int == d.directoryEnd && snapshot == file[d.start..]
    requires start <= position
    ensures m == read(position as int)
    ensures m.Some? ==> Placed(d, m.value, position as int) && m.value.unpacked < 0x1_0000_0000_0000_0000
  {
    assert ReadsThere(read, u, file, d, position as int);
    m := ParseMember(u, file, snapshot, d, start, directoryEnd, position);
    if m.Some? {
      UnpackedBounded(u, file, d, position as int);
    }
  }

  ghost predicate Good(d: End, whole: Option<seq<Member>>) {
    whole.Some? && SoundMembers(d, whole.value)
  }

  lemma {:induction false} Spoiled(d: End, ms: seq<Member>, rest: Option<seq<Member>>)
    requires !DistinctNames(ms) || Total(ms) > MAX_INFLATED
    ensures !Good(d, Joined(ms, rest))
  {
    if rest.Some? {
      SoundPrefix(ms, rest.value);
    }
  }

  lemma {:induction false} MembersNext(read: ReadAt, at: nat, left: nat, ms: seq<Member>)
    requires left > 0
    ensures Joined(ms, Members(read, at, left)) ==
            if read(at).None? then None else Joined(ms + [read(at).value], Members(read, read(at).value.next, left - 1))
  {
    if read(at).Some? {
      JoinedNext(ms, read(at).value, Members(read, read(at).value.next, left - 1));
    }
  }

  /** The name and size checks on one more member. */
  method CountMember(ghost ms: seq<Member>, names: set<seq<byte>>, inflated: u64, ranges: seq<Span>, m: Member)
    returns (ok: bool, names': set<seq<byte>>, inflated': u64, ranges': seq<Span>)
    requires Checked(ms, names, inflated as int, ranges) && Nonempty(ranges)
    requires m.local < m.end && m.unpacked < 0x1_0000_0000_0000_0000
    ensures ok ==> Checked(ms + [m], names', inflated' as int, ranges') && Nonempty(ranges')
    ensures !ok ==> !DistinctNames(ms + [m]) || Total(ms + [m]) > MAX_INFLATED
  {
    CheckedNext(ms, names, inflated as int, ranges, m);
    names', inflated', ranges' := names, inflated, ranges;
    if m.name in names {
      return false, names', inflated', ranges';
    }
    names' := names + {m.name};
    var total := CheckedAdd(inflated, m.unpacked as u64);
    if total.None? || total.value as int > MAX_INFLATED {
      return false, names', inflated', ranges';
    }
    inflated' := total.value;
    ranges' := ranges + [(m.local, m.end)];
    return true, names', inflated', ranges';
  }

  /** The loop over the directory records, and the overlap check that follows it. */
  method CheckMembers(u: Utf8, file: seq<byte>, d: End, ghost read: ReadAt) returns (ok: bool)
    requires EndOk(file, d) && |file| < 0x8000_0000_0000_0000 && ReadsFile(read, u, file, d)
    ensures ok <==> Good(d, Members(read, d.start, d.count))
  {
    var snapshot := file[d.start..];
    var start, directoryEnd := d.start as u64, d.directoryEnd as u64;
    var position := start;
    var names: set<seq<byte>> := {};
    var ranges: seq<Span> := [];
    var inflated: u64 := 0;
    ghost var ms: seq<Member> := [];
    ghost var whole := Members(read, d.start, d.count);
    JoinedNothing(whole);
    for i := 0 to d.count
      invariant start <= position && position as int == NextAfter(d, ms)
      invariant whole == Joined(ms, Members(read, position as int, d.count - i))
      invariant Checked(ms, names, inflated as int, ranges) && Nonempty(ranges)
    {
      var m := NextMember(u, file, snapshot, d, read, start, directoryEnd, position);
      MembersNext(read, position as int, d.count - i, ms);
      if m.None? {
        return false;
      }
      ok, names, inflated, ranges := CountMember(ms, names, inflated, ranges, m.value);
      if !ok {
        Spoiled(d, ms + [m.value], Members(read, m.value.next, d.count - i - 1));
        return;
      }
      position := m.value.next as u64;
      ms := ms + [m.value];
    }
    assert whole == Some(ms) by {
      assert ms + [] == ms;
    }
    if position != directoryEnd {
      return false;
    }
    SpansApart(ms);
    ok := CheckOverlaps(ranges);
  }

  lemma {:induction false} JoinedNothing(rest: Option<seq<Member>>)
    ensures Joined([], rest) == rest
  {
    assert rest.Some? ==> [] + rest.value == rest.value;
  }

  lemma {:induction false} JoinedNext(ms: seq<Member>, m: Member, rest: Option<seq<Member>>)
    ensures Joined(ms, if rest.None? then None else Some([m] + rest.value)) == Joined(ms + [m], rest)
  {
    assert rest.Some? ==> ms + ([m] + rest.value) == ms + [m] + rest.value;
  }

  lemma {:induction false} UnpackedBounded(u: Utf8, file: seq<byte>, d: End, at: nat)
    requires EndOk(file, d) && d.start <= at && ReadMember(u, file, d, at).Some?
    ensures ReadMember(u, file, d, at).value.unpacked < 0x1_0000_0000_0000_0000
  {
    var r := ReadRecord(file, d, at).value;
    var z := Extra(r.extra, r.name, 0, None).value;
    SizesBounded(r.h, if z.Some? then z.value else []);
  }

  /** The preflight accepts exactly the sound directories. A sound one is handed on as the
      frozen bytes from its start to the end of the file. */
  method Validate(u: Utf8, file: seq<byte>) returns (r: Option<Directory>)
    requires |file| < 0x8000_0000_0000_0000
    ensures r.Some? <==> SoundDirectory(u, file)
    ensures r.Some? ==>
      var d := ReadEnd(file).value; r.value == Directory(d.count, d.start, file[d.start..])
  {
    var end := ReadEndRecord(file);
    if end.None? {
      return None;
    }
    EndInside(file);
    var d := end.value;
    if d.count > MAX_MEMBERS || d.length > MAX_METADATA || d.start + d.length != d.directoryEnd {
      return None;
    }
    var clean := ScanSignatures(file, d);
    if !clean {
      return None;
    }
    assert ReadsFile(MemberReader(u, file, d), u, file, d);
    var sound := CheckMembers(u, file, d, MemberReader(u, file, d));
    return if sound then Some(Directory(d.count, d.start, file[d.start..])) else None;
  }

  // ---- what the ZIP library sees ----

  /** The file as the library sees it: nothing but zeros before the directory. */
  function Visible(d: Directory): (v: seq<byte>)
    ensures |v| == d.start + |d.data|
  {
    seq(d.start, _ => 0) + d.data
  }

  /** The reader during construction of the library's archive. */
  class Input {
    const directory: Directory
    var position: nat

    constructor (directory: Directory)
      ensures this.directory == directory && position == 0
    {
      this.directory := directory;
      position := 0;
    }

    /** Up to `size` bytes from the position on; none only at the end. A read that would see
        nothing but the bytes before the directory is refused. */
    method Read(size: nat) returns (r: Option<seq<byte>>)
      modifies this`position
      ensures var seen := if old(position) + size <= |Visible(directory)| then old(position) + size else |Visible(directory)|;
              r.None? <==> old(position) < seen <= directory.start
      ensures r.None? ==> position == old(position)
      ensures r.Some? ==>
        position == old(position) + |r.value| && |r.value| <= size &&
        (r.value == [] <==> size == 0 || old(position) >= |Visible(directory)|) &&
        (r.value != [] ==> position <= |Visible(directory)| && r.value == Visible(directory)[old(position)..position])
    {
      var end := directory.start + |directory.data|;
      var left := if end <= position then 0 else end - position;
      var n := if size <= left then size else left;
      if n == 0 {
        return Some([]);
      }
      var before := if directory.start <= position then 0 else directory.start - position;
      var prefix := if before <= n then before else n;
      if prefix == n {
        return None;
      }
      var at := position + prefix - directory.start;
      r := Some(seq(prefix, _ => 0) + directory.data[at..at + n - prefix]);
      position := position + n;
      forall i | 0 <= i < n
        ensures r.value[i] == Visible(directory)[old(position) + i]
      {
      }
      assert r.value == Visible(directory)[old(position)..position];
    }
  }
}
