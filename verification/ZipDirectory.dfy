/** The preflight of an untrusted ZIP directory (PKWARE APPNOTE 6.3.10, sections 4.3.7, 4.3.12,
    4.3.14 to 4.3.16 and 4.5.3). The functions say what the bytes mean, in unbounded numbers;
    the methods are the program's own passes over them, in 64-bit numbers. */
module ZipDirectory {
  import opened Wrappers

  const MAX_INFLATED := 64 * 1024 * 1024 * 1024
  const MAX_METADATA := 32 * 1024 * 1024
  const MAX_MEMBERS := 10_000
  const MAX_NAME := 1024
  const U16MAX := 0xFFFF
  const U32MAX := 0xFFFF_FFFF

  type byte = b: int | 0 <= b < 256
  newtype u64 = n: int | 0 <= n < 0x1_0000_0000_0000_0000

  type Utf8 = seq<byte> -> Option<string>

  // ---- fields ----

  function U16(b: seq<byte>, p: nat): (n: nat)
    requires p + 2 <= |b|
    ensures n <= U16MAX
  {
    (b[p] as int) + 256 * (b[p + 1] as int)
  }

  function U32(b: seq<byte>, p: nat): (n: nat)
    requires p + 4 <= |b|
    ensures n <= U32MAX
  {
    U16(b, p) + 0x1_0000 * U16(b, p + 2)
  }

  function U64(b: seq<byte>, p: nat): (n: nat)
    requires p + 8 <= |b|
    ensures n < 0x1_0000_0000_0000_0000
  {
    U32(b, p) + 0x1_0000_0000 * U32(b, p + 4)
  }

  predicate Signed(b: seq<byte>, p: nat, kind: byte, version: byte) {
    p + 4 <= |b| && b[p] == 0x50 && b[p + 1] == 0x4B && b[p + 2] == kind && b[p + 3] == version
  }

  function CheckedAdd(a: u64, b: u64): (r: Option<u64>)
    ensures r.Some? <==> a as int + b as int < 0x1_0000_0000_0000_0000
    ensures r.Some? ==> r.value as int == a as int + b as int
  {
    if a as int + b as int < 0x1_0000_0000_0000_0000 then Some(a + b) else None
  }

  // ---- the end of the directory ----

  /** Where the directory lies and how it ends. */
  datatype End = End(endAt: nat, directoryEnd: nat, count: nat, length: nat, start: nat)

  /** The last place below `n` where an end record fits the rest of the file exactly. */
  function FindEnd(tail: seq<byte>, n: nat): (at: Option<nat>)
    requires n == 0 || n + 21 <= |tail|
    ensures at.Some? ==> at.value + 22 <= |tail|
  {
    if n == 0 then None
    else if Signed(tail, n - 1, 5, 6) && n - 1 + 22 + U16(tail, n - 1 + 20) == |tail| then Some(n - 1)
    else FindEnd(tail, n - 1)
  }

  function TailStart(file: seq<byte>): nat {
    if |file| <= 22 + U16MAX then 0 else |file| - (22 + U16MAX)
  }

  function EndAt(file: seq<byte>): (at: Option<nat>)
    ensures at.Some? ==> at.value + 22 <= |file|
  {
    var tail := file[TailStart(file)..];
    var p := FindEnd(tail, if |tail| <= 21 then 0 else |tail| - 21);
    if p.Some? then Some(TailStart(file) + p.value) else None
  }

  predicate HasLocator(file: seq<byte>, endAt: nat) {
    20 <= endAt <= |file| && Signed(file, endAt - 20, 6, 7)
  }

  /** The 64-bit end record before its locator, when the two are consistent. */
  function ReadEnd64(file: seq<byte>, endAt: nat, count: nat, length: nat, start: nat): Option<End>
    requires HasLocator(file, endAt)
  {
    var at := U64(file, endAt - 20 + 8);
    if U32(file, endAt - 20 + 4) != 0 || U32(file, endAt - 20 + 16) != 1 || at + 56 != endAt - 20 then None
    else if !Signed(file, at, 6, 6) || U64(file, at + 4) != 44 then None
    else if U32(file, at + 16) != 0 || U32(file, at + 20) != 0 || U64(file, at + 24) != U64(file, at + 32) then None
    else
      var count64, length64, start64 := U64(file, at + 32), U64(file, at + 40), U64(file, at + 48);
      if (count != U16MAX && count != count64) || (length != U32MAX && length != length64) ||
         (start != U32MAX && start != start64) then None
      else Some(End(endAt, at, count64, length64, start64))
  }

  /** The end record as it is, unless a field is saturated. */
  function PlainEnd(e: nat, count: nat, length: nat, start: nat): Option<End> {
    if count == U16MAX || length == U32MAX || start == U32MAX then None else Some(End(e, e, count, length, start))
  }

  function ReadEndAt(file: seq<byte>, e: nat): Option<End>
    requires e + 22 <= |file|
  {
    var count, length, start := U16(file, e + 10), U32(file, e + 12), U32(file, e + 16);
    if U16(file, e + 4) != 0 || U16(file, e + 6) != 0 || U16(file, e + 8) != count then None
    else if HasLocator(file, e) then ReadEnd64(file, e, count, length, start)
    else PlainEnd(e, count, length, start)
  }

  function ReadEnd(file: seq<byte>): Option<End> {
    var found := EndAt(file);
    if found.None? then None else ReadEndAt(file, found.value)
  }

  predicate EndOk(file: seq<byte>, d: End) {
    d.count <= MAX_MEMBERS && d.length <= MAX_METADATA && d.start + d.length == d.directoryEnd &&
    d.directoryEnd <= d.endAt && d.endAt + 22 <= |file|
  }

  /** An end signature somewhere in the directory that is not the end found. */
  predicate Nested(file: seq<byte>, d: End, at: nat) {
    (Signed(file, at, 5, 6) && at != d.endAt) || (Signed(file, at, 6, 6) && at != d.directoryEnd) ||
    (Signed(file, at, 6, 7) && (d.directoryEnd == d.endAt || at != d.endAt - 20))
  }

  // ---- one member ----

  /** The value of the 64-bit extra field among the fields from `p` on. */
  function Extra(data: seq<byte>, name: seq<byte>, p: nat, found: Option<seq<byte>>): Option<Option<seq<byte>>>
    requires p <= |data|
    decreases |data| - p
  {
    if p == |data| then Some(found)
    else if |data| - p < 4 then None
    else
      var tag, end := U16(data, p), p + 4 + U16(data, p + 2);
      if end > |data| then None
      else
        var value := data[p + 4..end];
        if tag == 1 && found.Some? then None
        else if tag == 0x7075 && (|value| < 5 || value[5..] != name) then None
        else Extra(data, name, end, if tag == 1 then Some(value) else found)
  }

  /** A 32-bit field, or the next 64-bit value when it is saturated. */
  function Widened(value: nat, z: seq<byte>, p: nat): Option<(nat, nat)> {
    if value != U32MAX then Some((value, p))
    else if p + 8 > |z| then None
    else Some((U64(z, p), p + 8))
  }

  function Split(s: string): seq<string>
  {
    if s == "" then [""]
    else
      var rest := Split(s[1..]);
      if s[0] == '/' then [""] + rest
      else if rest == [] then [[s[0]]] else [[s[0]] + rest[0]] + rest[1..]
  }

  predicate IsControl(c: char) {
    c as int < 32 || 127 <= c as int < 160
  }

  /** A relative UTF-8 path without special segments or characters, not encrypted. */
  predicate NameOk(u: Utf8, name: seq<byte>, flags: nat) {
    u(name).Some? &&
    var text := u(name).value;
    ((flags / 0x800) % 2 == 1 || forall i :: 0 <= i < |name| ==> name[i] < 128) &&
    (forall c :: c in text ==> c != '\\' && c != ':' && !IsControl(c)) &&
    (text == "" || text[0] != '/') && "." !in Split(text) && ".." !in Split(text) &&
    flags % 2 == 0 && (flags / 0x40) % 2 == 0 && (flags / 0x2000) % 2 == 0
  }

  /** A member: its directory record, its name and sizes, and its span among the local data. */
  datatype Member = Member(
    at: nat, next: nat, name: seq<byte>, packed: nat, unpacked: nat, local: nat, end: nat)

  datatype Sizes = Sizes(unpacked: nat, packed: nat, local: nat)

  /** Sizes and local offset, from the record and its 64-bit field. */
  function ReadSizes(h: seq<byte>, z: seq<byte>): Option<Sizes>
    requires |h| >= 46
  {
    var unpacked := Widened(U32(h, 24), z, 0);
    if unpacked.None? then None
    else
      var packed := Widened(U32(h, 20), z, unpacked.value.1);
      if packed.None? then None
      else
        var local := Widened(U32(h, 42), z, packed.value.1);
        if local.None? then None
        else
          var p := local.value.1;
          if U16(h, 34) == U16MAX && p + 4 > |z| then None
          else if (if U16(h, 34) == U16MAX then U32(z, p) else U16(h, 34)) != 0 then None
          else Some(Sizes(unpacked.value.0, packed.value.0, local.value.0))
  }

  /** Where a member's local header and data end, when the header agrees with the directory. */
  function LocalEnd(file: seq<byte>, start: nat, h: seq<byte>, name: seq<byte>, s: Sizes): (end: Option<nat>)
    requires |h| >= 46 && start <= |file|
    ensures end.Some? ==> s.local + 30 + |name| + s.packed <= end.value <= start
  {
    if s.local + 30 > start then None
    else
      var lh := file[s.local..s.local + 30];
      if !Signed(lh, 0, 3, 4) || U16(lh, 6) != U16(h, 8) || U16(lh, 8) != U16(h, 10) || U16(lh, 26) != |name| then None
      else
        var extraAt := s.local + 30 + |name|;
        var data := extraAt + U16(lh, 28);
        if data + s.packed > start then None
        else if file[s.local + 30..extraAt] != name then None
        else if Extra(file[extraAt..data], name, 0, None).None? then None
        else Some(data + s.packed)
  }

  /** A directory record: its fixed part, its name and extra fields, and where the next one is. */
  datatype Header = Header(h: seq<byte>, name: seq<byte>, extra: seq<byte>, next: nat)

  function ReadRecord(file: seq<byte>, d: End, at: nat): (r: Option<Header>)
    requires EndOk(file, d) && d.start <= at
    ensures r.Some? ==> |r.value.h| == 46 && 0 < |r.value.name| <= MAX_NAME && at + 46 < r.value.next <= d.directoryEnd
  {
    if at + 46 > d.directoryEnd then None
    else
      var h := file[at..at + 46];
      var nameEnd := at + 46 + U16(h, 28);
      var extraEnd := nameEnd + U16(h, 30);
      var next := extraEnd + U16(h, 32);
      if !Signed(h, 0, 1, 2) || next > d.directoryEnd || U16(h, 28) == 0 || U16(h, 28) > MAX_NAME then None
      else Some(Header(h, file[at + 46..nameEnd], file[nameEnd..extraEnd], next))
  }

  /** Sizes that the compression method allows. */
  function CheckedSizes(h: seq<byte>, z: Option<seq<byte>>): Option<Sizes>
    requires |h| >= 46
  {
    var sizes := ReadSizes(h, if z.Some? then z.value else []);
    if sizes.None? || U16(h, 10) !in {0, 8} || (U16(h, 10) == 0 && sizes.value.packed != sizes.value.unpacked) then None
    else sizes
  }

  function ReadMember(u: Utf8, file: seq<byte>, d: End, at: nat): (m: Option<Member>)
    requires EndOk(file, d) && d.start <= at
    ensures m.Some? ==> m.value.at == at && at + 46 < m.value.next <= d.directoryEnd
    ensures m.Some? ==> m.value.local + 30 + m.value.packed < m.value.end <= d.start
  {
    var r := ReadRecord(file, d, at);
    if r.None? || !NameOk(u, r.value.name, U16(r.value.h, 8)) then None
    else
      var z := Extra(r.value.extra, r.value.name, 0, None);
      if z.None? then None
      else
        var sizes := CheckedSizes(r.value.h, z.value);
        if sizes.None? then None
        else
          var end := LocalEnd(file, d.start, r.value.h, r.value.name, sizes.value);
          if end.None? then None
          else Some(Member(at, r.value.next, r.value.name, sizes.value.packed, sizes.value.unpacked,
                           sizes.value.local, end.value))
  }

  // ---- what a good directory is ----

  /** The member whose record is at a place, if there is a good one. */
  type ReadAt = nat -> Option<Member>

  function MemberReader(u: Utf8, file: seq<byte>, d: End): ReadAt
    requires EndOk(file, d)
  {
    at => if d.start <= at then ReadMember(u, file, d, at) else None
  }

  /** `count` records one after another. */
  function Members(read: ReadAt, at: nat, count: nat): Option<seq<Member>>
    decreases count
  {
    if count == 0 then Some([])
    else
      var m := read(at);
      if m.None? then None
      else
        var rest := Members(read, m.value.next, count - 1);
        if rest.None? then None else Some([m.value] + rest.value)
  }

  function Total(ms: seq<Member>): nat {
    if ms == [] then 0 else Total(ms[..|ms| - 1]) + ms[|ms| - 1].unpacked
  }

  ghost predicate DistinctNames(ms: seq<Member>) {
    forall i, j :: 0 <= i < j < |ms| ==> ms[i].name != ms[j].name
  }

  /** No two members share a byte of local headers and data. */
  ghost predicate DisjointMembers(ms: seq<Member>) {
    forall i, j :: 0 <= i < j < |ms| ==> ms[i].end <= ms[j].local || ms[j].end <= ms[i].local
  }

  /** Where the records end. */
  function NextAfter(d: End, ms: seq<Member>): nat {
    if ms == [] then d.start else ms[|ms| - 1].next
  }

  ghost predicate SoundMembers(d: End, ms: seq<Member>) {
    NextAfter(d, ms) == d.directoryEnd && DistinctNames(ms) && Total(ms) <= MAX_INFLATED && DisjointMembers(ms)
  }

  function AllMembers(u: Utf8, file: seq<byte>, d: End): Option<seq<Member>>
    requires EndOk(file, d)
  {
    Members(MemberReader(u, file, d), d.start, d.count)
  }

  ghost predicate SoundDirectory(u: Utf8, file: seq<byte>) {
    var d := ReadEnd(file);
    d.Some? && EndOk(file, d.value) &&
    (forall at :: d.value.start <= at <= |file| - 4 ==> !Nested(file, d.value, at)) &&
    AllMembers(u, file, d.value).Some? && SoundMembers(d.value, AllMembers(u, file, d.value).value)
  }

  /** What the ZIP library is given to read. */
  datatype Directory = Directory(count: nat, start: nat, data: seq<byte>)

  // ---- the members of a sound directory ----

  predicate Placed(d: End, m: Member, at: nat) {
    m.at == at && at + 46 < m.next <= d.directoryEnd && m.local + 30 + m.packed < m.end <= d.start
  }

  ghost predicate PlacesMembers(d: End, read: ReadAt) {
    forall at: nat :: read(at).Some? ==> Placed(d, read(at).value, at)
  }

  lemma {:induction false} MembersTile(d: End, read: ReadAt, at: nat, count: nat)
    requires PlacesMembers(d, read) && Members(read, at, count).Some?
    ensures var ms := Members(read, at, count).value;
            |ms| == count && (ms != [] ==> ms[0].at == at) &&
            (forall k :: 0 <= k < |ms| ==> Placed(d, ms[k], ms[k].at)) &&
            forall k :: 0 < k < |ms| ==> ms[k].at == ms[k - 1].next
    decreases count
  {
    if count > 0 {
      assert Placed(d, read(at).value, at);
      MembersTile(d, read, read(at).value.next, count - 1);
    }
  }

  /** In an accepted archive the directory records tile the directory, each starting where the
      one before ends; all local data lies before it, and there is no more of it than that. */
  lemma {:induction false} SoundLayout(u: Utf8, file: seq<byte>)
    requires SoundDirectory(u, file)
    ensures var d := ReadEnd(file).value;
            var ms := AllMembers(u, file, d).value;
            |ms| == d.count && d.directoryEnd <= |file| &&
            (ms == [] ==> d.start == d.directoryEnd) &&
            (ms != [] ==> ms[0].at == d.start && ms[|ms| - 1].next == d.directoryEnd) &&
            (forall k :: 0 < k < |ms| ==> ms[k].at == ms[k - 1].next) &&
            (forall k :: 0 <= k < |ms| ==> Placed(d, ms[k], ms[k].at)) &&
            SpanSum(ms) <= d.start
  {
    var d := ReadEnd(file).value;
    MembersTile(d, MemberReader(u, file, d), d.start, d.count);
    var ms := AllMembers(u, file, d).value;
    assert forall k :: 0 <= k < |ms| ==> Placed(d, ms[k], ms[k].at);
    DisjointFits(ms, d.start);
  }

  function SpanSum(ms: seq<Member>): nat {
    if ms == [] then 0
    else SpanSum(ms[..|ms| - 1]) + if ms[|ms| - 1].local <= ms[|ms| - 1].end then ms[|ms| - 1].end - ms[|ms| - 1].local else 0
  }

  /** The numbers from `low` up to `high`. */
  function Interval(low: nat, high: nat): (s: set<nat>)
    requires low <= high
    ensures forall b: nat :: b in s <==> low <= b < high
    ensures |s| == high - low
    decreases high
  {
    if low == high then {} else Interval(low, high - 1) + {high - 1}
  }

  function BytesOf(m: Member): set<nat> {
    if m.local <= m.end then Interval(m.local, m.end) else {}
  }

  function AllBytes(ms: seq<Member>): set<nat> {
    if ms == [] then {} else AllBytes(ms[..|ms| - 1]) + BytesOf(ms[|ms| - 1])
  }

  lemma {:induction false} AllBytesIn(ms: seq<Member>, b: nat)
    ensures b in AllBytes(ms) <==> exists k :: 0 <= k < |ms| && ms[k].local <= b < ms[k].end
  {
    if ms != [] {
      AllBytesIn(ms[..|ms| - 1], b);
    }
  }

  lemma {:induction false} AllBytesSize(ms: seq<Member>)
    requires DisjointMembers(ms) && forall k :: 0 <= k < |ms| ==> ms[k].local <= ms[k].end
    ensures |AllBytes(ms)| == SpanSum(ms)
  {
    if ms != [] {
      var init, last := ms[..|ms| - 1], ms[|ms| - 1];
      AllBytesSize(init);
      forall b: nat | b in BytesOf(last)
        ensures b !in AllBytes(init)
      {
        AllBytesIn(init, b);
      }
      assert AllBytes(init) !! BytesOf(last);
    }
  }

  /** Disjoint spans below a bound are no longer in total than the bound. */
  lemma {:induction false} DisjointFits(ms: seq<Member>, bound: nat)
    requires DisjointMembers(ms) && forall k :: 0 <= k < |ms| ==> ms[k].local <= ms[k].end <= bound
    ensures SpanSum(ms) <= bound
  {
    AllBytesSize(ms);
    forall b: nat | b in AllBytes(ms)
      ensures b in Interval(0, bound)
    {
      AllBytesIn(ms, b);
    }
    SubsetSize(AllBytes(ms), Interval(0, bound));
  }

  lemma {:induction false} SubsetSize(a: set<nat>, b: set<nat>)
    requires a <= b
    ensures |a| <= |b|
  {
    assert b == a + (b - a);
  }
}
