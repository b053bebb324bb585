/** Which written ZIP files the preflight accepts, and that it reads every member's name, sizes and place
    back. */
module ZipRoundTrip {
  import opened Wrappers
  import opened ZipDirectory
  import opened ZipFields
  import opened ZipMembers
  import opened ZipWriter

  // ---- the whole directory read back ----

  predicate Writable(z: Zip) {
    (forall k :: 0 <= k < |z.entries| ==> EntryFits(z.entries[k], LocalAt(z, k))) &&
    EndFits(z.end, |z.entries|, Length(z), Start(z))
  }

  predicate FieldsOfEndFit(e: Ending) {
    e.disk <= U16MAX && e.startDisk <= U16MAX && e.here <= U16MAX && |e.comment| <= U16MAX &&
    match e.wide
    case None => true
    case Some(w) =>
      w.disk <= U32MAX && w.startDisk <= U32MAX && w.here < 0x1_0000_0000_0000_0000 &&
      w.locatorDisk <= U32MAX && w.disks <= U32MAX
  }

  /** Without a 64-bit end record nothing may look saturated. */
  predicate EndFits(e: Ending, count: nat, length: nat, start: nat) {
    FieldsOfEndFit(e) && CountField(e, count) <= U16MAX && LengthField(e, length) <= U32MAX &&
    StartField(e, start) <= U32MAX &&
    if e.wide.Some? then
      count < 0x1_0000_0000_0000_0000 && start + length < 0x1_0000_0000_0000_0000
    else
      count < U16MAX && length < U32MAX && start < U32MAX
  }

  function EndOf(e: Ending, count: nat, length: nat, start: nat): End {
    End(start + length + if e.wide.Some? then 76 else 0, start + length, count, length, start)
  }

  lemma {:induction false} FlatHolds(parts: seq<seq<byte>>, k: nat, m: nat)
    requires k < m <= |parts|
    ensures |Flat(parts, k + 1)| == |Flat(parts, k)| + |parts[k]| <= |Flat(parts, m)|
    ensures At(Flat(parts, m), |Flat(parts, k)|, parts[k])
  {
    if k == m - 1 {
      Joined(Flat(parts, k), parts[k]);
    } else {
      FlatHolds(parts, k, m - 1);
      AtLeft(Flat(parts, m - 1), parts[m - 1], |Flat(parts, k)|, parts[k]);
    }
  }

  lemma {:induction false} LocalPlaces(prefix: seq<byte>, locals: seq<seq<byte>>, k: nat)
    requires k < |locals|
    ensures At(prefix + Flat(locals, |locals|), LocalPlace(prefix, locals, k), locals[k])
    ensures LocalPlace(prefix, locals, k) + |locals[k]| == LocalPlace(prefix, locals, k + 1) <=
            LocalPlace(prefix, locals, |locals|)
  {
    FlatHolds(locals, k, |locals|);
    AtRight(prefix, Flat(locals, |locals|), |Flat(locals, k)|, locals[k]);
  }

  /** A member's two parts in the file. */
  lemma {:induction false} PartsHold(y: Layout, k: nat)
    requires k < |y.locals| == |y.records|
    ensures var p := LocalPlace(y.prefix, y.locals, k);
            At(Whole(y), p, y.locals[k]) && p + |y.locals[k]| <= DirectoryPlace(y)
    ensures At(Whole(y), RecordPlace(y, k), y.records[k])
    ensures RecordPlace(y, k) + |y.records[k]| == RecordPlace(y, k + 1) <= RecordPlace(y, |y.records|)
  {
    var a, b := y.prefix + Flat(y.locals, |y.locals|), Flat(y.records, |y.records|);
    LocalPlaces(y.prefix, y.locals, k);
    AtLeft(a, b, LocalPlace(y.prefix, y.locals, k), y.locals[k]);
    AtLeft(a + b, y.tail, LocalPlace(y.prefix, y.locals, k), y.locals[k]);
    FlatHolds(y.records, k, |y.records|);
    AtRight(a, b, |Flat(y.records, k)|, y.records[k]);
    AtLeft(a + b, y.tail, RecordPlace(y, k), y.records[k]);
  }

  lemma {:induction false} EntryReads(u: Utf8, e: Entry, offset: nat, b: seq<byte>, d: End, p: nat)
    requires EntryFits(e, offset) && EndOk(b, d) && d.start <= p
    requires RecordPlaced(e, offset, b, p) && p + RecordLength(e, offset) <= d.directoryEnd
    requires LocalPlaced(e.local, b, offset) && DataEnd(e, offset) <= d.start
    ensures ReadMember(u, b, d, p) == if Good(u, e, offset) then Some(MemberOf(e, offset, p)) else None
  {
    RecordReads(e, offset, b, d, p);
    var r := ReadRecord(b, d, p);
    if r.Some? {
      FindsParts(e, offset, b, d, p, r.value);
    }
    MemberFrom(u, b, d, p, FindingOf(e, offset, p));
    GoodMeans(u, e, offset, p);
  }

  /** The member whose parts are at two places is read as such, or refused. */
  lemma {:induction false} FileMember(u: Utf8, e: Entry, y: Layout, d: End, k: nat, offset: nat, p: nat)
    requires k < |y.locals| == |y.records| && d.start == DirectoryPlace(y) && d.directoryEnd == RecordPlace(y, |y.records|)
    requires EndOk(Whole(y), d) && offset == LocalPlace(y.prefix, y.locals, k) && p == RecordPlace(y, k)
    requires EntryFits(e, offset) && y.locals[k] == LocalBytes(e.local) && y.records[k] == RecordBytes(e, offset)
    ensures d.start <= p && ReadMember(u, Whole(y), d, p) == if Good(u, e, offset) then Some(MemberOf(e, offset, p)) else None
    ensures RecordPlace(y, k + 1) == p + RecordLength(e, offset)
  {
    PartsHold(y, k);
    RecordParts(e, offset, Whole(y), p);
    LocalParts(e.local, Whole(y), offset);
    EntryReads(u, e, offset, Whole(y), d, p);
  }

  predicate AllFrom(good: seq<bool>, k: nat) {
    forall i :: k <= i < |good| ==> good[i]
  }

  /** Records read one after another, when each is read or not as `good` says. */
  lemma {:induction false} MembersList(read: ReadAt, places: seq<nat>, ms: seq<Member>, good: seq<bool>, k: nat)
    requires k <= |ms| == |good| && |places| == |ms| + 1
    requires forall i :: 0 <= i < |ms| ==> read(places[i]) == if good[i] then Some(ms[i]) else None
    requires forall i :: 0 <= i < |ms| ==> ms[i].next == places[i + 1]
    ensures Members(read, places[k], |ms| - k) == if AllFrom(good, k) then Some(ms[k..]) else None
    decreases |ms| - k
  {
    if k < |ms| {
      MembersList(read, places, ms, good, k + 1);
      assert AllFrom(good, k) <==> good[k] && AllFrom(good, k + 1);
      assert ms[k..] == [ms[k]] + ms[k + 1..];
    }
  }

  // ---- the end read back ----

  lemma {:induction false} EndFrontReads(e: Ending, b: seq<byte>, p: nat)
    requires e.disk <= U16MAX && e.startDisk <= U16MAX && e.here <= U16MAX && At(b, p, EndFront(e))
    ensures Signed(b, p, 5, 6) && U16(b, p + 4) == e.disk && U16(b, p + 6) == e.startDisk && U16(b, p + 8) == e.here
  {
    var h := EndFront(e);
    AtWithin(b, p, h, 0, [0x50, 0x4B, 5, 6]);
    AtSign(b, p, 5, 6);
    At16(b, p, h, 4, e.disk);
    At16(b, p, h, 6, e.startDisk);
    At16(b, p, h, 8, e.here);
  }

  lemma {:induction false} EndBackReads(count: nat, length: nat, start: nat, comment: nat, b: seq<byte>, p: nat)
    requires count <= U16MAX && length <= U32MAX && start <= U32MAX && comment <= U16MAX
    requires At(b, p, EndBack(count, length, start, comment))
    ensures U16(b, p) == count && U32(b, p + 2) == length && U32(b, p + 6) == start && U16(b, p + 10) == comment
  {
    var h := EndBack(count, length, start, comment);
    At16(b, p, h, 0, count);
    At32(b, p, h, 2, length);
    At32(b, p, h, 6, start);
    At16(b, p, h, 10, comment);
  }

  lemma {:induction false} EndRecordReads(e: Ending, count: nat, length: nat, start: nat, b: seq<byte>, p: nat)
    requires e.disk <= U16MAX && e.startDisk <= U16MAX && e.here <= U16MAX && |e.comment| <= U16MAX
    requires count <= U16MAX && length <= U32MAX && start <= U32MAX && At(b, p, EndRecord(e, count, length, start))
    ensures Signed(b, p, 5, 6) && U16(b, p + 4) == e.disk && U16(b, p + 6) == e.startDisk &&
            U16(b, p + 8) == e.here && U16(b, p + 10) == count && U32(b, p + 12) == length &&
            U32(b, p + 16) == start && U16(b, p + 20) == |e.comment|
  {
    AtBoth(b, p, EndFront(e), EndBack(count, length, start, |e.comment|));
    EndFrontReads(e, b, p);
    EndBackReads(count, length, start, |e.comment|, b, p + 10);
  }

  lemma {:induction false} End64FrontReads(w: End64, b: seq<byte>, p: nat)
    requires w.disk <= U32MAX && w.startDisk <= U32MAX && At(b, p, End64Front(w))
    ensures Signed(b, p, 6, 6) && U64(b, p + 4) == 44 && U32(b, p + 16) == w.disk && U32(b, p + 20) == w.startDisk
  {
    var h := End64Front(w);
    AtWithin(b, p, h, 0, [0x50, 0x4B, 6, 6]);
    AtSign(b, p, 6, 6);
    At64(b, p, h, 4, 44);
    At32(b, p, h, 16, w.disk);
    At32(b, p, h, 20, w.startDisk);
  }

  lemma {:induction false} End64Reads(w: End64, count: nat, length: nat, start: nat, b: seq<byte>, p: nat)
    requires w.disk <= U32MAX && w.startDisk <= U32MAX && At(b, p, End64Record(w, count, length, start))
    requires w.here < 0x1_0000_0000_0000_0000 && count < 0x1_0000_0000_0000_0000
    requires length < 0x1_0000_0000_0000_0000 && start < 0x1_0000_0000_0000_0000
    ensures Signed(b, p, 6, 6) && U64(b, p + 4) == 44 && U32(b, p + 16) == w.disk && U32(b, p + 20) == w.startDisk &&
            U64(b, p + 24) == w.here && U64(b, p + 32) == count && U64(b, p + 40) == length && U64(b, p + 48) == start
  {
    var back := W64(w.here) + W64(count) + W64(length) + W64(start);
    AtBoth(b, p, End64Front(w), back);
    End64FrontReads(w, b, p);
    FourParts(W64(w.here), W64(count), W64(length), W64(start));
    At64(b, p + 24, back, 0, w.here);
    At64(b, p + 24, back, 8, count);
    At64(b, p + 24, back, 16, length);
    At64(b, p + 24, back, 24, start);
  }

  lemma {:induction false} LocatorReads(w: End64, at: nat, b: seq<byte>, p: nat)
    requires w.locatorDisk <= U32MAX && w.disks <= U32MAX && at < 0x1_0000_0000_0000_0000 && At(b, p, Locator(w, at))
    ensures Signed(b, p, 6, 7) && U32(b, p + 4) == w.locatorDisk && U64(b, p + 8) == at && U32(b, p + 16) == w.disks
  {
    var h := Locator(w, at);
    AtWithin(b, p, h, 0, [0x50, 0x4B, 6, 7]);
    AtSign(b, p, 6, 7);
    At32(b, p, h, 4, w.locatorDisk);
    At64(b, p, h, 8, at);
    At32(b, p, h, 16, w.disks);
  }

  /** The whole archive is one file. */
  predicate SingleDisk(e: Ending, count: nat) {
    e.disk == 0 && e.startDisk == 0 && e.here == CountField(e, count) &&
    match e.wide
    case None => true
    case Some(w) => w.disk == 0 && w.startDisk == 0 && w.here == count && w.locatorDisk == 0 && w.disks == 1
  }

  /** Where the parts of the end stand. */
  predicate EndPlaced(e: Ending, count: nat, length: nat, start: nat, b: seq<byte>) {
    var p, q := start + length, EndOf(e, count, length, start).endAt;
    At(b, q, EndRecord(e, CountField(e, count), LengthField(e, length), StartField(e, start))) &&
    |b| == q + 22 + |e.comment| &&
    (e.wide.Some? ==> At(b, p, End64Record(e.wide.value, count, length, start)) && At(b, p + 56, Locator(e.wide.value, p)))
  }

  lemma {:induction false} TailParts(y: Layout, wide: seq<byte>, header: seq<byte>, comment: seq<byte>)
    requires y.tail == wide + header + comment
    ensures var p := RecordPlace(y, |y.records|);
            At(Whole(y), p, wide) && At(Whole(y), p + |wide|, header) &&
            |Whole(y)| == p + |wide| + |header| + |comment|
  {
    var a := y.prefix + Flat(y.locals, |y.locals|) + Flat(y.records, |y.records|);
    Joined(a, y.tail);
    AtBoth(Whole(y), |a|, wide + header, comment);
    AtBoth(Whole(y), |a|, wide, header);
  }

  lemma {:induction false} EndParts(y: Layout, e: Ending, count: nat, length: nat, start: nat)
    requires y.tail == Tail(e, count, length, start) && RecordPlace(y, |y.records|) == start + length
    ensures EndPlaced(e, count, length, start, Whole(y))
  {
    TailParts(y, Wide64(e, count, length, start),
              EndRecord(e, CountField(e, count), LengthField(e, length), StartField(e, start)), e.comment);
    if e.wide.Some? {
      AtBoth(Whole(y), start + length, End64Record(e.wide.value, count, length, start),
             Locator(e.wide.value, start + length));
    }
  }

  // ---- finding the end ----

  lemma {:induction false} SignedIn(b: seq<byte>, from: nat, p: nat, kind: byte, version: byte)
    requires from <= |b|
    ensures Signed(b[from..], p, kind, version) <==> Signed(b, from + p, kind, version)
  {
  }

  /** The search from behind stops at an end record that no other signature follows. */
  lemma {:induction false} FindsLast(tail: seq<byte>, n: nat, q: nat)
    requires q < n && n + 21 <= |tail| && Signed(tail, q, 5, 6) && q + 22 + U16(tail, q + 20) == |tail|
    requires forall p :: q < p < n ==> !Signed(tail, p, 5, 6)
    ensures FindEnd(tail, n) == Some(q)
    decreases n
  {
    if q < n - 1 {
      FindsLast(tail, n - 1, q);
    }
  }

  lemma {:induction false} FindsEnd(b: seq<byte>, e: nat)
    requires e + 22 <= |b| && Signed(b, e, 5, 6) && e + 22 + U16(b, e + 20) == |b|
    requires forall p: nat :: e < p && p + 4 <= |b| ==> !Signed(b, p, 5, 6)
    ensures EndAt(b) == Some(e)
  {
    var from := TailStart(b);
    var tail := b[from..];
    SignedIn(b, from, e - from, 5, 6);
    forall p | e - from < p < |tail| - 21
      ensures !Signed(tail, p, 5, 6)
    {
      SignedIn(b, from, p, 5, 6);
    }
    FindsLast(tail, |tail| - 21, e - from);
  }

  lemma {:induction false} PlainEndReads(e: Ending, count: nat, length: nat, start: nat, b: seq<byte>)
    requires e.wide.None? && EndFits(e, count, length, start) && EndPlaced(e, count, length, start, b)
    ensures ReadEndAt(b, start + length) == Some(EndOf(e, count, length, start)) <==>
            SingleDisk(e, count) && !HasLocator(b, start + length)
  {
    EndRecordReads(e, count, length, start, b, start + length);
  }

  lemma {:induction false} WideEndReads(e: Ending, count: nat, length: nat, start: nat, b: seq<byte>)
    requires e.wide.Some? && EndFits(e, count, length, start) && EndPlaced(e, count, length, start, b)
    ensures ReadEndAt(b, start + length + 76) == Some(EndOf(e, count, length, start)) <==> SingleDisk(e, count)
  {
    var w, p := e.wide.value, start + length;
    EndRecordReads(e, CountField(e, count), LengthField(e, length), StartField(e, start), b, p + 76);
    End64Reads(w, count, length, start, b, p);
    LocatorReads(w, p, b, p + 56);
  }

  predicate EndSignature(b: seq<byte>, p: nat) {
    Signed(b, p, 5, 6) || Signed(b, p, 6, 6) || Signed(b, p, 6, 7)
  }

  /** From the directory on, the bytes look like an end record only where one is, and none that is not a
      locator lies where a plain end record would have its own. */
  ghost predicate Clean(b: seq<byte>, d: End, wide: bool) {
    (forall p: nat :: d.start <= p && p + 4 <= |b| && EndSignature(b, p) ==>
       p == d.endAt || (wide && (p == d.directoryEnd || p + 20 == d.endAt))) &&
    (!wide ==> !HasLocator(b, d.endAt))
  }

  lemma {:induction false} OwnSignatures(e: Ending, count: nat, length: nat, start: nat, b: seq<byte>)
    requires EndFits(e, count, length, start) && EndPlaced(e, count, length, start, b)
    ensures var d := EndOf(e, count, length, start);
            Signed(b, d.endAt, 5, 6) && d.endAt + 22 + U16(b, d.endAt + 20) == |b| &&
            (e.wide.Some? ==> Signed(b, d.directoryEnd, 6, 6) && Signed(b, d.endAt - 20, 6, 7))
  {
    var w, p := e.wide, start + length;
    EndRecordReads(e, CountField(e, count), LengthField(e, length), StartField(e, start), b,
                   EndOf(e, count, length, start).endAt);
    if w.Some? {
      End64Reads(w.value, count, length, start, b, p);
      LocatorReads(w.value, p, b, p + 56);
    }
  }

  ghost predicate NoneNested(b: seq<byte>, d: End) {
    forall at: nat :: d.start <= at <= |b| - 4 ==> !Nested(b, d, at)
  }

  lemma {:induction false} NestedMeans(b: seq<byte>, d: End, wide: bool)
    requires Signed(b, d.endAt, 5, 6) && d.endAt == if wide then d.directoryEnd + 76 else d.directoryEnd
    requires wide ==> Signed(b, d.directoryEnd, 6, 6) && Signed(b, d.endAt - 20, 6, 7)
    ensures Clean(b, d, wide) <==> NoneNested(b, d) && (!wide ==> !HasLocator(b, d.endAt))
  {
    forall at: nat | d.start <= at <= |b| - 4
      ensures Nested(b, d, at) <==>
              EndSignature(b, at) && at != d.endAt && !(wide && (at == d.directoryEnd || at + 20 == d.endAt))
    {
    }
  }

  /** The end is found as it was written exactly in an archive in one file without a stray end signature. */
  lemma {:induction false} EndAccepted(e: Ending, count: nat, length: nat, start: nat, b: seq<byte>)
    requires EndFits(e, count, length, start) && EndPlaced(e, count, length, start, b)
    ensures var d := EndOf(e, count, length, start);
            ReadEnd(b) == Some(d) && NoneNested(b, d) <==> SingleDisk(e, count) && Clean(b, d, e.wide.Some?)
  {
    var d := EndOf(e, count, length, start);
    OwnSignatures(e, count, length, start, b);
    NestedMeans(b, d, e.wide.Some?);
    if e.wide.Some? {
      WideEndReads(e, count, length, start, b);
    } else {
      PlainEndReads(e, count, length, start, b);
    }
    if Clean(b, d, e.wide.Some?) {
      forall p: nat | d.endAt < p && p + 4 <= |b|
        ensures !Signed(b, p, 5, 6)
      {
        assert EndSignature(b, p) ==> p <= d.endAt;
      }
      FindsEnd(b, d.endAt);
    }
  }

  // ---- the file accepted ----

  /** The places of the local parts and of the records of some entries, and where the next ones would be. */
  ghost predicate Chained(es: seq<Entry>, offsets: seq<nat>, places: seq<nat>) {
    |offsets| == |places| == |es| + 1 &&
    (forall i, j :: 0 <= i < j < |es| ==> offsets[i] + LocalLength(es[i].local) <= offsets[j]) &&
    forall i :: 0 <= i < |es| ==> places[i + 1] == places[i] + RecordLength(es[i], offsets[i])
  }

  /** What the preflight lists for entries at these places. */
  function Listed(es: seq<Entry>, offsets: seq<nat>, places: seq<nat>): seq<Member>
    requires |offsets| == |places| == |es| + 1
  {
    seq(|es|, k requires 0 <= k < |es| => MemberOf(es[k], offsets[k], places[k]))
  }

  ghost predicate AllGood(u: Utf8, es: seq<Entry>, offsets: seq<nat>)
    requires |offsets| == |es| + 1
  {
    forall k :: 0 <= k < |es| ==> Good(u, es[k], offsets[k])
  }

  /** Each record is read as its member, or refused, as `good` says. */
  ghost predicate EachRead(read: ReadAt, good: seq<bool>, es: seq<Entry>, offsets: seq<nat>, places: seq<nat>)
    requires |offsets| == |places| == |es| + 1 && |good| == |es|
  {
    forall i :: 0 <= i < |es| ==>
      read(places[i]) == if good[i] then Some(MemberOf(es[i], offsets[i], places[i])) else None
  }

  lemma {:induction false} ReaderReads(u: Utf8, b: seq<byte>, d: End, at: nat)
    requires EndOk(b, d) && d.start <= at
    ensures MemberReader(u, b, d)(at) == ReadMember(u, b, d, at)
  {
  }

  ghost function Goods(u: Utf8, es: seq<Entry>, offsets: seq<nat>): seq<bool>
    requires |offsets| == |es| + 1
  {
    seq(|es|, k requires 0 <= k < |es| => Good(u, es[k], offsets[k]))
  }

  lemma {:induction false} GoodsMean(u: Utf8, es: seq<Entry>, offsets: seq<nat>)
    requires |offsets| == |es| + 1
    ensures AllFrom(Goods(u, es, offsets), 0) <==> AllGood(u, es, offsets)
  {
    forall i | 0 <= i < |es|
      ensures Goods(u, es, offsets)[i] == Good(u, es[i], offsets[i])
    {
    }
  }

  lemma {:induction false} RecordsRead(
    read: ReadAt, good: seq<bool>, es: seq<Entry>, offsets: seq<nat>, places: seq<nat>)
    requires Chained(es, offsets, places) && |good| == |es| && EachRead(read, good, es, offsets, places)
    ensures Members(read, places[0], |es|) == if AllFrom(good, 0) then Some(Listed(es, offsets, places)) else None
  {
    MembersList(read, places, Listed(es, offsets, places), good, 0);
  }

  function Inflated(es: seq<Entry>): nat {
    if es == [] then 0 else Inflated(es[..|es| - 1]) + es[|es| - 1].unpacked
  }

  ghost predicate DistinctEntries(es: seq<Entry>) {
    forall i, j :: 0 <= i < j < |es| ==> es[i].name != es[j].name
  }

  lemma {:induction false} TotalInflated(es: seq<Entry>, ms: seq<Member>)
    requires |es| == |ms| && forall i :: 0 <= i < |es| ==> ms[i].unpacked == es[i].unpacked
    ensures Total(ms) == Inflated(es)
  {
    if es != [] {
      TotalInflated(es[..|es| - 1], ms[..|ms| - 1]);
    }
  }

  lemma {:induction false} ListedSound(d: End, es: seq<Entry>, offsets: seq<nat>, places: seq<nat>)
    requires Chained(es, offsets, places) && places[0] == d.start && places[|es|] == d.directoryEnd
    ensures SoundMembers(d, Listed(es, offsets, places)) <==> DistinctEntries(es) && Inflated(es) <= MAX_INFLATED
  {
    var ms := Listed(es, offsets, places);
    TotalInflated(es, ms);
    ListedApart(es, offsets, places);
    ListedNames(es, offsets, places);
    assert es != [] ==> ms[|es| - 1].next == places[|es|];
  }

  lemma {:induction false} ListedNames(es: seq<Entry>, offsets: seq<nat>, places: seq<nat>)
    requires |offsets| == |places| == |es| + 1
    ensures DistinctNames(Listed(es, offsets, places)) <==> DistinctEntries(es)
  {
    var ms := Listed(es, offsets, places);
    forall i | 0 <= i < |es|
      ensures ms[i].name == es[i].name
    {
    }
  }

  lemma {:induction false} ListedApart(es: seq<Entry>, offsets: seq<nat>, places: seq<nat>)
    requires Chained(es, offsets, places)
    ensures DisjointMembers(Listed(es, offsets, places))
  {
    forall i, j | 0 <= i < j < |es|
      ensures DataEnd(es[i], offsets[i]) <= offsets[j]
    {
      assert DataEnd(es[i], offsets[i]) <= offsets[i] + LocalLength(es[i].local) <= offsets[j];
    }
  }

  // ---- the written file accepted ----

  /** The entries' parts as the layout has them, at these places. */
  ghost predicate LaidOut(y: Layout, es: seq<Entry>, offsets: seq<nat>, places: seq<nat>) {
    |y.locals| == |y.records| == |es| && |offsets| == |places| == |es| + 1 &&
    (forall k :: 0 <= k <= |es| ==> offsets[k] == LocalPlace(y.prefix, y.locals, k) && places[k] == RecordPlace(y, k)) &&
    forall k :: 0 <= k < |es| ==> y.locals[k] == LocalBytes(es[k].local) && y.records[k] == RecordBytes(es[k], offsets[k])
  }

  lemma {:induction false} LaidOutChains(y: Layout, es: seq<Entry>, offsets: seq<nat>, places: seq<nat>)
    requires LaidOut(y, es, offsets, places)
    ensures Chained(es, offsets, places)
  {
    forall i, j | 0 <= i < j < |es|
      ensures offsets[i] + LocalLength(es[i].local) <= offsets[j]
    {
      FlatHolds(y.locals, i, j);
    }
    forall i | 0 <= i < |es|
      ensures places[i + 1] == places[i] + RecordLength(es[i], offsets[i])
    {
      FlatHolds(y.records, i, |es|);
    }
  }

  lemma {:induction false} LaidOutReads(u: Utf8, y: Layout, d: End, es: seq<Entry>, offsets: seq<nat>, places: seq<nat>)
    requires LaidOut(y, es, offsets, places) && d.start == places[0] && d.directoryEnd == places[|es|]
    requires EndOk(Whole(y), d) && forall k :: 0 <= k < |es| ==> EntryFits(es[k], offsets[k])
    ensures EachRead(MemberReader(u, Whole(y), d), Goods(u, es, offsets), es, offsets, places)
  {
    var read, good := MemberReader(u, Whole(y), d), Goods(u, es, offsets);
    forall i | 0 <= i < |es|
      ensures read(places[i]) == if good[i] then Some(MemberOf(es[i], offsets[i], places[i])) else None
    {
      FileMember(u, es[i], y, d, i, offsets[i], places[i]);
      ReaderReads(u, Whole(y), d, places[i]);
      assert good[i] == Good(u, es[i], offsets[i]);
    }
  }

  /** What makes the written entries a sound directory. */
  ghost predicate GoodList(u: Utf8, es: seq<Entry>, offsets: seq<nat>)
    requires |offsets| == |es| + 1
  {
    AllGood(u, es, offsets) && DistinctEntries(es) && Inflated(es) <= 64 * 1024 * 1024 * 1024
  }

  lemma {:induction false} LaidOutSound(u: Utf8, y: Layout, d: End, es: seq<Entry>, offsets: seq<nat>, places: seq<nat>)
    requires LaidOut(y, es, offsets, places) && d.start == places[0] && d.directoryEnd == places[|es|]
    requires EndOk(Whole(y), d) && d.count == |es| && forall k :: 0 <= k < |es| ==> EntryFits(es[k], offsets[k])
    ensures var ms := AllMembers(u, Whole(y), d);
            (ms.Some? && SoundMembers(d, ms.value) <==> GoodList(u, es, offsets)) &&
            (GoodList(u, es, offsets) ==> ms == Some(Listed(es, offsets, places)))
  {
    LaidOutChains(y, es, offsets, places);
    LaidOutReads(u, y, d, es, offsets, places);
    RecordsRead(MemberReader(u, Whole(y), d), Goods(u, es, offsets), es, offsets, places);
    GoodsMean(u, es, offsets);
    ListedSound(d, es, offsets, places);
  }

  /** Within the limits, in one file, without stray end signatures. */
  ghost predicate GoodEnd(e: Ending, d: End, b: seq<byte>) {
    SingleDisk(e, d.count) && Clean(b, d, e.wide.Some?) && d.count <= 10_000 && d.length <= 32 * 1024 * 1024
  }

  lemma {:induction false} SoundWhen(u: Utf8, b: seq<byte>, d: End, e: Ending, good: bool)
    requires ReadEnd(b) == Some(d) && NoneNested(b, d) <==> SingleDisk(e, d.count) && Clean(b, d, e.wide.Some?)
    requires EndOk(b, d) <==> d.count <= 10_000 && d.length <= 32 * 1024 * 1024
    requires EndOk(b, d) ==>
               var ms := AllMembers(u, b, d); ms.Some? && SoundMembers(d, ms.value) <==> good
    ensures SoundDirectory(u, b) && ReadEnd(b) == Some(d) <==> GoodEnd(e, d, b) && good
  {
  }

  lemma {:induction false} LimitsMean(y: Layout, e: Ending, d: End)
    requires d == EndOf(e, d.count, d.length, d.start) && EndPlaced(e, d.count, d.length, d.start, Whole(y))
    ensures EndOk(Whole(y), d) <==> d.count <= 10_000 && d.length <= 32 * 1024 * 1024
  {
  }

  /** The parts, the end and the places belong to one written file. */
  ghost predicate Written(y: Layout, e: Ending, d: End, es: seq<Entry>, offsets: seq<nat>, places: seq<nat>) {
    LaidOut(y, es, offsets, places) && d == EndOf(e, |es|, d.length, d.start) && d.start == places[0] &&
    d.start + d.length == places[|es|] && y.tail == Tail(e, d.count, d.length, d.start) &&
    EndFits(e, d.count, d.length, d.start) && forall k :: 0 <= k < |es| ==> EntryFits(es[k], offsets[k])
  }

  /** Every member is listed with its name, its sizes and its place, as they were written. */
  ghost predicate ReadsBack(u: Utf8, b: seq<byte>, d: End, es: seq<Entry>, offsets: seq<nat>)
    requires EndOk(b, d) && |offsets| == |es| + 1
  {
    var ms := AllMembers(u, b, d);
    ms.Some? && |ms.value| == |es| &&
    forall k :: 0 <= k < |es| ==>
      ms.value[k].name == es[k].name && ms.value[k].packed == |es[k].local.data| &&
      ms.value[k].unpacked == es[k].unpacked && ms.value[k].local == offsets[k] &&
      ms.value[k].end == DataEnd(es[k], offsets[k])
  }

  lemma {:induction false} ListedReadsBack(
    u: Utf8, b: seq<byte>, d: End, es: seq<Entry>, offsets: seq<nat>, places: seq<nat>)
    requires EndOk(b, d) && |offsets| == |places| == |es| + 1
    requires AllMembers(u, b, d) == Some(Listed(es, offsets, places))
    ensures ReadsBack(u, b, d, es, offsets)
  {
  }

  lemma {:induction false} LaidOutAccepted(
    u: Utf8, y: Layout, b: seq<byte>, e: Ending, d: End, es: seq<Entry>, offsets: seq<nat>, places: seq<nat>)
    requires Written(y, e, d, es, offsets, places) && b == Whole(y)
    ensures SoundDirectory(u, b) && ReadEnd(b) == Some(d) <==> GoodEnd(e, d, b) && GoodList(u, es, offsets)
    ensures GoodEnd(e, d, b) ==> EndOk(b, d)
    ensures GoodEnd(e, d, b) && GoodList(u, es, offsets) ==> ReadsBack(u, b, d, es, offsets)
  {
    EndParts(y, e, d.count, d.length, d.start);
    EndAccepted(e, d.count, d.length, d.start, b);
    LimitsMean(y, e, d);
    if EndOk(b, d) {
      LaidOutSound(u, y, d, es, offsets, places);
      if GoodList(u, es, offsets) {
        ListedReadsBack(u, b, d, es, offsets, places);
      }
    }
    SoundWhen(u, b, d, e, GoodList(u, es, offsets));
  }

  function Offsets(z: Zip): seq<nat> {
    seq(|z.entries| + 1, k requires 0 <= k <= |z.entries| => LocalAt(z, k))
  }

  function Places(z: Zip): seq<nat> {
    seq(|z.entries| + 1, k requires 0 <= k <= |z.entries| => RecordAt(z, k))
  }

  /** The end as it was written. */
  function WrittenEnd(z: Zip): End {
    EndOf(z.end, |z.entries|, Length(z), Start(z))
  }

  lemma {:induction false} WrittenLaidOut(z: Zip)
    ensures LaidOut(LayoutOf(z), z.entries, Offsets(z), Places(z))
    ensures Places(z)[0] == Start(z) && Places(z)[|z.entries|] == Start(z) + Length(z)
  {
  }

  lemma {:induction false} WrittenFits(z: Zip, offsets: seq<nat>)
    requires Writable(z) && offsets == Offsets(z)
    ensures forall k :: 0 <= k < |z.entries| ==> EntryFits(z.entries[k], offsets[k])
  {
    forall k | 0 <= k < |z.entries|
      ensures EntryFits(z.entries[k], offsets[k])
    {
      assert offsets[k] == LocalAt(z, k);
    }
  }

  lemma {:induction false} WrittenWhole(z: Zip)
    requires Writable(z)
    ensures Written(LayoutOf(z), z.end, WrittenEnd(z), z.entries, Offsets(z), Places(z))
  {
    WrittenLaidOut(z);
    WrittenFits(z, Offsets(z));
  }

  /** The preflight accepts a written file as what was written exactly when its members are good, its limits
      are kept and no bytes look like another end; then every member is read back with its name, its sizes
      and its place. */
  lemma {:induction false} WrittenAccepted(u: Utf8, z: Zip, b: seq<byte>, d: End)
    requires Writable(z) && b == Bytes(z) && d == WrittenEnd(z)
    ensures SoundDirectory(u, b) && ReadEnd(b) == Some(d) <==>
            GoodEnd(z.end, d, b) && GoodList(u, z.entries, Offsets(z))
    ensures SoundDirectory(u, b) && ReadEnd(b) == Some(d) ==> ReadsBack(u, b, d, z.entries, Offsets(z))
  {
    WrittenWhole(z);
    LaidOutAccepted(u, LayoutOf(z), b, z.end, d, z.entries, Offsets(z), Places(z));
  }

  // ---- a sum that looks like an end ----

  lemma {:induction false} SumStands(e: Entry, offset: nat, b: seq<byte>, p: nat)
    requires e.crc == 0x0605_4B50 && RecordPlaced(e, offset, b, p)
    ensures Signed(b, p + 16, 5, 6)
  {
    AtBoth(b, p, RecordFront(e), RecordBack(e, offset));
    AtWithin(b, p, RecordFront(e), 16, W32(e.crc));
    assert W32(e.crc) == [0x50, 0x4B, 5, 6];
    AtSign(b, p + 16, 5, 6);
  }

  lemma {:induction false} RecordStands(y: Layout, e: Entry, offset: nat, k: nat)
    requires k < |y.locals| == |y.records| && y.records[k] == RecordBytes(e, offset)
    ensures RecordPlaced(e, offset, Whole(y), RecordPlace(y, k))
    ensures DirectoryPlace(y) <= RecordPlace(y, k) && RecordPlace(y, k) + 46 <= RecordPlace(y, |y.records|)
  {
    PartsHold(y, k);
    RecordParts(e, offset, Whole(y), RecordPlace(y, k));
  }

  lemma {:induction false} SumPlaced(y: Layout, e: Entry, offset: nat, k: nat)
    requires k < |y.locals| == |y.records| && y.records[k] == RecordBytes(e, offset) && e.crc == 0x0605_4B50
    ensures var p := RecordPlace(y, k) + 16;
            Signed(Whole(y), p, 5, 6) && DirectoryPlace(y) <= p && p + 30 <= RecordPlace(y, |y.records|)
  {
    RecordStands(y, e, offset, k);
    SumStands(e, offset, Whole(y), RecordPlace(y, k));
  }

  lemma {:induction false} StrayFound(b: seq<byte>, d: End, wide: bool, p: nat)
    requires Signed(b, p, 5, 6) && d.start <= p && p + 30 <= d.directoryEnd
    requires d.endAt == if wide then d.directoryEnd + 76 else d.directoryEnd
    ensures !Clean(b, d, wide)
  {
    assert EndSignature(b, p);
  }

  lemma {:induction false} SumStray(y: Layout, e: Entry, offset: nat, k: nat, d: End, wide: bool)
    requires k < |y.locals| == |y.records| && y.records[k] == RecordBytes(e, offset) && e.crc == 0x0605_4B50
    requires d.start == DirectoryPlace(y) && d.directoryEnd == RecordPlace(y, |y.records|)
    requires d.endAt == if wide then d.directoryEnd + 76 else d.directoryEnd
    ensures !Clean(Whole(y), d, wide)
  {
    SumPlaced(y, e, offset, k);
    StrayFound(Whole(y), d, wide, RecordPlace(y, k) + 16);
  }

  /** A file with a member whose checksum reads as an end signature is refused, whatever else it holds. */
  lemma {:induction false} SumRefused(u: Utf8, z: Zip, k: nat)
    requires Writable(z) && k < |z.entries| && z.entries[k].crc == 0x0605_4B50
    ensures !(SoundDirectory(u, Bytes(z)) && ReadEnd(Bytes(z)) == Some(WrittenEnd(z)))
  {
    WrittenLaidOut(z);
    SumStray(LayoutOf(z), z.entries[k], LocalAt(z, k), k, WrittenEnd(z), z.end.wide.Some?);
    WrittenAccepted(u, z, Bytes(z), WrittenEnd(z));
  }
}
