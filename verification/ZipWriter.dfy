/** A ZIP file written field by field (PKWARE APPNOTE 6.3.10, sections 4.3.7, 4.3.12, 4.3.14 to 4.3.16 and
    4.5.3). Everything a writer is free to choose is a field here; the sizes, lengths and places follow. */
module ZipWriter {
  import opened Wrappers
  import opened ZipDirectory
  import opened ZipFields

  datatype Field = Field(tag: nat, value: seq<byte>)

  /** The local header's sums and sizes are free: they may be left to a descriptor in the trailer. */
  datatype Local = Local(
    version: nat, flags: nat, compression: nat, time: nat, date: nat, crc: nat, packed: nat, unpacked: nat,
    name: seq<byte>, fields: seq<Field>, data: seq<byte>, trailer: seq<byte>)

  /** Which of a record's fields are saturated and written in the 64-bit extra field. */
  datatype Wide = Wide(unpacked: bool, packed: bool, local: bool, disk: bool)

  /** One member: its local part, and its directory record with extra fields before and after the 64-bit one. */
  datatype Entry = Entry(
    local: Local, made: nat, version: nat, flags: nat, compression: nat, time: nat, date: nat, crc: nat, unpacked: nat,
    name: seq<byte>, before: seq<Field>, after: seq<Field>, comment: seq<byte>,
    disk: nat, inner: nat, outer: nat, wide: Wide)

  /** The 64-bit end record with its locator, and which fields of the plain one are saturated for it. */
  datatype End64 = End64(
    made: nat, version: nat, disk: nat, startDisk: nat, here: nat, locatorDisk: nat, disks: nat,
    fullCount: bool, fullLength: bool, fullStart: bool)

  datatype Ending = Ending(disk: nat, startDisk: nat, here: nat, wide: Option<End64>, comment: seq<byte>)

  datatype Zip = Zip(prefix: seq<byte>, entries: seq<Entry>, end: Ending)

  function FieldBytes(f: Field): seq<byte> {
    W16(f.tag) + W16(|f.value|) + f.value
  }

  function Encode(fields: seq<Field>): seq<byte> {
    if fields == [] then [] else FieldBytes(fields[0]) + Encode(fields[1..])
  }

  function LocalFront(l: Local): (h: seq<byte>)
    ensures |h| == 14
  {
    [0x50, 0x4B, 3, 4] + W16(l.version) + W16(l.flags) + W16(l.compression) + W16(l.time) + W16(l.date)
  }

  function LocalBack(l: Local): (h: seq<byte>)
    ensures |h| == 16
  {
    W32(l.crc) + W32(l.packed) + W32(l.unpacked) + W16(|l.name|) + W16(|Encode(l.fields)|)
  }

  function LocalHeader(l: Local): (h: seq<byte>)
    ensures |h| == 30
  {
    LocalFront(l) + LocalBack(l)
  }

  function LocalLength(l: Local): nat {
    30 + |l.name| + |Encode(l.fields)| + |l.data| + |l.trailer|
  }

  function LocalBytes(l: Local): (b: seq<byte>)
    ensures |b| == LocalLength(l)
  {
    LocalHeader(l) + l.name + Encode(l.fields) + l.data + l.trailer
  }

  function Maybe(wide: bool, value: seq<byte>): seq<byte> {
    if wide then value else []
  }

  /** The values of the saturated fields, in the order of section 4.5.3. */
  function WideValue(e: Entry, offset: nat): seq<byte> {
    Maybe(e.wide.unpacked, W64(e.unpacked)) + Maybe(e.wide.packed, W64(|e.local.data|)) +
    Maybe(e.wide.local, W64(offset)) + Maybe(e.wide.disk, W32(e.disk))
  }

  function WideFields(e: Entry, offset: nat): seq<Field> {
    if e.wide == Wide(false, false, false, false) then [] else [Field(1, WideValue(e, offset))]
  }

  function Fields(e: Entry, offset: nat): seq<Field> {
    e.before + WideFields(e, offset) + e.after
  }

  function Capped32(wide: bool, n: nat): nat {
    if wide then U32MAX else n
  }

  function Capped16(wide: bool, n: nat): nat {
    if wide then U16MAX else n
  }

  function RecordFront(e: Entry): (h: seq<byte>)
    ensures |h| == 28
  {
    [0x50, 0x4B, 1, 2] + W16(e.made) + W16(e.version) + W16(e.flags) + W16(e.compression) + W16(e.time) +
    W16(e.date) + W32(e.crc) +
    (W32(Capped32(e.wide.packed, |e.local.data|)) + W32(Capped32(e.wide.unpacked, e.unpacked)))
  }

  function RecordBack(e: Entry, offset: nat): (h: seq<byte>)
    ensures |h| == 18
  {
    W16(|e.name|) + W16(|Encode(Fields(e, offset))|) + W16(|e.comment|) + W16(Capped16(e.wide.disk, e.disk)) +
    W16(e.inner) + W32(e.outer) + W32(Capped32(e.wide.local, offset))
  }

  function RecordHeader(e: Entry, offset: nat): (h: seq<byte>)
    ensures |h| == 46
  {
    RecordFront(e) + RecordBack(e, offset)
  }

  function RecordLength(e: Entry, offset: nat): nat {
    46 + |e.name| + |Encode(Fields(e, offset))| + |e.comment|
  }

  function RecordBytes(e: Entry, offset: nat): (b: seq<byte>)
    ensures |b| == RecordLength(e, offset)
  {
    RecordHeader(e, offset) + e.name + Encode(Fields(e, offset)) + e.comment
  }

  /** The first `k` parts one after another. */
  function Flat(parts: seq<seq<byte>>, k: nat): seq<byte>
    requires k <= |parts|
  {
    if k == 0 then [] else Flat(parts, k - 1) + parts[k - 1]
  }

  /** The parts of a file: what comes before, the members' local parts, their records, and what comes after. */
  datatype Layout = Layout(prefix: seq<byte>, locals: seq<seq<byte>>, records: seq<seq<byte>>, tail: seq<byte>)

  function LocalPlace(prefix: seq<byte>, locals: seq<seq<byte>>, k: nat): nat
    requires k <= |locals|
  {
    |prefix| + |Flat(locals, k)|
  }

  function DirectoryPlace(y: Layout): nat {
    LocalPlace(y.prefix, y.locals, |y.locals|)
  }

  function RecordPlace(y: Layout, k: nat): nat
    requires k <= |y.records|
  {
    DirectoryPlace(y) + |Flat(y.records, k)|
  }

  function Whole(y: Layout): seq<byte> {
    y.prefix + Flat(y.locals, |y.locals|) + Flat(y.records, |y.records|) + y.tail
  }

  function AllLocals(z: Zip): seq<seq<byte>> {
    seq(|z.entries|, k requires 0 <= k < |z.entries| => LocalBytes(z.entries[k].local))
  }

  function LocalAt(z: Zip, k: nat): nat
    requires k <= |z.entries|
  {
    LocalPlace(z.prefix, AllLocals(z), k)
  }

  function AllRecords(z: Zip): seq<seq<byte>> {
    seq(|z.entries|, k requires 0 <= k < |z.entries| => RecordBytes(z.entries[k], LocalAt(z, k)))
  }

  function Start(z: Zip): nat {
    LocalAt(z, |z.entries|)
  }

  function Length(z: Zip): nat {
    |Flat(AllRecords(z), |z.entries|)|
  }

  function End64Front(w: End64): (b: seq<byte>)
    ensures |b| == 24
  {
    [0x50, 0x4B, 6, 6] + W64(44) + W16(w.made) + W16(w.version) + W32(w.disk) + W32(w.startDisk)
  }

  function End64Record(w: End64, count: nat, length: nat, start: nat): (b: seq<byte>)
    ensures |b| == 56
  {
    End64Front(w) + (W64(w.here) + W64(count) + W64(length) + W64(start))
  }

  function Locator(w: End64, at: nat): (b: seq<byte>)
    ensures |b| == 20
  {
    [0x50, 0x4B, 6, 7] + W32(w.locatorDisk) + W64(at) + W32(w.disks)
  }

  function CountField(e: Ending, count: nat): nat {
    Capped16(e.wide.Some? && e.wide.value.fullCount, count)
  }

  function LengthField(e: Ending, length: nat): nat {
    Capped32(e.wide.Some? && e.wide.value.fullLength, length)
  }

  function StartField(e: Ending, start: nat): nat {
    Capped32(e.wide.Some? && e.wide.value.fullStart, start)
  }

  function EndFront(e: Ending): (b: seq<byte>)
    ensures |b| == 10
  {
    [0x50, 0x4B, 5, 6] + W16(e.disk) + W16(e.startDisk) + W16(e.here)
  }

  function EndBack(count: nat, length: nat, start: nat, comment: nat): (b: seq<byte>)
    ensures |b| == 12
  {
    W16(count) + W32(length) + W32(start) + W16(comment)
  }

  function EndRecord(e: Ending, count: nat, length: nat, start: nat): (b: seq<byte>)
    ensures |b| == 22
  {
    EndFront(e) + EndBack(count, length, start, |e.comment|)
  }

  function Wide64(e: Ending, count: nat, length: nat, start: nat): (b: seq<byte>)
    ensures |b| == if e.wide.Some? then 76 else 0
  {
    if e.wide.None? then []
    else End64Record(e.wide.value, count, length, start) + Locator(e.wide.value, start + length)
  }

  /** What follows the directory: the 64-bit end record with its locator, the end record and the comment. */
  function Tail(e: Ending, count: nat, length: nat, start: nat): seq<byte> {
    Wide64(e, count, length, start) +
    EndRecord(e, CountField(e, count), LengthField(e, length), StartField(e, start)) + e.comment
  }

  function LayoutOf(z: Zip): Layout {
    Layout(z.prefix, AllLocals(z), AllRecords(z), Tail(z.end, |z.entries|, Length(z), Start(z)))
  }

  function RecordAt(z: Zip, k: nat): nat
    requires k <= |z.entries|
  {
    RecordPlace(LayoutOf(z), k)
  }

  /** The whole file. */
  function Bytes(z: Zip): seq<byte> {
    Whole(LayoutOf(z))
  }

  // ---- which files are written whole ----

  predicate FieldFits(f: Field) {
    f.tag <= U16MAX && |f.value| <= U16MAX
  }

  predicate FieldsFit(fields: seq<Field>) {
    (forall i :: 0 <= i < |fields| ==> FieldFits(fields[i])) && |Encode(fields)| <= U16MAX
  }

  predicate LocalFits(l: Local) {
    l.flags <= U16MAX && l.compression <= U16MAX && |l.name| <= U16MAX && FieldsFit(l.fields)
  }

  /** A number that is not saturated must not look saturated. */
  predicate Fits32(wide: bool, n: nat) {
    if wide then n < 0x1_0000_0000_0000_0000 else n < U32MAX
  }

  predicate EntryFits(e: Entry, offset: nat) {
    LocalFits(e.local) && e.flags <= U16MAX && e.compression <= U16MAX && |e.name| <= U16MAX &&
    FieldsFit(Fields(e, offset)) && |e.comment| <= U16MAX && Fits32(e.wide.unpacked, e.unpacked) &&
    Fits32(e.wide.packed, |e.local.data|) && Fits32(e.wide.local, offset) &&
    if e.wide.disk then e.disk <= U32MAX else e.disk < U16MAX
  }
}
