/** One written member read back: its extra fields, its sizes, its directory record and its local header. */
module ZipMembers {
  import opened Wrappers
  import opened ZipDirectory
  import opened ZipFields
  import opened ZipNames
  import opened ZipWriter

  // ---- a directory record read back ----

  lemma {:induction false} FrontReads(e: Entry, offset: nat, b: seq<byte>, p: nat)
    requires EntryFits(e, offset) && At(b, p, RecordFront(e))
    ensures Signed(b, p, 1, 2) && U16(b, p + 8) == e.flags && U16(b, p + 10) == e.compression &&
            U32(b, p + 20) == Capped32(e.wide.packed, |e.local.data|) &&
            U32(b, p + 24) == Capped32(e.wide.unpacked, e.unpacked)
  {
    var h := RecordFront(e);
    AtWithin(b, p, h, 0, [0x50, 0x4B, 1, 2]);
    AtSign(b, p, 1, 2);
    At16(b, p, h, 8, e.flags);
    At16(b, p, h, 10, e.compression);
    At32(b, p, h, 20, Capped32(e.wide.packed, |e.local.data|));
    At32(b, p, h, 24, Capped32(e.wide.unpacked, e.unpacked));
  }

  lemma {:induction false} BackReads(e: Entry, offset: nat, b: seq<byte>, p: nat)
    requires EntryFits(e, offset) && At(b, p, RecordBack(e, offset))
    ensures U16(b, p) == |e.name| && U16(b, p + 2) == |Encode(Fields(e, offset))| && U16(b, p + 4) == |e.comment| &&
            U16(b, p + 6) == Capped16(e.wide.disk, e.disk) && U32(b, p + 14) == Capped32(e.wide.local, offset)
  {
    var h := RecordBack(e, offset);
    At16(b, p, h, 0, |e.name|);
    At16(b, p, h, 2, |Encode(Fields(e, offset))|);
    At16(b, p, h, 4, |e.comment|);
    At16(b, p, h, 6, Capped16(e.wide.disk, e.disk));
    At32(b, p, h, 14, Capped32(e.wide.local, offset));
  }

  lemma {:induction false} LocalFrontReads(l: Local, b: seq<byte>, p: nat)
    requires LocalFits(l) && At(b, p, LocalFront(l))
    ensures Signed(b, p, 3, 4) && U16(b, p + 6) == l.flags && U16(b, p + 8) == l.compression
  {
    var h := LocalFront(l);
    AtWithin(b, p, h, 0, [0x50, 0x4B, 3, 4]);
    AtSign(b, p, 3, 4);
    At16(b, p, h, 6, l.flags);
    At16(b, p, h, 8, l.compression);
  }

  lemma {:induction false} LocalBackReads(l: Local, b: seq<byte>, p: nat)
    requires LocalFits(l) && At(b, p, LocalBack(l))
    ensures U16(b, p + 12) == |l.name| && U16(b, p + 14) == |Encode(l.fields)|
  {
    var h := LocalBack(l);
    At16(b, p, h, 12, |l.name|);
    At16(b, p, h, 14, |Encode(l.fields)|);
  }

  lemma {:induction false} LocalHeaderReads(l: Local, b: seq<byte>, p: nat)
    requires LocalFits(l) && At(b, p, LocalHeader(l))
    ensures Signed(b, p, 3, 4) && U16(b, p + 6) == l.flags && U16(b, p + 8) == l.compression &&
            U16(b, p + 26) == |l.name| && U16(b, p + 28) == |Encode(l.fields)|
  {
    AtBoth(b, p, LocalFront(l), LocalBack(l));
    LocalFrontReads(l, b, p);
    LocalBackReads(l, b, p + 14);
  }

  // ---- extra fields read back ----

  /** A Unicode path field (tag 0x7075) repeats the name; no second 64-bit field. */
  predicate PathOk(f: Field, name: seq<byte>) {
    f.tag == 0x7075 ==> |f.value| >= 5 && f.value[5..] == name
  }

  predicate FieldsGood(fields: seq<Field>, name: seq<byte>) {
    (forall i :: 0 <= i < |fields| ==> PathOk(fields[i], name)) &&
    forall i, j :: 0 <= i < j < |fields| ==> !(fields[i].tag == 1 && fields[j].tag == 1)
  }

  predicate NoWide(fields: seq<Field>) {
    forall i :: 0 <= i < |fields| ==> fields[i].tag != 1
  }

  /** The value of the first 64-bit field. */
  function WideOf(fields: seq<Field>): Option<seq<byte>> {
    if fields == [] then None else if fields[0].tag == 1 then Some(fields[0].value) else WideOf(fields[1..])
  }

  lemma {:induction false} GoodRest(fields: seq<Field>, name: seq<byte>)
    requires fields != []
    ensures FieldsGood(fields, name) <==>
            PathOk(fields[0], name) && FieldsGood(fields[1..], name) && (fields[0].tag == 1 ==> NoWide(fields[1..]))
    ensures NoWide(fields) <==> fields[0].tag != 1 && NoWide(fields[1..])
  {
    assert forall i :: 0 < i < |fields| ==> fields[i] == fields[1..][i - 1];
  }

  lemma {:induction false} FieldReads(b: seq<byte>, p: nat, f: Field)
    requires FieldFits(f) && At(b, p, FieldBytes(f))
    ensures p + 4 <= |b| && U16(b, p) == f.tag && p + 4 + |f.value| <= |b| && U16(b, p + 2) == |f.value| &&
            b[p + 4..p + 4 + |f.value|] == f.value
  {
    At16(b, p, FieldBytes(f), 0, f.tag);
    At16(b, p, FieldBytes(f), 2, |f.value|);
    AtBoth(b, p, W16(f.tag) + W16(|f.value|), f.value);
  }

  /** The fields one after another from `p` to the end. */
  predicate Laid(b: seq<byte>, p: nat, fields: seq<Field>)
    decreases |fields|
  {
    if fields == [] then p == |b|
    else
      var end := p + 4 + |fields[0].value|;
      end <= |b| && U16(b, p) == fields[0].tag && U16(b, p + 2) == |fields[0].value| &&
      b[p + 4..end] == fields[0].value && Laid(b, end, fields[1..])
  }

  lemma {:induction false} EncodeLays(b: seq<byte>, p: nat, fields: seq<Field>)
    requires (forall i :: 0 <= i < |fields| ==> FieldFits(fields[i])) && p <= |b| && b[p..] == Encode(fields)
    ensures Laid(b, p, fields)
    decreases |fields|
  {
    if fields != [] {
      assert FieldFits(fields[0]);
      FirstField(b, p, fields);
      FieldReads(b, p, fields[0]);
      EncodeLays(b, p + 4 + |fields[0].value|, fields[1..]);
    }
  }

  lemma {:induction false} FirstField(b: seq<byte>, p: nat, fields: seq<Field>)
    requires fields != [] && p <= |b| && b[p..] == Encode(fields)
    ensures At(b, p, FieldBytes(fields[0]))
    ensures var end := p + 4 + |fields[0].value|; end <= |b| && b[end..] == Encode(fields[1..])
  {
    var first, rest := FieldBytes(fields[0]), Encode(fields[1..]);
    assert At(b, p, first + rest);
    AtBoth(b, p, first, rest);
    assert b[p + |first|..] == rest;
  }

  /** The extra fields are accepted exactly when they are good, and the 64-bit one is found. */
  lemma {:induction false} ExtraReads(b: seq<byte>, p: nat, fields: seq<Field>, name: seq<byte>, found: Option<seq<byte>>)
    requires p <= |b| && Laid(b, p, fields)
    ensures Extra(b, name, p, found) ==
            if FieldsGood(fields, name) && (found.Some? ==> NoWide(fields)) then
              Some(if found.Some? then found else WideOf(fields))
            else None
    decreases |fields|
  {
    if fields == [] {
    } else {
      var f, rest := fields[0], fields[1..];
      GoodRest(fields, name);
      ExtraReads(b, p + 4 + |f.value|, rest, name, if f.tag == 1 then Some(f.value) else found);
    }
  }

  // ---- sizes read back ----

  function Eight(wide: bool): nat {
    if wide then 8 else 0
  }

  lemma {:induction false} WidenedReads(wide: bool, n: nat, z: seq<byte>, p: nat)
    requires Fits32(wide, n) && (wide ==> At(z, p, W64(n)))
    ensures Widened(Capped32(wide, n), z, p) == Some((n, p + Eight(wide)))
  {
    if wide {
      Read64(z, p, n);
    }
  }

  /** The values of the saturated fields one after another. */
  predicate HoldsWide(e: Entry, offset: nat, z: seq<byte>) {
    var p, q := Eight(e.wide.unpacked), Eight(e.wide.unpacked) + Eight(e.wide.packed);
    (e.wide.unpacked ==> At(z, 0, W64(e.unpacked))) && (e.wide.packed ==> At(z, p, W64(|e.local.data|))) &&
    (e.wide.local ==> At(z, q, W64(offset))) && (e.wide.disk ==> At(z, q + Eight(e.wide.local), W32(e.disk)))
  }

  lemma {:induction false} FourParts(a: seq<byte>, b: seq<byte>, c: seq<byte>, d: seq<byte>)
    ensures var z := a + b + c + d;
            At(z, 0, a) && At(z, |a|, b) && At(z, |a| + |b|, c) && At(z, |a| + |b| + |c|, d)
  {
    Joined(a + b + c, d);
    AtBoth(a + b + c + d, 0, a + b, c);
    AtBoth(a + b + c + d, 0, a, b);
  }

  lemma {:induction false} WideParts(e: Entry, offset: nat)
    ensures HoldsWide(e, offset, WideValue(e, offset))
  {
    FourParts(Maybe(e.wide.unpacked, W64(e.unpacked)), Maybe(e.wide.packed, W64(|e.local.data|)),
              Maybe(e.wide.local, W64(offset)), Maybe(e.wide.disk, W32(e.disk)));
  }

  /** The fixed part of a record, field by field. */
  predicate HeaderOf(e: Entry, offset: nat, h: seq<byte>) {
    |h| == 46 && Signed(h, 0, 1, 2) && U16(h, 8) == e.flags && U16(h, 10) == e.compression &&
    U16(h, 28) == |e.name| && U16(h, 30) == |Encode(Fields(e, offset))| && U16(h, 32) == |e.comment| &&
    U16(h, 34) == Capped16(e.wide.disk, e.disk) && U32(h, 20) == Capped32(e.wide.packed, |e.local.data|) &&
    U32(h, 24) == Capped32(e.wide.unpacked, e.unpacked) && U32(h, 42) == Capped32(e.wide.local, offset)
  }

  lemma {:induction false} HeaderReads(e: Entry, offset: nat)
    requires EntryFits(e, offset)
    ensures HeaderOf(e, offset, RecordHeader(e, offset))
  {
    var h := RecordHeader(e, offset);
    Joined(RecordFront(e), RecordBack(e, offset));
    FrontReads(e, offset, h, 0);
    BackReads(e, offset, h, 28);
  }

  lemma {:induction false} SizesRead(e: Entry, offset: nat, h: seq<byte>, z: seq<byte>)
    requires EntryFits(e, offset) && HeaderOf(e, offset, h) && HoldsWide(e, offset, z)
    ensures ReadSizes(h, z) == if e.disk == 0 then Some(Sizes(e.unpacked, |e.local.data|, offset)) else None
  {
    var p := Eight(e.wide.unpacked);
    var q := p + Eight(e.wide.packed);
    WidenedReads(e.wide.unpacked, e.unpacked, z, 0);
    WidenedReads(e.wide.packed, |e.local.data|, z, p);
    WidenedReads(e.wide.local, offset, z, q);
    if e.wide.disk {
      Read32(z, q + Eight(e.wide.local), e.disk);
    }
  }

  // ---- one member read back ----

  function SizesOf(e: Entry, offset: nat): Sizes {
    Sizes(e.unpacked, |e.local.data|, offset)
  }

  /** Where the data of a member whose local part is at `offset` ends. */
  function DataEnd(e: Entry, offset: nat): nat {
    offset + 30 + |e.local.name| + |Encode(e.local.fields)| + |e.local.data|
  }

  /** The local header and the directory record tell the same, and its extra fields are good. */
  predicate Agrees(e: Entry) {
    SameHeader(e) && FieldsGood(e.local.fields, e.name)
  }

  predicate SameHeader(e: Entry) {
    e.local.flags == e.flags && e.local.compression == e.compression && e.local.name == e.name
  }

  lemma {:induction false} LocalFrom(
    b: seq<byte>, start: nat, h: seq<byte>, name: seq<byte>, s: Sizes, lh: seq<byte>, p: nat, q: nat)
    requires |h| >= 46 && s.local + 30 <= start <= |b| && lh == b[s.local..s.local + 30] && Signed(lh, 0, 3, 4)
    requires p == s.local + 30 + U16(lh, 26) && q == p + U16(lh, 28) && q + s.packed <= start
    ensures LocalEnd(b, start, h, name, s) ==
            if U16(lh, 6) == U16(h, 8) && U16(lh, 8) == U16(h, 10) && b[s.local + 30..p] == name &&
               Extra(b[p..q], name, 0, None).Some?
            then Some(q + s.packed) else None
  {
  }

  lemma {:induction false} LocalReads(
    e: Entry, offset: nat, b: seq<byte>, start: nat, h: seq<byte>, p: nat, q: nat, good: bool)
    requires LocalFits(e.local) && |h| == 46 && U16(h, 8) == e.flags && U16(h, 10) == e.compression
    requires LocalPlaced(e.local, b, offset) && DataEnd(e, offset) <= start <= |b|
    requires p == offset + 30 + |e.local.name| && q == p + |Encode(e.local.fields)|
    requires Extra(b[p..q], e.name, 0, None).Some? <==> good
    ensures LocalEnd(b, start, h, e.name, SizesOf(e, offset)) ==
            if SameHeader(e) && good then Some(DataEnd(e, offset)) else None
  {
    var lh := b[offset..offset + 30];
    assert lh == LocalHeader(e.local);
    LocalHeaderReads(e.local, lh, 0);
    LocalFrom(b, start, h, e.name, SizesOf(e, offset), lh, p, q);
  }

  lemma {:induction false} LocalFinds(e: Entry, offset: nat, b: seq<byte>, start: nat, h: seq<byte>)
    requires LocalFits(e.local) && |h| == 46 && U16(h, 8) == e.flags && U16(h, 10) == e.compression
    requires LocalPlaced(e.local, b, offset) && DataEnd(e, offset) <= start <= |b|
    ensures LocalEnd(b, start, h, e.name, SizesOf(e, offset)) == if Agrees(e) then Some(DataEnd(e, offset)) else None
  {
    var p := offset + 30 + |e.local.name|;
    var q := p + |Encode(e.local.fields)|;
    LocalFieldsRead(e.local, b, p, q, e.name);
    LocalReads(e, offset, b, start, h, p, q, FieldsGood(e.local.fields, e.name));
  }

  lemma {:induction false} LocalFieldsRead(l: Local, b: seq<byte>, p: nat, q: nat, name: seq<byte>)
    requires LocalFits(l) && At(b, p, Encode(l.fields)) && q == p + |Encode(l.fields)|
    ensures Extra(b[p..q], name, 0, None).Some? <==> FieldsGood(l.fields, name)
  {
    var extra := b[p..q];
    assert extra[0..] == extra;
    EncodeLays(extra, 0, l.fields);
    ExtraReads(extra, 0, l.fields, name, None);
  }

  predicate LocalPlaced(l: Local, b: seq<byte>, p: nat) {
    At(b, p, LocalHeader(l)) && At(b, p + 30, l.name) && At(b, p + 30 + |l.name|, Encode(l.fields))
  }

  lemma {:induction false} LocalParts(l: Local, b: seq<byte>, p: nat)
    requires At(b, p, LocalBytes(l))
    ensures LocalPlaced(l, b, p)
  {
    AtBoth(b, p, LocalHeader(l) + l.name + Encode(l.fields) + l.data, l.trailer);
    AtBoth(b, p, LocalHeader(l) + l.name + Encode(l.fields), l.data);
    AtBoth(b, p, LocalHeader(l) + l.name, Encode(l.fields));
    AtBoth(b, p, LocalHeader(l), l.name);
  }

  // ---- one record read back ----

  ghost predicate Good(u: Utf8, e: Entry, offset: nat) {
    0 < |e.name| <= 1024 && Safe(u, e.name, e.flags) && FieldsGood(Fields(e, offset), e.name) &&
    SizesGood(e) && Agrees(e)
  }

  predicate RecordPlaced(e: Entry, offset: nat, b: seq<byte>, p: nat) {
    At(b, p, RecordHeader(e, offset)) && At(b, p + 46, e.name) &&
    At(b, p + 46 + |e.name|, Encode(Fields(e, offset))) && p + RecordLength(e, offset) <= |b|
  }

  lemma {:induction false} RecordParts(e: Entry, offset: nat, b: seq<byte>, p: nat)
    requires At(b, p, RecordBytes(e, offset))
    ensures RecordPlaced(e, offset, b, p)
  {
    AtBoth(b, p, RecordHeader(e, offset) + e.name + Encode(Fields(e, offset)), e.comment);
    AtBoth(b, p, RecordHeader(e, offset) + e.name, Encode(Fields(e, offset)));
    AtBoth(b, p, RecordHeader(e, offset), e.name);
  }

  /** What a record is read back as. */
  predicate ReadBack(e: Entry, offset: nat, p: nat, r: Header) {
    HeaderOf(e, offset, r.h) && r.name == e.name && r.extra == Encode(Fields(e, offset)) &&
    r.next == p + RecordLength(e, offset)
  }

  lemma {:induction false} HeaderAt(e: Entry, offset: nat, b: seq<byte>, p: nat, h: seq<byte>)
    requires EntryFits(e, offset) && At(b, p, RecordHeader(e, offset)) && h == b[p..p + 46]
    ensures HeaderOf(e, offset, h)
  {
    HeaderReads(e, offset);
    assert h == RecordHeader(e, offset);
  }

  lemma {:induction false} RecordFrom(b: seq<byte>, d: End, p: nat, h: seq<byte>, q: nat, r: nat, next: nat)
    requires EndOk(b, d) && d.start <= p && p + 46 <= next <= d.directoryEnd && h == b[p..p + 46] && Signed(h, 0, 1, 2)
    requires q == p + 46 + U16(h, 28) && r == q + U16(h, 30) && next == r + U16(h, 32)
    ensures ReadRecord(b, d, p) ==
            if 0 < U16(h, 28) <= 1024 then Some(Header(h, b[p + 46..q], b[q..r], next)) else None
  {
  }

  lemma {:induction false} RecordReads(e: Entry, offset: nat, b: seq<byte>, d: End, p: nat)
    requires EntryFits(e, offset) && EndOk(b, d) && d.start <= p
    requires RecordPlaced(e, offset, b, p) && p + RecordLength(e, offset) <= d.directoryEnd
    ensures var r := ReadRecord(b, d, p);
            (r.Some? <==> 0 < |e.name| <= 1024) && (r.Some? ==> ReadBack(e, offset, p, r.value))
  {
    var h, q := b[p..p + 46], p + 46 + |e.name|;
    HeaderAt(e, offset, b, p, h);
    RecordFrom(b, d, p, h, q, q + |Encode(Fields(e, offset))|, p + RecordLength(e, offset));
  }

  /** What the preflight knows of a member. */
  function MemberOf(e: Entry, offset: nat, p: nat): Member {
    Member(p, p + RecordLength(e, offset), e.name, |e.local.data|, e.unpacked, offset, DataEnd(e, offset))
  }

  lemma {:induction false} FieldsRead(e: Entry, offset: nat)
    requires EntryFits(e, offset)
    ensures var z := Extra(Encode(Fields(e, offset)), e.name, 0, None);
            (z.Some? <==> FieldsGood(Fields(e, offset), e.name)) &&
            (z.Some? ==> HoldsWide(e, offset, if z.value.Some? then z.value.value else []))
  {
    var b := Encode(Fields(e, offset));
    assert b[0..] == b;
    EncodeLays(b, 0, Fields(e, offset));
    ExtraReads(b, 0, Fields(e, offset), e.name, None);
    if FieldsGood(Fields(e, offset), e.name) && WideFields(e, offset) != [] {
      OnlyWide(e.before, WideValue(e, offset), e.after, e.name);
      WideParts(e, offset);
      assert Fields(e, offset) == e.before + [Field(1, WideValue(e, offset))] + e.after;
    }
  }

  lemma {:induction false} OnlyWide(before: seq<Field>, value: seq<byte>, after: seq<Field>, name: seq<byte>)
    requires FieldsGood(before + [Field(1, value)] + after, name)
    ensures WideOf(before + [Field(1, value)] + after) == Some(value)
  {
    var fields := before + [Field(1, value)] + after;
    if before != [] {
      assert fields[0] == before[0] && fields[|before|].tag == 1;
      assert fields[1..] == before[1..] + [Field(1, value)] + after;
      GoodRest(fields, name);
      OnlyWide(before[1..], value, after, name);
    }
  }

  /** The sizes and the local offset of a record, as far as the compression allows them. */
  predicate SizesGood(e: Entry) {
    (e.compression == 8 || (e.compression == 0 && |e.local.data| == e.unpacked)) && e.disk == 0
  }

  lemma {:induction false} CheckedSizesRead(e: Entry, offset: nat, h: seq<byte>, z: Option<seq<byte>>)
    requires EntryFits(e, offset) && HeaderOf(e, offset, h)
    requires HoldsWide(e, offset, if z.Some? then z.value else [])
    ensures CheckedSizes(h, z) == if SizesGood(e) then Some(SizesOf(e, offset)) else None
  {
    SizesRead(e, offset, h, if z.Some? then z.value else []);
  }

  lemma {:induction false} SizesFrom(e: Entry, offset: nat, h: seq<byte>, z: Option<Option<seq<byte>>>)
    requires EntryFits(e, offset) && HeaderOf(e, offset, h) && z == Extra(Encode(Fields(e, offset)), e.name, 0, None)
    ensures z.Some? <==> FieldsGood(Fields(e, offset), e.name)
    ensures z.Some? ==> CheckedSizes(h, z.value) == if SizesGood(e) then Some(SizesOf(e, offset)) else None
  {
    FieldsRead(e, offset);
    if z.Some? {
      CheckedSizesRead(e, offset, h, z.value);
    }
  }

  /** What the passes over a record and its local header find: the record's name and the place after it, its
      sizes and the end of its data, and whether its extra fields, its sizes and its local header are good. */
  datatype Finding = Finding(
    name: seq<byte>, flags: nat, next: nat, sizes: Sizes, end: nat, fields: bool, sized: bool, agrees: bool)

  predicate Found(b: seq<byte>, d: End, r: Header, f: Finding)
    requires |r.h| == 46 && d.start <= |b|
  {
    var z := Extra(r.extra, f.name, 0, None);
    r.name == f.name && r.next == f.next && U16(r.h, 8) == f.flags && (z.Some? <==> f.fields) &&
    (z.Some? ==> CheckedSizes(r.h, z.value) == if f.sized then Some(f.sizes) else None) &&
    LocalEnd(b, d.start, r.h, f.name, f.sizes) == if f.agrees then Some(f.end) else None
  }

  function FindingOf(e: Entry, offset: nat, p: nat): Finding {
    Finding(e.name, e.flags, p + RecordLength(e, offset), SizesOf(e, offset), DataEnd(e, offset),
            FieldsGood(Fields(e, offset), e.name), SizesGood(e), Agrees(e))
  }

  lemma {:induction false} FindsParts(e: Entry, offset: nat, b: seq<byte>, d: End, p: nat, r: Header)
    requires EntryFits(e, offset) && ReadBack(e, offset, p, r)
    requires LocalPlaced(e.local, b, offset) && DataEnd(e, offset) <= d.start <= |b|
    ensures Found(b, d, r, FindingOf(e, offset, p))
  {
    SizesFrom(e, offset, r.h, Extra(r.extra, e.name, 0, None));
    LocalFinds(e, offset, b, d.start, r.h);
  }

  lemma {:induction false} MemberFrom(u: Utf8, b: seq<byte>, d: End, p: nat, f: Finding)
    requires EndOk(b, d) && d.start <= p
    requires var r := ReadRecord(b, d, p); r.Some? ==> Found(b, d, r.value, f)
    ensures ReadMember(u, b, d, p) ==
            if ReadRecord(b, d, p).Some? && NameOk(u, f.name, f.flags) && f.fields && f.sized && f.agrees then
              Some(Member(p, f.next, f.name, f.sizes.packed, f.sizes.unpacked, f.sizes.local, f.end))
            else None
  {
  }

  lemma {:induction false} GoodMeans(u: Utf8, e: Entry, offset: nat, p: nat)
    ensures var f := FindingOf(e, offset, p);
            Good(u, e, offset) <==>
              0 < |e.name| <= 1024 && NameOk(u, f.name, f.flags) && f.fields && f.sized && f.agrees
    ensures var f := FindingOf(e, offset, p);
            MemberOf(e, offset, p) ==
              Member(p, f.next, f.name, f.sizes.packed, f.sizes.unpacked, f.sizes.local, f.end)
  {
    NameMeans(u, e.name, e.flags);
  }
}
