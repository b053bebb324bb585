/** Where an archive's bytes are counted: each gzip member of a WARC is shared out among its
    records to the last byte, and the report divides the archive into unique payload,
    duplicate payload and metadata. */
module Storage {
  import opened Wrappers
  import opened ZipDirectory

  const MAX_ITEMS := 50_000
  const MAX_PER_MEMBER := 128

  datatype Kind = Response | Resource | Revisit | Other

  /** A record as decompression finds it. */
  datatype Item = Item(kind: Kind, digest: string, payloadField: string, resolved: bool)

  datatype Record = Record(item: Item, offset: nat, length: nat, stored: nat)

  /** Decompression from an offset on: the compressed bytes it takes and the records in them. */
  type Gunzip = nat -> Option<(nat, seq<Item>)>

  // ---- sharing out one gzip member ----

  /** An equal part, and one byte more for the first few. */
  function Share(span: nat, count: nat, i: nat): nat
    requires count > 0
  {
    span / count + if i < span % count then 1 else 0
  }

  function Shared(items: seq<Item>, offset: nat, span: nat, n: nat): (rs: seq<Record>)
    requires n <= |items|
    ensures |rs| == n
  {
    if n == 0 then []
    else Shared(items, offset, span, n - 1) + [Record(items[n - 1], offset, span, Share(span, |items|, n - 1))]
  }

  function StoredSum(rs: seq<Record>): nat {
    if rs == [] then 0 else StoredSum(rs[..|rs| - 1]) + rs[|rs| - 1].stored
  }

  lemma {:induction false} SumAppend(rs: seq<Record>, r: Record)
    ensures StoredSum(rs + [r]) == StoredSum(rs) + r.stored
  {
    assert (rs + [r])[..|rs|] == rs;
  }

  lemma {:induction false} SumConcat(a: seq<Record>, b: seq<Record>)
    ensures StoredSum(a + b) == StoredSum(a) + StoredSum(b)
  {
    if b == [] {
      assert a + b == a;
    } else {
      var init := b[..|b| - 1];
      assert a + b == (a + init) + [b[|b| - 1]];
      SumAppend(a + init, b[|b| - 1]);
      SumConcat(a, init);
    }
  }

  function Least(a: nat, b: nat): nat {
    if a <= b then a else b
  }

  function Times(n: nat, q: nat): nat {
    if n == 0 then 0 else Times(n - 1, q) + q
  }

  lemma {:induction false} TimesIsProduct(n: nat, q: nat)
    ensures Times(n, q) == n * q
  {
    if n > 0 {
      TimesIsProduct(n - 1, q);
      assert (n - 1) * q + q == n * q;
    }
  }

  lemma {:induction false} SharesSoFar(items: seq<Item>, offset: nat, span: nat, n: nat, q: nat, r: nat)
    requires n <= |items| && |items| > 0 && q == span / |items| && r == span % |items|
    ensures StoredSum(Shared(items, offset, span, n)) == Times(n, q) + Least(n, r)
  {
    if n > 0 {
      SharesSoFar(items, offset, span, n - 1, q, r);
      var share := Share(span, |items|, n - 1);
      assert share == q + if n - 1 < r then 1 else 0;
      SumAppend(Shared(items, offset, span, n - 1), Record(items[n - 1], offset, span, share));
    }
  }

  /** The shares of a gzip member's records are the member, to the byte. */
  lemma {:induction false} SharesAddUp(items: seq<Item>, offset: nat, span: nat)
    requires |items| > 0
    ensures StoredSum(Shared(items, offset, span, |items|)) == span
  {
    var q, r := span / |items|, span % |items|;
    SharesSoFar(items, offset, span, |items|, q, r);
    TimesIsProduct(|items|, q);
    assert |items| * q + r == span;
  }

  // ---- scanning a WARC ----

  /** The records of a WARC of `length` bytes from `at` on, `have` being scanned already. */
  function Scan(gz: Gunzip, length: nat, at: nat, have: nat): Option<seq<Record>>
    requires at <= length
    decreases length - at
  {
    if at == length then Some([])
    else
      var m := gz(at);
      if m.None? || |m.value.1| > MAX_PER_MEMBER || have + |m.value.1| > MAX_ITEMS || m.value.0 == 0 ||
         at + m.value.0 > length || |m.value.1| == 0 then None
      else
        Before(Shared(m.value.1, at, m.value.0, |m.value.1|),
               Scan(gz, length, at + m.value.0, have + |m.value.1|))
  }

  /** A scan begins with the records of one gzip member. */
  lemma {:induction false} ScanNext(gz: Gunzip, length: nat, at: nat, have: nat)
    requires at < length && Scan(gz, length, at, have).Some?
    ensures gz(at).Some? && gz(at).value.0 > 0 && at + gz(at).value.0 <= length && |gz(at).value.1| > 0
    ensures var (span, items) := gz(at).value;
            Scan(gz, length, at + span, have + |items|).Some? &&
            Scan(gz, length, at, have).value ==
              Shared(items, at, span, |items|) + Scan(gz, length, at + span, have + |items|).value
  {
  }

  /** The stored shares of a whole WARC add up to the WARC. */
  lemma {:induction false} ScanAddsUp(gz: Gunzip, length: nat, at: nat, have: nat)
    requires at <= length && Scan(gz, length, at, have).Some?
    ensures StoredSum(Scan(gz, length, at, have).value) == length - at
    decreases length - at
  {
    if at < length {
      ScanNext(gz, length, at, have);
      var (span, items) := gz(at).value;
      ScanAddsUp(gz, length, at + span, have + |items|);
      SharesAddUp(items, at, span);
      SumConcat(Shared(items, at, span, |items|), Scan(gz, length, at + span, have + |items|).value);
    }
  }

  /** Every byte of the WARC belongs to the span of exactly one gzip member: records scanned
      one after the other share a span or lie in adjoining ones. */
  ghost predicate Tiles(rs: seq<Record>, low: nat, high: nat) {
    (rs == [] ==> low == high) &&
    (rs != [] ==> rs[0].offset == low && rs[|rs| - 1].offset + rs[|rs| - 1].length == high) &&
    (forall k :: 0 <= k < |rs| ==> rs[k].length > 0) &&
    forall k :: 0 < k < |rs| ==> Follows(rs[k - 1], rs[k])
  }

  predicate Follows(a: Record, b: Record) {
    (b.offset == a.offset && b.length == a.length) || b.offset == a.offset + a.length
  }

  lemma {:induction false} SharedSpan(items: seq<Item>, offset: nat, span: nat, n: nat)
    requires n <= |items|
    ensures forall k :: 0 <= k < n ==>
      Shared(items, offset, span, n)[k].offset == offset && Shared(items, offset, span, n)[k].length == span
  {
    if n > 0 {
      SharedSpan(items, offset, span, n - 1);
    }
  }

  lemma {:induction false} TilesJoin(a: seq<Record>, b: seq<Record>, low: nat, middle: nat, high: nat)
    requires a != [] && Tiles(a, low, middle) && Tiles(b, middle, high)
    ensures Tiles(a + b, low, high)
  {
    var rs := a + b;
    forall k | 0 < k < |rs|
      ensures Follows(rs[k - 1], rs[k])
    {
      if k < |a| {
        assert rs[k] == a[k];
      } else if k > |a| {
        assert rs[k] == b[k - |a|] && rs[k - 1] == b[k - |a| - 1];
      }
    }
  }

  lemma {:induction false} ScanTiles(gz: Gunzip, length: nat, at: nat, have: nat)
    requires at <= length && Scan(gz, length, at, have).Some?
    ensures Tiles(Scan(gz, length, at, have).value, at, length)
    decreases length - at
  {
    if at < length {
      ScanNext(gz, length, at, have);
      var (span, items) := gz(at).value;
      ScanTiles(gz, length, at + span, have + |items|);
      SharedTiles(items, at, span);
      TilesJoin(Shared(items, at, span, |items|), Scan(gz, length, at + span, have + |items|).value,
                at, at + span, length);
    }
  }

  lemma {:induction false} SharedTiles(items: seq<Item>, offset: nat, span: nat)
    requires items != [] && span > 0
    ensures Shared(items, offset, span, |items|) != [] && Tiles(Shared(items, offset, span, |items|), offset, offset + span)
  {
    SharedSpan(items, offset, span, |items|);
  }

  // ---- which WARCs can be scanned ----

  /** A member's records in order, each with the member's span and a share of its bytes; the shares are
      the member, no two differ by more than a byte, and the larger ones come first. */
  ghost predicate SharedOut(items: seq<Item>, offset: nat, span: nat, rs: seq<Record>) {
    |rs| == |items| && StoredSum(rs) == span &&
    (forall i :: 0 <= i < |rs| ==> rs[i].item == items[i] && rs[i].offset == offset && rs[i].length == span) &&
    forall i, j :: 0 <= i <= j < |rs| ==> rs[j].stored <= rs[i].stored <= rs[j].stored + 1
  }

  lemma {:induction false} SharedAt(items: seq<Item>, offset: nat, span: nat, n: nat, i: nat)
    requires i < n <= |items|
    ensures Shared(items, offset, span, n)[i] == Record(items[i], offset, span, Share(span, |items|, i))
  {
    if i < n - 1 {
      SharedAt(items, offset, span, n - 1, i);
    }
  }

  lemma {:induction false} SharedMeans(items: seq<Item>, offset: nat, span: nat)
    requires items != []
    ensures SharedOut(items, offset, span, Shared(items, offset, span, |items|))
  {
    SharesAddUp(items, offset, span);
    forall i | 0 <= i < |items|
      ensures Shared(items, offset, span, |items|)[i] == Record(items[i], offset, span, Share(span, |items|, i))
    {
      SharedAt(items, offset, span, |items|, i);
    }
  }

  /** Gzip members of one to 128 records begin at these places, one right after the other, up to the last place. */
  ghost predicate MembersAt(gz: Gunzip, cuts: seq<nat>) {
    cuts != [] &&
    forall k :: 0 <= k < |cuts| - 1 ==>
      gz(cuts[k]).Some? && cuts[k] < cuts[k + 1] == cuts[k] + gz(cuts[k]).value.0 &&
      1 <= |gz(cuts[k]).value.1| <= 128
  }

  /** The records are those of the members, one member after the other. */
  ghost predicate RecordsOf(gz: Gunzip, cuts: seq<nat>, rs: seq<Record>)
    requires MembersAt(gz, cuts)
    decreases |cuts|
  {
    if |cuts| == 1 then rs == []
    else
      var (span, items) := gz(cuts[0]).value;
      |items| <= |rs| && SharedOut(items, cuts[0], span, rs[..|items|]) && RecordsOf(gz, cuts[1..], rs[|items|..])
  }

  lemma {:induction false} SumBelow(a: seq<Record>, b: seq<Record>)
    requires |a| == |b| && forall i :: 0 <= i < |a| ==> a[i].stored <= b[i].stored
    ensures StoredSum(a) <= StoredSum(b)
    ensures StoredSum(a) == StoredSum(b) ==> forall i :: 0 <= i < |a| ==> a[i].stored == b[i].stored
  {
    if a != [] {
      var n := |a| - 1;
      SumBelow(a[..n], b[..n]);
      assert forall i :: 0 <= i < n ==> a[..n][i] == a[i] && b[..n][i] == b[i];
    }
  }

  /** Shares that add up, are even and do not grow are determined: of two such lists neither is anywhere larger. */
  lemma {:induction false} SharedOutUnique(items: seq<Item>, offset: nat, span: nat, a: seq<Record>, b: seq<Record>)
    requires SharedOut(items, offset, span, a) && SharedOut(items, offset, span, b)
    ensures a == b
  {
    if i :| 0 <= i < |a| && a[i].stored > b[i].stored {
      forall j | 0 <= j < |a|
        ensures b[j].stored <= a[j].stored
      {
        assert a[if i <= j then i else j].stored >= a[if i <= j then j else i].stored;
      }
      SumBelow(b, a);
    } else {
      SumBelow(a, b);
    }
  }

  /** A WARC is scanned exactly when it is gzip members from end to end, each of one to 128 records and no
      more than 50,000 in all; the scan is their records. */
  lemma {:induction false} ScanMeans(gz: Gunzip, length: nat, at: nat, have: nat, rs: seq<Record>)
    requires at <= length && have <= 50_000
    ensures Scan(gz, length, at, have) == Some(rs) <==>
      have + |rs| <= 50_000 &&
      exists cuts :: MembersAt(gz, cuts) && cuts[0] == at && cuts[|cuts| - 1] == length && RecordsOf(gz, cuts, rs)
  {
    if Scan(gz, length, at, have) == Some(rs) {
      var cuts := ScanCuts(gz, length, at, have);
    }
    if cuts :| MembersAt(gz, cuts) && cuts[0] == at && cuts[|cuts| - 1] == length && RecordsOf(gz, cuts, rs) {
      if have + |rs| <= 50_000 {
        CutsScan(gz, length, cuts, have, rs);
      }
    }
  }

  lemma {:induction false} CutBefore(gz: Gunzip, at: nat, rest: seq<nat>, more: seq<Record>)
    requires MembersAt(gz, rest) && RecordsOf(gz, rest, more)
    requires gz(at).Some? && at < rest[0] == at + gz(at).value.0 && 1 <= |gz(at).value.1| <= 128
    ensures MembersAt(gz, [at] + rest)
    ensures var (span, items) := gz(at).value;
            RecordsOf(gz, [at] + rest, Shared(items, at, span, |items|) + more)
  {
    var (span, items) := gz(at).value;
    var cuts, rs := [at] + rest, Shared(items, at, span, |items|);
    assert cuts[1..] == rest && forall k :: 0 < k < |cuts| ==> cuts[k] == rest[k - 1];
    SharedMeans(items, at, span);
    assert (rs + more)[..|rs|] == rs && (rs + more)[|rs|..] == more;
  }

  lemma {:induction false} ScanCuts(gz: Gunzip, length: nat, at: nat, have: nat) returns (cuts: seq<nat>)
    requires at <= length && have <= 50_000 && Scan(gz, length, at, have).Some?
    ensures var rs := Scan(gz, length, at, have).value;
            have + |rs| <= 50_000 && MembersAt(gz, cuts) && cuts[0] == at && cuts[|cuts| - 1] == length &&
            RecordsOf(gz, cuts, rs)
    decreases length - at
  {
    cuts := [at];
    if at < length {
      ScanNext(gz, length, at, have);
      var (span, items) := gz(at).value;
      var rest := ScanCuts(gz, length, at + span, have + |items|);
      CutBefore(gz, at, rest, Scan(gz, length, at + span, have + |items|).value);
      cuts := [at] + rest;
    }
  }

  lemma {:induction false} LastCut(gz: Gunzip, cuts: seq<nat>)
    requires MembersAt(gz, cuts)
    ensures cuts[0] <= cuts[|cuts| - 1] && (|cuts| > 1 ==> MembersAt(gz, cuts[1..]) && cuts[0] < cuts[|cuts| - 1])
  {
    if |cuts| > 1 {
      assert forall k :: 0 <= k < |cuts| - 1 ==> cuts[1..][k] == cuts[k + 1];
      LastCut(gz, cuts[1..]);
    }
  }

  lemma {:induction false} FirstMember(gz: Gunzip, cuts: seq<nat>, rs: seq<Record>)
    requires MembersAt(gz, cuts) && |cuts| > 1 && RecordsOf(gz, cuts, rs)
    ensures var (span, items) := gz(cuts[0]).value;
            |items| <= |rs| && rs == Shared(items, cuts[0], span, |items|) + rs[|items|..]
  {
    var (span, items) := gz(cuts[0]).value;
    SharedMeans(items, cuts[0], span);
    SharedOutUnique(items, cuts[0], span, rs[..|items|], Shared(items, cuts[0], span, |items|));
    assert rs == rs[..|items|] + rs[|items|..];
  }

  lemma {:induction false} CutsScan(gz: Gunzip, length: nat, cuts: seq<nat>, have: nat, rs: seq<Record>)
    requires MembersAt(gz, cuts) && cuts[|cuts| - 1] == length && RecordsOf(gz, cuts, rs) && have + |rs| <= 50_000
    ensures cuts[0] <= length && Scan(gz, length, cuts[0], have) == Some(rs)
    decreases |cuts|
  {
    LastCut(gz, cuts);
    if |cuts| > 1 {
      LastCut(gz, cuts[1..]);
      var (span, items) := gz(cuts[0]).value;
      CutsScan(gz, length, cuts[1..], have + |items|, rs[|items|..]);
      FirstMember(gz, cuts, rs);
    }
  }

  /** The loop of the scanner: records are pushed unmeasured, and measured once their gzip
      member has been read to its end. */
  method ScanWarc(gz: Gunzip, length: nat, have: nat) returns (r: Option<seq<Record>>)
    ensures r == Scan(gz, length, 0, have)
  {
    var records: seq<Record> := [];
    var offset: nat := 0;
    BeforeNothing(Scan(gz, length, 0, have));
    while offset < length
      invariant offset <= length
      invariant Scan(gz, length, 0, have) == Before(records, Scan(gz, length, offset, have + |records|))
    {
      var first := |records|;
      ScanTurn(gz, length, offset, have, records);
      var m := gz(offset);
      if m.None? {
        return None;
      }
      var (span, items) := m.value;
      if |items| > MAX_PER_MEMBER || have + first + |items| > MAX_ITEMS {
        return None;
      }
      if span == 0 || offset + span > length || |items| == 0 {
        return None;
      }
      records := PushAndMeasure(records, items, offset, span);
      offset := offset + span;
    }
    assert records + [] == records;
    return Some(records);
  }

  /** One turn: the scan goes on behind the records of one more gzip member, or is refused. */
  lemma {:induction false} ScanTurn(gz: Gunzip, length: nat, at: nat, have: nat, records: seq<Record>)
    requires at < length
    ensures var m, n := gz(at), have + |records|;
            Before(records, Scan(gz, length, at, n)) ==
            if m.None? || |m.value.1| > MAX_PER_MEMBER || n + |m.value.1| > MAX_ITEMS || m.value.0 == 0 ||
               at + m.value.0 > length || |m.value.1| == 0 then None
            else
              var after := records + Shared(m.value.1, at, m.value.0, |m.value.1|);
              Before(after, Scan(gz, length, at + m.value.0, n + |m.value.1|))
  {
    var m, n := gz(at), have + |records|;
    if m.Some? && m.value.0 > 0 && at + m.value.0 <= length {
      BeforeTwice(records, Shared(m.value.1, at, m.value.0, |m.value.1|),
                  Scan(gz, length, at + m.value.0, n + |m.value.1|));
    }
  }

  lemma {:induction false} BeforeNothing(rest: Option<seq<Record>>)
    ensures Before([], rest) == rest
  {
    assert rest.Some? ==> [] + rest.value == rest.value;
  }

  function Before(rs: seq<Record>, rest: Option<seq<Record>>): Option<seq<Record>> {
    if rest.None? then None else Some(rs + rest.value)
  }

  lemma {:induction false} BeforeTwice(a: seq<Record>, b: seq<Record>, rest: Option<seq<Record>>)
    ensures Before(a, Before(b, rest)) == Before(a + b, rest)
  {
    assert rest.Some? ==> a + (b + rest.value) == a + b + rest.value;
  }

  method PushAndMeasure(before: seq<Record>, items: seq<Item>, offset: nat, span: nat) returns (records: seq<Record>)
    requires |items| > 0
    ensures records == before + Shared(items, offset, span, |items|)
  {
    records := before;
    var first := |before|;
    for i := 0 to |items|
      invariant |records| == first + i && records[..first] == before
      invariant forall k :: 0 <= k < i ==> records[first + k] == Record(items[k], offset, 0, 0)
    {
      records := records + [Record(items[i], offset, 0, 0)];
    }
    var count := |records| - first;
    ghost var whole, larger := span / count, span % count;
    for i := 0 to count
      invariant |records| == first + |items| && records[..first] == before
      invariant count == |items| && whole == span / count && larger == span % count
      invariant forall k :: i <= k < |items| ==> records[first + k] == Record(items[k], offset, 0, 0)
      invariant records[first..first + i] == Shared(items, offset, span, i)
    {
      var record := records[first + i];
      record := record.(length := span);
      record := record.(stored := span / count + if i < span % count then 1 else 0);
      assert record.stored == whole + (if i < larger then 1 else 0) == Share(span, |items|, i);
      records := records[first + i := record];
      assert records[first..first + i + 1] == records[first..first + i] + [record];
    }
    assert records == records[..first] + records[first..];
  }

  // ---- the report ----

  predicate IsPayload(r: Record) {
    !r.item.kind.Other?
  }

  /** What decides whether a payload is a duplicate. */
  function Identity(r: Record): string {
    if r.item.kind.Revisit? && !r.item.resolved then r.item.payloadField else r.item.digest
  }

  function Seen(rs: seq<Record>): set<string> {
    set r | r in rs && IsPayload(r) :: Identity(r)
  }

  /** The stored bytes of payloads that come first of their identity. */
  function UniqueSum(rs: seq<Record>): nat {
    if rs == [] then 0
    else
      var init, last := rs[..|rs| - 1], rs[|rs| - 1];
      UniqueSum(init) + if IsPayload(last) && Identity(last) !in Seen(init) then last.stored else 0
  }

  /** And of those that come later. */
  function DuplicateSum(rs: seq<Record>): nat {
    if rs == [] then 0
    else
      var init, last := rs[..|rs| - 1], rs[|rs| - 1];
      DuplicateSum(init) + if IsPayload(last) && Identity(last) in Seen(init) then last.stored else 0
  }

  /** What a record's payload is known by: its own digest, or, for a revisit whose capture was not found, the
      digest its header states. */
  predicate KnownBy(r: Record, digest: string) {
    match r.item.kind
    case Revisit => if r.item.resolved then r.item.digest == digest else r.item.payloadField == digest
    case _ => r.item.digest == digest
  }

  /** No earlier payload is known by the same digest. */
  ghost predicate ComesFirst(rs: seq<Record>, k: nat)
    requires k < |rs|
  {
    forall j, digest :: 0 <= j < k && IsPayload(rs[j]) && KnownBy(rs[j], digest) ==> !KnownBy(rs[k], digest)
  }

  /** The stored bytes of the payloads among the first `n` records that come first, or that do not. */
  ghost function Counted(rs: seq<Record>, n: nat, first: bool): nat
    requires n <= |rs|
  {
    if n == 0 then 0
    else
      Counted(rs, n - 1, first) +
      if IsPayload(rs[n - 1]) && ComesFirst(rs, n - 1) == first then rs[n - 1].stored else 0
  }

  lemma {:induction false} SeenMeans(rs: seq<Record>, k: nat)
    requires k < |rs|
    ensures Identity(rs[k]) !in Seen(rs[..k]) <==> ComesFirst(rs, k)
  {
    assert forall r: Record, digest :: KnownBy(r, digest) <==> Identity(r) == digest;
    if Identity(rs[k]) in Seen(rs[..k]) {
      var r :| r in rs[..k] && IsPayload(r) && Identity(r) == Identity(rs[k]);
      var j :| 0 <= j < k && rs[j] == r;
      assert KnownBy(rs[j], Identity(r)) && KnownBy(rs[k], Identity(r));
    }
    forall j, digest | 0 <= j < k && IsPayload(rs[j]) && KnownBy(rs[j], digest) && KnownBy(rs[k], digest)
      ensures Identity(rs[k]) in Seen(rs[..k])
    {
      assert rs[j] in rs[..k];
    }
  }

  lemma {:induction false} CountedSlice(rs: seq<Record>, n: nat, m: nat, first: bool)
    requires n <= m <= |rs|
    ensures Counted(rs[..m], n, first) == Counted(rs, n, first)
  {
    if n > 0 {
      CountedSlice(rs, n - 1, m, first);
      assert ComesFirst(rs[..m], n - 1) <==> ComesFirst(rs, n - 1);
    }
  }

  /** Unique bytes are those of payloads that come first of their digest, duplicate bytes those of all others. */
  lemma {:induction false} SumsMean(rs: seq<Record>)
    ensures UniqueSum(rs) == Counted(rs, |rs|, true) && DuplicateSum(rs) == Counted(rs, |rs|, false)
  {
    if rs != [] {
      var n := |rs| - 1;
      SumsMean(rs[..n]);
      CountedSlice(rs, n, n, true);
      CountedSlice(rs, n, n, false);
      SeenMeans(rs, n);
    }
  }

  datatype Report = Report(unique: nat, duplicate: nat, metadata: nat)

  datatype Error = AccountingOverflow

  method Account(records: seq<Record>, archiveBytes: nat) returns (r: Result<Report, Error>)
    ensures r.Ok? <==> UniqueSum(records) + DuplicateSum(records) <= archiveBytes
    ensures r.Ok? ==>
      r.value.unique == UniqueSum(records) && r.value.duplicate == DuplicateSum(records) &&
      r.value.unique + r.value.duplicate + r.value.metadata == archiveBytes
    ensures r.Ok? ==>
      r.value.unique == Counted(records, |records|, true) && r.value.duplicate == Counted(records, |records|, false)
  {
    SumsMean(records);
    var unique: nat, duplicate: nat := 0, 0;
    var seen: set<string> := {};
    for k := 0 to |records|
      invariant unique == UniqueSum(records[..k]) && duplicate == DuplicateSum(records[..k])
      invariant seen == Seen(records[..k])
    {
      var record := records[k];
      assert records[..k + 1] == records[..k] + [record];
      assert records[..k + 1][..k] == records[..k];
      if !IsPayload(record) {
        assert Seen(records[..k + 1]) == seen;
        continue;
      }
      var digest := Identity(record);
      if digest !in seen {
        unique := unique + record.stored;
      } else {
        duplicate := duplicate + record.stored;
      }
      seen := seen + {digest};
      assert Seen(records[..k + 1]) == seen;
    }
    assert records[..|records|] == records;
    if unique + duplicate > archiveBytes {
      return Err(AccountingOverflow);
    }
    return Ok(Report(unique, duplicate, archiveBytes - (unique + duplicate)));
  }

  lemma {:induction false} PayloadsWithin(rs: seq<Record>)
    ensures UniqueSum(rs) + DuplicateSum(rs) <= StoredSum(rs)
    ensures (forall k :: 0 <= k < |rs| ==> IsPayload(rs[k])) ==> UniqueSum(rs) + DuplicateSum(rs) == StoredSum(rs)
  {
    if rs != [] {
      PayloadsWithin(rs[..|rs| - 1]);
    }
  }

  // ---- the whole archive ----

  /** A WARC among the members of an archive: which one, and how it decompresses. */
  datatype Warc = Warc(member: nat, gz: Gunzip)

  ghost predicate InOrder(warcs: seq<Warc>, ms: seq<Member>) {
    (forall j :: 0 <= j < |warcs| ==> warcs[j].member < |ms|) &&
    forall i, j :: 0 <= i < j < |warcs| ==> warcs[i].member < warcs[j].member
  }

  /** All records, in the order of the archive's members. */
  function ScanAll(warcs: seq<Warc>, ms: seq<Member>): Option<seq<Record>>
    requires forall j :: 0 <= j < |warcs| ==> warcs[j].member < |ms|
  {
    if warcs == [] then Some([])
    else
      var before := ScanAll(warcs[..|warcs| - 1], ms);
      if before.None? then None
      else
        var last := warcs[|warcs| - 1];
        var rs := Scan(last.gz, ms[last.member].packed, 0, |before.value|);
        if rs.None? then None else Some(before.value + rs.value)
  }

  lemma {:induction false} WarcsFit(warcs: seq<Warc>, ms: seq<Member>, n: nat)
    requires InOrder(warcs, ms) && n <= |ms| && ScanAll(warcs, ms).Some?
    requires forall k :: 0 <= k < |ms| ==> ms[k].local + 30 + ms[k].packed < ms[k].end
    requires warcs == [] || warcs[|warcs| - 1].member < n
    ensures StoredSum(ScanAll(warcs, ms).value) <= SpanSum(ms[..n])
    decreases n
  {
    if warcs != [] {
      var last := warcs[|warcs| - 1];
      assert ms[..n][..n - 1] == ms[..n - 1];
      if last.member == n - 1 {
        var init := warcs[..|warcs| - 1];
        WarcsFit(init, ms, n - 1);
        var before := ScanAll(init, ms).value;
        ScanAddsUp(last.gz, ms[last.member].packed, 0, |before|);
        SumConcat(before, Scan(last.gz, ms[last.member].packed, 0, |before|).value);
      } else {
        WarcsFit(warcs, ms, n - 1);
      }
    }
  }

  /** Storage conservation: in an archive the preflight accepts, whatever its WARCs decompress
      to, the bytes counted as payload never exceed the archive, so the report always comes
      out and its three parts make up the archive exactly. */
  lemma {:induction false} StorageConserved(u: Utf8, file: seq<byte>, warcs: seq<Warc>)
    requires SoundDirectory(u, file)
    requires InOrder(warcs, AllMembers(u, file, ReadEnd(file).value).value)
    requires ScanAll(warcs, AllMembers(u, file, ReadEnd(file).value).value).Some?
    ensures var d := ReadEnd(file).value;
            var rs := ScanAll(warcs, AllMembers(u, file, d).value).value;
            UniqueSum(rs) + DuplicateSum(rs) <= StoredSum(rs) <= d.start <= |file|
  {
    SoundLayout(u, file);
    var d := ReadEnd(file).value;
    var ms := AllMembers(u, file, d).value;
    assert forall k :: 0 <= k < |ms| ==> Placed(d, ms[k], ms[k].at);
    WarcsFit(warcs, ms, |ms|);
    assert ms[..|ms|] == ms;
    PayloadsWithin(ScanAll(warcs, ms).value);
  }
}
