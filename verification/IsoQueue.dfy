/** The shared ISO queue of the automatic importer: a durable map of sources and leases,
    the inbox and the three archive directories. Every locked transaction is a function
    from store to store; the class below is the program's own statements. */
module IsoQueue {
  import opened Wrappers
  import opened Decimals

  type Name = string
  type Signature = map<string, int>
  type Content = string

  datatype File = File(iso: nat, content: Content, signature: Signature)
  type Dir = map<Name, File>

  datatype Status = Observed | Claimed | Planned | Processing | Interrupted | Retrying | CheckFailed | SourceChanged

  datatype Lease = Lease(workerId: string, leaseId: string, claimedAt: int, expiresAt: int)

  datatype Entry = Entry(
    signature: Option<Signature>,
    unchangedSince: Option<int>,
    attempts: nat,
    retryAfter: Option<int>,
    lease: Option<Lease>,
    status: Status,
    plan: Option<string>,
    sha256: Option<string>)

  datatype Shelf = Processed | Failed | Duplicate

  datatype Store = Store(
    sources: map<Name, Entry>, hashes: map<Name, string>,
    inbox: Dir, processed: Dir, failed: Dir, duplicate: Dir)
  {
    function OnShelf(shelf: Shelf): Dir {
      match shelf
      case Processed => processed
      case Failed => failed
      case Duplicate => duplicate
    }
  }

  datatype Config = Config(
    maxAttempts: int, settleSeconds: int, retrySeconds: int, leaseSeconds: int,
    sha: Content -> string)

  /** What a worker holds after a claim: the pathname and its lease. */
  datatype Ticket = Ticket(source: Name, workerId: string, leaseId: string)

  // ---- signatures and leases ----

  /** A stored signature may lack fields a newer version records; those it has must agree. */
  predicate SignaturesMatch(expected: Option<Signature>, actual: Signature) {
    expected.Some? && "size" in expected.value && "mtime_ns" in expected.value &&
    forall k :: k in expected.value ==> k in actual && actual[k] == expected.value[k]
  }

  predicate LeaseOwned(entry: Entry, workerId: string, leaseId: string) {
    entry.lease.Some? && entry.lease.value.workerId == workerId && entry.lease.value.leaseId == leaseId
  }

  predicate Owned(s: Store, t: Ticket) {
    t.source in s.sources && LeaseOwned(s.sources[t.source], t.workerId, t.leaseId)
  }

  /** The source still is the file with exactly this signature. */
  predicate Unchanged(s: Store, source: Name, signature: Option<Signature>) {
    source in s.inbox && signature == Some(s.inbox[source].signature)
  }

  // ---- destinations ----

  /** Where the suffix starts: the last dot, if it is neither first nor last. */
  function SuffixAt(name: string): (p: nat)
    ensures p <= |name|
  {
    var p := LastDot(name, |name|);
    if 0 < p && p + 1 < |name| then p else |name|
  }

  function LastDot(name: string, n: nat): (p: nat)
    requires n <= |name|
    ensures p < n || p == 0
  {
    if n == 0 then 0 else if name[n - 1] == '.' then n - 1 else LastDot(name, n - 1)
  }

  function Candidate(name: Name, counter: nat): Name {
    if counter < 2 then name
    else
      var p := SuffixAt(name);
      name[..p] + "-" + Decimal(counter) + name[p..]
  }

  lemma {:induction false} CandidatesDiffer(name: Name, j: nat, k: nat)
    requires 1 <= j < k
    ensures Candidate(name, j) != Candidate(name, k)
  {
    var p := SuffixAt(name);
    var a, b := Candidate(name, j), Candidate(name, k);
    if a == b {
      assert |b| == |name| + 1 + |Decimal(k)|;
      assert j >= 2;
      assert a[p + 1..|a| - (|name| - p)] == Decimal(j);
      assert b[p + 1..|b| - (|name| - p)] == Decimal(k);
      DecimalInjective(j, k);
    }
  }

  /** The candidates below `counter`, all of them taken. */
  ghost predicate Tried(taken: set<Name>, name: Name, counter: nat, tried: set<Name>) {
    counter >= 1 && tried <= taken &&
    forall n :: n in tried <==> exists j :: 1 <= j < counter && Candidate(name, j) == n
  }

  lemma {:induction false} OneLess(s: set<Name>, n: Name)
    requires n in s
    ensures |s - {n}| < |s|
  {
    assert s == (s - {n}) + {n};
  }

  lemma {:induction false} TryNext(taken: set<Name>, name: Name, counter: nat, tried: set<Name>)
    requires Tried(taken, name, counter, tried) && Candidate(name, counter) in taken
    ensures Tried(taken, name, counter + 1, tried + {Candidate(name, counter)})
    ensures |taken - (tried + {Candidate(name, counter)})| < |taken - tried|
  {
    var c := Candidate(name, counter);
    if c in tried {
      var j :| 1 <= j < counter && Candidate(name, j) == c;
      CandidatesDiffer(name, j, counter);
    }
    assert taken - (tried + {c}) == (taken - tried) - {c};
    OneLess(taken - tried, c);
  }

  /** The first free candidate from `counter` on. */
  function FirstFree(taken: set<Name>, name: Name, counter: nat, tried: set<Name>): (d: Name)
    requires Tried(taken, name, counter, tried)
    ensures d !in taken
    decreases |taken - tried|
  {
    var c := Candidate(name, counter);
    if c !in taken then c
    else TryNext(taken, name, counter, tried); FirstFree(taken, name, counter + 1, tried + {c})
  }

  function Destination(taken: set<Name>, name: Name): (d: Name)
    ensures d !in taken
  {
    FirstFree(taken, name, 1, {})
  }

  /** The name itself, or the first number from two on with which it is free. */
  ghost predicate FirstNumber(taken: set<Name>, name: Name, k: nat, d: Name) {
    k >= 1 && d == Candidate(name, k) && d !in taken && forall j :: 1 <= j < k ==> Candidate(name, j) in taken
  }

  lemma {:induction false} FirstFreeNumber(taken: set<Name>, name: Name, counter: nat, tried: set<Name>) returns (k: nat)
    requires Tried(taken, name, counter, tried)
    ensures FirstNumber(taken, name, k, FirstFree(taken, name, counter, tried))
    decreases |taken - tried|
  {
    var c := Candidate(name, counter);
    if c !in taken {
      k := counter;
    } else {
      TryNext(taken, name, counter, tried);
      k := FirstFreeNumber(taken, name, counter + 1, tried + {c});
    }
  }

  /** A number goes between the stem and the suffix of a name. */
  lemma {:induction false} NumberedName(stem: string, suffix: string, k: nat)
    requires stem != "" && |suffix| > 1 && suffix[0] == '.' && '.' !in suffix[1..] && k >= 2
    ensures Candidate(stem + suffix, 1) == stem + suffix
    ensures Candidate(stem + suffix, k) == stem + "-" + Decimal(k) + suffix
  {
    var name := stem + suffix;
    forall i | |stem| < i < |name|
      ensures name[i] != '.'
    {
      assert name[i] == suffix[1..][i - |stem| - 1];
    }
    LastDotIs(name, |stem|, |name|);
    assert SuffixAt(name) == |stem|;
    assert name[..|stem|] == stem && name[|stem|..] == suffix;
  }

  /** A name without a suffix is numbered at its end. */
  lemma {:induction false} NumberedBare(name: string, k: nat)
    requires '.' !in name && k >= 2
    ensures Candidate(name, k) == name + "-" + Decimal(k)
  {
    NoDot(name, |name|);
    assert name[..|name|] == name && name[|name|..] == "";
  }

  lemma {:induction false} LastDotIs(name: string, p: nat, n: nat)
    requires p < n <= |name| && name[p] == '.' && forall i :: p < i < n ==> name[i] != '.'
    ensures LastDot(name, n) == p
  {
    if p < n - 1 {
      LastDotIs(name, p, n - 1);
    }
  }

  lemma {:induction false} NoDot(name: string, n: nat)
    requires n <= |name| && '.' !in name
    ensures LastDot(name, n) == 0
  {
    if n > 0 {
      NoDot(name, n - 1);
    }
  }

  method UniqueDestination(taken: set<Name>, name: Name) returns (candidate: Name)
    ensures candidate == Destination(taken, name) && candidate !in taken
  {
    candidate := name;
    var counter: nat := 2;
    ghost var tried: set<Name> := {};
    while candidate in taken
      invariant counter >= 2 && Tried(taken, name, counter - 1, tried)
      invariant candidate == Candidate(name, counter - 1)
      invariant FirstFree(taken, name, counter - 1, tried) == Destination(taken, name)
      decreases |taken - tried|
    {
      TryNext(taken, name, counter - 1, tried);
      tried := tried + {candidate};
      candidate := Candidate(name, counter);
      counter := counter + 1;
    }
  }

  // ---- moving a file ----

  /** The source goes to a free name on the shelf. `aside` are other files found there. */
  function Moved(s: Store, source: Name, shelf: Shelf, aside: set<Name>): (m: (Store, Name))
    requires source in s.inbox
    ensures m.1 !in s.OnShelf(shelf)
  {
    var dest := Destination(s.OnShelf(shelf).Keys + aside, source);
    var file := s.inbox[source];
    var s := s.(inbox := s.inbox - {source});
    (match shelf
     case Processed => s.(processed := s.processed[dest := file])
     case Failed => s.(failed := s.failed[dest := file])
     case Duplicate => s.(duplicate := s.duplicate[dest := file]), dest)
  }

  // ---- transactions ----

  /** An interrupted transaction that moves a file may leave the queue unwritten. */
  function MovedAndForgotten(s: Store, source: Name, shelf: Shelf, aside: set<Name>, crash: bool): Store
    requires source in s.inbox
  {
    var (m, _) := Moved(s, source, shelf, aside);
    if crash then m else m.(sources := m.sources - {source})
  }

  function Renewed(cfg: Config, s: Store, t: Ticket, plan: Option<string>, now: int): (Store, bool) {
    if !Owned(s, t) then (s, false)
    else
      var e := s.sources[t.source];
      var lease := e.lease.value.(expiresAt := now + cfg.leaseSeconds);
      (s.(sources := s.sources[t.source := e.(
         plan := if plan.Some? then plan else e.plan, status := Processing, lease := Some(lease))]), true)
  }

  /** After a change was noticed: observe the file anew, or forget it when it is gone. */
  function Reset(s: Store, t: Ticket, now: int): Store {
    if !Owned(s, t) then s
    else if t.source !in s.inbox then s.(sources := s.sources - {t.source})
    else s.(sources := s.sources[t.source :=
      Entry(Some(s.inbox[t.source].signature), Some(now), 0, None, None, SourceChanged, None, None)])
  }

  /** A failure is charged; at the limit the source is moved to the failed shelf. */
  function Charged(cfg: Config, s: Store, t: Ticket, status: Status, plan: Option<string>, now: int,
                   aside: set<Name>, crash: bool): Store
  {
    if !Owned(s, t) then s
    else
      var e := s.sources[t.source];
      var n := e.attempts + 1;
      if n >= cfg.maxAttempts && t.source in s.inbox then
        MovedAndForgotten(s, t.source, Failed, aside, crash)
      else if crash then s
      else s.(sources := s.sources[t.source := e.(
        plan := if plan.Some? then plan else e.plan, attempts := n, status := status,
        retryAfter := Some(now + cfg.retrySeconds * n), lease := None)])
  }

  function InterruptedBy(s: Store, t: Ticket, plan: Option<string>): Store {
    if !Owned(s, t) then s
    else
      var e := s.sources[t.source];
      s.(sources := s.sources[t.source := e.(
        plan := if plan.Some? then plan else e.plan, status := Interrupted, retryAfter := None, lease := None)])
  }

  /** The result of comparing a source with the processed archive. */
  datatype Finding = Finding(
    duplicate: Option<Name>, sourceHash: Option<string>, calculated: map<Name, string>, live: set<Name>)

  function MergedHashes(hashes: map<Name, string>, f: Finding): map<Name, string> {
    (map n | n in hashes && n in f.live :: hashes[n]) + f.calculated
  }

  /** Records a duplicate check: the file is set aside as a duplicate, or cleared for
      conversion. Nothing happens when the lease is gone or the file has changed. */
  function Checked(s: Store, t: Ticket, signature: Option<Signature>, f: Finding,
                   aside: set<Name>, crash: bool): Store
  {
    if !Owned(s, t) || !Unchanged(s, t.source, signature) then s
    else
      var e := s.sources[t.source];
      var e := if f.sourceHash.Some? then e.(sha256 := f.sourceHash) else e;
      if f.duplicate.Some? then
        var m := MovedAndForgotten(s, t.source, Duplicate, aside, crash);
        if crash then m else m.(hashes := MergedHashes(s.hashes, f))
      else if crash then s
      else s.(hashes := MergedHashes(s.hashes, f), sources := s.sources[t.source := e.(status := Processing)])
  }

  /** Completion: the source goes to the processed shelf under a recorded digest. */
  function Completed(s: Store, t: Ticket, signature: Option<Signature>, digest: string,
                     aside: set<Name>, crash: bool): Store
  {
    if !Owned(s, t) || !Unchanged(s, t.source, signature) then s
    else
      var m := MovedAndForgotten(s, t.source, Processed, aside, crash);
      if crash then m else m.(hashes := m.hashes[Moved(s, t.source, Processed, aside).1 := digest])
  }

  // ---- claiming ----

  /** What one look at the inbox saw: the signature of every file that could be read, the
      signature read again after the source lock was taken, and the locks others hold. */
  datatype View = View(stat: map<Name, Signature>, restat: map<Name, Signature>, busy: set<Name>)

  /** The entry after looking at a file, and whether the file may be claimed now. */
  function Inspect(cfg: Config, e: Entry, signature: Signature, now: int): (Entry, bool) {
    if !SignaturesMatch(e.signature, signature) then
      (Entry(Some(signature), Some(now), 0, None, None, Observed, None, None), false)
    else
      var e := e.(signature := Some(signature));
      (e, (if e.unchangedSince.Some? then now - e.unchangedSince.value else 0) >= cfg.settleSeconds &&
          now >= (if e.retryAfter.Some? then e.retryAfter.value else 0))
  }

  const BLANK := Entry(None, None, 0, None, None, Observed, None, None)

  function Known(sources: map<Name, Entry>, source: Name): Entry {
    if source in sources then sources[source] else BLANK
  }

  /** Claiming the first file in `listing` that is settled, due, unlocked and unchanged. */
  function ClaimFrom(cfg: Config, sources: map<Name, Entry>, listing: seq<Name>, view: View,
                     workerId: string, leaseId: string, now: int): (r: (map<Name, Entry>, Option<Name>))
    ensures r.1.Some? ==> r.1.value in r.0
    decreases |listing|
  {
    if listing == [] then (sources, None)
    else
      var source, rest := listing[0], listing[1..];
      if source !in view.stat then ClaimFrom(cfg, sources, rest, view, workerId, leaseId, now)
      else
        var signature := view.stat[source];
        var (e, ready) := Inspect(cfg, Known(sources, source), signature, now);
        var sources := sources[source := e];
        if !ready || source in view.busy || source !in view.restat || view.restat[source] != signature then
          ClaimFrom(cfg, sources, rest, view, workerId, leaseId, now)
        else
          var lease := Lease(workerId, leaseId, now, now + cfg.leaseSeconds);
          (sources[source := e.(lease := Some(lease), status := Claimed)], Some(source))
  }

  function ClaimNext(cfg: Config, s: Store, listing: seq<Name>, view: View,
                     workerId: string, leaseId: string, now: int): (r: (Store, Option<Name>))
    ensures r.1.Some? ==> r.1.value in r.0.sources
  {
    var live := map n | n in s.sources && n in listing :: s.sources[n];
    var (sources, source) := ClaimFrom(cfg, live, listing, view, workerId, leaseId, now);
    (s.(sources := sources), source)
  }

  // ---- what a claim means ----

  function EntryAt(sources: map<Name, Entry>, n: Name): Option<Entry> {
    if n in sources then Some(sources[n]) else None
  }

  /** What the queue knows of the file is true of it, and includes size and time of change. */
  predicate Recognized(known: Option<Entry>, signature: Signature) {
    known.Some? && known.value.signature.Some? &&
    "size" in known.value.signature.value && "mtime_ns" in known.value.signature.value &&
    forall k :: k in known.value.signature.value ==> k in signature && signature[k] == known.value.signature.value[k]
  }

  /** The file can be read and is the one the queue knows; it has been so for long enough, no
      retry is being waited for, nobody holds its lock, and it is still the same under the lock. */
  predicate Claimable(cfg: Config, sources: map<Name, Entry>, view: View, n: Name, now: int) {
    n in view.stat && Recognized(EntryAt(sources, n), view.stat[n]) &&
    (match sources[n].unchangedSince
     case None => cfg.settleSeconds <= 0
     case Some(since) => since + cfg.settleSeconds <= now) &&
    (match sources[n].retryAfter
     case None => 0 <= now
     case Some(time) => time <= now) &&
    n !in view.busy && n in view.restat && view.restat[n] == view.stat[n]
  }

  /** What one look leaves of an entry: a file that is recognized has its signature brought up to
      date; any other is observed from now on. */
  predicate Looked(was: Option<Entry>, known: Option<Entry>, view: View, n: Name, now: int) {
    if n !in view.stat then known == was
    else if Recognized(was, view.stat[n]) then known == Some(was.value.(signature := Some(view.stat[n])))
    else
      known.Some? && known.value.signature == Some(view.stat[n]) && known.value.unchangedSince == Some(now) &&
      known.value.attempts == 0 && known.value.retryAfter.None? && known.value.lease.None? &&
      known.value.plan.None? && known.value.sha256.None? && known.value.status == Observed
  }

  /** The entry of a claimed file is as it was, with a lease for the worker from now on. */
  predicate LeasedTo(cfg: Config, was: Entry, known: Option<Entry>, signature: Signature,
                     workerId: string, leaseId: string, now: int)
  {
    known.Some? && known.value.lease == Some(Lease(workerId, leaseId, now, now + cfg.leaseSeconds)) &&
    known.value.status == Claimed && known.value.signature == Some(signature) &&
    known.value.unchangedSince == was.unchangedSince && known.value.attempts == was.attempts &&
    known.value.retryAfter == was.retryAfter && known.value.plan == was.plan && known.value.sha256 == was.sha256
  }

  /** The files before position `k` were looked at and cannot be claimed; the one there is claimed,
      if the listing goes that far. Nobody looks at the rest. */
  ghost predicate ClaimsAt(cfg: Config, before: map<Name, Entry>, after: map<Name, Entry>, listing: seq<Name>,
                           view: View, workerId: string, leaseId: string, now: int, k: nat)
  {
    k <= |listing| &&
    (forall j :: 0 <= j < k ==>
       !Claimable(cfg, before, view, listing[j], now) &&
       Looked(EntryAt(before, listing[j]), EntryAt(after, listing[j]), view, listing[j], now)) &&
    (k < |listing| ==>
       Claimable(cfg, before, view, listing[k], now) &&
       LeasedTo(cfg, before[listing[k]], EntryAt(after, listing[k]), view.stat[listing[k]], workerId, leaseId, now)) &&
    forall n :: n !in listing[..k] && (k < |listing| ==> n != listing[k]) ==> EntryAt(after, n) == EntryAt(before, n)
  }

  /** Of the files in the inbox the first that can be claimed is claimed, and none if there is none;
      files that are gone are forgotten. */
  ghost predicate ClaimedAsSaid(cfg: Config, before: map<Name, Entry>, after: map<Name, Entry>, listing: seq<Name>,
                                view: View, workerId: string, leaseId: string, now: int, claimed: Option<Name>)
  {
    exists k: nat ::
      ClaimsAt(cfg, map n | n in before && n in listing :: before[n], after, listing, view, workerId, leaseId, now, k) &&
      claimed == if k < |listing| then Some(listing[k]) else None
  }

  predicate NoneTwice(listing: seq<Name>) {
    forall i, j :: 0 <= i < j < |listing| ==> listing[i] != listing[j]
  }

  lemma {:induction false} InspectMeans(cfg: Config, sources: map<Name, Entry>, view: View, n: Name, now: int)
    requires n in view.stat
    ensures var (e, ready) := Inspect(cfg, Known(sources, n), view.stat[n], now);
            (ready && n !in view.busy && n in view.restat && view.restat[n] == view.stat[n] <==>
             Claimable(cfg, sources, view, n, now)) &&
            Looked(EntryAt(sources, n), Some(e), view, n, now)
  {
  }

  /** The turn for the first file of a listing, when it is not claimed. */
  lemma {:induction false} ClaimsLater(cfg: Config, before: map<Name, Entry>, looked: map<Name, Entry>,
                                       after: map<Name, Entry>, listing: seq<Name>, view: View,
                                       workerId: string, leaseId: string, now: int, k: nat)
    requires listing != [] && NoneTwice(listing) && !Claimable(cfg, before, view, listing[0], now)
    requires Looked(EntryAt(before, listing[0]), EntryAt(looked, listing[0]), view, listing[0], now)
    requires forall n :: n != listing[0] ==> EntryAt(looked, n) == EntryAt(before, n)
    requires ClaimsAt(cfg, looked, after, listing[1..], view, workerId, leaseId, now, k)
    ensures ClaimsAt(cfg, before, after, listing, view, workerId, leaseId, now, k + 1)
  {
    var rest := listing[1..];
    assert forall j :: 0 <= j < |rest| ==> rest[j] == listing[j + 1] && rest[j] != listing[0];
    assert listing[..k + 1] == [listing[0]] + rest[..k];
    assert forall j :: 0 <= j < k ==> rest[..k][j] == rest[j];
    assert listing[0] !in rest[..k] && (k < |rest| ==> listing[0] != rest[k]);
    forall j | 0 <= j < k + 1
      ensures !Claimable(cfg, before, view, listing[j], now)
      ensures Looked(EntryAt(before, listing[j]), EntryAt(after, listing[j]), view, listing[j], now)
    {
      if j > 0 {
        SameClaimable(cfg, before, looked, view, rest[j - 1], now);
      }
    }
    if k < |rest| {
      SameClaimable(cfg, before, looked, view, rest[k], now);
    }
  }

  lemma {:induction false} SameClaimable(cfg: Config, a: map<Name, Entry>, b: map<Name, Entry>, view: View, n: Name, now: int)
    requires EntryAt(a, n) == EntryAt(b, n)
    ensures Claimable(cfg, a, view, n, now) == Claimable(cfg, b, view, n, now)
  {
  }

  lemma {:induction false} ClaimFromMeans(cfg: Config, sources: map<Name, Entry>, listing: seq<Name>, view: View,
                                          workerId: string, leaseId: string, now: int) returns (k: nat)
    requires NoneTwice(listing)
    ensures var (after, claimed) := ClaimFrom(cfg, sources, listing, view, workerId, leaseId, now);
            ClaimsAt(cfg, sources, after, listing, view, workerId, leaseId, now, k) &&
            claimed == if k < |listing| then Some(listing[k]) else None
    decreases |listing|
  {
    k := 0;
    if listing != [] {
      var source, rest := listing[0], listing[1..];
      var looked := sources;
      if source in view.stat {
        InspectMeans(cfg, sources, view, source, now);
        looked := sources[source := Inspect(cfg, Known(sources, source), view.stat[source], now).0];
      }
      if !Claimable(cfg, sources, view, source, now) {
        k := ClaimFromMeans(cfg, looked, rest, view, workerId, leaseId, now);
        ClaimsLater(cfg, sources, looked, ClaimFrom(cfg, looked, rest, view, workerId, leaseId, now).0,
                    listing, view, workerId, leaseId, now, k);
        k := k + 1;
      }
    }
  }

  lemma {:induction false} ClaimNextMeans(cfg: Config, s: Store, listing: seq<Name>, view: View,
                                          workerId: string, leaseId: string, now: int)
    ensures var (after, claimed) := ClaimNext(cfg, s, listing, view, workerId, leaseId, now);
            NoneTwice(listing) ==>
              ClaimedAsSaid(cfg, s.sources, after.sources, listing, view, workerId, leaseId, now, claimed)
  {
    if NoneTwice(listing) {
      var live := map n | n in s.sources && n in listing :: s.sources[n];
      var k := ClaimFromMeans(cfg, live, listing, view, workerId, leaseId, now);
    }
  }

  // ---- what the other transactions leave ----

  /** The entry of the file has a lease, given to this worker under this id. */
  predicate HoldsLease(sources: map<Name, Entry>, t: Ticket) {
    match EntryAt(sources, t.source)
    case None => false
    case Some(e) => e.lease.Some? && e.lease.value.workerId == t.workerId && e.lease.value.leaseId == t.leaseId
  }

  /** The file lies in the inbox and shows all that it showed, and nothing else. */
  predicate LooksLike(inbox: Dir, n: Name, signature: Option<Signature>) {
    n in inbox && signature.Some? && inbox[n].signature.Keys == signature.value.Keys &&
    forall k :: k in signature.value ==> inbox[n].signature[k] == signature.value[k]
  }

  lemma {:induction false} OwnedMeans(s: Store, t: Ticket, signature: Option<Signature>)
    ensures Owned(s, t) <==> HoldsLease(s.sources, t)
    ensures Unchanged(s, t.source, signature) <==> LooksLike(s.inbox, t.source, signature)
  {
    if LooksLike(s.inbox, t.source, signature) {
      assert s.inbox[t.source].signature == signature.value;
    }
  }

  function Newer(plan: Option<string>, was: Option<string>): Option<string> {
    if plan.Some? then plan else was
  }

  function HashOf(hashes: map<Name, string>, n: Name): Option<string> {
    if n in hashes then Some(hashes[n]) else None
  }

  /** One entry is now this, and nothing else has changed. */
  predicate OnlyEntry(before: Store, after: Store, n: Name, e: Entry) {
    after == before.(sources := before.sources[n := e])
  }

  /** The file is on the shelf under a name that was free, its entry is gone, and nothing else in
      inbox, shelves and entries has changed. */
  ghost predicate Shelved(before: Store, after: Store, source: Name, shelf: Shelf) {
    source in before.inbox && after.sources == before.sources - {source} && after.inbox == before.inbox - {source} &&
    exists dest :: dest !in before.OnShelf(shelf) &&
      after.OnShelf(shelf) == before.OnShelf(shelf)[dest := before.inbox[source]] &&
      forall other: Shelf :: other != shelf ==> after.OnShelf(other) == before.OnShelf(other)
  }

  /** Digests of archived files that are gone are dropped, and those just computed are added. */
  ghost predicate HashesMerged(before: map<Name, string>, after: map<Name, string>, f: Finding) {
    forall n :: HashOf(after, n) == (if n in f.calculated then Some(f.calculated[n])
                                     else if n in f.live then HashOf(before, n) else None)
  }

  /** A duplicate is set aside; a file that is none stays, with its digest, to be converted. */
  ghost predicate CheckedAsSaid(before: Store, after: Store, t: Ticket, f: Finding) {
    HashesMerged(before.hashes, after.hashes, f) &&
    if f.duplicate.Some? then Shelved(before, after, t.source, Duplicate)
    else
      Owned(before, t) &&
      var e := before.sources[t.source];
      OnlyEntry(before.(hashes := after.hashes), after, t.source,
        Entry(e.signature, e.unchangedSince, e.attempts, e.retryAfter, e.lease, Processing, e.plan,
              Newer(f.sourceHash, e.sha256)))
  }

  lemma {:induction false} MergedMean(hashes: map<Name, string>, f: Finding)
    ensures HashesMerged(hashes, MergedHashes(hashes, f), f)
  {
  }

  lemma {:induction false} CheckedMeans(s: Store, t: Ticket, signature: Option<Signature>, f: Finding, aside: set<Name>)
    ensures Owned(s, t) && Unchanged(s, t.source, signature) <==> HoldsLease(s.sources, t) && LooksLike(s.inbox, t.source, signature)
    ensures Owned(s, t) && Unchanged(s, t.source, signature) ==> CheckedAsSaid(s, Checked(s, t, signature, f, aside, false), t, f)
  {
    OwnedMeans(s, t, signature);
    MergedMean(s.hashes, f);
  }

  // ---- duplicates ----

  /** The archive glob is case-sensitive, unlike the inbox filter. */
  predicate Globbed(name: Name) {
    |name| >= 4 && name[|name| - 4..] == ".iso"
  }

  /** The first candidate with the digest, and the digests that had to be computed. */
  function Search(cfg: Config, dir: Dir, candidates: seq<Name>, digest: string, cached: map<Name, string>)
    : (Option<Name>, map<Name, string>)
    requires forall k :: 0 <= k < |candidates| ==> candidates[k] in dir
  {
    if candidates == [] then (None, map[])
    else
      var name := candidates[0];
      var unknown := name !in cached;
      var d := if unknown then cfg.sha(dir[name].content) else cached[name];
      if d == digest then (Some(name), if unknown then map[name := d] else map[])
      else
        var (found, calculated) := Search(cfg, dir, candidates[1..], digest, cached);
        (found, if unknown then map[name := d] + calculated else calculated)
  }

  /** Archived files the size of the source, in the given order. */
  function SameSize(dir: Dir, order: seq<Name>, size: nat): (c: seq<Name>)
    requires forall k :: 0 <= k < |order| ==> order[k] in dir
    ensures forall k :: 0 <= k < |c| ==> c[k] in dir
    ensures forall n :: n in c <==> n in order && |dir[n].content| == size
  {
    if order == [] then []
    else if |dir[order[0]].content| == size then [order[0]] + SameSize(dir, order[1..], size)
    else SameSize(dir, order[1..], size)
  }

  function FindDuplicate(cfg: Config, source: File, dir: Dir, order: seq<Name>, sourceHash: Option<string>,
                         cached: map<Name, string>): Finding
    requires forall k :: 0 <= k < |order| ==> order[k] in dir
  {
    var live := set n | n in order;
    var candidates := SameSize(dir, order, |source.content|);
    if candidates == [] then Finding(None, sourceHash, map[], live)
    else
      var digest := if sourceHash.Some? then sourceHash.value else cfg.sha(source.content);
      var (found, calculated) := Search(cfg, dir, candidates, digest, cached);
      Finding(found, Some(digest), calculated, live)
  }

  // ---- the program's statements ----

  class Queue {
    var sources: map<Name, Entry>
    var hashes: map<Name, string>
    var inbox: Dir
    var processed: Dir
    var failed: Dir
    var duplicate: Dir

    function Snapshot(): Store
      reads this
    {
      Store(sources, hashes, inbox, processed, failed, duplicate)
    }

    constructor (s: Store)
      ensures Snapshot() == s
    {
      sources, hashes := s.sources, s.hashes;
      inbox, processed, failed, duplicate := s.inbox, s.processed, s.failed, s.duplicate;
    }

    method ClaimNextSource(cfg: Config, listing: seq<Name>, view: View, workerId: string, leaseId: string, now: int)
      returns (claimed: Option<Name>)
      modifies this`sources
      ensures (Snapshot(), claimed) == ClaimNext(cfg, old(Snapshot()), listing, view, workerId, leaseId, now)
      ensures claimed.Some? ==> Owned(Snapshot(), Ticket(claimed.value, workerId, leaseId))
      ensures NoneTwice(listing) ==>
                ClaimedAsSaid(cfg, old(sources), sources, listing, view, workerId, leaseId, now, claimed)
    {
      ClaimNextMeans(cfg, Snapshot(), listing, view, workerId, leaseId, now);
      sources := map n | n in sources && n in listing :: sources[n];
      claimed := ClaimFirst(cfg, listing, view, workerId, leaseId, now);
    }

    /** The loop over the listing. */
    method ClaimFirst(cfg: Config, listing: seq<Name>, view: View, workerId: string, leaseId: string, now: int)
      returns (claimed: Option<Name>)
      modifies this`sources
      ensures (sources, claimed) == ClaimFrom(cfg, old(sources), listing, view, workerId, leaseId, now)
      ensures claimed.Some? ==> Owned(Snapshot(), Ticket(claimed.value, workerId, leaseId))
    {
      ghost var live := sources;
      for k := 0 to |listing|
        invariant ClaimFrom(cfg, sources, listing[k..], view, workerId, leaseId, now) ==
                  ClaimFrom(cfg, live, listing, view, workerId, leaseId, now)
      {
        var source := listing[k];
        assert listing[k..][1..] == listing[k + 1..];
        if source !in view.stat {
          continue;
        }
        var signature := view.stat[source];
        var entry := if source in sources then sources[source] else BLANK;
        if !SignaturesMatch(entry.signature, signature) {
          sources := sources[source := Entry(Some(signature), Some(now), 0, None, None, Observed, None, None)];
          continue;
        }
        entry := entry.(signature := Some(signature));
        sources := sources[source := entry];
        if (if entry.unchangedSince.Some? then now - entry.unchangedSince.value else 0) < cfg.settleSeconds {
          continue;
        }
        if now < (if entry.retryAfter.Some? then entry.retryAfter.value else 0) {
          continue;
        }
        if source in view.busy {
          continue;
        }
        if source !in view.restat || view.restat[source] != signature {
          continue;
        }
        entry := entry.(lease := Some(Lease(workerId, leaseId, now, now + cfg.leaseSeconds)), status := Claimed);
        sources := sources[source := entry];
        return Some(source);
      }
      return None;
    }

    method Renew(cfg: Config, t: Ticket, plan: Option<string>, now: int) returns (ok: bool)
      modifies this`sources
      ensures (Snapshot(), ok) == Renewed(cfg, old(Snapshot()), t, plan, now)
      ensures ok == HoldsLease(old(sources), t) == HoldsLease(sources, t) && (!ok ==> Snapshot() == old(Snapshot()))
      ensures ok ==>
        var e := old(sources[t.source]);
        OnlyEntry(old(Snapshot()), Snapshot(), t.source,
          Entry(e.signature, e.unchangedSince, e.attempts, e.retryAfter,
                Some(Lease(t.workerId, t.leaseId, e.lease.value.claimedAt, now + cfg.leaseSeconds)),
                Processing, Newer(plan, e.plan), e.sha256))
    {
      if !Owned(Snapshot(), t) {
        return false;
      }
      var entry := sources[t.source];
      if plan.Some? {
        entry := entry.(plan := plan);
      }
      entry := entry.(status := Processing);
      entry := entry.(lease := Some(entry.lease.value.(expiresAt := now + cfg.leaseSeconds)));
      sources := sources[t.source := entry];
      return true;
    }

    method ResetChangedClaim(t: Ticket, now: int)
      modifies this`sources
      ensures Snapshot() == Reset(old(Snapshot()), t, now)
      ensures !HoldsLease(old(sources), t) ==> Snapshot() == old(Snapshot())
      ensures HoldsLease(old(sources), t) && t.source !in inbox ==> sources == old(sources) - {t.source}
      ensures HoldsLease(old(sources), t) && t.source in inbox ==>
        OnlyEntry(old(Snapshot()), Snapshot(), t.source,
          Entry(Some(inbox[t.source].signature), Some(now), 0, None, None, SourceChanged, None, None))
    {
      if !Owned(Snapshot(), t) {
        return;
      }
      if t.source !in inbox {
        sources := sources - {t.source};
      } else {
        sources := sources[t.source :=
          Entry(Some(inbox[t.source].signature), Some(now), 0, None, None, SourceChanged, None, None)];
      }
    }

    method ArchiveSource(source: Name, shelf: Shelf, aside: set<Name>) returns (destination: Name)
      requires source in inbox
      modifies this`inbox, this`processed, this`failed, this`duplicate
      ensures (Snapshot(), destination) == Moved(old(Snapshot()), source, shelf, aside)
      ensures destination !in old(Snapshot().OnShelf(shelf)) && destination !in aside
      ensures inbox == old(inbox) - {source}
      ensures Snapshot().OnShelf(shelf) == old(Snapshot().OnShelf(shelf))[destination := old(inbox[source])]
      ensures forall other: Shelf :: other != shelf ==> Snapshot().OnShelf(other) == old(Snapshot().OnShelf(other))
      ensures exists k: nat :: FirstNumber(old(Snapshot().OnShelf(shelf)).Keys + aside, source, k, destination)
    {
      destination := UniqueDestination(Snapshot().OnShelf(shelf).Keys + aside, source);
      ghost var k := FirstFreeNumber(Snapshot().OnShelf(shelf).Keys + aside, source, 1, {});
      var file := inbox[source];
      inbox := inbox - {source};
      match shelf {
        case Processed => processed := processed[destination := file];
        case Failed => failed := failed[destination := file];
        case Duplicate => duplicate := duplicate[destination := file];
      }
    }

    method ChargeFailure(cfg: Config, t: Ticket, status: Status, plan: Option<string>, now: int, aside: set<Name>)
      modifies this
      ensures Snapshot() == Charged(cfg, old(Snapshot()), t, status, plan, now, aside, false)
      ensures !HoldsLease(old(sources), t) ==> Snapshot() == old(Snapshot())
      ensures HoldsLease(old(sources), t) ==>
        var e := old(sources[t.source]);
        if e.attempts + 1 >= cfg.maxAttempts && t.source in old(inbox) then
          Shelved(old(Snapshot()), Snapshot(), t.source, Failed) && hashes == old(hashes)
        else
          OnlyEntry(old(Snapshot()), Snapshot(), t.source,
            Entry(e.signature, e.unchangedSince, e.attempts + 1, Some(now + cfg.retrySeconds * (e.attempts + 1)), None,
                  status, Newer(plan, e.plan), e.sha256))
    {
      if !Owned(Snapshot(), t) {
        return;
      }
      var entry := sources[t.source];
      if plan.Some? {
        entry := entry.(plan := plan);
      }
      entry := entry.(attempts := entry.attempts + 1, status := status);
      entry := entry.(retryAfter := Some(now + cfg.retrySeconds * entry.attempts), lease := None);
      if entry.attempts >= cfg.maxAttempts && t.source in inbox {
        var archived := ArchiveSource(t.source, Failed, aside);
        sources := sources - {t.source};
      } else {
        sources := sources[t.source := entry];
      }
    }

    method Interrupt(t: Ticket, plan: Option<string>)
      modifies this`sources
      ensures Snapshot() == InterruptedBy(old(Snapshot()), t, plan)
      ensures !HoldsLease(old(sources), t) ==> Snapshot() == old(Snapshot())
      ensures HoldsLease(old(sources), t) ==>
        var e := old(sources[t.source]);
        OnlyEntry(old(Snapshot()), Snapshot(), t.source,
          Entry(e.signature, e.unchangedSince, e.attempts, None, None, Interrupted, Newer(plan, e.plan), e.sha256))
    {
      if Owned(Snapshot(), t) {
        var entry := sources[t.source];
        if plan.Some? {
          entry := entry.(plan := plan);
        }
        sources := sources[t.source := entry.(status := Interrupted, retryAfter := None, lease := None)];
      }
    }

    method RecordCheck(t: Ticket, signature: Option<Signature>, f: Finding, aside: set<Name>)
      returns (r: Result<Option<Name>, Status>)
      modifies this
      ensures Snapshot() == Checked(old(Snapshot()), t, signature, f, aside, false)
      ensures r.Ok? <==> HoldsLease(old(sources), t) && LooksLike(old(inbox), t.source, signature)
      ensures r.Err? ==> Snapshot() == old(Snapshot())
      ensures r.Ok? ==> CheckedAsSaid(old(Snapshot()), Snapshot(), t, f)
    {
      CheckedMeans(Snapshot(), t, signature, f, aside);
      if !Owned(Snapshot(), t) || !Unchanged(Snapshot(), t.source, signature) {
        return Err(SourceChanged);
      }
      hashes := map n | n in hashes && n in f.live :: hashes[n];
      hashes := hashes + f.calculated;
      var entry := sources[t.source];
      if f.sourceHash.Some? {
        entry := entry.(sha256 := f.sourceHash);
      }
      if f.duplicate.Some? {
        var archived := ArchiveSource(t.source, Duplicate, aside);
        sources := sources - {t.source};
        return Ok(Some(archived));
      }
      sources := sources[t.source := entry.(status := Processing)];
      return Ok(None);
    }

    method Complete(t: Ticket, signature: Option<Signature>, digest: string, aside: set<Name>)
      returns (r: Result<Name, Status>)
      modifies this
      ensures Snapshot() == Completed(old(Snapshot()), t, signature, digest, aside, false)
      ensures r.Ok? <==> HoldsLease(old(sources), t) && LooksLike(old(inbox), t.source, signature)
      ensures r.Err? ==> Snapshot() == old(Snapshot())
      ensures r.Ok? ==> Shelved(old(Snapshot()), Snapshot(), t.source, Processed)
      ensures r.Ok? ==> r.value !in old(processed) && processed == old(processed)[r.value := old(inbox[t.source])]
      ensures r.Ok? ==> hashes == old(hashes)[r.value := digest]
    {
      OwnedMeans(Snapshot(), t, signature);
      if !Owned(Snapshot(), t) || !Unchanged(Snapshot(), t.source, signature) {
        return Err(SourceChanged);
      }
      var archived := ArchiveSource(t.source, Processed, aside);
      hashes := hashes[archived := digest];
      sources := sources - {t.source};
      return Ok(archived);
    }
  }

  method FindDuplicateOf(cfg: Config, source: File, dir: Dir, order: seq<Name>, sourceHash0: Option<string>,
                         cached: map<Name, string>) returns (f: Finding)
    requires forall k :: 0 <= k < |order| ==> order[k] in dir
    ensures f == FindDuplicate(cfg, source, dir, order, sourceHash0, cached)
  {
    var live := set n | n in order;
    var candidates := SameSize(dir, order, |source.content|);
    if candidates == [] {
      return Finding(None, sourceHash0, map[], live);
    }
    var sourceHash := if sourceHash0.Some? then sourceHash0.value else cfg.sha(source.content);
    var found, calculated := SearchCandidates(cfg, dir, candidates, sourceHash, cached);
    return Finding(found, Some(sourceHash), calculated, live);
  }

  method SearchCandidates(cfg: Config, dir: Dir, candidates: seq<Name>, sourceHash: string, cached: map<Name, string>)
    returns (found: Option<Name>, calculated: map<Name, string>)
    requires forall k :: 0 <= k < |candidates| ==> candidates[k] in dir
    ensures (found, calculated) == Search(cfg, dir, candidates, sourceHash, cached)
  {
    calculated := map[];
    ghost var all := Search(cfg, dir, candidates, sourceHash, cached);
    assert candidates[0..] == candidates && map[] + all.1 == all.1;
    for k := 0 to |candidates|
      invariant Search(cfg, dir, candidates, sourceHash, cached) ==
                Prefixed(calculated, Search(cfg, dir, candidates[k..], sourceHash, cached))
    {
      var name := candidates[k];
      assert candidates[k..][0] == name && candidates[k..][1..] == candidates[k + 1..];
      var digest;
      ghost var was := calculated;
      if name in cached {
        digest := cached[name];
      } else {
        digest := cfg.sha(dir[name].content);
        calculated := calculated[name := digest];
      }
      if digest == sourceHash {
        assert calculated == was + if name in cached then map[] else map[name := digest];
        return Some(name), calculated;
      }
      PrefixedStep(was, name, digest, Search(cfg, dir, candidates[k + 1..], sourceHash, cached));
    }
    assert calculated + map[] == calculated;
    return None, calculated;
  }

  function Prefixed(calculated: map<Name, string>, rest: (Option<Name>, map<Name, string>))
    : (Option<Name>, map<Name, string>)
  {
    (rest.0, calculated + rest.1)
  }

  lemma {:induction false} PrefixedStep(
    was: map<Name, string>, name: Name, digest: string, rest: (Option<Name>, map<Name, string>))
    ensures Prefixed(was, (rest.0, map[name := digest] + rest.1)) == Prefixed(was[name := digest], rest)
  {
    assert was + (map[name := digest] + rest.1) == was[name := digest] + rest.1;
  }
}
