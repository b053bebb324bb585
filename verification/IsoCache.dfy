/** The digests the ISO queue remembers. While equal signatures of a pathname mean equal
    content, every remembered digest is the digest of the file it stands for, over every run,
    and a comparison that uses them answers as if it had read every file. */
module IsoCache {
  import opened Wrappers
  import opened IsoQueue
  import opened IsoRuns
  import opened IsoConservation

  /** The content a pathname has whenever it shows a signature. */
  type Meaning = (Name, Signature) -> Content

  /** What the operating system reports for a file. */
  predicate Full(g: Signature) {
    g.Keys == {"size", "mtime_ns", "ctime_ns"}
  }

  ghost predicate Collisionless(cfg: Config) {
    forall a, b :: cfg.sha(a) == cfg.sha(b) ==> a == b
  }

  predicate FileOk(m: Meaning, n: Name, f: File) {
    Full(f.signature) && f.content == m(n, f.signature)
  }

  ghost predicate InboxOk(m: Meaning, inbox: Dir) {
    forall n :: n in inbox ==> FileOk(m, n, inbox[n])
  }

  /** Remembered digests name archived files and are theirs. */
  ghost predicate DigestsOk(cfg: Config, digests: map<Name, string>, dir: Dir) {
    forall n :: n in digests ==> n in dir && digests[n] == cfg.sha(dir[n].content)
  }

  /** The digest on an entry is right for any file its signature can stand for. */
  ghost predicate EntryOk(cfg: Config, m: Meaning, n: Name, e: Entry) {
    e.sha256.Some? ==>
      forall g :: Full(g) && SignaturesMatch(e.signature, g) ==> e.sha256.value == cfg.sha(m(n, g))
  }

  ghost predicate EntriesOk(cfg: Config, m: Meaning, sources: map<Name, Entry>) {
    forall n :: n in sources ==> EntryOk(cfg, m, n, sources[n])
  }

  /** Each file on the duplicate shelf has a copy among the processed ones. */
  ghost predicate DuplicatesOk(s: Store) {
    forall d :: d in s.duplicate ==> HasCopy(s.processed, s.duplicate[d].content)
  }

  ghost predicate HasCopy(dir: Dir, content: Content) {
    exists n :: n in dir && dir[n].content == content
  }

  ghost predicate StoreOk(cfg: Config, m: Meaning, s: Store) {
    InboxOk(m, s.inbox) && DigestsOk(cfg, s.hashes, s.processed) && EntriesOk(cfg, m, s.sources) && DuplicatesOk(s)
  }

  ghost predicate LocalOk(cfg: Config, m: Meaning, s: Store, c: Claim) {
    var n, e := c.ticket.source, c.local;
    e.signature.Some? && Full(e.signature.value) &&
    (e.sha256.Some? ==> e.sha256.value == cfg.sha(m(n, e.signature.value))) &&
    (Owned(s, c.ticket) ==> s.sources[n].signature == e.signature)
  }

  ghost predicate FindingOk(cfg: Config, content: Content, processed: Dir, f: Finding) {
    (f.sourceHash.Some? ==> f.sourceHash.value == cfg.sha(content)) &&
    DigestsOk(cfg, f.calculated, processed) &&
    (f.duplicate.Some? ==> f.duplicate.value in processed && processed[f.duplicate.value].content == content)
  }

  ghost predicate WorkerOk(cfg: Config, m: Meaning, s: Store, phase: Phase) {
    phase.Active() ==>
      LocalOk(cfg, m, s, phase.claim) &&
      var content := m(phase.claim.ticket.source, phase.claim.local.signature.value);
      match phase
      case Cached(_, cache, sha) =>
        DigestsOk(cfg, cache, s.processed) && (sha.Some? ==> sha.value == cfg.sha(content))
      case Compared(_, finding) => FindingOk(cfg, content, s.processed, finding)
      case _ => true
  }

  ghost predicate CacheInv(cfg: Config, m: Meaning, s: System) {
    StoreOk(cfg, m, s.store) && LeaseInv(s) && forall pid :: WorkerOk(cfg, m, s.store, s.PhaseOf(pid))
  }

  /** Files that arrive or change from outside show a signature they never had with other content. */
  predicate Honest(m: Meaning, step: Step) {
    step.Upload? || step.Modify? ==> FileOk(m, step.name, step.file)
  }

  lemma {:induction false} FullMatch(g: Signature, h: Signature)
    requires Full(g) && Full(h) && SignaturesMatch(Some(g), h)
    ensures g == h
  {
    assert g.Keys == h.Keys;
    assert forall k :: k in g ==> k in h && g[k] == h[k];
  }

  // ---- comparing ----

  /** The first file in the given order with this content. */
  function FirstCopy(dir: Dir, order: seq<Name>, content: Content): (found: Option<Name>)
    requires forall k :: 0 <= k < |order| ==> order[k] in dir
    ensures found.Some? ==> found.value in order && dir[found.value].content == content
    ensures found.None? ==> forall n :: n in order ==> dir[n].content != content
  {
    if order == [] then None
    else if dir[order[0]].content == content then Some(order[0])
    else FirstCopy(dir, order[1..], content)
  }

  lemma {:induction false} SearchExact(cfg: Config, dir: Dir, c: seq<Name>, content: Content, cached: map<Name, string>)
    requires Collisionless(cfg) && DigestsOk(cfg, cached, dir)
    requires forall k :: 0 <= k < |c| ==> c[k] in dir
    ensures var (found, calculated) := Search(cfg, dir, c, cfg.sha(content), cached);
            found == FirstCopy(dir, c, content) && DigestsOk(cfg, calculated, dir)
  {
    if c != [] {
      SearchExact(cfg, dir, c[1..], content, cached);
    }
  }

  /** Looking only at files of the right size loses nothing. */
  lemma {:induction false} SizeFilter(dir: Dir, order: seq<Name>, content: Content)
    requires forall k :: 0 <= k < |order| ==> order[k] in dir
    ensures FirstCopy(dir, SameSize(dir, order, |content|), content) == FirstCopy(dir, order, content)
  {
    if order != [] {
      SizeFilter(dir, order[1..], content);
      var rest := SameSize(dir, order[1..], |content|);
      assert ([order[0]] + rest)[1..] == rest;
    }
  }

  /** With any remembered digests that are right, a comparison finds the first archived copy
      of the source, and every digest it computes or passes on is right. */
  lemma {:induction false} ComparisonExact(
    cfg: Config, source: File, dir: Dir, order: seq<Name>, sourceHash: Option<string>, cached: map<Name, string>)
    requires Collisionless(cfg) && DigestsOk(cfg, cached, dir)
    requires sourceHash.Some? ==> sourceHash.value == cfg.sha(source.content)
    requires forall k :: 0 <= k < |order| ==> order[k] in dir
    ensures var f := FindDuplicate(cfg, source, dir, order, sourceHash, cached);
            f.duplicate == FirstCopy(dir, order, source.content) &&
            f.duplicate == FindDuplicate(cfg, source, dir, order, None, map[]).duplicate &&
            FindingOk(cfg, source.content, dir, f)
  {
    var c := SameSize(dir, order, |source.content|);
    SizeFilter(dir, order, source.content);
    SearchExact(cfg, dir, c, source.content, cached);
    SearchExact(cfg, dir, c, source.content, map[]);
  }

  // ---- entries under a claim ----

  lemma {:induction false} InspectOk(cfg: Config, m: Meaning, n: Name, e: Entry, signature: Signature, now: int)
    requires EntryOk(cfg, m, n, e) && Full(signature)
    ensures var (e', ready) := Inspect(cfg, e, signature, now);
            EntryOk(cfg, m, n, e') &&
            (e.signature.Some? && Full(e.signature.value) && e'.lease.Some? ==> e'.signature == e.signature)
  {
    if SignaturesMatch(e.signature, signature) {
      if e.signature.Some? && Full(e.signature.value) {
        FullMatch(e.signature.value, signature);
      }
      forall g | Full(g) && SignaturesMatch(Some(signature), g)
        ensures g == signature
      {
        FullMatch(signature, g);
      }
    }
  }

  /** An entry that keeps its lease keeps its signature. */
  ghost predicate SignaturesKept(before: map<Name, Entry>, after: map<Name, Entry>, except: Option<(string, string)>) {
    forall n :: LeaseAt(after, n).Some? && LeaseAt(after, n) != except && FullAt(before, n) ==>
      after[n].signature == before[n].signature
  }

  predicate FullAt(sources: map<Name, Entry>, n: Name) {
    n in sources && sources[n].signature.Some? && Full(sources[n].signature.value)
  }

  lemma {:induction false} ClaimEntries(cfg: Config, m: Meaning, sources: map<Name, Entry>, listing: seq<Name>,
                                        view: View, workerId: string, leaseId: string, now: int)
    requires EntriesOk(cfg, m, sources) && forall n :: n in view.stat ==> Full(view.stat[n])
    ensures var (after, source) := ClaimFrom(cfg, sources, listing, view, workerId, leaseId, now);
            EntriesOk(cfg, m, after) && SignaturesKept(sources, after, Some((workerId, leaseId)))
    decreases |listing|
  {
    if listing != [] {
      var source, rest := listing[0], listing[1..];
      if source !in view.stat {
        ClaimEntries(cfg, m, sources, rest, view, workerId, leaseId, now);
      } else {
        InspectOk(cfg, m, source, Known(sources, source), view.stat[source], now);
        var (e, ready) := Inspect(cfg, Known(sources, source), view.stat[source], now);
        ClaimEntries(cfg, m, sources[source := e], rest, view, workerId, leaseId, now);
        ClaimLeases(cfg, sources[source := e], rest, view, workerId, leaseId, now);
      }
    }
  }

  // ---- one step ----

  /** What a step may do to what other workers rely on. */
  ghost predicate Respects(before: Store, after: Store, except: Option<(string, string)>) {
    SignaturesKept(before.sources, after.sources, except) && Extends(before.processed, after.processed)
  }

  /** A worker the step is not about stays right. */
  lemma {:induction false} BystanderOk(cfg: Config, m: Meaning, s: Store, after: Store, phase: Phase,
                                       except: Option<(string, string)>)
    requires WorkerOk(cfg, m, s, phase) && Respects(s, after, except)
    requires phase.Active() && Owned(after, phase.claim.ticket) ==>
               Owned(s, phase.claim.ticket) && except != Some((phase.claim.ticket.workerId, phase.claim.ticket.leaseId))
    ensures WorkerOk(cfg, m, after, phase)
  {
    if phase.Active() {
      var t := phase.claim.ticket;
      assert Owned(after, t) ==> LeaseAt(after.sources, t.source) == Some((t.workerId, t.leaseId));
    }
  }

  lemma {:induction false} OtherPhase(cfg: Config, s: System, step: Step, pid: Pid)
    requires Enabled(s, step) && Actor(step) != Some(pid)
    ensures Next(cfg, s, step).PhaseOf(pid) == s.PhaseOf(pid)
  {
  }

  /** A lease held after another worker's step was held before, and is not a new one. */
  lemma {:induction false} OtherLease(cfg: Config, s: System, step: Step, t: Ticket)
    requires LeaseInv(s) && Enabled(s, step) && TicketInv(s, t)
    requires Owned(Next(cfg, s, step).store, t)
    ensures Owned(s.store, t) && (step.ClaimStep? ==> t.leaseId != step.leaseId)
  {
    if step.ClaimStep? {
      ClaimStepLeases(cfg, s, step);
    } else {
      StepLeases(cfg, s, step);
    }
    assert LeaseAt(Next(cfg, s, step).store.sources, t.source) == Some((t.workerId, t.leaseId));
    assert LeaseAt(s.store.sources, t.source) == Some((t.workerId, t.leaseId));
  }

  function NewLease(step: Step): Option<(string, string)> {
    if step.ClaimStep? then Some((step.workerId, step.leaseId)) else None
  }

  lemma {:induction false} BystandersOk(cfg: Config, m: Meaning, s: System, step: Step, pid: Pid)
    requires CacheInv(cfg, m, s) && Enabled(s, step) && Actor(step) != Some(pid)
    requires Respects(s.store, Next(cfg, s, step).store, NewLease(step))
    ensures WorkerOk(cfg, m, Next(cfg, s, step).store, Next(cfg, s, step).PhaseOf(pid))
  {
    OtherPhase(cfg, s, step, pid);
    var phase := s.PhaseOf(pid);
    var after := Next(cfg, s, step).store;
    if phase.Active() && Owned(after, phase.claim.ticket) {
      OtherLease(cfg, s, step, phase.claim.ticket);
    }
    BystanderOk(cfg, m, s.store, after, phase, NewLease(step));
  }

  lemma {:induction false} MovedDigests(cfg: Config, s: Store, source: Name, shelf: Shelf, aside: set<Name>)
    requires source in s.inbox && DigestsOk(cfg, s.hashes, s.processed) && DuplicatesOk(s)
    requires shelf.Duplicate? ==> HasCopy(s.processed, s.inbox[source].content)
    ensures var (after, dest) := Moved(s, source, shelf, aside);
            DigestsOk(cfg, s.hashes, after.processed) && DuplicatesOk(after) &&
            Extends(s.processed, after.processed) &&
            (shelf.Processed? ==> DigestsOk(cfg, s.hashes[dest := cfg.sha(s.inbox[source].content)], after.processed))
  {
    var (after, dest) := Moved(s, source, shelf, aside);
    forall d | d in after.duplicate
      ensures HasCopy(after.processed, after.duplicate[d].content)
    {
      var content := after.duplicate[d].content;
      assert HasCopy(s.processed, content);
      var n :| n in s.processed && s.processed[n].content == content;
      assert n in after.processed;
    }
  }

  lemma {:induction false} ChargedOk(cfg: Config, m: Meaning, s: Store, t: Ticket, status: Status,
                                     plan: Option<string>, now: int, aside: set<Name>, crash: bool)
    requires StoreOk(cfg, m, s)
    ensures var after := Charged(cfg, s, t, status, plan, now, aside, crash);
            StoreOk(cfg, m, after) && Respects(s, after, None)
  {
    if t.source in s.inbox {
      MovedDigests(cfg, s, t.source, Failed, aside);
    }
  }

  lemma {:induction false} MergedOk(cfg: Config, hashes: map<Name, string>, f: Finding, dir: Dir)
    requires DigestsOk(cfg, hashes, dir) && DigestsOk(cfg, f.calculated, dir)
    ensures DigestsOk(cfg, MergedHashes(hashes, f), dir)
  {
  }

  lemma {:induction false} CheckedOk(cfg: Config, m: Meaning, s: Store, c: Claim, f: Finding,
                                     aside: set<Name>, crash: bool)
    requires StoreOk(cfg, m, s) && LocalOk(cfg, m, s, c)
    requires FindingOk(cfg, m(c.ticket.source, c.local.signature.value), s.processed, f)
    ensures var after := Checked(s, c.ticket, c.local.signature, f, aside, crash);
            StoreOk(cfg, m, after) && Respects(s, after, None)
  {
    var n := c.ticket.source;
    if Owned(s, c.ticket) && Unchanged(s, n, c.local.signature) {
      MergedOk(cfg, s.hashes, f, s.processed);
      if f.duplicate.Some? {
        MovedDigests(cfg, s, n, Duplicate, aside);
      } else {
        CheckedEntry(cfg, m, s.sources[n], c, f);
      }
    }
  }

  /** The digest found for the source is right for the signature its entry has. */
  lemma {:induction false} CheckedEntry(cfg: Config, m: Meaning, e: Entry, c: Claim, f: Finding)
    requires e.signature == c.local.signature && e.signature.Some? && Full(e.signature.value)
    requires EntryOk(cfg, m, c.ticket.source, e)
    requires f.sourceHash.Some? ==> f.sourceHash.value == cfg.sha(m(c.ticket.source, c.local.signature.value))
    ensures f.sourceHash.Some? ==> EntryOk(cfg, m, c.ticket.source, e.(sha256 := f.sourceHash, status := Processing))
    ensures EntryOk(cfg, m, c.ticket.source, e.(status := Processing))
  {
    forall g | Full(g) && SignaturesMatch(e.signature, g)
      ensures g == e.signature.value
    {
      FullMatch(e.signature.value, g);
    }
  }

  lemma {:induction false} CompletedOk(cfg: Config, m: Meaning, s: Store, c: Claim, digest: string,
                                       aside: set<Name>, crash: bool)
    requires StoreOk(cfg, m, s) && LocalOk(cfg, m, s, c)
    requires Unchanged(s, c.ticket.source, c.local.signature) ==>
               digest == cfg.sha(s.inbox[c.ticket.source].content)
    ensures var after := Completed(s, c.ticket, c.local.signature, digest, aside, crash);
            StoreOk(cfg, m, after) && Respects(s, after, None)
  {
    if Unchanged(s, c.ticket.source, c.local.signature) {
      MovedDigests(cfg, s, c.ticket.source, Processed, aside);
    }
  }

  lemma {:induction false} CompleteStoreOk(cfg: Config, m: Meaning, s: System, step: Step)
    requires CacheInv(cfg, m, s) && Enabled(s, step) && step.CompleteStep?
    ensures var s' := Next(cfg, s, step); StoreOk(cfg, m, s'.store) && Respects(s.store, s'.store, None)
  {
    var c := s.PhaseOf(step.pid).claim;
    assert WorkerOk(cfg, m, s.store, s.PhaseOf(step.pid));
    if Unchanged(s.store, c.ticket.source, c.local.signature) {
      assert FileOk(m, c.ticket.source, s.store.inbox[c.ticket.source]);
      var digest := if c.local.sha256.Some? then c.local.sha256.value
                    else cfg.sha(s.store.inbox[c.ticket.source].content);
      CompletedOk(cfg, m, s.store, c, digest, step.aside, step.crash);
    }
  }

  /** Steps that claim nothing keep the store right. */
  lemma {:induction false} StepStoreOk(cfg: Config, m: Meaning, s: System, step: Step)
    requires CacheInv(cfg, m, s) && Enabled(s, step) && !step.ClaimStep? && Honest(m, step)
    ensures var s' := Next(cfg, s, step); StoreOk(cfg, m, s'.store) && Respects(s.store, s'.store, None)
  {
    match step {
      case CheckFails(pid, now, aside, crash) =>
        ChargedOk(cfg, m, s.store, s.PhaseOf(pid).claim.ticket, CheckFailed, None, now, aside, crash);
      case FailStep(pid, now, aside, crash) =>
        var c := s.PhaseOf(pid).claim;
        ChargedOk(cfg, m, s.store, c.ticket, Retrying, c.local.plan, now, aside, crash);
      case Commit(pid, aside, crash) =>
        var w := s.PhaseOf(pid);
        assert WorkerOk(cfg, m, s.store, w);
        CheckedOk(cfg, m, s.store, w.claim, w.finding, aside, crash);
      case CompleteStep(_, _, _) => CompleteStoreOk(cfg, m, s, step);
      case _ => QuietStoreOk(cfg, m, s, step);
    }
  }

  /** One entry is rewritten or dropped; what it says about its file stays right. */
  ghost predicate Rewrites(cfg: Config, m: Meaning, s: Store, after: Store, n: Name) {
    after == s.(sources := after.sources) && n in s.sources &&
    (after.sources == s.sources - {n} ||
     exists e :: EntryOk(cfg, m, n, e) && (e.lease.Some? ==> e.signature == s.sources[n].signature) &&
                 after.sources == s.sources[n := e])
  }

  lemma {:induction false} RewrittenOk(cfg: Config, m: Meaning, s: Store, after: Store, n: Name)
    requires StoreOk(cfg, m, s) && Rewrites(cfg, m, s, after, n)
    ensures StoreOk(cfg, m, after) && Respects(s, after, None)
  {
  }

  lemma {:induction false} EntryRewritten(cfg: Config, m: Meaning, s: Store, after: Store, n: Name, e: Entry)
    requires EntriesOk(cfg, m, s.sources) && n in s.sources && after == s.(sources := s.sources[n := e])
    requires e.sha256.None? || (e.sha256 == s.sources[n].sha256 && e.signature == s.sources[n].signature)
    requires e.lease.Some? ==> e.signature == s.sources[n].signature
    ensures Rewrites(cfg, m, s, after, n)
  {
    assert EntryOk(cfg, m, n, s.sources[n]);
    assert EntryOk(cfg, m, n, e);
  }

  /** So do the steps that move no file. */
  lemma {:induction false} QuietStoreOk(cfg: Config, m: Meaning, s: System, step: Step)
    requires StoreOk(cfg, m, s.store) && Enabled(s, step) && Honest(m, step)
    requires !(step.ClaimStep? || step.CheckFails? || step.FailStep? || step.Commit? || step.CompleteStep?)
    ensures var s' := Next(cfg, s, step); StoreOk(cfg, m, s'.store) && Respects(s.store, s'.store, None)
  {
    var after := Next(cfg, s, step).store;
    if (step.RenewStep? || step.ChangedStep? || step.StatErrorStep? || step.InterruptStep?) && after != s.store {
      var n := s.PhaseOf(step.pid).claim.ticket.source;
      if n in after.sources {
        EntryRewritten(cfg, m, s.store, after, n, after.sources[n]);
      }
      RewrittenOk(cfg, m, s.store, after, n);
    } else {
      assert after == s.store.(inbox := after.inbox) && InboxOk(m, after.inbox);
    }
  }

  lemma {:induction false} ClaimStoreOk(cfg: Config, m: Meaning, s: System, step: Step)
    requires CacheInv(cfg, m, s) && Enabled(s, step) && step.ClaimStep?
    ensures var s' := Next(cfg, s, step);
            StoreOk(cfg, m, s'.store) && Respects(s.store, s'.store, Some((step.workerId, step.leaseId))) &&
            WorkerOk(cfg, m, s'.store, s'.PhaseOf(step.pid))
  {
    var free := s.Released(step.pid);
    var view := View(Signatures(s.store.inbox), step.restat, free.locks.Keys);
    var live := map n | n in s.store.sources && n in step.listing :: s.store.sources[n];
    ClaimEntries(cfg, m, live, step.listing, view, step.workerId, step.leaseId, step.now);
    ClaimLeases(cfg, live, step.listing, view, step.workerId, step.leaseId, step.now);
    var (sources, source) := ClaimFrom(cfg, live, step.listing, view, step.workerId, step.leaseId, step.now);
    assert forall n :: n in sources && n in s.store.sources && n !in live ==> n !in step.listing;
    ClaimOnlyListed(cfg, live, step.listing, view, step.workerId, step.leaseId, step.now);
    if source.Some? {
      assert EntryOk(cfg, m, source.value, sources[source.value]);
      SelfMatch(view.stat[source.value]);
    }
  }

  lemma {:induction false} SelfMatch(g: Signature)
    requires Full(g)
    ensures SignaturesMatch(Some(g), g)
  {
    assert "size" in g.Keys && "mtime_ns" in g.Keys;
  }

  lemma {:induction false} ClaimOnlyListed(cfg: Config, sources: map<Name, Entry>, listing: seq<Name>, view: View,
                                           workerId: string, leaseId: string, now: int)
    ensures forall n :: n in ClaimFrom(cfg, sources, listing, view, workerId, leaseId, now).0 ==>
              n in sources || n in listing
    decreases |listing|
  {
    if listing != [] {
      var source, rest := listing[0], listing[1..];
      if source !in view.stat {
        ClaimOnlyListed(cfg, sources, rest, view, workerId, leaseId, now);
      } else {
        var (e, ready) := Inspect(cfg, Known(sources, source), view.stat[source], now);
        ClaimOnlyListed(cfg, sources[source := e], rest, view, workerId, leaseId, now);
      }
    }
  }

  /** The worker that takes a step stays right itself. */
  lemma {:induction false} ActorOk(cfg: Config, m: Meaning, s: System, step: Step)
    requires CacheInv(cfg, m, s) && Collisionless(cfg) && Enabled(s, step) && !step.ClaimStep?
    requires Actor(step).Some?
    requires Respects(s.store, Next(cfg, s, step).store, None) && StoreOk(cfg, m, Next(cfg, s, step).store)
    ensures var s' := Next(cfg, s, step); WorkerOk(cfg, m, s'.store, s'.PhaseOf(Actor(step).value))
  {
    var pid := Actor(step).value;
    assert WorkerOk(cfg, m, s.store, s.PhaseOf(pid));
    match step {
      case ReadCache(_) => ReadActorOk(cfg, m, s, step);
      case Compare(_, _) => CompareActorOk(cfg, m, s, step);
      case Commit(_, aside, crash) => CommitActorOk(cfg, m, s, step);
      case _ =>
    }
  }

  lemma {:induction false} ReadActorOk(cfg: Config, m: Meaning, s: System, step: Step)
    requires CacheInv(cfg, m, s) && Enabled(s, step) && step.ReadCache?
    ensures var s' := Next(cfg, s, step); WorkerOk(cfg, m, s'.store, s'.PhaseOf(step.pid))
  {
    var c := s.PhaseOf(step.pid).claim;
    assert WorkerOk(cfg, m, s.store, s.PhaseOf(step.pid));
    if Owned(s.store, c.ticket) {
      assert EntryOk(cfg, m, c.ticket.source, s.store.sources[c.ticket.source]);
      SelfMatch(c.local.signature.value);
    }
  }

  lemma {:induction false} CompareActorOk(cfg: Config, m: Meaning, s: System, step: Step)
    requires CacheInv(cfg, m, s) && Collisionless(cfg) && Enabled(s, step) && step.Compare?
    ensures var s' := Next(cfg, s, step); WorkerOk(cfg, m, s'.store, s'.PhaseOf(step.pid))
  {
    var w := s.PhaseOf(step.pid);
    assert WorkerOk(cfg, m, s.store, w);
    var source := w.claim.ticket.source;
    assert FileOk(m, source, s.store.inbox[source]);
    ComparisonExact(cfg, s.store.inbox[source], s.store.processed, step.order, w.sha, w.cache);
  }

  lemma {:induction false} CommitActorOk(cfg: Config, m: Meaning, s: System, step: Step)
    requires CacheInv(cfg, m, s) && Enabled(s, step) && step.Commit?
    requires StoreOk(cfg, m, Next(cfg, s, step).store)
    ensures var s' := Next(cfg, s, step); WorkerOk(cfg, m, s'.store, s'.PhaseOf(step.pid))
  {
    var w := s.PhaseOf(step.pid);
    assert WorkerOk(cfg, m, s.store, w);
    var after := Checked(s.store, w.claim.ticket, w.claim.local.signature, w.finding, step.aside, step.crash);
    var n := w.claim.ticket.source;
    if Owned(s.store, w.claim.ticket) && n in after.sources {
      assert EntryOk(cfg, m, n, after.sources[n]);
      SelfMatch(w.claim.local.signature.value);
    }
  }

  lemma {:induction false} CacheInvStep(cfg: Config, m: Meaning, s: System, step: Step)
    requires CacheInv(cfg, m, s) && Collisionless(cfg) && Enabled(s, step) && Honest(m, step)
    ensures CacheInv(cfg, m, Next(cfg, s, step))
  {
    var s' := Next(cfg, s, step);
    LeaseInvStep(cfg, s, step);
    if step.ClaimStep? {
      ClaimStoreOk(cfg, m, s, step);
    } else {
      StepStoreOk(cfg, m, s, step);
    }
    forall pid: Pid
      ensures WorkerOk(cfg, m, s'.store, s'.PhaseOf(pid))
    {
      if Actor(step) != Some(pid) {
        BystandersOk(cfg, m, s, step, pid);
      } else if !step.ClaimStep? {
        ActorOk(cfg, m, s, step);
      }
    }
  }

  // ---- over runs ----

  lemma {:induction false} CacheInvRun(cfg: Config, m: Meaning, states: seq<System>, steps: seq<Step>, i: nat)
    requires Run(cfg, states, steps) && i <= |steps| && CacheInv(cfg, m, states[0]) && Collisionless(cfg)
    requires forall k :: 0 <= k < |steps| ==> Honest(m, steps[k])
    ensures CacheInv(cfg, m, states[i])
  {
    if i > 0 {
      CacheInvRun(cfg, m, states, steps, i - 1);
      RunStep(cfg, states, steps, i - 1);
      CacheInvStep(cfg, m, states[i - 1], steps[i - 1]);
    }
  }

  /** Over every run, the remembered digests are those of the archived files they name, and
      a file is set aside as a duplicate only beside a processed file with the same content. */
  lemma {:induction false} DigestsStayRight(cfg: Config, m: Meaning, states: seq<System>, steps: seq<Step>, i: nat)
    requires Run(cfg, states, steps) && i <= |steps| && CacheInv(cfg, m, states[0]) && Collisionless(cfg)
    requires forall k :: 0 <= k < |steps| ==> Honest(m, steps[k])
    ensures forall n :: n in states[i].store.hashes ==>
      n in states[i].store.processed && states[i].store.hashes[n] == cfg.sha(states[i].store.processed[n].content)
    ensures forall d :: d in states[i].store.duplicate ==>
      HasCopy(states[i].store.processed, states[i].store.duplicate[d].content)
  {
    CacheInvRun(cfg, m, states, steps, i);
  }

  /** Over every run, a comparison with whatever digests its worker holds by then answers as
      one without any would: the first archived copy of the source, if there is one. */
  lemma {:induction false} ComparisonsExact(cfg: Config, m: Meaning, states: seq<System>, steps: seq<Step>, i: nat)
    requires Run(cfg, states, steps) && i < |steps| && CacheInv(cfg, m, states[0]) && Collisionless(cfg)
    requires forall k :: 0 <= k < |steps| ==> Honest(m, steps[k])
    requires steps[i].Compare?
    ensures StepAt(cfg, states, steps, i)
    ensures var s, pid := states[i], steps[i].pid;
            var source := s.PhaseOf(pid).claim.ticket.source;
            states[i + 1].PhaseOf(pid).finding.duplicate ==
              FirstCopy(s.store.processed, steps[i].order, s.store.inbox[source].content)
  {
    CacheInvRun(cfg, m, states, steps, i);
    RunStep(cfg, states, steps, i);
    var s := states[i];
    var w := s.PhaseOf(steps[i].pid);
    assert WorkerOk(cfg, m, s.store, w);
    var source := w.claim.ticket.source;
    assert FileOk(m, source, s.store.inbox[source]);
    ComparisonExact(cfg, s.store.inbox[source], s.store.processed, steps[i].order, w.sha, w.cache);
  }
}
