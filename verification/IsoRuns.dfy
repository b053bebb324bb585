/** Runs of any number of import workers over one queue: claims, lease renewals, duplicate
    checks, completions, failures, interrupts, crashes at any point, lost source locks,
    and changes of the inbox from outside. Safety is proved over every run. */
module IsoRuns {
  import opened Wrappers
  import opened IsoQueue

  type Pid = nat

  /** A claim as its worker remembers it, with its own copy of the entry. */
  datatype Claim = Claim(ticket: Ticket, local: Entry)

  datatype Phase =
    | Stopped
    | Idle
    | Claiming(claim: Claim)
    | Cached(claim: Claim, cache: map<Name, string>, sha: Option<string>)
    | Compared(claim: Claim, finding: Finding)
    | Working(claim: Claim)
  {
    predicate Active() {
      !Stopped? && !Idle?
    }
  }

  datatype System = System(
    store: Store, workers: map<Pid, Phase>, locks: map<Name, Pid>, issued: set<string>, isos: set<nat>)
  {
    function PhaseOf(pid: Pid): Phase {
      if pid in workers then workers[pid] else Stopped
    }

    function At(pid: Pid, phase: Phase): System {
      this.(workers := workers[pid := phase])
    }

    /** The worker ends and its source locks with it. */
    function Ended(pid: Pid): System {
      Released(pid).At(pid, Stopped)
    }

    function Released(pid: Pid): System {
      this.(locks := map n | n in locks && locks[n] != pid :: locks[n])
    }
  }

  /** A change is reported when the file no longer is the one that was claimed, and also when
      looking at it failed once, whatever the file is by then: that is `StatErrorStep`. */
  datatype Step =
    | Start(pid: Pid)
    | ClaimStep(pid: Pid, workerId: string, leaseId: string, listing: seq<Name>, restat: map<Name, Signature>, now: int)
    | ReadCache(pid: Pid)
    | Compare(pid: Pid, order: seq<Name>)
    | CheckFails(pid: Pid, now: int, aside: set<Name>, crash: bool)
    | Commit(pid: Pid, aside: set<Name>, crash: bool)
    | RenewStep(pid: Pid, plan: Option<string>, now: int)
    | CompleteStep(pid: Pid, aside: set<Name>, crash: bool)
    | FailStep(pid: Pid, now: int, aside: set<Name>, crash: bool)
    | ChangedStep(pid: Pid, now: int)
    | StatErrorStep(pid: Pid, now: int)
    | InterruptStep(pid: Pid)
    | LeaseLost(pid: Pid)
    | Crash(pid: Pid)
    | LoseLock(name: Name)
    | Upload(name: Name, file: File)
    | Modify(name: Name, file: File)
    | Withdraw(name: Name)

  function Signatures(d: Dir): map<Name, Signature> {
    map n | n in d :: d[n].signature
  }

  predicate Lists(listing: seq<Name>, names: set<Name>) {
    (forall k :: 0 <= k < |listing| ==> listing[k] in names) && forall n :: n in names ==> n in listing
  }

  function ArchivedIsos(s: Store): set<Name> {
    set n | n in s.processed && Globbed(n)
  }

  predicate Enabled(s: System, step: Step) {
    match step
    case Start(pid) => s.PhaseOf(pid).Stopped?
    case ClaimStep(pid, _, leaseId, listing, _, _) =>
      s.PhaseOf(pid).Idle? && leaseId !in s.issued && Lists(listing, s.store.inbox.Keys)
    case ReadCache(pid) => s.PhaseOf(pid).Claiming?
    case Compare(pid, order) =>
      s.PhaseOf(pid).Cached? && Lists(order, ArchivedIsos(s.store)) &&
      var c := s.PhaseOf(pid).claim; Unchanged(s.store, c.ticket.source, c.local.signature)
    case CheckFails(pid, _, _, _) => s.PhaseOf(pid).Cached?
    case Commit(pid, _, _) => s.PhaseOf(pid).Compared?
    case RenewStep(pid, _, _) => s.PhaseOf(pid).Working?
    case CompleteStep(pid, _, _) => s.PhaseOf(pid).Working?
    case FailStep(pid, _, _, _) => s.PhaseOf(pid).Working?
    case ChangedStep(pid, _) =>
      (s.PhaseOf(pid).Cached? || s.PhaseOf(pid).Working?) &&
      var c := s.PhaseOf(pid).claim; !Unchanged(s.store, c.ticket.source, c.local.signature)
    case StatErrorStep(pid, _) => s.PhaseOf(pid).Cached? || s.PhaseOf(pid).Working?
    case InterruptStep(pid) => s.PhaseOf(pid).Working?
    case LeaseLost(pid) => s.PhaseOf(pid).Working?
    case Crash(pid) => !s.PhaseOf(pid).Stopped?
    case LoseLock(_) => true
    case Upload(name, file) => name !in s.store.inbox && file.iso !in s.isos
    case Modify(name, file) => name in s.store.inbox && file.iso == s.store.inbox[name].iso
    case Withdraw(name) => name in s.store.inbox
  }

  function Next(cfg: Config, s: System, step: Step): System
    requires Enabled(s, step)
  {
    match step
    case Start(pid) => s.At(pid, Idle)
    case ClaimStep(pid, workerId, leaseId, listing, restat, now) =>
      var free := s.Released(pid);
      var view := View(Signatures(s.store.inbox), restat, free.locks.Keys);
      var (store, source) := ClaimNext(cfg, s.store, listing, view, workerId, leaseId, now);
      var after := free.(store := store, issued := s.issued + {leaseId});
      if source.None? then after.Ended(pid)
      else
        var claim := Claim(Ticket(source.value, workerId, leaseId), store.sources[source.value]);
        after.(locks := free.locks[source.value := pid]).At(pid, Claiming(claim))
    case ReadCache(pid) =>
      var c := s.PhaseOf(pid).claim;
      if !Owned(s.store, c.ticket) then s.At(pid, Idle)
      else s.At(pid, Cached(c, s.store.hashes, s.store.sources[c.ticket.source].sha256))
    case Compare(pid, order) =>
      var w := s.PhaseOf(pid);
      var file := s.store.inbox[w.claim.ticket.source];
      s.At(pid, Compared(w.claim, FindDuplicate(cfg, file, s.store.processed, order, w.sha, w.cache)))
    case CheckFails(pid, now, aside, crash) =>
      var t := s.PhaseOf(pid).claim.ticket;
      var after := s.(store := Charged(cfg, s.store, t, CheckFailed, None, now, aside, crash));
      if crash || !Owned(s.store, t) then after.Ended(pid) else after.At(pid, Idle)
    case Commit(pid, aside, crash) =>
      var w := s.PhaseOf(pid);
      var t := w.claim.ticket;
      var after := s.(store := Checked(s.store, t, w.claim.local.signature, w.finding, aside, crash));
      if crash || !Owned(s.store, t) || !Unchanged(s.store, t.source, w.claim.local.signature) then after.Ended(pid)
      else if t.source !in after.store.sources then after.At(pid, Idle)
      else after.At(pid, Working(Claim(t, after.store.sources[t.source])))
    case RenewStep(pid, plan, now) =>
      var c := s.PhaseOf(pid).claim;
      var (store, ok) := Renewed(cfg, s.store, c.ticket, plan, now);
      var local := if plan.Some? then c.local.(plan := plan) else c.local;
      s.(store := store).At(pid, if ok then Working(Claim(c.ticket, local)) else Idle)
    case CompleteStep(pid, aside, crash) =>
      var c := s.PhaseOf(pid).claim;
      var t := c.ticket;
      if !Owned(s.store, t) then s.At(pid, Idle)
      else if !Unchanged(s.store, t.source, c.local.signature) then s
      else
        var digest := if c.local.sha256.Some? then c.local.sha256.value
                      else cfg.sha(s.store.inbox[t.source].content);
        var after := s.(store := Completed(s.store, t, c.local.signature, digest, aside, crash));
        if crash then after.Ended(pid) else after.At(pid, Idle)
    case FailStep(pid, now, aside, crash) =>
      var c := s.PhaseOf(pid).claim;
      var after := s.(store := Charged(cfg, s.store, c.ticket, Retrying, c.local.plan, now, aside, crash));
      if crash then after.Ended(pid) else after.At(pid, Idle)
    case ChangedStep(pid, now) => s.(store := Reset(s.store, s.PhaseOf(pid).claim.ticket, now)).At(pid, Idle)
    case StatErrorStep(pid, now) => s.(store := Reset(s.store, s.PhaseOf(pid).claim.ticket, now)).At(pid, Idle)
    case InterruptStep(pid) =>
      var c := s.PhaseOf(pid).claim;
      s.(store := InterruptedBy(s.store, c.ticket, c.local.plan)).Ended(pid)
    case LeaseLost(pid) => s.At(pid, Idle)
    case Crash(pid) => s.Ended(pid)
    case LoseLock(name) => s.(locks := s.locks - {name})
    case Upload(name, file) =>
      s.(store := s.store.(inbox := s.store.inbox[name := file]), isos := s.isos + {file.iso})
    case Modify(name, file) => s.(store := s.store.(inbox := s.store.inbox[name := file]))
    case Withdraw(name) => s.(store := s.store.(inbox := s.store.inbox - {name}))
  }

  ghost predicate StepAt(cfg: Config, states: seq<System>, steps: seq<Step>, i: nat)
    requires i < |steps| && i + 1 < |states|
  {
    Enabled(states[i], steps[i]) && states[i + 1] == Next(cfg, states[i], steps[i])
  }

  ghost predicate Run(cfg: Config, states: seq<System>, steps: seq<Step>) {
    |states| == |steps| + 1 && forall i: nat :: i < |steps| ==> StepAt(cfg, states, steps, i)
  }

  lemma {:induction false} RunStep(cfg: Config, states: seq<System>, steps: seq<Step>, i: nat)
    requires Run(cfg, states, steps) && i < |steps|
    ensures Enabled(states[i], steps[i]) && states[i + 1] == Next(cfg, states[i], steps[i])
  {
    assert StepAt(cfg, states, steps, i);
  }

  /** The worker that takes a step; steps of the environment have none. */
  function Actor(step: Step): Option<Pid> {
    if step.LoseLock? || step.Upload? || step.Modify? || step.Withdraw? then None else Some(step.pid)
  }

  // ---- lease fencing ----

  /** The worker and lease ids recorded on an entry. */
  function LeaseAt(sources: map<Name, Entry>, n: Name): Option<(string, string)> {
    if n in sources && sources[n].lease.Some? then
      Some((sources[n].lease.value.workerId, sources[n].lease.value.leaseId))
    else None
  }

  /** No entry but the excepted one has a lease it did not have before. */
  ghost predicate KeepsLeases(before: map<Name, Entry>, after: map<Name, Entry>, except: Option<Name>) {
    forall n :: LeaseAt(after, n).Some? && Some(n) != except ==> LeaseAt(after, n) == LeaseAt(before, n)
  }

  lemma {:induction false} ClaimLeases(cfg: Config, sources: map<Name, Entry>, listing: seq<Name>, view: View,
                                       workerId: string, leaseId: string, now: int)
    ensures var (after, source) := ClaimFrom(cfg, sources, listing, view, workerId, leaseId, now);
            KeepsLeases(sources, after, source) &&
            (source.Some? ==>
               LeaseAt(after, source.value) == Some((workerId, leaseId)) && source.value in listing &&
               source.value !in view.busy && source.value in view.stat &&
               after[source.value].signature == Some(view.stat[source.value]))
    decreases |listing|
  {
    if listing != [] {
      var source, rest := listing[0], listing[1..];
      if source !in view.stat {
        ClaimLeases(cfg, sources, rest, view, workerId, leaseId, now);
      } else {
        var (e, ready) := Inspect(cfg, Known(sources, source), view.stat[source], now);
        ClaimLeases(cfg, sources[source := e], rest, view, workerId, leaseId, now);
      }
    }
  }

  /** What is claimed is a listed file whose entry is settled and due, unlocked, and unchanged
      between the look at the inbox and the look under its lock. */
  lemma {:induction false} ClaimIsDue(cfg: Config, sources: map<Name, Entry>, listing: seq<Name>, view: View,
                                      workerId: string, leaseId: string, now: int)
    requires cfg.settleSeconds > 0 && forall i, j :: 0 <= i < j < |listing| ==> listing[i] != listing[j]
    ensures var (after, source) := ClaimFrom(cfg, sources, listing, view, workerId, leaseId, now);
            source.Some? ==>
              source.value in listing && source.value in sources && source.value !in view.busy &&
              source.value in view.stat && source.value in view.restat &&
              view.restat[source.value] == view.stat[source.value] &&
              IsDue(cfg, sources[source.value], view.stat[source.value], now) &&
              after[source.value].attempts == sources[source.value].attempts
    decreases |listing|
  {
    if listing != [] {
      var source, rest := listing[0], listing[1..];
      assert forall k :: 0 <= k < |rest| ==> rest[k] == listing[k + 1] && rest[k] != source;
      if source !in view.stat {
        ClaimIsDue(cfg, sources, rest, view, workerId, leaseId, now);
      } else {
        var (e, ready) := Inspect(cfg, Known(sources, source), view.stat[source], now);
        ClaimIsDue(cfg, sources[source := e], rest, view, workerId, leaseId, now);
      }
    }
  }

  /** The file has not changed for long enough, and no retry is being waited for. */
  predicate IsDue(cfg: Config, e: Entry, signature: Signature, now: int) {
    SignaturesMatch(e.signature, signature) && e.unchangedSince.Some? &&
    now - e.unchangedSince.value >= cfg.settleSeconds && (e.retryAfter.Some? ==> now >= e.retryAfter.value)
  }

  /** Lease ids are issued once: distinct entries never share one, and a worker's lease id
      can only be found on the source it claimed, with its name on it. */
  ghost predicate LeaseInv(s: System) {
    (forall n :: LeaseAt(s.store.sources, n).Some? ==> LeaseAt(s.store.sources, n).value.1 in s.issued) &&
    (forall m, n :: m != n && LeaseAt(s.store.sources, m).Some? && LeaseAt(s.store.sources, n).Some? ==>
       LeaseAt(s.store.sources, m).value.1 != LeaseAt(s.store.sources, n).value.1) &&
    forall pid :: s.PhaseOf(pid).Active() ==> TicketInv(s, s.PhaseOf(pid).claim.ticket)
  }

  ghost predicate TicketInv(s: System, t: Ticket) {
    t.leaseId in s.issued &&
    forall n :: LeaseAt(s.store.sources, n).Some? && LeaseAt(s.store.sources, n).value.1 == t.leaseId ==>
      n == t.source && LeaseAt(s.store.sources, n) == Some((t.workerId, t.leaseId))
  }

  /** Every step but a claim leaves leases alone or takes them away. */
  lemma {:induction false} StepLeases(cfg: Config, s: System, step: Step)
    requires Enabled(s, step) && !step.ClaimStep?
    ensures KeepsLeases(s.store.sources, Next(cfg, s, step).store.sources, None)
  {
    match step {
      case CheckFails(pid, now, aside, crash) =>
        ChargedLeases(cfg, s.store, s.PhaseOf(pid).claim.ticket, CheckFailed, None, now, aside, crash);
      case FailStep(pid, now, aside, crash) =>
        var c := s.PhaseOf(pid).claim;
        ChargedLeases(cfg, s.store, c.ticket, Retrying, c.local.plan, now, aside, crash);
      case Commit(pid, aside, crash) =>
        var w := s.PhaseOf(pid);
        CheckedLeases(s.store, w.claim.ticket, w.claim.local.signature, w.finding, aside, crash);
      case _ =>
        if OnEntry(step) {
          EntryStep(cfg, s, step);
        } else {
          SourcesKept(cfg, s, step);
        }
    }
  }

  /** Steps that may rewrite or drop the entry of the claim they are about, and no other. */
  predicate OnEntry(step: Step) {
    step.RenewStep? || step.CompleteStep? || step.ChangedStep? || step.StatErrorStep? || step.InterruptStep?
  }

  /** Steps that decide what becomes of a claim by what happened to its file. */
  predicate OnQueue(step: Step) {
    step.ClaimStep? || step.CheckFails? || step.FailStep? || step.Commit?
  }

  /** At most one entry changes: it is dropped, or loses its lease, or keeps lease and signature. */
  predicate OneEntry(before: map<Name, Entry>, after: map<Name, Entry>, n: Name) {
    after == before || after == before - {n} ||
    (n in before && n in after && after == before[n := after[n]] &&
     (after[n].lease.None? ||
      (LeaseAt(after, n) == LeaseAt(before, n) && after[n].signature == before[n].signature)))
  }

  lemma {:induction false} RenewedEntry(cfg: Config, s: Store, t: Ticket, plan: Option<string>, now: int)
    ensures OneEntry(s.sources, Renewed(cfg, s, t, plan, now).0.sources, t.source)
  {
  }

  lemma {:induction false} ResetEntry(s: Store, t: Ticket, now: int)
    ensures OneEntry(s.sources, Reset(s, t, now).sources, t.source)
  {
  }

  lemma {:induction false} CompletedEntry(s: Store, t: Ticket, signature: Option<Signature>, digest: string,
                                          aside: set<Name>, crash: bool)
    ensures OneEntry(s.sources, Completed(s, t, signature, digest, aside, crash).sources, t.source)
  {
  }

  lemma {:induction false} InterruptedEntry(s: Store, t: Ticket, plan: Option<string>)
    ensures OneEntry(s.sources, InterruptedBy(s, t, plan).sources, t.source)
  {
  }

  lemma {:induction false} EntryStep(cfg: Config, s: System, step: Step)
    requires Enabled(s, step) && OnEntry(step)
    ensures OneEntry(s.store.sources, Next(cfg, s, step).store.sources, s.PhaseOf(step.pid).claim.ticket.source)
  {
    var c := s.PhaseOf(step.pid).claim;
    match step {
      case RenewStep(_, plan, now) => RenewedEntry(cfg, s.store, c.ticket, plan, now);
      case ChangedStep(_, now) => ResetEntry(s.store, c.ticket, now);
      case StatErrorStep(_, now) => ResetEntry(s.store, c.ticket, now);
      case InterruptStep(_) => InterruptedEntry(s.store, c.ticket, c.local.plan);
      case CompleteStep(_, aside, crash) =>
        if Unchanged(s.store, c.ticket.source, c.local.signature) {
          var digest := if c.local.sha256.Some? then c.local.sha256.value
                        else cfg.sha(s.store.inbox[c.ticket.source].content);
          CompletedEntry(s.store, c.ticket, c.local.signature, digest, aside, crash);
        }
    }
  }

  lemma {:induction false} SourcesKept(cfg: Config, s: System, step: Step)
    requires Enabled(s, step) && !OnEntry(step) && !OnQueue(step)
    ensures Next(cfg, s, step).store.sources == s.store.sources
  {
  }

  lemma {:induction false} ChargedLeases(cfg: Config, s: Store, t: Ticket, status: Status, plan: Option<string>,
                                         now: int, aside: set<Name>, crash: bool)
    ensures KeepsLeases(s.sources, Charged(cfg, s, t, status, plan, now, aside, crash).sources, None)
  {
  }

  lemma {:induction false} CheckedLeases(s: Store, t: Ticket, signature: Option<Signature>, f: Finding,
                                         aside: set<Name>, crash: bool)
    ensures KeepsLeases(s.sources, Checked(s, t, signature, f, aside, crash).sources, None)
  {
  }

  /** And starts no claim. */
  lemma {:induction false} StepTickets(cfg: Config, s: System, step: Step)
    requires Enabled(s, step) && !step.ClaimStep?
    ensures Next(cfg, s, step).issued == s.issued
    ensures forall pid :: Next(cfg, s, step).PhaseOf(pid).Active() ==>
      s.PhaseOf(pid).Active() && Next(cfg, s, step).PhaseOf(pid).claim.ticket == s.PhaseOf(pid).claim.ticket
    ensures forall n :: n in s.locks && !step.LoseLock? ==>
      var s' := Next(cfg, s, step); (n in s'.locks && s'.locks[n] == s.locks[n]) || !s'.PhaseOf(s.locks[n]).Active()
  {
  }

  /** A claim gives the new lease to one source and leaves the rest alone or takes it away. */
  lemma {:induction false} ClaimStepLeases(cfg: Config, s: System, step: Step)
    requires Enabled(s, step) && step.ClaimStep?
    ensures var s' := Next(cfg, s, step);
            s'.issued == s.issued + {step.leaseId} &&
            (forall pid :: pid != step.pid ==> s'.PhaseOf(pid) == s.PhaseOf(pid)) &&
            if s'.PhaseOf(step.pid).Active() then
              var t := s'.PhaseOf(step.pid).claim.ticket;
              t.workerId == step.workerId && t.leaseId == step.leaseId &&
              KeepsLeases(s.store.sources, s'.store.sources, Some(t.source)) &&
              LeaseAt(s'.store.sources, t.source) == Some((t.workerId, t.leaseId))
            else KeepsLeases(s.store.sources, s'.store.sources, None)
  {
    var free := s.Released(step.pid);
    var view := View(Signatures(s.store.inbox), step.restat, free.locks.Keys);
    var live := map n | n in s.store.sources && n in step.listing :: s.store.sources[n];
    assert KeepsLeases(s.store.sources, live, None);
    ClaimLeases(cfg, live, step.listing, view, step.workerId, step.leaseId, step.now);
  }

  lemma {:induction false} LeaseInvStep(cfg: Config, s: System, step: Step)
    requires LeaseInv(s) && Enabled(s, step)
    ensures LeaseInv(Next(cfg, s, step))
  {
    if step.ClaimStep? {
      ClaimStepLeases(cfg, s, step);
    } else {
      StepLeases(cfg, s, step);
      StepTickets(cfg, s, step);
    }
  }

  /** A lease that was issued and that no entry carries any more. */
  ghost predicate Retired(s: System, leaseId: string) {
    leaseId in s.issued &&
    forall n :: LeaseAt(s.store.sources, n).Some? ==> LeaseAt(s.store.sources, n).value.1 != leaseId
  }

  lemma {:induction false} RetiredStep(cfg: Config, s: System, step: Step, leaseId: string)
    requires Retired(s, leaseId) && Enabled(s, step)
    ensures Retired(Next(cfg, s, step), leaseId)
  {
    if step.ClaimStep? {
      ClaimStepLeases(cfg, s, step);
    } else {
      StepLeases(cfg, s, step);
      StepTickets(cfg, s, step);
    }
  }

  /** A worker without its lease changes neither the queue nor any directory. */
  lemma {:induction false} FencedStep(cfg: Config, s: System, step: Step, pid: Pid)
    requires Enabled(s, step) && Actor(step) == Some(pid) && s.PhaseOf(pid).Active()
    requires !Owned(s.store, s.PhaseOf(pid).claim.ticket)
    ensures Next(cfg, s, step).store == s.store
  {
  }

  /** Lease fencing over whole runs, with crashes, lost locks and any number of workers:
      once a worker's lease is gone from its entry, nothing it still does under that claim
      changes the queue or moves an ISO, no matter what happens in between. */
  lemma {:induction false} LeaseFencing(
    cfg: Config, states: seq<System>, steps: seq<Step>, i: nat, j: nat, pid: Pid, t: Ticket)
    requires Run(cfg, states, steps) && LeaseInv(states[0]) && i <= j < |steps|
    requires states[i].PhaseOf(pid).Active() && states[i].PhaseOf(pid).claim.ticket == t
    requires !Owned(states[i].store, t)
    requires states[j].PhaseOf(pid).Active() && states[j].PhaseOf(pid).claim.ticket == t
    requires Actor(steps[j]) == Some(pid)
    ensures states[j + 1].store == states[j].store
  {
    LeaseInvRun(cfg, states, steps, i);
    assert TicketInv(states[i], t);
    RetiredRun(cfg, states, steps, i, j, t.leaseId);
    assert !Owned(states[j].store, t) by {
      assert LeaseAt(states[j].store.sources, t.source) != Some((t.workerId, t.leaseId));
    }
    RunStep(cfg, states, steps, j);
    FencedStep(cfg, states[j], steps[j], pid);
  }

  lemma {:induction false} LeaseInvRun(cfg: Config, states: seq<System>, steps: seq<Step>, i: nat)
    requires Run(cfg, states, steps) && LeaseInv(states[0]) && i <= |steps|
    ensures LeaseInv(states[i])
  {
    if i > 0 {
      LeaseInvRun(cfg, states, steps, i - 1);
      RunStep(cfg, states, steps, i - 1);
      LeaseInvStep(cfg, states[i - 1], steps[i - 1]);
    }
  }

  lemma {:induction false} RetiredRun(
    cfg: Config, states: seq<System>, steps: seq<Step>, i: nat, j: nat, leaseId: string)
    requires Run(cfg, states, steps) && i <= j <= |steps| && Retired(states[i], leaseId)
    ensures Retired(states[j], leaseId)
    decreases j - i
  {
    if i < j {
      RetiredRun(cfg, states, steps, i, j - 1, leaseId);
      RunStep(cfg, states, steps, j - 1);
      RetiredStep(cfg, states[j - 1], steps[j - 1], leaseId);
    }
  }

  /** A newer claim of the same source is such an event: it takes the old lease away for good. */
  lemma {:induction false} ClaimReplaces(cfg: Config, s: System, step: Step, pid: Pid)
    requires LeaseInv(s) && Enabled(s, step) && step.ClaimStep? && pid != step.pid
    requires s.PhaseOf(pid).Active() && Next(cfg, s, step).PhaseOf(step.pid).Active()
    requires Next(cfg, s, step).PhaseOf(step.pid).claim.ticket.source == s.PhaseOf(pid).claim.ticket.source
    ensures Retired(Next(cfg, s, step), s.PhaseOf(pid).claim.ticket.leaseId)
  {
    ClaimStepLeases(cfg, s, step);
  }

  // ---- mutual exclusion ----

  ghost predicate LockInv(s: System) {
    forall pid :: s.PhaseOf(pid).Active() ==>
      var n := s.PhaseOf(pid).claim.ticket.source; n in s.locks && s.locks[n] == pid
  }

  lemma {:induction false} LockInvStep(cfg: Config, s: System, step: Step)
    requires LockInv(s) && Enabled(s, step) && !step.LoseLock?
    ensures LockInv(Next(cfg, s, step))
  {
    if step.ClaimStep? {
      var view := View(Signatures(s.store.inbox), step.restat, s.Released(step.pid).locks.Keys);
      var live := map n | n in s.store.sources && n in step.listing :: s.store.sources[n];
      ClaimLeases(cfg, live, step.listing, view, step.workerId, step.leaseId, step.now);
      var s' := Next(cfg, s, step);
      forall pid | s'.PhaseOf(pid).Active()
        ensures var n := s'.PhaseOf(pid).claim.ticket.source; n in s'.locks && s'.locks[n] == pid
      {
        if pid != step.pid {
          assert s.PhaseOf(pid) == s'.PhaseOf(pid);
          var n := s.PhaseOf(pid).claim.ticket.source;
          assert n in s.Released(step.pid).locks;
        }
      }
    } else {
      StepTickets(cfg, s, step);
    }
  }

  /** While no source lock is lost, no two live workers work on the same pathname. */
  lemma {:induction false} MutualExclusion(
    cfg: Config, states: seq<System>, steps: seq<Step>, i: nat, p: Pid, q: Pid)
    requires Run(cfg, states, steps) && LockInv(states[0]) && i <= |steps|
    requires forall k :: 0 <= k < i ==> !steps[k].LoseLock?
    requires states[i].PhaseOf(p).Active() && states[i].PhaseOf(q).Active()
    requires states[i].PhaseOf(p).claim.ticket.source == states[i].PhaseOf(q).claim.ticket.source
    ensures p == q
  {
    LockInvRun(cfg, states, steps, i);
  }

  lemma {:induction false} LockInvRun(cfg: Config, states: seq<System>, steps: seq<Step>, i: nat)
    requires Run(cfg, states, steps) && LockInv(states[0]) && i <= |steps|
    requires forall k :: 0 <= k < i ==> !steps[k].LoseLock?
    ensures LockInv(states[i])
  {
    if i > 0 {
      LockInvRun(cfg, states, steps, i - 1);
      RunStep(cfg, states, steps, i - 1);
      LockInvStep(cfg, states[i - 1], steps[i - 1]);
    }
  }
}
