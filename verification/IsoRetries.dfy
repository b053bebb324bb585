/** Failures charged to a file that stays in the inbox of the ISO queue. Their number is what
    its entry shows, and stays below the limit; the charge that would reach it sets the file
    aside. The one exception is proved to be exact: a failed look at a file that has not changed
    is taken for a change and forgets the failures. */
module IsoRetries {
  import opened Wrappers
  import opened IsoQueue
  import opened IsoRuns
  import opened IsoConservation
  import opened IsoCache

  // ---- a lease and the signature it was given for ----

  ghost predicate FullInbox(s: Store) {
    forall n :: n in s.inbox ==> Full(s.inbox[n].signature)
  }

  /** While its lease lasts, a claim agrees with its entry on what the file looks like. */
  ghost predicate ClaimMatches(s: Store, c: Claim) {
    c.local.signature.Some? && Full(c.local.signature.value) &&
    (Owned(s, c.ticket) ==> s.sources[c.ticket.source].signature == c.local.signature)
  }

  ghost predicate ClaimsInv(s: System) {
    LeaseInv(s) && FullInbox(s.store) && forall pid :: s.PhaseOf(pid).Active() ==> ClaimMatches(s.store, s.PhaseOf(pid).claim)
  }

  /** Files show a full signature, as the operating system reports it. */
  predicate Reported(step: Step) {
    step.Upload? || step.Modify? ==> Full(step.file.signature)
  }

  lemma {:induction false} ClaimSignatures(cfg: Config, sources: map<Name, Entry>, listing: seq<Name>,
                                           view: View, workerId: string, leaseId: string, now: int)
    requires forall n :: n in view.stat ==> Full(view.stat[n])
    ensures SignaturesKept(sources, ClaimFrom(cfg, sources, listing, view, workerId, leaseId, now).0,
                           Some((workerId, leaseId)))
    decreases |listing|
  {
    if listing != [] {
      var source, rest := listing[0], listing[1..];
      if source !in view.stat {
        ClaimSignatures(cfg, sources, rest, view, workerId, leaseId, now);
      } else {
        var known := Known(sources, source);
        var (e, ready) := Inspect(cfg, known, view.stat[source], now);
        if FullAt(sources, source) && SignaturesMatch(known.signature, view.stat[source]) {
          FullMatch(known.signature.value, view.stat[source]);
        }
        ClaimSignatures(cfg, sources[source := e], rest, view, workerId, leaseId, now);
        ClaimLeases(cfg, sources[source := e], rest, view, workerId, leaseId, now);
      }
    }
  }

  lemma {:induction false} StepSignatures(cfg: Config, s: System, step: Step)
    requires FullInbox(s.store) && Enabled(s, step)
    ensures SignaturesKept(s.store.sources, Next(cfg, s, step).store.sources, NewLease(step))
  {
    match step {
      case ClaimStep(pid, workerId, leaseId, listing, restat, now) =>
        var view := View(Signatures(s.store.inbox), restat, s.Released(pid).locks.Keys);
        ClaimNextSignatures(cfg, s.store, listing, view, workerId, leaseId, now);
      case CheckFails(pid, now, aside, crash) =>
        ChargedSignatures(cfg, s.store, s.PhaseOf(pid).claim.ticket, CheckFailed, None, now, aside, crash);
      case FailStep(pid, now, aside, crash) =>
        var c := s.PhaseOf(pid).claim;
        ChargedSignatures(cfg, s.store, c.ticket, Retrying, c.local.plan, now, aside, crash);
      case Commit(pid, aside, crash) =>
        var w := s.PhaseOf(pid);
        CheckedSignatures(s.store, w.claim.ticket, w.claim.local.signature, w.finding, aside, crash);
      case _ => OtherSignatures(cfg, s, step);
    }
  }

  lemma {:induction false} OtherSignatures(cfg: Config, s: System, step: Step)
    requires Enabled(s, step) && !OnQueue(step)
    ensures SignaturesKept(s.store.sources, Next(cfg, s, step).store.sources, None)
  {
    if OnEntry(step) {
      EntryStep(cfg, s, step);
    } else {
      SourcesKept(cfg, s, step);
    }
  }

  lemma {:induction false} LiveKept(sources: map<Name, Entry>, listing: seq<Name>, after: map<Name, Entry>,
                                    except: Option<(string, string)>)
    requires SignaturesKept(map m | m in sources && m in listing :: sources[m], after, except)
    requires forall n :: n in after ==> n in listing
    ensures SignaturesKept(sources, after, except)
  {
  }

  lemma {:induction false} ClaimNextSignatures(cfg: Config, s: Store, listing: seq<Name>, view: View,
                                               workerId: string, leaseId: string, now: int)
    requires forall n :: n in view.stat ==> Full(view.stat[n])
    ensures SignaturesKept(s.sources, ClaimNext(cfg, s, listing, view, workerId, leaseId, now).0.sources,
                           Some((workerId, leaseId)))
  {
    var live := map m | m in s.sources && m in listing :: s.sources[m];
    ClaimSignatures(cfg, live, listing, view, workerId, leaseId, now);
    ClaimOnlyListed(cfg, live, listing, view, workerId, leaseId, now);
    LiveKept(s.sources, listing, ClaimFrom(cfg, live, listing, view, workerId, leaseId, now).0,
             Some((workerId, leaseId)));
  }

  lemma {:induction false} ChargedSignatures(cfg: Config, s: Store, t: Ticket, status: Status, plan: Option<string>,
                                             now: int, aside: set<Name>, crash: bool)
    ensures SignaturesKept(s.sources, Charged(cfg, s, t, status, plan, now, aside, crash).sources, None)
  {
  }

  lemma {:induction false} CheckedSignatures(s: Store, t: Ticket, signature: Option<Signature>, f: Finding,
                                             aside: set<Name>, crash: bool)
    ensures SignaturesKept(s.sources, Checked(s, t, signature, f, aside, crash).sources, None)
  {
  }

  /** A move adds nothing to the inbox. */
  lemma {:induction false} MovedInbox(s: Store, source: Name, shelf: Shelf, aside: set<Name>)
    requires source in s.inbox
    ensures Moved(s, source, shelf, aside).0.inbox == s.inbox - {source}
  {
  }

  lemma {:induction false} MovesFromInbox(s: Store, after: Store)
    requires MovesAtMostOne(s, after)
    ensures forall n :: n in after.inbox ==> n in s.inbox && after.inbox[n] == s.inbox[n]
  {
    if !SameFiles(s, after) {
      var source, shelf, aside :| source in s.inbox && SameFiles(after, Moved(s, source, shelf, aside).0);
      MovedInbox(s, source, shelf, aside);
    }
  }

  lemma {:induction false} FullInboxStep(cfg: Config, s: System, step: Step)
    requires FullInbox(s.store) && Enabled(s, step) && Reported(step)
    ensures FullInbox(Next(cfg, s, step).store)
  {
    if Actor(step).Some? {
      WorkerMoves(cfg, s, step);
      MovesFromInbox(s.store, Next(cfg, s, step).store);
    }
  }

  /** A claim in progress keeps the signature it was made for. */
  lemma {:induction false} ClaimKept(cfg: Config, s: System, step: Step, pid: Pid)
    requires ClaimsInv(s) && Enabled(s, step) && s.PhaseOf(pid).Active() && Next(cfg, s, step).PhaseOf(pid).Active()
    requires step.ClaimStep? ==> step.pid != pid
    ensures SameClaim(s.PhaseOf(pid), Next(cfg, s, step).PhaseOf(pid))
  {
    assert ClaimMatches(s.store, s.PhaseOf(pid).claim);
    if Actor(step) != Some(pid) {
      OtherPhase(cfg, s, step, pid);
    } else if step.Commit? {
      var w := s.PhaseOf(pid);
      CheckedKeeps(s.store, w.claim, w.finding, step.aside, step.crash);
    } else {
      OwnClaimKept(cfg, s, step);
    }
  }

  predicate SameClaim(before: Phase, after: Phase) {
    before.Active() && after.Active() &&
    after.claim.ticket == before.claim.ticket && after.claim.local.signature == before.claim.local.signature
  }

  lemma {:induction false} OwnClaimKept(cfg: Config, s: System, step: Step)
    requires Enabled(s, step) && Actor(step).Some? && !step.ClaimStep? && !step.Commit? && s.PhaseOf(step.pid).Active()
    ensures Next(cfg, s, step).PhaseOf(step.pid).Active() ==>
              SameClaim(s.PhaseOf(step.pid), Next(cfg, s, step).PhaseOf(step.pid))
  {
  }

  lemma {:induction false} CheckedKeeps(s: Store, c: Claim, f: Finding, aside: set<Name>, crash: bool)
    requires ClaimMatches(s, c)
    ensures var after := Checked(s, c.ticket, c.local.signature, f, aside, crash);
            Owned(s, c.ticket) && c.ticket.source in after.sources ==>
              after.sources[c.ticket.source].signature == c.local.signature
  {
  }

  lemma {:induction false} NewClaim(cfg: Config, s: System, step: Step)
    requires ClaimsInv(s) && Enabled(s, step) && step.ClaimStep? && Next(cfg, s, step).PhaseOf(step.pid).Active()
    ensures ClaimMatches(Next(cfg, s, step).store, Next(cfg, s, step).PhaseOf(step.pid).claim)
  {
    var view := View(Signatures(s.store.inbox), step.restat, s.Released(step.pid).locks.Keys);
    var live := map m | m in s.store.sources && m in step.listing :: s.store.sources[m];
    ClaimLeases(cfg, live, step.listing, view, step.workerId, step.leaseId, step.now);
  }

  lemma {:induction false} StillMatches(cfg: Config, s: System, step: Step, pid: Pid)
    requires ClaimsInv(s) && Enabled(s, step) && s.PhaseOf(pid).Active() && Next(cfg, s, step).PhaseOf(pid).Active()
    requires step.ClaimStep? ==> step.pid != pid
    ensures ClaimMatches(Next(cfg, s, step).store, Next(cfg, s, step).PhaseOf(pid).claim)
  {
    var t := s.PhaseOf(pid).claim.ticket;
    assert TicketInv(s, t) && ClaimMatches(s.store, s.PhaseOf(pid).claim);
    ClaimKept(cfg, s, step, pid);
    if Owned(Next(cfg, s, step).store, t) {
      OtherLease(cfg, s, step, t);
      StepSignatures(cfg, s, step);
      assert LeaseAt(Next(cfg, s, step).store.sources, t.source) == Some((t.workerId, t.leaseId)) != NewLease(step);
    }
  }

  lemma {:induction false} ClaimsInvStep(cfg: Config, s: System, step: Step)
    requires ClaimsInv(s) && Enabled(s, step) && Reported(step)
    ensures ClaimsInv(Next(cfg, s, step))
  {
    var s' := Next(cfg, s, step);
    LeaseInvStep(cfg, s, step);
    FullInboxStep(cfg, s, step);
    forall pid: Pid | s'.PhaseOf(pid).Active()
      ensures ClaimMatches(s'.store, s'.PhaseOf(pid).claim)
    {
      if step.ClaimStep? && step.pid == pid {
        NewClaim(cfg, s, step);
      } else {
        ActiveBefore(cfg, s, step, pid);
        StillMatches(cfg, s, step, pid);
      }
    }
  }

  lemma {:induction false} ActiveBefore(cfg: Config, s: System, step: Step, pid: Pid)
    requires Enabled(s, step) && Next(cfg, s, step).PhaseOf(pid).Active() && (step.ClaimStep? ==> step.pid != pid)
    ensures s.PhaseOf(pid).Active()
  {
    if !step.ClaimStep? {
      StepTickets(cfg, s, step);
    }
  }

  lemma {:induction false} ClaimsInvRun(cfg: Config, states: seq<System>, steps: seq<Step>, i: nat)
    requires Run(cfg, states, steps) && ClaimsInv(states[0]) && i <= |steps|
    requires forall k :: 0 <= k < |steps| ==> Reported(steps[k])
    ensures ClaimsInv(states[i])
  {
    if i > 0 {
      ClaimsInvRun(cfg, states, steps, i - 1);
      RunStep(cfg, states, steps, i - 1);
      ClaimsInvStep(cfg, states[i - 1], steps[i - 1]);
    }
  }

  // ---- charges ----

  /** Failures charged so far to the file that now has this name in the inbox; an entry
      that describes an older file does not count. */
  function Attempts(s: Store, n: Name): nat
    requires n in s.inbox
  {
    if n in s.sources && SignaturesMatch(s.sources[n].signature, s.inbox[n].signature) then s.sources[n].attempts
    else 0
  }

  function Limit(cfg: Config): nat {
    if cfg.maxAttempts > 1 then cfg.maxAttempts else 1
  }

  /** The step charges a failure to this file. */
  predicate Charges(s: System, step: Step, n: Name) {
    Enabled(s, step) && n in s.store.inbox &&
    (step.CheckFails? || step.FailStep?) && !step.crash &&
    var t := s.PhaseOf(step.pid).claim.ticket;
    t.source == n && Owned(s.store, t) && SignaturesMatch(s.store.sources[n].signature, s.store.inbox[n].signature)
  }

  /** The file stays as it is. */
  ghost predicate Undisturbed(cfg: Config, s: System, step: Step, n: Name) {
    Enabled(s, step) && n in s.store.inbox && n in Next(cfg, s, step).store.inbox &&
    Next(cfg, s, step).store.inbox[n] == s.store.inbox[n]
  }

  /** A look at the file fails, and a change is reported, although it is the very file that was
      claimed and has failures to forget. */
  predicate Forgets(s: System, step: Step, n: Name) {
    Enabled(s, step) && step.StatErrorStep? && n in s.store.inbox &&
    var c := s.PhaseOf(step.pid).claim;
    c.ticket.source == n && Owned(s.store, c.ticket) && Unchanged(s.store, n, c.local.signature) &&
    Attempts(s.store, n) > 0
  }

  lemma {:induction false} ClaimAttempts(cfg: Config, sources: map<Name, Entry>, listing: seq<Name>, view: View,
                                         workerId: string, leaseId: string, now: int, n: Name)
    requires n in view.stat && "size" in view.stat[n] && "mtime_ns" in view.stat[n]
    ensures var after := ClaimFrom(cfg, sources, listing, view, workerId, leaseId, now).0;
            EntryAttempts(after, n, view.stat[n]) == EntryAttempts(sources, n, view.stat[n])
    decreases |listing|
  {
    if listing != [] {
      var source, rest := listing[0], listing[1..];
      if source !in view.stat {
        ClaimAttempts(cfg, sources, rest, view, workerId, leaseId, now, n);
      } else {
        var (e, ready) := Inspect(cfg, Known(sources, source), view.stat[source], now);
        ClaimAttempts(cfg, sources[source := e], rest, view, workerId, leaseId, now, n);
      }
    }
  }

  function EntryAttempts(sources: map<Name, Entry>, n: Name, signature: Signature): nat {
    if n in sources && SignaturesMatch(sources[n].signature, signature) then sources[n].attempts else 0
  }

  /** A step charges the file or leaves its failures as they are, unless it forgets them. */
  ghost predicate Counts(cfg: Config, s: System, step: Step, n: Name) {
    Undisturbed(cfg, s, step, n) &&
    var before, after := Attempts(s.store, n), Attempts(Next(cfg, s, step).store, n);
    if Forgets(s, step, n) then after == 0 && !Charges(s, step, n)
    else if Charges(s, step, n) then after == before + 1 && before + 1 < Limit(cfg)
    else after == before
  }

  lemma {:induction false} UndisturbedStep(cfg: Config, s: System, step: Step, n: Name)
    requires ClaimsInv(s) && Undisturbed(cfg, s, step, n)
    ensures Counts(cfg, s, step, n)
  {
    if step.ClaimStep? {
      ClaimStepAttempts(cfg, s, step, n);
    } else if step.CheckFails? || step.FailStep? {
      ChargeStepAttempts(cfg, s, step, n);
    } else if step.Commit? {
      CommitAttempts(cfg, s, step, n);
    } else if step.ChangedStep? || step.StatErrorStep? {
      ResetAttempts(cfg, s, step, n);
    } else {
      OtherAttempts(cfg, s, step, n);
    }
  }

  lemma {:induction false} ClaimNextAttempts(cfg: Config, s: Store, listing: seq<Name>, view: View,
                                             workerId: string, leaseId: string, now: int, n: Name)
    requires n in s.inbox && n in listing && Full(s.inbox[n].signature) && view.stat == Signatures(s.inbox)
    ensures var after := ClaimNext(cfg, s, listing, view, workerId, leaseId, now).0;
            after.inbox == s.inbox && Attempts(after, n) == Attempts(s, n)
  {
    SelfMatch(s.inbox[n].signature);
    var live := map m | m in s.sources && m in listing :: s.sources[m];
    ClaimAttempts(cfg, live, listing, view, workerId, leaseId, now, n);
  }

  lemma {:induction false} ClaimStepAttempts(cfg: Config, s: System, step: Step, n: Name)
    requires FullInbox(s.store) && Undisturbed(cfg, s, step, n) && step.ClaimStep?
    ensures Counts(cfg, s, step, n)
  {
    var view := View(Signatures(s.store.inbox), step.restat, s.Released(step.pid).locks.Keys);
    ClaimNextAttempts(cfg, s.store, step.listing, view, step.workerId, step.leaseId, step.now, n);
  }

  lemma {:induction false} ChargeStepAttempts(cfg: Config, s: System, step: Step, n: Name)
    requires Undisturbed(cfg, s, step, n) && (step.CheckFails? || step.FailStep?)
    ensures Counts(cfg, s, step, n)
  {
    var c := s.PhaseOf(step.pid).claim;
    if step.CheckFails? {
      ChargedAttempts(cfg, s.store, c.ticket, CheckFailed, None, step.now, step.aside, step.crash, n);
    } else {
      ChargedAttempts(cfg, s.store, c.ticket, Retrying, c.local.plan, step.now, step.aside, step.crash, n);
    }
  }

  lemma {:induction false} CommitAttempts(cfg: Config, s: System, step: Step, n: Name)
    requires Undisturbed(cfg, s, step, n) && step.Commit?
    ensures Counts(cfg, s, step, n)
  {
    var w := s.PhaseOf(step.pid);
    CheckedAttempts(s.store, w.claim.ticket, w.claim.local.signature, w.finding, step.aside, step.crash, n);
  }

  /** A reported change starts the count anew; only a failed look can do that to the same file. */
  lemma {:induction false} ResetAttempts(cfg: Config, s: System, step: Step, n: Name)
    requires ClaimsInv(s) && Undisturbed(cfg, s, step, n) && (step.ChangedStep? || step.StatErrorStep?)
    ensures Counts(cfg, s, step, n)
  {
    var c := s.PhaseOf(step.pid).claim;
    assert Next(cfg, s, step).store == Reset(s.store, c.ticket, step.now);
    assert ClaimMatches(s.store, c);
    ResetForgets(s.store, c, step.now, n);
  }

  lemma {:induction false} ResetForgets(s: Store, c: Claim, now: int, n: Name)
    requires n in s.inbox && Full(s.inbox[n].signature) && ClaimMatches(s, c)
    ensures Attempts(Reset(s, c.ticket, now), n) == if c.ticket.source == n && Owned(s, c.ticket) then 0 else Attempts(s, n)
    ensures c.ticket.source == n && Owned(s, c.ticket) && !Unchanged(s, n, c.local.signature) ==> Attempts(s, n) == 0
  {
    var g := s.inbox[n].signature;
    if c.ticket.source == n && Owned(s, c.ticket) && SignaturesMatch(c.local.signature, g) {
      FullMatch(c.local.signature.value, g);
    }
  }

  lemma {:induction false} OtherAttempts(cfg: Config, s: System, step: Step, n: Name)
    requires Undisturbed(cfg, s, step, n) && !OnQueue(step) && !step.ChangedStep? && !step.StatErrorStep?
    ensures Counts(cfg, s, step, n)
  {
    if step.CompleteStep? {
      CompleteAttempts(cfg, s, step, n);
    } else if step.RenewStep? || step.InterruptStep? {
      EntryAttemptsKept(cfg, s, step, n);
    } else {
      SourcesKept(cfg, s, step);
    }
  }

  lemma {:induction false} CompleteAttempts(cfg: Config, s: System, step: Step, n: Name)
    requires Undisturbed(cfg, s, step, n) && step.CompleteStep?
    ensures Attempts(Next(cfg, s, step).store, n) == Attempts(s.store, n)
  {
  }

  lemma {:induction false} EntryAttemptsKept(cfg: Config, s: System, step: Step, n: Name)
    requires Undisturbed(cfg, s, step, n) && (step.RenewStep? || step.InterruptStep?)
    ensures Attempts(Next(cfg, s, step).store, n) == Attempts(s.store, n)
  {
  }

  lemma {:induction false} ChargedAttempts(cfg: Config, s: Store, t: Ticket, status: Status, plan: Option<string>,
                                           now: int, aside: set<Name>, crash: bool, n: Name)
    requires n in s.inbox
    ensures var after := Charged(cfg, s, t, status, plan, now, aside, crash);
            n in after.inbox && after.inbox[n] == s.inbox[n] ==>
              var charged := t.source == n && Owned(s, t) && !crash &&
                             SignaturesMatch(s.sources[n].signature, s.inbox[n].signature);
              Attempts(after, n) == Attempts(s, n) + (if charged then 1 else 0) &&
              (charged ==> Attempts(s, n) + 1 < Limit(cfg))
  {
  }

  lemma {:induction false} CheckedAttempts(s: Store, t: Ticket, signature: Option<Signature>, f: Finding,
                                           aside: set<Name>, crash: bool, n: Name)
    requires n in s.inbox
    ensures var after := Checked(s, t, signature, f, aside, crash);
            n in after.inbox && after.inbox[n] == s.inbox[n] ==> Attempts(after, n) == Attempts(s, n)
  {
  }

  /** A charge that reaches the limit sets the file aside instead. */
  lemma {:induction false} LastChargeSetsAside(cfg: Config, s: Store, t: Ticket, status: Status,
                                               plan: Option<string>, now: int, aside: set<Name>, crash: bool)
    requires Owned(s, t) && t.source in s.inbox && s.sources[t.source].attempts + 1 >= cfg.maxAttempts
    ensures var after := Charged(cfg, s, t, status, plan, now, aside, crash);
            t.source !in after.inbox && s.inbox[t.source] in after.failed.Values
  {
    var (m, dest) := Moved(s, t.source, Failed, aside);
    assert dest in m.failed && m.failed[dest] == s.inbox[t.source];
  }

  function ChargeCount(states: seq<System>, steps: seq<Step>, i: nat, j: nat, n: Name): nat
    requires i <= j <= |steps| < |states|
    decreases j
  {
    if i == j then 0
    else ChargeCount(states, steps, i, j - 1, n) + if Charges(states[j - 1], steps[j - 1], n) then 1 else 0
  }

  /** A file with two failures whose worker takes one failed look for a change: they are forgotten. */
  lemma {:induction false} FailedLook(cfg: Config) returns (s: System, step: Step)
    ensures ClaimsInv(s) && Undisturbed(cfg, s, step, "disc.iso") && Forgets(s, step, "disc.iso")
    ensures Attempts(s.store, "disc.iso") == 2 && Attempts(Next(cfg, s, step).store, "disc.iso") == 0
  {
    var g := map["size" := 4096, "mtime_ns" := 1, "ctime_ns" := 1];
    var e := Entry(Some(g), Some(0), 2, None, Some(Lease("worker", "lease", 60, 120)), Processing, None, None);
    var store := Store(map["disc.iso" := e], map[], map["disc.iso" := File(1, "video", g)], map[], map[], map[]);
    var claim := Claim(Ticket("disc.iso", "worker", "lease"), e);
    s := System(store, map[0 := Working(claim)], map["disc.iso" := 0], {"lease"}, {1});
    step := StatErrorStep(0, 90);
    SelfMatch(g);
    assert forall n :: LeaseAt(store.sources, n).Some? ==> n == "disc.iso";
  }

  /** The file stays in the inbox as it is from one moment to another. */
  ghost predicate Lies(cfg: Config, states: seq<System>, steps: seq<Step>, i: nat, j: nat, n: Name)
    requires i <= j <= |steps| < |states|
  {
    n in states[i].store.inbox && forall k: nat :: i <= k < j ==> UndisturbedAt(cfg, states, steps, k, n)
  }

  ghost predicate UndisturbedAt(cfg: Config, states: seq<System>, steps: seq<Step>, k: nat, n: Name)
    requires k < |steps| < |states|
  {
    Undisturbed(cfg, states[k], steps[k], n)
  }

  predicate ForgetsAt(states: seq<System>, steps: seq<Step>, k: nat, n: Name)
    requires k < |steps| < |states|
  {
    Forgets(states[k], steps[k], n)
  }

  predicate ForgetsIn(states: seq<System>, steps: seq<Step>, i: nat, j: nat, n: Name)
    requires i <= j <= |steps| < |states|
  {
    exists k: nat :: i <= k < j && ForgetsAt(states, steps, k, n)
  }

  /** While a file lies undisturbed in the inbox, the failures charged to it are exactly what
      its entry shows, if and only if none are forgotten in between; and then they stay below
      the limit, since the charge that would reach it sets the file aside. Interrupts,
      renewals, crashes, claims and reports of changes to an older file charge nothing. */
  lemma {:induction false} BoundedRetries(
    cfg: Config, states: seq<System>, steps: seq<Step>, i: nat, j: nat, n: Name)
    requires Run(cfg, states, steps) && i <= j <= |steps| && Lies(cfg, states, steps, i, j, n)
    requires ClaimsInv(states[0]) && forall k :: 0 <= k < |steps| ==> Reported(steps[k])
    ensures n in states[j].store.inbox
    ensures ChargeCount(states, steps, i, j, n) + Attempts(states[i].store, n) >= Attempts(states[j].store, n)
    ensures ChargeCount(states, steps, i, j, n) + Attempts(states[i].store, n) == Attempts(states[j].store, n) <==>
            !ForgetsIn(states, steps, i, j, n)
    ensures !ForgetsIn(states, steps, i, j, n) && ChargeCount(states, steps, i, j, n) > 0 ==>
            Attempts(states[j].store, n) < Limit(cfg)
    decreases j - i
  {
    if i < j {
      BoundedRetries(cfg, states, steps, i, j - 1, n);
      CountStep(cfg, states, steps, j - 1, n);
      ForgetsNext(states, steps, i, j, n);
    }
  }

  lemma {:induction false} ForgetsNext(states: seq<System>, steps: seq<Step>, i: nat, j: nat, n: Name)
    requires i < j <= |steps| < |states|
    ensures ForgetsIn(states, steps, i, j, n) <==>
            ForgetsIn(states, steps, i, j - 1, n) || ForgetsAt(states, steps, j - 1, n)
  {
  }

  lemma {:induction false} CountStep(cfg: Config, states: seq<System>, steps: seq<Step>, k: nat, n: Name)
    requires Run(cfg, states, steps) && k < |steps| && UndisturbedAt(cfg, states, steps, k, n)
    requires ClaimsInv(states[0]) && forall i :: 0 <= i < |steps| ==> Reported(steps[i])
    ensures n in states[k].store.inbox && n in states[k + 1].store.inbox
    ensures var before, after := Attempts(states[k].store, n), Attempts(states[k + 1].store, n);
            if ForgetsAt(states, steps, k, n) then before > 0 == after && !Charges(states[k], steps[k], n)
            else if Charges(states[k], steps[k], n) then after == before + 1 && before + 1 < Limit(cfg)
            else after == before
  {
    ClaimsInvRun(cfg, states, steps, k);
    RunStep(cfg, states, steps, k);
    UndisturbedStep(cfg, states[k], steps[k], n);
  }
}
