/** What runs of the ISO queue keep: every ISO stays in exactly one directory, and archived
    files stay where they are. */
module IsoConservation {
  import opened Wrappers
  import opened IsoQueue
  import opened IsoRuns

  // ---- conservation ----

  function Isos(d: Dir): set<nat> {
    set n | n in d :: d[n].iso
  }

  function AllIsos(s: Store): set<nat> {
    Isos(s.inbox) + Isos(s.processed) + Isos(s.failed) + Isos(s.duplicate)
  }

  ghost predicate Distinct(d: Dir) {
    forall m, n :: m in d && n in d && m != n ==> d[m].iso != d[n].iso
  }

  /** No ISO is in two places. */
  ghost predicate Tidy(s: Store) {
    Distinct(s.inbox) && Distinct(s.processed) && Distinct(s.failed) && Distinct(s.duplicate) &&
    Isos(s.inbox) !! Isos(s.processed) !! Isos(s.failed) !! Isos(s.duplicate)
  }

  ghost predicate Extends(before: Dir, after: Dir) {
    forall n :: n in before ==> n in after && after[n] == before[n]
  }

  /** Archived files keep their names and contents. */
  ghost predicate ShelvesKept(before: Store, after: Store) {
    Extends(before.processed, after.processed) && Extends(before.failed, after.failed) &&
    Extends(before.duplicate, after.duplicate)
  }

  lemma {:induction false} IsosPut(d: Dir, n: Name, f: File)
    requires n !in d
    ensures Isos(d[n := f]) == Isos(d) + {f.iso}
  {
    var e := d[n := f];
    forall i | i in Isos(d) + {f.iso}
      ensures i in Isos(e)
    {
      if i in Isos(d) {
        var m :| m in d && d[m].iso == i;
        assert m in e && e[m].iso == i;
      } else {
        assert n in e && e[n].iso == i;
      }
    }
  }

  lemma {:induction false} IsosTaken(d: Dir, n: Name)
    requires n in d && Distinct(d)
    ensures Isos(d - {n}) == Isos(d) - {d[n].iso}
  {
    var e := d - {n};
    forall i | i in Isos(d) - {d[n].iso}
      ensures i in Isos(e)
    {
      var m :| m in d && d[m].iso == i;
      assert m in e && e[m].iso == i;
    }
  }

  lemma {:induction false} DistinctTaken(d: Dir, n: Name)
    requires n in d && Distinct(d)
    ensures Distinct(d - {n})
  {
  }

  lemma {:induction false} DistinctPut(d: Dir, n: Name, f: File)
    requires n !in d && Distinct(d) && f.iso !in Isos(d)
    ensures Distinct(d[n := f])
  {
    assert forall m :: m in d ==> d[m].iso in Isos(d);
  }

  /** Moving a file to a shelf loses nothing and overwrites nothing. */
  lemma {:induction false} MoveConserves(s: Store, source: Name, shelf: Shelf, aside: set<Name>)
    requires Tidy(s) && source in s.inbox
    ensures var (m, dest) := Moved(s, source, shelf, aside);
            Tidy(m) && AllIsos(m) == AllIsos(s) && ShelvesKept(s, m) &&
            dest in m.OnShelf(shelf) && m.OnShelf(shelf)[dest] == s.inbox[source]
  {
    var (m, dest) := Moved(s, source, shelf, aside);
    var iso := s.inbox[source].iso;
    assert iso in Isos(s.inbox);
    IsosTaken(s.inbox, source);
    IsosPut(s.OnShelf(shelf), dest, s.inbox[source]);
    DistinctTaken(s.inbox, source);
    DistinctPut(s.OnShelf(shelf), dest, s.inbox[source]);
    MovedTidy(s, m, shelf, iso);
  }

  /** One ISO changes its place. */
  lemma {:induction false} MovedTidy(s: Store, m: Store, shelf: Shelf, iso: nat)
    requires Tidy(s) && iso in Isos(s.inbox) && Distinct(m.inbox) && Distinct(m.OnShelf(shelf))
    requires Isos(m.inbox) == Isos(s.inbox) - {iso} && Isos(m.OnShelf(shelf)) == Isos(s.OnShelf(shelf)) + {iso}
    requires !shelf.Processed? ==> m.processed == s.processed
    requires !shelf.Failed? ==> m.failed == s.failed
    requires !shelf.Duplicate? ==> m.duplicate == s.duplicate
    ensures Tidy(m) && AllIsos(m) == AllIsos(s)
  {
  }

  predicate SameFiles(a: Store, b: Store) {
    a.inbox == b.inbox && a.processed == b.processed && a.failed == b.failed && a.duplicate == b.duplicate
  }

  /** A step changes no directory, or moves one file from the inbox to a free name on a shelf. */
  ghost predicate MovesAtMostOne(s: Store, after: Store) {
    SameFiles(s, after) ||
    exists source, shelf, aside :: source in s.inbox && SameFiles(after, Moved(s, source, shelf, aside).0)
  }

  lemma {:induction false} ForgottenFiles(s: Store, source: Name, shelf: Shelf, aside: set<Name>, crash: bool)
    requires source in s.inbox
    ensures SameFiles(MovedAndForgotten(s, source, shelf, aside, crash), Moved(s, source, shelf, aside).0)
    ensures MovesAtMostOne(s, MovedAndForgotten(s, source, shelf, aside, crash))
  {
  }

  lemma {:induction false} ChargedFiles(cfg: Config, s: Store, t: Ticket, status: Status, plan: Option<string>,
                                        now: int, aside: set<Name>, crash: bool)
    ensures MovesAtMostOne(s, Charged(cfg, s, t, status, plan, now, aside, crash))
  {
    if t.source in s.inbox {
      ForgottenFiles(s, t.source, Failed, aside, crash);
    }
  }

  lemma {:induction false} CheckedFiles(s: Store, t: Ticket, signature: Option<Signature>, f: Finding,
                                        aside: set<Name>, crash: bool)
    ensures MovesAtMostOne(s, Checked(s, t, signature, f, aside, crash))
  {
    if t.source in s.inbox {
      ForgottenFiles(s, t.source, Duplicate, aside, crash);
    }
  }

  lemma {:induction false} CompletedFiles(s: Store, t: Ticket, signature: Option<Signature>, digest: string,
                                          aside: set<Name>, crash: bool)
    ensures MovesAtMostOne(s, Completed(s, t, signature, digest, aside, crash))
  {
    if t.source in s.inbox {
      ForgottenFiles(s, t.source, Processed, aside, crash);
    }
  }

  lemma {:induction false} WorkerMoves(cfg: Config, s: System, step: Step)
    requires Enabled(s, step) && Actor(step).Some?
    ensures MovesAtMostOne(s.store, Next(cfg, s, step).store)
    ensures Next(cfg, s, step).isos == s.isos
  {
    match step {
      case CheckFails(pid, now, aside, crash) =>
        ChargedFiles(cfg, s.store, s.PhaseOf(pid).claim.ticket, CheckFailed, None, now, aside, crash);
      case FailStep(pid, now, aside, crash) =>
        var c := s.PhaseOf(pid).claim;
        ChargedFiles(cfg, s.store, c.ticket, Retrying, c.local.plan, now, aside, crash);
      case Commit(pid, aside, crash) =>
        var w := s.PhaseOf(pid);
        CheckedFiles(s.store, w.claim.ticket, w.claim.local.signature, w.finding, aside, crash);
      case CompleteStep(_, _, _) => CompleteMoves(cfg, s, step);
      case _ => OthersMoveNothing(cfg, s, step);
    }
  }

  lemma {:induction false} CompleteMoves(cfg: Config, s: System, step: Step)
    requires Enabled(s, step) && step.CompleteStep?
    ensures MovesAtMostOne(s.store, Next(cfg, s, step).store) && Next(cfg, s, step).isos == s.isos
  {
    var c := s.PhaseOf(step.pid).claim;
    if Unchanged(s.store, c.ticket.source, c.local.signature) {
      var digest := if c.local.sha256.Some? then c.local.sha256.value
                    else cfg.sha(s.store.inbox[c.ticket.source].content);
      CompletedFiles(s.store, c.ticket, c.local.signature, digest, step.aside, step.crash);
    }
  }

  lemma {:induction false} OthersMoveNothing(cfg: Config, s: System, step: Step)
    requires Enabled(s, step) && Actor(step).Some?
    requires !(step.CheckFails? || step.FailStep? || step.Commit? || step.CompleteStep?)
    ensures SameFiles(s.store, Next(cfg, s, step).store) && Next(cfg, s, step).isos == s.isos
  {
    if OnEntry(step) {
      RewritesMoveNothing(cfg, s, step);
    }
  }

  lemma {:induction false} RewritesMoveNothing(cfg: Config, s: System, step: Step)
    requires Enabled(s, step) && OnEntry(step) && !step.CompleteStep?
    ensures SameFiles(s.store, Next(cfg, s, step).store) && Next(cfg, s, step).isos == s.isos
  {
  }

  ghost predicate FilesInv(s: System) {
    Tidy(s.store) && AllIsos(s.store) <= s.isos
  }

  /** Every worker step, crashing or not, keeps every ISO in exactly one place. */
  lemma {:induction false} WorkerConserves(cfg: Config, s: System, step: Step)
    requires FilesInv(s) && Enabled(s, step) && Actor(step).Some?
    ensures var s' := Next(cfg, s, step);
            FilesInv(s') && AllIsos(s'.store) == AllIsos(s.store) && ShelvesKept(s.store, s'.store)
  {
    WorkerMoves(cfg, s, step);
    var after := Next(cfg, s, step).store;
    if !SameFiles(s.store, after) {
      var source, shelf, aside :| source in s.store.inbox && SameFiles(after, Moved(s.store, source, shelf, aside).0);
      MoveConserves(s.store, source, shelf, aside);
    }
  }

  lemma {:induction false} OutsideConserves(cfg: Config, s: System, step: Step)
    requires FilesInv(s) && Enabled(s, step) && Actor(step).None?
    ensures var s' := Next(cfg, s, step);
            FilesInv(s') && ShelvesKept(s.store, s'.store) &&
            AllIsos(s.store) - AllIsos(s'.store) ==
              if step.Withdraw? then {s.store.inbox[step.name].iso} else {}
  {
    var s' := Next(cfg, s, step);
    match step {
      case Upload(name, file) => IsosPut(s.store.inbox, name, file);
      case Withdraw(name) =>
        IsosTaken(s.store.inbox, name);
        assert s.store.inbox[name].iso in Isos(s.store.inbox);
      case Modify(name, file) =>
        IsosTaken(s.store.inbox, name);
        assert s.store.inbox[name := file] == (s.store.inbox - {name})[name := file];
        IsosPut(s.store.inbox - {name}, name, file);
        assert s.store.inbox[name].iso in Isos(s.store.inbox);
      case LoseLock(_) =>
    }
  }

  /** Someone outside the converter takes this ISO out of the inbox. */
  ghost predicate Withdraws(s: System, step: Step, iso: nat) {
    step.Withdraw? && step.name in s.store.inbox && s.store.inbox[step.name].iso == iso
  }

  lemma {:induction false} StepConserves(cfg: Config, s: System, step: Step, iso: nat)
    requires FilesInv(s) && Enabled(s, step)
    ensures var s' := Next(cfg, s, step);
            FilesInv(s') && ShelvesKept(s.store, s'.store) &&
            (iso in AllIsos(s.store) && !Withdraws(s, step, iso) ==> iso in AllIsos(s'.store))
  {
    if Actor(step).Some? {
      WorkerConserves(cfg, s, step);
    } else {
      OutsideConserves(cfg, s, step);
      var kept, left := AllIsos(Next(cfg, s, step).store), AllIsos(s.store);
      assert iso in left && iso !in kept ==> iso in left - kept;
    }
  }

  lemma {:induction false} ShelvesKeptOn(a: Store, b: Store, c: Store)
    requires ShelvesKept(a, b) && ShelvesKept(b, c)
    ensures ShelvesKept(a, c)
  {
  }

  /** Between two moments of any run, an ISO that nobody withdraws is never lost and never
      in two places, and an archived ISO stays exactly where it is. */
  lemma {:induction false} Conservation(
    cfg: Config, states: seq<System>, steps: seq<Step>, i: nat, j: nat, iso: nat)
    requires Run(cfg, states, steps) && i <= j <= |steps| && FilesInv(states[i])
    requires iso in AllIsos(states[i].store)
    requires forall k :: i <= k < j ==> !Withdraws(states[k], steps[k], iso)
    ensures FilesInv(states[j]) && iso in AllIsos(states[j].store)
    ensures ShelvesKept(states[i].store, states[j].store)
    decreases j - i
  {
    if i < j {
      Conservation(cfg, states, steps, i, j - 1, iso);
      RunStep(cfg, states, steps, j - 1);
      StepConserves(cfg, states[j - 1], steps[j - 1], iso);
      ShelvesKeptOn(states[i].store, states[j - 1].store, states[j].store);
    }
  }
}
