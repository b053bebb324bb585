/** Runs of the archive service: any interleaving of user requests with one worker that may
    crash at any point and recovers pending publications when it starts again. */
module CatalogRuns {
  import opened Wrappers
  import opened Catalog

  datatype Phase =
    | Down
    | Recovering
    | Idle
    | Busy(job: Id, committed: bool)

  /** `admitted` is the intent whose archive the worker is moving into place. */
  datatype System = System(db: Db, phase: Phase, admitted: Option<Intent>, issued: set<Id>)

  datatype Step =
    | QueueStep(id: Id, owner: string, request: Request, kind: Kind)
    | ControlStep(id: Id, owner: string, control: Control)
    | ResumeStep(id: Id, owner: string, extra: Extra)
    | CancelStep(id: Id)
    | DeleteStep(id: Id, owner: string)
    | ClearStep(owner: string)
    | SaveStep(archive: Archive)
    | Boot
    | MarkInterrupted
    | ClaimStep(id: Id)
    | CaptureStep(rt: Runtime)
    | FileStep(owner: string)
    | PreserveStep(id: Id, rt: Runtime)
    | PrepareStep(rt: Runtime)
    | RuntimeStep(rt: Runtime)
    | StatusStep(status: Status)
    | PutStep(intent: Intent)
    | AdmitStep(id: Id)
    | FinalizeStep
    | AbandonStep
    | CleanupStep(id: Id)
    | RestoreStep(id: Id, saved: string)
    | Done
    | Crash

  predicate ByUser(step: Step) {
    step.QueueStep? || step.ControlStep? || step.ResumeStep? || step.CancelStep? || step.DeleteStep? ||
    step.ClearStep? || step.SaveStep?
  }

  predicate Working(s: System) {
    s.phase.Busy? && s.admitted.None?
  }

  predicate Enabled(s: System, step: Step) {
    match step
    case QueueStep(id, _, _, _) => id !in s.issued
    case ControlStep(_, _, control) => control != Discard
    case Boot => s.phase.Down? && s.admitted.None?
    case MarkInterrupted =>
      s.phase.Recovering? && s.admitted.None? && forall i :: i in s.db.intents ==> s.db.intents[i].completed != 0
    case ClaimStep(id) => s.phase.Idle? && s.admitted.None? && id in s.db.jobs && s.db.jobs[id].status.Queued?
    case CaptureStep(rt) => Working(s) && !s.phase.committed && rt.control.None?
    case FileStep(_) => Working(s) && !s.phase.committed
    case PrepareStep(_) => Working(s) && !s.phase.committed
    case RuntimeStep(rt) => Working(s) && MayOverwrite(s.db, s.phase.job, rt)
    case StatusStep(status) => Working(s) && (s.phase.committed ==> status == Failed)
    case PutStep(intent) => Working(s) && !s.phase.committed && intent.job == Some(s.phase.job)
    case AdmitStep(id) =>
      s.admitted.None? && id in s.db.intents &&
      (s.phase.Recovering? || s.phase.Busy?)
    case FinalizeStep => s.admitted.Some?
    case AbandonStep => s.admitted.Some?
    case PreserveStep(_, _) => !s.phase.Down? && s.admitted.None?
    case CleanupStep(_) => !s.phase.Down? && s.admitted.None?
    case RestoreStep(_, _) => !s.phase.Down? && s.admitted.None?
    case Done => Working(s)
    case _ => true
  }

  /** The worker writes a whole runtime record only while packaging or after completion, when
      controls are frozen, and with the control it read. */
  predicate MayOverwrite(db: Db, id: Id, rt: Runtime) {
    id in db.jobs ==>
      (db.jobs[id].status.Packaging? || db.jobs[id].status.Completed?) && rt.control == db.jobs[id].runtime.control
  }

  /** Steps the worker takes on the job it has claimed. */
  predicate OnOwnJob(step: Step) {
    step.CaptureStep? || step.FileStep? || step.PrepareStep? || step.RuntimeStep? || step.StatusStep? || step.PutStep?
  }

  /** Steps that settle a pending publication. */
  predicate Settles(step: Step) {
    step.AdmitStep? || step.FinalizeStep? || step.AbandonStep?
  }

  function Requested(db: Db, step: Step): Db
    requires ByUser(step)
  {
    match step
    case QueueStep(id, owner, request, kind) => Queue(db, id, owner, request, kind)
    case ControlStep(id, owner, control) => RequestControl(db, id, owner, control).0
    case ResumeStep(id, owner, extra) => Resume(db, id, owner, extra).0
    case CancelStep(id) => RequestCancel(db, id).0
    case DeleteStep(id, owner) => DeleteJob(db, id, owner)
    case ClearStep(owner) => ClearHistory(db, owner)
    case SaveStep(archive) => SaveArchive(db, archive)
  }

  function Worked(db: Db, job: Id, step: Step): Db
    requires OnOwnJob(step)
  {
    match step
    case CaptureStep(rt) => BeginCapture(db, job, rt).0
    case FileStep(owner) => BeginFileOperation(db, job, owner).0
    case PrepareStep(rt) => PreparePublication(db, job, rt).0
    case RuntimeStep(rt) => SetRuntime(db, job, rt)
    case StatusStep(status) => SetStatus(db, job, status)
    case PutStep(intent) => PutIntent(db, intent).0
  }

  function Next(s: System, step: Step): System
    requires Enabled(s, step)
  {
    if ByUser(step) then
      s.(db := Requested(s.db, step), issued := if step.QueueStep? then s.issued + {step.id} else s.issued)
    else if OnOwnJob(step) then
      s.(db := Worked(s.db, s.phase.job, step),
         phase := if step.PutStep? && PutIntent(s.db, step.intent).1.Ok? then Busy(s.phase.job, true) else s.phase)
    else
      match step
      case Boot => s.(phase := Recovering)
      case MarkInterrupted => s.(db := MarkWorkerInterrupted(s.db), phase := Idle)
      case ClaimStep(id) => s.(db := Claim(s.db, id), phase := Busy(id, false))
      case PreserveStep(id, rt) => s.(db := SetRuntimePreservingControl(s.db, id, rt))
      case AdmitStep(id) =>
        var intent := s.db.intents[id].document;
        var (db, r) := AdmitPendingPublication(s.db, intent);
        s.(db := db, admitted := if r == Ok(true) then Some(intent) else None)
      case FinalizeStep => s.(db := FinalizeIntent(s.db, s.admitted.value).0, admitted := None)
      case AbandonStep => s.(admitted := None)
      case CleanupStep(id) => s.(db := FinishDiscardCleanup(s.db, id))
      case RestoreStep(id, saved) => s.(db := RestoreCheckpoint(s.db, id, saved))
      case Done => s.(phase := Idle)
      case Crash => s.(phase := Down, admitted := None)
  }

  ghost predicate StepAt(states: seq<System>, steps: seq<Step>, i: nat)
    requires i < |steps| && i + 1 < |states|
  {
    Enabled(states[i], steps[i]) && states[i + 1] == Next(states[i], steps[i])
  }

  ghost predicate Run(states: seq<System>, steps: seq<Step>) {
    |states| == |steps| + 1 && forall i: nat :: i < |steps| ==> StepAt(states, steps, i)
  }

  lemma {:induction false} RunStep(states: seq<System>, steps: seq<Step>, i: nat)
    requires Run(states, steps) && i < |steps|
    ensures Enabled(states[i], steps[i]) && states[i + 1] == Next(states[i], steps[i])
  {
    assert StepAt(states, steps, i);
  }

  // ---- discard is final ----

  predicate JobOk(job: Job) {
    Discarded(job) ==> (job.status.Cancelling? || job.status.Cancelled?) && !job.runtime.canResume
  }

  ghost predicate JobsOk(db: Db) {
    forall id :: id in db.jobs ==> JobOk(db.jobs[id])
  }

  /** An admitted publication is pending as stored, and its job, if it still exists, waits in
      packaging without a discard. */
  predicate AdmittedOk(db: Db, intent: Intent) {
    db.Pending(intent.archive.id) && db.intents[intent.archive.id].document == intent &&
    (intent.job.Some? && intent.job.value in db.jobs ==>
       var job := db.jobs[intent.job.value];
       job.owner == intent.archive.owner && job.status.Packaging? && !Discarded(job))
  }

  /** Intents are stored under the id of their archive. */
  ghost predicate IntentsOk(s: System) {
    forall i :: i in s.db.intents ==>
      s.db.intents[i].document.archive.id == i &&
      (s.db.intents[i].document.job.Some? ==> s.db.intents[i].document.job.value in s.issued)
  }

  ghost predicate DiscardInv(s: System) {
    JobsOk(s.db) && (s.admitted.Some? ==> AdmittedOk(s.db, s.admitted.value)) && IntentsOk(s) &&
    s.db.jobs.Keys <= s.issued
  }

  /** User requests leave an admitted publication alone. */
  lemma {:induction false} UserStepAdmitted(s: System, step: Step)
    requires DiscardInv(s) && Enabled(s, step) && ByUser(step) && s.admitted.Some?
    ensures AdmittedOk(Next(s, step).db, s.admitted.value)
  {
    var i := s.admitted.value;
    assert i.job.Some? && i.job.value in s.db.jobs ==> s.db.jobs[i.job.value].status.Packaging?;
  }

  lemma {:induction false} UserStepJobs(s: System, step: Step)
    requires DiscardInv(s) && Enabled(s, step) && ByUser(step)
    ensures var s' := Next(s, step); JobsOk(s'.db) && IntentsOk(s') && s'.db.jobs.Keys <= s'.issued
  {
  }

  /** A step of the worker keeps a discarded row discarded, and waiting until it is cleaned. */
  predicate RowKept(cleaned: bool, before: Job, after: Job) {
    JobOk(after) &&
    (Discarded(before) ==> Discarded(after) && (before.cleanup && !cleaned ==> after.cleanup))
  }

  predicate StillKept(cleaned: bool, id: Id, db: Db, after: Db) {
    id in db.jobs && id in after.jobs && RowKept(cleaned, db.jobs[id], after.jobs[id])
  }

  /** What `Enabled` asks of the steps that write a whole runtime record. */
  predicate Guarded(db: Db, job: Id, step: Step) {
    (step.CaptureStep? ==> step.rt.control.None?) && (step.RuntimeStep? ==> MayOverwrite(db, job, step.rt))
  }

  lemma {:induction false} WrittenRow(db: Db, job: Id, step: Step, id: Id)
    requires (step.CaptureStep? || step.RuntimeStep?) && Guarded(db, job, step) && id in db.jobs && JobOk(db.jobs[id])
    ensures StillKept(false, id, db, Worked(db, job, step))
  {
  }

  lemma {:induction false} FiledRow(db: Db, job: Id, owner: string, id: Id)
    requires id in db.jobs && JobOk(db.jobs[id])
    ensures StillKept(false, id, db, BeginFileOperation(db, job, owner).0)
  {
  }

  lemma {:induction false} PreparedRow(db: Db, job: Id, rt: Runtime, id: Id)
    requires id in db.jobs && JobOk(db.jobs[id])
    ensures StillKept(false, id, db, PreparePublication(db, job, rt).0)
  {
  }

  lemma {:induction false} WorkedRow(db: Db, job: Id, step: Step, id: Id)
    requires OnOwnJob(step) && Guarded(db, job, step) && id in db.jobs && JobOk(db.jobs[id])
    ensures StillKept(false, id, db, Worked(db, job, step))
  {
    if step.CaptureStep? || step.RuntimeStep? {
      WrittenRow(db, job, step, id);
    } else if step.FileStep? {
      FiledRow(db, job, step.owner, id);
    } else if step.PrepareStep? {
      PreparedRow(db, job, step.rt, id);
    }
  }

  lemma {:induction false} AdmittedRow(db: Db, intent: Intent, id: Id)
    requires id in db.jobs && JobOk(db.jobs[id])
    ensures StillKept(false, id, db, AdmitPendingPublication(db, intent).0)
  {
  }

  lemma {:induction false} FinalizedRow(db: Db, intent: Intent, id: Id)
    requires AdmittedOk(db, intent) && id in db.jobs && JobOk(db.jobs[id])
    ensures StillKept(false, id, db, FinalizeIntent(db, intent).0)
  {
  }

  lemma {:induction false} SettledRow(s: System, step: Step, id: Id)
    requires Enabled(s, step) && Settles(step) && id in s.db.jobs && JobOk(s.db.jobs[id])
    requires s.admitted.Some? ==> AdmittedOk(s.db, s.admitted.value)
    ensures StillKept(step == CleanupStep(id), id, s.db, Next(s, step).db)
  {
    if step.AdmitStep? {
      AdmittedRow(s.db, s.db.intents[step.id].document, id);
    } else if step.FinalizeStep? {
      FinalizedRow(s.db, s.admitted.value, id);
    }
  }

  lemma {:induction false} RestartRow(db: Db, id: Id)
    requires id in db.jobs && JobOk(db.jobs[id])
    ensures StillKept(false, id, db, MarkWorkerInterrupted(db))
  {
  }

  lemma {:induction false} PreservedRow(db: Db, job: Id, rt: Runtime, id: Id)
    requires id in db.jobs && JobOk(db.jobs[id])
    ensures StillKept(false, id, db, SetRuntimePreservingControl(db, job, rt))
  {
  }

  lemma {:induction false} CleanedRow(db: Db, job: Id, id: Id)
    requires id in db.jobs && JobOk(db.jobs[id])
    ensures StillKept(job == id, id, db, FinishDiscardCleanup(db, job))
  {
  }

  lemma {:induction false} OtherRow(s: System, step: Step, id: Id)
    requires Enabled(s, step) && !ByUser(step) && !OnOwnJob(step) && !Settles(step)
    requires id in s.db.jobs && JobOk(s.db.jobs[id])
    ensures StillKept(step == CleanupStep(id), id, s.db, Next(s, step).db)
  {
    match step {
      case MarkInterrupted => RestartRow(s.db, id);
      case PreserveStep(job, rt) => PreservedRow(s.db, job, rt, id);
      case CleanupStep(job) => CleanedRow(s.db, job, id);
      case _ =>
    }
  }

  lemma {:induction false} WorkerRow(s: System, step: Step, id: Id)
    requires Enabled(s, step) && !ByUser(step) && id in s.db.jobs && JobOk(s.db.jobs[id])
    requires s.admitted.Some? ==> AdmittedOk(s.db, s.admitted.value)
    ensures StillKept(step == CleanupStep(id), id, s.db, Next(s, step).db)
  {
    if OnOwnJob(step) {
      WorkedRow(s.db, s.phase.job, step, id);
    } else if Settles(step) {
      SettledRow(s, step, id);
    } else {
      OtherRow(s, step, id);
    }
  }

  /** No step of the worker lists a job or drops one. */
  lemma {:induction false} WorkerJobs(s: System, step: Step)
    requires Enabled(s, step) && !ByUser(step)
    requires s.admitted.Some? ==> AdmittedOk(s.db, s.admitted.value)
    ensures Next(s, step).db.jobs.Keys == s.db.jobs.Keys && Next(s, step).issued == s.issued
  {
    if OnOwnJob(step) {
      WorkedJobs(s.db, s.phase.job, step);
    } else if step.AdmitStep? {
      AdmittedJobs(s.db, s.db.intents[step.id].document);
    }
  }

  /** The worker's steps on its own job leave all other rows alone. */
  lemma {:induction false} WorkedJobs(db: Db, job: Id, step: Step)
    requires OnOwnJob(step)
    ensures OnlyRow(db.jobs, Worked(db, job, step).jobs, job)
  {
    match step {
      case FileStep(owner) => FiledJobs(db, job, owner);
      case PrepareStep(rt) => PreparedJobs(db, job, rt);
      case PutStep(intent) => assert PutIntent(db, intent).0.jobs == db.jobs;
      case _ =>
    }
  }

  lemma {:induction false} FiledJobs(db: Db, job: Id, owner: string)
    ensures OnlyRow(db.jobs, BeginFileOperation(db, job, owner).0.jobs, job)
  {
  }

  lemma {:induction false} PreparedJobs(db: Db, job: Id, rt: Runtime)
    ensures OnlyRow(db.jobs, PreparePublication(db, job, rt).0.jobs, job)
  {
  }

  lemma {:induction false} AdmittedJobs(db: Db, intent: Intent)
    ensures AdmitPendingPublication(db, intent).0.jobs.Keys == db.jobs.Keys
  {
  }

  /** Intents are stored and settled one at a time. */
  lemma {:induction false} WorkerIntents(s: System, step: Step)
    requires Enabled(s, step) && !ByUser(step)
    requires s.admitted.Some? ==> AdmittedOk(s.db, s.admitted.value)
    ensures !step.PutStep? && !Settles(step) ==> Next(s, step).db.intents == s.db.intents
  {
  }

  lemma {:induction false} StoredIntents(s: System, step: Step)
    requires IntentsOk(s) && s.db.jobs.Keys <= s.issued && Enabled(s, step) && step.PutStep?
    ensures IntentsOk(Next(s, step))
  {
    assert Next(s, step).db == PutIntent(s.db, step.intent).0;
  }

  lemma {:induction false} SettledIntents(s: System, step: Step)
    requires IntentsOk(s) && Enabled(s, step) && Settles(step)
    requires s.admitted.Some? ==> AdmittedOk(s.db, s.admitted.value)
    ensures IntentsOk(Next(s, step))
  {
    if step.AdmitStep? {
      assert SameDocuments(s.db, AdmitPendingPublication(s.db, s.db.intents[step.id].document).0);
    } else if step.FinalizeStep? {
      assert SameDocuments(s.db, FinalizeIntent(s.db, s.admitted.value).0);
    }
  }

  ghost predicate SameDocuments(db: Db, after: Db) {
    forall i :: i in after.intents ==> i in db.intents && after.intents[i].document == db.intents[i].document
  }

  lemma {:induction false} WorkerStepOk(s: System, step: Step)
    requires DiscardInv(s) && Enabled(s, step) && !ByUser(step)
    ensures JobsOk(Next(s, step).db) && IntentsOk(Next(s, step))
    ensures Next(s, step).db.jobs.Keys <= Next(s, step).issued
  {
    WorkerJobs(s, step);
    forall id | id in Next(s, step).db.jobs
      ensures JobOk(Next(s, step).db.jobs[id])
    {
      WorkerRow(s, step, id);
    }
    if step.PutStep? {
      StoredIntents(s, step);
    } else if Settles(step) {
      SettledIntents(s, step);
    } else {
      WorkerIntents(s, step);
    }
  }

  lemma {:induction false} DiscardInvStep(s: System, step: Step)
    requires DiscardInv(s) && Enabled(s, step)
    ensures DiscardInv(Next(s, step))
  {
    if ByUser(step) {
      UserStepJobs(s, step);
      if s.admitted.Some? {
        UserStepAdmitted(s, step);
      }
    } else {
      WorkerStepOk(s, step);
    }
  }

  lemma {:induction false} DiscardInvRun(states: seq<System>, steps: seq<Step>, i: nat)
    requires Run(states, steps) && DiscardInv(states[0]) && i <= |steps|
    ensures DiscardInv(states[i])
  {
    if i > 0 {
      DiscardInvRun(states, steps, i - 1);
      RunStep(states, steps, i - 1);
      DiscardInvStep(states[i - 1], steps[i - 1]);
    }
  }

  /** Over every run, a discarded job is cancelling or cancelled: never queued, running,
      packaging, paused, partial, completed or failed, and never resumable. */
  lemma {:induction false} DiscardedStaysDown(states: seq<System>, steps: seq<Step>, i: nat, id: Id)
    requires Run(states, steps) && DiscardInv(states[0]) && i <= |steps|
    requires id in states[i].db.jobs && Discarded(states[i].db.jobs[id])
    ensures states[i].db.jobs[id].status in {Cancelling, Cancelled}
    ensures !states[i].db.jobs[id].runtime.canResume
    ensures forall owner, extra :: Resume(states[i].db, id, owner, extra).1.Err?
    ensures !BeginFileOperation(states[i].db, id, states[i].db.jobs[id].owner).1
    ensures forall rt :: !BeginCapture(states[i].db, id, rt).1
    ensures forall rt :: PreparePublication(states[i].db, id, rt).1 in {Ok(None), Err(Refused)}
  {
    DiscardInvRun(states, steps, i);
  }

  /** Cancelled for good: nothing of the job is pending, and nothing of it will be published. */
  ghost predicate Dead(s: System, id: Id) {
    id in s.issued && (id in s.db.jobs ==> Discarded(s.db.jobs[id])) &&
    (s.admitted.Some? ==> s.admitted.value.job != Some(id)) &&
    forall i :: s.db.Pending(i) ==> s.db.intents[i].document.job != Some(id)
  }

  lemma {:induction false} CancelKills(s: System, id: Id)
    requires DiscardInv(s) && id in s.db.jobs && RequestCancel(s.db, id).1
    ensures Dead(Next(s, CancelStep(id)), id)
  {
    var s' := Next(s, CancelStep(id));
    forall i | s'.db.Pending(i)
      ensures s'.db.intents[i].document.job != Some(id)
    {
      assert s'.db.intents[i] == s.db.intents[i];
    }
  }

  lemma {:induction false} DeadStep(s: System, step: Step, id: Id)
    requires DiscardInv(s) && Dead(s, id) && Enabled(s, step)
    ensures Dead(Next(s, step), id)
  {
    DeadJob(s, step, id);
    DeadIntents(s, step, id);
    DeadAdmission(s, step, id);
  }

  lemma {:induction false} DeadJob(s: System, step: Step, id: Id)
    requires DiscardInv(s) && Dead(s, id) && Enabled(s, step)
    ensures id in Next(s, step).db.jobs ==> Discarded(Next(s, step).db.jobs[id])
  {
    assert id in s.db.jobs ==> JobOk(s.db.jobs[id]);
    if ByUser(step) {
      UserKeepsDiscard(s, step, id);
    } else {
      WorkerJobs(s, step);
      if id in s.db.jobs {
        WorkerRow(s, step, id);
      }
    }
  }

  lemma {:induction false} UserKeepsDiscard(s: System, step: Step, id: Id)
    requires id in s.issued && (id in s.db.jobs ==> Discarded(s.db.jobs[id]) && JobOk(s.db.jobs[id]))
    requires Enabled(s, step) && ByUser(step)
    ensures id in Next(s, step).db.jobs ==> Discarded(Next(s, step).db.jobs[id])
  {
  }

  lemma {:induction false} DeadIntents(s: System, step: Step, id: Id)
    requires DiscardInv(s) && Dead(s, id) && Enabled(s, step)
    ensures forall i :: Next(s, step).db.Pending(i) ==> Next(s, step).db.intents[i].document.job != Some(id)
  {
    var s' := Next(s, step);
    forall i | s'.db.Pending(i)
      ensures s'.db.intents[i].document.job != Some(id)
    {
      if !step.PutStep? {
        IntentsSettle(s, step, i);
      } else if !s.db.Pending(i) {
        assert i == step.intent.archive.id && MayPublish(s.db, step.intent);
      }
    }
  }

  lemma {:induction false} DeadAdmission(s: System, step: Step, id: Id)
    requires DiscardInv(s) && Dead(s, id) && Enabled(s, step)
    ensures Next(s, step).admitted.Some? ==> Next(s, step).admitted.value.job != Some(id)
  {
    if step.AdmitStep? {
      assert s.db.intents[step.id].document.archive.id == step.id;
    }
  }

  lemma {:induction false} DeadRun(states: seq<System>, steps: seq<Step>, i: nat, j: nat, id: Id)
    requires Run(states, steps) && DiscardInv(states[0]) && i <= j <= |steps| && Dead(states[i], id)
    ensures Dead(states[j], id)
    decreases j - i
  {
    if i < j {
      DeadRun(states, steps, i, j - 1, id);
      RunStep(states, steps, j - 1);
      DiscardInvRun(states, steps, j - 1);
      DeadStep(states[j - 1], steps[j - 1], id);
    }
  }

  /** After an accepted cancellation nothing of the job is ever published, whatever
      was pending, whatever else happens, and however often the worker restarts. */
  lemma {:induction false} CancelIsFinal(states: seq<System>, steps: seq<Step>, i: nat, j: nat, id: Id)
    requires Run(states, steps) && DiscardInv(states[0]) && i < j < |steps|
    requires steps[i] == CancelStep(id) && RequestCancel(states[i].db, id).1
    ensures steps[j].FinalizeStep? ==> states[j].admitted.Some? && states[j].admitted.value.job != Some(id)
    ensures id in states[j].db.jobs ==> Discarded(states[j].db.jobs[id])
  {
    DiscardInvRun(states, steps, i);
    RunStep(states, steps, i);
    CancelKills(states[i], id);
    DeadRun(states, steps, i + 1, j, id);
    RunStep(states, steps, j);
  }

  // ---- controls are frozen from intent to publication ----

  predicate PendingFor(db: Db, i: Id, id: Id) {
    db.Pending(i) && db.intents[i].document.job == Some(id)
  }

  predicate Frozen(job: Job) {
    (job.status.Packaging? || job.status.Failed?) && !Discarded(job)
  }

  ghost predicate FreezeInv(s: System) {
    DiscardInv(s) &&
    (forall i, id :: PendingFor(s.db, i, id) && id in s.db.jobs ==> Frozen(s.db.jobs[id])) &&
    (forall i, j, id :: PendingFor(s.db, i, id) && PendingFor(s.db, j, id) ==> i == j) &&
    (s.phase.Busy? && !s.phase.committed ==> forall i :: !PendingFor(s.db, i, s.phase.job))
  }

  /** New pending publications come from the worker's own job, one at a time. */
  lemma {:induction false} PendingSource(s: System, step: Step, i: Id, id: Id)
    requires DiscardInv(s) && Enabled(s, step) && PendingFor(Next(s, step).db, i, id)
    ensures PendingFor(s.db, i, id) ||
            (step.PutStep? && i == step.intent.archive.id && s.phase == Busy(id, false) &&
             Next(s, step).phase == Busy(id, true) && id in s.db.jobs && Frozen(s.db.jobs[id]))
  {
    if !step.PutStep? {
      IntentsSettle(s, step, i);
    }
  }

  /** Other steps only settle intents. */
  lemma {:induction false} IntentsSettle(s: System, step: Step, i: Id)
    requires DiscardInv(s) && Enabled(s, step) && !step.PutStep? && Next(s, step).db.Pending(i)
    ensures i in s.db.intents && s.db.intents[i] == Next(s, step).db.intents[i]
  {
    if ByUser(step) {
      RequestSettles(s.db, step, i);
    } else if !Settles(step) {
      WorkerIntents(s, step);
    }
  }

  lemma {:induction false} RequestSettles(db: Db, step: Step, i: Id)
    requires ByUser(step) && Requested(db, step).Pending(i)
    ensures i in db.intents && db.intents[i] == Requested(db, step).intents[i]
  {
  }

  predicate StillFrozen(id: Id, db: Db, after: Db) {
    id in db.jobs && id in after.jobs && Frozen(after.jobs[id]) &&
    after.jobs[id].runtime.control == db.jobs[id].runtime.control
  }

  /** A step that is not about the publication of a frozen job leaves it frozen. */
  lemma {:induction false} UserKeepsFrozen(s: System, step: Step, id: Id)
    requires Enabled(s, step) && ByUser(step) && id in s.issued
    requires id in s.db.jobs && id in Next(s, step).db.jobs && Frozen(s.db.jobs[id])
    ensures Next(s, step).db.jobs[id] == s.db.jobs[id]
  {
    if step.ControlStep? || step.ResumeStep? || step.CancelStep? {
      RequestRefused(s, step, id);
    }
  }

  lemma {:induction false} RequestRefused(s: System, step: Step, id: Id)
    requires Enabled(s, step) && (step.ControlStep? || step.ResumeStep? || step.CancelStep?)
    requires id in s.db.jobs && Frozen(s.db.jobs[id])
    ensures id in Next(s, step).db.jobs && Next(s, step).db.jobs[id] == s.db.jobs[id]
  {
  }

  lemma {:induction false} WorkerKeepsFrozen(s: System, step: Step, id: Id)
    requires Enabled(s, step) && !ByUser(step) && !step.MarkInterrupted? && !step.FinalizeStep?
    requires id in s.db.jobs && Frozen(s.db.jobs[id]) && s.phase != Busy(id, false)
    ensures StillFrozen(id, s.db, Next(s, step).db)
  {
    if OnOwnJob(step) {
      OwnJobKeepsFrozen(s, step, id);
    }
  }

  lemma {:induction false} OwnJobKeepsFrozen(s: System, step: Step, id: Id)
    requires Enabled(s, step) && OnOwnJob(step) && id in s.db.jobs && Frozen(s.db.jobs[id])
    requires s.phase != Busy(id, false)
    ensures StillFrozen(id, s.db, Next(s, step).db)
  {
    WorkedJobs(s.db, s.phase.job, step);
    if s.phase.job == id {
      CommittedKeepsFrozen(s.db, id, step);
    }
  }

  /** Of its own job's row the worker still writes only runtime and status once an intent is stored. */
  lemma {:induction false} CommittedKeepsFrozen(db: Db, id: Id, step: Step)
    requires step.RuntimeStep? || step.StatusStep?
    requires step.RuntimeStep? ==> MayOverwrite(db, id, step.rt)
    requires step.StatusStep? ==> step.status == Failed
    requires id in db.jobs && Frozen(db.jobs[id])
    ensures StillFrozen(id, db, Worked(db, id, step))
  {
  }

  lemma {:induction false} FinalizeKeepsFrozen(s: System, i: Id, id: Id)
    requires FreezeInv(s) && s.admitted.Some? && PendingFor(s.db, i, id)
    requires PendingFor(Next(s, FinalizeStep).db, i, id) && id in s.db.jobs
    ensures Next(s, FinalizeStep).db.jobs[id] == s.db.jobs[id]
  {
    var intent := s.admitted.value;
    assert AdmittedOk(s.db, intent);
    if intent.job == Some(id) {
      assert PendingFor(s.db, intent.archive.id, id);
    }
  }

  /** A frozen job stays frozen until its publication is settled. */
  lemma {:induction false} FrozenStep(s: System, step: Step, i: Id, id: Id)
    requires FreezeInv(s) && Enabled(s, step) && PendingFor(s.db, i, id) && PendingFor(Next(s, step).db, i, id)
    requires id in s.db.jobs && id in Next(s, step).db.jobs
    ensures StillFrozen(id, s.db, Next(s, step).db)
  {
    assert Frozen(s.db.jobs[id]);
    if ByUser(step) {
      UserKeepsFrozen(s, step, id);
    } else if step.FinalizeStep? {
      FinalizeKeepsFrozen(s, i, id);
    } else {
      WorkerKeepsFrozen(s, step, id);
    }
  }

  lemma {:induction false} OnePending(s: System, step: Step, i: Id, j: Id, id: Id)
    requires FreezeInv(s) && Enabled(s, step)
    requires PendingFor(Next(s, step).db, i, id) && PendingFor(Next(s, step).db, j, id)
    ensures i == j
  {
    PendingSource(s, step, i, id);
    PendingSource(s, step, j, id);
  }

  lemma {:induction false} PendingFrozen(s: System, step: Step, i: Id, id: Id)
    requires FreezeInv(s) && Enabled(s, step) && PendingFor(Next(s, step).db, i, id) && id in Next(s, step).db.jobs
    ensures Frozen(Next(s, step).db.jobs[id])
  {
    PendingSource(s, step, i, id);
    if PendingFor(s.db, i, id) {
      ListedBefore(s, step, id);
      FrozenStep(s, step, i, id);
    } else {
      StoringKeepsJobs(s, step);
    }
  }

  /** Jobs are listed once, under ids that were never issued before. */
  lemma {:induction false} ListedBefore(s: System, step: Step, id: Id)
    requires Enabled(s, step) && id in s.issued && id in Next(s, step).db.jobs
    requires s.admitted.Some? ==> AdmittedOk(s.db, s.admitted.value)
    ensures id in s.db.jobs
  {
    if !ByUser(step) {
      WorkerJobs(s, step);
    }
  }

  lemma {:induction false} StoringKeepsJobs(s: System, step: Step)
    requires Enabled(s, step) && step.PutStep?
    ensures Next(s, step).db.jobs == s.db.jobs
  {
    assert Next(s, step).db == PutIntent(s.db, step.intent).0;
  }

  lemma {:induction false} NonePending(s: System, step: Step, i: Id, id: Id)
    requires FreezeInv(s) && Enabled(s, step) && Next(s, step).phase == Busy(id, false)
    ensures !PendingFor(Next(s, step).db, i, id)
  {
    if PendingFor(Next(s, step).db, i, id) {
      PendingSource(s, step, i, id);
      assert false;
    }
  }

  lemma {:induction false} FreezeInvStep(s: System, step: Step)
    requires FreezeInv(s) && Enabled(s, step)
    ensures FreezeInv(Next(s, step))
  {
    var s' := Next(s, step);
    DiscardInvStep(s, step);
    forall i, id | PendingFor(s'.db, i, id) && id in s'.db.jobs
      ensures Frozen(s'.db.jobs[id])
    {
      PendingFrozen(s, step, i, id);
    }
    forall i, j, id | PendingFor(s'.db, i, id) && PendingFor(s'.db, j, id)
      ensures i == j
    {
      OnePending(s, step, i, j, id);
    }
    if s'.phase.Busy? && !s'.phase.committed {
      forall i
        ensures !PendingFor(s'.db, i, s'.phase.job)
      {
        NonePending(s, step, i, s'.phase.job);
      }
    }
  }

  lemma {:induction false} FreezeInvRun(states: seq<System>, steps: seq<Step>, i: nat)
    requires Run(states, steps) && FreezeInv(states[0]) && i <= |steps|
    ensures FreezeInv(states[i])
  {
    if i > 0 {
      FreezeInvRun(states, steps, i - 1);
      RunStep(states, steps, i - 1);
      FreezeInvStep(states[i - 1], steps[i - 1]);
    }
  }

  /** From the moment an intent is stored until it is settled, no pause, stop, cancel or
      resume of its job is accepted, whether the worker is alive, publishing or down. */
  lemma {:induction false} NoControlWhilePending(
    states: seq<System>, steps: seq<Step>, k: nat, i: Id, id: Id, owner: string, control: Control, extra: Extra)
    requires Run(states, steps) && FreezeInv(states[0]) && k <= |steps|
    requires PendingFor(states[k].db, i, id)
    ensures var db := states[k].db;
            RequestControl(db, id, owner, control).0 == db && RequestControl(db, id, owner, control).1.Err? &&
            RequestCancel(db, id) == (db, false) &&
            Resume(db, id, owner, extra).0 == db && Resume(db, id, owner, extra).1.Err?
  {
    FreezeInvRun(states, steps, k);
  }

  /** And while an admitted archive is moved into place none is accepted either, even when the
      intent was stored by an older version that did not freeze its job. */
  lemma {:induction false} NoControlWhileAdmitted(
    states: seq<System>, steps: seq<Step>, k: nat, owner: string, control: Control, extra: Extra)
    requires Run(states, steps) && DiscardInv(states[0]) && k <= |steps|
    requires states[k].admitted.Some? && states[k].admitted.value.job.Some?
    ensures var db, id := states[k].db, states[k].admitted.value.job.value;
            RequestControl(db, id, owner, control).0 == db && RequestControl(db, id, owner, control).1.Err? &&
            RequestCancel(db, id) == (db, false) &&
            Resume(db, id, owner, extra).0 == db && Resume(db, id, owner, extra).1.Err?
  {
    DiscardInvRun(states, steps, k);
  }

  // ---- an intent is published at most once ----

  predicate Published(db: Db, i: Id) {
    i in db.intents && db.intents[i].completed == 1
  }

  lemma {:induction false} PublishedStep(s: System, step: Step, i: Id)
    requires DiscardInv(s) && Enabled(s, step) && Published(s.db, i)
    ensures Published(Next(s, step).db, i)
    ensures step.FinalizeStep? ==> s.admitted.value.archive.id != i
  {
    if step.AdmitStep? {
      assert s.db.intents[step.id].document.archive.id == step.id;
    } else if step.PutStep? {
      assert Next(s, step).db == PutIntent(s.db, step.intent).0;
    } else if !ByUser(step) && !Settles(step) {
      WorkerIntents(s, step);
    }
  }

  lemma {:induction false} PublishedRun(states: seq<System>, steps: seq<Step>, k: nat, n: nat, i: Id)
    requires Run(states, steps) && DiscardInv(states[0]) && k <= n <= |steps| && Published(states[k].db, i)
    ensures Published(states[n].db, i)
    decreases n - k
  {
    if k < n {
      PublishedRun(states, steps, k, n - 1, i);
      RunStep(states, steps, n - 1);
      DiscardInvRun(states, steps, n - 1);
      PublishedStep(states[n - 1], steps[n - 1], i);
    }
  }

  lemma {:induction false} FinalizePublishes(states: seq<System>, steps: seq<Step>, k: nat)
    requires Run(states, steps) && DiscardInv(states[0]) && k < |steps| && steps[k].FinalizeStep?
    requires states[k].admitted.Some? && FinalizeIntent(states[k].db, states[k].admitted.value).1.Ok?
    ensures Published(states[k + 1].db, states[k].admitted.value.archive.id)
  {
    DiscardInvRun(states, steps, k);
    RunStep(states, steps, k);
  }

  lemma {:induction false} NotPublishedAgain(states: seq<System>, steps: seq<Step>, n: nat, i: Id)
    requires Run(states, steps) && DiscardInv(states[0]) && n < |steps| && steps[n].FinalizeStep?
    requires Published(states[n].db, i)
    ensures states[n].admitted.Some? && states[n].admitted.value.archive.id != i
  {
    DiscardInvRun(states, steps, n);
    RunStep(states, steps, n);
  }

  /** Two successful publications in a run are of different archives. */
  lemma {:induction false} PublishedOnce(states: seq<System>, steps: seq<Step>, k: nat, n: nat)
    requires Run(states, steps) && DiscardInv(states[0]) && k < n < |steps|
    requires steps[k].FinalizeStep? && steps[n].FinalizeStep?
    requires states[k].admitted.Some? && FinalizeIntent(states[k].db, states[k].admitted.value).1.Ok?
    ensures states[n].admitted.Some? && states[k].admitted.value.archive.id != states[n].admitted.value.archive.id
  {
    var i := states[k].admitted.value.archive.id;
    FinalizePublishes(states, steps, k);
    PublishedRun(states, steps, k + 1, n, i);
    NotPublishedAgain(states, steps, n, i);
  }

  // ---- a discarded job's files are removed before its row may go ----

  predicate AwaitsCleanup(s: System, id: Id) {
    id in s.db.jobs && Discarded(s.db.jobs[id]) && s.db.jobs[id].cleanup
  }

  lemma {:induction false} CleanupStepKeeps(s: System, step: Step, id: Id)
    requires AwaitsCleanup(s, id) && JobOk(s.db.jobs[id]) && Enabled(s, step) && step != CleanupStep(id)
    requires s.admitted.Some? ==> AdmittedOk(s.db, s.admitted.value)
    requires id in s.issued
    ensures AwaitsCleanup(Next(s, step), id)
  {
    if ByUser(step) {
      UserKeepsCleanup(s, step, id);
    } else {
      WorkerRow(s, step, id);
    }
  }

  lemma {:induction false} UserKeepsCleanup(s: System, step: Step, id: Id)
    requires AwaitsCleanup(s, id) && JobOk(s.db.jobs[id]) && Enabled(s, step) && ByUser(step) && id in s.issued
    ensures AwaitsCleanup(Next(s, step), id)
  {
    RequestKeepsCleanup(s.db, step, id);
  }

  /** Requests find a discarded row in a state they refuse, and do not delete one that waits. */
  lemma {:induction false} RequestKeepsCleanup(db: Db, step: Step, id: Id)
    requires ByUser(step) && (step.QueueStep? ==> step.id != id)
    requires id in db.jobs && JobOk(db.jobs[id]) && Discarded(db.jobs[id]) && db.jobs[id].cleanup
    ensures id in Requested(db, step).jobs && Requested(db, step).jobs[id] == db.jobs[id]
  {
  }

  /** A job discarded after it had started stays listed until its cleanup is recorded. */
  lemma {:induction false} CleanupBeforeDelete(states: seq<System>, steps: seq<Step>, i: nat, j: nat, id: Id)
    requires Run(states, steps) && DiscardInv(states[0]) && i <= j <= |steps| && AwaitsCleanup(states[i], id)
    requires forall k :: i <= k < j ==> steps[k] != CleanupStep(id)
    ensures AwaitsCleanup(states[j], id)
    decreases j - i
  {
    if i < j {
      CleanupBeforeDelete(states, steps, i, j - 1, id);
      RunStep(states, steps, j - 1);
      DiscardInvRun(states, steps, j - 1);
      CleanupStepKeeps(states[j - 1], steps[j - 1], id);
    }
  }
}
