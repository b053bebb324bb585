/** The catalogue database of the archive service: job rows, publication intents, archives
    and their inventories. Each transaction is a function from database to database; the
    class below runs the program's own statements against the tables. Timestamps, events
    and error texts are left out. */
module Catalog {
  import opened Wrappers

  type Id = string

  datatype Status =
    Queued | Starting | Running | Cancelling | Completed | Failed | Cancelled | Paused | Partial | Packaging

  datatype Control = Pause | Stop | Discard

  datatype Kind = Capture | Sample | Repair | Export | Verify | Import | ProfileImport | Reconcile

  datatype Request = Request(pages: nat, bytes: Option<nat>, minutes: nat)

  datatype Runtime = Runtime(
    archiveId: Option<Id>, stopReason: Option<string>, bytesStored: nat, warcBytes: nat, canResume: bool,
    runtimeSeconds: nat, attempt: nat, pagesDone: nat, kind: Kind, control: Option<Control>,
    resumeConfig: Option<string>, deadline: Option<string>)

  /** `cleanup` lives beside the runtime record: writing a whole runtime record drops it. */
  datatype Job = Job(
    owner: string, status: Status, request: Request, runtime: Runtime, cleanup: bool,
    archiveFile: Option<string>, archiveBytes: Option<nat>)

  datatype Archive = Archive(id: Id, owner: string, sha256: string, file: string, bytes: nat, details: string)

  datatype Row = Row(url: string, document: string)

  datatype Intent = Intent(
    archive: Archive, pages: seq<Row>, resources: seq<Row>, coverage: seq<Row>,
    job: Option<Id>, finalStatus: Status)

  /** `completed` is 0 while pending, 1 once published, -1 once cancelled. */
  datatype IntentRow = IntentRow(document: Intent, completed: int)

  /** Inventory rows under archive id and ordinal. */
  type Table = map<(Id, nat), Row>

  datatype Db = Db(
    jobs: map<Id, Job>, intents: map<Id, IntentRow>, archives: map<Id, Archive>,
    pages: Table, resources: Table, coverage: Table)
  {
    function With(id: Id, job: Job): Db {
      this.(jobs := jobs[id := job])
    }

    predicate Pending(id: Id) {
      id in intents && intents[id].completed == 0
    }
  }

  datatype Refusal = NotFound | Refused | Extension | Budget

  predicate Discarded(job: Job) {
    job.runtime.control == Some(Discard)
  }

  /** No row is listed or dropped, and none but this one changes. */
  predicate OnlyRow(before: map<Id, Job>, after: map<Id, Job>, id: Id) {
    after.Keys == before.Keys && forall other :: other in before && other != id ==> after[other] == before[other]
  }

  /** The row has this status, runtime record and cleanup mark, and is otherwise as it was. */
  predicate Becomes(was: Job, job: Job, status: Status, runtime: Runtime, cleanup: bool) {
    job == Job(was.owner, status, was.request, runtime, cleanup, was.archiveFile, was.archiveBytes)
  }

  predicate OwnedBy(jobs: map<Id, Job>, id: Id, owner: string) {
    id in jobs && jobs[id].owner == owner
  }

  /** The row after a cancellation has won. */
  function Dropped(job: Job, status: Status, cleanup: bool): Job {
    job.(status := status, cleanup := cleanup,
         runtime := job.runtime.(control := Some(Discard), canResume := false))
  }

  /** The row after its whole runtime record is written. */
  function Written(job: Job, status: Status, runtime: Runtime): Job {
    job.(status := status, runtime := runtime, cleanup := false)
  }

  // ---- requests from users ----

  function Queue(db: Db, id: Id, owner: string, request: Request, kind: Kind): Db {
    db.With(id, Job(owner, Queued, request,
                    Runtime(None, None, 0, 0, false, 0, 0, 0, kind, None, None, None), false, None, None))
  }

  function RequestControl(db: Db, id: Id, owner: string, control: Control): (Db, Result<(), Refusal>) {
    if id !in db.jobs || db.jobs[id].owner != owner then (db, Err(NotFound))
    else
      var job := db.jobs[id];
      if !(job.status.Queued? || job.status.Starting? || job.status.Running?) then (db, Err(Refused))
      else if !(job.runtime.kind.Capture? || job.runtime.kind.Sample? || job.runtime.kind.Repair?) then
        (db, Err(Refused))
      else
        (db.With(id, Written(job, if job.status.Queued? then Paused else job.status,
                             job.runtime.(control := Some(control)))), Ok(()))
  }

  const GIB := 1024 * 1024 * 1024

  datatype Extra = Extra(pages: nat, minutes: nat, bytes: nat)

  /** The request with the extension added, unless a cumulative limit is passed. */
  function Extended(request: Request, extra: Extra): (r: Option<Request>)
    ensures r.Some? ==> r.value.pages <= 5000 && r.value.bytes.Some? && r.value.bytes.value <= 16 * GIB &&
                        r.value.minutes <= 1440
  {
    var pages := request.pages + extra.pages;
    var bytes := (if request.bytes.Some? then request.bytes.value else 2 * GIB) + extra.bytes;
    var minutes := request.minutes + extra.minutes;
    if pages <= 5000 && bytes <= 16 * GIB && minutes <= 1440 then Some(Request(pages, Some(bytes), minutes)) else None
  }

  predicate Exhausted(runtime: Runtime, request: Request, extra: Extra)
    requires request.bytes.Some?
  {
    runtime.pagesDone >= request.pages || runtime.warcBytes >= request.bytes.value ||
    runtime.runtimeSeconds >= request.minutes * 60 ||
    (runtime.stopReason == Some("time-limit") && extra.minutes == 0)
  }

  function Resume(db: Db, id: Id, owner: string, extra: Extra): (Db, Result<(), Refusal>) {
    if id !in db.jobs || db.jobs[id].owner != owner then (db, Err(NotFound))
    else
      var job := db.jobs[id];
      var rt := job.runtime;
      if Discarded(job) || !(job.status.Partial? || job.status.Paused?) || (rt.attempt > 0 && !rt.canResume) then
        (db, Err(Refused))
      else if extra.pages > 500 || extra.minutes > 120 || extra.bytes > 16 * GIB then (db, Err(Extension))
      else
        var request := Extended(job.request, extra);
        if request.None? then (db, Err(Extension))
        else if Exhausted(rt, request.value, extra) then (db, Err(Budget))
        else
          (db.With(id, Written(job, Queued, rt.(control := None, stopReason := None, canResume := false,
                                               deadline := None)).(request := request.value)), Ok(()))
  }

  /** Pending intents of the job are invalidated. */
  function Invalidated(intents: map<Id, IntentRow>, job: Id): map<Id, IntentRow> {
    map i | i in intents ::
      if intents[i].completed == 0 && intents[i].document.job == Some(job) then intents[i].(completed := -1)
      else intents[i]
  }

  function RequestCancel(db: Db, id: Id): (Db, bool) {
    if id !in db.jobs then (db, false)
    else
      var job := db.jobs[id];
      var active := job.status.Starting? || job.status.Running?;
      if !active && !job.status.Queued? && !job.status.Paused? && !job.status.Partial? then (db, false)
      else
        (db.(jobs := db.jobs[id := Dropped(job, if active then Cancelling else Cancelled,
                                           active || job.runtime.attempt > 0)],
             intents := Invalidated(db.intents, id)), true)
  }

  predicate Deletable(job: Job) {
    (job.status.Completed? || job.status.Failed? || job.status.Cancelled? || job.status.Partial?) &&
    !job.runtime.canResume && !job.cleanup
  }

  function DeleteJob(db: Db, id: Id, owner: string): Db {
    if id in db.jobs && db.jobs[id].owner == owner && Deletable(db.jobs[id]) then db.(jobs := db.jobs - {id}) else db
  }

  function ClearHistory(db: Db, owner: string): Db {
    db.(jobs := map id | id in db.jobs && !(db.jobs[id].owner == owner && Deletable(db.jobs[id])) :: db.jobs[id])
  }

  function SaveArchive(db: Db, a: Archive): Db {
    if a.id in db.archives && db.archives[a.id].owner != a.owner then db
    else db.(archives := db.archives[a.id := a])
  }

  // ---- the worker's transactions ----

  function Claim(db: Db, id: Id): Db {
    if id in db.jobs && db.jobs[id].status.Queued? then db.With(id, db.jobs[id].(status := Starting)) else db
  }

  function SetStatus(db: Db, id: Id, status: Status): Db {
    if id !in db.jobs then db
    else db.With(id, db.jobs[id].(status := if Discarded(db.jobs[id]) then Cancelled else status))
  }

  function SetRuntime(db: Db, id: Id, rt: Runtime): Db {
    if id !in db.jobs then db else db.With(id, Written(db.jobs[id], db.jobs[id].status, rt))
  }

  function SetRuntimePreservingControl(db: Db, id: Id, rt: Runtime): Db {
    if id !in db.jobs then db
    else
      var job := db.jobs[id];
      var kept := rt.(control := job.runtime.control);
      db.With(id, job.(runtime :=
        if Discarded(job) then
          kept.(canResume := false, resumeConfig := job.runtime.resumeConfig, stopReason := Some("discard"))
        else kept))
  }

  function BeginCapture(db: Db, id: Id, rt: Runtime): (Db, bool) {
    if id in db.jobs && db.jobs[id].status.Starting? && db.jobs[id].runtime.control.None? then
      (db.With(id, Written(db.jobs[id], Running, rt)), true)
    else (db, false)
  }

  function BeginFileOperation(db: Db, id: Id, owner: string): (Db, bool) {
    if id !in db.jobs || db.jobs[id].owner != owner then (db, false)
    else
      var job := db.jobs[id];
      if job.status.Starting? && job.runtime.control.None? then (db.With(id, job.(status := Packaging)), true)
      else if job.status.Cancelling? then (db.With(id, job.(status := Cancelled)), false)
      else (db, false)
  }

  function PreparePublication(db: Db, id: Id, rt: Runtime): (Db, Result<Option<Runtime>, Refusal>) {
    if id !in db.jobs then (db, Err(NotFound))
    else
      var job := db.jobs[id];
      if job.status.Cancelling? then (db, Ok(None))
      else if !job.status.Running? then (db, Err(Refused))
      else
        var frozen := rt.(control := job.runtime.control);
        var frozen := if frozen.control == Some(Pause) then frozen.(stopReason := Some("pause"))
                      else if frozen.control == Some(Stop) then frozen.(stopReason := Some("stop-and-save"))
                      else frozen;
        (db.With(id, Written(job, Packaging, frozen)), Ok(Some(frozen)))
  }

  predicate MayPublish(db: Db, intent: Intent) {
    intent.job.Some? ==>
      intent.job.value in db.jobs &&
      var job := db.jobs[intent.job.value];
      job.owner == intent.archive.owner && job.status.Packaging? && !Discarded(job)
  }

  function PutIntent(db: Db, intent: Intent): (Db, Result<(), Refusal>) {
    if !MayPublish(db, intent) || intent.archive.id in db.intents then (db, Err(Refused))
    else (db.(intents := db.intents[intent.archive.id := IntentRow(intent, 0)]), Ok(()))
  }

  function AdmitPendingPublication(db: Db, intent: Intent): (Db, Result<bool, Refusal>) {
    var a := intent.archive;
    if !db.Pending(a.id) then (db, Ok(false))
    else if intent.job.None? || intent.job.value !in db.jobs then (db, Ok(true))
    else
      var id := intent.job.value;
      var job := db.jobs[id];
      if job.owner != a.owner then (db, Err(Refused))
      else if job.status.Cancelling? || job.status.Cancelled? || Discarded(job) then
        (db.(intents := db.intents[a.id := db.intents[a.id].(completed := -1)],
             jobs := db.jobs[id := Dropped(job, Cancelled, true)]), Ok(false))
      else (db.With(id, job.(status := Packaging)), Ok(true))
  }

  function Replaced(table: Table, id: Id, rows: seq<Row>): Table {
    (map k | k in table && k.0 != id :: table[k]) + (map i: nat | i < |rows| :: (id, i) := rows[i])
  }

  /** The intent's job, if its owner still has it, ends with the archive on record. */
  function WithArchive(jobs: map<Id, Job>, intent: Intent): map<Id, Job> {
    var a := intent.archive;
    if !(intent.job.Some? && intent.job.value in jobs && jobs[intent.job.value].owner == a.owner) then jobs
    else
      var job := jobs[intent.job.value];
      var rt := job.runtime.(archiveId := Some(a.id), bytesStored := a.bytes);
      jobs[intent.job.value := Written(job, intent.finalStatus, rt).(
        archiveFile := Some(a.file), archiveBytes := Some(a.bytes))]
  }

  /** The id leads to this owner's archive with this content. */
  predicate SameArchive(a: Archive, archives: map<Id, Archive>) {
    a.id in archives && archives[a.id].owner == a.owner && archives[a.id].sha256 == a.sha256
  }

  /** Nothing is written when the archive id is taken by other content or another owner. */
  function FinalizeIntent(db: Db, intent: Intent): (Db, Result<(), Refusal>) {
    var a := intent.archive;
    var archives := if a.id in db.archives then db.archives else db.archives[a.id := a];
    if archives[a.id].owner != a.owner || archives[a.id].sha256 != a.sha256 then (db, Err(Refused))
    else
      var jobs := WithArchive(db.jobs, intent);
      var intents := if a.id in db.intents then db.intents[a.id := db.intents[a.id].(completed := 1)] else db.intents;
      (Db(jobs, intents, archives, Replaced(db.pages, a.id, intent.pages),
          Replaced(db.resources, a.id, intent.resources), Replaced(db.coverage, a.id, intent.coverage)), Ok(()))
  }

  function Interrupted(job: Job): Job {
    if !(job.status.Starting? || job.status.Running? || job.status.Cancelling? || job.status.Packaging?) then job
    else if job.status.Cancelling? || Discarded(job) then Dropped(job, Cancelled, true)
    else job.(status := if job.runtime.attempt > 0 then Paused else Failed)
  }

  function MarkWorkerInterrupted(db: Db): Db {
    db.(jobs := map id | id in db.jobs :: Interrupted(db.jobs[id]))
  }

  function FinishDiscardCleanup(db: Db, id: Id): Db {
    if id in db.jobs && db.jobs[id].status.Cancelled? && Discarded(db.jobs[id]) then
      var job := db.jobs[id];
      db.With(id, job.(cleanup := false, runtime := job.runtime.(
        canResume := false, resumeConfig := None, deadline := None, stopReason := Some("discard"))))
    else db
  }

  function RestoreCheckpoint(db: Db, id: Id, saved: string): Db {
    if id in db.jobs && db.jobs[id].status.Paused? && !Discarded(db.jobs[id]) then
      var job := db.jobs[id];
      db.With(id, job.(runtime := job.runtime.(
        canResume := true, resumeConfig := Some(saved), stopReason := Some("worker-restart"))))
    else db
  }

  // ---- what the transactions promise, field by field ----

  /** A control can be asked of a job that waits or captures, and of no file operation. */
  predicate Controllable(job: Job) {
    job.status in {Queued, Starting, Running} && job.runtime.kind in {Capture, Sample, Repair}
  }

  predicate Resumable(job: Job) {
    job.status in {Paused, Partial} && job.runtime.control != Some(Discard) &&
    (job.runtime.attempt == 0 || job.runtime.canResume)
  }

  /** A capture without a limit of its own may store two gigabytes. */
  function BytesAllowed(request: Request): nat {
    if request.bytes.Some? then request.bytes.value else 0x8000_0000
  }

  predicate ExtensionFits(request: Request, extra: Extra) {
    extra.pages <= 500 && extra.minutes <= 120 && extra.bytes <= 0x4_0000_0000 &&
    request.pages + extra.pages <= 5000 && request.minutes + extra.minutes <= 1440 &&
    BytesAllowed(request) + extra.bytes <= 0x4_0000_0000
  }

  /** The extended limits leave pages, bytes and time, and one stopped for time gets more of it. */
  predicate WorkLeft(job: Job, extra: Extra) {
    job.runtime.pagesDone < job.request.pages + extra.pages &&
    job.runtime.warcBytes < BytesAllowed(job.request) + extra.bytes &&
    job.runtime.runtimeSeconds < 60 * (job.request.minutes + extra.minutes) &&
    (job.runtime.stopReason == Some("time-limit") ==> extra.minutes > 0)
  }

  /** Queued again under the extended limits, with control, reason, checkpoint and deadline cleared. */
  predicate ResumedAs(was: Job, job: Job, extra: Extra) {
    job == Job(was.owner, Queued,
               Request(was.request.pages + extra.pages, Some(BytesAllowed(was.request) + extra.bytes),
                       was.request.minutes + extra.minutes),
               was.runtime.(control := None, stopReason := None, canResume := false, deadline := None), false,
               was.archiveFile, was.archiveBytes)
  }

  /** The pending intents of the job are marked cancelled, and nothing else in the table changes. */
  predicate Withdrawn(before: map<Id, IntentRow>, after: map<Id, IntentRow>, job: Id) {
    after.Keys == before.Keys &&
    forall i | i in before ::
      after[i].document == before[i].document &&
      after[i].completed ==
        if before[i].completed == 0 && before[i].document.job == Some(job) then -1 else before[i].completed
  }

  /** The intent's job is there, and an admitted publication would take it back into packaging. */
  predicate HasJob(jobs: map<Id, Job>, intent: Intent) {
    intent.job.Some? && intent.job.value in jobs
  }

  predicate CancelWon(job: Job) {
    job.status in {Cancelling, Cancelled} || job.runtime.control == Some(Discard)
  }

  /** The rows under the archive id are these, each at its ordinal, and those of other archives are as before. */
  ghost predicate Filed(before: Table, after: Table, id: Id, rows: seq<Row>) {
    (forall i: nat :: (id, i) in after <==> i < |rows|) &&
    (forall i: nat :: (id, i) in after && i < |rows| ==> after[(id, i)] == rows[i]) &&
    (forall k: (Id, nat) :: k.0 != id ==> (k in after <==> k in before)) &&
    forall k: (Id, nat) :: k.0 != id && k in after && k in before ==> after[k] == before[k]
  }

  /** The intent's job, if its owner still has it, ends in the final status with the archive's id, file and
      bytes, and otherwise with the runtime it had. No other job changes. */
  predicate JobEnded(before: map<Id, Job>, after: map<Id, Job>, intent: Intent) {
    after.Keys == before.Keys &&
    forall id :: id in before ==>
      if intent.job == Some(id) && before[id].owner == intent.archive.owner then
        after[id] == Job(before[id].owner, intent.finalStatus, before[id].request,
                         before[id].runtime.(archiveId := Some(intent.archive.id), bytesStored := intent.archive.bytes),
                         false, Some(intent.archive.file), Some(intent.archive.bytes))
      else after[id] == before[id]
  }

  /** The archive's record is there, and those there before are as they were. */
  predicate Recorded(before: map<Id, Archive>, after: map<Id, Archive>, a: Archive) {
    after.Keys == before.Keys + {a.id} && (a.id !in before ==> after[a.id] == a) &&
    forall i :: i in before ==> after[i] == before[i]
  }

  /** The archive's intent, if there is one, is marked published, and nothing else in the table changes. */
  predicate Settled(before: map<Id, IntentRow>, after: map<Id, IntentRow>, id: Id) {
    after.Keys == before.Keys &&
    forall i :: i in before ==> after[i] == if i == id then IntentRow(before[i].document, 1) else before[i]
  }

  /** What an accepted intent leaves in the database, table by table. */
  ghost predicate Published(before: Db, after: Db, intent: Intent) {
    Filed(before.pages, after.pages, intent.archive.id, intent.pages) &&
    Filed(before.resources, after.resources, intent.archive.id, intent.resources) &&
    Filed(before.coverage, after.coverage, intent.archive.id, intent.coverage) &&
    Recorded(before.archives, after.archives, intent.archive) &&
    Settled(before.intents, after.intents, intent.archive.id) &&
    JobEnded(before.jobs, after.jobs, intent)
  }

  /** An intent is refused exactly when its archive id is taken by other content or another owner. */
  ghost predicate FinalizedAs(before: Db, done: (Db, Result<(), Refusal>), intent: Intent) {
    (done.1.Ok? <==> (intent.archive.id in before.archives ==> SameArchive(intent.archive, before.archives))) &&
    (done.1.Ok? ==> Published(before, done.0, intent))
  }

  lemma {:induction false} ReplacedFiles(table: Table, id: Id, rows: seq<Row>)
    ensures Filed(table, Replaced(table, id, rows), id, rows)
  {
    forall k: (Id, nat)
      ensures k in Replaced(table, id, rows) <==> if k.0 == id then k.1 < |rows| else k in table
      ensures k in Replaced(table, id, rows) ==>
        Replaced(table, id, rows)[k] == if k.0 == id then rows[k.1] else table[k]
    {
      ReplacedAt(table, id, rows, k);
    }
  }

  lemma {:induction false} JobEnds(jobs: map<Id, Job>, intent: Intent)
    ensures JobEnded(jobs, WithArchive(jobs, intent), intent)
  {
  }

  lemma {:induction false} RefusedWhen(db: Db, intent: Intent)
    ensures FinalizeIntent(db, intent).1.Ok? <==>
            (intent.archive.id in db.archives ==> SameArchive(intent.archive, db.archives))
    ensures FinalizeIntent(db, intent).1.Ok? ==>
              Recorded(db.archives, FinalizeIntent(db, intent).0.archives, intent.archive) &&
              Settled(db.intents, FinalizeIntent(db, intent).0.intents, intent.archive.id)
  {
  }

  /** An intent is refused exactly when its archive id is taken by other content or another owner. Once it is
      accepted its pages, resources and coverage are on file as such, and its job has ended. */
  lemma {:induction false} PublishedMeans(db: Db, intent: Intent)
    ensures FinalizedAs(db, FinalizeIntent(db, intent), intent)
  {
    RefusedWhen(db, intent);
    JobEnds(db.jobs, intent);
    ReplacedFiles(db.pages, intent.archive.id, intent.pages);
    ReplacedFiles(db.resources, intent.archive.id, intent.resources);
    ReplacedFiles(db.coverage, intent.archive.id, intent.coverage);
  }

  /** After a restart no job is under way: one that was to be discarded is cancelled and still to be
      cleaned up, one that had started is paused, and one that had not has failed. */
  predicate Halted(before: map<Id, Job>, after: map<Id, Job>) {
    after.Keys == before.Keys &&
    forall id :: id in before ==>
      if before[id].status !in {Starting, Running, Cancelling, Packaging} then after[id] == before[id]
      else if CancelWon(before[id]) then
        Becomes(before[id], after[id], Cancelled,
                before[id].runtime.(control := Some(Discard), canResume := false), true)
      else
        Becomes(before[id], after[id], if before[id].runtime.attempt == 0 then Failed else Paused,
                before[id].runtime, before[id].cleanup)
  }

  lemma {:induction false} InterruptedMeans(db: Db)
    ensures Halted(db.jobs, MarkWorkerInterrupted(db).jobs)
    ensures MarkWorkerInterrupted(db) == db.(jobs := MarkWorkerInterrupted(db).jobs)
  {
    var after := MarkWorkerInterrupted(db).jobs;
    forall id | id in db.jobs
      ensures after[id] == Interrupted(db.jobs[id])
    {
    }
  }

  // ---- finalizing twice ----

  lemma {:induction false} ReplacedTwice(table: Table, id: Id, was: seq<Row>, rows: seq<Row>)
    ensures Replaced(Replaced(table, id, was), id, rows) == Replaced(table, id, rows)
  {
    var once, twice := Replaced(table, id, rows), Replaced(Replaced(table, id, was), id, rows);
    assert forall k :: k in once <==> k in twice;
  }

  /** Finalizing again changes nothing: not the archive, its inventories, the intent or the job. */
  lemma {:induction false} FinalizeReplay(db: Db, intent: Intent)
    requires FinalizeIntent(db, intent).1.Ok?
    ensures FinalizeIntent(FinalizeIntent(db, intent).0, intent) == FinalizeIntent(db, intent)
  {
    var a := intent.archive;
    ReplacedTwice(db.pages, a.id, intent.pages, intent.pages);
    ReplacedTwice(db.resources, a.id, intent.resources, intent.resources);
    ReplacedTwice(db.coverage, a.id, intent.coverage, intent.coverage);
    var once := FinalizeIntent(db, intent).0;
    var twice := FinalizeIntent(once, intent).0;
    assert twice.jobs == once.jobs;
    assert twice.intents == once.intents;
  }

  /** Nor does it undo what the owner edited in the archive's record in between. */
  lemma {:induction false} FinalizeKeepsEdits(db: Db, intent: Intent, edited: Archive)
    requires FinalizeIntent(db, intent).1.Ok?
    requires edited.id == intent.archive.id && edited.sha256 == intent.archive.sha256
    requires edited.owner == intent.archive.owner
    ensures var after := SaveArchive(FinalizeIntent(db, intent).0, edited);
            FinalizeIntent(after, intent) == (after, Ok(()))
  {
    FinalizeReplay(db, intent);
    var once := FinalizeIntent(db, intent).0;
    var after := SaveArchive(once, edited);
    assert FinalizeIntent(once, intent).0 == once;
  }

  // ---- what one transaction owes to another ----

  /** The worker's running updates of a job's runtime record. */
  function Updated(db: Db, id: Id, rts: seq<Runtime>): Db {
    if rts == [] then db
    else SetRuntimePreservingControl(Updated(db, id, rts[..|rts| - 1]), id, rts[|rts| - 1])
  }

  lemma {:induction false} UpdatedKeeps(db: Db, id: Id, rts: seq<Runtime>)
    requires id in db.jobs
    ensures var after := Updated(db, id, rts);
            id in after.jobs && after.jobs[id].status == db.jobs[id].status &&
            after.jobs[id].runtime.control == db.jobs[id].runtime.control &&
            after.intents == db.intents && after.jobs.Keys == db.jobs.Keys
  {
    if rts != [] {
      UpdatedKeeps(db, id, rts[..|rts| - 1]);
    }
  }

  /** A pause or stop accepted while a capture runs reaches its publication: whatever the worker
      writes in between, packaging starts with that control and says so as the reason. */
  lemma {:induction false} ControlReachesPublication(
    db: Db, id: Id, owner: string, control: Control, rts: seq<Runtime>, rt: Runtime)
    requires id in db.jobs && db.jobs[id].status.Running? && control != Discard
    requires RequestControl(db, id, owner, control).1.Ok?
    ensures var (after, frozen) := PreparePublication(Updated(RequestControl(db, id, owner, control).0, id, rts), id, rt);
            frozen.Ok? && frozen.value.Some? && after.jobs[id].status.Packaging? &&
            after.jobs[id].runtime == frozen.value.value && frozen.value.value.control == Some(control) &&
            frozen.value.value.stopReason == Some(if control.Pause? then "pause" else "stop-and-save")
  {
    UpdatedKeeps(RequestControl(db, id, owner, control).0, id, rts);
  }

  /** A resumed job is queued, can be claimed, and its capture begins with something left to do. */
  lemma {:induction false} ResumedRuns(db: Db, id: Id, owner: string, extra: Extra, rt: Runtime)
    requires Resume(db, id, owner, extra).1.Ok?
    ensures var resumed := Resume(db, id, owner, extra).0;
            var job := resumed.jobs[id];
            job.status.Queued? && BeginCapture(Claim(resumed, id), id, rt).1 &&
            job.runtime.pagesDone < job.request.pages <= 5000 &&
            job.request.bytes.Some? && job.runtime.warcBytes < job.request.bytes.value <= 16 * GIB &&
            job.runtime.runtimeSeconds < job.request.minutes * 60 <= 1440 * 60 &&
            db.jobs[id].request.pages <= job.request.pages && db.jobs[id].request.minutes <= job.request.minutes
  {
  }

  /** A cancellation that comes before a file operation wins, one that comes after is refused. */
  lemma {:induction false} CancelOrOperate(db: Db, id: Id)
    requires id in db.jobs && db.jobs[id].status.Starting?
    ensures RequestCancel(db, id).1
    ensures var cancelled := RequestCancel(db, id).0;
            var (after, changed) := BeginFileOperation(cancelled, id, db.jobs[id].owner);
            !changed && after.jobs[id].status.Cancelled? && Discarded(after.jobs[id]) && after.jobs[id].cleanup
    ensures var (after, changed) := BeginFileOperation(db, id, db.jobs[id].owner);
            changed ==> after.jobs[id].status.Packaging? && RequestCancel(after, id) == (after, false)
  {
  }

  // ---- the program's statements ----

  class Database {
    var jobs: map<Id, Job>
    var intents: map<Id, IntentRow>
    var archives: map<Id, Archive>
    var pages: Table
    var resources: Table
    var coverage: Table

    function Contents(): Db
      reads this
    {
      Db(jobs, intents, archives, pages, resources, coverage)
    }

    constructor (db: Db)
      ensures Contents() == db
    {
      jobs, intents, archives := db.jobs, db.intents, db.archives;
      pages, resources, coverage := db.pages, db.resources, db.coverage;
    }

    method Control(id: Id, owner: string, control: Control) returns (r: Result<(), Refusal>)
      modifies this`jobs
      ensures (Contents(), r) == RequestControl(old(Contents()), id, owner, control)
      ensures r == Err(NotFound) <==> !OwnedBy(old(jobs), id, owner)
      ensures r.Ok? <==> OwnedBy(old(jobs), id, owner) && Controllable(old(jobs)[id])
      ensures r.Ok? ==> OnlyRow(old(jobs), jobs, id) &&
                        Becomes(old(jobs)[id], jobs[id],
                                if old(jobs)[id].status == Queued then Paused else old(jobs)[id].status,
                                old(jobs)[id].runtime.(control := Some(control)), false)
      ensures r.Err? ==> jobs == old(jobs)
    {
      if id !in jobs || jobs[id].owner != owner {
        return Err(NotFound);
      }
      var status, rt := jobs[id].status, jobs[id].runtime;
      if !(status.Queued? || status.Starting? || status.Running?) {
        return Err(Refused);
      }
      if !(rt.kind.Capture? || rt.kind.Sample? || rt.kind.Repair?) {
        return Err(Refused);
      }
      rt := rt.(control := Some(control));
      var next := if status.Queued? then Paused else status;
      jobs := jobs[id := Written(jobs[id], next, rt)];
      return Ok(());
    }

    method ResumeJob(id: Id, owner: string, extra: Extra) returns (r: Result<(), Refusal>)
      modifies this`jobs
      ensures (Contents(), r) == Resume(old(Contents()), id, owner, extra)
      ensures r == Err(NotFound) <==> !OwnedBy(old(jobs), id, owner)
      ensures r == Err(Refused) <==> OwnedBy(old(jobs), id, owner) && !Resumable(old(jobs)[id])
      ensures r == Err(Extension) ==> !ExtensionFits(old(jobs)[id].request, extra)
      ensures r == Err(Budget) ==> !WorkLeft(old(jobs)[id], extra)
      ensures r.Ok? <==> OwnedBy(old(jobs), id, owner) && Resumable(old(jobs)[id]) &&
                         ExtensionFits(old(jobs)[id].request, extra) && WorkLeft(old(jobs)[id], extra)
      ensures r.Ok? ==> OnlyRow(old(jobs), jobs, id) && ResumedAs(old(jobs)[id], jobs[id], extra)
      ensures r.Err? ==> jobs == old(jobs)
    {
      if id !in jobs || jobs[id].owner != owner {
        return Err(NotFound);
      }
      var job := jobs[id];
      var rt := job.runtime;
      if Discarded(job) || !(job.status.Partial? || job.status.Paused?) || (rt.attempt > 0 && !rt.canResume) {
        return Err(Refused);
      }
      if extra.pages > 500 || extra.minutes > 120 || extra.bytes > 16 * GIB {
        return Err(Extension);
      }
      var request := Extended(job.request, extra);
      if request.None? {
        return Err(Extension);
      }
      if Exhausted(rt, request.value, extra) {
        return Err(Budget);
      }
      rt := rt.(control := None, stopReason := None, canResume := false, deadline := None);
      jobs := jobs[id := Written(job, Queued, rt).(request := request.value)];
      return Ok(());
    }

    method Cancel(id: Id) returns (changed: bool)
      modifies this`jobs, this`intents
      ensures (Contents(), changed) == RequestCancel(old(Contents()), id)
      ensures changed <==> id in old(jobs) && old(jobs)[id].status in {Queued, Starting, Running, Paused, Partial}
      ensures changed ==> OnlyRow(old(jobs), jobs, id) && Withdrawn(old(intents), intents, id) &&
                          var active := old(jobs)[id].status in {Starting, Running};
                          Becomes(old(jobs)[id], jobs[id], if active then Cancelling else Cancelled,
                                  old(jobs)[id].runtime.(control := Some(Discard), canResume := false),
                                  active || old(jobs)[id].runtime.attempt > 0)
      ensures !changed ==> jobs == old(jobs) && intents == old(intents)
    {
      if id !in jobs {
        return false;
      }
      var next, cleanup;
      match jobs[id].status {
        case Queued | Paused | Partial => next, cleanup := Cancelled, jobs[id].runtime.attempt > 0;
        case Starting | Running => next, cleanup := Cancelling, true;
        case _ => return false;
      }
      jobs := jobs[id := Dropped(jobs[id], next, cleanup)];
      intents := Invalidated(intents, id);
      return true;
    }

    method BeginCaptureOf(id: Id, rt: Runtime) returns (ok: bool)
      modifies this`jobs
      ensures (Contents(), ok) == BeginCapture(old(Contents()), id, rt)
      ensures ok <==> id in old(jobs) && old(jobs)[id].status.Starting? && old(jobs)[id].runtime.control.None?
      ensures ok ==> OnlyRow(old(jobs), jobs, id) && Becomes(old(jobs)[id], jobs[id], Running, rt, false)
      ensures !ok ==> jobs == old(jobs)
    {
      ok := id in jobs && jobs[id].status.Starting? && jobs[id].runtime.control.None?;
      if ok {
        jobs := jobs[id := Written(jobs[id], Running, rt)];
      }
    }

    method BeginFileOperationOf(id: Id, owner: string) returns (changed: bool)
      modifies this`jobs
      ensures (Contents(), changed) == BeginFileOperation(old(Contents()), id, owner)
      ensures changed <==> OwnedBy(old(jobs), id, owner) && old(jobs)[id].status.Starting? &&
                           old(jobs)[id].runtime.control.None?
      ensures OnlyRow(old(jobs), jobs, id)
      ensures id in jobs ==>
                Becomes(old(jobs)[id], jobs[id],
                        if changed then Packaging
                        else if OwnedBy(old(jobs), id, owner) && old(jobs)[id].status == Cancelling then Cancelled
                        else old(jobs)[id].status,
                        old(jobs)[id].runtime, old(jobs)[id].cleanup)
    {
      changed := false;
      if id in jobs && jobs[id].owner == owner {
        if jobs[id].status.Starting? && jobs[id].runtime.control.None? {
          jobs := jobs[id := jobs[id].(status := Packaging)];
          changed := true;
        }
        if !changed && jobs[id].status.Cancelling? {
          jobs := jobs[id := jobs[id].(status := Cancelled)];
        }
      }
    }

    method Prepare(id: Id, rt: Runtime) returns (r: Result<Option<Runtime>, Refusal>)
      modifies this`jobs
      ensures (Contents(), r) == PreparePublication(old(Contents()), id, rt)
      ensures r.Ok? && r.value.Some? <==> id in old(jobs) && old(jobs)[id].status.Running?
      ensures r == Ok(None) <==> id in old(jobs) && old(jobs)[id].status.Cancelling?
      ensures r == Err(NotFound) <==> id !in old(jobs)
      ensures r.Ok? && r.value.Some? ==>
                OnlyRow(old(jobs), jobs, id) && Becomes(old(jobs)[id], jobs[id], Packaging, r.value.value, false) &&
                var control := old(jobs)[id].runtime.control;
                r.value.value == rt.(control := control,
                                     stopReason := if control == Some(Pause) then Some("pause")
                                                   else if control == Some(Stop) then Some("stop-and-save")
                                                   else rt.stopReason)
      ensures r.Err? || r.value.None? ==> jobs == old(jobs)
    {
      if id !in jobs {
        return Err(NotFound);
      }
      if jobs[id].status.Cancelling? {
        return Ok(None);
      }
      if !jobs[id].status.Running? {
        return Err(Refused);
      }
      var frozen := rt.(control := jobs[id].runtime.control);
      if frozen.control.Some? {
        match frozen.control.value {
          case Pause => frozen := frozen.(stopReason := Some("pause"));
          case Stop => frozen := frozen.(stopReason := Some("stop-and-save"));
          case Discard =>
        }
      }
      jobs := jobs[id := Written(jobs[id], Packaging, frozen)];
      return Ok(Some(frozen));
    }

    method Put(intent: Intent) returns (r: Result<(), Refusal>)
      modifies this`intents
      ensures (Contents(), r) == PutIntent(old(Contents()), intent)
      ensures r.Ok? <==> intent.archive.id !in old(intents) &&
                         (intent.job.Some? ==> OwnedBy(jobs, intent.job.value, intent.archive.owner) &&
                                               jobs[intent.job.value].status.Packaging? &&
                                               jobs[intent.job.value].runtime.control != Some(Discard))
      ensures r.Ok? ==> intents.Keys == old(intents).Keys + {intent.archive.id} &&
                        intents[intent.archive.id] == IntentRow(intent, 0) &&
                        forall i :: i in old(intents) ==> intents[i] == old(intents)[i]
      ensures r.Err? ==> intents == old(intents)
    {
      if intent.job.Some? {
        var id := intent.job.value;
        if !(id in jobs && jobs[id].owner == intent.archive.owner && jobs[id].status.Packaging? &&
             !Discarded(jobs[id])) {
          return Err(Refused);
        }
      }
      if intent.archive.id in intents {
        return Err(Refused);
      }
      intents := intents[intent.archive.id := IntentRow(intent, 0)];
      return Ok(());
    }

    method Admit(intent: Intent) returns (r: Result<bool, Refusal>)
      modifies this`intents, this`jobs
      ensures (Contents(), r) == AdmitPendingPublication(old(Contents()), intent)
      ensures r == Ok(true) ==> old(Contents()).Pending(intent.archive.id) && intents == old(intents)
      ensures r == Ok(false) ==> !Contents().Pending(intent.archive.id)
      ensures r.Err? <==> old(Contents()).Pending(intent.archive.id) && HasJob(old(jobs), intent) &&
                          old(jobs)[intent.job.value].owner != intent.archive.owner
      ensures !old(Contents()).Pending(intent.archive.id) || !HasJob(old(jobs), intent) ==>
                jobs == old(jobs) && intents == old(intents)
      ensures r.Ok? && old(Contents()).Pending(intent.archive.id) && HasJob(old(jobs), intent) ==>
                var id, won := intent.job.value, CancelWon(old(jobs)[intent.job.value]);
                r.value == !won && OnlyRow(old(jobs), jobs, id) &&
                if won then
                  intents == old(intents)[intent.archive.id := old(intents)[intent.archive.id].(completed := -1)] &&
                  Becomes(old(jobs)[id], jobs[id], Cancelled,
                          old(jobs)[id].runtime.(control := Some(Discard), canResume := false), true)
                else Becomes(old(jobs)[id], jobs[id], Packaging, old(jobs)[id].runtime, old(jobs)[id].cleanup)
      ensures r.Err? ==> jobs == old(jobs) && intents == old(intents)
    {
      var a := intent.archive;
      if !(a.id in intents && intents[a.id].completed == 0) {
        return Ok(false);
      }
      if intent.job.Some? && intent.job.value in jobs {
        var id := intent.job.value;
        var job := jobs[id];
        if job.owner != a.owner {
          return Err(Refused);
        }
        if job.status.Cancelling? || job.status.Cancelled? || Discarded(job) {
          intents := intents[a.id := intents[a.id].(completed := -1)];
          jobs := jobs[id := Dropped(job, Cancelled, true)];
          return Ok(false);
        }
        jobs := jobs[id := job.(status := Packaging)];
      }
      return Ok(true);
    }

    method Finalize(intent: Intent) returns (r: Result<(), Refusal>)
      modifies this
      ensures (Contents(), r) == FinalizeIntent(old(Contents()), intent)
      ensures FinalizedAs(old(Contents()), (Contents(), r), intent)
      ensures r.Err? ==> Contents() == old(Contents())
    {
      PublishedMeans(Contents(), intent);
      r := RecordArchive(intent);
    }

    /** The check on the archive's identity is the only one that rolls back. */
    method RecordArchive(intent: Intent) returns (r: Result<(), Refusal>)
      modifies this
      ensures (Contents(), r) == FinalizeIntent(old(Contents()), intent)
    {
      var a := intent.archive;
      var coverageRows := ReplaceRows(coverage, a.id, intent.coverage);
      var rows := if a.id in archives then archives else archives[a.id := a];
      if rows[a.id].owner != a.owner || rows[a.id].sha256 != a.sha256 {
        return Err(Refused);
      }
      coverage, archives := coverageRows, rows;
      pages := ReplaceRows(pages, a.id, intent.pages);
      resources := ReplaceRows(resources, a.id, intent.resources);
      CompleteJob(intent);
      if a.id in intents {
        intents := intents[a.id := intents[a.id].(completed := 1)];
      }
      return Ok(());
    }

    method CompleteJob(intent: Intent)
      modifies this`jobs
      ensures jobs == WithArchive(old(jobs), intent)
    {
      if intent.job.Some? && intent.job.value in jobs && jobs[intent.job.value].owner == intent.archive.owner {
        var id := intent.job.value;
        var rt := jobs[id].runtime.(archiveId := Some(intent.archive.id), bytesStored := intent.archive.bytes);
        jobs := jobs[id := Written(jobs[id], intent.finalStatus, rt).(
          archiveFile := Some(intent.archive.file), archiveBytes := Some(intent.archive.bytes))];
      }
    }

    method PreserveControl(id: Id, rt: Runtime)
      modifies this`jobs
      ensures Contents() == SetRuntimePreservingControl(old(Contents()), id, rt)
      ensures OnlyRow(old(jobs), jobs, id)
      ensures id in jobs ==>
                var was := old(jobs)[id].runtime;
                Becomes(old(jobs)[id], jobs[id], old(jobs)[id].status,
                        if was.control == Some(Discard) then
                          rt.(control := Some(Discard), canResume := false, resumeConfig := was.resumeConfig,
                              stopReason := Some("discard"))
                        else rt.(control := was.control),
                        old(jobs)[id].cleanup)
    {
      if id in jobs {
        var was := jobs[id].runtime;
        var next := rt.(control := was.control);
        if was.control == Some(Discard) {
          next := next.(canResume := false, resumeConfig := was.resumeConfig, stopReason := Some("discard"));
        }
        jobs := jobs[id := jobs[id].(runtime := next)];
      }
    }

    method Restore(id: Id, saved: string)
      modifies this`jobs
      ensures Contents() == RestoreCheckpoint(old(Contents()), id, saved)
      ensures OnlyRow(old(jobs), jobs, id)
      ensures id in jobs ==>
                if old(jobs)[id].status == Paused && old(jobs)[id].runtime.control != Some(Discard) then
                  Becomes(old(jobs)[id], jobs[id], Paused,
                          old(jobs)[id].runtime.(canResume := true, resumeConfig := Some(saved),
                                                 stopReason := Some("worker-restart")),
                          old(jobs)[id].cleanup)
                else jobs[id] == old(jobs)[id]
    {
      if id in jobs && jobs[id].status.Paused? && !Discarded(jobs[id]) {
        var rt := jobs[id].runtime;
        rt := rt.(canResume := true, resumeConfig := Some(saved));
        rt := rt.(stopReason := Some("worker-restart"));
        jobs := jobs[id := jobs[id].(runtime := rt)];
      }
    }

    method FinishCleanup(id: Id)
      modifies this`jobs
      ensures Contents() == FinishDiscardCleanup(old(Contents()), id)
      ensures OnlyRow(old(jobs), jobs, id)
      ensures id in jobs ==>
                if old(jobs)[id].status == Cancelled && old(jobs)[id].runtime.control == Some(Discard) then
                  Becomes(old(jobs)[id], jobs[id], Cancelled,
                          old(jobs)[id].runtime.(canResume := false, resumeConfig := None, deadline := None,
                                                 stopReason := Some("discard")),
                          false)
                else jobs[id] == old(jobs)[id]
    {
      if id in jobs && jobs[id].status.Cancelled? && Discarded(jobs[id]) {
        var rt := jobs[id].runtime;
        rt := rt.(canResume := false, resumeConfig := None);
        rt := rt.(deadline := None, stopReason := Some("discard"));
        jobs := jobs[id := jobs[id].(runtime := rt, cleanup := false)];
      }
    }
  }

  method ReplaceRows(table: Table, id: Id, rows: seq<Row>) returns (t: Table)
    ensures t == Replaced(table, id, rows)
  {
    t := map k | k in table && k.0 != id :: table[k];
    for i := 0 to |rows|
      invariant t == Replaced(table, id, rows[..i])
    {
      ReplacedNext(table, id, rows, i);
      t := t[(id, i) := rows[i]];
    }
    assert rows[..|rows|] == rows;
  }

  lemma {:induction false} ReplacedAt(table: Table, id: Id, rows: seq<Row>, k: (Id, nat))
    ensures k in Replaced(table, id, rows) <==> if k.0 == id then k.1 < |rows| else k in table
    ensures k in Replaced(table, id, rows) ==> Replaced(table, id, rows)[k] == if k.0 == id then rows[k.1] else table[k]
  {
    assert k == (k.0, k.1);
  }

  lemma {:induction false} ReplacedNext(table: Table, id: Id, rows: seq<Row>, i: nat)
    requires i < |rows|
    ensures Replaced(table, id, rows[..i + 1]) == Replaced(table, id, rows[..i])[(id, i) := rows[i]]
  {
    var next, was := Replaced(table, id, rows[..i + 1]), Replaced(table, id, rows[..i]);
    forall k: (Id, nat)
      ensures k in next <==> k in was || k == (id, i)
      ensures k in next ==> next[k] == if k == (id, i) then rows[i] else was[k]
    {
      ReplacedAt(table, id, rows[..i + 1], k);
      ReplacedAt(table, id, rows[..i], k);
      assert k == (k.0, k.1);
    }
  }
}
