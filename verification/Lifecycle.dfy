/**
  The transactions that change a document: the worker's claim, its three failure recorders, the
  cancellation of a deleted document, persisting, deleting and the enqueue-failure handler.
  Each is a method over the mutable rows, proved against a function on row values.
 */
module Lifecycle {
  import opened Common
  import opened Chunking

  datatype DocumentStatus = DocQueued | DocProcessing | DocCompleted | DocFailed | DocDeleted

  datatype TaskStatus = TaskQueued | TaskProcessing | TaskCompleted | TaskFailed

  datatype Document = Document(status: DocumentStatus, errorCode: Option<string>, deletedAt: Option<nat>)

  datatype Task = Task(status: TaskStatus, attempts: nat, errorCode: Option<string>)

  /** A stored chunk. Its id is drawn by the run that produced it, so it names the run. */
  datatype ChunkRow = ChunkRow(producer: nat, chunk: DocumentChunk)

  datatype Extraction = Extraction(schemaVersion: string, payload: string)

  datatype AuditResult =
    | UploadQueued | EnqueueFailed | DeleteSucceeded
    | ProcessRetry | ProcessFailed | ProcessCompleted | ProcessCancelled

  datatype Audit = Audit(result: AuditResult, errorCode: Option<string>, attempt: nat)

  /** What the database holds about one document. */
  datatype Row = Row(document: Document, task: Task, chunks: seq<ChunkRow>,
                     extractions: seq<Extraction>, audits: seq<Audit>)

  /** What a run has computed before it persists. */
  datatype Output = Output(chunks: seq<ChunkRow>, payload: string)

  const DOCUMENT_DELETED := "document_deleted"
  const QUEUE_UNAVAILABLE := "queue_unavailable"
  const SCHEMA_VERSION := "supplier-v1"
  const MAX_CHUNK_CHARS := 900
  const MAX_ATTEMPTS := 3

  /** The check every worker transaction makes after locking. */
  predicate Retired(row: Row) {
    row.document.deletedAt.Some? || row.document.status == DocDeleted
  }

  function StorageErrorCode(retry: bool): string {
    if retry then "storage_temporarily_unavailable" else "storage_unavailable"
  }

  function ProcessingErrorCode(retry: bool): string {
    if retry then "processing_temporarily_unavailable" else "processing_failed"
  }

  // ------------------------------------------------ transactions on row values

  function Uploaded(): Row {
    Row(Document(DocQueued, None, None), Task(TaskQueued, 0, None), [], [],
        [Audit(UploadQueued, None, 0)])
  }

  function Cancelled(row: Row): Row {
    var already := row.task.status == TaskFailed && row.task.errorCode == Some(DOCUMENT_DELETED);
    row.(task := row.task.(status := TaskFailed, errorCode := Some(DOCUMENT_DELETED)),
         audits := row.audits + if already then []
                                else [Audit(ProcessCancelled, Some(DOCUMENT_DELETED), row.task.attempts)])
  }

  function Claimed(row: Row): Row {
    if Retired(row) then Cancelled(row)
    else if row.document.status == DocCompleted then row
    else row.(task := Task(TaskProcessing, row.task.attempts + 1, None),
              document := row.document.(status := DocProcessing, errorCode := None))
  }

  function FailureRecorded(row: Row, retry: bool, code: string): Row {
    if Retired(row) then Cancelled(row)
    else row.(task := row.task.(status := if retry then TaskQueued else TaskFailed, errorCode := Some(code)),
              document := row.document.(status := if retry then DocQueued else DocFailed, errorCode := Some(code)),
              audits := row.audits + [Audit(if retry then ProcessRetry else ProcessFailed, Some(code), row.task.attempts)])
  }

  function Persisted(row: Row, output: Output): Row {
    if Retired(row) then Cancelled(row)
    else if row.document.status == DocCompleted then row
    else Row(row.document.(status := DocCompleted, errorCode := None),
             row.task.(status := TaskCompleted, errorCode := None),
             output.chunks, [Extraction(SCHEMA_VERSION, output.payload)],
             row.audits + [Audit(ProcessCompleted, None, row.task.attempts)])
  }

  function DeletedAt(row: Row, now: nat): Row {
    if row.document.deletedAt.Some? then row
    else row.(document := row.document.(status := DocDeleted, deletedAt := Some(now)),
              task := if row.task.status == TaskCompleted || row.task.status == TaskFailed then row.task
                      else row.task.(status := TaskFailed, errorCode := Some(DOCUMENT_DELETED)),
              chunks := [], extractions := [],
              audits := row.audits + [Audit(DeleteSucceeded, None, row.task.attempts)])
  }

  /** The enqueue-failure handler: it looks at neither the status nor the deletion mark. */
  function EnqueueRefused(row: Row): Row {
    row.(document := row.document.(status := DocFailed, errorCode := Some(QUEUE_UNAVAILABLE)),
         task := row.task.(status := TaskFailed, errorCode := Some(QUEUE_UNAVAILABLE)),
         audits := row.audits + [Audit(EnqueueFailed, None, row.task.attempts)])
  }

  // --------------------------------------------- transactions on mutable rows

  class DocumentRow {
    var status: DocumentStatus
    var errorCode: Option<string>
    var deletedAt: Option<nat>

    constructor ()
      ensures status == DocQueued && errorCode == None && deletedAt == None
    {
      status, errorCode, deletedAt := DocQueued, None, None;
    }
  }

  class TaskRow {
    var status: TaskStatus
    var attempts: nat
    var errorCode: Option<string>

    constructor ()
      ensures status == TaskQueued && attempts == 0 && errorCode == None
    {
      status, attempts, errorCode := TaskQueued, 0, None;
    }
  }

  datatype ClaimReply = ClaimDeleted | ClaimCompleted(chunks: nat) | ClaimGranted(attempt: nat)

  datatype PersistReply = PersistDeleted | PersistCompleted(chunks: nat) | PersistDone

  /** The locked task and document rows, and the tables keyed by the document. */
  class Session {
    const document: DocumentRow
    const task: TaskRow
    var chunks: seq<ChunkRow>
    var extractions: seq<Extraction>
    var audits: seq<Audit>

    function View(): Row
      reads this, document, task
    {
      Row(Document(document.status, document.errorCode, document.deletedAt),
          Task(task.status, task.attempts, task.errorCode), chunks, extractions, audits)
    }

    constructor ()
      ensures View() == Uploaded()
      ensures fresh(this) && fresh(document) && fresh(task)
    {
      document := new DocumentRow();
      task := new TaskRow();
      chunks, extractions := [], [];
      audits := [Audit(UploadQueued, None, 0)];
    }

    method CancelDeletedDocument()
      modifies this, document, task
      ensures View() == Cancelled(old(View()))
    {
      var alreadyCancelled := task.status == TaskFailed && task.errorCode == Some(DOCUMENT_DELETED);
      task.status := TaskFailed;
      task.errorCode := Some(DOCUMENT_DELETED);
      if !alreadyCancelled {
        audits := audits + [Audit(ProcessCancelled, Some(DOCUMENT_DELETED), task.attempts)];
      }
    }

    method Claim() returns (reply: ClaimReply)
      modifies this, document, task
      ensures View() == Claimed(old(View()))
      ensures reply == if Retired(old(View())) then ClaimDeleted
                       else if old(document.status) == DocCompleted then ClaimCompleted(|old(chunks)|)
                       else ClaimGranted(old(task.attempts) + 1)
    {
      if document.deletedAt.Some? || document.status == DocDeleted {
        CancelDeletedDocument();
        return ClaimDeleted;
      }
      if document.status == DocCompleted {
        return ClaimCompleted(|chunks|);
      }
      task.attempts := task.attempts + 1;
      task.status := TaskProcessing;
      task.errorCode := None;
      document.status := DocProcessing;
      document.errorCode := None;
      return ClaimGranted(task.attempts);
    }

    method RecordStorageFailure(retry: bool) returns (deleted: bool)
      modifies this, document, task
      ensures View() == FailureRecorded(old(View()), retry, StorageErrorCode(retry))
      ensures deleted == Retired(old(View()))
    {
      if document.deletedAt.Some? || document.status == DocDeleted {
        CancelDeletedDocument();
        return true;
      }
      task.status := if retry then TaskQueued else TaskFailed;
      document.status := if retry then DocQueued else DocFailed;
      task.errorCode := Some(if retry then "storage_temporarily_unavailable" else "storage_unavailable");
      document.errorCode := task.errorCode;
      audits := audits + [Audit(if retry then ProcessRetry else ProcessFailed, task.errorCode, task.attempts)];
      return false;
    }

    method RecordParseFailure(code: string) returns (deleted: bool)
      modifies this, document, task
      ensures View() == FailureRecorded(old(View()), false, code)
      ensures deleted == Retired(old(View()))
    {
      if document.deletedAt.Some? || document.status == DocDeleted {
        CancelDeletedDocument();
        return true;
      }
      task.status := TaskFailed;
      task.errorCode := Some(code);
      document.status := DocFailed;
      document.errorCode := Some(code);
      audits := audits + [Audit(ProcessFailed, Some(code), task.attempts)];
      return false;
    }

    method RecordProcessingFailure(retry: bool) returns (deleted: bool)
      modifies this, document, task
      ensures View() == FailureRecorded(old(View()), retry, ProcessingErrorCode(retry))
      ensures deleted == Retired(old(View()))
    {
      var code := if retry then "processing_temporarily_unavailable" else "processing_failed";
      if document.deletedAt.Some? || document.status == DocDeleted {
        CancelDeletedDocument();
        return true;
      }
      task.status := if retry then TaskQueued else TaskFailed;
      task.errorCode := Some(code);
      document.status := if retry then DocQueued else DocFailed;
      document.errorCode := Some(code);
      audits := audits + [Audit(if retry then ProcessRetry else ProcessFailed, Some(code), task.attempts)];
      return false;
    }

    method Persist(output: Output) returns (reply: PersistReply)
      modifies this, document, task
      ensures View() == Persisted(old(View()), output)
      ensures reply == if Retired(old(View())) then PersistDeleted
                       else if old(document.status) == DocCompleted then PersistCompleted(|old(chunks)|)
                       else PersistDone
    {
      if document.deletedAt.Some? || document.status == DocDeleted {
        CancelDeletedDocument();
        return PersistDeleted;
      }
      if document.status == DocCompleted {
        return PersistCompleted(|chunks|);
      }
      chunks := [];
      extractions := [];
      chunks := chunks + output.chunks;
      extractions := extractions + [Extraction(SCHEMA_VERSION, output.payload)];
      task.status := TaskCompleted;
      task.errorCode := None;
      document.status := DocCompleted;
      document.errorCode := None;
      audits := audits + [Audit(ProcessCompleted, None, task.attempts)];
      return PersistDone;
    }

    method Delete(now: nat) returns (found: bool)
      modifies this, document, task
      ensures View() == DeletedAt(old(View()), now)
      ensures found == old(document.deletedAt).None?
    {
      if document.deletedAt.Some? {
        return false;
      }
      chunks := [];
      extractions := [];
      if task.status != TaskCompleted && task.status != TaskFailed {
        task.status := TaskFailed;
        task.errorCode := Some(DOCUMENT_DELETED);
      }
      document.status := DocDeleted;
      document.deletedAt := Some(now);
      audits := audits + [Audit(DeleteSucceeded, None, task.attempts)];
      return true;
    }

    method HandleEnqueueFailure()
      modifies this, document, task
      ensures View() == EnqueueRefused(old(View()))
    {
      document.status := DocFailed;
      document.errorCode := Some(QUEUE_UNAVAILABLE);
      task.status := TaskFailed;
      task.errorCode := Some(QUEUE_UNAVAILABLE);
      audits := audits + [Audit(EnqueueFailed, None, task.attempts)];
    }
  }

  // ------------------------------------------------------------ runs and steps

  /** How a run ends: what it returns, `Retry` raised to the queue, or an exception nobody handles. */
  datatype Outcome = Missing | FoundDeleted | AlreadyCompleted | RetryRaised | ReturnedFailed | ReturnedCompleted | Crashed

  /** Where a run of `process_document` is between its transactions. */
  datatype Pc =
    | Arrived
    | Fetching(attempt: nat)
    | Parsing(attempt: nat)
    | Staging(attempt: nat, pages: seq<ParsedPage>)
    | Persisting(attempt: nat)
    | StorageFailing(attempt: nat)
    | ParseFailing(attempt: nat, code: string)
    | ProcessingFailing(attempt: nat)
    | Finished(outcome: Outcome)

  /** A run, its job arguments and, once computed, its output. */
  datatype Run = Run(doc: nat, task: nat, pc: Pc, output: Option<Output>)

  /** Where the upload request is, and what the queue holds for the document. */
  datatype Phase = AwaitingEnqueue | Enqueued | Refused

  datatype Job = NoJob | Pending | Running(run: nat)

  datatype Slot = Slot(row: Row, taskId: nat, key: (nat, string), phase: Phase, job: Job)

  /** How the stages end: an exception before or after chunking, or an extraction payload. */
  datatype StageOutcome = RaisesBeforeChunking | RaisesAfterChunking | Extracted(payload: string)

  datatype State = State(slots: map<nat, Slot>, runs: map<nat, Run>)

  datatype Step =
    | UploadCommit(doc: nat, task: nat, key: (nat, string))
    | EnqueueSucceeds(doc: nat)
    | EnqueueFails(doc: nat)
    | Delete(doc: nat, now: nat)
    | Arrive(run: nat, doc: nat, task: nat)
    | Claim(run: nat)
    | Fetch(run: nat, ok: bool)
    | Parse(run: nat, parsed: Result<seq<ParsedPage>, string>)
    | Stage(run: nat, maxChunks: nat, staged: StageOutcome)
    | Persist(run: nat, commits: bool)
    | Record(run: nat)
    | Crash(run: nat)

  const Init := State(map[], map[])

  predicate Live(s: State, d: nat) {
    d in s.slots && s.slots[d].row.document.deletedAt.None?
  }

  /** The partial unique index on the dossier and content hash of documents that are not deleted. */
  predicate KeyTaken(s: State, key: (nat, string)) {
    exists d :: d in s.slots && Live(s, d) && s.slots[d].key == key
  }

  predicate Enabled(s: State, step: Step) {
    match step
    case UploadCommit(d, t, _) => d !in s.slots && forall e :: e in s.slots ==> s.slots[e].taskId != t
    case EnqueueSucceeds(d) => d in s.slots && s.slots[d].phase == AwaitingEnqueue
    case EnqueueFails(d) => d in s.slots && s.slots[d].phase == AwaitingEnqueue
    case Delete(_, _) => true
    case Arrive(r, _, _) => r !in s.runs
    case Claim(r) => r in s.runs && s.runs[r].pc.Arrived?
    case Fetch(r, _) => r in s.runs && s.runs[r].pc.Fetching?
    case Parse(r, _) => r in s.runs && s.runs[r].pc.Parsing?
    case Stage(r, _, _) => r in s.runs && s.runs[r].pc.Staging?
    case Persist(r, _) => r in s.runs && s.runs[r].pc.Persisting? && s.runs[r].output.Some?
    case Record(r) => r in s.runs && Failing(s.runs[r].pc)
    case Crash(r) => r in s.runs && !s.runs[r].pc.Finished?
  }

  predicate Failing(pc: Pc) {
    pc.StorageFailing? || pc.ParseFailing? || pc.ProcessingFailing?
  }

  /** A run that has claimed the document and not yet recorded how it ended. */
  predicate InFlight(pc: Pc) {
    !pc.Arrived? && !pc.Finished?
  }

  /** What a run does next if it is to fail. */
  function NextStep(r: nat, pc: Pc): Step {
    match pc
    case Arrived => Claim(r)
    case Fetching(_) => Fetch(r, false)
    case Parsing(_) => Parse(r, Err(""))
    case Staging(_, _) => Stage(r, 0, RaisesBeforeChunking)
    case Persisting(_) => Persist(r, false)
    case _ => Record(r)
  }

  /** The lookup by task id and document id that starts every worker transaction. */
  predicate Found(s: State, run: Run) {
    run.doc in s.slots && s.slots[run.doc].taskId == run.task
  }

  function Moved(s: State, r: nat, pc: Pc): State
    requires r in s.runs
  {
    s.(runs := s.runs[r := s.runs[r].(pc := pc)])
  }

  function JobAfter(job: Job, r: nat, outcome: Outcome): Job {
    if job != Running(r) then job else if outcome.RetryRaised? then Pending else NoJob
  }

  /** A transaction of run `r` that leaves `row` and moves on to `pc`. */
  function Committed(s: State, r: nat, row: Row, pc: Pc): State
    requires r in s.runs && s.runs[r].doc in s.slots
  {
    var d := s.runs[r].doc;
    var slot := s.slots[d];
    var job := if pc.Finished? then JobAfter(slot.job, r, pc.outcome) else slot.job;
    Moved(s, r, pc).(slots := s.slots[d := slot.(row := row, job := job)])
  }

  /** A transaction of run `r` that finds its rows gone. */
  function NotFound(s: State, r: nat): State
    requires r in s.runs
  {
    Moved(s, r, Finished(Missing))
  }

  function ClaimStep(s: State, r: nat): State
    requires r in s.runs
  {
    if !Found(s, s.runs[r]) then NotFound(s, r)
    else
      var row := s.slots[s.runs[r].doc].row;
      Committed(s, r, Claimed(row),
                if Retired(row) then Finished(FoundDeleted)
                else if row.document.status == DocCompleted then Finished(AlreadyCompleted)
                else Fetching(row.task.attempts + 1))
  }

  function RowsOf(r: nat, chunks: seq<DocumentChunk>): (rows: seq<ChunkRow>)
    ensures |rows| == |chunks| && forall i :: 0 <= i < |rows| ==> rows[i] == ChunkRow(r, chunks[i])
  {
    seq(|chunks|, i requires 0 <= i < |chunks| => ChunkRow(r, chunks[i]))
  }

  /** Redaction, chunking, embedding and extraction. */
  function StageStep(s: State, r: nat, maxChunks: nat, staged: StageOutcome): State
    requires r in s.runs && s.runs[r].pc.Staging?
  {
    var run := s.runs[r];
    if staged.RaisesBeforeChunking? then Moved(s, r, ProcessingFailing(run.pc.attempt))
    else match ChunksOf(run.pc.pages, MAX_CHUNK_CHARS, maxChunks)
         case Err(code) => Moved(s, r, ParseFailing(run.pc.attempt, code))
         case Ok(chunks) =>
           if staged.RaisesAfterChunking? then Moved(s, r, ProcessingFailing(run.pc.attempt))
           else s.(runs := s.runs[r := run.(pc := Persisting(run.pc.attempt),
                                            output := Some(Output(RowsOf(r, chunks), staged.payload)))])
  }

  function PersistStep(s: State, r: nat, commits: bool): State
    requires r in s.runs && s.runs[r].pc.Persisting? && s.runs[r].output.Some?
  {
    if !commits then Moved(s, r, ProcessingFailing(s.runs[r].pc.attempt))
    else if !Found(s, s.runs[r]) then NotFound(s, r)
    else
      var row := s.slots[s.runs[r].doc].row;
      Committed(s, r, Persisted(row, s.runs[r].output.value),
                Finished(if Retired(row) then FoundDeleted
                         else if row.document.status == DocCompleted then AlreadyCompleted
                         else ReturnedCompleted))
  }

  function RetryOf(pc: Pc): bool
    requires Failing(pc)
  {
    !pc.ParseFailing? && pc.attempt < MAX_ATTEMPTS
  }

  function CodeOf(pc: Pc): string
    requires Failing(pc)
  {
    match pc
    case StorageFailing(_) => StorageErrorCode(RetryOf(pc))
    case ParseFailing(_, code) => code
    case ProcessingFailing(_) => ProcessingErrorCode(RetryOf(pc))
  }

  function RecordStep(s: State, r: nat): State
    requires r in s.runs && Failing(s.runs[r].pc)
  {
    var run := s.runs[r];
    if !Found(s, run) then NotFound(s, r)
    else
      var row := s.slots[run.doc].row;
      Committed(s, r, FailureRecorded(row, RetryOf(run.pc), CodeOf(run.pc)),
                Finished(if Retired(row) then FoundDeleted
                         else if RetryOf(run.pc) then RetryRaised
                         else ReturnedFailed))
  }

  function ArriveStep(s: State, r: nat, d: nat, t: nat): State {
    var run := Run(d, t, Arrived, None);
    var s' := s.(runs := s.runs[r := run]);
    if Found(s, run) && s.slots[d].job == Pending
    then s'.(slots := s.slots[d := s.slots[d].(job := Running(r))])
    else s'
  }

  function Apply(s: State, step: Step): State
    requires Enabled(s, step)
  {
    match step
    case UploadCommit(d, t, key) =>
      if KeyTaken(s, key) then s
      else s.(slots := s.slots[d := Slot(Uploaded(), t, key, AwaitingEnqueue, NoJob)])
    case EnqueueSucceeds(d) => s.(slots := s.slots[d := s.slots[d].(phase := Enqueued, job := Pending)])
    case EnqueueFails(d) =>
      s.(slots := s.slots[d := s.slots[d].(phase := Refused, row := EnqueueRefused(s.slots[d].row))])
    case Delete(d, now) =>
      if d !in s.slots then s
      else s.(slots := s.slots[d := s.slots[d].(row := DeletedAt(s.slots[d].row, now))])
    case Arrive(r, d, t) => ArriveStep(s, r, d, t)
    case Claim(r) => ClaimStep(s, r)
    case Fetch(r, ok) => Moved(s, r, if ok then Parsing(s.runs[r].pc.attempt) else StorageFailing(s.runs[r].pc.attempt))
    case Parse(r, parsed) =>
      Moved(s, r, if parsed.Ok? then Staging(s.runs[r].pc.attempt, parsed.value)
                  else ParseFailing(s.runs[r].pc.attempt, parsed.error))
    case Stage(r, maxChunks, staged) => StageStep(s, r, maxChunks, staged)
    case Persist(r, commits) => PersistStep(s, r, commits)
    case Record(r) => RecordStep(s, r)
    case Crash(r) => Moved(s, r, Finished(Crashed))
  }

  /** Every step of a schedule is enabled when it is taken. */
  predicate Schedule(s: State, steps: seq<Step>)
    decreases |steps|
  {
    steps == [] || (Enabled(s, steps[0]) && Schedule(Apply(s, steps[0]), steps[1..]))
  }

  function Exec(s: State, steps: seq<Step>): State
    requires Schedule(s, steps)
    decreases |steps|
  {
    if steps == [] then s else Exec(Apply(s, steps[0]), steps[1..])
  }
}
