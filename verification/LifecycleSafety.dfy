/**
  What holds in every reachable state, whatever the interleaving of uploads, enqueue failures,
  deletes and any number of worker runs, crashed ones included.
 */
module LifecycleSafety {
  import opened Common
  import opened Chunking
  import opened Lifecycle

  predicate Agree(d: DocumentStatus, t: TaskStatus) {
    match d
    case DocQueued => t == TaskQueued
    case DocProcessing => t == TaskProcessing
    case DocCompleted => t == TaskCompleted
    case DocFailed => t == TaskFailed
    case DocDeleted => false
  }

  predicate Empty(row: Row) {
    row.chunks == [] && row.extractions == []
  }

  /** A live document agrees with its task; a deleted one holds no derived data and its task is over. */
  predicate RowOk(row: Row) {
    if row.document.deletedAt.None? then
      Agree(row.document.status, row.task.status) && row.document.errorCode == row.task.errorCode
    else
      Empty(row) && (row.task.status == TaskCompleted || row.task.status == TaskFailed)
  }

  /** The rows are the whole output of run `r`, and of no other. */
  predicate ProducedBy(s: State, d: nat, row: Row, r: nat) {
    && r in s.runs && s.runs[r].doc == d && s.runs[r].output.Some?
    && row.chunks == s.runs[r].output.value.chunks
    && row.extractions == [Extraction(SCHEMA_VERSION, s.runs[r].output.value.payload)]
  }

  ghost predicate Produced(s: State, d: nat, row: Row) {
    exists r :: ProducedBy(s, d, row, r)
  }

  /** A run's own rows, numbered from 0. */
  predicate OutputOf(r: nat, output: Output) {
    forall i :: 0 <= i < |output.chunks| ==> output.chunks[i].producer == r && output.chunks[i].chunk.ordinal == i
  }

  ghost predicate SlotOk(s: State, d: nat)
    requires d in s.slots
  {
    var row := s.slots[d].row;
    && RowOk(row)
    && (Empty(row) || Produced(s, d, row))
    && (row.document.deletedAt.None? && row.document.status == DocCompleted ==> Produced(s, d, row))
  }

  predicate RunOk(s: State, r: nat)
    requires r in s.runs
  {
    && (s.runs[r].output.Some? ==> OutputOf(r, s.runs[r].output.value))
    && (s.runs[r].pc.Persisting? ==> s.runs[r].output.Some?)
  }

  ghost predicate UniqueKeys(s: State) {
    forall d, e :: Live(s, d) && Live(s, e) && s.slots[d].key == s.slots[e].key ==> d == e
  }

  ghost predicate Inv(s: State) {
    && (forall d :: d in s.slots ==> SlotOk(s, d))
    && (forall r :: r in s.runs ==> RunOk(s, r))
    && UniqueKeys(s)
  }

  // ------------------------------------------------------ row-level preservation

  /** What any transaction of the worker does to a row, apart from persisting. */
  predicate KeepsData(before: Row, after: Row) {
    && after.chunks == before.chunks && after.extractions == before.extractions
    && after.document.deletedAt == before.document.deletedAt
    && (after.document.status == DocCompleted ==> before.document.status == DocCompleted)
  }

  lemma ClaimedOk(row: Row)
    requires RowOk(row)
    ensures RowOk(Claimed(row)) && KeepsData(row, Claimed(row))
  {
  }

  lemma FailureRecordedOk(row: Row, retry: bool, code: string)
    requires RowOk(row)
    ensures RowOk(FailureRecorded(row, retry, code)) && KeepsData(row, FailureRecorded(row, retry, code))
  {
  }

  lemma PersistedOk(row: Row, output: Output)
    requires RowOk(row)
    ensures RowOk(Persisted(row, output))
    ensures Persisted(row, output).document.deletedAt == row.document.deletedAt
    ensures KeepsData(row, Persisted(row, output))
            || (Persisted(row, output).chunks == output.chunks
                && Persisted(row, output).extractions == [Extraction(SCHEMA_VERSION, output.payload)])
  {
  }

  // ---------------------------------------------------- state-level preservation

  /** Runs never disappear, and an output once computed never changes. */
  predicate RunsGrow(s: State, s': State) {
    forall r :: r in s.runs ==>
      r in s'.runs && s'.runs[r].doc == s.runs[r].doc
      && (s.runs[r].output.Some? ==> s'.runs[r].output == s.runs[r].output)
  }

  lemma ProducedStays(s: State, s': State, d: nat, row: Row, row': Row)
    requires RunsGrow(s, s') && Produced(s, d, row)
    requires row'.chunks == row.chunks && row'.extractions == row.extractions
    ensures Produced(s', d, row')
  {
    var r :| ProducedBy(s, d, row, r);
    assert ProducedBy(s', d, row', r);
  }

  /** What is needed of the one slot a step touches. */
  ghost predicate GoodChange(s: State, s': State, d: nat)
    requires d in s.slots && d in s'.slots
  {
    && RowOk(s'.slots[d].row)
    && (KeepsData(s.slots[d].row, s'.slots[d].row) || Produced(s', d, s'.slots[d].row)
        || (Empty(s'.slots[d].row) && s'.slots[d].row.document.deletedAt.Some?))
  }

  lemma ChangedSlotOk(s: State, s': State, d: nat)
    requires d in s.slots && SlotOk(s, d) && RunsGrow(s, s') && d in s'.slots && GoodChange(s, s', d)
    ensures SlotOk(s', d)
  {
    if Produced(s, d, s.slots[d].row) && KeepsData(s.slots[d].row, s'.slots[d].row) {
      ProducedStays(s, s', d, s.slots[d].row, s'.slots[d].row);
    }
  }

  lemma SameSlotOk(s: State, s': State, e: nat)
    requires e in s.slots && SlotOk(s, e) && RunsGrow(s, s') && e in s'.slots && s'.slots[e] == s.slots[e]
    ensures SlotOk(s', e)
  {
    if Produced(s, e, s.slots[e].row) { ProducedStays(s, s', e, s.slots[e].row, s'.slots[e].row); }
  }

  /** A step that touches one slot and grows the runs keeps the invariant if that slot stays good. */
  lemma SlotChange(s: State, s': State, d: nat)
    requires Inv(s) && RunsGrow(s, s') && d in s.slots && s'.slots.Keys == s.slots.Keys
    requires forall e :: e in s.slots && e != d ==> s'.slots[e] == s.slots[e]
    requires s'.slots[d].key == s.slots[d].key
    requires s.slots[d].row.document.deletedAt.Some? ==> s'.slots[d].row.document.deletedAt.Some?
    requires forall r :: r in s'.runs ==> RunOk(s', r)
    requires GoodChange(s, s', d)
    ensures Inv(s')
  {
    forall e | e in s'.slots ensures SlotOk(s', e) {
      assert SlotOk(s, e);
      if e == d { ChangedSlotOk(s, s', d); } else { SameSlotOk(s, s', e); }
    }
    assert forall e :: Live(s', e) ==> Live(s, e) && s'.slots[e].key == s.slots[e].key;
  }

  /** A step that changes no slot. */
  lemma RunChange(s: State, s': State)
    requires Inv(s) && RunsGrow(s, s') && s'.slots == s.slots
    requires forall r :: r in s'.runs ==> RunOk(s', r)
    ensures Inv(s')
  {
    forall e | e in s'.slots ensures SlotOk(s', e) {
      assert SlotOk(s, e);
      if Produced(s, e, s.slots[e].row) { ProducedStays(s, s', e, s.slots[e].row, s'.slots[e].row); }
    }
    assert forall e :: Live(s', e) ==> Live(s, e);
  }

  lemma MovedKeepsInv(s: State, r: nat, pc: Pc)
    requires Inv(s) && r in s.runs && (pc.Persisting? ==> s.runs[r].output.Some?)
    ensures Inv(Moved(s, r, pc))
  {
    var s' := Moved(s, r, pc);
    forall q | q in s'.runs ensures RunOk(s', q) { assert RunOk(s, q); }
    RunChange(s, s');
  }

  lemma CommittedKeepsInv(s: State, r: nat, row: Row, pc: Pc)
    requires Inv(s) && r in s.runs && s.runs[r].doc in s.slots && !pc.Persisting?
    requires RowOk(row) && row.document.deletedAt == s.slots[s.runs[r].doc].row.document.deletedAt
    requires KeepsData(s.slots[s.runs[r].doc].row, row) || ProducedBy(s, s.runs[r].doc, row, r)
    ensures Inv(Committed(s, r, row, pc))
  {
    var s', d := Committed(s, r, row, pc), s.runs[r].doc;
    forall q | q in s'.runs ensures RunOk(s', q) { assert RunOk(s, q); }
    if ProducedBy(s, d, row, r) { assert ProducedBy(s', d, row, r); }
    SlotChange(s, s', d);
  }

  lemma UploadKeepsInv(s: State, d: nat, t: nat, key: (nat, string))
    requires Inv(s) && Enabled(s, UploadCommit(d, t, key))
    ensures Inv(Apply(s, UploadCommit(d, t, key)))
  {
    var s' := Apply(s, UploadCommit(d, t, key));
    if !KeyTaken(s, key) {
      assert forall e :: Live(s', e) && e != d ==> Live(s, e);
      forall e | e in s'.slots ensures SlotOk(s', e) {
        if e != d {
          assert SlotOk(s, e);
          if Produced(s, e, s.slots[e].row) { ProducedStays(s, s', e, s.slots[e].row, s'.slots[e].row); }
        }
      }
      forall r | r in s'.runs ensures RunOk(s', r) { assert RunOk(s, r); }
    }
  }

  lemma StageKeepsInv(s: State, r: nat, maxChunks: nat, staged: StageOutcome)
    requires Inv(s) && Enabled(s, Stage(r, maxChunks, staged)) && s.runs[r].output.None?
    ensures Inv(Apply(s, Stage(r, maxChunks, staged)))
  {
    var s', run := Apply(s, Stage(r, maxChunks, staged)), s.runs[r];
    if s'.runs[r].pc.Persisting? {
      ChunkingConservesText(run.pc.pages, MAX_CHUNK_CHARS, maxChunks);
      forall q | q in s'.runs ensures RunOk(s', q) { if q != r { assert RunOk(s, q); } }
      RunChange(s, s');
    } else {
      MovedKeepsInv(s, r, s'.runs[r].pc);
    }
  }

  /** Only a run past its stages has an output. */
  predicate OutputsAreLate(s: State) {
    forall r :: r in s.runs && (s.runs[r].pc.Arrived? || s.runs[r].pc.Fetching? || s.runs[r].pc.Parsing? || s.runs[r].pc.Staging?)
                ==> s.runs[r].output.None?
  }

  lemma StepKeepsOutputsLate(s: State, step: Step)
    requires OutputsAreLate(s) && Enabled(s, step)
    ensures OutputsAreLate(Apply(s, step))
  {
  }

  lemma WorkerStepKeepsInv(s: State, step: Step)
    requires Inv(s) && OutputsAreLate(s) && Enabled(s, step)
    requires step.Claim? || step.Persist? || step.Record?
    ensures Inv(Apply(s, step))
  {
    var r := step.run;
    if Found(s, s.runs[r]) {
      var row := s.slots[s.runs[r].doc].row;
      assert SlotOk(s, s.runs[r].doc) && RunOk(s, r);
      match step
      case Claim(_) =>
        ClaimedOk(row);
        CommittedKeepsInv(s, r, Claimed(row), Apply(s, step).runs[r].pc);
      case Persist(_, commits) =>
        if commits {
          PersistedOk(row, s.runs[r].output.value);
          CommittedKeepsInv(s, r, Persisted(row, s.runs[r].output.value), Apply(s, step).runs[r].pc);
        } else {
          MovedKeepsInv(s, r, Apply(s, step).runs[r].pc);
        }
      case Record(_) =>
        var pc := s.runs[r].pc;
        FailureRecordedOk(row, RetryOf(pc), CodeOf(pc));
        CommittedKeepsInv(s, r, FailureRecorded(row, RetryOf(pc), CodeOf(pc)), Apply(s, step).runs[r].pc);
    } else {
      MovedKeepsInv(s, r, Apply(s, step).runs[r].pc);
    }
  }

  lemma ArriveKeepsInv(s: State, r: nat, d: nat, t: nat)
    requires Inv(s) && Enabled(s, Arrive(r, d, t))
    ensures Inv(Apply(s, Arrive(r, d, t)))
  {
    var s' := Apply(s, Arrive(r, d, t));
    forall q | q in s'.runs ensures RunOk(s', q) { if q != r { assert RunOk(s, q); } }
    if s'.slots == s.slots {
      RunChange(s, s');
    } else {
      assert SlotOk(s, d);
      SlotChange(s, s', d);
    }
  }

  lemma ApiStepKeepsInv(s: State, step: Step)
    requires Inv(s) && Enabled(s, step)
    requires step.EnqueueSucceeds? || step.EnqueueFails? || step.Delete?
    ensures Inv(Apply(s, step))
  {
    var s', d := Apply(s, step), step.doc;
    if d in s.slots {
      assert SlotOk(s, d);
      forall q | q in s'.runs ensures RunOk(s', q) { assert RunOk(s, q); }
      SlotChange(s, s', d);
    }
  }

  lemma StepKeepsInv(s: State, step: Step)
    requires Inv(s) && OutputsAreLate(s) && Enabled(s, step)
    ensures Inv(Apply(s, step)) && OutputsAreLate(Apply(s, step))
  {
    StepKeepsOutputsLate(s, step);
    match step
    case UploadCommit(d, t, key) => UploadKeepsInv(s, d, t, key);
    case EnqueueSucceeds(_) => ApiStepKeepsInv(s, step);
    case EnqueueFails(_) => ApiStepKeepsInv(s, step);
    case Delete(_, _) => ApiStepKeepsInv(s, step);
    case Arrive(r, d, t) => ArriveKeepsInv(s, r, d, t);
    case Claim(_) => WorkerStepKeepsInv(s, step);
    case Persist(_, _) => WorkerStepKeepsInv(s, step);
    case Record(_) => WorkerStepKeepsInv(s, step);
    case Stage(r, maxChunks, staged) => StageKeepsInv(s, r, maxChunks, staged);
    case Fetch(r, _) => MovedKeepsInv(s, r, Apply(s, step).runs[r].pc);
    case Parse(r, _) => MovedKeepsInv(s, r, Apply(s, step).runs[r].pc);
    case Crash(r) => MovedKeepsInv(s, r, Apply(s, step).runs[r].pc);
  }

  lemma {:induction false} ExecKeepsInv(s: State, steps: seq<Step>)
    requires Inv(s) && OutputsAreLate(s) && Schedule(s, steps)
    ensures Inv(Exec(s, steps)) && OutputsAreLate(Exec(s, steps))
    decreases |steps|
  {
    if steps != [] {
      StepKeepsInv(s, steps[0]);
      ExecKeepsInv(Apply(s, steps[0]), steps[1..]);
    }
  }

  ghost predicate Reachable(s: State) {
    exists steps :: Schedule(Init, steps) && s == Exec(Init, steps)
  }

  lemma ReachableKeepsInv(s: State)
    requires Reachable(s)
    ensures Inv(s)
  {
    var steps :| Schedule(Init, steps) && s == Exec(Init, steps);
    ExecKeepsInv(Init, steps);
  }

  // ------------------------------------------------------------- main results

  /**
    In every reachable state a completed document holds exactly the chunks and the single extraction
    of one run, numbered from 0; a live document agrees with its task on status and error code; and
    no two live documents share a dossier and content hash.
   */
  lemma ReachableStatesAreConsistent(s: State, d: nat)
    requires Reachable(s) && Live(s, d)
    ensures var row := s.slots[d].row;
            && Agree(row.document.status, row.task.status)
            && row.document.errorCode == row.task.errorCode
            && (row.document.status == DocCompleted ==>
                  exists r :: ProducedBy(s, d, row, r) && |row.extractions| == 1
                              && forall i :: 0 <= i < |row.chunks| ==>
                                   row.chunks[i].producer == r && row.chunks[i].chunk.ordinal == i)
            && (forall e :: Live(s, e) && s.slots[e].key == s.slots[d].key ==> e == d)
  {
    ReachableKeepsInv(s);
    var row := s.slots[d].row;
    assert SlotOk(s, d);
    if row.document.status == DocCompleted {
      var r :| ProducedBy(s, d, row, r);
      assert RunOk(s, r);
      assert OutputOf(r, s.runs[r].output.value);
    }
  }

  /** Deleted at `at`, with nothing derived left and its task over. */
  predicate Gone(s: State, d: nat, at: nat) {
    && d in s.slots && s.slots[d].row.document.deletedAt == Some(at)
    && Empty(s.slots[d].row)
    && (s.slots[d].row.task.status == TaskCompleted || s.slots[d].row.task.status == TaskFailed)
  }

  lemma StepKeepsGone(s: State, step: Step, d: nat, at: nat)
    requires Gone(s, d, at) && Enabled(s, step)
    ensures Gone(Apply(s, step), d, at)
  {
  }

  /** Deletion is absorbing: no schedule, whatever runs are still in flight, brings anything back. */
  lemma {:induction false} DeletionIsAbsorbing(s: State, steps: seq<Step>, d: nat, at: nat)
    requires Gone(s, d, at) && Schedule(s, steps)
    ensures Gone(Exec(s, steps), d, at)
    decreases |steps|
  {
    if steps != [] {
      StepKeepsGone(s, steps[0], d, at);
      DeletionIsAbsorbing(Apply(s, steps[0]), steps[1..], d, at);
    }
  }

  /** The delete request reaches that absorbing state at once, from any state whatever. */
  lemma DeleteReachesGone(s: State, d: nat, now: nat)
    requires Live(s, d)
    ensures Gone(Apply(s, Delete(d, now)), d, now)
  {
  }

  /** In a reachable state, a deletion mark and being gone are the same thing. */
  lemma DeletedMeansGone(s: State, d: nat, at: nat)
    requires Reachable(s)
    ensures d in s.slots && s.slots[d].row.document.deletedAt == Some(at) <==> Gone(s, d, at)
  {
    ReachableKeepsInv(s);
    if d in s.slots { assert SlotOk(s, d); }
  }

  predicate IsCompleted(s: State, d: nat) {
    Live(s, d) && s.slots[d].row.document.status == DocCompleted
  }

  /**
    Exactly which steps take a completed document back: a failure recorder of another run on it, or
    the enqueue-failure handler. Only deleting it is meant to end the status.
   */
  lemma CompletedRevertsExactlyWhen(s: State, step: Step, d: nat)
    requires IsCompleted(s, d) && Enabled(s, step)
    ensures Live(Apply(s, step), d) && !IsCompleted(Apply(s, step), d) <==>
            || (step.Record? && s.runs[step.run].doc == d && Found(s, s.runs[step.run]))
            || step == EnqueueFails(d)
  {
  }

  lemma {:induction false} ExecSnoc(s: State, steps: seq<Step>, last: Step)
    requires Schedule(s, steps) && Enabled(Exec(s, steps), last)
    ensures Schedule(s, steps + [last]) && Exec(s, steps + [last]) == Apply(Exec(s, steps), last)
    decreases |steps|
  {
    if steps == [] {
      assert steps + [last] == [last];
    } else {
      TailOfAppend(steps, [last]);
      ExecSnoc(Apply(s, steps[0]), steps[1..], last);
    }
  }

  lemma ReachableStep(s: State, step: Step)
    requires Reachable(s) && Enabled(s, step)
    ensures Reachable(Apply(s, step))
  {
    var steps :| Schedule(Init, steps) && s == Exec(Init, steps);
    ExecSnoc(Init, steps, step);
  }

  /** Document 0 with two runs of its job. */
  function TwoRuns(row: Row, pc0: Pc, pc1: Pc, output0: Option<Output>): State {
    State(map[0 := Slot(row, 0, (0, ""), AwaitingEnqueue, NoJob)],
          map[0 := Run(0, 0, pc0, output0), 1 := Run(0, 0, pc1, None)])
  }

  lemma TwoRunsArrive()
    ensures Reachable(TwoRuns(Uploaded(), Arrived, Arrived, None))
  {
    assert Schedule(Init, []) && Exec(Init, []) == Init && !KeyTaken(Init, (0, ""));
    ReachableStep(Init, UploadCommit(0, 0, (0, "")));
    var s := Apply(Init, UploadCommit(0, 0, (0, "")));
    ReachableStep(s, Arrive(0, 0, 0));
    s := Apply(s, Arrive(0, 0, 0));
    ReachableStep(s, Arrive(1, 0, 0));
    assert Apply(s, Arrive(1, 0, 0)) == TwoRuns(Uploaded(), Arrived, Arrived, None);
  }

  /** Any step of a two-run state may be checked against the state it gives. */
  lemma TwoRunsStep(s: State, step: Step, s': State)
    requires Reachable(s) && Enabled(s, step) && Apply(s, step) == s'
    ensures Reachable(s')
  {
    ReachableStep(s, step);
  }

  const CLAIMED_TWICE := Claimed(Claimed(Uploaded()))

  lemma TwoRunsClaim()
    ensures Reachable(TwoRuns(CLAIMED_TWICE, Fetching(1), Fetching(2), None))
  {
    TwoRunsArrive();
    var s0 := TwoRuns(Uploaded(), Arrived, Arrived, None);
    var s1 := TwoRuns(Claimed(Uploaded()), Fetching(1), Arrived, None);
    TwoRunsStep(s0, Claim(0), s1);
    TwoRunsStep(s1, Claim(1), TwoRuns(CLAIMED_TWICE, Fetching(1), Fetching(2), None));
  }

  lemma TwoRunsFetch(row: Row)
    requires Reachable(TwoRuns(row, Fetching(1), Fetching(2), None))
    ensures Reachable(TwoRuns(row, Parsing(1), StorageFailing(2), None))
  {
    var s0 := TwoRuns(row, Fetching(1), Fetching(2), None);
    var s1 := TwoRuns(row, Parsing(1), Fetching(2), None);
    TwoRunsStep(s0, Fetch(0, true), s1);
    TwoRunsStep(s1, Fetch(1, false), TwoRuns(row, Parsing(1), StorageFailing(2), None));
  }

  lemma TwoRunsStage(row: Row)
    requires Reachable(TwoRuns(row, Parsing(1), StorageFailing(2), None))
    ensures Reachable(TwoRuns(row, Persisting(1), StorageFailing(2), Some(Output([], ""))))
  {
    var s0 := TwoRuns(row, Parsing(1), StorageFailing(2), None);
    var s1 := TwoRuns(row, Staging(1, []), StorageFailing(2), None);
    TwoRunsStep(s0, Parse(0, Ok([])), s1);
    TwoRunsStep(s1, Stage(0, 1, Extracted("")), TwoRuns(row, Persisting(1), StorageFailing(2), Some(Output([], ""))));
  }

  lemma TwoRunsPersist(row: Row) returns (s: State)
    requires Reachable(TwoRuns(row, Persisting(1), StorageFailing(2), Some(Output([], ""))))
    requires row.document.deletedAt.None? && row.document.status == DocProcessing
    ensures Reachable(s) && IsCompleted(s, 0) && s.slots[0].taskId == 0
    ensures 1 in s.runs && s.runs[1].pc == StorageFailing(2) && s.runs[1].doc == 0 && s.runs[1].task == 0
  {
    var output := Output([], "");
    s := TwoRuns(Persisted(row, output), Finished(ReturnedCompleted), StorageFailing(2), Some(output));
    TwoRunsStep(TwoRuns(row, Persisting(1), StorageFailing(2), Some(output)), Persist(0, true), s);
  }

  /** Two runs of one job are enough for a completed document to be queued again. */
  lemma CompletedCanRevert() returns (s: State)
    ensures Reachable(s) && IsCompleted(s, 0) && Enabled(s, Record(1))
    ensures Live(Apply(s, Record(1)), 0) && Apply(s, Record(1)).slots[0].row.document.status == DocQueued
  {
    TwoRunsClaim();
    TwoRunsFetch(CLAIMED_TWICE);
    TwoRunsStage(CLAIMED_TWICE);
    s := TwoRunsPersist(CLAIMED_TWICE);
  }
}
