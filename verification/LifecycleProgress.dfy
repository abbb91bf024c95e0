/**
  Progress when the queue keeps one job per document and every exception is one the code handles:
  the status says where the work is, attempts are accounted for, and every document settles.
 */
module LifecycleProgress {
  import opened Common
  import opened Chunking
  import opened Lifecycle
  import Safety = LifecycleSafety
  import Completed = LifecycleCompleted

  /** The queue starts a job only when it holds one for the document; no run dies unhandled. */
  predicate Disciplined(s: State, step: Step) {
    match step
    case Arrive(_, d, t) => d in s.slots && s.slots[d].taskId == t && s.slots[d].job == Pending
    case Crash(_) => false
    case _ => true
  }

  predicate DisciplinedSchedule(s: State, steps: seq<Step>): (b: bool)
    ensures b ==> Schedule(s, steps)
    decreases |steps|
  {
    steps == [] || (Enabled(s, steps[0]) && Disciplined(s, steps[0])
                    && DisciplinedSchedule(Apply(s, steps[0]), steps[1..]))
  }

  /** Audit entries of finished processing attempts. */
  function Recorded(audits: seq<Audit>): nat {
    if audits == [] then 0
    else Recorded(audits[..|audits| - 1])
         + (var result := audits[|audits| - 1].result;
            if result.ProcessRetry? || result.ProcessFailed? || result.ProcessCompleted? then 1 else 0)
  }

  lemma RecordedSnoc(audits: seq<Audit>, last: Audit)
    ensures Recorded(audits + [last]) == Recorded(audits)
              + (if last.result.ProcessRetry? || last.result.ProcessFailed? || last.result.ProcessCompleted? then 1 else 0)
    ensures Recorded(audits + []) == Recorded(audits)
  {
    assert (audits + [last])[..|audits|] == audits;
    assert audits + [] == audits;
  }

  /** The claim the status, the attempt count and the audit log make about a live row. */
  predicate Accounts(row: Row, status: DocumentStatus, inFlight: nat) {
    row.document.deletedAt.None? ==>
      row.document.status == status && row.task.attempts == Recorded(row.audits) + inFlight
  }

  predicate SlotProgress(s: State, d: nat)
    requires d in s.slots
  {
    var slot := s.slots[d];
    var row := slot.row;
    && row.task.attempts <= MAX_ATTEMPTS
    && match slot.job
       case NoJob =>
         if slot.phase == AwaitingEnqueue then row.task.attempts == 0 && Accounts(row, DocQueued, 0)
         else Accounts(row, DocCompleted, 0) || Accounts(row, DocFailed, 0)
       case Pending =>
         slot.phase == Enqueued && row.task.attempts < MAX_ATTEMPTS && Accounts(row, DocQueued, 0)
       case Running(r) =>
         && slot.phase == Enqueued
         && r in s.runs && s.runs[r].doc == d && s.runs[r].task == slot.taskId && !s.runs[r].pc.Finished?
         && if s.runs[r].pc.Arrived? then row.task.attempts < MAX_ATTEMPTS && Accounts(row, DocQueued, 0)
            else row.task.attempts == s.runs[r].pc.attempt && Accounts(row, DocProcessing, 1)
  }

  /** Every run that is still going is the one its document's job is running. */
  predicate RunTracked(s: State, r: nat)
    requires r in s.runs
  {
    s.runs[r].pc.Finished? || (s.runs[r].doc in s.slots && s.slots[s.runs[r].doc].job == Running(r))
  }

  predicate Progress(s: State) {
    && (forall d :: d in s.slots ==> SlotProgress(s, d))
    && (forall r :: r in s.runs ==> RunTracked(s, r))
    && (forall d :: d in s.slots && s.slots[d].row.document.status == DocDeleted ==> s.slots[d].row.document.deletedAt.Some?)
  }

  /** What each transaction adds to the audit log of a row that is not deleted. */
  lemma TransactionsAreRecorded(row: Row, retry: bool, code: string, output: Output, now: nat)
    ensures !Retired(row) ==> Recorded(FailureRecorded(row, retry, code).audits) == Recorded(row.audits) + 1
    ensures !Retired(row) && row.document.status != DocCompleted ==>
              Recorded(Persisted(row, output).audits) == Recorded(row.audits) + 1
    ensures Recorded(EnqueueRefused(row).audits) == Recorded(row.audits)
    ensures Recorded(Uploaded().audits) == 0
  {
    var attempts := row.task.attempts;
    RecordedSnoc(row.audits, Audit(if retry then ProcessRetry else ProcessFailed, Some(code), attempts));
    RecordedSnoc(row.audits, Audit(ProcessCompleted, None, attempts));
    RecordedSnoc(row.audits, Audit(EnqueueFailed, None, attempts));
    RecordedSnoc([], Audit(UploadQueued, None, 0));
    assert [] + [Audit(UploadQueued, None, 0)] == Uploaded().audits;
  }

  /** Same slot, and the same view of the run its job is running. */
  lemma SlotUntouched(s: State, s': State, d: nat)
    requires d in s.slots && SlotProgress(s, d) && d in s'.slots && s'.slots[d] == s.slots[d]
    requires s.slots[d].job.Running? ==>
               s.slots[d].job.run in s'.runs && s'.runs[s.slots[d].job.run] == s.runs[s.slots[d].job.run]
    ensures SlotProgress(s', d)
  {
  }

  /** The run is the one its document's job is running. */
  predicate Tracked(s: State, r: nat) {
    r in s.runs && !s.runs[r].pc.Finished? && s.runs[r].doc in s.slots
    && s.slots[s.runs[r].doc].job == Running(r) && SlotProgress(s, s.runs[r].doc)
  }

  lemma ClaimKeepsSlot(s: State, r: nat)
    requires Tracked(s, r) && s.runs[r].pc.Arrived?
    requires s.slots[s.runs[r].doc].row.document.status == DocDeleted ==> s.slots[s.runs[r].doc].row.document.deletedAt.Some?
    ensures SlotProgress(ClaimStep(s, r), s.runs[r].doc)
  {
  }

  lemma RecordKeepsSlot(s: State, r: nat)
    requires Tracked(s, r) && Failing(s.runs[r].pc)
    requires s.slots[s.runs[r].doc].row.document.status == DocDeleted ==> s.slots[s.runs[r].doc].row.document.deletedAt.Some?
    ensures SlotProgress(RecordStep(s, r), s.runs[r].doc)
  {
    var row, pc := s.slots[s.runs[r].doc].row, s.runs[r].pc;
    TransactionsAreRecorded(row, RetryOf(pc), CodeOf(pc), Output([], ""), 0);
  }

  lemma PersistKeepsSlot(s: State, r: nat, commits: bool)
    requires Tracked(s, r) && s.runs[r].pc.Persisting? && s.runs[r].output.Some?
    requires s.slots[s.runs[r].doc].row.document.status == DocDeleted ==> s.slots[s.runs[r].doc].row.document.deletedAt.Some?
    ensures SlotProgress(PersistStep(s, r, commits), s.runs[r].doc)
  {
    TransactionsAreRecorded(s.slots[s.runs[r].doc].row, false, "", s.runs[r].output.value, 0);
  }

  lemma MoveKeepsSlot(s: State, r: nat, run': Run)
    requires Tracked(s, r) && InFlight(s.runs[r].pc) && InFlight(run'.pc) && run'.pc.attempt == s.runs[r].pc.attempt
    requires run'.doc == s.runs[r].doc && run'.task == s.runs[r].task
    ensures SlotProgress(s.(runs := s.runs[r := run']), s.runs[r].doc)
  {
  }

  lemma ApiKeepsSlot(s: State, step: Step)
    requires Enabled(s, step) && (step.EnqueueSucceeds? || step.EnqueueFails? || step.Delete?)
    requires step.doc in s.slots && SlotProgress(s, step.doc)
    ensures SlotProgress(Apply(s, step), step.doc)
  {
    TransactionsAreRecorded(s.slots[step.doc].row, false, "", Output([], ""), 0);
  }

  lemma ArriveKeepsSlot(s: State, r: nat, d: nat, t: nat)
    requires Enabled(s, Arrive(r, d, t)) && Disciplined(s, Arrive(r, d, t)) && SlotProgress(s, d)
    ensures SlotProgress(Apply(s, Arrive(r, d, t)), d)
  {
  }

  /** The document a step works on. */
  function DocOf(s: State, step: Step): nat
    requires Enabled(s, step)
  {
    match step
    case UploadCommit(d, _, _) => d
    case EnqueueSucceeds(d) => d
    case EnqueueFails(d) => d
    case Delete(d, _) => d
    case Arrive(_, d, _) => d
    case _ => s.runs[step.run].doc
  }

  /** Steps of the upload and delete requests; the others are taken by a run. */
  predicate IsApiStep(step: Step) {
    step.UploadCommit? || step.EnqueueSucceeds? || step.EnqueueFails? || step.Delete?
  }

  /** Steps that leave the rows alone. */
  predicate IsMove(step: Step) {
    step.Fetch? || step.Parse? || step.Stage?
  }

  lemma MoveStepKeepsSlot(s: State, step: Step)
    requires Enabled(s, step) && IsMove(step) && Tracked(s, step.run)
    ensures SlotProgress(Apply(s, step), s.runs[step.run].doc)
  {
    MoveKeepsSlot(s, step.run, Apply(s, step).runs[step.run]);
  }

  lemma StepKeepsItsSlot(s: State, step: Step)
    requires Progress(s) && Enabled(s, step) && Disciplined(s, step) && DocOf(s, step) in Apply(s, step).slots
    ensures SlotProgress(Apply(s, step), DocOf(s, step))
  {
    var d := DocOf(s, step);
    if step.UploadCommit? {
      TransactionsAreRecorded(Uploaded(), false, "", Output([], ""), 0);
    } else if step.Arrive? {
      ArriveKeepsSlot(s, step.run, d, step.task);
    } else if step.Delete? || step.EnqueueFails? || step.EnqueueSucceeds? {
      ApiKeepsSlot(s, step);
    } else {
      var r := step.run;
      assert RunTracked(s, r) && Tracked(s, r);
      if step.Claim? {
        ClaimKeepsSlot(s, r);
      } else if step.Record? {
        RecordKeepsSlot(s, r);
      } else if step.Persist? {
        PersistKeepsSlot(s, r, step.commits);
      } else {
        MoveStepKeepsSlot(s, step);
      }
    }
  }

  predicate TakenBy(step: Step, r: nat) {
    !IsApiStep(step) && step.run == r
  }

  /** A step changes the slot it works on and the run that takes it, and nothing else. */
  lemma StepFrame(s: State, step: Step, s': State)
    requires Enabled(s, step) && s' == Apply(s, step)
    ensures forall d :: d in s.slots && d != DocOf(s, step) ==> d in s'.slots && s'.slots[d] == s.slots[d]
    ensures forall d :: d in s'.slots && d != DocOf(s, step) ==> d in s.slots
    ensures forall r :: r in s.runs && !TakenBy(step, r) ==> r in s'.runs && s'.runs[r] == s.runs[r]
    ensures forall r :: r in s'.runs && !TakenBy(step, r) ==> r in s.runs
  {
  }

  lemma OtherSlotsUntouched(s: State, step: Step, s': State, d: nat)
    requires Progress(s) && Enabled(s, step) && Disciplined(s, step) && s' == Apply(s, step)
    requires d in s.slots && d != DocOf(s, step)
    ensures d in s'.slots && s'.slots[d] == s.slots[d] && SlotProgress(s', d)
    ensures s.slots[d].job.Running? ==> s.slots[d].job.run in s'.runs && s'.runs[s.slots[d].job.run] == s.runs[s.slots[d].job.run]
  {
    StepFrame(s, step, s');
    assert SlotProgress(s, d);
    SlotUntouched(s, s', d);
  }

  lemma OwnTrackingKept(s: State, step: Step, s': State)
    requires Progress(s) && Enabled(s, step) && Disciplined(s, step) && s' == Apply(s, step)
    requires !IsApiStep(step)
    ensures step.run in s'.runs && RunTracked(s', step.run)
  {
    if !step.Arrive? { assert RunTracked(s, step.run); }
  }

  lemma ApiStepsKeepRunningJobs(s: State, step: Step, s': State, d: nat)
    requires Progress(s) && Enabled(s, step) && Disciplined(s, step) && s' == Apply(s, step)
    requires IsApiStep(step)
    requires d in s.slots && s.slots[d].job.Running?
    ensures d in s'.slots && s'.slots[d].job == s.slots[d].job
  {
    assert SlotProgress(s, d);
  }

  lemma StepKeepsTracking(s: State, step: Step, s': State, r: nat)
    requires Progress(s) && Enabled(s, step) && Disciplined(s, step) && s' == Apply(s, step) && r in s'.runs
    ensures RunTracked(s', r)
  {
    StepFrame(s, step, s');
    if TakenBy(step, r) {
      OwnTrackingKept(s, step, s');
    } else {
      assert RunTracked(s, r);
      if !s.runs[r].pc.Finished? {
        var d := s.runs[r].doc;
        if IsApiStep(step) {
          ApiStepsKeepRunningJobs(s, step, s', d);
        } else if !step.Arrive? {
          assert RunTracked(s, step.run);
        }
      }
    }
  }

  lemma DeletedStatusIsMarked(s: State, step: Step, s': State, d: nat)
    requires Progress(s) && Enabled(s, step) && s' == Apply(s, step) && d in s'.slots
    ensures s'.slots[d].row.document.status == DocDeleted ==> s'.slots[d].row.document.deletedAt.Some?
  {
  }

  lemma StepKeepsProgress(s: State, step: Step, s': State)
    requires Progress(s) && Enabled(s, step) && Disciplined(s, step) && s' == Apply(s, step)
    ensures Progress(s')
  {
    StepFrame(s, step, s');
    forall d | d in s'.slots
      ensures SlotProgress(s', d)
      ensures s'.slots[d].row.document.status == DocDeleted ==> s'.slots[d].row.document.deletedAt.Some?
    {
      if d == DocOf(s, step) { StepKeepsItsSlot(s, step); } else { OtherSlotsUntouched(s, step, s', d); }
      DeletedStatusIsMarked(s, step, s', d);
    }
    forall r | r in s'.runs ensures RunTracked(s', r) { StepKeepsTracking(s, step, s', r); }
  }

  lemma {:induction false} ExecKeepsProgress(s: State, steps: seq<Step>)
    requires Progress(s) && DisciplinedSchedule(s, steps)
    ensures Progress(Exec(s, steps))
    decreases |steps|
  {
    if steps != [] {
      StepKeepsProgress(s, steps[0], Apply(s, steps[0]));
      ExecKeepsProgress(Apply(s, steps[0]), steps[1..]);
    }
  }

  // ------------------------------------------------------------- main results

  ghost predicate DisciplinedReachable(s: State) {
    exists steps :: DisciplinedSchedule(Init, steps) && s == Exec(Init, steps)
  }

  lemma DisciplinedReachableProgress(s: State)
    requires DisciplinedReachable(s)
    ensures Progress(s)
  {
    var steps :| DisciplinedSchedule(Init, steps) && s == Exec(Init, steps);
    ExecKeepsProgress(Init, steps);
  }

  /** The number of runs of a document that have claimed it and not yet recorded an end. */
  function InFlightOn(s: State, d: nat): nat
    requires d in s.slots
  {
    var job := s.slots[d].job;
    if job.Running? && job.run in s.runs && InFlight(s.runs[job.run].pc) then 1 else 0
  }

  /**
    A queued document has a job pending, a run about to claim it, or an upload still to enqueue it; a
    processing one has exactly the run its job is running; there are at most three claims; attempts
    are the retry, failed and completed audits plus the run in flight.
   */
  lemma StatusSaysWhereTheWorkIs(s: State, d: nat)
    requires DisciplinedReachable(s) && Live(s, d)
    ensures var slot := s.slots[d];
            var row := slot.row;
            && (row.document.status == DocQueued ==>
                  || (slot.phase == AwaitingEnqueue && row.task.attempts == 0)
                  || (slot.job == Pending && row.task.attempts < MAX_ATTEMPTS)
                  || (slot.job.Running? && slot.job.run in s.runs && s.runs[slot.job.run].pc.Arrived? && row.task.attempts < MAX_ATTEMPTS))
            && (row.document.status == DocProcessing ==>
                  slot.job.Running? && InFlightOn(s, d) == 1
                  && forall r :: r in s.runs && s.runs[r].doc == d && !s.runs[r].pc.Finished? ==> r == slot.job.run)
            && row.task.attempts <= MAX_ATTEMPTS
            && row.task.attempts == Recorded(row.audits) + InFlightOn(s, d)
  {
    DisciplinedReachableProgress(s);
    assert SlotProgress(s, d);
    forall r | r in s.runs && s.runs[r].doc == d && !s.runs[r].pc.Finished? ensures s.slots[d].job == Running(r) {
      assert RunTracked(s, r);
    }
  }

  lemma CompletedIsSettled(s: State, d: nat)
    requires Progress(s) && Safety.IsCompleted(s, d)
    ensures Completed.Settled(s, d)
  {
    assert SlotProgress(s, d);
    forall r ensures !Completed.WorkingOn(s, r, d) {
      if r in s.runs { assert RunTracked(s, r); }
    }
  }

  /**
    Once completed with one active run per document, a document stays completed until it is deleted, even if from
    then on the queue starts further runs of its job.
   */
  lemma CompletedStays(s: State, d: nat)
    requires DisciplinedReachable(s) && Safety.IsCompleted(s, d)
    ensures Completed.StaysCompleted(s, d)
  {
    DisciplinedReachableProgress(s);
    CompletedIsSettled(s, d);
    forall steps | Schedule(s, steps) && Completed.Keeps(steps, d) ensures Safety.IsCompleted(Exec(s, steps), d) {
      Completed.SettledStays(s, steps, d);
    }
  }

  /** Work left for a document: claims not used yet, then how far the present run has come. */
  function Measure(s: State, d: nat): nat {
    if d !in s.slots then 81
    else if s.slots[d].phase == AwaitingEnqueue then 80
    else
      var left := if s.slots[d].row.task.attempts <= MAX_ATTEMPTS then MAX_ATTEMPTS - s.slots[d].row.task.attempts else 0;
      match s.slots[d].job
      case NoJob => 0
      case Pending => 20 * left + 10
      case Running(r) => if r !in s.runs then 0 else 20 * left + PcMeasure(s.runs[r].pc)
  }

  function PcMeasure(pc: Pc): nat {
    match pc
    case Fetching(_) => 18
    case Parsing(_) => 17
    case Staging(_, _) => 16
    case Persisting(_) => 15
    case Arrived => 9
    case Finished(_) => 0
    case _ => 11
  }

  /** Steps that work on a document: all but deleting it, and an upload that the unique index turns away. */
  predicate WorksOn(s: State, step: Step, d: nat)
    requires Enabled(s, step)
  {
    DocOf(s, step) == d && d in Apply(s, step).slots && !step.Delete?
  }

  /** Every step that works on a document uses up some of its work; no other step adds any. */
  lemma WorkDecreases(s: State, step: Step, d: nat)
    requires Progress(s) && Enabled(s, step) && Disciplined(s, step)
    ensures WorksOn(s, step, d) ==> Measure(Apply(s, step), d) < Measure(s, d)
    ensures !WorksOn(s, step, d) ==> Measure(Apply(s, step), d) <= Measure(s, d)
  {
    if d in s.slots && d != DocOf(s, step) {
      OtherSlotsUntouched(s, step, Apply(s, step), d);
    } else if d in s.slots {
      OwnWorkDecreases(s, step);
    } else {
      NewWorkDecreases(s, step, d);
    }
  }

  lemma NewWorkDecreases(s: State, step: Step, d: nat)
    requires Progress(s) && Enabled(s, step) && Disciplined(s, step) && d !in s.slots
    ensures if step.UploadCommit? && d in Apply(s, step).slots then Measure(Apply(s, step), d) == 80
            else d !in Apply(s, step).slots
  {
    if !IsApiStep(step) && !step.Arrive? {
      assert RunTracked(s, step.run);
    }
  }

  lemma ApiWorkDecreases(s: State, step: Step)
    requires Enabled(s, step) && IsApiStep(step) && DocOf(s, step) in s.slots && SlotProgress(s, DocOf(s, step))
    ensures step.Delete? ==> Measure(Apply(s, step), DocOf(s, step)) == Measure(s, DocOf(s, step))
    ensures !step.Delete? ==> Measure(Apply(s, step), DocOf(s, step)) < Measure(s, DocOf(s, step))
  {
  }

  lemma ArrivalWorkDecreases(s: State, step: Step)
    requires Enabled(s, step) && Disciplined(s, step) && step.Arrive? && SlotProgress(s, step.doc)
    ensures Measure(Apply(s, step), step.doc) < Measure(s, step.doc)
  {
  }

  lemma LaterRunHasLessWork(s: State, r: nat, run': Run)
    requires Tracked(s, r) && PcMeasure(run'.pc) < PcMeasure(s.runs[r].pc)
    ensures Measure(s.(runs := s.runs[r := run']), s.runs[r].doc) < Measure(s, s.runs[r].doc)
  {
  }

  lemma MoveWorkDecreases(s: State, step: Step)
    requires Enabled(s, step) && IsMove(step) && Tracked(s, step.run)
    ensures Measure(Apply(s, step), s.runs[step.run].doc) < Measure(s, s.runs[step.run].doc)
  {
    LaterRunHasLessWork(s, step.run, Apply(s, step).runs[step.run]);
  }

  lemma ClaimWorkDecreases(s: State, r: nat)
    requires Tracked(s, r) && s.runs[r].pc.Arrived?
    ensures Measure(ClaimStep(s, r), s.runs[r].doc) < Measure(s, s.runs[r].doc)
  {
  }

  lemma RecordWorkDecreases(s: State, r: nat)
    requires Tracked(s, r) && Failing(s.runs[r].pc)
    ensures Measure(RecordStep(s, r), s.runs[r].doc) < Measure(s, s.runs[r].doc)
  {
  }

  lemma PersistWorkDecreases(s: State, r: nat, commits: bool)
    requires Tracked(s, r) && s.runs[r].pc.Persisting? && s.runs[r].output.Some?
    ensures Measure(PersistStep(s, r, commits), s.runs[r].doc) < Measure(s, s.runs[r].doc)
  {
  }

  lemma OwnWorkDecreases(s: State, step: Step)
    requires Progress(s) && Enabled(s, step) && Disciplined(s, step) && DocOf(s, step) in s.slots
    ensures step.Delete? ==> Measure(Apply(s, step), DocOf(s, step)) == Measure(s, DocOf(s, step))
    ensures !step.Delete? ==> Measure(Apply(s, step), DocOf(s, step)) < Measure(s, DocOf(s, step))
  {
    assert SlotProgress(s, DocOf(s, step));
    if IsApiStep(step) {
      ApiWorkDecreases(s, step);
    } else if step.Arrive? {
      ArrivalWorkDecreases(s, step);
    } else {
      assert RunTracked(s, step.run) && Tracked(s, step.run);
      if step.Claim? {
        ClaimWorkDecreases(s, step.run);
      } else if step.Record? {
        RecordWorkDecreases(s, step.run);
      } else if step.Persist? {
        PersistWorkDecreases(s, step.run, step.commits);
      } else {
        MoveWorkDecreases(s, step);
      }
    }
  }

  /** How many steps of a schedule work on a document. */
  function Work(s: State, steps: seq<Step>, d: nat): nat
    requires DisciplinedSchedule(s, steps)
    decreases |steps|
  {
    if steps == [] then 0
    else (if WorksOn(s, steps[0], d) then 1 else 0) + Work(Apply(s, steps[0]), steps[1..], d)
  }

  /** No schedule works on one document more than 81 times: retries cannot go on for ever. */
  lemma {:induction false} WorkIsBounded(s: State, steps: seq<Step>, d: nat)
    requires Progress(s) && DisciplinedSchedule(s, steps)
    ensures Work(s, steps, d) + Measure(Exec(s, steps), d) <= Measure(s, d)
    decreases |steps|
  {
    if steps != [] {
      WorkDecreases(s, steps[0], d);
      StepKeepsProgress(s, steps[0], Apply(s, steps[0]));
      WorkIsBounded(Apply(s, steps[0]), steps[1..], d);
    }
  }

  /** ... and while a live document is neither completed nor failed, some step works on it. */
  lemma NeverStuck(s: State, d: nat)
    requires DisciplinedReachable(s) && Live(s, d)
    requires s.slots[d].row.document.status != DocCompleted && s.slots[d].row.document.status != DocFailed
    ensures exists step :: Enabled(s, step) && Disciplined(s, step) && WorksOn(s, step, d)
  {
    DisciplinedReachableProgress(s);
    assert SlotProgress(s, d);
    Safety.ReachableKeepsInv(s);
    var slot := s.slots[d];
    if slot.job.Running? { assert Safety.RunOk(s, slot.job.run); }
    var step :=
      match slot.job
      case NoJob => EnqueueFails(d)
      case Pending => Arrive(FreshRun(s.runs.Keys), d, slot.taskId)
      case Running(r) => NextStep(r, s.runs[r].pc);
    assert Enabled(s, step) && Disciplined(s, step) && WorksOn(s, step, d);
  }

  ghost function FreshRun(used: set<nat>): (r: nat)
    ensures r !in used
  {
    FreshExists(used);
    var r: nat :| r !in used;
    r
  }

  lemma FreshExists(used: set<nat>)
    ensures exists r: nat :: r !in used
  {
    var bound := Above(used);
    assert bound !in used;
  }

  lemma {:induction false} Above(used: set<nat>) returns (bound: nat)
    ensures forall r :: r in used ==> r < bound
  {
    if used == {} {
      bound := 0;
    } else {
      var r :| r in used;
      var rest := Above(used - {r});
      assert used == (used - {r}) + {r};
      bound := if rest <= r then r + 1 else rest;
    }
  }
}
