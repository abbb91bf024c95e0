/** What each transaction on a document writes and what it leaves, clause by clause. */
module LifecycleTransactions {
  import opened Common
  import opened Chunking
  import opened Lifecycle

  predicate IsDeleted(row: Row) {
    row.document.deletedAt.Some? || row.document.status == DocDeleted
  }

  /** Cancelling fails the task as deleted and is audited the first time only; cancelling again changes nothing. */
  lemma CancelsOnce(row: Row)
    ensures var after := Cancelled(row);
            && Cancelled(after) == after
            && after.task == Task(TaskFailed, row.task.attempts, Some("document_deleted"))
            && after.document == row.document && after.chunks == row.chunks && after.extractions == row.extractions
            && after.audits == (if row.task.status == TaskFailed && row.task.errorCode == Some("document_deleted") then row.audits
                                else row.audits + [Audit(ProcessCancelled, Some("document_deleted"), row.task.attempts)])
  {
    assert row.audits + [] == row.audits;
    assert Cancelled(row).audits + [] == Cancelled(row).audits;
  }

  /** On a deleted document every transaction of the worker does the same: it cancels the task. */
  lemma DeletedIsOnlyCancelled(row: Row, output: Output, retry: bool, code: string)
    requires IsDeleted(row)
    ensures Claimed(row) == Persisted(row, output) == FailureRecorded(row, retry, code) == Cancelled(row)
  {
  }

  /** A completed document is left alone by claims and by persisting; only a recorded failure writes over it. */
  lemma CompletedIsLeftAlone(row: Row, output: Output, retry: bool, code: string)
    requires !IsDeleted(row) && row.document.status == DocCompleted
    ensures Claimed(row) == row && Persisted(row, output) == row
    ensures var failed := FailureRecorded(row, retry, code);
            && failed.document.status == (if retry then DocQueued else DocFailed) && failed.document.errorCode == Some(code)
            && failed.task == Task(if retry then TaskQueued else TaskFailed, row.task.attempts, Some(code))
            && failed.chunks == row.chunks && failed.extractions == row.extractions
            && failed.audits == row.audits + [Audit(if retry then ProcessRetry else ProcessFailed, Some(code), row.task.attempts)]
  {
  }

  /** Deleting happens once: it empties the document, fails an unfinished task and leaves a finished one as it is. */
  lemma DeletesOnce(row: Row, now: nat, later: nat)
    ensures DeletedAt(DeletedAt(row, now), later) == DeletedAt(row, now)
    ensures row.document.deletedAt.Some? ==> DeletedAt(row, now) == row
    ensures row.document.deletedAt.None? ==>
              DeletedAt(row, now) == Row(Document(DocDeleted, row.document.errorCode, Some(now)),
                                         if row.task.status in {TaskCompleted, TaskFailed} then row.task
                                         else Task(TaskFailed, row.task.attempts, Some("document_deleted")),
                                         [], [], row.audits + [Audit(DeleteSucceeded, None, row.task.attempts)])
  {
  }

  /** A refused enqueue fails both rows whatever they were; a deletion mark and derived data stay. */
  lemma RefusalFailsBoth(row: Row)
    ensures EnqueueRefused(row) == Row(Document(DocFailed, Some("queue_unavailable"), row.document.deletedAt),
                                       Task(TaskFailed, row.task.attempts, Some("queue_unavailable")),
                                       row.chunks, row.extractions, row.audits + [Audit(EnqueueFailed, None, row.task.attempts)])
  {
  }
}
