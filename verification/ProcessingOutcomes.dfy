/** How a call of `process_document` ends and what it leaves, for every document and whatever fails on the way. */
module ProcessingOutcomes {
  import opened Common
  import opened Chunking
  import opened Lifecycle
  import opened Processing

  /** The row is claimed by the call: the document is neither deleted nor completed. */
  predicate Open(row: Row) {
    row.document.deletedAt.None? && row.document.status != DocDeleted && row.document.status != DocCompleted
  }

  /** The error raised while the file is parsed, or while its pages are chunked before any other stage raises. */
  function ParseError(env: Environment): Option<string> {
    if !env.fetched then None
    else if env.parsed.Err? then Some(env.parsed.error)
    else if env.staged != RaisesBeforeChunking && |PagesPieces(env.parsed.value, 900)| > env.maxChunks then Some("too_many_chunks")
    else None
  }

  /** The stages raise outside chunking, or the final commit fails. */
  predicate StagesFail(env: Environment) {
    && env.fetched && env.parsed.Ok?
    && (env.staged == RaisesBeforeChunking
        || (|PagesPieces(env.parsed.value, 900)| <= env.maxChunks && (env.staged == RaisesAfterChunking || !env.commits)))
  }

  /** Both rows are back in the queue with a code. */
  predicate Requeued(before: Row, after: Row, code: string) {
    && after.document == Document(DocQueued, Some(code), before.document.deletedAt)
    && after.task == Task(TaskQueued, before.task.attempts + 1, Some(code))
    && after.audits == before.audits + [Audit(ProcessRetry, Some(code), before.task.attempts + 1)]
    && after.chunks == before.chunks && after.extractions == before.extractions
  }

  /** Both rows have failed for good with a code. */
  predicate FailedFor(before: Row, after: Row, code: string) {
    && after.document == Document(DocFailed, Some(code), before.document.deletedAt)
    && after.task == Task(TaskFailed, before.task.attempts + 1, Some(code))
    && after.audits == before.audits + [Audit(ProcessFailed, Some(code), before.task.attempts + 1)]
    && after.chunks == before.chunks && after.extractions == before.extractions
  }

  /** The document is completed with the pieces of its pages, as chunks of run `r`, and one extraction. */
  predicate CompletedBy(before: Row, after: Row, r: nat, env: Environment)
    requires env.parsed.Ok?
  {
    var pieces := PagesPieces(env.parsed.value, 900);
    && after.document == Document(DocCompleted, None, before.document.deletedAt)
    && after.task == Task(TaskCompleted, before.task.attempts + 1, None)
    && after.audits == before.audits + [Audit(ProcessCompleted, None, before.task.attempts + 1)]
    && |after.chunks| == |pieces|
    && (forall i :: 0 <= i < |pieces| ==>
          after.chunks[i] == ChunkRow(r, DocumentChunk(pieces[i].page, pieces[i].section, i, pieces[i].text)))
    && env.staged.Extracted? && after.extractions == [Extraction("supplier-v1", env.staged.payload)]
  }

  lemma UnreadableFile(row: Row, r: nat, env: Environment)
    requires Open(row) && !env.fetched
    ensures var e := Processed(row, r, env);
            if row.task.attempts + 1 < 3 then e.outcome == RetryRaised && Requeued(row, e.row, "storage_temporarily_unavailable")
            else e.outcome == ReturnedFailed && FailedFor(row, e.row, "storage_unavailable")
  {
  }

  lemma ParseFailure(row: Row, r: nat, env: Environment)
    requires Open(row) && ParseError(env).Some?
    ensures var e := Processed(row, r, env); e.outcome == ReturnedFailed && FailedFor(row, e.row, ParseError(env).value)
  {
  }

  lemma StageFailure(row: Row, r: nat, env: Environment)
    requires Open(row) && StagesFail(env)
    ensures var e := Processed(row, r, env);
            if row.task.attempts + 1 < 3 then e.outcome == RetryRaised && Requeued(row, e.row, "processing_temporarily_unavailable")
            else e.outcome == ReturnedFailed && FailedFor(row, e.row, "processing_failed")
  {
  }

  lemma NothingFails(row: Row, r: nat, env: Environment)
    requires Open(row) && env.fetched && ParseError(env).None? && !StagesFail(env)
    ensures var e := Processed(row, r, env); env.parsed.Ok? && e.outcome == ReturnedCompleted && CompletedBy(row, e.row, r, env)
  {
  }

  /** A closed row is not processed: a deleted document's task is cancelled, a completed document is left alone. */
  lemma ClosedRow(row: Row, r: nat, env: Environment)
    requires !Open(row)
    ensures var e := Processed(row, r, env);
            && e.row.document == row.document && e.row.chunks == row.chunks && e.row.extractions == row.extractions
            && (if row.document.deletedAt.Some? || row.document.status == DocDeleted
                then e.outcome == FoundDeleted && e.row.task == Task(TaskFailed, row.task.attempts, Some("document_deleted"))
                else e.outcome == AlreadyCompleted && e.row == row)
  {
  }

  /**
    How a call ends, for every row and environment. It is retried exactly when the document is open, fewer than three
    attempts are used up and the file is unreadable, a stage raises outside chunking or the commit fails; it completes
    exactly when the document is open and nothing fails.
   */
  lemma CallEndsExactlyWhen(row: Row, r: nat, env: Environment)
    ensures var outcome := Processed(row, r, env).outcome;
            && (outcome == RetryRaised <==> Open(row) && row.task.attempts + 1 < 3 && (!env.fetched || StagesFail(env)))
            && (outcome == ReturnedFailed <==>
                  Open(row) && (ParseError(env).Some? || (row.task.attempts + 1 >= 3 && (!env.fetched || StagesFail(env)))))
            && (outcome == ReturnedCompleted <==> Open(row) && env.fetched && ParseError(env).None? && !StagesFail(env))
            && (outcome == FoundDeleted <==> row.document.deletedAt.Some? || row.document.status == DocDeleted)
            && (outcome == AlreadyCompleted <==> row.document.deletedAt.None? && row.document.status == DocCompleted)
  {
    if !Open(row) {
      ClosedRow(row, r, env);
    } else if !env.fetched {
      UnreadableFile(row, r, env);
    } else if ParseError(env).Some? {
      ParseFailure(row, r, env);
    } else if StagesFail(env) {
      StageFailure(row, r, env);
    } else {
      NothingFails(row, r, env);
    }
  }
}
