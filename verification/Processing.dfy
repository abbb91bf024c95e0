/** One call of `process_document` from start to end, and how it fits the steps of the protocol. */
module Processing {
  import opened Common
  import opened Chunking
  import opened Lifecycle

  /** What storage, the parser, the stages and the final commit do during a call. */
  datatype Environment = Environment(fetched: bool, parsed: Result<seq<ParsedPage>, string>, maxChunks: nat, staged: StageOutcome, commits: bool)

  /** The row a call leaves and how it ends. */
  datatype Ending = Ending(row: Row, outcome: Outcome)

  function Recorded(row: Row, pc: Pc): Ending
    requires Failing(pc)
  {
    Ending(FailureRecorded(row, RetryOf(pc), CodeOf(pc)),
           if Retired(row) then FoundDeleted else if RetryOf(pc) then RetryRaised else ReturnedFailed)
  }

  function FromPersisting(row: Row, attempt: nat, output: Output, env: Environment): Ending {
    if !env.commits then Recorded(row, ProcessingFailing(attempt))
    else Ending(Persisted(row, output),
                if Retired(row) then FoundDeleted else if row.document.status == DocCompleted then AlreadyCompleted else ReturnedCompleted)
  }

  function FromStaging(row: Row, r: nat, attempt: nat, pages: seq<ParsedPage>, env: Environment): Ending {
    if env.staged.RaisesBeforeChunking? then Recorded(row, ProcessingFailing(attempt))
    else match ChunksOf(pages, MAX_CHUNK_CHARS, env.maxChunks)
         case Err(code) => Recorded(row, ParseFailing(attempt, code))
         case Ok(chunks) =>
           if env.staged.RaisesAfterChunking? then Recorded(row, ProcessingFailing(attempt))
           else FromPersisting(row, attempt, Output(RowsOf(r, chunks), env.staged.payload), env)
  }

  function FromFetching(row: Row, r: nat, attempt: nat, env: Environment): Ending {
    if !env.fetched then Recorded(row, StorageFailing(attempt))
    else match env.parsed
         case Err(code) => Recorded(row, ParseFailing(attempt, code))
         case Ok(pages) => FromStaging(row, r, attempt, pages, env)
  }

  function Processed(row: Row, r: nat, env: Environment): Ending {
    if Retired(row) then Ending(Claimed(row), FoundDeleted)
    else if row.document.status == DocCompleted then Ending(Claimed(row), AlreadyCompleted)
    else FromFetching(Claimed(row), r, row.task.attempts + 1, env)
  }

  // -------------------------------------------------------------------- the call

  method ReportProcessingFailure(session: Session, attempt: nat) returns (outcome: Outcome)
    modifies session, session.document, session.task
    ensures Ending(session.View(), outcome) == Recorded(old(session.View()), ProcessingFailing(attempt))
  {
    var retry := attempt < MAX_ATTEMPTS;
    var deleted := session.RecordProcessingFailure(retry);
    outcome := if deleted then FoundDeleted else if retry then RetryRaised else ReturnedFailed;
  }

  method ReportParseFailure(session: Session, attempt: nat, code: string) returns (outcome: Outcome)
    modifies session, session.document, session.task
    ensures Ending(session.View(), outcome) == Recorded(old(session.View()), ParseFailing(attempt, code))
  {
    var deleted := session.RecordParseFailure(code);
    outcome := if deleted then FoundDeleted else ReturnedFailed;
  }

  method StageAndPersist(session: Session, r: nat, attempt: nat, pages: seq<ParsedPage>, env: Environment) returns (outcome: Outcome)
    modifies session, session.document, session.task
    ensures Ending(session.View(), outcome) == FromStaging(old(session.View()), r, attempt, pages, env)
  {
    if env.staged.RaisesBeforeChunking? {
      outcome := ReportProcessingFailure(session, attempt);
      return;
    }
    var chunked := ChunkPages(pages, MAX_CHUNK_CHARS, env.maxChunks);
    if chunked.Err? {
      outcome := ReportParseFailure(session, attempt, chunked.error);
      return;
    }
    if env.staged.RaisesAfterChunking? || !env.commits {
      outcome := ReportProcessingFailure(session, attempt);
      return;
    }
    var reply := session.Persist(Output(RowsOf(r, chunked.value), env.staged.payload));
    outcome := match reply
               case PersistDeleted => FoundDeleted
               case PersistCompleted(_) => AlreadyCompleted
               case PersistDone => ReturnedCompleted;
  }

  /** The worker's job, when nothing else touches the rows between its transactions. */
  method ProcessDocument(session: Session, r: nat, env: Environment) returns (outcome: Outcome)
    modifies session, session.document, session.task
    ensures Ending(session.View(), outcome) == Processed(old(session.View()), r, env)
  {
    var reply := session.Claim();
    if reply.ClaimDeleted? { return FoundDeleted; }
    if reply.ClaimCompleted? { return AlreadyCompleted; }
    var attempt := reply.attempt;
    if !env.fetched {
      var retry := attempt < MAX_ATTEMPTS;
      var deleted := session.RecordStorageFailure(retry);
      return if deleted then FoundDeleted else if retry then RetryRaised else ReturnedFailed;
    }
    if env.parsed.Err? {
      outcome := ReportParseFailure(session, attempt, env.parsed.error);
      return;
    }
    outcome := StageAndPersist(session, r, attempt, env.parsed.value, env);
  }

  // --------------------------------------------------------------- steps of the call

  predicate StepOf(step: Step, r: nat) {
    match step
    case Claim(q) => q == r
    case Fetch(q, _) => q == r
    case Parse(q, _) => q == r
    case Stage(q, _, _) => q == r
    case Persist(q, _) => q == r
    case Record(q) => q == r
    case _ => false
  }

  predicate StepsOf(steps: seq<Step>, r: nat) {
    forall i :: 0 <= i < |steps| ==> StepOf(steps[i], r)
  }

  predicate EndsWith(s: State, r: nat, d: nat, e: Ending) {
    && r in s.runs && s.runs[r].pc == Finished(e.outcome)
    && d in s.slots && s.slots[d].row == e.row
  }

  /** From `s`, steps of run `r` alone lead to an ending. */
  ghost predicate Leads(s: State, r: nat, d: nat, e: Ending) {
    exists steps :: StepsOf(steps, r) && Schedule(s, steps) && EndsWith(Exec(s, steps), r, d, e)
  }

  /** Run `r` is at `pc` and its document's row is `row`. */
  predicate At(s: State, r: nat, d: nat, pc: Pc, row: Row) {
    && r in s.runs && s.runs[r].doc == d && Found(s, s.runs[r]) && s.runs[r].pc == pc && s.slots[d].row == row
  }

  lemma LeadsAtOnce(s: State, r: nat, d: nat, step: Step, e: Ending)
    requires Enabled(s, step) && StepOf(step, r) && EndsWith(Apply(s, step), r, d, e)
    ensures Leads(s, r, d, e)
  {
    assert Exec(Apply(s, step), []) == Apply(s, step);
    var steps := [step];
    assert steps[1..] == [];
    assert Schedule(s, steps) && Exec(s, steps) == Apply(s, step);
  }

  lemma LeadsOn(s: State, r: nat, d: nat, step: Step, e: Ending)
    requires Enabled(s, step) && StepOf(step, r) && Leads(Apply(s, step), r, d, e)
    ensures Leads(s, r, d, e)
  {
    var rest :| StepsOf(rest, r) && Schedule(Apply(s, step), rest) && EndsWith(Exec(Apply(s, step), rest), r, d, e);
    var steps := [step] + rest;
    assert steps[1..] == rest;
    assert Schedule(s, steps) && Exec(s, steps) == Exec(Apply(s, step), rest);
  }

  lemma RecordLeads(s: State, r: nat, d: nat, pc: Pc, row: Row)
    requires At(s, r, d, pc, row) && Failing(pc)
    ensures Leads(s, r, d, Recorded(row, pc))
  {
    LeadsAtOnce(s, r, d, Record(r), Recorded(row, pc));
  }

  lemma PersistLeads(s: State, r: nat, d: nat, attempt: nat, row: Row, output: Output, env: Environment)
    requires At(s, r, d, Persisting(attempt), row) && s.runs[r].output == Some(output)
    ensures Leads(s, r, d, FromPersisting(row, attempt, output, env))
  {
    var step := Persist(r, env.commits);
    if env.commits {
      LeadsAtOnce(s, r, d, step, FromPersisting(row, attempt, output, env));
    } else {
      RecordLeads(Apply(s, step), r, d, ProcessingFailing(attempt), row);
      LeadsOn(s, r, d, step, FromPersisting(row, attempt, output, env));
    }
  }

  lemma StageLeads(s: State, r: nat, d: nat, attempt: nat, pages: seq<ParsedPage>, row: Row, env: Environment)
    requires At(s, r, d, Staging(attempt, pages), row)
    ensures Leads(s, r, d, FromStaging(row, r, attempt, pages, env))
  {
    var step := Stage(r, env.maxChunks, env.staged);
    var s', chunked := Apply(s, step), ChunksOf(pages, MAX_CHUNK_CHARS, env.maxChunks);
    if env.staged.RaisesBeforeChunking? || (chunked.Ok? && env.staged.RaisesAfterChunking?) {
      RecordLeads(s', r, d, ProcessingFailing(attempt), row);
    } else if chunked.Err? {
      RecordLeads(s', r, d, ParseFailing(attempt, chunked.error), row);
    } else {
      PersistLeads(s', r, d, attempt, row, Output(RowsOf(r, chunked.value), env.staged.payload), env);
    }
    LeadsOn(s, r, d, step, FromStaging(row, r, attempt, pages, env));
  }

  lemma ParseLeads(s: State, r: nat, d: nat, attempt: nat, row: Row, env: Environment)
    requires At(s, r, d, Parsing(attempt), row) && env.fetched
    ensures Leads(s, r, d, FromFetching(row, r, attempt, env))
  {
    var step := Parse(r, env.parsed);
    if env.parsed.Err? {
      RecordLeads(Apply(s, step), r, d, ParseFailing(attempt, env.parsed.error), row);
    } else {
      StageLeads(Apply(s, step), r, d, attempt, env.parsed.value, row, env);
    }
    LeadsOn(s, r, d, step, FromFetching(row, r, attempt, env));
  }

  lemma FetchLeads(s: State, r: nat, d: nat, attempt: nat, row: Row, env: Environment)
    requires At(s, r, d, Fetching(attempt), row)
    ensures Leads(s, r, d, FromFetching(row, r, attempt, env))
  {
    var step := Fetch(r, env.fetched);
    if env.fetched {
      ParseLeads(Apply(s, step), r, d, attempt, row, env);
    } else {
      RecordLeads(Apply(s, step), r, d, StorageFailing(attempt), row);
    }
    LeadsOn(s, r, d, step, FromFetching(row, r, attempt, env));
  }

  /** A call that nothing interferes with is a schedule of the protocol, by its own run alone. */
  lemma CallIsASchedule(s: State, r: nat, d: nat, row: Row, env: Environment)
    requires At(s, r, d, Arrived, row)
    ensures Leads(s, r, d, Processed(row, r, env))
  {
    var step := Claim(r);
    if Retired(row) || row.document.status == DocCompleted {
      LeadsAtOnce(s, r, d, step, Processed(row, r, env));
    } else {
      FetchLeads(Apply(s, step), r, d, row.task.attempts + 1, Claimed(row), env);
      LeadsOn(s, r, d, step, Processed(row, r, env));
    }
  }
}
