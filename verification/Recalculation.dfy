/** The recalculator: metrics replayed from the raw artifact alone, with every recorded decision checked. */
module Recalculation {
  import opened Common
  import opened Latency
  import opened Metrics

  /** Why an artifact is rejected. */
  datatype Flaw =
    | UnsupportedSchema | NegativeLatency
    | MissingCompletion | IncompleteWithPassages
    | MissingEvidence | NoLocations | InvalidLocation | MatchesDiffer
    | TooManyMatches | RankDiffers | InvalidRank | RankBeyondPassages
    | NegativeMetric | MetricDiffers
    | NegativeIndexing | NegativeTotal | TotalTooSmall | InvalidPeak

  /** What a prefix of the records adds up to. */
  datatype Tally = Tally(counts: Counts, answerable: nat, abstention: nat, verified: nat, completed: nat)

  const Nothing := Tally(Zero, 0, 0, 0, 0)

  function Plus(a: Tally, b: Tally): Tally {
    Tally(Add(a.counts, b.counts), Sum(a.answerable, b.answerable), Sum(a.abstention, b.abstention),
          Sum(a.verified, b.verified), Sum(a.completed, b.completed))
  }

  lemma PlusAssoc(a: Tally, b: Tally, c: Tally)
    ensures Plus(Plus(a, b), c) == Plus(a, Plus(b, c)) && Plus(a, Nothing) == a && Plus(Nothing, a) == a
  {
    AddAssoc(a.counts, b.counts, c.counts);
    AddZero(a.counts);
  }

  // ----------------------------------------------------------- reading one record

  function ReadErrors(r: Record): Tally {
    if r.status == Errored then Tally(ErrorCounts(r.schemaError), 0, 0, 0, 0) else Nothing
  }

  function ReadCitations(r: Record): Tally {
    var expected := if r.expectedCitationMatches.Some? then r.expectedCitationMatches.value else [];
    Tally(CitedCounts(r.citationMatches, expected), 1, 0, 0, 0)
  }

  function ReadCompletion(r: Record, strict: bool): Result<Tally, Flaw> {
    if strict && r.completed.None? then Err(MissingCompletion)
    else if r.completed == Some(true) then Ok(Tally(Zero, 0, 0, 0, 1))
    else if r.completed == Some(false) && r.retrieved != [] then Err(IncompleteWithPassages)
    else Ok(Nothing)
  }

  predicate HasUnrealPage(locations: seq<Location>) {
    exists i :: 0 <= i < |locations| && locations[i].page < 1
  }

  /** The matches to rank by: rederived from the recorded locations when there are any. */
  function ReadMatches(r: Record, strict: bool): Result<Option<seq<bool>>, Flaw> {
    match r.expectedLocations
    case None =>
      if strict then Err(MissingEvidence) else Ok(r.retrievalMatches)
    case Some(locations) =>
      if locations == [] then Err(NoLocations)
      else if HasUnrealPage(locations) then Err(InvalidLocation)
      else if r.retrievalMatches != Some(MatchesAt5(r.retrieved, locations)) then
        Err(MatchesDiffer)
      else Ok(r.retrievalMatches)
  }

  function ReadRank(r: Record, matches: Option<seq<bool>>): Result<Tally, Flaw> {
    if matches.Some? && |matches.value| > 5 then Err(TooManyMatches)
    else if matches.Some? && r.rank != FirstTrue(matches.value, 0) then Err(RankDiffers)
    else if r.rank.None? then Ok(Nothing)
    else if matches.None? && !(1 <= r.rank.value <= 5) then Err(InvalidRank)
    else if r.rank.value > |r.retrieved| then Err(RankBeyondPassages)
    else Ok(Tally(HitAt(r.rank.value), 0, 0, 0, 0))
  }

  function ReadDecision(r: Record): Tally {
    if r.kind == Answerable then Tally(CorrectAnswer(r.status, r.answerMatch, r.citationMatches), 0, 0, 0, 0)
    else Tally(CorrectAbstention(r.kind, r.status), 0, 1, 0, 0)
  }

  function ReadVerified(r: Record): Tally {
    if r.expectedLocations.Some? then Tally(Zero, 0, 0, 1, 0) else Nothing
  }

  /** The retrieval fields of an answerable case. */
  function ReadRetrieval(r: Record, strict: bool): Result<Tally, Flaw> {
    var completion :- ReadCompletion(r, strict);
    var matches :- ReadMatches(r, strict);
    var ranked :- ReadRank(r, matches);
    Ok(Plus(Plus(completion, ReadVerified(r)), ranked))
  }

  function ReadRecord(r: Record, strict: bool): Result<Tally, Flaw> {
    if r.latency.Some? && r.latency.value < 0.0 then Err(NegativeLatency)
    else if r.kind == Answerable then
      var retrieval :- ReadRetrieval(r, strict);
      Ok(Plus(Plus(Plus(ReadErrors(r), ReadCitations(r)), retrieval), ReadDecision(r)))
    else Ok(Plus(ReadErrors(r), ReadDecision(r)))
  }

  /** The first `n` records together, or the first flaw. */
  function ReadAll(entries: seq<Result<Tally, Flaw>>, n: nat): (r: Result<Tally, Flaw>)
    requires n <= |entries|
  {
    if n == 0 then Ok(Nothing)
    else match ReadAll(entries, n - 1)
         case Err(flaw) => Err(flaw)
         case Ok(before) => if entries[n - 1].Err? then entries[n - 1] else Ok(Plus(before, entries[n - 1].value))
  }

  function Entries(records: seq<Record>, strict: bool): (entries: seq<Result<Tally, Flaw>>)
    ensures |entries| == |records|
  {
    seq(|records|, i requires 0 <= i < |records| => ReadRecord(records[i], strict))
  }

  lemma {:induction false} FlawStays(entries: seq<Result<Tally, Flaw>>, n: nat, m: nat)
    requires n <= m <= |entries| && ReadAll(entries, n).Err?
    ensures ReadAll(entries, m) == ReadAll(entries, n)
  {
    if n < m { FlawStays(entries, n, m - 1); }
  }

  function RecordedTimes(records: seq<Record>, n: nat): seq<real>
    requires n <= |records|
  {
    if n == 0 then [] else RecordedTimes(records, n - 1) + TimeOf(records[n - 1])
  }

  function TimeOf(r: Record): seq<real> {
    if r.latency.Some? then [r.latency.value] else []
  }

  // ------------------------------------------------------------------ the artifact

  /** Metrics as the artifact may record them. */
  datatype Recorded = Recorded(latencyMedian: Option<real>, latencyP95: Option<real>, retrievalRecall: Option<real>,
                               retrievalMrr: Option<real>, schemaErrorRate: Option<real>, citationRecall: Option<real>)

  datatype Raw = Raw(schemaVersion: Schema, records: seq<Record>, extraction: seq<ExtractionCounts>, recorded: Recorded,
                     indexing: Option<real>, totalWall: Option<real>, peakRss: Option<int>)

  datatype Recalculated = Recalculated(tally: Tally, extraction: ExtractionCounts, rates: Rates,
                                       latencyMedian: real, latencyP95: real,
                                       medianMatches: bool, p95Matches: bool, passes: bool)

  /** The schema names the recalculator tells apart, by family and version. */
  datatype Schema = Unnamed | EvaluationResult(v: nat) | AttestedHoldoutRaw(v: nat) | HoldoutRaw(v: nat) | HoldoutV4RawResult(v: nat) | Other

  function Strictness(schema: Schema): Result<bool, Flaw> {
    if schema in {EvaluationResult(4), AttestedHoldoutRaw(1), HoldoutRaw(4)} then Ok(true)
    else if schema in {Unnamed, EvaluationResult(1), EvaluationResult(2), EvaluationResult(3), HoldoutV4RawResult(2), HoldoutRaw(3)} then Ok(false)
    else Err(UnsupportedSchema)
  }

  const TOLERANCE := 0.001001

  function AssertRecorded(recorded: Option<real>, recalculated: real): Result<bool, Flaw> {
    match recorded
    case None => Ok(false)
    case Some(v) =>
      if v < 0.0 then Err(NegativeMetric)
      else if v - recalculated > TOLERANCE || recalculated - v > TOLERANCE then Err(MetricDiffers)
      else Ok(true)
  }

  function CheckSystem(raw: Raw, p95: real): Result<bool, Flaw> {
    var indexing := if raw.indexing.Some? then raw.indexing.value else 0.0;
    if indexing < 0.0 then Err(NegativeIndexing)
    else if raw.totalWall.Some? && raw.totalWall.value < 0.0 then Err(NegativeTotal)
    else if raw.totalWall.Some? && (raw.totalWall.value < indexing || raw.totalWall.value < p95) then
      Err(TotalTooSmall)
    else if raw.peakRss.Some? && raw.peakRss.value <= 0 then Err(InvalidPeak)
    else Ok(true)
  }

  /** The metrics of a tally, if what the artifact records agrees with them. */
  function Finish(raw: Raw, tally: Tally, times: seq<real>): Result<Recalculated, Flaw> {
    var e := ExtractionTotal(raw.extraction, |raw.extraction|);
    var rates := RatesOf(tally.counts, tally.answerable, tally.abstention, |raw.records|, e);
    var median, p95 := Round3(Median(times)), Round3(P95(times));
    var medianMatches :- AssertRecorded(raw.recorded.latencyMedian, median);
    var p95Matches :- AssertRecorded(raw.recorded.latencyP95, p95);
    var _ :- AssertRecorded(raw.recorded.retrievalRecall, rates.retrievalRecall);
    var _ :- AssertRecorded(raw.recorded.retrievalMrr, rates.retrievalMrr);
    var _ :- AssertRecorded(raw.recorded.schemaErrorRate, rates.schemaErrorRate);
    var _ :- AssertRecorded(if tally.counts.citationExpected > 0 then raw.recorded.citationRecall else None, rates.citationRecall);
    var _ :- CheckSystem(raw, p95);
    Ok(Recalculated(tally, e, rates, median, p95, medianMatches, p95Matches, Passes(rates)))
  }

  // -------------------------------------------------------------------- the loop

  method CheckCompletion(r: Record, strict: bool, tally: Tally) returns (result: Result<Tally, Flaw>)
    ensures result == match ReadCompletion(r, strict) case Err(f) => Err(f) case Ok(t) => Ok(Plus(tally, t))
  {
    if strict && r.completed.None? { return Err(MissingCompletion); }
    if r.completed == Some(true) { return Ok(tally.(completed := tally.completed + 1)); }
    if r.completed == Some(false) && r.retrieved != [] { return Err(IncompleteWithPassages); }
    return Ok(tally);
  }

  method CheckLocations(r: Record, strict: bool) returns (result: Result<Option<seq<bool>>, Flaw>)
    ensures result == ReadMatches(r, strict)
  {
    if r.expectedLocations.None? {
      return if strict then Err(MissingEvidence) else Ok(r.retrievalMatches);
    }
    var locations := r.expectedLocations.value;
    if locations == [] { return Err(NoLocations); }
    for i := 0 to |locations|
      invariant forall k :: 0 <= k < i ==> locations[k].page >= 1
    {
      if locations[i].page < 1 { return Err(InvalidLocation); }
    }
    var derived := MatchesAt5(r.retrieved, locations);
    return if r.retrievalMatches == Some(derived) then Ok(Some(derived)) else Err(MatchesDiffer);
  }

  method CheckRank(r: Record, matches: Option<seq<bool>>, tally: Tally) returns (result: Result<Tally, Flaw>)
    ensures result == match ReadRank(r, matches) case Err(f) => Err(f) case Ok(t) => Ok(Plus(tally, t))
  {
    if matches.Some? {
      if |matches.value| > 5 { return Err(TooManyMatches); }
      if r.rank != FirstTrue(matches.value, 0) { return Err(RankDiffers); }
    } else if r.rank.Some? && (r.rank.value < 1 || r.rank.value > 5) {
      return Err(InvalidRank);
    }
    if r.rank.None? { return Ok(tally); }
    if r.rank.value > |r.retrieved| { return Err(RankBeyondPassages); }
    var counts := tally.counts;
    counts := counts.(retrievalHits := counts.retrievalHits + 1, reciprocalRank := counts.reciprocalRank + Reciprocal(r.rank.value));
    return Ok(tally.(counts := counts));
  }

  method RecalculateRetrieval(r: Record, strict: bool, tally: Tally) returns (result: Result<Tally, Flaw>)
    ensures result == match ReadRetrieval(r, strict) case Err(f) => Err(f) case Ok(t) => Ok(Plus(tally, t))
  {
    var completed :- CheckCompletion(r, strict, tally);
    var matches :- CheckLocations(r, strict);
    var verified := if r.expectedLocations.Some? then completed.(verified := completed.verified + 1) else completed;
    var completion := ReadCompletion(r, strict).value;
    VerifiedAdds(completed, r);
    PlusAssoc(tally, completion, ReadVerified(r));
    result := CheckRank(r, matches, verified);
    if result.Ok? {
      PlusAssoc(tally, Plus(completion, ReadVerified(r)), ReadRank(r, matches).value);
    }
  }

  lemma VerifiedAdds(t: Tally, r: Record)
    ensures Plus(t, ReadVerified(r)) == if r.expectedLocations.Some? then t.(verified := t.verified + 1) else t
  {
  }

  method CountCitations(r: Record, tally: Tally) returns (t: Tally)
    ensures t == Plus(tally, ReadCitations(r))
  {
    var c := tally.counts;
    c := c.(citationCorrect := c.citationCorrect + CountTrue(r.citationMatches),
            citationReturned := c.citationReturned + |r.citationMatches|);
    if r.expectedCitationMatches.Some? {
      var matches := r.expectedCitationMatches.value;
      c := c.(citationExpected := c.citationExpected + |matches|,
              citationExpectedMatched := c.citationExpectedMatched + CountTrue(matches));
    }
    t := tally.(answerable := tally.answerable + 1, counts := c);
  }

  method CountErrors(r: Record, tally: Tally) returns (t: Tally)
    ensures t == Plus(tally, ReadErrors(r))
  {
    t := tally;
    if r.status == Errored {
      var c := t.counts;
      t := t.(counts := c.(errors := c.errors + 1, schemaErrors := c.schemaErrors + (if r.schemaError then 1 else 0)));
    }
  }

  method CountDecision(r: Record, tally: Tally) returns (t: Tally)
    ensures t == Plus(tally, ReadDecision(r))
  {
    t := tally;
    if r.kind == Answerable {
      if r.status == Answered && r.answerMatch && true in r.citationMatches {
        t := t.(counts := t.counts.(answerableCorrect := t.counts.answerableCorrect + 1));
      }
    } else {
      t := t.(abstention := t.abstention + 1);
      if Acceptable(r.kind, r.status) {
        t := t.(counts := t.counts.(abstentionCorrect := t.counts.abstentionCorrect + 1));
      }
    }
  }

  method RecalculateCase(r: Record, strict: bool, tally: Tally) returns (result: Result<Tally, Flaw>)
    ensures result == match ReadRecord(r, strict) case Err(f) => Err(f) case Ok(read) => Ok(Plus(tally, read))
  {
    var errors, citations, decision := ReadErrors(r), ReadCitations(r), ReadDecision(r);
    var t := CountErrors(r, tally);
    if r.latency.Some? && r.latency.value < 0.0 { return Err(NegativeLatency); }
    if r.kind == Answerable {
      t := CountCitations(r, t);
      t :- RecalculateRetrieval(r, strict, t);
      var retrieval := ReadRetrieval(r, strict).value;
      PlusAssoc(tally, errors, citations);
      PlusAssoc(tally, Plus(errors, citations), retrieval);
      PlusAssoc(tally, Plus(Plus(errors, citations), retrieval), decision);
    } else {
      PlusAssoc(tally, errors, decision);
    }
    t := CountDecision(r, t);
    return Ok(t);
  }

  lemma EntryAdds(entries: seq<Result<Tally, Flaw>>, i: nat, tally: Tally, next: Result<Tally, Flaw>)
    requires i < |entries| && ReadAll(entries, i) == Ok(tally)
    requires next == match entries[i] case Err(f) => Err(f) case Ok(t) => Ok(Plus(tally, t))
    ensures ReadAll(entries, i + 1) == next
    ensures next.Err? ==> ReadAll(entries, |entries|) == next
  {
    if next.Err? { FlawStays(entries, i + 1, |entries|); }
  }

  method RecalculateNext(records: seq<Record>, strict: bool, i: nat, tally: Tally) returns (next: Result<Tally, Flaw>)
    requires i < |records| && ReadAll(Entries(records, strict), i) == Ok(tally)
    ensures next == ReadAll(Entries(records, strict), i + 1)
    ensures next.Err? ==> ReadAll(Entries(records, strict), |records|) == next
  {
    next := RecalculateCase(records[i], strict, tally);
    EntryAdds(Entries(records, strict), i, tally, next);
  }

  /** The loop over the recorded cases: their sum, or the first flaw. */
  method RecalculateCases(records: seq<Record>, strict: bool) returns (result: Result<Tally, Flaw>, latencies: seq<real>)
    ensures result == ReadAll(Entries(records, strict), |records|)
    ensures result.Ok? ==> latencies == RecordedTimes(records, |records|)
  {
    var tally := Nothing;
    latencies := [];
    for i := 0 to |records|
      invariant ReadAll(Entries(records, strict), i) == Ok(tally)
      invariant latencies == RecordedTimes(records, i)
    {
      var next := RecalculateNext(records, strict, i, tally);
      if next.Err? { return next, latencies; }
      tally := next.value;
      latencies := latencies + TimeOf(records[i]);
    }
    return Ok(tally), latencies;
  }

  /** What the recalculator returns for an artifact. */
  function RecalculationOf(raw: Raw): Result<Recalculated, Flaw> {
    match Strictness(raw.schemaVersion)
    case Err(flaw) => Err(flaw)
    case Ok(strict) =>
      match ReadAll(Entries(raw.records, strict), |raw.records|)
      case Err(flaw) => Err(flaw)
      case Ok(tally) => Finish(raw, tally, RecordedTimes(raw.records, |raw.records|))
  }

  method Recalculate(raw: Raw) returns (result: Result<Recalculated, Flaw>)
    ensures result == RecalculationOf(raw)
  {
    var strict :- Strictness(raw.schemaVersion);
    var tally, latencies := RecalculateCases(raw.records, strict);
    if tally.Err? { return Err(tally.error); }
    result := Finish(raw, tally.value, latencies);
  }
}
