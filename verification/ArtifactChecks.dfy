/** Which artifacts the recalculator accepts and what it counts in them, stated about the recorded values alone. */
module ArtifactChecks {
  import opened Common
  import opened Latency
  import opened Metrics
  import opened Recalculation

  // ------------------------------------------------------------------ a sound record

  /** Entry `k` of the matches says whether passage `k` of the best five is at an expected location. */
  predicate MatchesAreTrue(matches: seq<bool>, retrieved: seq<Location>, expected: seq<Location>) {
    && |matches| == (if |retrieved| < 5 then |retrieved| else 5)
    && forall k :: 0 <= k < |matches| ==> (matches[k] <==> exists j :: 0 <= j < |expected| && expected[j] == retrieved[k])
  }

  /** The rank is the 1-based position of the first match. */
  predicate RankIsTrue(rank: Option<int>, matches: seq<bool>) {
    match rank
    case None => forall k :: 0 <= k < |matches| ==> !matches[k]
    case Some(n) => 1 <= n <= |matches| && matches[n - 1] && forall k :: 0 <= k < n - 1 ==> !matches[k]
  }

  /** The expected locations of an answerable record are real and its matches are those of its passages. */
  predicate EvidenceIsTrue(r: Record, strict: bool) {
    match r.expectedLocations
    case None => !strict
    case Some(locations) =>
      && locations != [] && (forall i :: 0 <= i < |locations| ==> locations[i].page >= 1)
      && r.retrievalMatches.Some? && MatchesAreTrue(r.retrievalMatches.value, r.retrieved, locations)
  }

  predicate RetrievalIsTrue(r: Record, strict: bool) {
    && (strict ==> r.completed.Some?) && (r.completed == Some(false) ==> r.retrieved == [])
    && EvidenceIsTrue(r, strict)
    && (r.retrievalMatches.Some? ==> |r.retrievalMatches.value| <= 5 && RankIsTrue(r.rank, r.retrievalMatches.value))
    && (r.rank.Some? ==> 1 <= r.rank.value <= 5 && r.rank.value <= |r.retrieved|)
  }

  predicate RecordIsTrue(r: Record, strict: bool) {
    (r.latency.Some? ==> 0.0 <= r.latency.value) && (r.kind == Answerable ==> RetrievalIsTrue(r, strict))
  }

  lemma RankExactlyWhen(rank: Option<int>, matches: seq<bool>)
    ensures rank == FirstTrue(matches, 0) <==> RankIsTrue(rank, matches)
  {
    var first := FirstTrue(matches, 0);
    if RankIsTrue(rank, matches) && rank.Some? {
      assert matches[rank.value - 1] && first.Some?;
    }
  }

  lemma MatchesExactlyWhen(matches: seq<bool>, retrieved: seq<Location>, expected: seq<Location>)
    ensures matches == MatchesAt5(retrieved, expected) <==> MatchesAreTrue(matches, retrieved, expected)
  {
    var top, derived := FirstFive(retrieved), MatchesAt5(retrieved, expected);
    forall k | 0 <= k < |derived|
      ensures derived[k] <==> exists j :: 0 <= j < |expected| && expected[j] == retrieved[k]
    {
      assert top[k] == retrieved[k];
      if retrieved[k] in expected {
        var j :| 0 <= j < |expected| && expected[j] == retrieved[k];
      }
    }
  }

  lemma EvidenceExactlyWhen(r: Record, strict: bool)
    ensures ReadMatches(r, strict).Ok? <==> EvidenceIsTrue(r, strict)
    ensures ReadMatches(r, strict).Ok? ==> ReadMatches(r, strict).value == r.retrievalMatches
  {
    if r.expectedLocations.Some? && r.retrievalMatches.Some? {
      MatchesExactlyWhen(r.retrievalMatches.value, r.retrieved, r.expectedLocations.value);
    }
  }

  lemma RankedExactlyWhen(r: Record)
    ensures ReadRank(r, r.retrievalMatches).Ok? <==>
            && (r.retrievalMatches.Some? ==> |r.retrievalMatches.value| <= 5 && RankIsTrue(r.rank, r.retrievalMatches.value))
            && (r.rank.Some? ==> 1 <= r.rank.value <= 5 && r.rank.value <= |r.retrieved|)
  {
    if r.retrievalMatches.Some? { RankExactlyWhen(r.rank, r.retrievalMatches.value); }
  }

  lemma RecordExactlyWhen(r: Record, strict: bool)
    ensures ReadRecord(r, strict).Ok? <==> RecordIsTrue(r, strict)
  {
    EvidenceExactlyWhen(r, strict);
    RankedExactlyWhen(r);
  }

  lemma {:induction false} AllReadExactlyWhen(records: seq<Record>, strict: bool, n: nat)
    requires n <= |records|
    ensures ReadAll(Entries(records, strict), n).Ok? <==> forall i :: 0 <= i < n ==> RecordIsTrue(records[i], strict)
  {
    if n > 0 {
      AllReadExactlyWhen(records, strict, n - 1);
      RecordExactlyWhen(records[n - 1], strict);
    }
  }

  // ------------------------------------------------------------- what is counted

  function IsAnswerable(): Record -> bool { (r: Record) => r.kind == Answerable }
  function IsOther(): Record -> bool { (r: Record) => r.kind != Answerable }
  function IsCompleted(): Record -> bool { (r: Record) => r.kind == Answerable && r.completed == Some(true) }
  function IsVerified(): Record -> bool { (r: Record) => r.kind == Answerable && r.expectedLocations.Some? }
  function IsHit(): Record -> bool { (r: Record) => r.kind == Answerable && r.rank.Some? }
  function IsError(): Record -> bool { (r: Record) => r.status == Errored }
  function IsSchemaError(): Record -> bool { (r: Record) => r.status == Errored && r.schemaError }

  /** Answered as expected with at least one citation that matches. */
  function IsCorrect(): Record -> bool {
    (r: Record) => r.kind == Answerable && r.status == Answered && r.answerMatch
                   && exists i :: 0 <= i < |r.citationMatches| && r.citationMatches[i]
  }

  /** An ambiguous case reported as ambiguous, or any other unanswerable case abstained from. */
  function IsRightlyWithheld(): Record -> bool {
    (r: Record) => (r.kind == Ambiguous && r.status == StatusAmbiguous)
                   || (r.kind in {Unanswerable, Adversarial} && r.status == Abstained)
  }

  function Returned(r: Record): nat { if r.kind == Answerable then |r.citationMatches| else 0 }
  ghost function ReturnedMatched(r: Record): nat { if r.kind == Answerable then Number(r.citationMatches, IsTrue()) else 0 }

  function Decisions(r: Record): seq<bool> {
    if r.kind == Answerable && r.expectedCitationMatches.Some? then r.expectedCitationMatches.value else []
  }

  function Expected(r: Record): nat { |Decisions(r)| }
  ghost function ExpectedMatched(r: Record): nat { Number(Decisions(r), IsTrue()) }

  /** The sum of 1 / rank over the answerable records with a rank. */
  function ReciprocalSum(records: seq<Record>): real
    requires forall i :: 0 <= i < |records| && IsHit()(records[i]) ==> 1 <= records[i].rank.value
  {
    if records == [] then 0.0
    else
      var r := records[|records| - 1];
      ReciprocalSum(records[..|records| - 1]) + if IsHit()(r) then 1.0 / r.rank.value as real else 0.0
  }

  /** The counts of cases are numbers of records. */
  ghost predicate CasesCounted(t: Tally, records: seq<Record>) {
    && t.answerable == Number(records, IsAnswerable()) && t.abstention == Number(records, IsOther())
    && t.completed == Number(records, IsCompleted()) && t.verified == Number(records, IsVerified())
    && t.counts.retrievalHits == Number(records, IsHit())
    && t.counts.errors == Number(records, IsError()) && t.counts.schemaErrors == Number(records, IsSchemaError())
    && t.counts.answerableCorrect == Number(records, IsCorrect())
    && t.counts.abstentionCorrect == Number(records, IsRightlyWithheld())
  }

  /** The counts of citations are sums over answerable records. */
  ghost predicate CitationsCounted(t: Tally, records: seq<Record>) {
    && t.counts.citationReturned == SumOf(records, Returned) && t.counts.citationCorrect == SumOf(records, ReturnedMatched)
    && t.counts.citationExpected == SumOf(records, Expected) && t.counts.citationExpectedMatched == SumOf(records, ExpectedMatched)
  }

  ghost predicate RanksCounted(t: Tally, records: seq<Record>) {
    && (forall i :: 0 <= i < |records| && IsHit()(records[i]) ==> 1 <= records[i].rank.value)
    && t.counts.reciprocalRank == ReciprocalSum(records)
  }

  function Bit(b: bool): nat { if b then 1 else 0 }

  /** What completion, evidence and rank add up to for a record that is read. */
  lemma RetrievalAdds(r: Record, strict: bool, t: Tally)
    requires ReadRetrieval(r, strict) == Ok(t)
    ensures r.rank.Some? ==> 1 <= r.rank.value <= 5
    ensures t == Tally(if r.rank.Some? then HitAt(r.rank.value) else Zero, 0, 0,
                       Bit(r.expectedLocations.Some?), Bit(r.completed == Some(true)))
  {
    EvidenceExactlyWhen(r, strict);
    RankedExactlyWhen(r);
    var ranked := ReadRank(r, r.retrievalMatches).value;
    assert t == Plus(Plus(ReadCompletion(r, strict).value, ReadVerified(r)), ranked);
    AddZero(ranked.counts);
    AddZero(Zero);
  }

  lemma AnswerableAdds(r: Record, strict: bool, t: Tally)
    requires r.kind == Answerable && ReadRecord(r, strict) == Ok(t)
    ensures ReadRetrieval(r, strict).Ok?
    ensures t == Plus(Plus(Plus(ReadErrors(r), ReadCitations(r)), ReadRetrieval(r, strict).value), ReadDecision(r))
  {
  }

  lemma ReadAnswerable(r: Record, strict: bool, t: Tally)
    requires r.kind == Answerable && ReadRecord(r, strict) == Ok(t)
    ensures t.answerable == 1 && t.abstention == 0
    ensures t.completed == Bit(r.completed == Some(true)) && t.verified == Bit(r.expectedLocations.Some?)
    ensures t.counts.retrievalHits == Bit(r.rank.Some?) && t.counts.abstentionCorrect == 0
    ensures t.counts.errors == Bit(r.status == Errored) && t.counts.schemaErrors == Bit(r.status == Errored && r.schemaError)
    ensures t.counts.answerableCorrect == Bit(r.status == Answered && r.answerMatch && true in r.citationMatches)
    ensures r.rank.Some? ==> 1 <= r.rank.value <= 5 && t.counts.reciprocalRank == Reciprocal(r.rank.value)
    ensures r.rank.None? ==> t.counts.reciprocalRank == 0.0
    ensures t.counts.citationReturned == |r.citationMatches| && t.counts.citationCorrect == CountTrue(r.citationMatches)
    ensures t.counts.citationExpected == |Decisions(r)| && t.counts.citationExpectedMatched == CountTrue(Decisions(r))
  {
    AnswerableAdds(r, strict, t);
    var retrieval := ReadRetrieval(r, strict).value;
    RetrievalAdds(r, strict, retrieval);
    FourParts(ReadErrors(r), ReadCitations(r), retrieval, ReadDecision(r), t);
  }

  /** Which part of a record moves which count. */
  lemma FourParts(errors: Tally, citations: Tally, retrieval: Tally, decision: Tally, t: Tally)
    requires t == Plus(Plus(Plus(errors, citations), retrieval), decision)
    ensures t.answerable == errors.answerable + citations.answerable + retrieval.answerable + decision.answerable
    ensures t.abstention == errors.abstention + citations.abstention + retrieval.abstention + decision.abstention
    ensures t.verified == errors.verified + citations.verified + retrieval.verified + decision.verified
    ensures t.completed == errors.completed + citations.completed + retrieval.completed + decision.completed
    ensures var a, b, c, d, e := errors.counts, citations.counts, retrieval.counts, decision.counts, t.counts;
            && e.citationCorrect == a.citationCorrect + b.citationCorrect + c.citationCorrect + d.citationCorrect
            && e.citationReturned == a.citationReturned + b.citationReturned + c.citationReturned + d.citationReturned
            && e.citationExpected == a.citationExpected + b.citationExpected + c.citationExpected + d.citationExpected
            && e.citationExpectedMatched == a.citationExpectedMatched + b.citationExpectedMatched + c.citationExpectedMatched + d.citationExpectedMatched
            && e.answerableCorrect == a.answerableCorrect + b.answerableCorrect + c.answerableCorrect + d.answerableCorrect
            && e.abstentionCorrect == a.abstentionCorrect + b.abstentionCorrect + c.abstentionCorrect + d.abstentionCorrect
            && e.retrievalHits == a.retrievalHits + b.retrievalHits + c.retrievalHits + d.retrievalHits
            && e.reciprocalRank == a.reciprocalRank + b.reciprocalRank + c.reciprocalRank + d.reciprocalRank
            && e.errors == a.errors + b.errors + c.errors + d.errors
            && e.schemaErrors == a.schemaErrors + b.schemaErrors + c.schemaErrors + d.schemaErrors
  {
  }

  lemma ReadOther(r: Record, strict: bool, t: Tally)
    requires r.kind != Answerable && ReadRecord(r, strict) == Ok(t)
    ensures t == Plus(Tally(if r.status == Errored then ErrorCounts(r.schemaError) else Zero, 0, 0, 0, 0),
                      Tally(CorrectAbstention(r.kind, r.status), 0, 1, 0, 0))
  {
  }

  lemma ReadCases(r: Record, strict: bool, t: Tally)
    requires ReadRecord(r, strict) == Ok(t)
    ensures t.answerable == Bit(IsAnswerable()(r)) && t.abstention == Bit(IsOther()(r))
    ensures t.completed == Bit(IsCompleted()(r)) && t.verified == Bit(IsVerified()(r)) && t.counts.retrievalHits == Bit(IsHit()(r))
    ensures t.counts.errors == Bit(IsError()(r)) && t.counts.schemaErrors == Bit(IsSchemaError()(r))
    ensures t.counts.answerableCorrect == Bit(IsCorrect()(r)) && t.counts.abstentionCorrect == Bit(IsRightlyWithheld()(r))
  {
    assert true in r.citationMatches <==> exists i :: 0 <= i < |r.citationMatches| && r.citationMatches[i];
    if r.kind == Answerable { ReadAnswerable(r, strict, t); } else { ReadOther(r, strict, t); }
  }

  lemma ReadCitationCounts(r: Record, strict: bool, t: Tally)
    requires ReadRecord(r, strict) == Ok(t)
    ensures t.counts.citationReturned == Returned(r) && t.counts.citationCorrect == ReturnedMatched(r)
    ensures t.counts.citationExpected == Expected(r) && t.counts.citationExpectedMatched == ExpectedMatched(r)
  {
    CountTrueIsNumber(r.citationMatches);
    CountTrueIsNumber(Decisions(r));
    if r.kind == Answerable { ReadAnswerable(r, strict, t); } else { ReadOther(r, strict, t); }
  }

  lemma ReadRanks(r: Record, strict: bool, t: Tally)
    requires ReadRecord(r, strict) == Ok(t)
    ensures IsHit()(r) ==> 1 <= r.rank.value && t.counts.reciprocalRank == 1.0 / r.rank.value as real
    ensures !IsHit()(r) ==> t.counts.reciprocalRank == 0.0
  {
    if r.kind == Answerable { ReadAnswerable(r, strict, t); } else { ReadOther(r, strict, t); }
  }

  lemma CasesCountedSnoc(records: seq<Record>, r: Record, strict: bool, before: Tally, t: Tally)
    requires CasesCounted(before, records) && ReadRecord(r, strict) == Ok(t)
    ensures CasesCounted(Plus(before, t), records + [r])
  {
    ReadCases(r, strict, t);
    NumberSnoc(records, r, IsAnswerable());
    NumberSnoc(records, r, IsOther());
    NumberSnoc(records, r, IsCompleted());
    NumberSnoc(records, r, IsVerified());
    NumberSnoc(records, r, IsHit());
    NumberSnoc(records, r, IsError());
    NumberSnoc(records, r, IsSchemaError());
    NumberSnoc(records, r, IsCorrect());
    NumberSnoc(records, r, IsRightlyWithheld());
  }

  lemma CitationsCountedSnoc(records: seq<Record>, r: Record, strict: bool, before: Tally, t: Tally)
    requires CitationsCounted(before, records) && ReadRecord(r, strict) == Ok(t)
    ensures CitationsCounted(Plus(before, t), records + [r])
  {
    ReadCitationCounts(r, strict, t);
    SumOfSnoc(records, r, Returned);
    SumOfSnoc(records, r, ReturnedMatched);
    SumOfSnoc(records, r, Expected);
    SumOfSnoc(records, r, ExpectedMatched);
  }

  lemma RanksCountedSnoc(records: seq<Record>, r: Record, strict: bool, before: Tally, t: Tally)
    requires RanksCounted(before, records) && ReadRecord(r, strict) == Ok(t)
    ensures RanksCounted(Plus(before, t), records + [r])
  {
    ReadRanks(r, strict, t);
    var all := records + [r];
    assert all[..|all| - 1] == records;
  }

  lemma NothingCounted(none: seq<Record>)
    requires none == []
    ensures CasesCounted(Nothing, none) && CitationsCounted(Nothing, none) && RanksCounted(Nothing, none)
  {
    NumberOfNone(none, IsAnswerable());
    NumberOfNone(none, IsOther());
    NumberOfNone(none, IsCompleted());
    NumberOfNone(none, IsVerified());
    NumberOfNone(none, IsHit());
    NumberOfNone(none, IsError());
    NumberOfNone(none, IsSchemaError());
    NumberOfNone(none, IsCorrect());
    NumberOfNone(none, IsRightlyWithheld());
  }

  /** The counts in the tally, from the records alone. */
  ghost predicate Counted(t: Tally, records: seq<Record>) {
    CasesCounted(t, records) && CitationsCounted(t, records) && RanksCounted(t, records)
  }

  lemma CountedSnoc(records: seq<Record>, r: Record, strict: bool, before: Tally, t: Tally, all: seq<Record>)
    requires Counted(before, records) && ReadRecord(r, strict) == Ok(t) && all == records + [r]
    ensures Counted(Plus(before, t), all)
  {
    CasesCountedSnoc(records, r, strict, before, t);
    CitationsCountedSnoc(records, r, strict, before, t);
    RanksCountedSnoc(records, r, strict, before, t);
  }

  lemma ReadAllStep(records: seq<Record>, strict: bool, n: nat, t: Tally) returns (before: Tally, read: Tally)
    requires 0 < n <= |records| && ReadAll(Entries(records, strict), n) == Ok(t)
    ensures ReadAll(Entries(records, strict), n - 1) == Ok(before) && ReadRecord(records[n - 1], strict) == Ok(read)
    ensures t == Plus(before, read) && records[..n] == records[..n - 1] + [records[n - 1]]
  {
    before, read := ReadAll(Entries(records, strict), n - 1).value, ReadRecord(records[n - 1], strict).value;
  }

  lemma {:induction false} AllCounted(records: seq<Record>, strict: bool, n: nat, t: Tally)
    requires n <= |records| && ReadAll(Entries(records, strict), n) == Ok(t)
    ensures Counted(t, records[..n])
  {
    if n == 0 {
      NothingCounted(records[..n]);
    } else {
      var before, read := ReadAllStep(records, strict, n, t);
      AllCounted(records, strict, n - 1, before);
      CountedSnoc(records[..n - 1], records[n - 1], strict, before, read, records[..n]);
    }
  }

  // --------------------------------------------------------------- recorded metrics

  /** A recorded metric is not negative and within 0.001001 of the recalculated one. */
  predicate Agrees(recorded: Option<real>, recalculated: real) {
    recorded.Some? ==> 0.0 <= recorded.value && -0.001001 <= recorded.value - recalculated <= 0.001001
  }

  /** The system measurements are possible, and the total time covers its parts. */
  predicate SystemIsPossible(raw: Raw, p95: real) {
    && (raw.indexing.Some? ==> 0.0 <= raw.indexing.value)
    && (raw.totalWall.Some? ==> 0.0 <= raw.totalWall.value && p95 <= raw.totalWall.value)
    && (raw.totalWall.Some? && raw.indexing.Some? ==> raw.indexing.value <= raw.totalWall.value)
    && (raw.peakRss.Some? ==> raw.peakRss.value > 0)
  }

  /** Everything the artifact records about its metrics agrees with the recalculated ones. */
  predicate MetricsAgree(raw: Raw, c: Recalculated) {
    && Agrees(raw.recorded.latencyMedian, c.latencyMedian) && Agrees(raw.recorded.latencyP95, c.latencyP95)
    && Agrees(raw.recorded.retrievalRecall, c.rates.retrievalRecall) && Agrees(raw.recorded.retrievalMrr, c.rates.retrievalMrr)
    && Agrees(raw.recorded.schemaErrorRate, c.rates.schemaErrorRate)
    && (c.tally.counts.citationExpected > 0 ==> Agrees(raw.recorded.citationRecall, c.rates.citationRecall))
    && SystemIsPossible(raw, c.latencyP95)
  }

  /** The metrics of a tally, whatever the artifact records. */
  function MetricsOf(raw: Raw, tally: Tally): Recalculated {
    var times := RecordedTimes(raw.records, |raw.records|);
    var e := ExtractionTotal(raw.extraction, |raw.extraction|);
    var rates := RatesOf(tally.counts, tally.answerable, tally.abstention, |raw.records|, e);
    Recalculated(tally, e, rates, Round3(Median(times)), Round3(P95(times)),
                 raw.recorded.latencyMedian.Some?, raw.recorded.latencyP95.Some?, Passes(rates))
  }

  lemma FinishExactlyWhen(raw: Raw, tally: Tally)
    ensures var result := Finish(raw, tally, RecordedTimes(raw.records, |raw.records|));
            (result.Ok? <==> MetricsAgree(raw, MetricsOf(raw, tally))) && (result.Ok? ==> result.value == MetricsOf(raw, tally))
  {
  }

  predicate SchemaIsKnown(schema: Schema) {
    schema in {Unnamed, EvaluationResult(1), EvaluationResult(2), EvaluationResult(3), EvaluationResult(4),
               AttestedHoldoutRaw(1), HoldoutRaw(3), HoldoutRaw(4), HoldoutV4RawResult(2)}
  }

  /** The schemas whose artifacts must carry their retrieval evidence. */
  predicate SchemaIsStrict(schema: Schema) {
    schema in {EvaluationResult(4), AttestedHoldoutRaw(1), HoldoutRaw(4)}
  }

  /**
    Exactly which artifacts are accepted: those of a known schema whose records are all true and whose recorded metrics
    agree with the counts of those records; and what is returned for them.
   */
  lemma AcceptedExactlyWhen(raw: Raw)
    ensures var strict := SchemaIsStrict(raw.schemaVersion);
            RecalculationOf(raw).Ok? <==>
              && SchemaIsKnown(raw.schemaVersion)
              && (forall i :: 0 <= i < |raw.records| ==> RecordIsTrue(raw.records[i], strict))
              && exists t :: Counted(t, raw.records) && MetricsAgree(raw, MetricsOf(raw, t))
    ensures RecalculationOf(raw).Ok? ==>
              Counted(RecalculationOf(raw).value.tally, raw.records)
              && RecalculationOf(raw).value == MetricsOf(raw, RecalculationOf(raw).value.tally)
  {
    var strict, n := SchemaIsStrict(raw.schemaVersion), |raw.records|;
    AllReadExactlyWhen(raw.records, strict, n);
    var all := ReadAll(Entries(raw.records, strict), n);
    assert raw.records[..n] == raw.records;
    if all.Ok? {
      AllCounted(raw.records, strict, n, all.value);
      FinishExactlyWhen(raw, all.value);
      forall t | Counted(t, raw.records) ensures t == all.value {
        assert t.counts == all.value.counts;
      }
    }
  }
}
