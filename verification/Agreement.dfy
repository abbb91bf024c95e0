/** The recalculator agrees with the runner: replaying a result gives the runner's own metrics. */
module Agreement {
  import opened Common
  import opened Latency
  import opened Metrics
  import opened Runner
  import opened Recalculation
  import Extraction

  /** The result of an evaluation: its metrics and, in `raw`, what the artifact records. */
  datatype Evaluation = Evaluation(counts: Counts, answerable: nat, abstention: nat, extraction: ExtractionCounts,
                                   rates: Rates, passes: bool, raw: Raw)

  function RecordedIn(rates: Rates, times: seq<real>): Recorded {
    Recorded(Some(Round3(Median(times))), Some(Round3(P95(times))), Some(rates.retrievalRecall),
             Some(rates.retrievalMrr), Some(rates.schemaErrorRate), Some(rates.citationRecall))
  }

  function RatesFor(n: nat, details: seq<ExtractionCounts>, counts: Counts, answerable: nat): Rates
    requires answerable <= n
  {
    RatesOf(counts, answerable, n - answerable, n, ExtractionTotal(details, |details|))
  }

  function ArtifactFor(records: seq<Record>, details: seq<ExtractionCounts>, counts: Counts, answerable: nat, times: seq<real>, indexing: real): Raw
    requires answerable <= |records|
  {
    Raw(EvaluationResult(4), records, details, RecordedIn(RatesFor(|records|, details, counts, answerable), times),
        Some(Round3(indexing)), None, None)
  }

  function RatesIn(cases: seq<Case>, outs: seq<Timed>, m: Matcher, details: seq<ExtractionCounts>): Rates
    requires |cases| == |outs|
  {
    RatesFor(|cases|, details, TotalCounts(cases, outs, m, |cases|), AnswerableAmong(cases, |cases|))
  }

  function ArtifactOf(cases: seq<Case>, outs: seq<Timed>, m: Matcher, details: seq<ExtractionCounts>, indexing: real): Raw
    requires |cases| == |outs|
  {
    ArtifactFor(AllRecords(cases, outs, m, |cases|), details, TotalCounts(cases, outs, m, |cases|), AnswerableAmong(cases, |cases|),
                AllTimes(outs, |cases|), indexing)
  }

  /** What the extraction evaluation of a split records, field by field. */
  function DetailsOf(targets: seq<Extraction.Target>, extractions: Extraction.Extractions, split: string,
                     comparison: Extraction.Comparison): seq<ExtractionCounts> {
    Extraction.DetailCounts(targets, extractions, split, comparison, |targets|)
  }

  /** The whole evaluation: the loop over the cases, the extraction evaluation, then the rates and the verdict. */
  method EvaluateManifest(cases: seq<Case>, outs: seq<Timed>, m: Matcher, targets: seq<Extraction.Target>,
                          extractions: Extraction.Extractions, split: string, comparison: Extraction.Comparison, indexing: real)
    returns (e: Evaluation)
    requires |cases| == |outs|
    ensures var details := DetailsOf(targets, extractions, split, comparison);
            && e.raw == ArtifactOf(cases, outs, m, details, indexing)
            && e.extraction == ExtractionTotal(details, |details|)
            && e.rates == RatesIn(cases, outs, m, details) && e.passes == Passes(e.rates)
    ensures e.counts == TotalCounts(cases, outs, m, |cases|) && e.answerable == AnswerableAmong(cases, |cases|)
    ensures e.abstention == |cases| - e.answerable
    ensures e.raw.schemaVersion == EvaluationResult(4) && e.raw.indexing == Some(Round3(indexing)) && |e.raw.records| == |cases|
  {
    var counts, answerable, latencies, records := EvaluateCases(cases, outs, m);
    var abstention := |cases| - answerable;
    var extraction, evaluated := Extraction.EvaluateExtraction(targets, extractions, split, comparison);
    var details := Extraction.CountsIn(evaluated);
    var rates := RatesOf(counts, answerable, abstention, |cases|, extraction);
    var raw := Raw(EvaluationResult(4), records, details, RecordedIn(rates, latencies), Some(Round3(indexing)), None, None);
    e := Evaluation(counts, answerable, abstention, extraction, rates, Passes(rates), raw);
  }

  // -------------------------------------------------------------------- one case

  /** The manifest check an answerable case needs: at least one expected citation, each on a real page. */
  predicate Locatable(c: Case) {
    c.kind == Answerable ==> c.expected != [] && forall i :: 0 <= i < |c.expected| ==> c.expected[i].location.page >= 1
  }

  predicate Elapses(t: Timed) {
    0.0 <= t.elapsed && 0.0 <= t.late
  }

  /** What a failure after the counters started moving leaves counted but not recorded. */
  function LostCounts(c: Case, o: Outcome, m: Matcher): Counts {
    if o.FailsLate? then AnswerCounts(c, o.answer, o.reach, m) else Zero
  }

  function KeptCounts(c: Case, o: Outcome, m: Matcher): Counts {
    if o.FailsLate? then Add(RetrievalCounts(c, o.ranked), ErrorCounts(o.schema)) else CaseCounts(c, o, m)
  }

  lemma AddSwap(a: Counts, b: Counts, c: Counts)
    ensures Add(Add(a, b), c) == Add(Add(a, c), b)
  {
  }

  lemma KeptAndLost(c: Case, o: Outcome, m: Matcher)
    ensures CaseCounts(c, o, m) == Add(KeptCounts(c, o, m), LostCounts(c, o, m))
  {
    if o.FailsLate? {
      AddSwap(RetrievalCounts(c, o.ranked), AnswerCounts(c, o.answer, o.reach, m), ErrorCounts(o.schema));
    } else {
      AddZero(CaseCounts(c, o, m));
    }
  }

  /** Whether a late failure left something counted: an answerable case's citations, or an accepted abstention. */
  predicate CountedLate(c: Case, o: Outcome) {
    o.FailsLate? && o.reach != BeforeCounts && (c.kind == Answerable || (o.reach == AfterDecision && Acceptable(c.kind, o.answer.status)))
  }

  lemma LostExactlyWhenCountedLate(c: Case, o: Outcome, m: Matcher)
    requires Locatable(c)
    ensures LostCounts(c, o, m) == Zero <==> !CountedLate(c, o)
  {
    if o.FailsLate? {
      var citations, decision := CitationCounts(c, o.answer, m), DecisionCounts(c, o.answer, m);
      LostParts(citations, decision);
      assert citations.citationExpected == if c.kind == Answerable then |c.expected| else 0;
      if c.kind != Answerable {
        assert citations == Zero;
        assert decision.abstentionCorrect == if Acceptable(c.kind, o.answer.status) then 1 else 0;
        assert !Acceptable(c.kind, o.answer.status) ==> decision == Zero;
      }
    }
  }

  lemma LostParts(a: Counts, b: Counts)
    ensures Add(a, b).citationExpected >= a.citationExpected && Add(a, b).abstentionCorrect >= b.abstentionCorrect
    ensures a == Zero ==> Add(a, b) == b
  {
  }

  /** What the recalculator reads back from the record of a case. */
  function ReplayedTally(c: Case, o: Outcome, m: Matcher): Tally {
    if c.kind == Answerable then Tally(KeptCounts(c, o, m), 1, 0, 1, if o.RetrievalRaises? then 0 else 1)
    else Tally(KeptCounts(c, o, m), 0, 1, 0, 0)
  }

  lemma LocationsAreReal(c: Case)
    requires c.kind == Answerable
    ensures Locatable(c) <==> Locations(c.expected) != [] && !HasUnrealPage(Locations(c.expected))
  {
    var ls := Locations(c.expected);
    if Locatable(c) {
      assert c.expected[0].location in ls;
      forall k | 0 <= k < |ls| ensures ls[k].page >= 1 {
        assert ls[k] in ls;
      }
    } else if ls != [] {
      assert ls[0] in ls;
      var i :| 0 <= i < |c.expected| && c.expected[i].location.page < 1;
      assert c.expected[i].location in ls;
    }
  }

  /** The retrieval evidence as the runner records it. */
  predicate EvidenceOf(r: Record, c: Case, o: Outcome) {
    && r.completed == Some(!o.RetrievalRaises?) && r.retrieved == RankedIn(o)
    && r.expectedLocations == Some(Locations(c.expected))
    && r.retrievalMatches == Some(MatchesFor(c, o)) && r.rank == FirstTrue(MatchesFor(c, o), 0)
  }

  function ReplayedRetrieval(c: Case, o: Outcome): Tally {
    if o.RetrievalRaises? then Tally(Zero, 0, 0, 1, 0) else Tally(RetrievalCounts(c, o.ranked), 0, 0, 1, 1)
  }

  /** The retrieval evidence the runner records always passes, except for unreal expected locations. */
  lemma RetrievalReplays(c: Case, o: Outcome, r: Record)
    requires c.kind == Answerable && EvidenceOf(r, c, o)
    ensures ReadRetrieval(r, true).Ok? <==> Locatable(c)
    ensures Locatable(c) ==> ReadRetrieval(r, true) == Ok(ReplayedRetrieval(c, o))
  {
    LocationsAreReal(c);
    MatchesReplay(c, o, r);
    if Locatable(c) {
      RankReplays(c, o, r);
      PartsReplay(if o.RetrievalRaises? then Zero else RetrievalCounts(c, o.ranked), if o.RetrievalRaises? then 0 else 1);
    }
  }

  function Completion(o: Outcome): Tally {
    if o.RetrievalRaises? then Nothing else Tally(Zero, 0, 0, 0, 1)
  }

  lemma PartsReplay(counts: Counts, completed: nat)
    ensures Plus(Plus(Tally(Zero, 0, 0, 0, completed), Tally(Zero, 0, 0, 1, 0)), Tally(counts, 0, 0, 0, 0)) ==
            Tally(counts, 0, 0, 1, completed)
  {
    AddZero(counts);
  }

  lemma MatchesReplay(c: Case, o: Outcome, r: Record)
    requires c.kind == Answerable && EvidenceOf(r, c, o)
    ensures ReadCompletion(r, true) == Ok(Completion(o))
    ensures ReadMatches(r, true) == if Locations(c.expected) == [] then Err(NoLocations)
                                    else if HasUnrealPage(Locations(c.expected)) then Err(InvalidLocation)
                                    else Ok(Some(MatchesFor(c, o)))
  {
    assert MatchesFor(c, o) == MatchesAt5(RankedIn(o), Locations(c.expected));
  }

  lemma RankReplays(c: Case, o: Outcome, r: Record)
    requires c.kind == Answerable && EvidenceOf(r, c, o)
    ensures ReadRank(r, Some(MatchesFor(c, o))) ==
            Ok(Tally(if o.RetrievalRaises? then Zero else RetrievalCounts(c, o.ranked), 0, 0, 0, 0))
  {
    assert MatchesFor(c, o) == MatchesAt5(RankedIn(o), Locations(c.expected));
  }

  /** What retrieval contributed, if it got that far. */
  function RetrievedCounts(c: Case, o: Outcome): Counts {
    if o.RetrievalRaises? then Zero else RetrievalCounts(c, o.ranked)
  }

  lemma KeptOf(c: Case, o: Outcome, m: Matcher)
    ensures o.Succeeds? ==> KeptCounts(c, o, m) == Add(RetrievedCounts(c, o), Add(CitationCounts(c, o.answer, m), DecisionCounts(c, o.answer, m)))
    ensures !o.Succeeds? ==> KeptCounts(c, o, m) == Add(RetrievedCounts(c, o), ErrorCounts(o.schema))
  {
  }

  lemma SumsOf(retrieved: Counts, a: Counts, b: Counts, completed: nat)
    ensures Plus(Plus(Plus(Nothing, Tally(a, 1, 0, 0, 0)), Tally(retrieved, 0, 0, 1, completed)), Tally(b, 0, 0, 0, 0)) ==
            Tally(Add(retrieved, Add(a, b)), 1, 0, 1, completed)
    ensures Plus(Plus(Plus(Tally(a, 0, 0, 0, 0), Tally(Zero, 1, 0, 0, 0)), Tally(retrieved, 0, 0, 1, completed)), Tally(Zero, 0, 0, 0, 0)) ==
            Tally(Add(retrieved, a), 1, 0, 1, completed)
    ensures Plus(Nothing, Tally(b, 0, 1, 0, 0)) == Tally(Add(Zero, Add(Zero, b)), 0, 1, 0, 0)
    ensures Plus(Tally(a, 0, 0, 0, 0), Tally(Zero, 0, 1, 0, 0)) == Tally(Add(Zero, a), 0, 1, 0, 0)
  {
  }

  lemma AnswerReplays(c: Case, t: Timed, m: Matcher, r: Record)
    requires r == RecordOf(c, t, m) && t.outcome.Succeeds?
    ensures ReadErrors(r) == Nothing
    ensures c.kind == Answerable ==>
      && ReadCitations(r) == Tally(CitationCounts(c, t.outcome.answer, m), 1, 0, 0, 0)
      && ReadDecision(r) == Tally(DecisionCounts(c, t.outcome.answer, m), 0, 0, 0, 0)
    ensures c.kind != Answerable ==>
      && CitationCounts(c, t.outcome.answer, m) == Zero
      && ReadDecision(r) == Tally(DecisionCounts(c, t.outcome.answer, m), 0, 1, 0, 0)
  {
  }

  lemma FailureReplays(c: Case, t: Timed, m: Matcher, r: Record)
    requires r == RecordOf(c, t, m) && !t.outcome.Succeeds?
    ensures ReadErrors(r) == Tally(ErrorCounts(t.outcome.schema), 0, 0, 0, 0)
    ensures ReadCitations(r) == Tally(Zero, 1, 0, 0, 0)
    ensures ReadDecision(r) == Tally(Zero, 0, if c.kind == Answerable then 0 else 1, 0, 0)
  {
  }

  lemma TimeIsRounded(t: Timed, time: real)
    requires Elapses(t) && time == Round3(if t.outcome.FailsLate? then t.late else t.elapsed)
    ensures 0.0 <= time
  {
    RoundOfInt(0);
    Round3Monotone(0.0, if t.outcome.FailsLate? then t.late else t.elapsed);
  }

  function Summed(r: Record, retrieval: Tally): Tally {
    if r.kind == Answerable then Plus(Plus(Plus(ReadErrors(r), ReadCitations(r)), retrieval), ReadDecision(r))
    else Plus(ReadErrors(r), ReadDecision(r))
  }

  lemma AnswerSums(c: Case, t: Timed, m: Matcher, r: Record)
    requires r == RecordOf(c, t, m) && t.outcome.Succeeds?
    ensures Summed(r, ReplayedRetrieval(c, t.outcome)) == ReplayedTally(c, t.outcome, m)
  {
    var o := t.outcome;
    AnswerReplays(c, t, m, r);
    KeptOf(c, o, m);
    SumsOf(RetrievedCounts(c, o), CitationCounts(c, o.answer, m), DecisionCounts(c, o.answer, m), 1);
  }

  lemma FailureSums(c: Case, t: Timed, m: Matcher, r: Record)
    requires r == RecordOf(c, t, m) && !t.outcome.Succeeds?
    ensures Summed(r, ReplayedRetrieval(c, t.outcome)) == ReplayedTally(c, t.outcome, m)
  {
    var o := t.outcome;
    FailureReplays(c, t, m, r);
    KeptOf(c, o, m);
    SumsOf(RetrievedCounts(c, o), ErrorCounts(o.schema), Zero, if o.RetrievalRaises? then 0 else 1);
  }

  lemma RecordSums(r: Record, retrieval: Tally)
    requires r.latency.Some? && 0.0 <= r.latency.value
    ensures r.kind != Answerable || ReadRetrieval(r, true) == Ok(retrieval) ==> ReadRecord(r, true) == Ok(Summed(r, retrieval))
    ensures r.kind == Answerable && ReadRetrieval(r, true).Err? ==> ReadRecord(r, true).Err?
  {
  }

  /** A runner's record is accepted exactly when its expected locations are real, and then gives back what was kept. */
  lemma RecordReplays(c: Case, t: Timed, m: Matcher)
    requires Elapses(t)
    ensures ReadRecord(RecordOf(c, t, m), true).Ok? <==> Locatable(c)
    ensures Locatable(c) ==> ReadRecord(RecordOf(c, t, m), true) == Ok(ReplayedTally(c, t.outcome, m))
  {
    var r := RecordOf(c, t, m);
    TimeIsRounded(t, r.latency.value);
    RecordSums(r, ReplayedRetrieval(c, t.outcome));
    if c.kind == Answerable { RetrievalReplays(c, t.outcome, r); }
    if t.outcome.Succeeds? { AnswerSums(c, t, m, r); } else { FailureSums(c, t, m, r); }
  }

  // ------------------------------------------------------------------ all the cases

  /** An evaluation that took time: every measured interval is non-negative. */
  predicate Measured(cases: seq<Case>, outs: seq<Timed>) {
    |cases| == |outs| && forall i :: 0 <= i < |outs| ==> Elapses(outs[i])
  }

  predicate AllLocatable(cases: seq<Case>, n: nat)
    requires n <= |cases|
  {
    forall i :: 0 <= i < n ==> Locatable(cases[i])
  }

  /** No case fails after the counters started moving. */
  predicate FailsInTime(outs: seq<Timed>, n: nat)
    requires n <= |outs|
  {
    forall i :: 0 <= i < n ==> !outs[i].outcome.FailsLate?
  }

  function ReplayTotal(cases: seq<Case>, outs: seq<Timed>, m: Matcher, n: nat): Tally
    requires n <= |cases| == |outs|
  {
    if n == 0 then Nothing
    else Plus(ReplayTotal(cases, outs, m, n - 1), ReplayedTally(cases[n - 1], outs[n - 1].outcome, m))
  }

  lemma {:induction false} RecordAt(cases: seq<Case>, outs: seq<Timed>, m: Matcher, n: nat, i: nat)
    requires i < n <= |cases| == |outs|
    ensures AllRecords(cases, outs, m, n)[i] == RecordOf(cases[i], outs[i], m)
  {
    if i < n - 1 { RecordAt(cases, outs, m, n - 1, i); }
  }

  lemma ReplayStep(entries: seq<Result<Tally, Flaw>>, n: nat, before: Tally, read: Tally)
    requires n < |entries|
    ensures ReadAll(entries, n) == Ok(before) && entries[n] == Ok(read) ==> ReadAll(entries, n + 1) == Ok(Plus(before, read))
    ensures ReadAll(entries, n + 1).Ok? <==> ReadAll(entries, n).Ok? && entries[n].Ok?
  {
  }

  predicate Replayed(entry: Result<Tally, Flaw>, c: Case, o: Outcome, m: Matcher) {
    && (entry.Ok? <==> Locatable(c))
    && (Locatable(c) ==> entry == Ok(ReplayedTally(c, o, m)))
  }

  lemma EntryReplays(cases: seq<Case>, outs: seq<Timed>, m: Matcher, i: nat)
    requires Measured(cases, outs) && i < |cases|
    ensures Replayed(Entries(AllRecords(cases, outs, m, |cases|), true)[i], cases[i], outs[i].outcome, m)
  {
    RecordAt(cases, outs, m, |cases|, i);
    RecordReplays(cases[i], outs[i], m);
  }

  lemma {:induction false} EntriesReplay(cases: seq<Case>, outs: seq<Timed>, m: Matcher, entries: seq<Result<Tally, Flaw>>, n: nat)
    requires n <= |entries| == |cases| == |outs|
    requires forall i :: 0 <= i < |cases| ==> Replayed(entries[i], cases[i], outs[i].outcome, m)
    ensures ReadAll(entries, n).Ok? <==> AllLocatable(cases, n)
    ensures AllLocatable(cases, n) ==> ReadAll(entries, n) == Ok(ReplayTotal(cases, outs, m, n))
  {
    if n > 0 {
      EntriesReplay(cases, outs, m, entries, n - 1);
      assert Replayed(entries[n - 1], cases[n - 1], outs[n - 1].outcome, m);
      assert AllLocatable(cases, n) <==> AllLocatable(cases, n - 1) && Locatable(cases[n - 1]);
      ReplayStep(entries, n - 1, ReplayTotal(cases, outs, m, n - 1), ReplayedTally(cases[n - 1], outs[n - 1].outcome, m));
    }
  }

  /** The recalculator reads a runner's records exactly when every case is locatable. */
  lemma RecordsReplay(cases: seq<Case>, outs: seq<Timed>, m: Matcher)
    requires Measured(cases, outs)
    ensures var read := ReadAll(Entries(AllRecords(cases, outs, m, |cases|), true), |cases|);
            && (read.Ok? <==> AllLocatable(cases, |cases|))
            && (AllLocatable(cases, |cases|) ==> read == Ok(ReplayTotal(cases, outs, m, |cases|)))
  {
    var entries := Entries(AllRecords(cases, outs, m, |cases|), true);
    forall i | 0 <= i < |cases| ensures Replayed(entries[i], cases[i], outs[i].outcome, m) {
      EntryReplays(cases, outs, m, i);
    }
    EntriesReplay(cases, outs, m, entries, |cases|);
  }

  function LostTotal(cases: seq<Case>, outs: seq<Timed>, m: Matcher, n: nat): Counts
    requires n <= |cases| == |outs|
  {
    if n == 0 then Zero
    else Add(LostTotal(cases, outs, m, n - 1), LostCounts(cases[n - 1], outs[n - 1].outcome, m))
  }

  lemma SplitSum(kept: Counts, lost: Counts, k: Counts, l: Counts)
    ensures Add(Add(kept, lost), Add(k, l)) == Add(Add(kept, k), Add(lost, l))
  {
  }

  /** What the runner counted is what is replayed and what late failures lost. */
  lemma {:induction false} TotalsSplit(cases: seq<Case>, outs: seq<Timed>, m: Matcher, n: nat)
    requires n <= |cases| == |outs|
    ensures TotalCounts(cases, outs, m, n) == Add(ReplayTotal(cases, outs, m, n).counts, LostTotal(cases, outs, m, n))
  {
    if n == 0 {
      AddZero(Zero);
    } else {
      var c, o := cases[n - 1], outs[n - 1].outcome;
      TotalsSplit(cases, outs, m, n - 1);
      KeptAndLost(c, o, m);
      SplitSum(ReplayTotal(cases, outs, m, n - 1).counts, LostTotal(cases, outs, m, n - 1), KeptCounts(c, o, m), LostCounts(c, o, m));
    }
  }

  lemma NothingLost(a: Counts, b: Counts)
    requires a.reciprocalRank == b.reciprocalRank == 0.0
    ensures Add(a, b) == Zero <==> a == Zero && b == Zero
    ensures Add(a, b).reciprocalRank == 0.0
  {
  }

  lemma LossHasNoRank(c: Case, o: Outcome, m: Matcher)
    ensures LostCounts(c, o, m).reciprocalRank == 0.0
  {
  }

  predicate NoneCountedLate(cases: seq<Case>, outs: seq<Timed>, n: nat)
    requires n <= |cases| == |outs|
  {
    forall i :: 0 <= i < n ==> !CountedLate(cases[i], outs[i].outcome)
  }

  lemma {:induction false} LostNothingExactlyWhen(cases: seq<Case>, outs: seq<Timed>, m: Matcher, n: nat)
    requires n <= |cases| == |outs| && AllLocatable(cases, n)
    ensures LostTotal(cases, outs, m, n).reciprocalRank == 0.0
    ensures LostTotal(cases, outs, m, n) == Zero <==> NoneCountedLate(cases, outs, n)
  {
    if n > 0 {
      var c, o := cases[n - 1], outs[n - 1].outcome;
      LostNothingExactlyWhen(cases, outs, m, n - 1);
      LostExactlyWhenCountedLate(c, o, m);
      LossHasNoRank(c, o, m);
      NothingLost(LostTotal(cases, outs, m, n - 1), LostCounts(c, o, m));
      assert NoneCountedLate(cases, outs, n) <==> NoneCountedLate(cases, outs, n - 1) && !CountedLate(c, o);
    }
  }

  /** The replayed counts are the runner's exactly when no failure came after something was counted. */
  lemma CountsAgreeExactlyWhen(cases: seq<Case>, outs: seq<Timed>, m: Matcher)
    requires Measured(cases, outs) && AllLocatable(cases, |cases|)
    ensures var read := ReadAll(Entries(AllRecords(cases, outs, m, |cases|), true), |cases|);
            && read.Ok?
            && (read.value.counts == TotalCounts(cases, outs, m, |cases|) <==> NoneCountedLate(cases, outs, |cases|))
  {
    RecordsReplay(cases, outs, m);
    TotalsSplit(cases, outs, m, |cases|);
    LostNothingExactlyWhen(cases, outs, m, |cases|);
    SameExactlyWhenZero(ReplayTotal(cases, outs, m, |cases|).counts, LostTotal(cases, outs, m, |cases|));
  }

  /** One answerable case that fails after its citations were counted: the replay misses its expected citation. */
  lemma LateFailureIsMissed(m: Matcher, c: Case, t: Timed)
    requires c == Case(Answerable, [Citation(Location("d", 1), "")])
    requires t == Timed(FailsLate([], Answer(Answered, [], false), AfterCitations, false), 1.0, 1.0)
    ensures var read := ReadAll(Entries(AllRecords([c], [t], m, 1), true), 1);
            read.Ok? && read.value.counts != TotalCounts([c], [t], m, 1)
  {
    assert Locatable([c][0]) && CountedLate([c][0], [t][0].outcome);
    CountsAgreeExactlyWhen([c], [t], m);
  }

  lemma SameExactlyWhenZero(a: Counts, b: Counts)
    ensures Add(a, b) == a <==> b == Zero
  {
  }

  /** Every answerable case is verified, and every other case is one to abstain from. */
  lemma {:induction false} KindsReplay(cases: seq<Case>, outs: seq<Timed>, m: Matcher, n: nat)
    requires n <= |cases| == |outs|
    ensures ReplayTotal(cases, outs, m, n).answerable == AnswerableAmong(cases, n) == ReplayTotal(cases, outs, m, n).verified
    ensures ReplayTotal(cases, outs, m, n).abstention == n - AnswerableAmong(cases, n)
  {
    if n > 0 { KindsReplay(cases, outs, m, n - 1); }
  }

  lemma RoundSnoc(times: seq<real>, time: real)
    ensures RoundAll(times + [time]) == RoundAll(times) + [Round3(time)]
  {
  }

  /** Without late failures the artifact records every measured time, rounded. */
  lemma {:induction false} TimesReplay(cases: seq<Case>, outs: seq<Timed>, m: Matcher, n: nat)
    requires n <= |cases| == |outs| && FailsInTime(outs, n)
    ensures RecordedTimes(AllRecords(cases, outs, m, n), n) == RoundAll(AllTimes(outs, n))
  {
    if n > 0 {
      var records := AllRecords(cases, outs, m, n);
      TimesReplay(cases, outs, m, n - 1);
      RecordedPrefix(AllRecords(cases, outs, m, n - 1), records[n - 1], n - 1);
      RoundSnoc(AllTimes(outs, n - 1), outs[n - 1].elapsed);
    }
  }

  lemma {:induction false} RecordedPrefix(records: seq<Record>, r: Record, n: nat)
    requires n <= |records|
    ensures RecordedTimes(records + [r], n) == RecordedTimes(records, n)
  {
    if n > 0 { RecordedPrefix(records, r, n - 1); }
  }

  // --------------------------------------------------------------- the whole artifact

  predicate NonNegative(times: seq<real>) {
    forall i :: 0 <= i < |times| ==> 0.0 <= times[i]
  }

  lemma {:induction false} TimesNonNegative(cases: seq<Case>, outs: seq<Timed>, n: nat)
    requires Measured(cases, outs) && n <= |outs|
    ensures NonNegative(AllTimes(outs, n))
  {
    if n > 0 {
      TimesNonNegative(cases, outs, n - 1);
      assert Elapses(outs[n - 1]);
    }
  }

  lemma RatioNonNegative(x: real, n: nat)
    requires 0.0 <= x
    ensures 0.0 <= Round6(Ratio(x, n))
  {
    RoundOfInt(0);
    RoundMonotone(0.0, Ratio(x, n) * 1000000.0);
  }

  lemma RecordedPass(recorded: real, recalculated: real)
    requires 0.0 <= recorded && -0.001 <= recorded - recalculated <= 0.001
    ensures AssertRecorded(Some(recorded), recalculated) == Ok(true)
  {
  }

  /** The rates that an artifact records, compared with themselves. */
  lemma RatesPass(c: Counts, answerable: nat, abstention: nat, n: nat, e: ExtractionCounts, rates: Rates)
    requires rates == RatesOf(c, answerable, abstention, n, e)
    ensures AssertRecorded(Some(rates.retrievalRecall), rates.retrievalRecall) == Ok(true)
    ensures AssertRecorded(Some(rates.retrievalMrr), rates.retrievalMrr) == Ok(true)
    ensures AssertRecorded(Some(rates.schemaErrorRate), rates.schemaErrorRate) == Ok(true)
    ensures AssertRecorded(Some(rates.citationRecall), rates.citationRecall) == Ok(true)
  {
    RatioNonNegative(c.retrievalHits as real, answerable);
    RatioNonNegative(c.reciprocalRank, answerable);
    RatioNonNegative(c.schemaErrors as real, n);
    RatioNonNegative(c.citationExpectedMatched as real, c.citationExpected);
    RecordedPass(rates.retrievalRecall, rates.retrievalRecall);
    RecordedPass(rates.retrievalMrr, rates.retrievalMrr);
    RecordedPass(rates.schemaErrorRate, rates.schemaErrorRate);
    RecordedPass(rates.citationRecall, rates.citationRecall);
  }

  /** The recorded median and 95th percentile of the true times, compared with those of the rounded times. */
  lemma TimesPass(times: seq<real>)
    requires NonNegative(times)
    ensures AssertRecorded(Some(Round3(Median(times))), Round3(Median(RoundAll(times)))) == Ok(true)
    ensures AssertRecorded(Some(Round3(P95(times))), Round3(P95(RoundAll(times)))) == Ok(true)
  {
    StatisticsNonNegative(times);
    MedianSurvivesRounding(times);
    P95SurvivesRounding(times);
    RecordedPass(Round3(Median(times)), Round3(Median(RoundAll(times))));
    RecordedPass(Round3(P95(times)), Round3(P95(RoundAll(times))));
  }

  /** The replay of an artifact whose counts are those of its records. */
  function ReplayFor(n: nat, details: seq<ExtractionCounts>, counts: Counts, answerable: nat, completed: nat, times: seq<real>): Recalculated
    requires answerable <= n
  {
    var rates := RatesFor(n, details, counts, answerable);
    Recalculated(Tally(counts, answerable, n - answerable, answerable, completed), ExtractionTotal(details, |details|), rates,
                 Round3(Median(RoundAll(times))), Round3(P95(times)), true, true, Passes(rates))
  }

  /** The final checks accept what an honest evaluation records. */
  lemma FinishAccepts(records: seq<Record>, details: seq<ExtractionCounts>, counts: Counts, answerable: nat, completed: nat,
                      times: seq<real>, indexing: real)
    requires NonNegative(times) && 0.0 <= indexing && answerable <= |records|
    ensures Finish(ArtifactFor(records, details, counts, answerable, times, indexing),
                   Tally(counts, answerable, |records| - answerable, answerable, completed), RoundAll(times)) ==
            Ok(ReplayFor(|records|, details, counts, answerable, completed, times))
  {
    RatesPass(counts, answerable, |records| - answerable, |records|, ExtractionTotal(details, |details|),
              RatesFor(|records|, details, counts, answerable));
    TimesPass(times);
    P95SurvivesRounding(times);
    RoundOfInt(0);
    Round3Monotone(0.0, indexing);
  }

  /** Cases whose retrieval completed, among the answerable ones. */
  function CompletedAmong(cases: seq<Case>, outs: seq<Timed>, n: nat): nat
    requires n <= |cases| == |outs|
  {
    if n == 0 then 0
    else CompletedAmong(cases, outs, n - 1) + (if cases[n - 1].kind == Answerable && !outs[n - 1].outcome.RetrievalRaises? then 1 else 0)
  }

  lemma {:induction false} CompletedReplays(cases: seq<Case>, outs: seq<Timed>, m: Matcher, n: nat)
    requires n <= |cases| == |outs|
    ensures ReplayTotal(cases, outs, m, n).completed == CompletedAmong(cases, outs, n)
  {
    if n > 0 { CompletedReplays(cases, outs, m, n - 1); }
  }

  /** Everything the recalculator is expected to return for an evaluation. */
  function ReplayOf(cases: seq<Case>, outs: seq<Timed>, m: Matcher, details: seq<ExtractionCounts>): Recalculated
    requires |cases| == |outs|
  {
    ReplayFor(|cases|, details, TotalCounts(cases, outs, m, |cases|), AnswerableAmong(cases, |cases|),
              CompletedAmong(cases, outs, |cases|), AllTimes(outs, |cases|))
  }

  function TallyOf(cases: seq<Case>, outs: seq<Timed>, m: Matcher): Tally
    requires |cases| == |outs|
  {
    var n := |cases|;
    Tally(TotalCounts(cases, outs, m, n), AnswerableAmong(cases, n), n - AnswerableAmong(cases, n), AnswerableAmong(cases, n),
          CompletedAmong(cases, outs, n))
  }

  lemma TallyReplays(cases: seq<Case>, outs: seq<Timed>, m: Matcher, tally: Tally)
    requires Measured(cases, outs) && AllLocatable(cases, |cases|) && FailsInTime(outs, |outs|)
    requires tally == ReplayTotal(cases, outs, m, |cases|)
    ensures tally == TallyOf(cases, outs, m)
  {
    var n := |cases|;
    TotalsSplit(cases, outs, m, n);
    assert NoneCountedLate(cases, outs, n);
    LostNothingExactlyWhen(cases, outs, m, n);
    AddZero(tally.counts);
    KindsReplay(cases, outs, m, n);
    CompletedReplays(cases, outs, m, n);
  }

  lemma ArtifactIs(cases: seq<Case>, outs: seq<Timed>, m: Matcher, details: seq<ExtractionCounts>, indexing: real, records: seq<Record>)
    requires |cases| == |outs| && records == AllRecords(cases, outs, m, |cases|)
    ensures ArtifactOf(cases, outs, m, details, indexing) ==
            ArtifactFor(records, details, TotalCounts(cases, outs, m, |cases|), AnswerableAmong(cases, |cases|), AllTimes(outs, |cases|), indexing)
  {
  }

  lemma TallyIs(cases: seq<Case>, outs: seq<Timed>, m: Matcher, n: nat)
    requires n == |cases| == |outs|
    ensures TallyOf(cases, outs, m) == Tally(TotalCounts(cases, outs, m, n), AnswerableAmong(cases, n), n - AnswerableAmong(cases, n),
                                             AnswerableAmong(cases, n), CompletedAmong(cases, outs, n))
  {
  }

  lemma ReplayIs(cases: seq<Case>, outs: seq<Timed>, m: Matcher, details: seq<ExtractionCounts>, n: nat)
    requires n == |cases| == |outs|
    ensures ReplayOf(cases, outs, m, details) ==
            ReplayFor(n, details, TotalCounts(cases, outs, m, n), AnswerableAmong(cases, n), CompletedAmong(cases, outs, n), AllTimes(outs, n))
  {
  }

  lemma FinishOf(raw: Raw, tally: Tally, replay: Recalculated, records: seq<Record>, details: seq<ExtractionCounts>, counts: Counts,
                 answerable: nat, completed: nat, times: seq<real>, indexing: real)
    requires NonNegative(times) && 0.0 <= indexing && answerable <= |records|
    requires raw == ArtifactFor(records, details, counts, answerable, times, indexing)
    requires tally == Tally(counts, answerable, |records| - answerable, answerable, completed)
    requires replay == ReplayFor(|records|, details, counts, answerable, completed, times)
    ensures Finish(raw, tally, RoundAll(times)) == Ok(replay)
  {
    FinishAccepts(records, details, counts, answerable, completed, times, indexing);
  }

  lemma FinishReplays(cases: seq<Case>, outs: seq<Timed>, m: Matcher, details: seq<ExtractionCounts>, indexing: real, records: seq<Record>)
    requires Measured(cases, outs) && 0.0 <= indexing && records == AllRecords(cases, outs, m, |cases|)
    ensures Finish(ArtifactOf(cases, outs, m, details, indexing), TallyOf(cases, outs, m), RoundAll(AllTimes(outs, |cases|))) ==
            Ok(ReplayOf(cases, outs, m, details))
  {
    var n := |records|;
    TimesNonNegative(cases, outs, n);
    ArtifactIs(cases, outs, m, details, indexing, records);
    TallyIs(cases, outs, m, n);
    ReplayIs(cases, outs, m, details, n);
    FinishOf(ArtifactOf(cases, outs, m, details, indexing), TallyOf(cases, outs, m), ReplayOf(cases, outs, m, details),
             records, details, TotalCounts(cases, outs, m, n), AnswerableAmong(cases, n), CompletedAmong(cases, outs, n),
             AllTimes(outs, n), indexing);
  }

  /**
    The recalculator accepts an honest evaluation exactly when the manifest's answerable cases are locatable,
    and then returns the runner's own counts, totals, rates and verdict.
   */
  lemma ReplayAgrees(cases: seq<Case>, outs: seq<Timed>, m: Matcher, details: seq<ExtractionCounts>, indexing: real)
    requires Measured(cases, outs) && FailsInTime(outs, |outs|) && 0.0 <= indexing
    ensures var result := RecalculationOf(ArtifactOf(cases, outs, m, details, indexing));
            && (result.Ok? <==> AllLocatable(cases, |cases|))
            && (result.Ok? ==> result.value == ReplayOf(cases, outs, m, details))
  {
    RecordsReplay(cases, outs, m);
    TimesReplay(cases, outs, m, |cases|);
    if AllLocatable(cases, |cases|) {
      TallyReplays(cases, outs, m, ReplayTotal(cases, outs, m, |cases|));
      FinishReplays(cases, outs, m, details, indexing, AllRecords(cases, outs, m, |cases|));
    }
  }
}
