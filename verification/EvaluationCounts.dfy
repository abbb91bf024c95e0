/** What the evaluation runner counts, as numbers of cases and citations with a stated property. */
module EvaluationCounts {
  import opened Common
  import opened Latency
  import opened Metrics
  import opened Runner

  /** A case with what the engine did on it. */
  type Run = (Case, Timed)

  function Runs(cases: seq<Case>, outs: seq<Timed>, n: nat): (r: seq<Run>)
    requires n <= |cases| == |outs|
    ensures |r| == n && forall i :: 0 <= i < n ==> r[i] == (cases[i], outs[i])
  {
    if n == 0 then [] else Runs(cases, outs, n - 1) + [(cases[n - 1], outs[n - 1])]
  }

  // ----------------------------------------------------------------- one case

  predicate AtExpected(c: Case, l: Location) {
    exists j :: 0 <= j < |c.expected| && c.expected[j].location == l
  }

  /** Passage `k`, one of the five best, is at an expected location. */
  predicate FindsAt(c: Case, o: Outcome, k: nat) {
    c.kind == Answerable && !o.RetrievalRaises? && k < 5 && k < |o.ranked| && AtExpected(c, o.ranked[k])
  }

  predicate Finds(c: Case, o: Outcome) {
    exists k: nat :: k < 5 && FindsAt(c, o, k)
  }

  /** The answer's citations were counted, and so was its decision. */
  predicate CitationsReached(o: Outcome) {
    o.Succeeds? || (o.FailsLate? && o.reach != BeforeCounts)
  }

  predicate DecisionReached(o: Outcome) {
    o.Succeeds? || (o.FailsLate? && o.reach == AfterDecision)
  }

  /** A returned citation matches some expected one; an expected one is matched by some returned one. */
  function Hits(expected: seq<Citation>, m: Matcher): Citation -> bool {
    (returned: Citation) => exists j :: 0 <= j < |expected| && m(returned, expected[j])
  }

  function IsHitBy(returned: seq<Citation>, m: Matcher): Citation -> bool {
    (expected: Citation) => exists i :: 0 <= i < |returned| && m(returned[i], expected)
  }

  function IsAnswerable(): Run -> bool { (r: Run) => r.0.kind == Answerable }
  function IsHit(): Run -> bool { (r: Run) => Finds(r.0, r.1.outcome) }
  function IsError(): Run -> bool { (r: Run) => !r.1.outcome.Succeeds? }
  function IsSchemaError(): Run -> bool { (r: Run) => !r.1.outcome.Succeeds? && r.1.outcome.schema }

  predicate SomeHit(c: Case, a: Answer, m: Matcher) {
    exists i, j :: 0 <= i < |a.citations| && 0 <= j < |c.expected| && m(a.citations[i], c.expected[j])
  }

  /** Answered as expected with a citation that matches an expected one. */
  function IsCorrect(m: Matcher): Run -> bool {
    (r: Run) => r.0.kind == Answerable && DecisionReached(r.1.outcome) && r.1.outcome.answer.status == Answered
                && r.1.outcome.answer.matchesExpected && SomeHit(r.0, r.1.outcome.answer, m)
  }

  /** An ambiguous case reported as ambiguous, any other unanswerable one abstained from. */
  function IsWithheld(): Run -> bool {
    (r: Run) => DecisionReached(r.1.outcome)
                && ((r.0.kind == Ambiguous && r.1.outcome.answer.status == StatusAmbiguous)
                    || (r.0.kind in {Unanswerable, Adversarial} && r.1.outcome.answer.status == Abstained))
  }

  predicate Cites(r: Run) { r.0.kind == Answerable && CitationsReached(r.1.outcome) }

  function ReturnedBy(): Run -> nat { (r: Run) => if Cites(r) then |r.1.outcome.answer.citations| else 0 }
  function ExpectedOf(): Run -> nat { (r: Run) => if Cites(r) then |r.0.expected| else 0 }

  ghost function MatchedBy(r: Run, m: Matcher): nat {
    if Cites(r) then Number(r.1.outcome.answer.citations, Hits(r.0.expected, m)) else 0
  }

  ghost function FoundOf(r: Run, m: Matcher): nat {
    if Cites(r) then Number(r.0.expected, IsHitBy(r.1.outcome.answer.citations, m)) else 0
  }

  // -------------------------------------------------------- per case, from the source

  lemma ExpectedLocations(c: Case, l: Location)
    ensures l in Locations(c.expected) <==> AtExpected(c, l)
  {
  }

  /** The first of the five best passages at an expected location, 1-based. */
  predicate FirstFind(c: Case, o: Outcome, rank: int) {
    1 <= rank <= 5 && FindsAt(c, o, rank - 1) && forall k: nat :: k < rank - 1 ==> !FindsAt(c, o, k)
  }

  lemma RankIsFirstFind(c: Case, o: Outcome)
    ensures RankFor(c, o).Some? <==> Finds(c, o)
    ensures RankFor(c, o).Some? ==> FirstFind(c, o, RankFor(c, o).value)
  {
    var matches := MatchesFor(c, o);
    if c.kind == Answerable && !o.RetrievalRaises? {
      var top := FirstFive(o.ranked);
      forall k: nat | k < |matches| ensures matches[k] <==> FindsAt(c, o, k) {
        assert top[k] == o.ranked[k];
        ExpectedLocations(c, o.ranked[k]);
      }
      forall k: nat | FindsAt(c, o, k) ensures k < |matches| {
      }
    }
  }

  lemma RetrievalIs(c: Case, o: Outcome)
    requires !o.RetrievalRaises?
    ensures RetrievalCounts(c, o.ranked) == if RankFor(c, o).Some? then HitAt(RankFor(c, o).value) else Zero
  {
  }

  lemma NumberAlike<S, T>(a: seq<S>, b: seq<T>, p: S -> bool, q: T -> bool)
    requires |a| == |b| && forall i :: 0 <= i < |a| ==> (p(a[i]) <==> q(b[i]))
    ensures Number(a, p) == Number(b, q)
  {
    assert (set i | 0 <= i < |a| && p(a[i])) == (set i | 0 <= i < |b| && q(b[i]));
  }

  lemma CitationsAre(c: Case, a: Answer, m: Matcher)
    ensures CountTrue(CitationMatches(c, a, m)) == Number(a.citations, Hits(c.expected, m))
    ensures CountTrue(ExpectedMatches(c, a, m)) == Number(c.expected, IsHitBy(a.citations, m))
    ensures true in CitationMatches(c, a, m) <==> SomeHit(c, a, m)
  {
    var returned, expected := CitationMatches(c, a, m), ExpectedMatches(c, a, m);
    CountTrueIsNumber(returned);
    CountTrueIsNumber(expected);
    NumberAlike(returned, a.citations, IsTrue(), Hits(c.expected, m));
    NumberAlike(expected, c.expected, IsTrue(), IsHitBy(a.citations, m));
    if i, j :| 0 <= i < |a.citations| && 0 <= j < |c.expected| && m(a.citations[i], c.expected[j]) {
      assert returned[i];
    }
    if true in returned {
      var i :| 0 <= i < |returned| && returned[i];
      assert MatchesAny(m, a.citations[i], c.expected);
    }
  }

  // ------------------------------------------------------------- what a case counts

  function RetrievalPart(c: Case, o: Outcome): Counts {
    if o.RetrievalRaises? then Zero else RetrievalCounts(c, o.ranked)
  }

  function AnswerPart(c: Case, o: Outcome, m: Matcher): Counts {
    if GotAnswer(o) then AnswerCounts(c, o.answer, ReachOf(o), m) else Zero
  }

  function ErrorPart(o: Outcome): Counts {
    if o.Succeeds? then Zero else ErrorCounts(o.schema)
  }

  lemma ThreeParts(c: Case, o: Outcome, m: Matcher)
    ensures CaseCounts(c, o, m) == Add(Add(RetrievalPart(c, o), AnswerPart(c, o, m)), ErrorPart(o))
  {
    AddZero(RetrievalPart(c, o));
    AddZero(Add(RetrievalPart(c, o), AnswerPart(c, o, m)));
  }

  function Bit(b: bool): nat { if b then 1 else 0 }

  lemma RetrievalPartIs(c: Case, o: Outcome, r: Counts)
    requires r == RetrievalPart(c, o)
    ensures RankFor(c, o).Some? ==> 1 <= RankFor(c, o).value <= 5
    ensures r == if RankFor(c, o).Some? then HitAt(RankFor(c, o).value) else Zero
    ensures RankFor(c, o).Some? <==> Finds(c, o)
  {
    RankIsFirstFind(c, o);
    if !o.RetrievalRaises? { RetrievalIs(c, o); }
  }

  lemma AnswerPartCites(c: Case, t: Timed, m: Matcher, a: Counts)
    requires a == AnswerPart(c, t.outcome, m)
    ensures a.citationReturned == ReturnedBy()((c, t)) && a.citationCorrect == MatchedBy((c, t), m)
    ensures a.citationExpected == ExpectedOf()((c, t)) && a.citationExpectedMatched == FoundOf((c, t), m)
  {
    if GotAnswer(t.outcome) { CitationsAre(c, t.outcome.answer, m); }
  }

  lemma AnswerPartDecides(c: Case, t: Timed, m: Matcher, a: Counts)
    requires a == AnswerPart(c, t.outcome, m)
    ensures a.answerableCorrect == Bit(IsCorrect(m)((c, t))) && a.abstentionCorrect == Bit(IsWithheld()((c, t)))
    ensures a.retrievalHits == 0 && a.reciprocalRank == 0.0 && a.errors == 0 && a.schemaErrors == 0
  {
    if GotAnswer(t.outcome) { CitationsAre(c, t.outcome.answer, m); }
  }

  /** The reciprocal of the first find, or nothing. */
  function ReciprocalOf(r: Run): real {
    var rank := RankFor(r.0, r.1.outcome);
    if rank.Some? && rank.value != 0 then 1.0 / rank.value as real else 0.0
  }

  /** What a run moves: each count by at most one case or by its citations. */
  ghost predicate Moves(k: Counts, r: Run, m: Matcher) {
    && k.retrievalHits == Bit(IsHit()(r)) && k.reciprocalRank == ReciprocalOf(r)
    && k.citationReturned == ReturnedBy()(r) && k.citationCorrect == MatchedBy(r, m)
    && k.citationExpected == ExpectedOf()(r) && k.citationExpectedMatched == FoundOf(r, m)
    && k.answerableCorrect == Bit(IsCorrect(m)(r)) && k.abstentionCorrect == Bit(IsWithheld()(r))
    && k.errors == Bit(IsError()(r)) && k.schemaErrors == Bit(IsSchemaError()(r))
  }

  lemma AddedFields(a: Counts, b: Counts, c: Counts, k: Counts)
    requires k == Add(Add(a, b), c)
    ensures k.citationCorrect == a.citationCorrect + b.citationCorrect + c.citationCorrect
    ensures k.citationReturned == a.citationReturned + b.citationReturned + c.citationReturned
    ensures k.citationExpected == a.citationExpected + b.citationExpected + c.citationExpected
    ensures k.citationExpectedMatched == a.citationExpectedMatched + b.citationExpectedMatched + c.citationExpectedMatched
    ensures k.answerableCorrect == a.answerableCorrect + b.answerableCorrect + c.answerableCorrect
    ensures k.abstentionCorrect == a.abstentionCorrect + b.abstentionCorrect + c.abstentionCorrect
    ensures k.retrievalHits == a.retrievalHits + b.retrievalHits + c.retrievalHits
    ensures k.reciprocalRank == a.reciprocalRank + b.reciprocalRank + c.reciprocalRank
    ensures k.errors == a.errors + b.errors + c.errors
    ensures k.schemaErrors == a.schemaErrors + b.schemaErrors + c.schemaErrors
  {
  }

  lemma ReciprocalIs(rank: int)
    requires 1 <= rank <= 5
    ensures Reciprocal(rank) == 1.0 / rank as real
  {
    assert rank in {1, 2, 3, 4, 5};
  }

  lemma RetrievalPartMoves(c: Case, t: Timed, r: Counts)
    requires r == RetrievalPart(c, t.outcome)
    ensures r.retrievalHits == Bit(IsHit()((c, t))) && r.reciprocalRank == ReciprocalOf((c, t))
    ensures r == Counts(0, 0, 0, 0, 0, 0, r.retrievalHits, r.reciprocalRank, 0, 0)
  {
    RetrievalPartIs(c, t.outcome, r);
    if RankFor(c, t.outcome).Some? { ReciprocalIs(RankFor(c, t.outcome).value); }
  }

  lemma CaseMoves(c: Case, t: Timed, m: Matcher)
    ensures Moves(CaseCounts(c, t.outcome, m), (c, t), m)
  {
    var retrieval, answer, error := RetrievalPart(c, t.outcome), AnswerPart(c, t.outcome, m), ErrorPart(t.outcome);
    ThreeParts(c, t.outcome, m);
    RetrievalPartMoves(c, t, retrieval);
    AnswerPartCites(c, t, m, answer);
    AnswerPartDecides(c, t, m, answer);
    AddedFields(retrieval, answer, error, CaseCounts(c, t.outcome, m));
  }

  // -------------------------------------------------------------- what the loop counts

  ghost function MatchedIn(m: Matcher): Run -> nat { (r: Run) => MatchedBy(r, m) }
  ghost function FoundIn(m: Matcher): Run -> nat { (r: Run) => FoundOf(r, m) }

  function ReciprocalSum(runs: seq<Run>): real {
    if runs == [] then 0.0 else ReciprocalSum(runs[..|runs| - 1]) + ReciprocalOf(runs[|runs| - 1])
  }

  ghost predicate CasesCounted(k: Counts, runs: seq<Run>, m: Matcher) {
    && k.retrievalHits == Number(runs, IsHit()) && k.reciprocalRank == ReciprocalSum(runs)
    && k.answerableCorrect == Number(runs, IsCorrect(m)) && k.abstentionCorrect == Number(runs, IsWithheld())
    && k.errors == Number(runs, IsError()) && k.schemaErrors == Number(runs, IsSchemaError())
  }

  ghost predicate CitationsCounted(k: Counts, runs: seq<Run>, m: Matcher) {
    && k.citationReturned == SumOf(runs, ReturnedBy()) && k.citationCorrect == SumOf(runs, MatchedIn(m))
    && k.citationExpected == SumOf(runs, ExpectedOf()) && k.citationExpectedMatched == SumOf(runs, FoundIn(m))
  }

  lemma CountedSnoc(k: Counts, runs: seq<Run>, m: Matcher, r: Run, next: Counts, all: seq<Run>)
    requires CasesCounted(k, runs, m) && CitationsCounted(k, runs, m) && Moves(next, r, m) && all == runs + [r]
    ensures CasesCounted(Add(k, next), all, m) && CitationsCounted(Add(k, next), all, m)
  {
    NumberSnoc(runs, r, IsHit());
    NumberSnoc(runs, r, IsCorrect(m));
    NumberSnoc(runs, r, IsWithheld());
    NumberSnoc(runs, r, IsError());
    NumberSnoc(runs, r, IsSchemaError());
    SumOfSnoc(runs, r, ReturnedBy());
    SumOfSnoc(runs, r, MatchedIn(m));
    SumOfSnoc(runs, r, ExpectedOf());
    SumOfSnoc(runs, r, FoundIn(m));
    assert all[..|all| - 1] == runs;
  }

  lemma NothingCounted(none: seq<Run>, m: Matcher)
    requires none == []
    ensures CasesCounted(Zero, none, m) && CitationsCounted(Zero, none, m)
  {
    NumberOfNone(none, IsHit());
    NumberOfNone(none, IsCorrect(m));
    NumberOfNone(none, IsWithheld());
    NumberOfNone(none, IsError());
    NumberOfNone(none, IsSchemaError());
  }

  /**
    What the runner counts: cases with a find among the five best passages, the reciprocals of their first finds, cases
    answered right, cases rightly withheld, errors, and citations that match, each as a number of cases or citations.
   */
  lemma {:induction false} TotalsAre(cases: seq<Case>, outs: seq<Timed>, m: Matcher, n: nat)
    requires n <= |cases| == |outs|
    ensures CasesCounted(TotalCounts(cases, outs, m, n), Runs(cases, outs, n), m)
    ensures CitationsCounted(TotalCounts(cases, outs, m, n), Runs(cases, outs, n), m)
  {
    if n == 0 {
      NothingCounted(Runs(cases, outs, n), m);
    } else {
      TotalsAre(cases, outs, m, n - 1);
      CaseMoves(cases[n - 1], outs[n - 1], m);
      CountedSnoc(TotalCounts(cases, outs, m, n - 1), Runs(cases, outs, n - 1), m, (cases[n - 1], outs[n - 1]),
                  CaseCounts(cases[n - 1], outs[n - 1].outcome, m), Runs(cases, outs, n));
    }
  }

  lemma {:induction false} AnswerableIsNumber(cases: seq<Case>, outs: seq<Timed>, n: nat)
    requires n <= |cases| == |outs|
    ensures AnswerableAmong(cases, n) == Number(Runs(cases, outs, n), IsAnswerable())
  {
    if n == 0 {
      NumberOfNone(Runs(cases, outs, n), IsAnswerable());
    } else {
      AnswerableIsNumber(cases, outs, n - 1);
      NumberSnoc(Runs(cases, outs, n - 1), (cases[n - 1], outs[n - 1]), IsAnswerable());
    }
  }

  /** Every find that is counted is the first of the five best passages at an expected location. */
  lemma RankIsFirst(c: Case, t: Timed, m: Matcher)
    ensures RecordOf(c, t, m).rank.Some? <==> Finds(c, t.outcome)
    ensures RecordOf(c, t, m).rank.Some? ==> FirstFind(c, t.outcome, RecordOf(c, t, m).rank.value)
  {
    RankIsFirstFind(c, t.outcome);
  }

  function IsLate(): Timed -> bool { (t: Timed) => t.outcome.FailsLate? }

  /** One time per case, and a second one for each case that fails after its answer. */
  lemma {:induction false} TimesAre(outs: seq<Timed>, n: nat)
    requires n <= |outs|
    ensures |AllTimes(outs, n)| == n + Number(outs[..n], IsLate())
  {
    if n == 0 {
      NumberOfNone(outs[..n], IsLate());
    } else {
      TimesAre(outs, n - 1);
      NumberSnoc(outs[..n - 1], outs[n - 1], IsLate());
      assert outs[..n] == outs[..n - 1] + [outs[n - 1]];
    }
  }
}
