/**
  The evaluation runner: incremental counters and one record per case, with an engine that may
  fail on any case.
 */
module Runner {
  import opened Common
  import opened Latency
  import opened Metrics

  /** Whether a returned citation matches one expected citation. */
  type Matcher = (Citation, Citation) -> bool

  predicate MatchesAny(m: Matcher, returned: Citation, expected: seq<Citation>) {
    exists i :: 0 <= i < |expected| && m(returned, expected[i])
  }

  predicate AnyMatches(m: Matcher, returned: seq<Citation>, expected: Citation) {
    exists i :: 0 <= i < |returned| && m(returned[i], expected)
  }

  datatype Answer = Answer(status: AnswerStatus, citations: seq<Citation>, matchesExpected: bool)

  /** How far the counters of an answered case had moved when something raised. */
  datatype Reach = BeforeCounts | AfterCitations | AfterDecision

  /** What the engine does on one case. `FailsLate` raises after the answer was timed. */
  datatype Outcome =
    | RetrievalRaises(schema: bool)
    | AnswerRaises(ranked: seq<Location>, schema: bool)
    | Succeeds(ranked: seq<Location>, answer: Answer)
    | FailsLate(ranked: seq<Location>, answer: Answer, reach: Reach, schema: bool)

  /** The outcome, the time until the answer or the failure, and the time until a late failure. */
  datatype Timed = Timed(outcome: Outcome, elapsed: real, late: real)

  function CitationMatches(c: Case, a: Answer, m: Matcher): (r: seq<bool>)
    ensures |r| == |a.citations|
  {
    seq(|a.citations|, i requires 0 <= i < |a.citations| => MatchesAny(m, a.citations[i], c.expected))
  }

  function ExpectedMatches(c: Case, a: Answer, m: Matcher): (r: seq<bool>)
    ensures |r| == |c.expected|
  {
    seq(|c.expected|, i requires 0 <= i < |c.expected| => AnyMatches(m, a.citations, c.expected[i]))
  }

  /** The locations of a citation list without repetitions. */
  function Locations(expected: seq<Citation>): (r: seq<Location>)
    ensures forall l :: l in r <==> exists i :: 0 <= i < |expected| && expected[i].location == l
  {
    if expected == [] then []
    else
      var rest := Locations(expected[1..]);
      assert forall i :: 0 < i < |expected| ==> expected[i] == expected[1..][i - 1];
      var r := if expected[0].location in rest then rest else [expected[0].location] + rest;
      assert forall i :: 0 <= i < |expected[1..]| ==> expected[1..][i].location == expected[i + 1].location;
      assert forall l :: l in r <==> l == expected[0].location || l in rest;
      r
  }

  // ----------------------------------------------------- what one case adds up to

  function RetrievalCounts(c: Case, ranked: seq<Location>): Counts {
    if c.kind != Answerable then Zero
    else match FirstTrue(MatchesAt5(ranked, Locations(c.expected)), 0)
         case None => Zero
         case Some(rank) => HitAt(rank)
  }

  function CitationCounts(c: Case, a: Answer, m: Matcher): Counts {
    if c.kind != Answerable then Zero else CitedCounts(CitationMatches(c, a, m), ExpectedMatches(c, a, m))
  }

  function DecisionCounts(c: Case, a: Answer, m: Matcher): Counts {
    if c.kind == Answerable then CorrectAnswer(a.status, a.matchesExpected, CitationMatches(c, a, m))
    else CorrectAbstention(c.kind, a.status)
  }

  /** What an answer moves: its citations and its decision, as far as it gets. */
  function AnswerCounts(c: Case, a: Answer, reach: Reach, m: Matcher): Counts {
    match reach
    case BeforeCounts => Zero
    case AfterCitations => CitationCounts(c, a, m)
    case AfterDecision => Add(CitationCounts(c, a, m), DecisionCounts(c, a, m))
  }

  /** How far an answered case gets. */
  function ReachOf(o: Outcome): Reach
    requires GotAnswer(o)
  {
    if o.Succeeds? then AfterDecision else o.reach
  }

  predicate GotAnswer(o: Outcome) {
    o.Succeeds? || o.FailsLate?
  }

  /** The counters a case moves before any failure. */
  function ProgressCounts(c: Case, o: Outcome, m: Matcher): Counts {
    match o
    case RetrievalRaises(_) => Zero
    case AnswerRaises(ranked, _) => RetrievalCounts(c, ranked)
    case Succeeds(ranked, a) => Add(RetrievalCounts(c, ranked), AnswerCounts(c, a, AfterDecision, m))
    case FailsLate(ranked, a, reach, _) => Add(RetrievalCounts(c, ranked), AnswerCounts(c, a, reach, m))
  }

  /** Everything the runner counts for a case. */
  function CaseCounts(c: Case, o: Outcome, m: Matcher): Counts {
    if o.Succeeds? then ProgressCounts(c, o, m) else Add(ProgressCounts(c, o, m), ErrorCounts(o.schema))
  }

  function TotalCounts(cases: seq<Case>, outs: seq<Timed>, m: Matcher, n: nat): Counts
    requires n <= |cases| == |outs|
  {
    if n == 0 then Zero else Add(TotalCounts(cases, outs, m, n - 1), CaseCounts(cases[n - 1], outs[n - 1].outcome, m))
  }

  function AnswerableAmong(cases: seq<Case>, n: nat): (r: nat)
    requires n <= |cases|
    ensures r <= n
  {
    if n == 0 then 0 else AnswerableAmong(cases, n - 1) + (if cases[n - 1].kind == Answerable then 1 else 0)
  }

  // ----------------------------------------------------------- records and times

  /** The passages ranked before any failure. */
  function RankedIn(o: Outcome): seq<Location> {
    if o.RetrievalRaises? then [] else o.ranked
  }

  function LocationsFor(c: Case): seq<Location> {
    if c.kind == Answerable then Locations(c.expected) else []
  }

  function MatchesFor(c: Case, o: Outcome): seq<bool> {
    if c.kind == Answerable && !o.RetrievalRaises? then MatchesAt5(RankedIn(o), Locations(c.expected)) else []
  }

  function RankFor(c: Case, o: Outcome): Option<int> {
    if c.kind == Answerable then FirstTrue(MatchesFor(c, o), 0) else None
  }

  function ErrorRecord(c: Case, schema: bool, elapsed: real): Record {
    Record(c.kind, Errored, schema, false, [], None, None, None, None, None, [], Some(Round3(elapsed)))
  }

  function AnswerRecord(c: Case, a: Answer, m: Matcher, elapsed: real): Record {
    Record(c.kind, a.status, false, a.matchesExpected, CitationMatches(c, a, m), Some(ExpectedMatches(c, a, m)),
           None, None, None, None, [], Some(Round3(elapsed)))
  }

  function DecisionRecord(c: Case, t: Timed, m: Matcher): Record {
    match t.outcome
    case Succeeds(_, a) => AnswerRecord(c, a, m, t.elapsed)
    case FailsLate(_, _, _, schema) => ErrorRecord(c, schema, t.late)
    case _ => ErrorRecord(c, t.outcome.schema, t.elapsed)
  }

  /** The entry the runner appends for a case, whether it succeeded or not. */
  function RecordOf(c: Case, t: Timed, m: Matcher): Record {
    DecisionRecord(c, t, m).(retrievalMatches := Some(MatchesFor(c, t.outcome)), expectedLocations := Some(LocationsFor(c)),
                             rank := RankFor(c, t.outcome), completed := Some(!t.outcome.RetrievalRaises?),
                             retrieved := RankedIn(t.outcome))
  }

  function AllRecords(cases: seq<Case>, outs: seq<Timed>, m: Matcher, n: nat): (r: seq<Record>)
    requires n <= |cases| == |outs|
    ensures |r| == n
  {
    if n == 0 then [] else AllRecords(cases, outs, m, n - 1) + [RecordOf(cases[n - 1], outs[n - 1], m)]
  }

  /** A late failure measures the case a second time. */
  function TimesOf(t: Timed): seq<real> {
    if t.outcome.FailsLate? then [t.elapsed] + [t.late] else [t.elapsed]
  }

  function AllTimes(outs: seq<Timed>, n: nat): seq<real>
    requires n <= |outs|
  {
    if n == 0 then [] else AllTimes(outs, n - 1) + TimesOf(outs[n - 1])
  }

  // ------------------------------------------------------------------- the loop

  method CountRetrieval(c: Case, retrieved: seq<Location>, counts: Counts)
    returns (counts': Counts, matches: seq<bool>, rank: Option<int>)
    ensures counts' == Add(counts, RetrievalCounts(c, retrieved))
    ensures matches == if c.kind == Answerable then MatchesAt5(retrieved, Locations(c.expected)) else []
    ensures rank == if c.kind == Answerable then FirstTrue(matches, 0) else None
  {
    counts', matches, rank := counts, [], None;
    if c.kind == Answerable {
      matches := MatchesAt5(retrieved, Locations(c.expected));
      rank := FirstTrue(matches, 0);
      if rank.Some? {
        counts' := counts'.(retrievalHits := counts'.retrievalHits + 1,
                            reciprocalRank := counts'.reciprocalRank + Reciprocal(rank.value));
      }
    }
  }

  method CountCitations(c: Case, answer: Answer, m: Matcher, counts: Counts) returns (counts': Counts)
    ensures counts' == Add(counts, CitationCounts(c, answer, m))
  {
    var citationMatches := CitationMatches(c, answer, m);
    var expectedMatches := ExpectedMatches(c, answer, m);
    counts' := counts;
    if c.kind == Answerable {
      counts' := counts'.(citationCorrect := counts'.citationCorrect + CountTrue(citationMatches),
                          citationReturned := counts'.citationReturned + |citationMatches|,
                          citationExpected := counts'.citationExpected + |expectedMatches|,
                          citationExpectedMatched := counts'.citationExpectedMatched + CountTrue(expectedMatches));
    }
  }

  method CountDecision(c: Case, answer: Answer, m: Matcher, counts: Counts) returns (counts': Counts)
    ensures counts' == Add(counts, DecisionCounts(c, answer, m))
  {
    counts' := counts;
    if c.kind == Answerable {
      if answer.status == Answered && answer.matchesExpected && true in CitationMatches(c, answer, m) {
        counts' := counts'.(answerableCorrect := counts'.answerableCorrect + 1);
      }
    } else if Acceptable(c.kind, answer.status) {
      counts' := counts'.(abstentionCorrect := counts'.abstentionCorrect + 1);
    }
  }

  method CountError(schema: bool, counts: Counts) returns (counts': Counts)
    ensures counts' == Add(counts, ErrorCounts(schema))
  {
    counts' := counts.(errors := counts.errors + 1);
    if schema {
      counts' := counts'.(schemaErrors := counts'.schemaErrors + 1);
    }
  }

  /** The rest of the `try` block once there is an answer, up to where the outcome lets it run. */
  method CountAnswer(c: Case, o: Outcome, m: Matcher, counts: Counts) returns (counts': Counts)
    requires GotAnswer(o)
    ensures counts' == Add(counts, AnswerCounts(c, o.answer, ReachOf(o), m))
  {
    if ReachOf(o) == BeforeCounts {
      AddZero(counts);
      return counts;
    }
    counts' := CountCitations(c, o.answer, m, counts);
    if ReachOf(o) == AfterDecision {
      AddAssoc(counts, CitationCounts(c, o.answer, m), DecisionCounts(c, o.answer, m));
      counts' := CountDecision(c, o.answer, m, counts');
    }
  }

  lemma AnswerIsLast(c: Case, o: Outcome, m: Matcher, counts: Counts)
    requires GotAnswer(o)
    ensures Add(Add(counts, RetrievalCounts(c, o.ranked)), AnswerCounts(c, o.answer, ReachOf(o), m)) ==
            Add(counts, ProgressCounts(c, o, m))
  {
    AddAssoc(counts, RetrievalCounts(c, o.ranked), AnswerCounts(c, o.answer, ReachOf(o), m));
  }

  /** The `try` block of one case. */
  method TryCase(c: Case, t: Timed, m: Matcher, counts: Counts, latencies: seq<real>)
    returns (counts': Counts, latencies': seq<real>, matches: seq<bool>, rank: Option<int>)
    ensures counts' == Add(counts, ProgressCounts(c, t.outcome, m))
    ensures latencies' == if GotAnswer(t.outcome) then latencies + [t.elapsed] else latencies
    ensures matches == MatchesFor(c, t.outcome) && rank == RankFor(c, t.outcome)
  {
    latencies' := latencies;
    if t.outcome.RetrievalRaises? {
      AddZero(counts);
      return counts, latencies, [], None;
    }
    counts', matches, rank := CountRetrieval(c, t.outcome.ranked, counts);
    if GotAnswer(t.outcome) {
      latencies' := latencies' + [t.elapsed];
      AnswerIsLast(c, t.outcome, m, counts);
      counts' := CountAnswer(c, t.outcome, m, counts');
    }
  }

  /** One case with its exception handler: the `except` branch counts the error and measures again. */
  method EvaluateCase(c: Case, t: Timed, m: Matcher, counts: Counts, latencies: seq<real>)
    returns (counts': Counts, latencies': seq<real>, record: Record)
    ensures counts' == Add(counts, CaseCounts(c, t.outcome, m))
    ensures latencies' == latencies + TimesOf(t)
    ensures record == RecordOf(c, t, m)
  {
    var matches, rank;
    counts', latencies', matches, rank := TryCase(c, t, m, counts, latencies);
    if t.outcome.Succeeds? {
      record := AnswerRecord(c, t.outcome.answer, m, t.elapsed);
    } else {
      var elapsed := if t.outcome.FailsLate? then t.late else t.elapsed;
      AddAssoc(counts, ProgressCounts(c, t.outcome, m), ErrorCounts(t.outcome.schema));
      counts' := CountError(t.outcome.schema, counts');
      Assoc(latencies, [t.elapsed], [t.late]);
      latencies' := latencies' + [elapsed];
      record := ErrorRecord(c, t.outcome.schema, elapsed);
    }
    record := record.(retrievalMatches := Some(matches), expectedLocations := Some(LocationsFor(c)),
                      rank := rank, completed := Some(!t.outcome.RetrievalRaises?), retrieved := RankedIn(t.outcome));
  }

  /** The loop over the cases: its counters are the sums of what each case contributes. */
  method EvaluateCases(cases: seq<Case>, outs: seq<Timed>, m: Matcher)
    returns (counts: Counts, answerable: nat, latencies: seq<real>, records: seq<Record>)
    requires |cases| == |outs|
    ensures counts == TotalCounts(cases, outs, m, |cases|) && answerable == AnswerableAmong(cases, |cases|)
    ensures latencies == AllTimes(outs, |cases|)
    ensures records == AllRecords(cases, outs, m, |cases|)
  {
    answerable := 0;
    for i := 0 to |cases|
      invariant answerable == AnswerableAmong(cases, i)
    {
      if cases[i].kind == Answerable { answerable := answerable + 1; }
    }
    counts, latencies, records := Zero, [], [];
    for i := 0 to |cases|
      invariant counts == TotalCounts(cases, outs, m, i)
      invariant latencies == AllTimes(outs, i)
      invariant records == AllRecords(cases, outs, m, i)
    {
      var record;
      counts, latencies, record := EvaluateCase(cases[i], outs[i], m, counts, latencies);
      records := records + [record];
    }
  }
}
