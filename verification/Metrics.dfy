/** What the evaluation runner and the recalculator share: cases, records, counts, rates and the verdict. */
module Metrics {
  import opened Common
  import opened Latency

  datatype Kind = Answerable | Unanswerable | Ambiguous | Adversarial

  datatype Location = Location(documentId: string, page: int)

  datatype Citation = Citation(location: Location, excerpt: string)

  /** An evaluation case: its kind and the citations it expects. */
  datatype Case = Case(kind: Kind, expected: seq<Citation>)

  datatype Status = Answered | PartiallySupported | StatusAmbiguous | Abstained | Errored

  /** The statuses an answer may have; a failed case is recorded with the fifth. */
  type AnswerStatus = s: Status | s != Errored witness Abstained

  /** One entry of the raw artifact. A field the artifact may lack is an option. */
  datatype Record = Record(
    kind: Kind,
    status: Status,
    schemaError: bool,
    answerMatch: bool,
    citationMatches: seq<bool>,
    expectedCitationMatches: Option<seq<bool>>,
    retrievalMatches: Option<seq<bool>>,
    expectedLocations: Option<seq<Location>>,
    rank: Option<int>,
    completed: Option<bool>,
    retrieved: seq<Location>,
    latency: Option<real>)

  /** A sum of reciprocal ranks. */
  type Score = x: real | 0.0 <= x

  datatype Counts = Counts(
    citationCorrect: nat, citationReturned: nat,
    citationExpected: nat, citationExpectedMatched: nat,
    answerableCorrect: nat, abstentionCorrect: nat,
    retrievalHits: nat, reciprocalRank: Score,
    errors: nat, schemaErrors: nat)

  const Zero := Counts(0, 0, 0, 0, 0, 0, 0, 0.0, 0, 0)

  function Sum(a: nat, b: nat): nat { a + b }

  function SumScores(a: Score, b: Score): Score { a + b }

  function Add(a: Counts, b: Counts): Counts {
    Counts(Sum(a.citationCorrect, b.citationCorrect), Sum(a.citationReturned, b.citationReturned),
           Sum(a.citationExpected, b.citationExpected), Sum(a.citationExpectedMatched, b.citationExpectedMatched),
           Sum(a.answerableCorrect, b.answerableCorrect), Sum(a.abstentionCorrect, b.abstentionCorrect),
           Sum(a.retrievalHits, b.retrievalHits), SumScores(a.reciprocalRank, b.reciprocalRank),
           Sum(a.errors, b.errors), Sum(a.schemaErrors, b.schemaErrors))
  }

  lemma AddAssoc(a: Counts, b: Counts, c: Counts)
    ensures Add(Add(a, b), c) == Add(a, Add(b, c))
  {
  }

  lemma AddZero(a: Counts)
    ensures Add(a, Zero) == a && Add(Zero, a) == a
  {
  }

  /** `sum` of a list of booleans. */
  function CountTrue(bs: seq<bool>): (n: nat)
    ensures n <= |bs|
  {
    if bs == [] then 0 else (if bs[0] then 1 else 0) + CountTrue(bs[1..])
  }

  function IsTrue(): bool -> bool { b => b }

  lemma {:induction false} CountTrueSnoc(bs: seq<bool>, b: bool)
    ensures CountTrue(bs + [b]) == CountTrue(bs) + (if b then 1 else 0)
  {
    if bs != [] {
      TailOfAppend(bs, [b]);
      CountTrueSnoc(bs[1..], b);
    }
  }

  lemma {:induction false} CountTrueIsNumber(bs: seq<bool>)
    ensures CountTrue(bs) == Number(bs, IsTrue())
  {
    if bs == [] {
      NumberOfNone(bs, IsTrue());
    } else {
      var n := |bs| - 1;
      CountTrueIsNumber(bs[..n]);
      CountTrueSnoc(bs[..n], bs[n]);
      NumberSnoc(bs[..n], bs[n], IsTrue());
      assert bs == bs[..n] + [bs[n]];
    }
  }

  /** The 1-based position of the first match from index `i` on. */
  function FirstTrue(bs: seq<bool>, i: nat): (rank: Option<int>)
    requires i <= |bs|
    ensures rank.Some? ==> i < rank.value <= |bs| && bs[rank.value - 1]
    ensures rank.None? ==> forall k :: i <= k < |bs| ==> !bs[k]
    ensures rank.Some? ==> forall k :: i <= k < rank.value - 1 ==> !bs[k]
    decreases |bs| - i
  {
    if i == |bs| then None else if bs[i] then Some(i + 1) else FirstTrue(bs, i + 1)
  }

  function FirstFive<T>(s: seq<T>): seq<T> {
    if |s| <= 5 then s else s[..5]
  }

  /** Which of the five best passages are at an expected location. */
  function MatchesAt5(retrieved: seq<Location>, expected: seq<Location>): (r: seq<bool>)
    ensures |r| <= 5 && |r| <= |retrieved|
  {
    var top := FirstFive(retrieved);
    seq(|top|, i requires 0 <= i < |top| => top[i] in expected)
  }

  /** The status that counts as a correct abstention. */
  predicate Acceptable(kind: Kind, status: Status) {
    if kind == Ambiguous then status == StatusAmbiguous else status == Abstained
  }

  // ----------------------------------------- what a single decision adds to the counts

  /** `1.0 / rank` for the ranks among the five best passages. */
  function Reciprocal(rank: int): Score
    requires 1 <= rank <= 5
  {
    match rank
    case 1 => 1.0
    case 2 => 1.0 / 2.0
    case 3 => 1.0 / 3.0
    case 4 => 1.0 / 4.0
    case _ => 1.0 / 5.0
  }

  lemma ReciprocalInverts(rank: int)
    requires 1 <= rank <= 5
    ensures Reciprocal(rank) * rank as real == 1.0
  {
    assert rank in {1, 2, 3, 4, 5};
  }

  function HitAt(rank: int): Counts
    requires 1 <= rank <= 5
  {
    Counts(0, 0, 0, 0, 0, 0, 1, Reciprocal(rank), 0, 0)
  }

  function CitedCounts(returned: seq<bool>, expected: seq<bool>): Counts {
    Counts(CountTrue(returned), |returned|, |expected|, CountTrue(expected), 0, 0, 0, 0.0, 0, 0)
  }

  function CorrectAnswer(status: Status, matches: bool, citationMatches: seq<bool>): Counts {
    Counts(0, 0, 0, 0, if status == Answered && matches && true in citationMatches then 1 else 0, 0, 0, 0.0, 0, 0)
  }

  function CorrectAbstention(kind: Kind, status: Status): Counts {
    Counts(0, 0, 0, 0, 0, if Acceptable(kind, status) then 1 else 0, 0, 0.0, 0, 0)
  }

  function ErrorCounts(schema: bool): Counts {
    Counts(0, 0, 0, 0, 0, 0, 0, 0.0, 1, if schema then 1 else 0)
  }

  function Ratio(numerator: real, denominator: nat): real {
    if denominator == 0 then 0.0 else numerator / denominator as real
  }

  /** `round(x, 6)`. */
  function Round6(x: real): real {
    RoundHalfEven(x * 1000000.0) as real / 1000000.0
  }

  /** True positives, predictions and gold values of the extraction evaluation. */
  datatype ExtractionCounts = ExtractionCounts(truePositive: nat, predicted: nat, gold: nat)

  /** The first `n` documents together. */
  function ExtractionTotal(details: seq<ExtractionCounts>, n: nat): ExtractionCounts
    requires n <= |details|
  {
    if n == 0 then ExtractionCounts(0, 0, 0)
    else
      var e, d := ExtractionTotal(details, n - 1), details[n - 1];
      ExtractionCounts(e.truePositive + d.truePositive, e.predicted + d.predicted, e.gold + d.gold)
  }

  datatype Rates = Rates(
    citationPrecision: real, citationRecall: real, caseAccuracy: real,
    retrievalRecall: real, retrievalMrr: real, abstentionAccuracy: real,
    extractionPrecision: real, extractionRecall: real, extractionF1: real,
    errorRate: real, schemaErrorRate: real)

  function F1(precision: real, recall: real): real {
    if precision + recall == 0.0 then 0.0 else 2.0 * precision * recall / (precision + recall)
  }

  function RatesOf(c: Counts, answerable: nat, abstention: nat, caseCount: nat, e: ExtractionCounts): Rates {
    var precision := Ratio(e.truePositive as real, e.predicted);
    var recall := Ratio(e.truePositive as real, e.gold);
    Rates(Round6(Ratio(c.citationCorrect as real, c.citationReturned)),
          Round6(Ratio(c.citationExpectedMatched as real, c.citationExpected)),
          Round6(Ratio(c.answerableCorrect as real, answerable)),
          Round6(Ratio(c.retrievalHits as real, answerable)),
          Round6(Ratio(c.reciprocalRank, answerable)),
          Round6(Ratio(c.abstentionCorrect as real, abstention)),
          Round6(precision), Round6(recall), Round6(F1(precision, recall)),
          Round6(Ratio(c.errors as real, caseCount)),
          Round6(Ratio(c.schemaErrors as real, caseCount)))
  }

  /** Whether the acceptance targets are met. */
  predicate Passes(r: Rates) {
    && r.citationPrecision >= 0.9 && r.citationRecall >= 0.9 && r.caseAccuracy >= 0.9
    && r.abstentionAccuracy >= 0.85 && r.extractionF1 >= 0.9
    && r.errorRate == 0.0 && r.schemaErrorRate == 0.0
  }
}
