/** When an evaluation passes, in whole numbers: the targets on rounded rates, without rounding and without division. */
module Verdict {
  import opened Common
  import opened Latency
  import opened Metrics

  lemma RoundAtLeast(x: real, k: int)
    ensures k % 2 == 0 ==> (RoundHalfEven(x) >= k <==> x >= k as real - 0.5)
  {
  }

  lemma RoundIsZero(x: real)
    requires x >= 0.0
    ensures RoundHalfEven(x) == 0 <==> x <= 0.5
  {
  }

  /** A rate of millionths is reached by rounding half a millionth below it. */
  lemma Round6AtLeast(x: real, millionths: int)
    requires millionths % 2 == 0
    ensures Round6(x) >= millionths as real / 1000000.0 <==> x >= (millionths as real - 0.5) / 1000000.0
  {
    RoundAtLeast(x * 1000000.0, millionths);
  }

  lemma Round6IsZero(x: real)
    requires x >= 0.0
    ensures Round6(x) == 0.0 <==> x <= 0.5 / 1000000.0
  {
    RoundIsZero(x * 1000000.0);
  }

  lemma QuotientAtLeast(a: real, b: real, k: real)
    requires b > 0.0
    ensures a / b >= k <==> a >= k * b
    ensures a / b <= k <==> a <= k * b
  {
    var q := a / b;
    assert q * b == a;
    if q >= k { assert (q - k) * b >= 0.0; } else { assert (k - q) * b > 0.0; }
    if q <= k { assert (k - q) * b >= 0.0; } else { assert (q - k) * b > 0.0; }
  }

  /** At least `part` of `whole`, in two-millionths. */
  predicate Reaches(part: nat, whole: nat, twoMillionths: nat) {
    whole > 0 && 2000000 * part >= twoMillionths * whole
  }

  lemma RateReaches(a: nat, b: nat, millionths: nat)
    requires millionths % 2 == 0 && millionths > 0
    ensures Round6(Ratio(a as real, b)) >= millionths as real / 1000000.0 <==> Reaches(a, b, 2 * millionths - 1)
  {
    Round6AtLeast(Ratio(a as real, b), millionths);
    if b > 0 {
      var k := (millionths as real - 0.5) / 1000000.0;
      QuotientAtLeast(a as real, b as real, k);
      assert k * 2000000.0 == (2 * millionths - 1) as real;
      assert a as real >= k * b as real <==> 2000000.0 * a as real >= k * 2000000.0 * b as real;
      WholeProducts(a, b, 2 * millionths - 1);
    }
  }

  lemma WholeProducts(a: nat, b: nat, k: nat)
    ensures 2000000.0 * a as real >= k as real * b as real <==> 2000000 * a >= k * b
  {
    assert (2000000 * a) as real == 2000000.0 * a as real;
    assert (k * b) as real == k as real * b as real;
  }

  lemma NoErrors(errors: nat, cases: nat)
    ensures Round6(Ratio(errors as real, cases)) == 0.0 <==> cases == 0 || 2000000 * errors <= cases
  {
    if cases == 0 {
      RoundOfInt(0);
    } else {
      var k := 0.5 / 1000000.0;
      QuotientAtLeast(errors as real, cases as real, k);
      QuotientAtLeast(errors as real, cases as real, 0.0);
      Round6IsZero(errors as real / cases as real);
      assert errors as real <= k * cases as real <==> 2000000.0 * errors as real <= cases as real;
    }
  }

  /** The F1 of counted matches is twice the matches over predictions and gold values together. */
  lemma F1IsShared(t: real, p: real, g: real)
    requires t > 0.0 && p > 0.0 && g > 0.0
    ensures F1(t / p, t / g) == 2.0 * t / (p + g)
  {
    var x, y := t / p, t / g;
    assert x * p == t && y * g == t && x > 0.0 && y > 0.0;
    assert x * y * (p + g) == t * (x + y) by {
      assert x * y * p == t * y && x * y * g == t * x;
    }
    var f, h := 2.0 * x * y / (x + y), 2.0 * t / (p + g);
    assert f * (x + y) == 2.0 * x * y && h * (p + g) == 2.0 * t;
    assert (f * (x + y)) * (p + g) == 2.0 * t * (x + y);
    assert (h * (p + g)) * (x + y) == 2.0 * t * (x + y);
    assert (f - h) * ((x + y) * (p + g)) == 0.0;
  }

  lemma F1OfNothing(x: real, y: real)
    requires (x == 0.0 || y == 0.0) && x >= 0.0 && y >= 0.0
    ensures Round6(F1(x, y)) == 0.0
  {
    assert x * y == 0.0;
    if x + y != 0.0 { assert 2.0 * x * y == 0.0; }
    RoundOfInt(0);
  }

  lemma F1Reaches(e: ExtractionCounts)
    ensures Round6(F1(Ratio(e.truePositive as real, e.predicted), Ratio(e.truePositive as real, e.gold))) >= 0.9 <==>
            e.predicted > 0 && e.gold > 0 && Reaches(2 * e.truePositive, e.predicted + e.gold, 1799999)
  {
    var t, p, g := e.truePositive, e.predicted, e.gold;
    if t == 0 || p == 0 || g == 0 {
      if p > 0 { QuotientAtLeast(t as real, p as real, 0.0); }
      if g > 0 { QuotientAtLeast(t as real, g as real, 0.0); }
      F1OfNothing(Ratio(t as real, p), Ratio(t as real, g));
    } else {
      F1IsShared(t as real, p as real, g as real);
      assert (p + g) as real == p as real + g as real && (2 * t) as real == 2.0 * t as real;
      RateReaches(2 * t, p + g, 900000);
    }
  }

  /** No error at all, unless there are two million cases for each. */
  predicate Negligible(errors: nat, cases: nat) {
    cases == 0 || 2000000 * errors <= cases
  }

  /**
    An evaluation passes exactly when 90 in 100 of the returned citations, of the expected ones and of the answerable
    cases are right, 85 in 100 of the others are withheld, 90 in 100 extracted and gold values together match, each up
    to half a millionth, and the errors are too few to show.
   */
  lemma PassesExactlyWhen(c: Counts, answerable: nat, abstention: nat, cases: nat, e: ExtractionCounts)
    ensures Passes(RatesOf(c, answerable, abstention, cases, e)) <==>
            && Reaches(c.citationCorrect, c.citationReturned, 1799999)
            && Reaches(c.citationExpectedMatched, c.citationExpected, 1799999)
            && Reaches(c.answerableCorrect, answerable, 1799999)
            && Reaches(c.abstentionCorrect, abstention, 1699999)
            && e.predicted > 0 && e.gold > 0 && Reaches(2 * e.truePositive, e.predicted + e.gold, 1799999)
            && Negligible(c.errors, cases) && Negligible(c.schemaErrors, cases)
  {
    RateReaches(c.citationCorrect, c.citationReturned, 900000);
    RateReaches(c.citationExpectedMatched, c.citationExpected, 900000);
    RateReaches(c.answerableCorrect, answerable, 900000);
    RateReaches(c.abstentionCorrect, abstention, 850000);
    F1Reaches(e);
    NoErrors(c.errors, cases);
    NoErrors(c.schemaErrors, cases);
  }

  // ------------------------------------------------------------------ every rate

  /** The rate is a quotient up to half a millionth, or 0 where there is nothing to divide by. */
  predicate Near(rate: real, part: real, whole: nat) {
    if whole == 0 then rate == 0.0 else -0.0000005 <= rate - part / whole as real <= 0.0000005
  }

  lemma RoundsNear(part: real, whole: nat)
    ensures Near(Round6(Ratio(part, whole)), part, whole)
  {
    RoundOfInt(0);
    var x := Ratio(part, whole);
    assert Round6(x) * 1000000.0 == RoundHalfEven(x * 1000000.0) as real;
  }

  /** Which counts each rate divides. */
  lemma RatesAreQuotients(c: Counts, answerable: nat, abstention: nat, cases: nat, e: ExtractionCounts)
    ensures var r := RatesOf(c, answerable, abstention, cases, e);
            && Near(r.citationPrecision, c.citationCorrect as real, c.citationReturned)
            && Near(r.citationRecall, c.citationExpectedMatched as real, c.citationExpected)
            && Near(r.caseAccuracy, c.answerableCorrect as real, answerable)
            && Near(r.retrievalRecall, c.retrievalHits as real, answerable)
            && Near(r.retrievalMrr, c.reciprocalRank, answerable)
            && Near(r.abstentionAccuracy, c.abstentionCorrect as real, abstention)
            && Near(r.extractionPrecision, e.truePositive as real, e.predicted)
            && Near(r.extractionRecall, e.truePositive as real, e.gold)
            && Near(r.errorRate, c.errors as real, cases) && Near(r.schemaErrorRate, c.schemaErrors as real, cases)
  {
    RoundsNear(c.citationCorrect as real, c.citationReturned);
    RoundsNear(c.citationExpectedMatched as real, c.citationExpected);
    RoundsNear(c.answerableCorrect as real, answerable);
    RoundsNear(c.retrievalHits as real, answerable);
    RoundsNear(c.reciprocalRank, answerable);
    RoundsNear(c.abstentionCorrect as real, abstention);
    RoundsNear(e.truePositive as real, e.predicted);
    RoundsNear(e.truePositive as real, e.gold);
    RoundsNear(c.errors as real, cases);
    RoundsNear(c.schemaErrors as real, cases);
  }
}
