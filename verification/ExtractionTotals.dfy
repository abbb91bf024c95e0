/** What the totals of the extraction evaluation count, target by target and value by value. */
module ExtractionTotals {
  import opened Common
  import opened Metrics
  import opened Extraction

  // ------------------------------------------------------------------ whole targets

  /** The fields of a target count only in its own split. */
  function GoldIn(split: string): Target -> nat {
    (t: Target) => if t.split == split then SumOf(t.fields, ExpectedLength()) else 0
  }

  function ValuesOf(t: Target, extractions: Extractions): FieldTarget -> nat {
    (f: FieldTarget) => if t.documentId in extractions then |extractions[t.documentId](f.name).values| else 0
  }

  function PredictedIn(extractions: Extractions, split: string): Target -> nat {
    (t: Target) => if t.split == split then SumOf(t.fields, ValuesOf(t, extractions)) else 0
  }

  function CreditOf(t: Target, extractions: Extractions, c: Comparison): FieldTarget -> nat {
    (f: FieldTarget) =>
      if t.documentId in extractions then
        var r := extractions[t.documentId](f.name);
        |Credited(r.values, f.expected, Cited(f, r, c.cites), c.matches(f.name), |f.expected|).pairs|
      else 0
  }

  function CreditIn(extractions: Extractions, split: string, c: Comparison): Target -> nat {
    (t: Target) => if t.split == split then SumOf(t.fields, CreditOf(t, extractions, c)) else 0
  }

  function ExpectedLength(): FieldTarget -> nat { (f: FieldTarget) => |f.expected| }

  lemma {:induction false} TotalOfAppend(a: seq<ExtractionCounts>, b: seq<ExtractionCounts>)
    ensures Total(a + b) == AddCounts(Total(a), Total(b))
  {
    if b == [] {
      assert a + b == a;
    } else {
      var n := |b| - 1;
      TotalOfAppend(a, b[..n]);
      TotalSnoc(a + b[..n], b[n]);
      TotalSnoc(b[..n], b[n]);
      assert b == b[..n] + [b[n]];
      Assoc(a, b[..n], [b[n]]);
    }
  }

  lemma {:induction false} FieldTotals(t: Target, extractions: Extractions, c: Comparison, n: nat)
    requires n <= |t.fields|
    ensures Total(FieldCounts(t, extractions, c, n)) ==
            ExtractionCounts(SumOf(t.fields[..n], CreditOf(t, extractions, c)), SumOf(t.fields[..n], ValuesOf(t, extractions)),
                             SumOf(t.fields[..n], ExpectedLength()))
  {
    if n > 0 {
      var f := t.fields[n - 1];
      FieldTotals(t, extractions, c, n - 1);
      TotalSnoc(FieldCounts(t, extractions, c, n - 1), CountsFor(f, ResultFor(t, extractions, f.name), c));
      SumOfSnoc(t.fields[..n - 1], f, CreditOf(t, extractions, c));
      SumOfSnoc(t.fields[..n - 1], f, ValuesOf(t, extractions));
      SumOfSnoc(t.fields[..n - 1], f, ExpectedLength());
      assert t.fields[..n] == t.fields[..n - 1] + [f];
    }
  }

  lemma TargetTotals(t: Target, extractions: Extractions, c: Comparison)
    ensures Total(FieldCounts(t, extractions, c, |t.fields|)) ==
            ExtractionCounts(SumOf(t.fields, CreditOf(t, extractions, c)), SumOf(t.fields, ValuesOf(t, extractions)),
                             SumOf(t.fields, ExpectedLength()))
  {
    FieldTotals(t, extractions, c, |t.fields|);
    assert t.fields[..|t.fields|] == t.fields;
  }

  lemma DetailsStep(targets: seq<Target>, extractions: Extractions, split: string, c: Comparison, n: nat)
    requires n < |targets|
    ensures Total(DetailCounts(targets, extractions, split, c, n + 1)) ==
            AddCounts(Total(DetailCounts(targets, extractions, split, c, n)),
                      ExtractionCounts(CreditIn(extractions, split, c)(targets[n]), PredictedIn(extractions, split)(targets[n]), GoldIn(split)(targets[n])))
  {
    var t := targets[n];
    if t.split == split {
      TargetTotals(t, extractions, c);
      TotalOfAppend(DetailCounts(targets, extractions, split, c, n), FieldCounts(t, extractions, c, |t.fields|));
    }
  }

  /** The totals over some targets: credited pairs, extracted values and expected values. */
  function SumsOver(targets: seq<Target>, extractions: Extractions, split: string, c: Comparison): ExtractionCounts {
    ExtractionCounts(SumOf(targets, CreditIn(extractions, split, c)), SumOf(targets, PredictedIn(extractions, split)),
                     SumOf(targets, GoldIn(split)))
  }

  lemma ThreeSums<T>(before: seq<T>, x: T, all: seq<T>, f: T -> nat, g: T -> nat, h: T -> nat)
    requires all == before + [x]
    ensures ExtractionCounts(SumOf(all, f), SumOf(all, g), SumOf(all, h)) ==
            AddCounts(ExtractionCounts(SumOf(before, f), SumOf(before, g), SumOf(before, h)), ExtractionCounts(f(x), g(x), h(x)))
  {
    SumOfSnoc(before, x, f);
    SumOfSnoc(before, x, g);
    SumOfSnoc(before, x, h);
  }

  lemma SumsSnoc(before: seq<Target>, t: Target, extractions: Extractions, split: string, c: Comparison, all: seq<Target>)
    requires all == before + [t]
    ensures SumsOver(all, extractions, split, c) ==
            AddCounts(SumsOver(before, extractions, split, c),
                      ExtractionCounts(CreditIn(extractions, split, c)(t), PredictedIn(extractions, split)(t), GoldIn(split)(t)))
  {
    ThreeSums(before, t, all, CreditIn(extractions, split, c), PredictedIn(extractions, split), GoldIn(split));
  }

  lemma SumsOverNone(none: seq<Target>, extractions: Extractions, split: string, c: Comparison)
    requires none == []
    ensures SumsOver(none, extractions, split, c) == ExtractionCounts(0, 0, 0)
  {
  }

  /**
    The totals of an evaluation: over the targets of the split alone, the expected values of all fields, the extracted
    values of those with an extraction, and the pairs credited between them.
   */
  lemma {:induction false} TotalsAre(targets: seq<Target>, extractions: Extractions, split: string, c: Comparison, n: nat)
    requires n <= |targets|
    ensures Total(DetailCounts(targets, extractions, split, c, n)) == SumsOver(targets[..n], extractions, split, c)
  {
    if n == 0 {
      SumsOverNone(targets[..n], extractions, split, c);
    } else {
      TotalsAre(targets, extractions, split, c, n - 1);
      DetailsStep(targets, extractions, split, c, n - 1);
      assert targets[..n] == targets[..n - 1] + [targets[n - 1]];
      SumsSnoc(targets[..n - 1], targets[n - 1], extractions, split, c, targets[..n]);
    }
  }

  // ------------------------------------------------------------------ single values

  /** Expected value `i` is cited: some citation of the field matches its own expected citation, or any where they are not one per value. */
  lemma CitedExactlyWhen(f: FieldTarget, r: FieldResult, cites: (Citation, Citation) -> bool, i: nat)
    requires i < |f.expected|
    ensures |f.gold| == |f.expected| ==>
              (Cited(f, r, cites)[i] <==> exists k :: 0 <= k < |r.citations| && cites(r.citations[k], f.gold[i]))
    ensures |f.gold| != |f.expected| ==>
              (Cited(f, r, cites)[i] <==>
                 exists k, g :: 0 <= k < |r.citations| && 0 <= g < |f.gold| && cites(r.citations[k], f.gold[g]))
  {
    var golds := GoldFor(f, i);
    if Cited(f, r, cites)[i] {
      var c, g :| c in r.citations && g in golds && cites(c, g);
      var k :| 0 <= k < |r.citations| && r.citations[k] == c;
      var j :| 0 <= j < |golds| && golds[j] == g;
    }
    if k, g :| 0 <= k < |r.citations| && 0 <= g < |golds| && cites(r.citations[k], golds[g]) {
      assert r.citations[k] in r.citations && golds[g] in golds;
    }
    if |f.gold| == |f.expected| { assert golds[0] == f.gold[i]; }
  }

  /** An expected value counts as found when a value not credited before matches it, cited or not. */
  lemma FoundExactlyWhen(actual: seq<string>, expected: seq<string>, cited: seq<bool>, matches: (string, string) -> bool, n: nat)
    requires n < |expected| == |cited|
    ensures |Credited(actual, expected, cited, matches, n + 1).found| == n + 1
    ensures Credited(actual, expected, cited, matches, n + 1).found[n] <==>
            exists k :: 0 <= k < |Credited(actual, expected, cited, matches, n).unmatched|
                        && matches(Credited(actual, expected, cited, matches, n).unmatched[k], expected[n])
  {
    FoundLength(actual, expected, cited, matches, n);
    var p := Credited(actual, expected, cited, matches, n);
    var k := FirstMatch(p.unmatched, expected[n], matches, 0);
    if k.Some? { assert matches(p.unmatched[k.value], expected[n]); }
  }

  /** The expected values that are found and cited. */
  function Earned(found: seq<bool>, cited: seq<bool>): set<nat>
    requires |found| <= |cited|
  {
    set i: nat | i < |found| && found[i] && cited[i]
  }

  lemma EarnedSnoc(before: seq<bool>, last: bool, cited: seq<bool>)
    requires |before| < |cited|
    ensures |Earned(before + [last], cited)| == |Earned(before, cited)| + (if last && cited[|before|] then 1 else 0)
  {
    var n := |before|;
    assert Earned(before + [last], cited) == Earned(before, cited) + (if last && cited[n] then {n} else {});
  }

  lemma EarnedNothing(found: seq<bool>, cited: seq<bool>)
    requires |found| == 0
    ensures |Earned(found, cited)| == 0
  {
    assert Earned(found, cited) == {};
  }

  lemma FoundStep(actual: seq<string>, expected: seq<string>, cited: seq<bool>, matches: (string, string) -> bool, n: nat)
    requires n < |expected| == |cited|
    ensures var before, next := Credited(actual, expected, cited, matches, n), Credited(actual, expected, cited, matches, n + 1);
            exists last :: next.found == before.found + [last] && |next.pairs| == |before.pairs| + (if last && cited[n] then 1 else 0)
  {
    var last := FirstMatch(Credited(actual, expected, cited, matches, n).unmatched, expected[n], matches, 0).Some?;
    assert Credited(actual, expected, cited, matches, n + 1).found == Credited(actual, expected, cited, matches, n).found + [last];
  }

  /** Exactly the values that are found and cited are credited, one pair each: an uncited value earns nothing. */
  lemma {:induction false} CreditIsFoundAndCited(actual: seq<string>, expected: seq<string>, cited: seq<bool>, matches: (string, string) -> bool, n: nat)
    requires n <= |expected| == |cited|
    ensures |Credited(actual, expected, cited, matches, n).found| == n
    ensures |Credited(actual, expected, cited, matches, n).pairs| == |Earned(Credited(actual, expected, cited, matches, n).found, cited)|
  {
    FoundLength(actual, expected, cited, matches, n);
    if n == 0 {
      EarnedNothing(Credited(actual, expected, cited, matches, n).found, cited);
    } else {
      var before := Credited(actual, expected, cited, matches, n - 1);
      CreditIsFoundAndCited(actual, expected, cited, matches, n - 1);
      FoundStep(actual, expected, cited, matches, n - 1);
      var last :| Credited(actual, expected, cited, matches, n).found == before.found + [last]
                  && |Credited(actual, expected, cited, matches, n).pairs| == |before.pairs| + (if last && cited[n - 1] then 1 else 0);
      EarnedSnoc(before.found, last, cited);
    }
  }
}
