/** The extraction evaluation: expected values are matched one by one against the values an engine extracted. */
module Extraction {
  import opened Common
  import opened Latency
  import opened Metrics

  /** The first unmatched value that matches an expected one, from index `k` on. */
  function FirstMatch(unmatched: seq<string>, expected: string, matches: (string, string) -> bool, k: nat): (r: Option<nat>)
    requires k <= |unmatched|
    ensures r.Some? ==> k <= r.value < |unmatched| && matches(unmatched[r.value], expected)
    ensures r.Some? ==> forall i :: k <= i < r.value ==> !matches(unmatched[i], expected)
    ensures r.None? ==> forall i :: k <= i < |unmatched| ==> !matches(unmatched[i], expected)
    decreases |unmatched| - k
  {
    if k == |unmatched| then None
    else if matches(unmatched[k], expected) then Some(k)
    else FirstMatch(unmatched, expected, matches, k + 1)
  }

  function RemoveAt(s: seq<string>, k: nat): seq<string>
    requires k < |s|
  {
    s[..k] + s[k + 1..]
  }

  lemma RemoveAtRemoves(s: seq<string>, k: nat)
    requires k < |s|
    ensures multiset(s) == multiset(RemoveAt(s, k)) + multiset{s[k]} && |RemoveAt(s, k)| == |s| - 1
  {
    assert s == s[..k] + ([s[k]] + s[k + 1..]);
  }

  /** `list.remove`: drops the first element equal to a value. */
  function RemoveFirst(s: seq<string>, value: string): seq<string>
    requires value in s
  {
    if s[0] == value then s[1..] else [s[0]] + RemoveFirst(s[1..], value)
  }

  /** The value that matched is the one removed: no equal value stands before the first match. */
  lemma {:induction false} RemovesTheMatch(s: seq<string>, k: nat)
    requires k < |s| && forall i :: 0 <= i < k ==> s[i] != s[k]
    ensures RemoveFirst(s, s[k]) == RemoveAt(s, k)
  {
    if k > 0 {
      RemovesTheMatch(s[1..], k - 1);
      assert s[1..][k - 1] == s[k];
    }
  }

  /** The values left, the pairs credited and whether each expected value found a match. */
  datatype Progress = Progress(unmatched: seq<string>, pairs: seq<(string, string)>, found: seq<bool>)

  /** The first `n` expected values: each is credited with the first value left that matches, if its citation is right. */
  function Credited(actual: seq<string>, expected: seq<string>, cited: seq<bool>, matches: (string, string) -> bool, n: nat): Progress
    requires n <= |expected| == |cited|
  {
    if n == 0 then Progress(actual, [], [])
    else
      var p := Credited(actual, expected, cited, matches, n - 1);
      match FirstMatch(p.unmatched, expected[n - 1], matches, 0)
      case None => p.(found := p.found + [false])
      case Some(k) =>
        if cited[n - 1] then Progress(RemoveAt(p.unmatched, k), p.pairs + [(p.unmatched[k], expected[n - 1])], p.found + [true])
        else p.(found := p.found + [true])
  }

  method MatchField(actual: seq<string>, expected: seq<string>, cited: seq<bool>, matches: (string, string) -> bool)
    returns (truePositive: nat, found: seq<bool>)
    requires |expected| == |cited|
    ensures truePositive == |Credited(actual, expected, cited, matches, |expected|).pairs|
    ensures found == Credited(actual, expected, cited, matches, |expected|).found
  {
    var unmatched := actual;
    truePositive, found := 0, [];
    for i := 0 to |expected|
      invariant unmatched == Credited(actual, expected, cited, matches, i).unmatched
      invariant truePositive == |Credited(actual, expected, cited, matches, i).pairs|
      invariant found == Credited(actual, expected, cited, matches, i).found
    {
      var k := FirstMatch(unmatched, expected[i], matches, 0);
      if k.Some? && cited[i] {
        truePositive := truePositive + 1;
        RemovesTheMatch(unmatched, k.value);
        unmatched := RemoveFirst(unmatched, unmatched[k.value]);
      }
      found := found + [k.Some?];
    }
  }

  function Firsts(pairs: seq<(string, string)>): seq<string> {
    seq(|pairs|, i requires 0 <= i < |pairs| => pairs[i].0)
  }

  function Seconds(pairs: seq<(string, string)>): seq<string> {
    seq(|pairs|, i requires 0 <= i < |pairs| => pairs[i].1)
  }

  /** The expected values whose citation is right. */
  function Supported(expected: seq<string>, cited: seq<bool>, n: nat): seq<string>
    requires n <= |expected| == |cited|
  {
    if n == 0 then []
    else if cited[n - 1] then Supported(expected, cited, n - 1) + [expected[n - 1]]
    else Supported(expected, cited, n - 1)
  }

  lemma PairsSnoc(pairs: seq<(string, string)>, p: (string, string))
    ensures Firsts(pairs + [p]) == Firsts(pairs) + [p.0] && Seconds(pairs + [p]) == Seconds(pairs) + [p.1]
  {
  }

  lemma CreditFits(p: Progress, actual: seq<string>, supported: seq<string>)
    requires multiset(p.unmatched) + multiset(Firsts(p.pairs)) == multiset(actual)
    requires multiset(Seconds(p.pairs)) <= multiset(supported)
    ensures |p.pairs| <= |actual| && |p.pairs| <= |supported|
  {
    assert |multiset(p.unmatched)| + |multiset(Firsts(p.pairs))| == |multiset(actual)|;
    assert |multiset(supported) - multiset(Seconds(p.pairs))| == |multiset(supported)| - |multiset(Seconds(p.pairs))|;
  }

  /** No extracted value and no supported value is used twice, and every pair matches. */
  predicate IsMatching(p: Progress, actual: seq<string>, supported: seq<string>, matches: (string, string) -> bool) {
    && multiset(p.unmatched) + multiset(Firsts(p.pairs)) == multiset(actual)
    && multiset(Seconds(p.pairs)) <= multiset(supported)
    && forall i :: 0 <= i < |p.pairs| ==> matches(p.pairs[i].0, p.pairs[i].1)
  }

  lemma CreditKeepsMatching(p: Progress, k: nat, wanted: string, actual: seq<string>, supported: seq<string>, matches: (string, string) -> bool)
    requires IsMatching(p, actual, supported, matches) && k < |p.unmatched| && matches(p.unmatched[k], wanted)
    ensures IsMatching(Progress(RemoveAt(p.unmatched, k), p.pairs + [(p.unmatched[k], wanted)], p.found + [true]), actual, supported + [wanted], matches)
  {
    RemoveAtRemoves(p.unmatched, k);
    PairsSnoc(p.pairs, (p.unmatched[k], wanted));
  }

  /** The credited pairs are a matching of extracted values with supported values, so neither side bounds are exceeded. */
  lemma {:induction false} CreditIsMatching(actual: seq<string>, expected: seq<string>, cited: seq<bool>, matches: (string, string) -> bool, n: nat)
    requires n <= |expected| == |cited|
    ensures IsMatching(Credited(actual, expected, cited, matches, n), actual, Supported(expected, cited, n), matches)
    ensures |Credited(actual, expected, cited, matches, n).pairs| <= |actual|
    ensures |Credited(actual, expected, cited, matches, n).pairs| <= |Supported(expected, cited, n)| <= n
  {
    if n == 0 {
      assert Firsts([]) == [] && Seconds([]) == [];
    } else {
      CreditIsMatching(actual, expected, cited, matches, n - 1);
      var p := Credited(actual, expected, cited, matches, n - 1);
      var k := FirstMatch(p.unmatched, expected[n - 1], matches, 0);
      if k.Some? && cited[n - 1] {
        CreditKeepsMatching(p, k.value, expected[n - 1], actual, Supported(expected, cited, n - 1), matches);
      }
    }
    CreditFits(Credited(actual, expected, cited, matches, n), actual, Supported(expected, cited, n));
  }

  // ----------------------------------------------------------------- the whole loop

  /** A field the engine extracted: its values and its citations. */
  datatype FieldResult = FieldResult(values: seq<string>, citations: seq<Citation>)

  /** A field of a target: its expected values and their citations. */
  datatype FieldTarget = FieldTarget(name: string, expected: seq<string>, gold: seq<Citation>)

  datatype Target = Target(documentId: string, split: string, fields: seq<FieldTarget>)

  /** How values and citations are compared: by the value type of the field, and by location and excerpt. */
  datatype Comparison = Comparison(matches: string -> (string, string) -> bool, cites: (Citation, Citation) -> bool)

  datatype Detail = Detail(documentId: string, field: string, found: seq<bool>, cited: seq<bool>, counts: ExtractionCounts)

  /** One citation per expected value if there are as many, otherwise all of them for every value. */
  function GoldFor(f: FieldTarget, i: nat): seq<Citation>
    requires i < |f.expected|
  {
    if |f.gold| == |f.expected| then [f.gold[i]] else f.gold
  }

  predicate CitedAt(f: FieldTarget, r: FieldResult, cites: (Citation, Citation) -> bool, i: nat)
    requires i < |f.expected|
  {
    exists c, g :: c in r.citations && g in GoldFor(f, i) && cites(c, g)
  }

  function Cited(f: FieldTarget, r: FieldResult, cites: (Citation, Citation) -> bool): (b: seq<bool>)
    ensures |b| == |f.expected|
  {
    seq(|f.expected|, i requires 0 <= i < |f.expected| => CitedAt(f, r, cites, i))
  }

  /** What a field is credited: nothing when the document has no extraction. */
  function CountsFor(f: FieldTarget, r: Option<FieldResult>, c: Comparison): ExtractionCounts {
    match r
    case None => ExtractionCounts(0, 0, |f.expected|)
    case Some(r) =>
      ExtractionCounts(|Credited(r.values, f.expected, Cited(f, r, c.cites), c.matches(f.name), |f.expected|).pairs|,
                       |r.values|, |f.expected|)
  }

  method EvaluateField(documentId: string, f: FieldTarget, r: Option<FieldResult>, c: Comparison) returns (d: Detail)
    ensures d.documentId == documentId && d.field == f.name && d.counts == CountsFor(f, r, c)
    ensures |d.found| == |d.cited| == |f.expected|
    ensures r.None? ==> forall i :: 0 <= i < |f.expected| ==> !d.found[i] && !d.cited[i]
    ensures r.Some? ==> d.cited == Cited(f, r.value, c.cites)
    ensures r.Some? ==> d.found == Credited(r.value.values, f.expected, d.cited, c.matches(f.name), |f.expected|).found
  {
    match r
    case None =>
      var missing := seq(|f.expected|, _ => false);
      d := Detail(documentId, f.name, missing, missing, ExtractionCounts(0, 0, |f.expected|));
    case Some(r) =>
      var cited := Cited(f, r, c.cites);
      var truePositive, found := MatchField(r.values, f.expected, cited, c.matches(f.name));
      FoundLength(r.values, f.expected, cited, c.matches(f.name), |f.expected|);
      d := Detail(documentId, f.name, found, cited, ExtractionCounts(truePositive, |r.values|, |f.expected|));
  }

  lemma {:induction false} FoundLength(actual: seq<string>, expected: seq<string>, cited: seq<bool>, matches: (string, string) -> bool, n: nat)
    requires n <= |expected| == |cited|
    ensures |Credited(actual, expected, cited, matches, n).found| == n
  {
    if n > 0 { FoundLength(actual, expected, cited, matches, n - 1); }
  }

  /** The extraction of a document, by field name. */
  type Extractions = map<string, string -> FieldResult>

  function ResultFor(t: Target, extractions: Extractions, name: string): Option<FieldResult> {
    if t.documentId in extractions then Some(extractions[t.documentId](name)) else None
  }

  /** The counts of the first `n` fields of a target. */
  function FieldCounts(t: Target, extractions: Extractions, c: Comparison, n: nat): seq<ExtractionCounts>
    requires n <= |t.fields|
  {
    if n == 0 then []
    else FieldCounts(t, extractions, c, n - 1) + [CountsFor(t.fields[n - 1], ResultFor(t, extractions, t.fields[n - 1].name), c)]
  }

  /** The counts of every field of the targets of a split, in order. */
  function DetailCounts(targets: seq<Target>, extractions: Extractions, split: string, c: Comparison, n: nat): seq<ExtractionCounts>
    requires n <= |targets|
  {
    if n == 0 then []
    else if targets[n - 1].split != split then DetailCounts(targets, extractions, split, c, n - 1)
    else DetailCounts(targets, extractions, split, c, n - 1) + FieldCounts(targets[n - 1], extractions, c, |targets[n - 1].fields|)
  }

  function CountsIn(details: seq<Detail>): (r: seq<ExtractionCounts>)
    ensures |r| == |details|
  {
    seq(|details|, i requires 0 <= i < |details| => details[i].counts)
  }

  function AddCounts(a: ExtractionCounts, b: ExtractionCounts): ExtractionCounts {
    ExtractionCounts(a.truePositive + b.truePositive, a.predicted + b.predicted, a.gold + b.gold)
  }

  /** Totals of details, as the recalculator sums them. */
  function Total(details: seq<ExtractionCounts>): ExtractionCounts {
    ExtractionTotal(details, |details|)
  }

  lemma TotalSnoc(details: seq<ExtractionCounts>, d: ExtractionCounts)
    ensures Total(details + [d]) == AddCounts(Total(details), d)
  {
    TotalPrefix(details, d, |details|);
  }

  lemma {:induction false} TotalPrefix(details: seq<ExtractionCounts>, d: ExtractionCounts, n: nat)
    requires n <= |details|
    ensures ExtractionTotal(details + [d], n) == ExtractionTotal(details, n)
  {
    if n > 0 { TotalPrefix(details, d, n - 1); }
  }

  method EvaluateTarget(t: Target, extractions: Extractions, c: Comparison, before: ExtractionCounts, detailsBefore: seq<Detail>)
    returns (totals: ExtractionCounts, details: seq<Detail>)
    requires before == Total(CountsIn(detailsBefore))
    ensures totals == Total(CountsIn(details))
    ensures CountsIn(details) == CountsIn(detailsBefore) + FieldCounts(t, extractions, c, |t.fields|)
  {
    totals, details := before, detailsBefore;
    for i := 0 to |t.fields|
      invariant totals == Total(CountsIn(details))
      invariant CountsIn(details) == CountsIn(detailsBefore) + FieldCounts(t, extractions, c, i)
    {
      var f := t.fields[i];
      var d := EvaluateField(t.documentId, f, ResultFor(t, extractions, f.name), c);
      TotalSnoc(CountsIn(details), d.counts);
      assert CountsIn(details + [d]) == CountsIn(details) + [d.counts];
      totals := AddCounts(totals, d.counts);
      details := details + [d];
    }
  }

  /** The extraction evaluation of a split: one detail per field, and totals that are the sums of the details. */
  method EvaluateExtraction(targets: seq<Target>, extractions: Extractions, split: string, c: Comparison)
    returns (totals: ExtractionCounts, details: seq<Detail>)
    ensures CountsIn(details) == DetailCounts(targets, extractions, split, c, |targets|)
    ensures totals == Total(CountsIn(details))
  {
    totals, details := ExtractionCounts(0, 0, 0), [];
    for i := 0 to |targets|
      invariant CountsIn(details) == DetailCounts(targets, extractions, split, c, i)
      invariant totals == Total(CountsIn(details))
    {
      if targets[i].split == split {
        totals, details := EvaluateTarget(targets[i], extractions, c, totals, details);
      }
    }
  }

  predicate Bounded(e: ExtractionCounts) {
    e.truePositive <= e.predicted && e.truePositive <= e.gold
  }

  lemma CountsAreBounded(f: FieldTarget, r: Option<FieldResult>, c: Comparison)
    ensures Bounded(CountsFor(f, r, c))
  {
    match r
    case None =>
    case Some(r) => CreditIsMatching(r.values, f.expected, Cited(f, r, c.cites), c.matches(f.name), |f.expected|);
  }

  lemma {:induction false} TotalsAreBounded(details: seq<ExtractionCounts>, n: nat)
    requires n <= |details| && forall i :: 0 <= i < |details| ==> Bounded(details[i])
    ensures Bounded(ExtractionTotal(details, n))
  {
    if n > 0 { TotalsAreBounded(details, n - 1); }
  }

  lemma {:induction false} FieldsAreBounded(t: Target, extractions: Extractions, c: Comparison, n: nat)
    requires n <= |t.fields|
    ensures forall i :: 0 <= i < |FieldCounts(t, extractions, c, n)| ==> Bounded(FieldCounts(t, extractions, c, n)[i])
  {
    if n > 0 {
      FieldsAreBounded(t, extractions, c, n - 1);
      CountsAreBounded(t.fields[n - 1], ResultFor(t, extractions, t.fields[n - 1].name), c);
    }
  }

  lemma {:induction false} DetailsAreBounded(targets: seq<Target>, extractions: Extractions, split: string, c: Comparison, n: nat)
    requires n <= |targets|
    ensures forall i :: 0 <= i < |DetailCounts(targets, extractions, split, c, n)| ==> Bounded(DetailCounts(targets, extractions, split, c, n)[i])
  {
    if n > 0 {
      DetailsAreBounded(targets, extractions, split, c, n - 1);
      FieldsAreBounded(targets[n - 1], extractions, c, |targets[n - 1].fields|);
    }
  }

  lemma FractionsOf(e: ExtractionCounts)
    requires Bounded(e)
    ensures var precision, recall := Ratio(e.truePositive as real, e.predicted), Ratio(e.truePositive as real, e.gold);
            0.0 <= precision <= 1.0 && 0.0 <= recall <= 1.0
  {
    FractionOf(e.truePositive, e.predicted);
    FractionOf(e.truePositive, e.gold);
  }

  lemma FractionOf(a: nat, b: nat)
    requires a <= b
    ensures 0.0 <= Ratio(a as real, b) <= 1.0
  {
    if b > 0 {
      var x, y := a as real, b as real;
      assert 0.0 <= x <= y && 0.0 < y;
    }
  }

  /** No value is credited twice, so precision and recall of a whole evaluation are fractions. */
  lemma ExtractionRatesAreFractions(targets: seq<Target>, extractions: Extractions, split: string, c: Comparison)
    ensures var e := Total(DetailCounts(targets, extractions, split, c, |targets|));
            && 0.0 <= Ratio(e.truePositive as real, e.predicted) <= 1.0
            && 0.0 <= Ratio(e.truePositive as real, e.gold) <= 1.0
  {
    var details := DetailCounts(targets, extractions, split, c, |targets|);
    DetailsAreBounded(targets, extractions, split, c, |targets|);
    TotalsAreBounded(details, |details|);
    FractionsOf(Total(details));
  }
}
