/** Rounded latencies: medians and 95th percentiles before and after each value is rounded. */
module Latency {
  import opened Common

  /** Python's `round` to an integer: ties go to the even neighbour. */
  function RoundHalfEven(x: real): (k: int)
    ensures k as real - 0.5 <= x <= k as real + 0.5
  {
    var f := x.Floor;
    var d := x - f as real;
    if d < 0.5 then f else if d > 0.5 then f + 1 else if f % 2 == 0 then f else f + 1
  }

  /** `round(x, 3)`. */
  function Round3(x: real): real {
    RoundHalfEven(x * 1000.0) as real / 1000.0
  }

  function RoundAll(values: seq<real>): (r: seq<real>)
    ensures |r| == |values| && forall i :: 0 <= i < |r| ==> r[i] == Round3(values[i])
  {
    seq(|values|, i requires 0 <= i < |values| => Round3(values[i]))
  }

  function Insert(x: real, s: seq<real>): seq<real> {
    if s == [] || x <= s[0] then [x] + s else [s[0]] + Insert(x, s[1..])
  }

  /** `sorted(values)`. */
  function Sort(values: seq<real>): seq<real> {
    if values == [] then [] else Insert(values[0], Sort(values[1..]))
  }

  predicate Ascending(s: seq<real>) {
    forall i, j :: 0 <= i < j < |s| ==> s[i] <= s[j]
  }

  lemma {:induction false} InsertAdds(x: real, s: seq<real>)
    ensures multiset(Insert(x, s)) == multiset{x} + multiset(s)
  {
    if s != [] && x > s[0] {
      assert s == [s[0]] + s[1..];
      InsertAdds(x, s[1..]);
    }
  }

  lemma {:induction false} InsertSorts(x: real, s: seq<real>)
    requires Ascending(s)
    ensures Ascending(Insert(x, s))
  {
    if s != [] && x > s[0] {
      InsertSorts(x, s[1..]);
      var r := Insert(x, s[1..]);
      InsertAdds(x, s[1..]);
      forall i | 0 <= i < |r| ensures s[0] <= r[i] {
        assert r[i] in multiset(r);
      }
      AscendingCons(s[0], r);
    }
  }

  lemma AscendingCons(a: real, r: seq<real>)
    requires Ascending(r) && forall i :: 0 <= i < |r| ==> a <= r[i]
    ensures Ascending([a] + r)
  {
  }

  lemma {:induction false} SortSorts(values: seq<real>)
    ensures Ascending(Sort(values)) && multiset(Sort(values)) == multiset(values)
  {
    if values != [] {
      SortSorts(values[1..]);
      InsertSorts(values[0], Sort(values[1..]));
      InsertAdds(values[0], Sort(values[1..]));
      assert values == [values[0]] + values[1..];
    }
  }

  lemma SortLength(values: seq<real>)
    ensures |Sort(values)| == |values|
  {
    SortSorts(values);
    assert |multiset(Sort(values))| == |multiset(values)|;
  }

  lemma RoundMonotone(x: real, y: real)
    requires x <= y
    ensures RoundHalfEven(x) <= RoundHalfEven(y)
  {
    if x.Floor == y.Floor {
    } else {
      assert x.Floor < y.Floor;
    }
  }

  lemma Round3Monotone(x: real, y: real)
    requires x <= y
    ensures Round3(x) <= Round3(y)
  {
    RoundMonotone(x * 1000.0, y * 1000.0);
  }

  lemma RoundOfInt(k: int)
    ensures RoundHalfEven(k as real) == k
  {
  }

  lemma Round3Idempotent(x: real)
    ensures Round3(Round3(x)) == Round3(x)
  {
    var k := RoundHalfEven(x * 1000.0);
    assert Round3(x) * 1000.0 == k as real;
    RoundOfInt(k);
  }

  lemma {:induction false} InsertRounded(x: real, s: seq<real>)
    requires Ascending(s)
    ensures Insert(Round3(x), RoundAll(s)) == RoundAll(Insert(x, s))
  {
    if s == [] {
    } else if x <= s[0] {
      Round3Monotone(x, s[0]);
    } else {
      Round3Monotone(s[0], x);
      InsertRounded(x, s[1..]);
      assert RoundAll(s)[1..] == RoundAll(s[1..]);
      if Round3(x) == Round3(s[0]) { InsertAtFront(Round3(x), s); }
    }
  }

  lemma InsertAtFront(x: real, s: seq<real>)
    requires Ascending(s) && s != [] && x == Round3(s[0])
    ensures Insert(x, RoundAll(s)) == [x] + Insert(x, RoundAll(s[1..]))
  {
    var r := RoundAll(s);
    assert r == [x] + RoundAll(s[1..]);
    if |s| > 1 { Round3Monotone(s[0], s[1]); }
  }

  /** Rounding is monotone, so it commutes with sorting. */
  lemma {:induction false} SortRounded(values: seq<real>)
    ensures Sort(RoundAll(values)) == RoundAll(Sort(values))
  {
    if values != [] {
      SortRounded(values[1..]);
      SortSorts(values[1..]);
      assert RoundAll(values)[1..] == RoundAll(values[1..]);
      InsertRounded(values[0], Sort(values[1..]));
    }
  }

  /** The index of the 95th percentile in a list of `n` sorted values: one below ceil(0.95 n). */
  function P95Index(n: nat): (i: nat)
    requires n > 0
    ensures i < n
  {
    (95 * n + 99) / 100 - 1
  }

  function P95(values: seq<real>): real {
    if values == [] then 0.0 else SortLength(values); Sort(values)[P95Index(|values|)]
  }

  /** `statistics.median`, or 0 for no values. */
  function Median(values: seq<real>): real {
    var n := |values|;
    if n == 0 then 0.0
    else
      SortLength(values);
      var ordered := Sort(values);
      if n % 2 == 1 then ordered[n / 2] else (ordered[n / 2 - 1] + ordered[n / 2]) / 2.0
  }

  /** The 95th percentile of rounded latencies is the rounded 95th percentile. */
  lemma P95SurvivesRounding(values: seq<real>)
    ensures Round3(P95(RoundAll(values))) == Round3(P95(values))
  {
    RoundOfInt(0);
    if values != [] {
      SortLength(values);
      SortRounded(values);
      Round3Idempotent(Sort(values)[P95Index(|values|)]);
    }
  }

  lemma RoundsClose(x: real, y: real)
    requires -0.5 <= x - y <= 0.5
    ensures -1 <= RoundHalfEven(x) - RoundHalfEven(y) <= 1
  {
  }

  /** The rounded median of rounded latencies is within 0.001 of the rounded true median, and equal for odd counts. */
  lemma MedianSurvivesRounding(values: seq<real>)
    ensures -0.001 <= Round3(Median(RoundAll(values))) - Round3(Median(values)) <= 0.001
    ensures |values| % 2 == 1 ==> Round3(Median(RoundAll(values))) == Round3(Median(values))
  {
    var n := |values|;
    if n > 0 {
      SortLength(values);
      SortLength(RoundAll(values));
      SortRounded(values);
      var ordered := Sort(values);
      if n % 2 == 1 {
        Round3Idempotent(ordered[n / 2]);
      } else {
        AverageOfTwo(ordered[n / 2 - 1], ordered[n / 2]);
      }
    }
  }

  lemma AverageOfTwo(a: real, b: real)
    ensures -0.001 <= Round3((Round3(a) + Round3(b)) / 2.0) - Round3((a + b) / 2.0) <= 0.001
  {
    var j, k := RoundHalfEven(a * 1000.0), RoundHalfEven(b * 1000.0);
    assert ((Round3(a) + Round3(b)) / 2.0) * 1000.0 == (j as real + k as real) / 2.0;
    assert ((a + b) / 2.0) * 1000.0 == (a * 1000.0 + b * 1000.0) / 2.0;
    RoundsClose((j as real + k as real) / 2.0, (a * 1000.0 + b * 1000.0) / 2.0);
  }

  /** The bound is met: two honest latencies whose recalculated median is off by a full last unit. */
  lemma MedianBoundIsTight()
    ensures Round3(Median(RoundAll([0.0004, 0.0014]))) == 0.0 && Round3(Median([0.0004, 0.0014])) == 0.001
  {
    assert [0.0004, 0.0014][1..] == [0.0014] && [0.0014][1..] == [];
    assert Sort([0.0014]) == [0.0014];
    assert Sort([0.0004, 0.0014]) == [0.0004, 0.0014];
    assert RoundAll([0.0004, 0.0014]) == [0.0, 0.001];
    SortRounded([0.0004, 0.0014]);
    assert RoundHalfEven(0.9) == 1 && RoundHalfEven(0.5) == 0;
  }

  lemma {:induction false} InsertKeepsSigns(x: real, s: seq<real>)
    requires 0.0 <= x && forall i :: 0 <= i < |s| ==> 0.0 <= s[i]
    ensures forall i :: 0 <= i < |Insert(x, s)| ==> 0.0 <= Insert(x, s)[i]
  {
    if s != [] && x > s[0] { InsertKeepsSigns(x, s[1..]); }
  }

  lemma {:induction false} SortKeepsSigns(values: seq<real>)
    requires forall i :: 0 <= i < |values| ==> 0.0 <= values[i]
    ensures forall i :: 0 <= i < |Sort(values)| ==> 0.0 <= Sort(values)[i]
  {
    if values != [] {
      SortKeepsSigns(values[1..]);
      InsertKeepsSigns(values[0], Sort(values[1..]));
    }
  }

  /** Statistics of non-negative latencies are non-negative. */
  lemma StatisticsNonNegative(values: seq<real>)
    requires forall i :: 0 <= i < |values| ==> 0.0 <= values[i]
    ensures 0.0 <= Round3(Median(values)) && 0.0 <= Round3(P95(values))
  {
    SortKeepsSigns(values);
    SortLength(values);
    RoundOfInt(0);
    Round3Monotone(0.0, Median(values));
    Round3Monotone(0.0, P95(values));
  }

  // ------------------------------------------------------- what the statistics mean

  function Below(v: real): real -> bool { (x: real) => x < v }
  function UpTo(v: real): real -> bool { (x: real) => x <= v }

  /** `v` is the `k`-th smallest of the values. */
  ghost predicate IsKth(values: seq<real>, v: real, k: nat) {
    v in values && Number(values, Below(v)) < k <= Number(values, UpTo(v))
  }

  lemma AtMostBelow(s: seq<real>, i: nat)
    requires Ascending(s) && i < |s|
    ensures Number(s, Below(s[i])) <= i
  {
    var first, rest := s[..i], s[i..];
    TakeDrop(s, i);
    NumberAppend(first, rest, Below(s[i]));
    NumberGrows(first, Below(s[i]), Below(s[i]));
    forall k | 0 <= k < |rest| ensures s[i] <= rest[k] {
      assert rest[k] == s[i + k];
    }
    NumberGrows(rest, Below(s[i]), Below(s[i]));
  }

  lemma AtLeastUpTo(s: seq<real>, i: nat)
    requires Ascending(s) && i < |s|
    ensures i + 1 <= Number(s, UpTo(s[i]))
  {
    var first, rest := s[..i + 1], s[i + 1..];
    TakeDrop(s, i + 1);
    NumberAppend(first, rest, UpTo(s[i]));
    forall k | 0 <= k < |first| ensures first[k] <= s[i] {
      assert first[k] == s[k];
    }
    NumberGrows(first, UpTo(s[i]), UpTo(s[i]));
  }

  lemma SortedIsKth(s: seq<real>, i: nat)
    requires Ascending(s) && i < |s|
    ensures IsKth(s, s[i], i + 1)
  {
    AtMostBelow(s, i);
    AtLeastUpTo(s, i);
  }

  lemma KthOfSorted(values: seq<real>, i: nat)
    requires i < |values| == |Sort(values)|
    ensures IsKth(values, Sort(values)[i], i + 1)
  {
    var s := Sort(values);
    SortSorts(values);
    SortedIsKth(s, i);
    NumberByMultiset(values, s, Below(s[i]));
    NumberByMultiset(values, s, UpTo(s[i]));
    assert s[i] in multiset(values);
  }

  /** There is only one `k`-th smallest value. */
  lemma KthIsUnique(values: seq<real>, v: real, w: real, k: nat)
    requires IsKth(values, v, k) && IsKth(values, w, k)
    ensures v == w
  {
    if v < w { NumberGrows(values, UpTo(v), Below(w)); }
    if w < v { NumberGrows(values, UpTo(w), Below(v)); }
  }

  /** The 95th percentile is the least value that at least 95 in 100 values do not exceed. */
  lemma P95IsLeast(values: seq<real>)
    requires values != []
    ensures P95(values) in values && 100 * Number(values, UpTo(P95(values))) >= 95 * |values|
    ensures forall v :: v < P95(values) ==> 100 * Number(values, UpTo(v)) < 95 * |values|
  {
    SortLength(values);
    KthOfSorted(values, P95Index(|values|));
    forall v | v < P95(values) ensures 100 * Number(values, UpTo(v)) < 95 * |values| {
      NumberGrows(values, UpTo(v), Below(P95(values)));
    }
  }

  /** The median is the middle value, or halfway between the two middle values. */
  lemma MedianIsMiddle(values: seq<real>) returns (lower: real, upper: real)
    requires values != []
    ensures IsKth(values, lower, (|values| + 1) / 2) && IsKth(values, upper, |values| / 2 + 1)
    ensures Median(values) == (lower + upper) / 2.0
  {
    var n := |values|;
    SortLength(values);
    var s := Sort(values);
    lower, upper := s[(n + 1) / 2 - 1], s[n / 2];
    KthOfSorted(values, (n + 1) / 2 - 1);
    KthOfSorted(values, n / 2);
  }
}
