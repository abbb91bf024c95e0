/** Where each ranking method places a chunk, by the raw scores of the candidates alone. */
module RankingPlacement {
  import opened Common
  import opened Ranking

  // ------------------------------------------------------------------ order of ids

  /** `a < b` for strings: at the first difference `a` has the smaller character or has ended. */
  ghost predicate SmallerAt(a: string, b: string, i: nat) {
    && i <= |a| && i < |b| && a[..i] == b[..i] && (i == |a| || a[i] < b[i])
  }

  lemma HeadOfSmaller(a: string, b: string, i: nat)
    requires SmallerAt(a, b, i)
    ensures a == "" || a[0] <= b[0]
  {
    if i > 0 { assert a[0] == a[..i][0] == b[..i][0] == b[0]; }
  }

  lemma {:induction false} LessExactlyWhen(a: string, b: string)
    ensures Less(a, b) <==> exists i: nat :: SmallerAt(a, b, i)
  {
    if b == "" {
    } else if a == "" || a[0] < b[0] {
      assert SmallerAt(a, b, 0);
    } else if a[0] == b[0] {
      LessExactlyWhen(a[1..], b[1..]);
      if i: nat :| SmallerAt(a[1..], b[1..], i) {
        assert a[..i + 1] == [a[0]] + a[1..][..i] && b[..i + 1] == [b[0]] + b[1..][..i];
        assert SmallerAt(a, b, i + 1);
      }
      if i: nat :| SmallerAt(a, b, i) {
        assert i > 0;
        assert a[1..][..i - 1] == a[..i][1..] && b[1..][..i - 1] == b[..i][1..];
        assert SmallerAt(a[1..], b[1..], i - 1);
      }
    } else {
      forall i: nat ensures !SmallerAt(a, b, i) {
        if SmallerAt(a, b, i) { HeadOfSmaller(a, b, i); }
      }
    }
  }

  // ------------------------------------------------------------- ranks are counts

  /** `y` is better than `x` by lexical score, ties by the smaller id. */
  predicate BetterLexically(y: Ranked, x: Ranked) {
    y.lexical > x.lexical || (y.lexical == x.lexical && Less(y.id, x.id))
  }

  /** `y` is better than `x` by dense score, ties by the smaller id; only compatible chunks compete. */
  predicate BetterDensely(y: Ranked, x: Ranked) {
    y.compatible && (y.dense > x.dense || (y.dense == x.dense && Less(y.id, x.id)))
  }

  lemma {:induction false} DistinctSize(s: seq<Ranked>)
    requires DistinctIds(s)
    ensures |set y | y in s| == |s|
  {
    if s != [] {
      var n := |s| - 1;
      DistinctSize(s[..n]);
      assert s == s[..n] + [s[n]];
      assert (set y | y in s) == (set y | y in s[..n]) + {s[n]};
      assert s[n] !in s[..n];
    } else {
      assert (set y | y in s) == {};
    }
  }

  /** In an ordered list exactly the items before `x` are ahead of it. */
  lemma RankIsCount(s: seq<Ranked>, x: Ranked, key: Key, ahead: set<Ranked>)
    requires Ordered(s, key) && DistinctIds(s) && x in s
    requires forall y :: y in ahead <==> y in s && Ahead(y, x, key)
    ensures Rank(s, x.id) == |ahead| + 1
  {
    var k := IndexOf(s, x);
    RankIs(s, k);
    DistinctSize(s[..k]);
    assert ahead == set y | y in s[..k] by {
      forall y ensures y in ahead <==> y in s[..k] {
        if y in s[..k] {
          var i :| 0 <= i < k && s[i] == y;
        }
        if y in ahead {
          var i := IndexOf(s, y);
          AheadIsTotal(x, y, key);
          assert i < k && s[..k][i] == y;
        }
      }
    }
  }

  function LexicallyBetter(items: seq<Ranked>, x: Ranked): set<Ranked> {
    set y | y in items && BetterLexically(y, x)
  }

  function DenselyBetter(items: seq<Ranked>, x: Ranked): set<Ranked> {
    set y | y in items && BetterDensely(y, x)
  }

  /** The lexical rank counts the candidates with a higher lexical score, or the same score and a smaller id. */
  lemma LexicalRankCounts(items: seq<Ranked>, x: Ranked)
    requires DistinctIds(items) && x in items
    ensures LexicalRank(items, x) == |LexicallyBetter(items, x)| + 1
  {
    SortedIsRanked(items, ByLexical());
    RankIsCount(Sort(items, ByLexical()), x, ByLexical(), LexicallyBetter(items, x));
  }

  /** The dense rank counts the compatible candidates alike; an incompatible chunk has none. */
  lemma DenseRankCounts(items: seq<Ranked>, x: Ranked)
    requires DistinctIds(items) && x in items
    ensures DenseRank(items, x) == if x.compatible then |DenselyBetter(items, x)| + 1 else 0
  {
    RanksOf(items, x);
    CompatibleDistinct(items);
    CompatibleAreExactly(items);
    SortedIsRanked(Compatible(items), ByDense());
    if x.compatible {
      RankIsCount(Sort(Compatible(items), ByDense()), x, ByDense(), DenselyBetter(items, x));
    }
  }

  lemma {:induction false} CompatibleAreExactly(items: seq<Ranked>)
    ensures forall y :: y in Compatible(items) <==> y in items && y.compatible
  {
    if items != [] { CompatibleAreExactly(items[1..]); }
  }

  // ------------------------------------------------------------ lexical and dense

  function RankBy(items: seq<Ranked>, m: Method, x: Ranked): nat {
    Rank(RankAll(items, m), x.id)
  }

  lemma ScoredRank(items: seq<Ranked>, score: Ranked -> real, a: Ranked, b: Ranked)
    requires DistinctIds(items) && a in items && b in items
    ensures var s := Sort(Scored(items, score), ByScore());
            && 1 <= Rank(s, a.id) <= |items|
            && (Rank(s, a.id) < Rank(s, b.id) <==> score(a) > score(b) || (score(a) == score(b) && Less(a.id, b.id)))
  {
    var scored := Scored(items, score);
    SortedIsRanked(scored, ByScore());
    var i, j := IndexOf(items, a), IndexOf(items, b);
    AheadExactlyWhenRankedFirst(Sort(scored, ByScore()), scored[i], scored[j], ByScore());
  }

  /** The lexical method places chunks by falling lexical score, then by id. */
  lemma LexicalPlacement(items: seq<Ranked>, a: Ranked, b: Ranked)
    requires DistinctIds(items) && a in items && b in items
    ensures 1 <= RankBy(items, Lexical, a) <= |items|
    ensures RankBy(items, Lexical, a) < RankBy(items, Lexical, b) <==> BetterLexically(a, b)
  {
    ScoredRank(items, (item: Ranked) => item.lexical, a, b);
  }

  /** The dense method places the compatible chunks by falling dense score, then by id, and no others. */
  lemma DensePlacement(items: seq<Ranked>, a: Ranked, b: Ranked)
    requires DistinctIds(items) && a in items && b in items && b.compatible
    ensures RankBy(items, Dense, a) > 0 <==> a.compatible
    ensures a.compatible ==> (RankBy(items, Dense, a) < RankBy(items, Dense, b) <==> BetterDensely(a, b))
  {
    CompatibleDistinct(items);
    CompatibleAreExactly(items);
    var score := (item: Ranked) => item.dense;
    if a.compatible {
      ScoredRank(Compatible(items), score, a, b);
    } else {
      NotPlaced(items, a, score);
    }
  }

  lemma NotPlaced(items: seq<Ranked>, a: Ranked, score: Ranked -> real)
    requires DistinctIds(items) && a in items && !a.compatible
    ensures Rank(Sort(Scored(Compatible(items), score), ByScore()), a.id) == 0
  {
    var c := Compatible(items);
    var s := Sort(Scored(c, score), ByScore());
    CompatibleAreExactly(items);
    SortAdds(Scored(c, score), ByScore());
    if Rank(s, a.id) > 0 {
      var y := s[Rank(s, a.id) - 1];
      assert y in multiset(s) && y in Scored(c, score);
      var k :| 0 <= k < |c| && Scored(c, score)[k] == y;
      assert c[k] in c;
      SameIdSameItem(items, a, c[k]);
    }
  }

  // --------------------------------------------------------------------- hybrid

  /** Reciprocal-rank fusion with constant 60, averaged over the rankings a chunk takes part in, and the boost of 0.01. */
  function FusionOf(items: seq<Ranked>, x: Ranked): real {
    var lexical, dense := |LexicallyBetter(items, x)| + 1, |DenselyBetter(items, x)| + 1;
    0.01 * x.entity
    + if x.compatible then (1.0 / (60 + lexical) as real + 1.0 / (60 + dense) as real) / 2.0 else 1.0 / (60 + lexical) as real
  }

  lemma FusionIsFused(items: seq<Ranked>, x: Ranked)
    requires DistinctIds(items) && x in items
    ensures FusionOf(items, x) == FusedOf(items, x)
  {
    LexicalRankCounts(items, x);
    DenseRankCounts(items, x);
  }

  /** The hybrid method places chunks by fusion of the two counts, then by lexical score, then by id. */
  lemma HybridPlacement(items: seq<Ranked>, a: Ranked, b: Ranked)
    requires DistinctIds(items) && a in items && b in items
    ensures RankBy(items, Hybrid, a) < RankBy(items, Hybrid, b) <==>
            || FusionOf(items, a) > FusionOf(items, b)
            || (FusionOf(items, a) == FusionOf(items, b) && BetterLexically(a, b))
  {
    FusionIsFused(items, a);
    FusionIsFused(items, b);
    HybridOrder(items, a, b);
  }

  lemma LexicallyBetterIsFewer(items: seq<Ranked>, a: Ranked, b: Ranked)
    requires DistinctIds(items) && a in items && b in items && BetterLexically(a, b)
    ensures LexicalRank(items, a) < LexicalRank(items, b)
  {
    SortedIsRanked(items, ByLexical());
    AheadExactlyWhenRankedFirst(Sort(items, ByLexical()), a, b, ByLexical());
  }

  lemma DenselyBetterIsFewer(items: seq<Ranked>, a: Ranked, b: Ranked)
    requires DistinctIds(items) && a in items && b in items && a.compatible && b.compatible && BetterDensely(a, b)
    ensures DenseRank(items, a) < DenseRank(items, b)
  {
    CompatibleDistinct(items);
    CompatibleAreExactly(items);
    SortedIsRanked(Compatible(items), ByDense());
    AheadExactlyWhenRankedFirst(Sort(Compatible(items), ByDense()), a, b, ByDense());
  }

  /** A compatible chunk better by both raw scores, with no smaller entity score, is placed first. */
  lemma BetterInBothIsFirst(items: seq<Ranked>, a: Ranked, b: Ranked)
    requires DistinctIds(items) && a in items && b in items && a.compatible && b.compatible
    requires BetterLexically(a, b) && BetterDensely(a, b) && a.entity >= b.entity
    ensures RankBy(items, Hybrid, a) < RankBy(items, Hybrid, b)
  {
    LexicallyBetterIsFewer(items, a, b);
    DenselyBetterIsFewer(items, a, b);
    AheadInBothStaysAhead(items, a, b);
  }

  lemma CrossedFusion(items: seq<Ranked>, a: Ranked, b: Ranked, i: nat, j: nat)
    requires a.compatible && b.compatible && a.entity == b.entity
    requires |LexicallyBetter(items, a)| == i == |DenselyBetter(items, b)| && |DenselyBetter(items, a)| == j == |LexicallyBetter(items, b)|
    ensures FusionOf(items, a) == FusionOf(items, b)
  {
    var x, y, boost := 1.0 / (60 + (i + 1)) as real, 1.0 / (60 + (j + 1)) as real, 0.01 * a.entity;
    assert FusionOf(items, a) == boost + (x + y) / 2.0;
    assert FusionOf(items, b) == boost + (y + x) / 2.0;
  }

  /** Both rankings weigh the same: with crossed counts and one entity score the lexical score decides. */
  lemma CrossedCountsTie(items: seq<Ranked>, a: Ranked, b: Ranked)
    requires DistinctIds(items) && a in items && b in items && a.compatible && b.compatible && a.entity == b.entity
    requires |LexicallyBetter(items, a)| == |DenselyBetter(items, b)| && |DenselyBetter(items, a)| == |LexicallyBetter(items, b)|
    ensures RankBy(items, Hybrid, a) < RankBy(items, Hybrid, b) <==> BetterLexically(a, b)
  {
    CrossedFusion(items, a, b, |LexicallyBetter(items, a)|, |DenselyBetter(items, a)|);
    HybridPlacement(items, a, b);
  }

  // ------------------------------------------------------------- what is returned

  /** The score a method gives a chunk. */
  function ScoreBy(items: seq<Ranked>, m: Method, x: Ranked): real {
    match m
    case Lexical => x.lexical
    case Dense => x.dense
    case Hybrid => FusionOf(items, x)
  }

  predicate TakesPart(m: Method, x: Ranked) {
    m != Dense || x.compatible
  }

  lemma ScoredIsReturned(items: seq<Ranked>, score: Ranked -> real, key: Key, y: Ranked)
    ensures |Sort(Scored(items, score), key)| == |items|
    ensures y in Sort(Scored(items, score), key) <==> exists x :: x in items && y == x.(score := score(x))
  {
    var scored := Scored(items, score);
    SortAdds(scored, key);
    assert |multiset(scored)| == |multiset(Sort(scored, key))|;
    assert y in Sort(scored, key) <==> y in multiset(scored);
    if x :| x in items && y == x.(score := score(x)) {
      var i := IndexOf(items, x);
      assert scored[i] == y;
    }
    if y in scored {
      var i :| 0 <= i < |scored| && scored[i] == y;
      assert items[i] in items;
    }
  }

  /** A method returns exactly the candidates that take part, each with the score the method gives it. */
  lemma RankingReturns(items: seq<Ranked>, m: Method, y: Ranked)
    requires DistinctIds(items)
    ensures y in RankAll(items, m) <==> exists x :: x in items && TakesPart(m, x) && y == x.(score := ScoreBy(items, m, x))
  {
    CompatibleAreExactly(items);
    match m
    case Lexical => ScoredIsReturned(items, (item: Ranked) => item.lexical, ByScore(), y);
    case Dense => ScoredIsReturned(Compatible(items), (item: Ranked) => item.dense, ByScore(), y);
    case Hybrid => HybridReturns(items, y);
  }

  lemma HybridReturns(items: seq<Ranked>, y: Ranked)
    requires DistinctIds(items)
    ensures y in RankAll(items, Hybrid) <==> exists x :: x in items && y == x.(score := FusionOf(items, x))
  {
    var score := FusedScore(Sort(items, ByLexical()), Sort(Compatible(items), ByDense()));
    ScoredIsReturned(items, score, ByFused(), y);
    forall x | x in items ensures score(x) == FusionOf(items, x) {
      FusionIsFused(items, x);
    }
  }

  /** A limit below one is refused; otherwise the first `limit` chunks of the ranking are returned. */
  lemma LimitCuts(items: seq<Ranked>, m: Method, limit: int)
    ensures RankChunks(items, m, limit).Ok? <==> limit >= 1
    ensures limit >= 1 ==> forall i :: 0 <= i < |RankChunks(items, m, limit).value| ==>
                             i < |RankAll(items, m)| && RankChunks(items, m, limit).value[i] == RankAll(items, m)[i]
    ensures limit >= 1 ==> (|RankChunks(items, m, limit).value| == limit || |RankChunks(items, m, limit).value| == |RankAll(items, m)| <= limit)
  {
  }
}
