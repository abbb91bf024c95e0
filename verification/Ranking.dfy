/** Ranking of scored chunks: lexical order, dense order and their reciprocal-rank fusion. */
module Ranking {
  import opened Common

  /** A chunk with its scores; `compatible` if its embedding comes from the model of the query. */
  datatype Ranked = Ranked(id: string, compatible: bool, lexical: real, dense: real, entity: real, score: real)

  /** A sort key: two scores, both descending, with ids ascending to break ties. */
  type Key = Ranked -> (real, real)

  predicate Less(a: string, b: string) {
    b != "" && (a == "" || a[0] < b[0] || (a[0] == b[0] && Less(a[1..], b[1..])))
  }

  predicate Ahead(a: Ranked, b: Ranked, key: Key) {
    || key(a).0 > key(b).0
    || (key(a).0 == key(b).0 && (key(a).1 > key(b).1 || (key(a).1 == key(b).1 && Less(a.id, b.id))))
  }

  lemma {:induction false} LessIsTotal(a: string, b: string)
    ensures a != b ==> Less(a, b) || Less(b, a)
    ensures !(Less(a, b) && Less(b, a)) && !Less(a, a)
  {
    if a != "" && b != "" {
      LessIsTotal(a[1..], b[1..]);
      LessIsTotal(a[1..], a[1..]);
      assert a == [a[0]] + a[1..] && b == [b[0]] + b[1..];
    } else if a != "" {
      LessIsTotal(a[1..], a[1..]);
    }
  }

  lemma {:induction false} LessIsTransitive(a: string, b: string, c: string)
    requires Less(a, b) && Less(b, c)
    ensures Less(a, c)
  {
    if a != "" && a[0] == b[0] && b[0] == c[0] { LessIsTransitive(a[1..], b[1..], c[1..]); }
  }

  lemma AheadIsTotal(a: Ranked, b: Ranked, key: Key)
    ensures a.id != b.id ==> Ahead(a, b, key) || Ahead(b, a, key)
    ensures !(Ahead(a, b, key) && Ahead(b, a, key)) && !Ahead(a, a, key)
  {
    LessIsTotal(a.id, b.id);
    LessIsTotal(a.id, a.id);
  }

  lemma AheadIsTransitive(a: Ranked, b: Ranked, c: Ranked, key: Key)
    requires Ahead(a, b, key) && Ahead(b, c, key)
    ensures Ahead(a, c, key)
  {
    if Less(a.id, b.id) && Less(b.id, c.id) { LessIsTransitive(a.id, b.id, c.id); }
  }

  // -------------------------------------------------------------------- sorting

  function Insert(x: Ranked, s: seq<Ranked>, key: Key): seq<Ranked> {
    if s == [] || Ahead(x, s[0], key) then [x] + s else [s[0]] + Insert(x, s[1..], key)
  }

  function Sort(items: seq<Ranked>, key: Key): seq<Ranked> {
    if items == [] then [] else Insert(items[0], Sort(items[1..], key), key)
  }

  /** Every item is ahead of all later ones. */
  predicate Ordered(s: seq<Ranked>, key: Key) {
    forall i, j :: 0 <= i < j < |s| ==> Ahead(s[i], s[j], key)
  }

  predicate DistinctIds(s: seq<Ranked>) {
    forall i, j :: 0 <= i < j < |s| ==> s[i].id != s[j].id
  }

  predicate NewId(x: Ranked, s: seq<Ranked>) {
    forall i :: 0 <= i < |s| ==> s[i].id != x.id
  }

  lemma {:induction false} InsertAdds(x: Ranked, s: seq<Ranked>, key: Key)
    ensures multiset(Insert(x, s, key)) == multiset{x} + multiset(s)
  {
    if s != [] && !Ahead(x, s[0], key) {
      assert s == [s[0]] + s[1..];
      InsertAdds(x, s[1..], key);
    }
  }

  lemma OrderedCons(x: Ranked, s: seq<Ranked>, key: Key)
    requires Ordered(s, key) && forall i :: 0 <= i < |s| ==> Ahead(x, s[i], key)
    ensures Ordered([x] + s, key)
  {
  }

  lemma {:induction false} InsertOrders(x: Ranked, s: seq<Ranked>, key: Key)
    requires Ordered(s, key) && NewId(x, s)
    ensures Ordered(Insert(x, s, key), key)
  {
    if s == [] {
    } else if Ahead(x, s[0], key) {
      forall i | 0 <= i < |s| ensures Ahead(x, s[i], key) {
        if i > 0 { AheadIsTransitive(x, s[0], s[i], key); }
      }
      OrderedCons(x, s, key);
    } else {
      InsertOrders(x, s[1..], key);
      InsertAdds(x, s[1..], key);
      AheadIsTotal(x, s[0], key);
      var r := Insert(x, s[1..], key);
      forall i | 0 <= i < |r| ensures Ahead(s[0], r[i], key) {
        assert r[i] in multiset(r);
      }
      OrderedCons(s[0], r, key);
    }
  }

  lemma {:induction false} SortAdds(items: seq<Ranked>, key: Key)
    ensures multiset(Sort(items, key)) == multiset(items)
  {
    if items != [] {
      SortAdds(items[1..], key);
      InsertAdds(items[0], Sort(items[1..], key), key);
      assert items == [items[0]] + items[1..];
    }
  }

  lemma {:induction false} SortOrders(items: seq<Ranked>, key: Key)
    requires DistinctIds(items)
    ensures Ordered(Sort(items, key), key)
  {
    if items != [] {
      var rest := Sort(items[1..], key);
      SortOrders(items[1..], key);
      SortAdds(items[1..], key);
      forall i | 0 <= i < |rest| ensures rest[i].id != items[0].id {
        assert rest[i] in multiset(items[1..]);
      }
      InsertOrders(items[0], rest, key);
    }
  }

  lemma HeadOff<T>(s: seq<T>)
    requires s != []
    ensures multiset(s[1..]) == multiset(s) - multiset{s[0]} && s[0] in multiset(s)
  {
    assert s == [s[0]] + s[1..];
  }

  lemma HeadsAgree(s: seq<Ranked>, t: seq<Ranked>, key: Key)
    requires Ordered(s, key) && Ordered(t, key) && multiset(s) == multiset(t) && s != []
    ensures t != [] && s[0] == t[0]
  {
    HeadOff(s);
    assert s[0] in t;
    HeadOff(t);
    assert t[0] in s;
    AheadIsTotal(s[0], t[0], key);
  }

  /** There is only one way to order a collection. */
  lemma {:induction false} OrderIsUnique(s: seq<Ranked>, t: seq<Ranked>, key: Key)
    requires Ordered(s, key) && Ordered(t, key) && multiset(s) == multiset(t)
    ensures s == t
  {
    if s == [] {
      assert |multiset(t)| == 0;
    } else {
      HeadsAgree(s, t, key);
      HeadOff(s);
      HeadOff(t);
      OrderIsUnique(s[1..], t[1..], key);
      assert s == [s[0]] + s[1..] && t == [t[0]] + t[1..];
    }
  }

  lemma SortIgnoresOrder(xs: seq<Ranked>, ys: seq<Ranked>, key: Key)
    requires DistinctIds(xs) && multiset(xs) == multiset(ys)
    ensures DistinctIds(ys) && Sort(xs, key) == Sort(ys, key)
  {
    DistinctByMultiset(xs, ys);
    SortAdds(xs, key);
    SortAdds(ys, key);
    SortOrders(xs, key);
    SortOrders(ys, key);
    OrderIsUnique(Sort(xs, key), Sort(ys, key), key);
  }

  lemma DistinctByMultiset(xs: seq<Ranked>, ys: seq<Ranked>)
    requires DistinctIds(xs) && multiset(xs) == multiset(ys)
    ensures DistinctIds(ys)
  {
    forall i, j | 0 <= i < j < |ys| ensures ys[i].id != ys[j].id {
      assert ys[i] in multiset(ys) && ys[j] in multiset(ys);
      assert ys[i] in xs && ys[j] in xs;
      if ys[i] == ys[j] { TwiceIsTwo(ys, i, j); OnceIsOne(xs, ys[i]); }
    }
  }

  lemma TwiceIsTwo<T>(s: seq<T>, i: nat, j: nat)
    requires i < j < |s| && s[i] == s[j]
    ensures multiset(s)[s[i]] >= 2
  {
    assert s == s[..j] + s[j..];
    assert s[i] in s[..j] && s[j] in s[j..];
  }

  lemma {:induction false} OnceIsOne<T>(s: seq<T>, x: T)
    requires forall i, j :: 0 <= i < j < |s| ==> s[i] != s[j]
    ensures multiset(s)[x] <= 1
  {
    if s != [] {
      OnceIsOne(s[1..], x);
      assert s == [s[0]] + s[1..];
      if x == s[0] { assert x !in s[1..]; }
    }
  }

  // ------------------------------------------------------------------- the methods

  datatype Method = Lexical | Dense | Hybrid

  const RRF_K := 60
  const NAMED_ENTITY_DOCUMENT_BOOST := 0.01

  function ByLexical(): Key { (item: Ranked) => (item.lexical, 0.0) }
  function ByDense(): Key { (item: Ranked) => (item.dense, 0.0) }
  function ByScore(): Key { (item: Ranked) => (item.score, 0.0) }
  function ByFused(): Key { (item: Ranked) => (item.score, item.lexical) }

  function Scored(items: seq<Ranked>, score: Ranked -> real): (r: seq<Ranked>)
    ensures |r| == |items| && forall i :: 0 <= i < |r| ==> r[i] == items[i].(score := score(items[i]))
  {
    seq(|items|, i requires 0 <= i < |items| => items[i].(score := score(items[i])))
  }

  function Compatible(items: seq<Ranked>): seq<Ranked> {
    if items == [] then []
    else if items[0].compatible then [items[0]] + Compatible(items[1..])
    else Compatible(items[1..])
  }

  /** The 1-based position of an id in an order; 0 if it is not there. */
  function Rank(order: seq<Ranked>, id: string): (r: nat)
    ensures r <= |order| && (r > 0 ==> order[r - 1].id == id)
    ensures r == 0 ==> forall i :: 0 <= i < |order| ==> order[i].id != id
  {
    if order == [] then 0
    else if order[0].id == id then 1
    else
      var r := Rank(order[1..], id);
      assert forall i :: 0 < i < |order| ==> order[i] == order[1..][i - 1];
      if r == 0 then 0 else r + 1
  }

  function Inverse(rank: nat): real {
    1.0 / (RRF_K + rank) as real
  }

  /** The fused score of a lexical rank, a dense rank (0 for an incompatible chunk) and an entity score. */
  function Fused(lexicalRank: nat, denseRank: nat, entity: real): real {
    (Inverse(lexicalRank) + (if denseRank > 0 then Inverse(denseRank) else 0.0)) / (if denseRank > 0 then 2.0 else 1.0)
    + NAMED_ENTITY_DOCUMENT_BOOST * entity
  }

  function FusedScore(lexicalOrder: seq<Ranked>, denseOrder: seq<Ranked>): Ranked -> real {
    (item: Ranked) => Fused(Rank(lexicalOrder, item.id), Rank(denseOrder, item.id), item.entity)
  }

  /** The whole ranking, before the limit is applied. */
  function RankAll(items: seq<Ranked>, m: Method): seq<Ranked> {
    match m
    case Lexical => Sort(Scored(items, (item: Ranked) => item.lexical), ByScore())
    case Dense => Sort(Scored(Compatible(items), (item: Ranked) => item.dense), ByScore())
    case Hybrid =>
      var lexicalOrder, denseOrder := Sort(items, ByLexical()), Sort(Compatible(items), ByDense());
      Sort(Scored(items, FusedScore(lexicalOrder, denseOrder)), ByFused())
  }

  function Take(s: seq<Ranked>, limit: nat): seq<Ranked> {
    if |s| <= limit then s else s[..limit]
  }

  function RankChunks(items: seq<Ranked>, m: Method, limit: int): Result<seq<Ranked>, string> {
    if limit < 1 then Err("limit must be positive") else Ok(Take(RankAll(items, m), limit))
  }

  // --------------------------------------------------------- independence of the order

  lemma {:induction false} ScoredAdds(xs: seq<Ranked>, ys: seq<Ranked>, score: Ranked -> real)
    requires multiset(xs) == multiset(ys)
    ensures multiset(Scored(xs, score)) == multiset(Scored(ys, score))
  {
    if xs == [] {
      assert |multiset(ys)| == 0;
    } else {
      HeadOff(xs);
      var k := IndexOf(ys, xs[0]);
      var rest := ys[..k] + ys[k + 1..];
      RemoveOne(ys, k);
      assert multiset(xs[1..]) == multiset(rest);
      ScoredAdds(xs[1..], rest, score);
      ScoredRemove(ys, k, score);
      ScoredHead(xs, score);
    }
  }

  lemma ScoredHead(xs: seq<Ranked>, score: Ranked -> real)
    requires xs != []
    ensures multiset(Scored(xs, score)) == multiset(Scored(xs[1..], score)) + multiset{xs[0].(score := score(xs[0]))}
  {
    var t := Scored(xs, score);
    assert t == [t[0]] + t[1..];
    assert t[1..] == Scored(xs[1..], score);
  }

  function IndexOf(s: seq<Ranked>, x: Ranked): (k: nat)
    requires x in s
    ensures k < |s| && s[k] == x
  {
    if s[0] == x then 0 else 1 + IndexOf(s[1..], x)
  }

  lemma ScoredRemove(s: seq<Ranked>, k: nat, score: Ranked -> real)
    requires k < |s|
    ensures multiset(Scored(s, score)) == multiset(Scored(s[..k] + s[k + 1..], score)) + multiset{s[k].(score := score(s[k]))}
  {
    var t := Scored(s, score);
    RemoveOne(t, k);
    assert t[..k] + t[k + 1..] == Scored(s[..k] + s[k + 1..], score);
  }

  lemma {:induction false} CompatibleCounts(items: seq<Ranked>, x: Ranked)
    ensures multiset(Compatible(items))[x] == if x.compatible then multiset(items)[x] else 0
  {
    if items != [] {
      CompatibleCounts(items[1..], x);
      assert items == [items[0]] + items[1..];
    }
  }

  lemma CompatibleAdds(xs: seq<Ranked>, ys: seq<Ranked>)
    requires multiset(xs) == multiset(ys)
    ensures multiset(Compatible(xs)) == multiset(Compatible(ys))
  {
    forall x ensures multiset(Compatible(xs))[x] == multiset(Compatible(ys))[x] {
      CompatibleCounts(xs, x);
      CompatibleCounts(ys, x);
    }
  }

  lemma {:induction false} CompatibleAreItems(items: seq<Ranked>)
    ensures forall i :: 0 <= i < |Compatible(items)| ==> Compatible(items)[i] in items && Compatible(items)[i].compatible
    ensures forall i :: 0 <= i < |items| && items[i].compatible ==> items[i] in Compatible(items)
    ensures |Compatible(items)| <= |items|
  {
    if items != [] {
      CompatibleAreItems(items[1..]);
      forall i | 0 <= i < |items| && items[i].compatible ensures items[i] in Compatible(items) {
        if i > 0 { assert items[i] == items[1..][i - 1]; }
      }
    }
  }

  lemma {:induction false} CompatibleDistinct(items: seq<Ranked>)
    requires DistinctIds(items)
    ensures DistinctIds(Compatible(items))
  {
    if items != [] {
      CompatibleDistinct(items[1..]);
      CompatibleAreItems(items[1..]);
      forall i | 0 <= i < |Compatible(items[1..])| ensures Compatible(items[1..])[i].id != items[0].id {
        var k := IndexOf(items[1..], Compatible(items[1..])[i]);
        assert items[1..][k] == items[k + 1];
      }
    }
  }

  /** With distinct ids the ranking does not depend on the order in which the candidates are given. */
  lemma RankingIgnoresOrder(xs: seq<Ranked>, ys: seq<Ranked>, m: Method, limit: int)
    requires DistinctIds(xs) && multiset(xs) == multiset(ys)
    ensures RankChunks(xs, m, limit) == RankChunks(ys, m, limit)
  {
    CompatibleAdds(xs, ys);
    CompatibleDistinct(xs);
    match m
    case Lexical => ScoredSortsAlike(xs, ys, (item: Ranked) => item.lexical, ByScore());
    case Dense => ScoredSortsAlike(Compatible(xs), Compatible(ys), (item: Ranked) => item.dense, ByScore());
    case Hybrid =>
      SortIgnoresOrder(xs, ys, ByLexical());
      SortIgnoresOrder(Compatible(xs), Compatible(ys), ByDense());
      ScoredSortsAlike(xs, ys, FusedScore(Sort(xs, ByLexical()), Sort(Compatible(xs), ByDense())), ByFused());
  }

  lemma ScoredSortsAlike(xs: seq<Ranked>, ys: seq<Ranked>, score: Ranked -> real, key: Key)
    requires DistinctIds(xs) && multiset(xs) == multiset(ys)
    ensures Sort(Scored(xs, score), key) == Sort(Scored(ys, score), key)
  {
    ScoredAdds(xs, ys, score);
    SortIgnoresOrder(Scored(xs, score), Scored(ys, score), key);
  }

  /** A larger limit only appends. */
  lemma LargerLimitAppends(items: seq<Ranked>, m: Method, limit: int)
    requires limit >= 1
    ensures RankChunks(items, m, limit).value <= RankChunks(items, m, limit + 1).value
    ensures |RankChunks(items, m, limit).value| == if |RankAll(items, m)| <= limit then |RankAll(items, m)| else limit
  {
  }

  // ------------------------------------------------------------ positions in the ranking

  lemma {:induction false} RankIs(s: seq<Ranked>, k: nat)
    requires DistinctIds(s) && k < |s|
    ensures Rank(s, s[k].id) == k + 1
  {
    if k > 0 { RankIs(s[1..], k - 1); }
  }

  /** In an ordered list, being ahead is having the smaller rank. */
  lemma AheadExactlyWhenRankedFirst(s: seq<Ranked>, a: Ranked, b: Ranked, key: Key)
    requires Ordered(s, key) && DistinctIds(s) && a in s && b in s
    ensures 1 <= Rank(s, a.id) <= |s| && 1 <= Rank(s, b.id) <= |s|
    ensures Ahead(a, b, key) <==> Rank(s, a.id) < Rank(s, b.id)
  {
    var i, j := IndexOf(s, a), IndexOf(s, b);
    RankIs(s, i);
    RankIs(s, j);
    AheadIsTotal(a, b, key);
  }

  lemma SortedIsRanked(items: seq<Ranked>, key: Key)
    requires DistinctIds(items)
    ensures Ordered(Sort(items, key), key) && DistinctIds(Sort(items, key)) && |Sort(items, key)| == |items|
    ensures forall x :: x in items <==> x in Sort(items, key)
  {
    SortOrders(items, key);
    SortAdds(items, key);
    DistinctByMultiset(items, Sort(items, key));
    assert |multiset(items)| == |multiset(Sort(items, key))|;
    forall x ensures x in items <==> x in Sort(items, key) {
      assert x in items <==> x in multiset(items);
    }
  }

  function LexicalRank(items: seq<Ranked>, x: Ranked): nat {
    Rank(Sort(items, ByLexical()), x.id)
  }

  function DenseRank(items: seq<Ranked>, x: Ranked): nat {
    Rank(Sort(Compatible(items), ByDense()), x.id)
  }

  function HybridRank(items: seq<Ranked>, x: Ranked): nat {
    Rank(RankAll(items, Hybrid), x.id)
  }

  lemma RanksOf(items: seq<Ranked>, x: Ranked)
    requires DistinctIds(items) && x in items
    ensures 1 <= LexicalRank(items, x) <= |items|
    ensures x.compatible ==> 1 <= DenseRank(items, x) <= |items|
    ensures !x.compatible ==> DenseRank(items, x) == 0
  {
    SortedIsRanked(items, ByLexical());
    AheadExactlyWhenRankedFirst(Sort(items, ByLexical()), x, x, ByLexical());
    CompatibleDistinct(items);
    CompatibleAreItems(items);
    var dense := Sort(Compatible(items), ByDense());
    SortedIsRanked(Compatible(items), ByDense());
    if x.compatible {
      AheadExactlyWhenRankedFirst(dense, x, x, ByDense());
    } else if DenseRank(items, x) > 0 {
      var y := dense[DenseRank(items, x) - 1];
      assert y in Compatible(items) && y.id == x.id;
      SameIdSameItem(items, x, y);
    }
  }

  lemma SameIdSameItem(items: seq<Ranked>, x: Ranked, y: Ranked)
    requires DistinctIds(items) && x in items && y in items && x.id == y.id
    ensures x == y
  {
    var i, j := IndexOf(items, x), IndexOf(items, y);
  }

  function FusedOf(items: seq<Ranked>, x: Ranked): real {
    Fused(LexicalRank(items, x), DenseRank(items, x), x.entity)
  }

  /** A candidate is placed first exactly when its fused score, then its lexical score, then its id says so. */
  lemma HybridOrder(items: seq<Ranked>, a: Ranked, b: Ranked)
    requires DistinctIds(items) && a in items && b in items
    ensures 1 <= HybridRank(items, a) <= |items|
    ensures HybridRank(items, a) < HybridRank(items, b) <==>
            Ahead(a.(score := FusedOf(items, a)), b.(score := FusedOf(items, b)), ByFused())
  {
    var score := FusedScore(Sort(items, ByLexical()), Sort(Compatible(items), ByDense()));
    var scored := Scored(items, score);
    SortedIsRanked(scored, ByFused());
    var i, j := IndexOf(items, a), IndexOf(items, b);
    assert scored[i] == a.(score := FusedOf(items, a)) && scored[j] == b.(score := FusedOf(items, b));
    AheadExactlyWhenRankedFirst(Sort(scored, ByFused()), scored[i], scored[j], ByFused());
  }

  lemma InverseFalls(i: nat, j: nat)
    ensures i < j ==> Inverse(i) > Inverse(j)
    ensures i <= j ==> Inverse(i) >= Inverse(j)
    ensures Inverse(i) > 0.0
  {
  }

  /** A compatible chunk ahead in both orders, with no smaller entity score, stays ahead in the fusion. */
  lemma AheadInBothStaysAhead(items: seq<Ranked>, a: Ranked, b: Ranked)
    requires DistinctIds(items) && a in items && b in items && a.compatible && b.compatible
    requires LexicalRank(items, a) < LexicalRank(items, b) && DenseRank(items, a) < DenseRank(items, b)
    requires a.entity >= b.entity
    ensures HybridRank(items, a) < HybridRank(items, b)
  {
    RanksOf(items, a);
    RanksOf(items, b);
    InverseFalls(LexicalRank(items, a), LexicalRank(items, b));
    InverseFalls(DenseRank(items, a), DenseRank(items, b));
    HybridOrder(items, a, b);
  }

  /** The largest candidate list on which the entity boost decides before anything else. */
  const ENTITY_FIRST_LIMIT := 96

  lemma FusedBounds(lexicalRank: nat, denseRank: nat, n: nat, entity: real)
    requires 1 <= lexicalRank <= n && denseRank <= n
    ensures Inverse(n) + NAMED_ENTITY_DOCUMENT_BOOST * entity <= Fused(lexicalRank, denseRank, entity)
    ensures Fused(lexicalRank, denseRank, entity) <= Inverse(1) + NAMED_ENTITY_DOCUMENT_BOOST * entity
  {
    InverseFalls(lexicalRank, n);
    InverseFalls(1, lexicalRank);
    if denseRank > 0 {
      InverseFalls(denseRank, n);
      InverseFalls(1, denseRank);
    }
  }

  lemma BoostCoversAllRanks(n: nat)
    ensures n <= ENTITY_FIRST_LIMIT ==> Inverse(n) + NAMED_ENTITY_DOCUMENT_BOOST > Inverse(1)
    ensures n > ENTITY_FIRST_LIMIT ==> Inverse(n) + NAMED_ENTITY_DOCUMENT_BOOST < Inverse(1)
  {
    InverseFalls(n, 96);
    InverseFalls(97, n);
  }

  /** With at most 96 candidates every chunk of the named entity is placed before every other chunk. */
  lemma EntityFirst(items: seq<Ranked>, a: Ranked, b: Ranked)
    requires DistinctIds(items) && a in items && b in items && |items| <= ENTITY_FIRST_LIMIT
    requires a.entity == 1.0 && b.entity == 0.0
    ensures HybridRank(items, a) < HybridRank(items, b)
  {
    RanksOf(items, a);
    RanksOf(items, b);
    FusedBounds(LexicalRank(items, a), DenseRank(items, a), |items|, 1.0);
    FusedBounds(LexicalRank(items, b), DenseRank(items, b), |items|, 0.0);
    BoostCoversAllRanks(|items|);
    HybridOrder(items, a, b);
  }

  /** Past 96 the boost no longer covers the ranks: an incompatible chunk of the entity loses to the lexically first chunk. */
  lemma EntityCanComeSecond(items: seq<Ranked>, a: Ranked, b: Ranked)
    requires DistinctIds(items) && a in items && b in items
    requires a.entity == 1.0 && !a.compatible && LexicalRank(items, a) > ENTITY_FIRST_LIMIT
    requires b.entity == 0.0 && !b.compatible && LexicalRank(items, b) == 1
    ensures HybridRank(items, b) < HybridRank(items, a)
  {
    RanksOf(items, a);
    RanksOf(items, b);
    BoostCoversAllRanks(LexicalRank(items, a));
    HybridOrder(items, b, a);
  }

  /** However `n` candidates are scored, every chunk of the named entity is placed before every other chunk. */
  ghost predicate EntityAlwaysFirst(n: nat) {
    forall items: seq<Ranked>, a: Ranked, b: Ranked
      | |items| == n && DistinctIds(items) && a in items && b in items && a.entity == 1.0 && b.entity == 0.0
      :: HybridRank(items, a) < HybridRank(items, b)
  }

  function Unary(k: nat): (s: string)
    ensures |s| == k
  {
    seq(k, _ => 'a')
  }

  lemma {:induction false} UnaryOrder(i: nat, j: nat)
    requires i < j
    ensures Less(Unary(i), Unary(j))
  {
    if i > 0 {
      assert Unary(i)[1..] == Unary(i - 1) && Unary(j)[1..] == Unary(j - 1);
      UnaryOrder(i - 1, j - 1);
    }
  }

  /** Chunks from another embedding model with one lexical score; only the last belongs to the named entity. */
  function EntityLast(n: nat): (items: seq<Ranked>)
    ensures |items| == n
  {
    seq(n, i requires 0 <= i < n => Ranked(Unary(i + 1), false, 0.5, 0.0, if i == n - 1 then 1.0 else 0.0, 0.0))
  }

  lemma EntityLastIsOrdered(n: nat)
    ensures DistinctIds(EntityLast(n)) && Ordered(EntityLast(n), ByLexical())
    ensures Sort(EntityLast(n), ByLexical()) == EntityLast(n)
  {
    var items := EntityLast(n);
    forall i, j | 0 <= i < j < n ensures Ahead(items[i], items[j], ByLexical()) {
      UnaryOrder(i + 1, j + 1);
    }
    assert DistinctIds(items);
    SortOrders(items, ByLexical());
    SortAdds(items, ByLexical());
    OrderIsUnique(Sort(items, ByLexical()), items, ByLexical());
  }

  lemma EndsOfEntityLast(n: nat, first: Ranked, last: Ranked)
    requires n > 1 && first == EntityLast(n)[0] && last == EntityLast(n)[n - 1]
    ensures first in EntityLast(n) && !first.compatible && first.entity == 0.0 && LexicalRank(EntityLast(n), first) == 1
    ensures last in EntityLast(n) && !last.compatible && last.entity == 1.0 && LexicalRank(EntityLast(n), last) == n
  {
    EntityLastIsOrdered(n);
    RankIs(EntityLast(n), 0);
    RankIs(EntityLast(n), n - 1);
  }

  lemma NotAlwaysFirst(items: seq<Ranked>, a: Ranked, b: Ranked)
    requires DistinctIds(items) && a in items && b in items && a.entity == 1.0 && b.entity == 0.0
    requires HybridRank(items, b) < HybridRank(items, a)
    ensures !EntityAlwaysFirst(|items|)
  {
  }

  /** Past 96 there is such a list: its chunk of the named entity is overtaken by the lexically first one. */
  lemma EntityLastIsOvertaken(n: nat)
    requires n > ENTITY_FIRST_LIMIT
    ensures !EntityAlwaysFirst(n)
  {
    var items := EntityLast(n);
    var first, last := items[0], items[n - 1];
    EntityLastIsOrdered(n);
    EndsOfEntityLast(n, first, last);
    EntityCanComeSecond(items, last, first);
    NotAlwaysFirst(items, last, first);
  }

  /** The boost puts the named entity first on every list of `n` candidates exactly when `n` is at most 96. */
  lemma EntityFirstExactlyWhen(n: nat)
    ensures EntityAlwaysFirst(n) <==> n <= ENTITY_FIRST_LIMIT
  {
    if n <= ENTITY_FIRST_LIMIT {
      forall items: seq<Ranked>, a: Ranked, b: Ranked
        | |items| == n && DistinctIds(items) && a in items && b in items && a.entity == 1.0 && b.entity == 0.0
        ensures HybridRank(items, a) < HybridRank(items, b)
      {
        EntityFirst(items, a, b);
      }
    } else {
      EntityLastIsOvertaken(n);
    }
  }

  // ------------------------------------------------------------ the candidates of a question

  /** A chunk returned by one of the two searches of a question. */
  datatype Row<T> = Row(id: string, chunk: T)

  const SEARCH_LIMIT := 20

  predicate DistinctRows<T>(rows: seq<Row<T>>) {
    forall i, j :: 0 <= i < j < |rows| ==> rows[i].id != rows[j].id
  }

  /** `row` is the last of the first `n` rows with its id. */
  ghost predicate LastOf<T>(rows: seq<Row<T>>, n: nat, row: Row<T>)
    requires n <= |rows|
  {
    exists i :: 0 <= i < n && rows[i] == row && forall k :: i < k < n ==> rows[k].id != row.id
  }

  predicate HasId<T>(rows: seq<Row<T>>, id: string) {
    exists k :: 0 <= k < |rows| && rows[k].id == id
  }

  /** The candidates after `n` rows: one per id, each the last row with that id. */
  ghost predicate Collected<T>(rows: seq<Row<T>>, n: nat, candidates: seq<Row<T>>)
    requires n <= |rows|
  {
    && DistinctRows(candidates) && |candidates| <= n
    && (forall k :: 0 <= k < |candidates| ==> LastOf(rows, n, candidates[k]))
    && (forall j :: 0 <= j < n ==> HasId(candidates, rows[j].id))
  }

  /** `after` is `before` with `row` at `k`, in place of the row with its id or behind all rows. */
  ghost predicate IsPut<T>(before: seq<Row<T>>, after: seq<Row<T>>, k: nat, row: Row<T>) {
    && DistinctRows(after) && |before| <= |after| <= |before| + 1 && k < |after| && after[k] == row
    && (forall j :: 0 <= j < |after| && j != k ==> j < |before| && after[j] == before[j])
    && (forall j :: 0 <= j < |before| ==> after[j].id == before[j].id)
  }

  /** Assignment to a dictionary: an id keeps its place and takes the new row. */
  method Put<T>(candidates: seq<Row<T>>, row: Row<T>) returns (after: seq<Row<T>>, k: nat)
    requires DistinctRows(candidates)
    ensures IsPut(candidates, after, k, row)
  {
    k := 0;
    while k < |candidates| && candidates[k].id != row.id
      invariant k <= |candidates| && forall j :: 0 <= j < k ==> candidates[j].id != row.id
    {
      k := k + 1;
    }
    after := if k < |candidates| then candidates[k := row] else candidates + [row];
  }

  /** Candidates are keyed by id: a chunk found by both searches is kept once, as the second search returned it. */
  method CollectCandidates<T>(dense: seq<Row<T>>, sparse: seq<Row<T>>) returns (candidates: seq<Row<T>>)
    ensures Collected(dense + sparse, |dense + sparse|, candidates)
  {
    var rows := dense + sparse;
    candidates := [];
    for i := 0 to |rows|
      invariant Collected(rows, i, candidates)
    {
      var after, k := Put(candidates, rows[i]);
      LastMoves(rows, i, candidates, after, k);
      IdsStay(rows, i, candidates, after, k);
      candidates := after;
    }
  }

  lemma LastMoves<T>(rows: seq<Row<T>>, i: nat, before: seq<Row<T>>, after: seq<Row<T>>, k: nat)
    requires i < |rows| && IsPut(before, after, k, rows[i])
    requires forall j :: 0 <= j < |before| ==> LastOf(rows, i, before[j])
    ensures forall j :: 0 <= j < |after| ==> LastOf(rows, i + 1, after[j])
  {
    forall j | 0 <= j < |after| ensures LastOf(rows, i + 1, after[j]) {
      if j == k {
        assert rows[i] == after[j];
      } else {
        var p :| 0 <= p < i && rows[p] == before[j] && forall q :: p < q < i ==> rows[q].id != before[j].id;
        assert after[j].id != after[k].id;
      }
    }
  }

  lemma IdsStay<T>(rows: seq<Row<T>>, i: nat, before: seq<Row<T>>, after: seq<Row<T>>, k: nat)
    requires i < |rows| && IsPut(before, after, k, rows[i])
    requires forall j :: 0 <= j < i ==> HasId(before, rows[j].id)
    ensures forall j :: 0 <= j < i + 1 ==> HasId(after, rows[j].id)
  {
    assert after[k].id == rows[i].id;
    forall j | 0 <= j < i + 1 ensures HasId(after, rows[j].id) {
      if j < i {
        var p :| 0 <= p < |before| && before[p].id == rows[j].id;
        assert after[p].id == rows[j].id;
      }
    }
  }

  /** Two searches of at most 20 rows each: however the candidates are scored, the named entity comes first. */
  lemma EntityFirstForQuestions<T>(dense: seq<Row<T>>, sparse: seq<Row<T>>, candidates: seq<Row<T>>, items: seq<Ranked>, a: Ranked, b: Ranked)
    requires |dense| <= SEARCH_LIMIT && |sparse| <= SEARCH_LIMIT && Collected(dense + sparse, |dense + sparse|, candidates)
    requires |items| == |candidates| && forall i :: 0 <= i < |items| ==> items[i].id == candidates[i].id
    requires a in items && b in items && a.entity == 1.0 && b.entity == 0.0
    ensures HybridRank(items, a) < HybridRank(items, b)
  {
    EntityFirst(items, a, b);
  }
}
