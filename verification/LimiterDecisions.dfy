/** What the limiter decides for each request of a run, by the earlier admissions of its key alone. */
module LimiterDecisions {
  import opened Common
  import opened RateLimiter
  import opened LimiterExactness

  /** The earlier requests of the same key that were admitted and are still inside the window of request `i`. */
  function InWindow(c: Config, qs: seq<Request>, ds: seq<Decision>, i: nat): set<nat>
    requires i < |qs| == |ds|
  {
    set j: nat | j < i && qs[j].key == qs[i].key && ds[j].Admitted? && qs[j].now > qs[i].now - c.window
  }

  /** Admitted while fewer than `limit` such requests are inside the window; otherwise refused until the oldest leaves it. */
  ghost predicate DecidedRight(c: Config, qs: seq<Request>, ds: seq<Decision>, i: nat)
    requires i < |qs| == |ds| && qs[i].key.bucket in c.limits
  {
    var inside := InWindow(c, qs, ds, i);
    match ds[i]
    case Admitted => |inside| < c.limits[qs[i].key.bucket]
    case Refused(wait) =>
      && |inside| >= c.limits[qs[i].key.bucket]
      && exists oldest: nat :: IsOldest(oldest, inside) && LeastWait(wait, qs[i].now, qs[oldest].now + c.window)
  }

  ghost predicate IsOldest(oldest: nat, inside: set<nat>) {
    oldest in inside && forall j :: j in inside ==> oldest <= j
  }

  /** The least whole number of seconds that leads from `now` to `until` or later. */
  predicate LeastWait(wait: int, now: real, until: real) {
    now + wait as real >= until > now + (wait - 1) as real
  }

  /** The times of the admitted requests of a key among the first `n`. */
  function Times(qs: seq<Request>, ds: seq<Decision>, key: Key, n: nat): seq<real>
    requires n <= |qs| == |ds|
  {
    if n == 0 then []
    else Times(qs, ds, key, n - 1) + (if qs[n - 1].key == key && ds[n - 1].Admitted? then [qs[n - 1].now] else [])
  }

  /** Those of them after a cutoff. */
  function Inside(qs: seq<Request>, ds: seq<Decision>, key: Key, cutoff: real, n: nat): set<nat>
    requires n <= |qs| == |ds|
  {
    set j: nat | j < n && qs[j].key == key && ds[j].Admitted? && qs[j].now > cutoff
  }

  lemma InsideSnoc(qs: seq<Request>, ds: seq<Decision>, key: Key, cutoff: real, n: nat)
    requires n < |qs| == |ds|
    ensures Inside(qs, ds, key, cutoff, n + 1) ==
            if qs[n].key == key && ds[n].Admitted? && qs[n].now > cutoff then Inside(qs, ds, key, cutoff, n) + {n}
            else Inside(qs, ds, key, cutoff, n)
  {
  }

  /** The recent times are those of the requests inside, the oldest first. */
  ghost predicate Recounts(recent: seq<real>, qs: seq<Request>, inside: set<nat>)
    requires forall j :: j in inside ==> j < |qs|
  {
    |recent| == |inside| && (|recent| > 0 ==> exists j: nat :: IsOldest(j, inside) && recent[0] == qs[j].now)
  }

  lemma RecountsNothing(recent: seq<real>, qs: seq<Request>, inside: set<nat>)
    requires |recent| == 0 && |inside| == 0
    ensures Recounts(recent, qs, inside)
  {
    assert inside == {};
  }

  lemma RecountsNext(recent: seq<real>, qs: seq<Request>, inside: set<nat>, n: nat, next: set<nat>)
    requires n < |qs| && (forall j :: j in inside ==> j < n) && Recounts(recent, qs, inside) && next == inside + {n}
    ensures Recounts(recent + [qs[n].now], qs, next)
  {
    if |recent| == 0 {
      assert inside == {} && IsOldest(n, next);
    } else {
      var j: nat :| IsOldest(j, inside) && recent[0] == qs[j].now;
      assert IsOldest(j, next);
    }
  }

  lemma RecentStep(qs: seq<Request>, ds: seq<Decision>, key: Key, cutoff: real, n: nat)
    requires n < |qs| == |ds|
    ensures After(Times(qs, ds, key, n + 1), cutoff) == After(Times(qs, ds, key, n), cutoff) +
              (if qs[n].key == key && ds[n].Admitted? && qs[n].now > cutoff then [qs[n].now] else [])
  {
    var last := if qs[n].key == key && ds[n].Admitted? then [qs[n].now] else [];
    AfterAppend(Times(qs, ds, key, n), last, cutoff);
    AfterOfLast(last, cutoff);
  }

  lemma RecountsStep(qs: seq<Request>, ds: seq<Decision>, key: Key, cutoff: real, n: nat, recent: seq<real>)
    requires n < |qs| == |ds| && Recounts(recent, qs, Inside(qs, ds, key, cutoff, n))
    ensures Recounts(recent + (if qs[n].key == key && ds[n].Admitted? && qs[n].now > cutoff then [qs[n].now] else []),
                     qs, Inside(qs, ds, key, cutoff, n + 1))
  {
    InsideSnoc(qs, ds, key, cutoff, n);
    if qs[n].key == key && ds[n].Admitted? && qs[n].now > cutoff {
      RecountsNext(recent, qs, Inside(qs, ds, key, cutoff, n), n, Inside(qs, ds, key, cutoff, n + 1));
    } else {
      assert recent + [] == recent;
    }
  }

  lemma TimesAtStart(qs: seq<Request>, ds: seq<Decision>, key: Key, cutoff: real, n: nat)
    requires n <= |qs| == |ds| && n == 0
    ensures |After(Times(qs, ds, key, n), cutoff)| == 0 && |Inside(qs, ds, key, cutoff, n)| == 0
  {
    assert Inside(qs, ds, key, cutoff, n) == {};
    assert |Times(qs, ds, key, n)| == 0;
  }

  lemma RecentAtStart(qs: seq<Request>, ds: seq<Decision>, key: Key, cutoff: real, n: nat)
    requires n <= |qs| == |ds| && n == 0
    ensures Recounts(After(Times(qs, ds, key, n), cutoff), qs, Inside(qs, ds, key, cutoff, n))
  {
    TimesAtStart(qs, ds, key, cutoff, n);
    RecountsNothing(After(Times(qs, ds, key, n), cutoff), qs, Inside(qs, ds, key, cutoff, n));
  }

  lemma RecentLater(qs: seq<Request>, ds: seq<Decision>, key: Key, cutoff: real, n: nat, next: nat)
    requires n < |qs| == |ds| && next == n + 1
    requires Recounts(After(Times(qs, ds, key, n), cutoff), qs, Inside(qs, ds, key, cutoff, n))
    ensures Recounts(After(Times(qs, ds, key, next), cutoff), qs, Inside(qs, ds, key, cutoff, next))
  {
    RecentStep(qs, ds, key, cutoff, n);
    RecountsStep(qs, ds, key, cutoff, n, After(Times(qs, ds, key, n), cutoff));
  }

  lemma {:induction false} RecentTimes(qs: seq<Request>, ds: seq<Decision>, key: Key, cutoff: real, n: nat)
    requires n <= |qs| == |ds|
    ensures Recounts(After(Times(qs, ds, key, n), cutoff), qs, Inside(qs, ds, key, cutoff, n))
  {
    if n == 0 {
      RecentAtStart(qs, ds, key, cutoff, n);
    } else {
      RecentTimes(qs, ds, key, cutoff, n - 1);
      RecentLater(qs, ds, key, cutoff, n - 1, n);
    }
  }

  lemma AfterOfLast(last: seq<real>, cutoff: real)
    requires |last| <= 1
    ensures After(last, cutoff) == if last != [] && last[0] > cutoff then last else []
  {
    if last != [] { assert last[1..] == [] && last == [last[0]]; }
  }

  // --------------------------------------------------------------- the unbounded run

  lemma FreeStep(c: Config, qs: seq<Request>, n: nat)
    requires ValidConfig(c) && Served(c, qs) && n < |qs| && |FreeRun(c, map[], qs)| == |qs|
    ensures FreeRun(c, map[], qs)[n] == FreeDecision(c, FreeAfter(c, map[], qs[..n]), qs[n])
    ensures FreeAfter(c, map[], qs[..n + 1]) == FreeLogs(c, FreeAfter(c, map[], qs[..n]), qs[n])
  {
    var before, rest := qs[..n], qs[n..];
    assert qs == before + rest && rest[0] == qs[n];
    FreeRunAppend(c, map[], before, rest);
    FreeRunLength(c, map[], before);
    assert qs[..n + 1] == before + [qs[n]];
    FreeAfterSnoc(c, map[], before, qs[n]);
  }

  lemma {:induction false} FreeAfterSnoc(c: Config, all: map<Key, seq<real>>, qs: seq<Request>, q: Request)
    requires ValidConfig(c) && Served(c, qs) && Served(c, qs + [q]) && q.key.bucket in c.limits
    ensures FreeAfter(c, all, qs + [q]) == FreeLogs(c, FreeAfter(c, all, qs), q)
    decreases |qs|
  {
    if qs == [] {
      assert qs + [q] == [q] && [q][1..] == [];
    } else {
      TailOfAppend(qs, [q]);
      FreeAfterSnoc(c, FreeLogs(c, all, qs[0]), qs[1..], q);
    }
  }

  /** The unbounded limiter's log of a key is the list of its admissions. */
  lemma {:induction false} LogIsAdmissions(c: Config, qs: seq<Request>, key: Key, n: nat)
    requires ValidConfig(c) && Served(c, qs) && n <= |qs| && |FreeRun(c, map[], qs)| == |qs|
    ensures LogOf(FreeAfter(c, map[], qs[..n]), key) == Times(qs, FreeRun(c, map[], qs), key, n)
  {
    if n > 0 {
      LogIsAdmissions(c, qs, key, n - 1);
      FreeStep(c, qs, n - 1);
      LogOfStep(c, FreeAfter(c, map[], qs[..n - 1]), qs[n - 1], key);
    }
  }

  lemma LogOfStep(c: Config, all: map<Key, seq<real>>, q: Request, key: Key)
    requires ValidConfig(c) && q.key.bucket in c.limits
    ensures LogOf(FreeLogs(c, all, q), key) ==
            LogOf(all, key) + (if q.key == key && FreeDecision(c, all, q).Admitted? then [q.now] else [])
  {
  }

  lemma HintIsLeast(log: seq<real>, window: real, now: real)
    requires log != [] && log[0] > now - window
    ensures LeastWait(Hint(log, window, now), now, log[0] + window)
  {
    var wait := Hint(log, window, now);
    HintIsWait(log, window, now, wait);
    HintIsWait(log, window, now, wait - 1);
  }

  lemma DecisionByRecent(c: Config, all: map<Key, seq<real>>, q: Request, recent: seq<real>)
    requires ValidConfig(c) && q.key.bucket in c.limits && recent == After(LogOf(all, q.key), q.now - c.window)
    ensures FreeDecision(c, all, q) ==
            if |recent| < c.limits[q.key.bucket] then Admitted else Refused(Hint(recent, c.window, q.now))
  {
  }

  lemma FreeDecidesRight(c: Config, qs: seq<Request>, i: nat)
    requires ValidConfig(c) && Served(c, qs) && i < |qs|
    ensures |FreeRun(c, map[], qs)| == |qs| && DecidedRight(c, qs, FreeRun(c, map[], qs), i)
  {
    FreeRunLength(c, map[], qs);
    var ds, cutoff := FreeRun(c, map[], qs), qs[i].now - c.window;
    var inside, recent := InWindow(c, qs, ds, i), After(Times(qs, ds, qs[i].key, i), cutoff);
    FreeStep(c, qs, i);
    LogIsAdmissions(c, qs, qs[i].key, i);
    RecentTimes(qs, ds, qs[i].key, cutoff, i);
    assert inside == Inside(qs, ds, qs[i].key, cutoff, i);
    DecisionByRecent(c, FreeAfter(c, map[], qs[..i]), qs[i], recent);
    if ds[i].Refused? {
      var oldest: nat :| IsOldest(oldest, inside) && recent[0] == qs[oldest].now;
      HintIsLeast(recent, c.window, qs[i].now);
    }
  }

  /**
    What the limiter decides. In every run whose keys fit, a request is admitted exactly when fewer admissions of its
    key than its limit are inside the window; otherwise it is told the least whole number of seconds after which the
    oldest of them has left the window.
   */
  lemma DecisionsAreRight(c: Config, now: real, qs: seq<Request>, i: nat)
    requires ValidConfig(c) && Served(c, qs) && Ticking(now, qs) && KeysFit(c, map[], qs) && i < |qs|
    ensures Ready(c, EMPTY, now, qs) && DecidedRight(c, qs, BoundedRun(c, EMPTY, now, qs), i)
  {
    BoundedRefinesUnbounded(c, now, qs);
    FreeDecidesRight(c, qs, i);
  }
}
