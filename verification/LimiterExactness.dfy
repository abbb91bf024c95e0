/**
  Exactly when the bounded table is only a cache: the two limiters are told apart, by repeating one key right
  after some request of the run, if and only if the keys of the run do not fit.
 */
module LimiterExactness {
  import opened Common
  import opened RateLimiter

  const EMPTY := Table([], map[])

  function TimeAfter(now: real, qs: seq<Request>): real {
    if qs == [] then now else qs[|qs| - 1].now
  }

  function FreeAfter(c: Config, all: map<Key, seq<real>>, qs: seq<Request>): map<Key, seq<real>>
    requires ValidConfig(c) && Served(c, qs)
    decreases |qs|
  {
    if qs == [] then all else FreeAfter(c, FreeLogs(c, all, qs[0]), qs[1..])
  }

  /** `m` requests of one key at one instant. */
  function Probe(key: Key, at: real, m: nat): (r: seq<Request>)
    ensures |r| == m && forall i :: 0 <= i < m ==> r[i] == Request(key, at)
  {
    if m == 0 then [] else [Request(key, at)] + Probe(key, at, m - 1)
  }

  // ------------------------------------------------------------ runs in two parts

  lemma {:induction false} FreeRunLength(c: Config, all: map<Key, seq<real>>, qs: seq<Request>)
    requires ValidConfig(c) && Served(c, qs)
    ensures |FreeRun(c, all, qs)| == |qs|
    decreases |qs|
  {
    if qs != [] { FreeRunLength(c, FreeLogs(c, all, qs[0]), qs[1..]); }
  }

  lemma {:induction false} FreeRunAppend(c: Config, all: map<Key, seq<real>>, qs: seq<Request>, ws: seq<Request>)
    requires ValidConfig(c) && Served(c, qs) && Served(c, ws)
    ensures Served(c, qs + ws) && FreeRun(c, all, qs + ws) == FreeRun(c, all, qs) + FreeRun(c, FreeAfter(c, all, qs), ws)
    decreases |qs|
  {
    if qs == [] {
      assert qs + ws == ws;
    } else {
      TailOfAppend(qs, ws);
      FreeRunAppend(c, FreeLogs(c, all, qs[0]), qs[1..], ws);
      Assoc([FreeDecision(c, all, qs[0])], FreeRun(c, FreeLogs(c, all, qs[0]), qs[1..]),
            FreeRun(c, FreeAfter(c, all, qs), ws));
    }
  }

  /** The table and the time a run leaves. */
  ghost predicate LeavesOk(c: Config, t: Table, now: real) {
    TableOk(c, t) && NotAfter(t, now)
  }

  lemma AfterTail(c: Config, t: Table, now: real, qs: seq<Request>, t': Table)
    requires Ready(c, t, now, qs) && qs != [] && t' == AdmitTable(c, t, qs[0]) && Ready(c, t', qs[0].now, qs[1..])
    ensures TableAfter(c, t, now, qs) == TableAfter(c, t', qs[0].now, qs[1..]) && TimeAfter(now, qs) == TimeAfter(qs[0].now, qs[1..])
  {
  }

  lemma {:induction false} RunLeavesOk(c: Config, t: Table, now: real, qs: seq<Request>)
    requires Ready(c, t, now, qs)
    ensures LeavesOk(c, TableAfter(c, t, now, qs), TimeAfter(now, qs))
    decreases |qs|
  {
    if qs != [] {
      var t' := AdmitTable(c, t, qs[0]);
      StaysReady(c, t, now, qs);
      RunLeavesOk(c, t', qs[0].now, qs[1..]);
      AfterTail(c, t, now, qs, t');
    }
  }

  lemma ReadyAfter(c: Config, t: Table, now: real, qs: seq<Request>)
    requires Ready(c, t, now, qs)
    ensures TableOk(c, TableAfter(c, t, now, qs)) && NotAfter(TableAfter(c, t, now, qs), TimeAfter(now, qs))
  {
    RunLeavesOk(c, t, now, qs);
  }

  /** What may come after a run: served requests, none of them earlier than its last one. */
  ghost predicate Continues(c: Config, now: real, qs: seq<Request>, ws: seq<Request>) {
    Served(c, ws) && Ticking(TimeAfter(now, qs), ws)
  }

  lemma ContinuesTail(c: Config, now: real, qs: seq<Request>, ws: seq<Request>)
    requires qs != [] && Continues(c, now, qs, ws)
    ensures Continues(c, qs[0].now, qs[1..], ws)
  {
  }

  lemma ReadyAppend(c: Config, t: Table, now: real, qs: seq<Request>, ws: seq<Request>)
    requires Ready(c, t, now, qs) && Continues(c, now, qs, ws)
    ensures Ready(c, t, now, qs + ws)
  {
    var rs := qs + ws;
    forall i, j | 0 <= i < j < |rs| ensures rs[i].now <= rs[j].now {
      if i < |qs| && |qs| <= j {
        assert qs[i].now <= TimeAfter(now, qs) <= ws[0].now <= ws[j - |qs|].now;
      }
    }
  }

  lemma {:induction false} BoundedRunAppend(c: Config, t: Table, now: real, qs: seq<Request>, ws: seq<Request>)
    requires Ready(c, t, now, qs) && Continues(c, now, qs, ws) && Ready(c, t, now, qs + ws)
    requires Ready(c, TableAfter(c, t, now, qs), TimeAfter(now, qs), ws)
    ensures BoundedRun(c, t, now, qs + ws) ==
            BoundedRun(c, t, now, qs) + BoundedRun(c, TableAfter(c, t, now, qs), TimeAfter(now, qs), ws)
    decreases |qs|
  {
    if qs == [] {
      assert qs + ws == ws;
    } else {
      StaysReady(c, t, now, qs);
      StaysReady(c, t, now, qs + ws);
      TailOfAppend(qs, ws);
      ContinuesTail(c, now, qs, ws);
      var t' := AdmitTable(c, t, qs[0]);
      BoundedRunAppend(c, t', qs[0].now, qs[1..], ws);
      Assoc([AdmitDecision(c, t, qs[0])], BoundedRun(c, t', qs[0].now, qs[1..]),
            BoundedRun(c, TableAfter(c, t, now, qs), TimeAfter(now, qs), ws));
    }
  }

  // ------------------------------------------------------------ probing one key

  /** The events of one key inside the window, in either limiter. */
  function Recent(c: Config, logs: map<Key, seq<real>>, key: Key, at: real): seq<real> {
    After(LogOf(logs, key), at - c.window)
  }

  lemma ProbeReady(c: Config, t: Table, key: Key, at: real, m: nat)
    requires ValidConfig(c) && TableOk(c, t) && NotAfter(t, at) && key.bucket in c.limits
    ensures Ready(c, t, at, Probe(key, at, m))
  {
  }

  lemma ProbeAgrees(c: Config, t: Table, all: map<Key, seq<real>>, key: Key, at: real)
    requires ValidConfig(c) && TableOk(c, t) && key.bucket in c.limits
    requires Recent(c, t.logs, key, at) == Recent(c, all, key, at)
    ensures AdmitDecision(c, t, Request(key, at)) == FreeDecision(c, all, Request(key, at))
    ensures Recent(c, AdmitTable(c, t, Request(key, at)).logs, key, at) == Recent(c, FreeLogs(c, all, Request(key, at)), key, at)
  {
    SameDecision(c, t, all, Request(key, at));
    RecentOfRequested(c, t, all, Request(key, at));
  }

  /** Limiters that hold the same recent events of a key agree on every repetition of it. */
  lemma {:induction false} ProbesAgree(c: Config, t: Table, all: map<Key, seq<real>>, key: Key, at: real, m: nat)
    requires Ready(c, t, at, Probe(key, at, m)) && key.bucket in c.limits
    requires Recent(c, t.logs, key, at) == Recent(c, all, key, at)
    ensures BoundedRun(c, t, at, Probe(key, at, m)) == FreeRun(c, all, Probe(key, at, m))
    decreases m
  {
    if m > 0 {
      ProbeAgrees(c, t, all, key, at);
      ProbeUnfolds(c, t, all, key, at, m);
      ProbesAgree(c, AdmitTable(c, t, Request(key, at)), FreeLogs(c, all, Request(key, at)), key, at, m - 1);
    }
  }

  lemma NextLogCounts(log: seq<real>, cutoff: real, limit: nat, at: real)
    requires Sorted(log) && cutoff < at
    ensures Pruned(log, cutoff) == After(log, cutoff)
    ensures |After(log, cutoff)| < limit ==> |After(NextLog(Pruned(log, cutoff), limit, at), cutoff)| == |After(log, cutoff)| + 1
  {
    PrunedIsAfter(log, cutoff);
    AfterTwice(log, cutoff, cutoff);
    AfterAppend(Pruned(log, cutoff), [at], cutoff);
    OneEvent(at, cutoff);
  }

  lemma RecentDecides(c: Config, t: Table, key: Key, at: real)
    requires ValidConfig(c) && TableOk(c, t) && key.bucket in c.limits
    ensures AdmitDecision(c, t, Request(key, at)).Admitted? <==> |Recent(c, t.logs, key, at)| < c.limits[key.bucket]
  {
    LogIsSorted(c, t, key);
    PrunedIsAfter(LogOf(t.logs, key), at - c.window);
  }

  lemma RecentGrows(c: Config, t: Table, key: Key, at: real)
    requires ValidConfig(c) && TableOk(c, t) && key.bucket in c.limits && |Recent(c, t.logs, key, at)| < c.limits[key.bucket]
    ensures |Recent(c, AdmitTable(c, t, Request(key, at)).logs, key, at)| == |Recent(c, t.logs, key, at)| + 1
  {
    var log, limit := LogOf(t.logs, key), c.limits[key.bucket];
    LogIsSorted(c, t, key);
    NextLogCounts(log, at - c.window, limit, at);
    AdmitLog(c, t, Request(key, at), key);
    assert LogOf(AdmitTable(c, t, Request(key, at)).logs, key) == NextLog(Pruned(log, at - c.window), limit, at);
  }

  lemma RefusedStays(c: Config, t: Table, key: Key, at: real)
    requires ValidConfig(c) && TableOk(c, t) && key.bucket in c.limits && AdmitDecision(c, t, Request(key, at)).Refused?
    ensures LogOf(AdmitTable(c, t, Request(key, at)).logs, key) == LogOf(t.logs, key)
  {
    FullLog(c, t, Request(key, at));
    EnteredLog(c, t, key);
  }

  /** An admission adds one recent event and a refusal none, in the bounded limiter ... */
  lemma BoundedCounts(c: Config, t: Table, key: Key, at: real, d: Decision, t': Table)
    requires ValidConfig(c) && TableOk(c, t) && key.bucket in c.limits
    requires d == AdmitDecision(c, t, Request(key, at)) && t' == AdmitTable(c, t, Request(key, at))
    ensures d.Admitted? <==> |Recent(c, t.logs, key, at)| < c.limits[key.bucket]
    ensures |Recent(c, t'.logs, key, at)| == |Recent(c, t.logs, key, at)| + (if d.Admitted? then 1 else 0)
  {
    RecentDecides(c, t, key, at);
    if d.Admitted? { RecentGrows(c, t, key, at); } else { RefusedStays(c, t, key, at); }
  }

  lemma LogIsSorted(c: Config, t: Table, key: Key)
    requires TableOk(c, t)
    ensures Sorted(LogOf(t.logs, key))
  {
  }

  /** ... and in the unbounded one. */
  lemma FreeCounts(c: Config, all: map<Key, seq<real>>, key: Key, at: real)
    requires ValidConfig(c) && key.bucket in c.limits
    ensures FreeDecision(c, all, Request(key, at)).Admitted? <==> |Recent(c, all, key, at)| < c.limits[key.bucket]
    ensures |Recent(c, FreeLogs(c, all, Request(key, at)), key, at)| ==
            |Recent(c, all, key, at)| + (if FreeDecision(c, all, Request(key, at)).Admitted? then 1 else 0)
  {
    FreeLog(c, all, Request(key, at), key);
    AfterAppend(LogOf(all, key), [at], at - c.window);
    OneEvent(at, at - c.window);
  }

  lemma OneEvent(at: real, cutoff: real)
    requires cutoff < at
    ensures After([at], cutoff) == [at]
  {
    assert [at][1..] == [];
  }

  lemma ProbeUnfolds(c: Config, t: Table, all: map<Key, seq<real>>, key: Key, at: real, m: nat)
    requires Ready(c, t, at, Probe(key, at, m)) && key.bucket in c.limits && m > 0
    ensures Ready(c, AdmitTable(c, t, Request(key, at)), at, Probe(key, at, m - 1))
    ensures BoundedRun(c, t, at, Probe(key, at, m)) ==
            [AdmitDecision(c, t, Request(key, at))] + BoundedRun(c, AdmitTable(c, t, Request(key, at)), at, Probe(key, at, m - 1))
    ensures FreeRun(c, all, Probe(key, at, m)) ==
            [FreeDecision(c, all, Request(key, at))] + FreeRun(c, FreeLogs(c, all, Request(key, at)), Probe(key, at, m - 1))
  {
    var ps := Probe(key, at, m);
    assert ps[0] == Request(key, at) && ps[1..] == Probe(key, at, m - 1);
    StaysReady(c, t, at, ps);
  }

  /** Repetitions of one key are admitted until its recent events reach the limit, and refused from then on. */
  predicate AdmitsUpTo(decisions: seq<Decision>, held: nat, limit: nat) {
    forall i :: 0 <= i < |decisions| ==> (decisions[i].Admitted? <==> held + i < limit)
  }

  lemma AdmitsNext(d: Decision, rest: seq<Decision>, held: nat, limit: nat)
    requires d.Admitted? <==> held < limit
    requires AdmitsUpTo(rest, held + (if d.Admitted? then 1 else 0), limit)
    ensures AdmitsUpTo([d] + rest, held, limit)
  {
    forall i | 0 <= i < |[d] + rest| ensures ([d] + rest)[i].Admitted? <==> held + i < limit {
      if i > 0 { assert ([d] + rest)[i] == rest[i - 1]; }
    }
  }

  lemma {:induction false} BoundedProbe(c: Config, t: Table, key: Key, at: real, m: nat)
    requires Ready(c, t, at, Probe(key, at, m)) && key.bucket in c.limits
    ensures AdmitsUpTo(BoundedRun(c, t, at, Probe(key, at, m)), |Recent(c, t.logs, key, at)|, c.limits[key.bucket])
    decreases m
  {
    if m > 0 {
      var d, t' := AdmitDecision(c, t, Request(key, at)), AdmitTable(c, t, Request(key, at));
      ProbeUnfolds(c, t, map[], key, at, m);
      BoundedProbe(c, t', key, at, m - 1);
      BoundedCounts(c, t, key, at, d, t');
      AdmitsNext(d, BoundedRun(c, t', at, Probe(key, at, m - 1)), |Recent(c, t.logs, key, at)|, c.limits[key.bucket]);
    }
  }

  lemma {:induction false} FreeProbe(c: Config, all: map<Key, seq<real>>, key: Key, at: real, m: nat)
    requires ValidConfig(c) && key.bucket in c.limits && Served(c, Probe(key, at, m))
    ensures AdmitsUpTo(FreeRun(c, all, Probe(key, at, m)), |Recent(c, all, key, at)|, c.limits[key.bucket])
    decreases m
  {
    if m > 0 {
      var q := Request(key, at);
      assert Probe(key, at, m)[1..] == Probe(key, at, m - 1);
      FreeProbe(c, FreeLogs(c, all, q), key, at, m - 1);
      FreeCounts(c, all, key, at);
      AdmitsNext(FreeDecision(c, all, q), FreeRun(c, FreeLogs(c, all, q), Probe(key, at, m - 1)),
                 |Recent(c, all, key, at)|, c.limits[key.bucket]);
    }
  }

  /** As many repetitions as the limit tell apart limiters that hold different numbers of recent events. */
  lemma CountsShow(a: seq<Decision>, b: seq<Decision>, fewer: nat, more: nat, limit: nat)
    requires AdmitsUpTo(a, fewer, limit) && AdmitsUpTo(b, more, limit) && |a| == |b| == limit
    requires fewer < more && fewer < limit
    ensures a != b
  {
    var i := if more < limit then limit - more else 0;
    assert a[i].Admitted? && !b[i].Admitted?;
  }

  lemma ProbesDiffer(c: Config, t: Table, all: map<Key, seq<real>>, key: Key, at: real, m: nat)
    requires Ready(c, t, at, Probe(key, at, m)) && key.bucket in c.limits && m == c.limits[key.bucket]
    requires |Recent(c, t.logs, key, at)| < |Recent(c, all, key, at)| && |Recent(c, t.logs, key, at)| < m
    ensures BoundedRun(c, t, at, Probe(key, at, m)) != FreeRun(c, all, Probe(key, at, m))
  {
    BoundedProbe(c, t, key, at, m);
    FreeProbe(c, all, key, at, m);
    FreeRunLength(c, all, Probe(key, at, m));
    CountsShow(BoundedRun(c, t, at, Probe(key, at, m)), FreeRun(c, all, Probe(key, at, m)),
               |Recent(c, t.logs, key, at)|, |Recent(c, all, key, at)|, m);
  }

  // ---------------------------------------------------------------- the whole run

  lemma FreeAfterTail(c: Config, all: map<Key, seq<real>>, qs: seq<Request>, all': map<Key, seq<real>>)
    requires ValidConfig(c) && Served(c, qs) && qs != [] && all' == FreeLogs(c, all, qs[0])
    ensures FreeAfter(c, all, qs) == FreeAfter(c, all', qs[1..])
  {
  }

  lemma KeysFitTail(c: Config, all: map<Key, seq<real>>, qs: seq<Request>)
    requires ValidConfig(c) && Served(c, qs) && qs != [] && KeysFit(c, all, qs)
    ensures |ActiveOthers(c, all, qs[0])| < c.maxKeys && KeysFit(c, FreeLogs(c, all, qs[0]), qs[1..])
  {
  }

  lemma RecentAtEnd(c: Config, t: Table, all: map<Key, seq<real>>, now: real, qs: seq<Request>, key: Key)
    requires Ready(c, t, now, qs) && SameRecent(c, t, all, now) && qs == []
    ensures Recent(c, TableAfter(c, t, now, qs).logs, key, TimeAfter(now, qs)) == Recent(c, FreeAfter(c, all, qs), key, TimeAfter(now, qs))
  {
    SameRecentAt(c, t, all, now, key);
  }

  /** While the keys fit, both limiters hold the same recent events of every key after a run. */
  lemma {:induction false} RunKeepsRecent(c: Config, t: Table, all: map<Key, seq<real>>, now: real, qs: seq<Request>, key: Key)
    requires Ready(c, t, now, qs) && SameRecent(c, t, all, now) && KeysFit(c, all, qs)
    ensures Recent(c, TableAfter(c, t, now, qs).logs, key, TimeAfter(now, qs)) == Recent(c, FreeAfter(c, all, qs), key, TimeAfter(now, qs))
    decreases |qs|
  {
    if qs == [] {
      RecentAtEnd(c, t, all, now, qs, key);
    } else {
      var t', all' := AdmitTable(c, t, qs[0]), FreeLogs(c, all, qs[0]);
      StaysReady(c, t, now, qs);
      KeysFitTail(c, all, qs);
      SameRecentLater(c, t, all, now, qs[0].now);
      RequestRefines(c, t, all, qs[0]);
      RunKeepsRecent(c, t', all', qs[0].now, qs[1..], key);
      AfterTail(c, t, now, qs, t');
      FreeAfterTail(c, all, qs, all');
    }
  }

  lemma {:induction false} PrefixFits(c: Config, all: map<Key, seq<real>>, qs: seq<Request>, n: nat)
    requires ValidConfig(c) && Served(c, qs) && n <= |qs| && KeysFit(c, all, qs)
    ensures Served(c, qs[..n]) && KeysFit(c, all, qs[..n])
    decreases |qs|
  {
    if n > 0 {
      PrefixFits(c, FreeLogs(c, all, qs[0]), qs[1..], n - 1);
      assert qs[..n][1..] == qs[1..][..n - 1];
    }
  }

  lemma ReadyPrefix(c: Config, t: Table, now: real, qs: seq<Request>, n: nat)
    requires Ready(c, t, now, qs) && n <= |qs|
    ensures Ready(c, t, now, qs[..n]) && TimeAfter(now, qs[..n]) >= now
    ensures n < |qs| ==> TimeAfter(now, qs[..n]) <= qs[n].now
  {
  }

  /** Both limiters decide a run alike. */
  ghost predicate Agree(c: Config, now: real, qs: seq<Request>) {
    Ready(c, EMPTY, now, qs) ==> BoundedRun(c, EMPTY, now, qs) == FreeRun(c, map[], qs)
  }

  /** Repeating a key at the time of the last of the first `n` requests, however often. */
  function Probed(now: real, qs: seq<Request>, n: nat, key: Key, m: nat): seq<Request>
    requires n <= |qs|
  {
    qs[..n] + Probe(key, TimeAfter(now, qs[..n]), m)
  }

  ghost predicate NoProbeTellsApart(c: Config, now: real, qs: seq<Request>) {
    forall n: nat, key: Key, m: nat | n <= |qs| && key.bucket in c.limits :: Agree(c, now, Probed(now, qs, n, key, m))
  }

  lemma RunThenProbe(c: Config, now: real, qs: seq<Request>, key: Key, m: nat)
    requires Ready(c, EMPTY, now, qs) && key.bucket in c.limits
    ensures var at := TimeAfter(now, qs);
            var t, ps := TableAfter(c, EMPTY, now, qs), Probe(key, at, m);
            && Ready(c, EMPTY, now, qs + ps) && Ready(c, t, at, ps)
            && BoundedRun(c, EMPTY, now, qs + ps) == BoundedRun(c, EMPTY, now, qs) + BoundedRun(c, t, at, ps)
            && FreeRun(c, map[], qs + ps) == FreeRun(c, map[], qs) + FreeRun(c, FreeAfter(c, map[], qs), ps)
  {
    var at := TimeAfter(now, qs);
    var t, ps := TableAfter(c, EMPTY, now, qs), Probe(key, at, m);
    ReadyAfter(c, EMPTY, now, qs);
    ProbeReady(c, t, key, at, m);
    ReadyAppend(c, EMPTY, now, qs, ps);
    BoundedRunAppend(c, EMPTY, now, qs, ps);
    FreeRunAppend(c, map[], qs, ps);
  }

  lemma FittingKeysAgree(c: Config, now: real, qs: seq<Request>, key: Key, m: nat)
    requires Ready(c, EMPTY, now, qs) && key.bucket in c.limits && KeysFit(c, map[], qs)
    ensures Agree(c, now, qs + Probe(key, TimeAfter(now, qs), m))
  {
    RunThenProbe(c, now, qs, key, m);
    RunRefines(c, EMPTY, map[], now, qs);
    RunKeepsRecent(c, EMPTY, map[], now, qs, key);
    ProbesAgree(c, TableAfter(c, EMPTY, now, qs), FreeAfter(c, map[], qs), key, TimeAfter(now, qs), m);
  }

  /** The first request at which the keys do not fit. */
  lemma {:induction false} FirstMisfit(c: Config, all: map<Key, seq<real>>, qs: seq<Request>) returns (i: nat)
    requires ValidConfig(c) && Served(c, qs) && !KeysFit(c, all, qs)
    ensures i < |qs| && Served(c, qs[..i]) && KeysFit(c, all, qs[..i])
    ensures |ActiveOthers(c, FreeAfter(c, all, qs[..i]), qs[i])| >= c.maxKeys
    decreases |qs|
  {
    if |ActiveOthers(c, all, qs[0])| >= c.maxKeys {
      i := 0;
    } else {
      var j := FirstMisfit(c, FreeLogs(c, all, qs[0]), qs[1..]);
      i := j + 1;
      assert qs[..i][1..] == qs[1..][..j];
    }
  }

  lemma VictimLeaves(c: Config, t: Table, key: Key, victim: Key)
    requires ValidConfig(c) && TableOk(c, t) && Victim(c, t, key) == Some(victim)
    ensures victim != key && victim in t.logs && LogOf(Entered(c, t, key).logs, victim) == []
  {
  }

  lemma TableForgets(c: Config, t: Table, q: Request, victim: Key)
    requires ValidConfig(c) && TableOk(c, t) && q.key.bucket in c.limits && Victim(c, t, q.key) == Some(victim)
    ensures |Recent(c, AdmitTable(c, t, q).logs, victim, q.now)| == 0
  {
    VictimLeaves(c, t, q.key, victim);
    AdmitLog(c, t, q, victim);
  }

  lemma FreeRemembers(c: Config, all: map<Key, seq<real>>, q: Request, key: Key)
    requires ValidConfig(c) && q.key.bucket in c.limits && key != q.key
    ensures Recent(c, FreeLogs(c, all, q), key, q.now) == Recent(c, all, key, q.now)
  {
    FreeLog(c, all, q, key);
  }

  lemma RecentOfVictim(c: Config, t: Table, q: Request, victim: Key)
    requires ValidConfig(c) && TableOk(c, t) && ForgetsRecent(c, t, q) && Victim(c, t, q.key) == Some(victim)
    ensures 0 < |Recent(c, t.logs, victim, q.now)|
  {
  }

  /** When the keys do not fit, the table forgets a key with recent events. */
  lemma MisfitVictim(c: Config, t: Table, all: map<Key, seq<real>>, q: Request) returns (victim: Key)
    requires ValidConfig(c) && TableOk(c, t) && SameRecent(c, t, all, q.now) && |ActiveOthers(c, all, q)| >= c.maxKeys
    ensures Victim(c, t, q.key) == Some(victim) && victim != q.key && victim.bucket in c.limits
    ensures 0 < |Recent(c, all, victim, q.now)|
  {
    EvictionForgetsExactlyWhen(c, t, all, q);
    victim := Victim(c, t, q.key).value;
    VictimLeaves(c, t, q.key, victim);
    RecentOfVictim(c, t, q, victim);
    SameRecentAt(c, t, all, q.now, victim);
  }

  lemma {:induction false} AfterSnoc(c: Config, t: Table, all: map<Key, seq<real>>, now: real, qs: seq<Request>, q: Request)
    requires Ready(c, t, now, qs + [q]) && Ready(c, t, now, qs) && TableOk(c, TableAfter(c, t, now, qs)) && q.key.bucket in c.limits
    ensures TableAfter(c, t, now, qs + [q]) == AdmitTable(c, TableAfter(c, t, now, qs), q)
    ensures FreeAfter(c, all, qs + [q]) == FreeLogs(c, FreeAfter(c, all, qs), q)
    decreases |qs|
  {
    if qs == [] {
      assert qs + [q] == [q] && [q][1..] == [];
    } else {
      TailOfAppend(qs, [q]);
      StaysReady(c, t, now, qs);
      StaysReady(c, t, now, qs + [q]);
      AfterSnoc(c, AdmitTable(c, t, qs[0]), FreeLogs(c, all, qs[0]), qs[0].now, qs[1..], q);
    }
  }

  ghost predicate RecentAlike(c: Config, t: Table, all: map<Key, seq<real>>, at: real) {
    forall k :: Recent(c, t.logs, k, at) == Recent(c, all, k, at)
  }

  lemma FittingRunIsAlike(c: Config, now: real, qs: seq<Request>)
    requires Ready(c, EMPTY, now, qs) && KeysFit(c, map[], qs)
    ensures RecentAlike(c, TableAfter(c, EMPTY, now, qs), FreeAfter(c, map[], qs), TimeAfter(now, qs))
  {
    forall k ensures Recent(c, TableAfter(c, EMPTY, now, qs).logs, k, TimeAfter(now, qs)) ==
                     Recent(c, FreeAfter(c, map[], qs), k, TimeAfter(now, qs))
    {
      RunKeepsRecent(c, EMPTY, map[], now, qs, k);
    }
  }

  lemma AlikeStays(c: Config, t: Table, all: map<Key, seq<real>>, at: real, later: real)
    requires RecentAlike(c, t, all, at) && at <= later
    ensures SameRecent(c, t, all, later)
  {
    forall k ensures After(LogOf(t.logs, k), at - c.window) == After(LogOf(all, k), at - c.window) {
      assert Recent(c, t.logs, k, at) == Recent(c, all, k, at);
    }
    SameRecentLater(c, t, all, at, later);
  }

  /** The state at the first request whose keys do not fit: the limiters still hold the same recent events. */
  lemma StateAtMisfit(c: Config, now: real, qs: seq<Request>, i: nat)
    requires Ready(c, EMPTY, now, qs) && i < |qs| && Ready(c, EMPTY, now, qs[..i]) && KeysFit(c, map[], qs[..i])
    ensures TableOk(c, TableAfter(c, EMPTY, now, qs[..i]))
    ensures SameRecent(c, TableAfter(c, EMPTY, now, qs[..i]), FreeAfter(c, map[], qs[..i]), qs[i].now)
  {
    ReadyAfter(c, EMPTY, now, qs[..i]);
    ReadyPrefix(c, EMPTY, now, qs, i);
    FittingRunIsAlike(c, now, qs[..i]);
    AlikeStays(c, TableAfter(c, EMPTY, now, qs[..i]), FreeAfter(c, map[], qs[..i]), TimeAfter(now, qs[..i]), qs[i].now);
  }

  lemma SuffixesDiffer<T>(a: seq<T>, b: seq<T>, x: seq<T>, y: seq<T>)
    requires |a| == |b| && x != y
    ensures a + x != b + y
  {
    assert (a + x)[|a|..] == x && (b + y)[|a|..] == y;
  }

  lemma ForgottenKeyDiffers(c: Config, now: real, qs: seq<Request>, key: Key)
    requires Ready(c, EMPTY, now, qs) && key.bucket in c.limits
    requires |Recent(c, TableAfter(c, EMPTY, now, qs).logs, key, TimeAfter(now, qs))| == 0
    requires 0 < |Recent(c, FreeAfter(c, map[], qs), key, TimeAfter(now, qs))|
    ensures !Agree(c, now, qs + Probe(key, TimeAfter(now, qs), c.limits[key.bucket]))
  {
    var at, m := TimeAfter(now, qs), c.limits[key.bucket];
    var t, all, ps := TableAfter(c, EMPTY, now, qs), FreeAfter(c, map[], qs), Probe(key, at, m);
    RunThenProbe(c, now, qs, key, m);
    ProbesDiffer(c, t, all, key, at, m);
    FreeRunLength(c, map[], qs);
    SuffixesDiffer(BoundedRun(c, EMPTY, now, qs), FreeRun(c, map[], qs), BoundedRun(c, t, at, ps), FreeRun(c, all, ps));
  }

  lemma MisfitIsFoundOut(c: Config, now: real, before: seq<Request>, q: Request) returns (victim: Key)
    requires Ready(c, EMPTY, now, before) && Ready(c, EMPTY, now, before + [q]) && q.key.bucket in c.limits
    requires TableOk(c, TableAfter(c, EMPTY, now, before))
    requires SameRecent(c, TableAfter(c, EMPTY, now, before), FreeAfter(c, map[], before), q.now)
    requires |ActiveOthers(c, FreeAfter(c, map[], before), q)| >= c.maxKeys
    ensures victim.bucket in c.limits
    ensures !Agree(c, now, (before + [q]) + Probe(victim, q.now, c.limits[victim.bucket]))
  {
    victim := MisfitVictim(c, TableAfter(c, EMPTY, now, before), FreeAfter(c, map[], before), q);
    TableForgets(c, TableAfter(c, EMPTY, now, before), q, victim);
    FreeRemembers(c, FreeAfter(c, map[], before), q, victim);
    AfterSnoc(c, EMPTY, map[], now, before, q);
    ForgottenKeyDiffers(c, now, before + [q], victim);
  }

  /** Where the keys do not fit for the first time, repeating the evicted key up to its limit tells the limiters apart. */
  lemma MisfitTellsApart(c: Config, now: real, qs: seq<Request>) returns (n: nat, victim: Key)
    requires Ready(c, EMPTY, now, qs) && !KeysFit(c, map[], qs)
    ensures n <= |qs| && victim.bucket in c.limits
    ensures !Agree(c, now, Probed(now, qs, n, victim, c.limits[victim.bucket]))
  {
    var i := FirstMisfit(c, map[], qs);
    n := i + 1;
    ReadyPrefix(c, EMPTY, now, qs, i);
    ReadyPrefix(c, EMPTY, now, qs, n);
    StateAtMisfit(c, now, qs, i);
    SliceSnoc(qs, 0, i);
    assert qs[..n] == qs[..i] + [qs[i]];
    victim := MisfitIsFoundOut(c, now, qs[..i], qs[i]);
  }

  /**
    For every configuration and every run with a clock that does not go back: the keys fit at each request if and
    only if no key, repeated at the time of some request of the run, is decided differently by the two limiters.
   */
  lemma KeysFitExactlyWhen(c: Config, now: real, qs: seq<Request>)
    requires ValidConfig(c) && Served(c, qs) && Ticking(now, qs)
    ensures KeysFit(c, map[], qs) <==> NoProbeTellsApart(c, now, qs)
  {
    assert Ready(c, EMPTY, now, qs);
    if KeysFit(c, map[], qs) {
      forall n: nat, key: Key, m: nat | n <= |qs| && key.bucket in c.limits ensures Agree(c, now, Probed(now, qs, n, key, m)) {
        PrefixFits(c, map[], qs, n);
        ReadyPrefix(c, EMPTY, now, qs, n);
        FittingKeysAgree(c, now, qs[..n], key, m);
      }
    } else {
      var n, victim := MisfitTellsApart(c, now, qs);
      assert !Agree(c, now, Probed(now, qs, n, victim, c.limits[victim.bucket]));
    }
  }
}
