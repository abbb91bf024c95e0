/**
  The sliding-log rate limiter with its bounded key table, against an unbounded limiter that
  remembers every admission.
 */
module RateLimiter {
  import opened Common

  /** A route bucket and a client address. */
  datatype Key = Key(bucket: string, client: string)

  datatype Config = Config(limits: map<string, nat>, window: real, maxKeys: nat)

  predicate ValidConfig(c: Config) {
    c.window > 0.0 && c.maxKeys > 0 && forall b :: b in c.limits ==> c.limits[b] > 0
  }

  /** The event table: a dictionary of logs with its insertion order. */
  datatype Table = Table(order: seq<Key>, logs: map<Key, seq<real>>)

  datatype Decision = Admitted | Refused(retryAfter: int)

  datatype Request = Request(key: Key, now: real)

  // ------------------------------------------------------------------- logs

  predicate Sorted(log: seq<real>) {
    forall i, j :: 0 <= i < j < |log| ==> log[i] <= log[j]
  }

  predicate UpTo(log: seq<real>, now: real) {
    forall i :: 0 <= i < |log| ==> log[i] <= now
  }

  /** The first index from `i` on whose event is after the cutoff, or the end. */
  function FirstAfter(log: seq<real>, cutoff: real, i: nat): (n: nat)
    requires i <= |log|
    ensures i <= n <= |log|
    ensures n < |log| ==> log[n] > cutoff
    ensures forall k :: i <= k < n ==> log[k] <= cutoff
    decreases |log| - i
  {
    if i < |log| && log[i] <= cutoff then FirstAfter(log, cutoff, i + 1) else i
  }

  /** The log without the leading events that are not inside the window any more. */
  function Pruned(log: seq<real>, cutoff: real): seq<real> {
    log[FirstAfter(log, cutoff, 0)..]
  }

  /** All events after the cutoff. */
  function After(log: seq<real>, cutoff: real): seq<real> {
    if log == [] then []
    else (if log[0] > cutoff then [log[0]] else []) + After(log[1..], cutoff)
  }

  function LogOf(logs: map<Key, seq<real>>, key: Key): seq<real> {
    if key in logs then logs[key] else []
  }

  function Ceil(x: real): int {
    -((-x).Floor)
  }

  function Hint(log: seq<real>, window: real, now: real): int
    requires log != []
  {
    var wait := Ceil(log[0] + window - now);
    if wait < 1 then 1 else wait
  }

  // ----------------------------------------------------------- bounded limiter

  predicate Distinct(order: seq<Key>) {
    forall i, j :: 0 <= i < j < |order| ==> order[i] != order[j]
  }

  /** What holds between requests: the order lists the keys once, every log is usable for eviction. */
  ghost predicate TableOk(c: Config, t: Table) {
    && Distinct(t.order) && |t.order| <= c.maxKeys
    && (forall k :: k in t.order <==> k in t.logs)
    && forall k :: k in t.logs ==>
         k.bucket in c.limits && Sorted(t.logs[k]) && 0 < |t.logs[k]| <= c.limits[k.bucket]
  }

  ghost predicate NotAfter(t: Table, now: real) {
    forall k :: k in t.logs ==> UpTo(t.logs[k], now)
  }

  function Last(t: Table, k: Key): real
    requires k in t.logs && t.logs[k] != []
  {
    t.logs[k][|t.logs[k]| - 1]
  }

  predicate Usable(t: Table) {
    forall k :: k in t.order ==> k in t.logs && t.logs[k] != []
  }

  /** `min` over the table by last event: the first key in insertion order that attains the minimum. */
  function OldestIndex(t: Table, n: nat): (i: nat)
    requires 0 < n <= |t.order| && Usable(t)
    ensures i < n
    ensures forall j :: 0 <= j < n ==> Last(t, t.order[i]) <= Last(t, t.order[j])
    ensures forall j :: 0 <= j < i ==> Last(t, t.order[i]) < Last(t, t.order[j])
  {
    if n == 1 then 0
    else
      var i := OldestIndex(t, n - 1);
      if Last(t, t.order[n - 1]) < Last(t, t.order[i]) then n - 1 else i
  }

  /** The key that has to go before `key` can be entered, if any. */
  function Victim(c: Config, t: Table, key: Key): Option<Key>
    requires ValidConfig(c) && TableOk(c, t)
  {
    if key !in t.logs && |t.order| >= c.maxKeys then Some(t.order[OldestIndex(t, |t.order|)]) else None
  }

  function Without(t: Table, key: Key): Table {
    Table(Remove(t.order, key), t.logs - {key})
  }

  function Remove(order: seq<Key>, key: Key): seq<Key> {
    if order == [] then [] else (if order[0] == key then [] else [order[0]]) + Remove(order[1..], key)
  }

  function Entered(c: Config, t: Table, key: Key): Table
    requires ValidConfig(c) && TableOk(c, t)
  {
    if key in t.logs then t
    else
      var victim := Victim(c, t, key);
      var room := if victim.Some? then Without(t, victim.value) else t;
      Table(room.order + [key], room.logs[key := []])
  }

  /** A refusal leaves the pruned log as it is; an admission appends the present time. */
  function NextLog(log: seq<real>, limit: nat, now: real): seq<real> {
    if |log| >= limit then log else log + [now]
  }

  function WithLog(t: Table, key: Key, log: seq<real>): Table {
    Table(t.order, t.logs[key := log])
  }

  function AdmitTable(c: Config, t: Table, q: Request): Table
    requires ValidConfig(c) && TableOk(c, t) && q.key.bucket in c.limits
  {
    WithLog(Entered(c, t, q.key), q.key,
            NextLog(Pruned(LogOf(t.logs, q.key), q.now - c.window), c.limits[q.key.bucket], q.now))
  }

  function AdmitDecision(c: Config, t: Table, q: Request): Decision
    requires ValidConfig(c) && TableOk(c, t) && q.key.bucket in c.limits
  {
    var log := Pruned(LogOf(t.logs, q.key), q.now - c.window);
    if |log| >= c.limits[q.key.bucket] then Refused(Hint(log, c.window, q.now)) else Admitted
  }

  class Limiter {
    const config: Config
    var order: seq<Key>
    var logs: map<Key, seq<real>>

    function View(): Table
      reads this
    {
      Table(order, logs)
    }

    constructor (config: Config)
      requires ValidConfig(config)
      ensures this.config == config && View() == Table([], map[])
      ensures TableOk(config, View())
    {
      this.config := config;
      order, logs := [], map[];
    }

    /** The constructor call of the source: it raises for a configuration that cannot work. */
    static method Create(limits: map<string, nat>, window: real, maxKeys: nat) returns (r: Result<Limiter, string>)
      ensures r.Ok? <==> ValidConfig(Config(limits, window, maxKeys))
      ensures r.Ok? ==> fresh(r.value) && r.value.config == Config(limits, window, maxKeys) && r.value.View() == Table([], map[])
    {
      if window <= 0.0 { return Err("rate-limit window must be positive"); }
      if maxKeys <= 0 { return Err("rate-limit key capacity must be positive"); }
      if exists b :: b in limits && limits[b] <= 0 { return Err("rate limits must be positive"); }
      var limiter := new Limiter(Config(limits, window, maxKeys));
      return Ok(limiter);
    }

    method FindOldest() returns (oldest: Key)
      requires order != [] && Usable(View())
      ensures oldest == order[OldestIndex(View(), |order|)]
    {
      var best := 0;
      for i := 1 to |order|
        invariant best == OldestIndex(View(), i)
      {
        if Last(View(), order[i]) < Last(View(), order[best]) { best := i; }
      }
      oldest := order[best];
    }

    /** Makes an entry for a key that has none, evicting the least recent key from a full table. */
    method Enter(key: Key)
      requires ValidConfig(config) && TableOk(config, View())
      modifies this
      ensures View() == Entered(config, old(View()), key)
    {
      if key !in logs {
        if |order| >= config.maxKeys {
          var oldest := FindOldest();
          order, logs := Remove(order, oldest), logs - {oldest};
        }
        order, logs := order + [key], logs[key := []];
      }
    }

    static method Prune(log: seq<real>, cutoff: real) returns (events: seq<real>)
      ensures events == Pruned(log, cutoff)
    {
      events := log;
      ghost var popped := 0;
      while events != [] && events[0] <= cutoff
        invariant popped <= |log| && events == log[popped..]
        invariant FirstAfter(log, cutoff, popped) == FirstAfter(log, cutoff, 0)
        decreases |events|
      {
        events := events[1..];
        popped := popped + 1;
      }
    }

    /** Decides on the pruned log and stores it, with the present time if the request is admitted. */
    method Settle(key: Key, now: real, events: seq<real>) returns (decision: Decision)
      requires key.bucket in config.limits && config.limits[key.bucket] > 0
      modifies this
      ensures View() == WithLog(old(View()), key, NextLog(events, config.limits[key.bucket], now))
      ensures decision == if |events| >= config.limits[key.bucket] then Refused(Hint(events, config.window, now)) else Admitted
    {
      var limit := config.limits[key.bucket];
      if |events| >= limit {
        logs := logs[key := events];
        var wait := Ceil(events[0] + config.window - now);
        return Refused(if wait < 1 then 1 else wait);
      }
      logs := logs[key := events + [now]];
      return Admitted;
    }

    method Admit(key: Key, now: real) returns (decision: Decision)
      requires ValidConfig(config) && TableOk(config, View()) && key.bucket in config.limits
      modifies this
      ensures View() == AdmitTable(config, old(View()), Request(key, now))
      ensures decision == AdmitDecision(config, old(View()), Request(key, now))
    {
      ghost var log := LogOf(View().logs, key);
      EnteredLog(config, View(), key);
      AdmitsBy(config, View(), Request(key, now), Pruned(log, now - config.window));
      Enter(key);
      var events := Prune(logs[key], now - config.window);
      decision := Settle(key, now, events);
    }
  }

  /** What a request does once its log is pruned to `events`. */
  lemma AdmitsBy(c: Config, t: Table, q: Request, events: seq<real>)
    requires ValidConfig(c) && TableOk(c, t) && q.key.bucket in c.limits && events == Pruned(LogOf(t.logs, q.key), q.now - c.window)
    ensures AdmitTable(c, t, q) == WithLog(Entered(c, t, q.key), q.key, NextLog(events, c.limits[q.key.bucket], q.now))
    ensures AdmitDecision(c, t, q) == if |events| >= c.limits[q.key.bucket] then Refused(Hint(events, c.window, q.now)) else Admitted
  {
  }

  // -------------------------------------------------------------- table invariant

  lemma {:induction false} RemoveIsRemoval(order: seq<Key>, key: Key)
    requires Distinct(order)
    ensures Distinct(Remove(order, key))
    ensures forall k :: k in Remove(order, key) <==> k in order && k != key
    ensures |Remove(order, key)| == |order| - (if key in order then 1 else 0)
  {
    if order != [] {
      var rest := Remove(order[1..], key);
      assert Distinct(order[1..]) && order[0] !in order[1..];
      assert forall k :: k in order <==> k == order[0] || k in order[1..];
      RemoveIsRemoval(order[1..], key);
      assert Distinct([order[0]] + rest);
    }
  }

  /** Entering a key gives it an empty log, or keeps the one it has, and touches no other surviving key. */
  lemma EnteredLog(c: Config, t: Table, key: Key)
    requires ValidConfig(c) && TableOk(c, t)
    ensures var e := Entered(c, t, key);
            && key in e.logs && e.logs[key] == LogOf(t.logs, key)
            && (forall k :: k in e.logs && k != key ==> k in t.logs && e.logs[k] == t.logs[k])
            && (forall k :: k in t.logs && k !in e.logs ==> Victim(c, t, key) == Some(k))
  {
  }

  lemma EnteredOrder(c: Config, t: Table, key: Key)
    requires ValidConfig(c) && TableOk(c, t)
    ensures var e := Entered(c, t, key);
            && Distinct(e.order) && |e.order| <= c.maxKeys && forall k :: k in e.order <==> k in e.logs
  {
    if key !in t.logs {
      var victim := Victim(c, t, key);
      if victim.Some? { RemoveIsRemoval(t.order, victim.value); }
    }
  }

  lemma NextLogOk(log: seq<real>, cutoff: real, limit: nat, now: real)
    requires Sorted(log) && |log| <= limit && 0 < limit && UpTo(log, now)
    ensures var next := NextLog(Pruned(log, cutoff), limit, now);
            Sorted(next) && 0 < |next| <= limit && UpTo(next, now)
  {
  }

  /** A log usable for eviction. */
  predicate LogOk(c: Config, k: Key, log: seq<real>, now: real) {
    k.bucket in c.limits && Sorted(log) && 0 < |log| <= c.limits[k.bucket] && UpTo(log, now)
  }

  lemma EnteredOthers(c: Config, t: Table, key: Key, now: real)
    requires ValidConfig(c) && TableOk(c, t) && NotAfter(t, now)
    ensures forall k :: k in Entered(c, t, key).logs && k != key ==> LogOk(c, k, Entered(c, t, key).logs[k], now)
  {
    EnteredLog(c, t, key);
  }

  lemma WithLogOk(c: Config, e: Table, key: Key, log: seq<real>, now: real)
    requires Distinct(e.order) && |e.order| <= c.maxKeys && (forall k :: k in e.order <==> k in e.logs) && key in e.logs
    requires forall k :: k in e.logs && k != key ==> LogOk(c, k, e.logs[k], now)
    requires LogOk(c, key, log, now)
    ensures TableOk(c, WithLog(e, key, log)) && NotAfter(WithLog(e, key, log), now)
  {
  }

  /** One request keeps the table usable: the eviction never meets an empty log. */
  lemma AdmitKeepsTable(c: Config, t: Table, q: Request)
    requires ValidConfig(c) && TableOk(c, t) && q.key.bucket in c.limits && NotAfter(t, q.now)
    ensures TableOk(c, AdmitTable(c, t, q)) && NotAfter(AdmitTable(c, t, q), q.now)
  {
    EnteredLog(c, t, q.key);
    EnteredOrder(c, t, q.key);
    EnteredOthers(c, t, q.key, q.now);
    NextLogOk(LogOf(t.logs, q.key), q.now - c.window, c.limits[q.key.bucket], q.now);
    WithLogOk(c, Entered(c, t, q.key), q.key,
              NextLog(Pruned(LogOf(t.logs, q.key), q.now - c.window), c.limits[q.key.bucket], q.now), q.now);
  }

  // ------------------------------------------------------- unbounded limiter

  /** The reference: every admission is remembered for ever. */
  function FreeDecision(c: Config, all: map<Key, seq<real>>, q: Request): Decision
    requires ValidConfig(c) && q.key.bucket in c.limits
  {
    var recent := After(LogOf(all, q.key), q.now - c.window);
    if |recent| >= c.limits[q.key.bucket] then Refused(Hint(recent, c.window, q.now)) else Admitted
  }

  function FreeLogs(c: Config, all: map<Key, seq<real>>, q: Request): map<Key, seq<real>>
    requires ValidConfig(c) && q.key.bucket in c.limits
  {
    if FreeDecision(c, all, q).Admitted? then all[q.key := LogOf(all, q.key) + [q.now]] else all
  }

  predicate Served(c: Config, qs: seq<Request>) {
    forall i :: 0 <= i < |qs| ==> qs[i].key.bucket in c.limits
  }

  function FreeRun(c: Config, all: map<Key, seq<real>>, qs: seq<Request>): seq<Decision>
    requires ValidConfig(c) && Served(c, qs)
    decreases |qs|
  {
    if qs == [] then [] else [FreeDecision(c, all, qs[0])] + FreeRun(c, FreeLogs(c, all, qs[0]), qs[1..])
  }

  /** The clock never goes back. */
  predicate Ticking(now: real, qs: seq<Request>) {
    && (qs != [] ==> now <= qs[0].now)
    && forall i, j :: 0 <= i < j < |qs| ==> qs[i].now <= qs[j].now
  }

  /** The keys other than the requested one with an admission inside the window. */
  function ActiveOthers(c: Config, all: map<Key, seq<real>>, q: Request): set<Key> {
    set k | k in all && k != q.key && After(all[k], q.now - c.window) != []
  }

  /** At each request of the run fewer than `maxKeys` other keys are active. */
  predicate KeysFit(c: Config, all: map<Key, seq<real>>, qs: seq<Request>)
    requires ValidConfig(c) && Served(c, qs)
    decreases |qs|
  {
    qs == [] || (|ActiveOthers(c, all, qs[0])| < c.maxKeys && KeysFit(c, FreeLogs(c, all, qs[0]), qs[1..]))
  }

  /** A table, the time of the last request and the requests still to come. */
  ghost predicate Ready(c: Config, t: Table, now: real, qs: seq<Request>) {
    ValidConfig(c) && Served(c, qs) && Ticking(now, qs) && TableOk(c, t) && NotAfter(t, now)
  }

  lemma StaysReady(c: Config, t: Table, now: real, qs: seq<Request>)
    requires Ready(c, t, now, qs) && qs != []
    ensures Ready(c, AdmitTable(c, t, qs[0]), qs[0].now, qs[1..]) && NotAfter(t, qs[0].now)
  {
    AdmitKeepsTable(c, t, qs[0]);
  }

  function BoundedRun(c: Config, t: Table, now: real, qs: seq<Request>): (r: seq<Decision>)
    requires Ready(c, t, now, qs)
    ensures |r| == |qs|
    decreases |qs|
  {
    if qs == [] then []
    else
      StaysReady(c, t, now, qs);
      [AdmitDecision(c, t, qs[0])] + BoundedRun(c, AdmitTable(c, t, qs[0]), qs[0].now, qs[1..])
  }

  // --------------------------------------------------------------- refinement

  lemma {:induction false} AfterAppend(a: seq<real>, b: seq<real>, cutoff: real)
    ensures After(a + b, cutoff) == After(a, cutoff) + After(b, cutoff)
  {
    if a == [] {
      assert a + b == b;
    } else {
      TailOfAppend(a, b);
      AfterAppend(a[1..], b, cutoff);
      Assoc(if a[0] > cutoff then [a[0]] else [], After(a[1..], cutoff), After(b, cutoff));
    }
  }

  lemma {:induction false} AfterIsEverything(log: seq<real>, cutoff: real)
    requires forall i :: 0 <= i < |log| ==> log[i] > cutoff
    ensures After(log, cutoff) == log
  {
    if log != [] { AfterIsEverything(log[1..], cutoff); }
  }

  lemma {:induction false} AfterIsNothing(log: seq<real>, cutoff: real)
    requires UpTo(log, cutoff)
    ensures After(log, cutoff) == []
  {
    if log != [] { AfterIsNothing(log[1..], cutoff); }
  }

  lemma AfterOfSplit(log: seq<real>, past: seq<real>, recent: seq<real>, cutoff: real)
    requires log == past + recent && UpTo(past, cutoff) && forall i :: 0 <= i < |recent| ==> recent[i] > cutoff
    ensures After(log, cutoff) == recent
  {
    AfterAppend(past, recent, cutoff);
    AfterIsNothing(past, cutoff);
    AfterIsEverything(recent, cutoff);
  }

  /** Pruning a sorted log keeps exactly what is after the cutoff. */
  lemma PrunedIsAfter(log: seq<real>, cutoff: real)
    requires Sorted(log)
    ensures Pruned(log, cutoff) == After(log, cutoff)
  {
    var n := FirstAfter(log, cutoff, 0);
    TakeDrop(log, n);
    RecentPart(log, cutoff, n);
    AfterOfSplit(log, log[..n], log[n..], cutoff);
  }

  lemma RecentPart(log: seq<real>, cutoff: real, n: nat)
    requires Sorted(log) && n <= |log| && (n < |log| ==> log[n] > cutoff) && forall k :: 0 <= k < n ==> log[k] <= cutoff
    ensures UpTo(log[..n], cutoff) && forall i :: 0 <= i < |log[n..]| ==> log[n..][i] > cutoff
  {
  }

  /** A later cutoff can be applied to what an earlier one kept. */
  lemma {:induction false} AfterTwice(log: seq<real>, early: real, late: real)
    requires early <= late
    ensures After(After(log, early), late) == After(log, late)
  {
    if log != [] {
      AfterTwice(log[1..], early, late);
      AfterAppend(if log[0] > early then [log[0]] else [], After(log[1..], early), late);
    }
  }

  /** Both limiters hold the same events inside the window, for every key. */
  ghost predicate SameRecent(c: Config, t: Table, all: map<Key, seq<real>>, now: real) {
    forall k :: After(LogOf(t.logs, k), now - c.window) == After(LogOf(all, k), now - c.window)
  }

  lemma AfterLater(a: seq<real>, b: seq<real>, early: real, late: real)
    requires early <= late && After(a, early) == After(b, early)
    ensures After(a, late) == After(b, late)
  {
    AfterTwice(a, early, late);
    AfterTwice(b, early, late);
  }

  lemma SameRecentLater(c: Config, t: Table, all: map<Key, seq<real>>, now: real, later: real)
    requires SameRecent(c, t, all, now) && now <= later
    ensures SameRecent(c, t, all, later)
  {
    forall k ensures After(LogOf(t.logs, k), later - c.window) == After(LogOf(all, k), later - c.window) {
      SameRecentAt(c, t, all, now, k);
      AfterLater(LogOf(t.logs, k), LogOf(all, k), now - c.window, later - c.window);
    }
  }

  lemma LastDecides(log: seq<real>, cutoff: real)
    requires log != []
    ensures log[|log| - 1] > cutoff ==> After(log, cutoff) != []
    ensures Sorted(log) && log[|log| - 1] <= cutoff ==> After(log, cutoff) == []
  {
    var n := |log| - 1;
    assert log == log[..n] + [log[n]];
    AfterAppend(log[..n], [log[n]], cutoff);
    if Sorted(log) && log[n] <= cutoff { AfterIsNothing(log, cutoff); }
  }

  lemma SubsetSize<T>(a: set<T>, b: set<T>)
    requires a <= b
    ensures |a| <= |b| && (|a| == |b| ==> a == b)
  {
    assert b == a + (b - a);
  }

  lemma {:induction false} OrderSize(order: seq<Key>, keys: set<Key>)
    requires Distinct(order) && forall k :: k in order ==> k in keys
    ensures |order| <= |keys|
  {
    if order != [] {
      assert forall k :: k in order[1..] ==> k in order;
      OrderSize(order[1..], keys - {order[0]});
    }
  }

  lemma VictimIsOldest(c: Config, t: Table, key: Key, victim: Key, k: Key)
    requires ValidConfig(c) && TableOk(c, t) && Victim(c, t, key) == Some(victim) && k in t.order
    ensures victim in t.logs && key !in t.logs && Last(t, victim) <= Last(t, k)
  {
    var i := OldestIndex(t, |t.order|);
    var j :| 0 <= j < |t.order| && t.order[j] == k;
    assert Last(t, t.order[i]) <= Last(t, t.order[j]);
  }

  lemma ActiveByLog(c: Config, logs: map<Key, seq<real>>, all: map<Key, seq<real>>, q: Request, k: Key)
    requires k != q.key && After(LogOf(logs, k), q.now - c.window) == After(LogOf(all, k), q.now - c.window) != []
    ensures k in ActiveOthers(c, all, q)
  {
  }

  lemma RecentByLast(c: Config, t: Table, k: Key, cutoff: real)
    requires TableOk(c, t) && k in t.order && Last(t, k) > cutoff
    ensures k in t.logs && After(LogOf(t.logs, k), cutoff) != []
  {
    LastDecides(t.logs[k], cutoff);
  }

  lemma StillActive(c: Config, t: Table, all: map<Key, seq<real>>, q: Request, victim: Key, k: Key)
    requires ValidConfig(c) && TableOk(c, t) && SameRecent(c, t, all, q.now) && Victim(c, t, q.key) == Some(victim)
    requires Last(t, victim) > q.now - c.window && k in t.order
    ensures k in ActiveOthers(c, all, q)
  {
    VictimIsOldest(c, t, q.key, victim, k);
    RecentByLast(c, t, k, q.now - c.window);
    SameRecentAt(c, t, all, q.now, k);
    ActiveByLog(c, t.logs, all, q, k);
  }

  lemma VictimOfFullTable(c: Config, t: Table, key: Key, victim: Key)
    requires ValidConfig(c) && TableOk(c, t) && Victim(c, t, key) == Some(victim)
    ensures victim in t.logs && t.logs[victim] != [] && Sorted(t.logs[victim]) && |t.order| >= c.maxKeys && key !in t.logs
  {
  }

  lemma RecentVictimMeansAllActive(c: Config, t: Table, all: map<Key, seq<real>>, q: Request, victim: Key)
    requires ValidConfig(c) && TableOk(c, t) && SameRecent(c, t, all, q.now) && Victim(c, t, q.key) == Some(victim)
    requires Last(t, victim) > q.now - c.window
    ensures |t.order| <= |ActiveOthers(c, all, q)|
  {
    forall k | k in t.order ensures k in ActiveOthers(c, all, q) {
      StillActive(c, t, all, q, victim, k);
    }
    OrderSize(t.order, ActiveOthers(c, all, q));
  }

  /** While fewer than `maxKeys` other keys are active, only a key whose whole log has expired is evicted. */
  lemma EvictionIsHarmless(c: Config, t: Table, all: map<Key, seq<real>>, q: Request, victim: Key)
    requires ValidConfig(c) && TableOk(c, t) && SameRecent(c, t, all, q.now)
    requires |ActiveOthers(c, all, q)| < c.maxKeys && Victim(c, t, q.key) == Some(victim)
    ensures victim in t.logs && After(t.logs[victim], q.now - c.window) == []
  {
    VictimOfFullTable(c, t, q.key, victim);
    LastDecides(t.logs[victim], q.now - c.window);
    if Last(t, victim) > q.now - c.window { RecentVictimMeansAllActive(c, t, all, q, victim); }
  }

  /** What an eviction for a request would forget: an event that is still inside the window. */
  predicate ForgetsRecent(c: Config, t: Table, q: Request)
    requires ValidConfig(c) && TableOk(c, t)
  {
    var victim := Victim(c, t, q.key);
    victim.Some? && After(t.logs[victim.value], q.now - c.window) != []
  }

  lemma {:induction false} KeysOfOrder(order: seq<Key>, keys: set<Key>)
    requires Distinct(order) && forall k :: k in order <==> k in keys
    ensures |keys| == |order|
  {
    if order == [] {
      assert keys == {};
    } else {
      assert order[0] in keys && forall k :: k in order[1..] <==> k in keys - {order[0]};
      KeysOfOrder(order[1..], keys - {order[0]});
    }
  }

  lemma ActiveIsStored(c: Config, t: Table, all: map<Key, seq<real>>, q: Request, k: Key)
    requires TableOk(c, t) && SameRecent(c, t, all, q.now) && k in ActiveOthers(c, all, q)
    ensures k in t.order && k in t.logs && After(t.logs[k], q.now - c.window) != []
  {
    SameRecentAt(c, t, all, q.now, k);
  }

  /** When the keys do not fit they fill the table, so entering the requested key forgets one of them. */
  lemma ActiveKeysFillTheTable(c: Config, t: Table, all: map<Key, seq<real>>, q: Request)
    requires ValidConfig(c) && TableOk(c, t) && SameRecent(c, t, all, q.now) && |ActiveOthers(c, all, q)| >= c.maxKeys
    ensures q.key !in t.logs && ForgetsRecent(c, t, q)
  {
    var active := ActiveOthers(c, all, q);
    forall k | k in active ensures k in t.logs.Keys {
      ActiveIsStored(c, t, all, q, k);
    }
    KeysOfOrder(t.order, t.logs.Keys);
    SubsetSize(active, t.logs.Keys);
    var victim := t.order[OldestIndex(t, |t.order|)];
    assert victim in active;
    ActiveIsStored(c, t, all, q, victim);
  }

  /** An eviction forgets an event that is still inside the window exactly when the keys do not fit. */
  lemma EvictionForgetsExactlyWhen(c: Config, t: Table, all: map<Key, seq<real>>, q: Request)
    requires ValidConfig(c) && TableOk(c, t) && SameRecent(c, t, all, q.now)
    ensures ForgetsRecent(c, t, q) <==> |ActiveOthers(c, all, q)| >= c.maxKeys
  {
    if |ActiveOthers(c, all, q)| >= c.maxKeys {
      ActiveKeysFillTheTable(c, t, all, q);
    } else if Victim(c, t, q.key).Some? {
      EvictionIsHarmless(c, t, all, q, Victim(c, t, q.key).value);
    }
  }

  lemma EnteringKeepsRecent(c: Config, t: Table, all: map<Key, seq<real>>, q: Request)
    requires ValidConfig(c) && TableOk(c, t) && SameRecent(c, t, all, q.now)
    requires |ActiveOthers(c, all, q)| < c.maxKeys
    ensures SameRecent(c, Entered(c, t, q.key), all, q.now)
  {
    EnteredLog(c, t, q.key);
    var e := Entered(c, t, q.key);
    forall k ensures After(LogOf(e.logs, k), q.now - c.window) == After(LogOf(all, k), q.now - c.window) {
      assert After(LogOf(t.logs, k), q.now - c.window) == After(LogOf(all, k), q.now - c.window);
      if k in t.logs && k !in e.logs { EvictionIsHarmless(c, t, all, q, k); }
    }
  }

  lemma NextRecent(log: seq<real>, all: seq<real>, cutoff: real, limit: nat, now: real)
    requires Sorted(log) && After(log, cutoff) == After(all, cutoff) && cutoff < now
    ensures Pruned(log, cutoff) == After(all, cutoff)
    ensures After(NextLog(Pruned(log, cutoff), limit, now), cutoff) ==
            After(if |After(all, cutoff)| < limit then all + [now] else all, cutoff)
  {
    PrunedIsAfter(log, cutoff);
    AfterTwice(log, cutoff, cutoff);
    AfterAppend(Pruned(log, cutoff), [now], cutoff);
    AfterAppend(all, [now], cutoff);
  }

  lemma AdmitLog(c: Config, t: Table, q: Request, k: Key)
    requires ValidConfig(c) && TableOk(c, t) && q.key.bucket in c.limits
    ensures LogOf(AdmitTable(c, t, q).logs, k) ==
            if k == q.key then NextLog(Pruned(LogOf(t.logs, k), q.now - c.window), c.limits[k.bucket], q.now)
            else LogOf(Entered(c, t, q.key).logs, k)
  {
  }

  lemma FreeLog(c: Config, all: map<Key, seq<real>>, q: Request, k: Key)
    requires ValidConfig(c) && q.key.bucket in c.limits
    ensures LogOf(FreeLogs(c, all, q), k) ==
            if k == q.key && |After(LogOf(all, k), q.now - c.window)| < c.limits[k.bucket] then LogOf(all, k) + [q.now]
            else LogOf(all, k)
  {
  }

  lemma RecentOfRequested(c: Config, t: Table, all: map<Key, seq<real>>, q: Request)
    requires ValidConfig(c) && TableOk(c, t) && q.key.bucket in c.limits
    requires After(LogOf(t.logs, q.key), q.now - c.window) == After(LogOf(all, q.key), q.now - c.window)
    ensures After(LogOf(AdmitTable(c, t, q).logs, q.key), q.now - c.window) ==
            After(LogOf(FreeLogs(c, all, q), q.key), q.now - c.window)
  {
    var log, full, cutoff, limit := LogOf(t.logs, q.key), LogOf(all, q.key), q.now - c.window, c.limits[q.key.bucket];
    NextRecent(log, full, cutoff, limit, q.now);
    AdmitLog(c, t, q, q.key);
    assert LogOf(AdmitTable(c, t, q).logs, q.key) == NextLog(Pruned(log, cutoff), limit, q.now);
    FreeLog(c, all, q, q.key);
    assert LogOf(FreeLogs(c, all, q), q.key) == if |After(full, cutoff)| < limit then full + [q.now] else full;
  }

  lemma RecentAfterRequest(c: Config, t: Table, all: map<Key, seq<real>>, q: Request, k: Key)
    requires ValidConfig(c) && TableOk(c, t) && q.key.bucket in c.limits
    requires k == q.key ==> After(LogOf(t.logs, k), q.now - c.window) == After(LogOf(all, k), q.now - c.window)
    requires k != q.key ==> After(LogOf(Entered(c, t, q.key).logs, k), q.now - c.window) == After(LogOf(all, k), q.now - c.window)
    ensures After(LogOf(AdmitTable(c, t, q).logs, k), q.now - c.window) ==
            After(LogOf(FreeLogs(c, all, q), k), q.now - c.window)
  {
    if k == q.key {
      RecentOfRequested(c, t, all, q);
    } else {
      AdmitLog(c, t, q, k);
      FreeLog(c, all, q, k);
    }
  }

  lemma SameRecentAt(c: Config, t: Table, all: map<Key, seq<real>>, now: real, k: Key)
    requires SameRecent(c, t, all, now)
    ensures After(LogOf(t.logs, k), now - c.window) == After(LogOf(all, k), now - c.window)
  {
  }

  lemma SameDecision(c: Config, t: Table, all: map<Key, seq<real>>, q: Request)
    requires ValidConfig(c) && TableOk(c, t) && q.key.bucket in c.limits
    requires After(LogOf(t.logs, q.key), q.now - c.window) == After(LogOf(all, q.key), q.now - c.window)
    ensures AdmitDecision(c, t, q) == FreeDecision(c, all, q)
  {
    PrunedIsAfter(LogOf(t.logs, q.key), q.now - c.window);
  }

  /** One request: the same decision with the same hint, and the same recent events afterwards. */
  lemma RequestRefines(c: Config, t: Table, all: map<Key, seq<real>>, q: Request)
    requires ValidConfig(c) && TableOk(c, t) && q.key.bucket in c.limits
    requires SameRecent(c, t, all, q.now) && |ActiveOthers(c, all, q)| < c.maxKeys
    ensures AdmitDecision(c, t, q) == FreeDecision(c, all, q)
    ensures SameRecent(c, AdmitTable(c, t, q), FreeLogs(c, all, q), q.now)
  {
    SameRecentAt(c, t, all, q.now, q.key);
    SameDecision(c, t, all, q);
    EnteringKeepsRecent(c, t, all, q);
    forall k ensures After(LogOf(AdmitTable(c, t, q).logs, k), q.now - c.window) ==
                     After(LogOf(FreeLogs(c, all, q), k), q.now - c.window)
    {
      SameRecentAt(c, Entered(c, t, q.key), all, q.now, k);
      RecentAfterRequest(c, t, all, q, k);
    }
  }

  lemma {:induction false} RunRefines(c: Config, t: Table, all: map<Key, seq<real>>, now: real, qs: seq<Request>)
    requires Ready(c, t, now, qs) && SameRecent(c, t, all, now) && KeysFit(c, all, qs)
    ensures BoundedRun(c, t, now, qs) == FreeRun(c, all, qs)
    decreases |qs|
  {
    if qs != [] {
      StaysReady(c, t, now, qs);
      SameRecentLater(c, t, all, now, qs[0].now);
      RequestRefines(c, t, all, qs[0]);
      RunRefines(c, AdmitTable(c, t, qs[0]), FreeLogs(c, all, qs[0]), qs[0].now, qs[1..]);
    }
  }

  /**
    The bounded table is only a cache: as long as at each request fewer than `maxKeys` other keys have
    an admission inside the window, a run from the start gives the unbounded limiter's decisions.
   */
  lemma BoundedRefinesUnbounded(c: Config, now: real, qs: seq<Request>)
    requires ValidConfig(c) && Served(c, qs) && Ticking(now, qs) && KeysFit(c, map[], qs)
    ensures BoundedRun(c, Table([], map[]), now, qs) == FreeRun(c, map[], qs)
  {
    RunRefines(c, Table([], map[]), map[], now, qs);
  }

  /** Room for one key and one request per window of a minute. */
  ghost predicate Cramped(c: Config, a: Key, b: Key) {
    && ValidConfig(c) && c.maxKeys == 1 && c.window == 60.0
    && a != b && a.bucket == b.bucket && a.bucket in c.limits && c.limits[a.bucket] == 1
  }

  lemma NothingToPrune(log: seq<real>, cutoff: real, now: real)
    requires |log| == 0
    ensures |Pruned(log, cutoff)| == 0 && log + [now] == [now]
  {
    var n := FirstAfter(log, cutoff, 0);
    assert n <= |log|;
  }

  lemma EmptyTableEnters(c: Config, t: Table, key: Key)
    requires ValidConfig(c) && TableOk(c, t) && |t.order| == 0
    ensures Entered(c, t, key) == Table([key], t.logs[key := []]) && |LogOf(t.logs, key)| == 0
  {
    assert key !in t.order;
    assert t.order + [key] == [key];
  }

  lemma FirstEvent(log: seq<real>, limit: nat, cutoff: real, now: real)
    requires |log| == 0 && limit > 0
    ensures NextLog(Pruned(log, cutoff), limit, now) == [now]
  {
    NothingToPrune(log, cutoff, now);
    assert Pruned(log, cutoff) == log;
  }

  lemma FirstIsAdmitted(c: Config, a: Key, b: Key, t: Table)
    requires Cramped(c, a, b) && |t.order| == 0 && t.logs == map[]
    ensures AdmitTable(c, t, Request(a, 0.0)) == Table([a], map[a := [0.0]])
  {
    EmptyTableEnters(c, t, a);
    FirstEvent(LogOf(t.logs, a), c.limits[a.bucket], 0.0 - c.window, 0.0);
    OnlyEntry(t.logs, a, [0.0]);
  }

  lemma OnlyEntry(logs: map<Key, seq<real>>, key: Key, log: seq<real>)
    requires logs == map[]
    ensures logs[key := []][key := log] == map[key := log]
  {
  }

  lemma SecondTakesThePlace(c: Config, a: Key, b: Key, t: Table)
    requires Cramped(c, a, b) && TableOk(c, t) && t.order == [a] && t.logs.Keys == {a}
    ensures Entered(c, t, b) == Table([b], map[b := []]) && |LogOf(t.logs, b)| == 0
  {
    var room := Without(t, a);
    assert t.order[0] == a && t.order[1..] == [];
    assert Remove(t.order[1..], a) == [];
    assert |room.order| == 0;
    assert room.logs.Keys == {};
    assert room.order + [b] == [b];
    assert Victim(c, t, b) == Some(a);
  }

  lemma SecondEvictsFirst(c: Config, a: Key, b: Key, t: Table)
    requires Cramped(c, a, b) && TableOk(c, t) && t.order == [a] && t.logs.Keys == {a}
    ensures AdmitTable(c, t, Request(b, 1.0)) == Table([b], map[b := [1.0]])
  {
    SecondTakesThePlace(c, a, b, t);
    FirstEvent(LogOf(t.logs, b), c.limits[b.bucket], 1.0 - c.window, 1.0);
    assert map[b := []][b := [1.0]] == map[b := [1.0]];
  }

  lemma OneKeyIsOk(c: Config, key: Key, at: real)
    requires ValidConfig(c) && key.bucket in c.limits
    ensures TableOk(c, Table([key], map[key := [at]]))
  {
  }

  lemma FirstIsAdmittedAgain(c: Config, a: Key, b: Key, t: Table)
    requires Cramped(c, a, b) && t == Table([b], map[b := [1.0]])
    ensures AdmitDecision(c, t, Request(a, 2.0)) == Admitted
  {
    assert a !in t.logs;
    NothingToPrune(LogOf(t.logs, a), 2.0 - c.window, 2.0);
  }

  lemma FreeFirstEvent(c: Config, all: map<Key, seq<real>>, q: Request)
    requires ValidConfig(c) && q.key.bucket in c.limits && |LogOf(all, q.key)| == 0
    ensures FreeLogs(c, all, q) == all[q.key := [q.now]]
  {
    assert After(LogOf(all, q.key), q.now - c.window) == [] && LogOf(all, q.key) + [q.now] == [q.now];
  }

  lemma FreeSecondEvent(c: Config, all: map<Key, seq<real>>, q: Request, at: real)
    requires ValidConfig(c) && q.key.bucket in c.limits && c.limits[q.key.bucket] == 1
    requires LogOf(all, q.key) == [at] && at > q.now - c.window
    ensures FreeDecision(c, all, q) == Refused(Hint([at], c.window, q.now))
  {
    assert [at][1..] == [];
    assert After([at], q.now - c.window) == [at];
  }

  lemma UnboundedRefuses(c: Config, a: Key, b: Key)
    requires Cramped(c, a, b)
    ensures FreeLogs(c, map[], Request(a, 0.0)) == map[a := [0.0]]
    ensures FreeLogs(c, map[a := [0.0]], Request(b, 1.0)) == map[a := [0.0], b := [1.0]]
    ensures FreeDecision(c, map[a := [0.0], b := [1.0]], Request(a, 2.0)) == Refused(58)
  {
    FreeFirstEvent(c, map[], Request(a, 0.0));
    FreeFirstEvent(c, map[a := [0.0]], Request(b, 1.0));
    FreeSecondEvent(c, map[a := [0.0], b := [1.0]], Request(a, 2.0), 0.0);
    assert Hint([0.0], 60.0, 2.0) == 58;
  }

  /**
    Without that bound the cache forgets: with room for one key and one request per window, the second
    key evicts the first, whose next request is then admitted although it must wait 58 seconds.
   */
  lemma ForgetsWhenKeysDoNotFit(c: Config, a: Key, b: Key)
    requires Cramped(c, a, b)
    ensures TableOk(c, Table([a], map[a := [0.0]])) && TableOk(c, Table([b], map[b := [1.0]]))
    ensures var t1, t2 := Table([a], map[a := [0.0]]), Table([b], map[b := [1.0]]);
            && AdmitTable(c, Table([], map[]), Request(a, 0.0)) == t1
            && AdmitTable(c, t1, Request(b, 1.0)) == t2
            && AdmitDecision(c, t2, Request(a, 2.0)) == Admitted
    ensures FreeLogs(c, FreeLogs(c, map[], Request(a, 0.0)), Request(b, 1.0)) == map[a := [0.0], b := [1.0]]
    ensures FreeDecision(c, map[a := [0.0], b := [1.0]], Request(a, 2.0)) == Refused(58)
  {
    OneKeyIsOk(c, a, 0.0);
    OneKeyIsOk(c, b, 1.0);
    FirstIsAdmitted(c, a, b, Table([], map[]));
    SecondEvictsFirst(c, a, b, Table([a], map[a := [0.0]]));
    FirstIsAdmittedAgain(c, a, b, Table([b], map[b := [1.0]]));
    UnboundedRefuses(c, a, b);
  }

  // --------------------------------------------------------- window guarantee

  /** The admissions of each key in the table since the key was last evicted. */
  function NextHistory(c: Config, t: Table, h: map<Key, seq<real>>, q: Request): map<Key, seq<real>>
    requires ValidConfig(c) && TableOk(c, t) && q.key.bucket in c.limits
  {
    var victim := Victim(c, t, q.key);
    var kept := if victim.Some? then h - {victim.value} else h;
    var before := LogOf(kept, q.key);
    kept[q.key := if AdmitDecision(c, t, q).Admitted? then before + [q.now] else before]
  }

  function HistoryAfter(c: Config, t: Table, h: map<Key, seq<real>>, now: real, qs: seq<Request>): map<Key, seq<real>>
    requires Ready(c, t, now, qs)
    decreases |qs|
  {
    if qs == [] then h
    else
      StaysReady(c, t, now, qs);
      HistoryAfter(c, AdmitTable(c, t, qs[0]), NextHistory(c, t, h, qs[0]), qs[0].now, qs[1..])
  }

  /** Any `limit` + 1 consecutive admissions span at least a window. */
  predicate Spaced(history: seq<real>, limit: nat, window: real) {
    forall i :: 0 <= i < |history| - limit ==> history[i] + window <= history[i + limit]
  }

  /** The log is the recent end of the history; everything before it has left the window. */
  predicate Remembers(history: seq<real>, log: seq<real>, limit: nat, window: real, now: real) {
    && |log| <= |history| && log == history[|history| - |log|..]
    && UpTo(history[..|history| - |log|], now - window)
    && Sorted(history) && UpTo(history, now) && Spaced(history, limit, window)
  }

  /** Pruning moves events that have left the window from the log to the forgotten part. */
  lemma RemembersPruned(history: seq<real>, log: seq<real>, limit: nat, window: real, before: real, now: real)
    requires Remembers(history, log, limit, window, before) && before <= now
    ensures Remembers(history, Pruned(log, now - window), limit, window, now)
  {
    var kept := Pruned(log, now - window);
    var gone, start := |history| - |kept|, |history| - |log|;
    assert kept == history[gone..];
    forall i | 0 <= i < gone ensures history[i] <= now - window {
      if i < start { assert history[i] == history[..start][i]; } else { assert history[i] == log[i - start]; }
    }
  }

  /** An admission with fewer than `limit` events in the log comes a window after the one `limit` before it. */
  lemma RemembersAdmitted(history: seq<real>, log: seq<real>, limit: nat, window: real, now: real)
    requires Remembers(history, log, limit, window, now) && |log| < limit && 0.0 < window
    ensures Remembers(history + [now], log + [now], limit, window, now)
  {
    var h, gone := history + [now], |history| - |log|;
    assert h[..gone] == history[..gone] && h[gone..] == log + [now];
    if limit <= |history| {
      assert history[..gone][|history| - limit] <= now - window;
    }
    assert Spaced(h, limit, window);
  }

  lemma RemembersNext(history: seq<real>, log: seq<real>, limit: nat, window: real, before: real, now: real)
    requires Remembers(history, log, limit, window, before) && before <= now && 0.0 < window
    ensures var kept := Pruned(log, now - window);
            Remembers(if |kept| < limit then history + [now] else history, NextLog(kept, limit, now), limit, window, now)
  {
    RemembersPruned(history, log, limit, window, before, now);
    var kept := Pruned(log, now - window);
    if |kept| < limit { RemembersAdmitted(history, kept, limit, window, now); }
  }

  ghost predicate HistoryOk(c: Config, t: Table, h: map<Key, seq<real>>, now: real) {
    && h.Keys == t.logs.Keys
    && forall k :: k in t.logs ==>
         k.bucket in c.limits && Remembers(h[k], t.logs[k], c.limits[k.bucket], c.window, now)
  }

  lemma HistoryLog(c: Config, t: Table, h: map<Key, seq<real>>, q: Request, k: Key)
    requires ValidConfig(c) && TableOk(c, t) && q.key.bucket in c.limits && h.Keys == t.logs.Keys
    requires k in AdmitTable(c, t, q).logs
    ensures k in NextHistory(c, t, h, q) && k.bucket in c.limits
    ensures NextHistory(c, t, h, q)[k] ==
            if k == q.key && AdmitDecision(c, t, q).Admitted? then LogOf(h, k) + [q.now] else LogOf(h, k)
    ensures k == q.key || k in t.logs
  {
    EnteredLog(c, t, q.key);
  }

  /** What `HistoryOk` says about one key, whether or not the table holds it. */
  lemma RemembersOf(c: Config, t: Table, h: map<Key, seq<real>>, now: real, k: Key)
    requires HistoryOk(c, t, h, now) && k.bucket in c.limits
    ensures Remembers(LogOf(h, k), LogOf(t.logs, k), c.limits[k.bucket], c.window, now)
  {
  }

  lemma CountDecides(c: Config, t: Table, q: Request)
    requires ValidConfig(c) && TableOk(c, t) && q.key.bucket in c.limits
    ensures AdmitDecision(c, t, q).Admitted? <==> |Pruned(LogOf(t.logs, q.key), q.now - c.window)| < c.limits[q.key.bucket]
  {
  }

  lemma HistoryOfLog(history: seq<real>, log: seq<real>, kept: seq<real>, admitted: bool, limit: nat, window: real, before: real, now: real)
    requires Remembers(history, log, limit, window, before) && before <= now && 0.0 < window
    requires kept == Pruned(log, now - window) && (admitted <==> |kept| < limit)
    ensures Remembers(if admitted then history + [now] else history, NextLog(kept, limit, now), limit, window, now)
  {
    RemembersNext(history, log, limit, window, before, now);
  }

  lemma HistoryOfRequestedKey(c: Config, t: Table, h: map<Key, seq<real>>, before: real, q: Request)
    requires ValidConfig(c) && TableOk(c, t) && q.key.bucket in c.limits && before <= q.now
    requires Remembers(LogOf(h, q.key), LogOf(t.logs, q.key), c.limits[q.key.bucket], c.window, before)
    ensures var history := LogOf(h, q.key);
            Remembers(if AdmitDecision(c, t, q).Admitted? then history + [q.now] else history,
                      NextLog(Pruned(LogOf(t.logs, q.key), q.now - c.window), c.limits[q.key.bucket], q.now),
                      c.limits[q.key.bucket], c.window, q.now)
  {
    CountDecides(c, t, q);
    HistoryOfLog(LogOf(h, q.key), LogOf(t.logs, q.key), Pruned(LogOf(t.logs, q.key), q.now - c.window),
                 AdmitDecision(c, t, q).Admitted?, c.limits[q.key.bucket], c.window, before, q.now);
  }

  lemma HistoryOfKey(c: Config, t: Table, h: map<Key, seq<real>>, before: real, q: Request, k: Key)
    requires ValidConfig(c) && TableOk(c, t) && q.key.bucket in c.limits && before <= q.now
    requires HistoryOk(c, t, h, before) && k in AdmitTable(c, t, q).logs
    ensures k in NextHistory(c, t, h, q) && k.bucket in c.limits
    ensures Remembers(NextHistory(c, t, h, q)[k], LogOf(AdmitTable(c, t, q).logs, k), c.limits[k.bucket], c.window, q.now)
  {
    HistoryLog(c, t, h, q, k);
    RemembersOf(c, t, h, before, k);
    AdmitLog(c, t, q, k);
    if k == q.key {
      HistoryOfRequestedKey(c, t, h, before, q);
    } else {
      EnteredLog(c, t, q.key);
      assert LogOf(Entered(c, t, q.key).logs, k) == LogOf(t.logs, k);
      RemembersLater(LogOf(h, k), LogOf(t.logs, k), c.limits[k.bucket], c.window, before, q.now);
    }
  }

  lemma RemembersLater(history: seq<real>, log: seq<real>, limit: nat, window: real, before: real, now: real)
    requires Remembers(history, log, limit, window, before) && before <= now
    ensures Remembers(history, log, limit, window, now)
  {
  }

  lemma HistoryStep(c: Config, t: Table, h: map<Key, seq<real>>, before: real, q: Request)
    requires ValidConfig(c) && TableOk(c, t) && q.key.bucket in c.limits && before <= q.now
    requires HistoryOk(c, t, h, before)
    ensures HistoryOk(c, AdmitTable(c, t, q), NextHistory(c, t, h, q), q.now)
  {
    var t', h' := AdmitTable(c, t, q), NextHistory(c, t, h, q);
    assert h'.Keys == t'.logs.Keys;
    forall k | k in t'.logs
      ensures k.bucket in c.limits && Remembers(h'[k], t'.logs[k], c.limits[k.bucket], c.window, q.now)
    {
      HistoryOfKey(c, t, h, before, q, k);
    }
  }

  /** What the window guarantee needs of a history. */
  predicate WellSpaced(c: Config, h: map<Key, seq<real>>) {
    forall k :: k in h ==> k.bucket in c.limits && Sorted(h[k]) && Spaced(h[k], c.limits[k.bucket], c.window)
  }

  lemma HistoryOkIsWellSpaced(c: Config, t: Table, h: map<Key, seq<real>>, now: real)
    requires HistoryOk(c, t, h, now)
    ensures WellSpaced(c, h)
  {
  }

  lemma {:induction false} HistoryRun(c: Config, t: Table, h: map<Key, seq<real>>, now: real, qs: seq<Request>)
    requires Ready(c, t, now, qs) && HistoryOk(c, t, h, now)
    ensures WellSpaced(c, HistoryAfter(c, t, h, now, qs))
    decreases |qs|
  {
    if qs == [] {
      HistoryOkIsWellSpaced(c, t, h, now);
    } else {
      StaysReady(c, t, now, qs);
      HistoryStep(c, t, h, now, qs[0]);
      HistoryRun(c, AdmitTable(c, t, qs[0]), NextHistory(c, t, h, qs[0]), qs[0].now, qs[1..]);
    }
  }

  /** How many of the first `n` admissions fall in the window (lo, hi]. */
  function CountIn(history: seq<real>, lo: real, hi: real, n: nat): nat
    requires n <= |history|
  {
    if n == 0 then 0 else CountIn(history, lo, hi, n - 1) + (if lo < history[n - 1] <= hi then 1 else 0)
  }

  lemma {:induction false} CountIsSpan(history: seq<real>, lo: real, hi: real, n: nat)
    requires n <= |history| && Sorted(history) && lo <= hi
    ensures var first, end := FirstAfter(history, lo, 0), FirstAfter(history, hi, 0);
            CountIn(history, lo, hi, n) <= if n <= first then 0 else if n <= end then n - first else end - first
    ensures FirstAfter(history, lo, 0) <= FirstAfter(history, hi, 0)
  {
    if n > 0 { CountIsSpan(history, lo, hi, n - 1); }
  }

  /**
    Over any run, for any key and any window (until - W, until], the admissions made since the key
    was last evicted number at most its limit.
   */
  lemma WindowNeverExceedsLimit(c: Config, now: real, qs: seq<Request>, k: Key, until: real)
    requires Ready(c, Table([], map[]), now, qs)
    requires k in HistoryAfter(c, Table([], map[]), map[], now, qs)
    ensures var history := HistoryAfter(c, Table([], map[]), map[], now, qs)[k];
            k.bucket in c.limits && CountIn(history, until - c.window, until, |history|) <= c.limits[k.bucket]
  {
    HistoryRun(c, Table([], map[]), map[], now, qs);
    WindowOfHistory(c, HistoryAfter(c, Table([], map[]), map[], now, qs), k, until);
  }

  lemma WindowOfHistory(c: Config, h: map<Key, seq<real>>, k: Key, until: real)
    requires ValidConfig(c) && WellSpaced(c, h) && k in h
    ensures k.bucket in c.limits && CountIn(h[k], until - c.window, until, |h[k]|) <= c.limits[k.bucket]
  {
    SpacedWindow(h[k], c.limits[k.bucket], c.window, until);
  }

  lemma SpacedWindow(history: seq<real>, limit: nat, window: real, until: real)
    requires Sorted(history) && Spaced(history, limit, window) && 0.0 < window
    ensures CountIn(history, until - window, until, |history|) <= limit
  {
    CountIsSpan(history, until - window, until, |history|);
    var first, end := FirstAfter(history, until - window, 0), FirstAfter(history, until, 0);
    if first + limit < |history| {
      assert history[first] + window <= history[first + limit];
    }
  }

  // --------------------------------------------------------------- retry hint

  lemma FullLog(c: Config, t: Table, q: Request)
    requires ValidConfig(c) && TableOk(c, t) && q.key.bucket in c.limits
    requires AdmitDecision(c, t, q).Refused?
    ensures q.key in t.logs && AdmitTable(c, t, q).logs[q.key] == t.logs[q.key]
    ensures |t.logs[q.key]| == c.limits[q.key.bucket] && t.logs[q.key][0] > q.now - c.window
  {
  }

  /** A hint is the wait rounded up to whole seconds; the guard for at least one second never acts. */
  lemma HintIsWait(log: seq<real>, window: real, now: real, n: int)
    requires log != [] && log[0] > now - window
    ensures Hint(log, window, now) == Ceil(log[0] + window - now) >= 1
    ensures (n as real) >= log[0] + window - now <==> n >= Hint(log, window, now)
  {
  }

  /**
    The retry hint is exact. While the refused key is neither evicted nor admitted again, a retry a
    whole number of seconds later is admitted if and only if it waits at least the hint.
   */
  lemma RetryHintIsExact(c: Config, t: Table, q: Request, later: Table, n: nat)
    requires ValidConfig(c) && TableOk(c, t) && TableOk(c, later) && q.key.bucket in c.limits
    requires AdmitDecision(c, t, q).Refused?
    requires q.key in t.logs && q.key in later.logs && later.logs[q.key] == t.logs[q.key]
    ensures AdmitTable(c, t, q).logs[q.key] == t.logs[q.key]
    ensures AdmitDecision(c, later, Request(q.key, q.now + n as real)).Admitted? <==>
            n >= AdmitDecision(c, t, q).retryAfter
  {
    FullLog(c, t, q);
    var log := t.logs[q.key];
    assert log[0..] == log;
    HintIsWait(log, c.window, q.now, n);
  }

  function TableAfter(c: Config, t: Table, now: real, qs: seq<Request>): Table
    requires Ready(c, t, now, qs)
    decreases |qs|
  {
    if qs == [] then t
    else
      StaysReady(c, t, now, qs);
      TableAfter(c, AdmitTable(c, t, qs[0]), qs[0].now, qs[1..])
  }

  predicate NeverEvicted(c: Config, t: Table, now: real, qs: seq<Request>, key: Key)
    requires Ready(c, t, now, qs)
    decreases |qs|
  {
    qs == [] || (Victim(c, t, qs[0].key) != Some(key)
                 && (StaysReady(c, t, now, qs);
                     NeverEvicted(c, AdmitTable(c, t, qs[0]), qs[0].now, qs[1..], key)))
  }

  /** Every request for the key is refused. */
  predicate RefusesKey(decisions: seq<Decision>, qs: seq<Request>, key: Key)
    requires |decisions| == |qs|
  {
    forall i :: 0 <= i < |qs| && qs[i].key == key ==> decisions[i].Refused?
  }

  lemma RefusesNext(d: Decision, rest: seq<Decision>, qs: seq<Request>, key: Key)
    requires qs != [] && |rest| == |qs| - 1 && RefusesKey(rest, qs[1..], key) && (qs[0].key == key ==> d.Refused?)
    ensures RefusesKey([d] + rest, qs, key)
  {
    forall i | 0 <= i < |qs| && qs[i].key == key ensures ([d] + rest)[i].Refused? {
      if i > 0 { assert qs[i] == qs[1..][i - 1] && ([d] + rest)[i] == rest[i - 1]; }
    }
  }

  /** Until the oldest event leaves the window, traffic of any kind leaves a full log as it is: refusals use no quota. */
  lemma {:induction false} RefusalsUseNoQuota(c: Config, t: Table, now: real, qs: seq<Request>, key: Key)
    requires Ready(c, t, now, qs) && NeverEvicted(c, t, now, qs, key)
    requires key in t.logs && |t.logs[key]| == c.limits[key.bucket]
    requires forall i :: 0 <= i < |qs| ==> qs[i].now < t.logs[key][0] + c.window
    ensures key in TableAfter(c, t, now, qs).logs && TableAfter(c, t, now, qs).logs[key] == t.logs[key]
    ensures RefusesKey(BoundedRun(c, t, now, qs), qs, key)
    decreases |qs|
  {
    if qs != [] {
      var t' := AdmitTable(c, t, qs[0]);
      StaysReady(c, t, now, qs);
      FullLogStays(c, t, qs[0], key);
      RefusalsUseNoQuota(c, t', qs[0].now, qs[1..], key);
      RefusesNext(AdmitDecision(c, t, qs[0]), BoundedRun(c, t', qs[0].now, qs[1..]), qs, key);
    }
  }

  lemma FullLogStays(c: Config, t: Table, q: Request, key: Key)
    requires ValidConfig(c) && TableOk(c, t) && q.key.bucket in c.limits && Victim(c, t, q.key) != Some(key)
    requires key in t.logs && |t.logs[key]| == c.limits[key.bucket] && q.now < t.logs[key][0] + c.window
    ensures key in AdmitTable(c, t, q).logs && AdmitTable(c, t, q).logs[key] == t.logs[key]
    ensures q.key == key ==> AdmitDecision(c, t, q).Refused?
  {
    EnteredLog(c, t, q.key);
    AdmitLog(c, t, q, key);
    assert t.logs[key][0..] == t.logs[key];
  }
}
