/** The output sanitiser: strings that give orders are removed from a decoded JSON tree, with whatever relied on them. */
module Sanitizer {
  import opened Common
  import Text

  datatype Json =
    | Null
    | Bool(b: bool)
    | Number(n: real)
    | Str(s: string)
    | List(items: seq<Json>)
    | Tuple(items: seq<Json>)
    | Dict(entries: map<string, Json>)

  /** The detector of control-plane instructions, a parameter of the model. */
  type Detector = string -> bool

  /** Blank text is never an instruction. */
  predicate Untrusted(text: string, d: Detector) {
    !Text.Blank(text) && d(text)
  }

  // -------------------------------------------------------------- groups of strings

  function JoinLines(lines: seq<string>): string {
    if lines == [] then "" else if |lines| == 1 then lines[0] else lines[0] + "\n" + JoinLines(lines[1..])
  }

  /** The non-blank strings that are trusted one by one. */
  function Remaining(values: seq<string>, d: Detector, n: nat): seq<string>
    requires n <= |values|
  {
    if n == 0 then []
    else if !Untrusted(values[n - 1], d) && !Text.Blank(values[n - 1]) then Remaining(values, d, n - 1) + [values[n - 1]]
    else Remaining(values, d, n - 1)
  }

  /** Whether what is left gives an order once its lines are joined. */
  predicate GroupRejected(values: seq<string>, d: Detector) {
    var remaining := Remaining(values, d, |values|);
    remaining != [] && Untrusted(JoinLines(remaining), d)
  }

  predicate Blocked(text: string, d: Detector, group: bool) {
    Untrusted(text, d) || (group && !Text.Blank(text))
  }

  method FragmentIndexes(values: seq<string>, d: Detector) returns (blocked: set<nat>)
    ensures forall i: nat :: i in blocked <==> i < |values| && Blocked(values[i], d, GroupRejected(values, d))
  {
    blocked := {};
    for i := 0 to |values|
      invariant forall k: nat :: k in blocked <==> k < i && Untrusted(values[k], d)
    {
      if Untrusted(values[i], d) { blocked := blocked + {i}; }
    }
    var remaining := [];
    for i := 0 to |values|
      invariant remaining == Remaining(values, d, i)
    {
      if i !in blocked && !Text.Blank(values[i]) { remaining := remaining + [values[i]]; }
    }
    if remaining != [] && Untrusted(JoinLines(remaining), d) {
      for i := 0 to |values|
        invariant forall k: nat :: k in blocked <==> k < |values| && (Untrusted(values[k], d) || (k < i && !Text.Blank(values[k])))
      {
        if !Text.Blank(values[i]) { blocked := blocked + {i}; }
      }
    }
  }

  /** The strings directly in a list. */
  function Strings(items: seq<Json>, n: nat): seq<string>
    requires n <= |items|
  {
    if n == 0 then []
    else if items[n - 1].Str? then Strings(items, n - 1) + [items[n - 1].s]
    else Strings(items, n - 1)
  }

  predicate GroupOf(items: seq<Json>, d: Detector) {
    GroupRejected(Strings(items, |items|), d)
  }

  // ------------------------------------------------------------------ what it returns

  function Sanitized(x: Json, d: Detector): Option<Json>
    decreases x, 0
  {
    match x
    case Null => None
    case Str(s) => if Untrusted(s, d) then None else Some(x)
    case List(items) => Some(List(SanitizedItems(items, d, GroupOf(items, d), |items|)))
    case Tuple(items) => Some(Tuple(SanitizedItems(items, d, GroupOf(items, d), |items|)))
    case Dict(entries) =>
      if ExcerptRejected(entries, d) then None
      else
        var kept := map k | k in entries && Sanitized(entries[k], d).Some? :: Sanitized(entries[k], d).value;
        if "value" in entries && "citations" in entries && Unsupported(kept) then None else Some(Dict(kept))
    case _ => Some(x)
  }

  function SanitizedItems(items: seq<Json>, d: Detector, group: bool, n: nat): seq<Json>
    requires n <= |items|
    decreases items, n
  {
    if n == 0 then []
    else SanitizedItems(items, d, group, n - 1) + SanitizedItem(items, d, group, n - 1)
  }

  function SanitizedItem(items: seq<Json>, d: Detector, group: bool, i: nat): seq<Json>
    requires i < |items|
    decreases items, i
  {
    if items[i].Str? && Blocked(items[i].s, d, group) then []
    else match Sanitized(items[i], d)
         case None => []
         case Some(y) => [y]
  }

  predicate ExcerptRejected(entries: map<string, Json>, d: Detector) {
    "excerpt" in entries && entries["excerpt"].Str? && Untrusted(entries["excerpt"].s, d)
  }

  /** `value not in (None, "", [], ())`. */
  predicate HasValue(x: Json) {
    x != Null && x != Str("") && x != List([]) && x != Tuple([])
  }

  predicate Falsy(x: Json) {
    x == Null || x == Bool(false) || x == Number(0.0) || x == Str("") || x == List([]) || x == Tuple([]) || x == Dict(map[])
  }

  /** A record that still has its value but no citation left. */
  predicate Unsupported(kept: map<string, Json>) {
    && "value" in kept && HasValue(kept["value"])
    && ("citations" !in kept || Falsy(kept["citations"]))
  }

  /** The read-time entry point: every value of the payload, without the checks on records. */
  function SanitizedPayload(payload: map<string, Json>, d: Detector): map<string, Json> {
    map k | k in payload && Sanitized(payload[k], d).Some? :: Sanitized(payload[k], d).value
  }

  // -------------------------------------------------------------------- the recursion

  method Sanitize(x: Json, d: Detector) returns (r: Option<Json>)
    ensures r == Sanitized(x, d)
    decreases x, 1
  {
    match x
    case Null => r := None;
    case Str(s) => r := if Untrusted(s, d) then None else Some(x);
    case List(items) =>
      var kept := SanitizeItems(items, d);
      r := Some(List(kept));
    case Tuple(items) =>
      var kept := SanitizeItems(items, d);
      r := Some(Tuple(kept));
    case Dict(entries) => r := SanitizeEntries(x, d);
    case _ => r := Some(x);
  }

  /** Strings are numbered as they are met, to look them up among the blocked ones. */
  method SanitizeItems(items: seq<Json>, d: Detector) returns (kept: seq<Json>)
    ensures kept == SanitizedItems(items, d, GroupOf(items, d), |items|)
    decreases items, |items|
  {
    var strings := Strings(items, |items|);
    var blocked := FragmentIndexes(strings, d);
    var index := 0;
    kept := [];
    for i := 0 to |items|
      invariant index == |Strings(items, i)|
      invariant kept == SanitizedItems(items, d, GroupOf(items, d), i)
    {
      if items[i].Str? {
        StringAt(items, i);
        if index !in blocked {
          var item := Sanitize(items[i], d);
          if item.Some? { kept := kept + [item.value]; }
        }
        index := index + 1;
      } else {
        var item := Sanitize(items[i], d);
        if item.Some? { kept := kept + [item.value]; }
      }
    }
  }

  lemma {:induction false} StringsPrefix(items: seq<Json>, n: nat, m: nat)
    requires n <= m <= |items|
    ensures |Strings(items, n)| <= |Strings(items, m)| && Strings(items, m)[..|Strings(items, n)|] == Strings(items, n)
  {
    if n < m { StringsPrefix(items, n, m - 1); }
  }

  lemma StringAt(items: seq<Json>, i: nat)
    requires i < |items| && items[i].Str?
    ensures |Strings(items, i)| < |Strings(items, |items|)| && Strings(items, |items|)[|Strings(items, i)|] == items[i].s
  {
    StringsPrefix(items, i + 1, |items|);
    var k, strings := |Strings(items, i)|, Strings(items, |items|);
    assert strings[..k + 1][k] == strings[k];
  }

  method SanitizeEntries(x: Json, d: Detector) returns (r: Option<Json>)
    requires x.Dict?
    ensures r == Sanitized(x, d)
    decreases x, 0
  {
    var entries := x.entries;
    if ExcerptRejected(entries, d) { return None; }
    var kept: map<string, Json> := map[];
    var left := entries.Keys;
    while left != {}
      invariant left <= entries.Keys
      invariant kept == map k | k in entries && k !in left && Sanitized(entries[k], d).Some? :: Sanitized(entries[k], d).value
      decreases left
    {
      var k :| k in left;
      left := left - {k};
      var item := Sanitize(entries[k], d);
      if item.Some? { kept := kept[k := item.value]; }
    }
    assert kept == map k | k in entries && Sanitized(entries[k], d).Some? :: Sanitized(entries[k], d).value;
    assert x == Dict(entries);
    r := if "value" in entries && "citations" in entries && Unsupported(kept) then None else Some(Dict(kept));
  }

  // ------------------------------------------------------------------- clean trees

  /** No string, no group of strings and no record that the sanitiser would remove, and no null. */
  ghost predicate Clean(x: Json, d: Detector)
    decreases x
  {
    match x
    case Null => false
    case Str(s) => !Untrusted(s, d)
    case List(items) => !GroupOf(items, d) && forall i :: 0 <= i < |items| ==> Clean(items[i], d)
    case Tuple(items) => !GroupOf(items, d) && forall i :: 0 <= i < |items| ==> Clean(items[i], d)
    case Dict(entries) =>
      && (forall k :: k in entries ==> Clean(entries[k], d))
      && ("value" in entries && "citations" in entries ==> !Unsupported(entries))
    case _ => true
  }

  /** Clean trees are left as they are. */
  lemma {:induction false} CleanIsKept(x: Json, d: Detector)
    requires Clean(x, d)
    ensures Sanitized(x, d) == Some(x)
    decreases x, 0
  {
    match x
    case List(items) => CleanItemsAreKept(items, d, |items|);
    case Tuple(items) => CleanItemsAreKept(items, d, |items|);
    case Dict(entries) =>
      forall k | k in entries ensures Sanitized(entries[k], d) == Some(entries[k]) {
        CleanIsKept(entries[k], d);
      }
      assert (map k | k in entries && Sanitized(entries[k], d).Some? :: Sanitized(entries[k], d).value) == entries;
    case _ =>
  }

  lemma {:induction false} CleanItemsAreKept(items: seq<Json>, d: Detector, n: nat)
    requires n <= |items| && forall i :: 0 <= i < |items| ==> Clean(items[i], d)
    ensures SanitizedItems(items, d, false, n) == items[..n] && (n == |items| ==> items[..n] == items)
    decreases items, n
  {
    if n > 0 {
      CleanItemsAreKept(items, d, n - 1);
      CleanIsKept(items[n - 1], d);
      assert items[..n] == items[..n - 1] + [items[n - 1]];
    }
  }

  /** The strings of a group that are not blocked. */
  function Unblocked(values: seq<string>, d: Detector, group: bool, n: nat): seq<string>
    requires n <= |values|
  {
    if n == 0 then []
    else if Blocked(values[n - 1], d, group) then Unblocked(values, d, group, n - 1)
    else Unblocked(values, d, group, n - 1) + [values[n - 1]]
  }

  lemma {:induction false} RemainingSnoc(values: seq<string>, v: string, d: Detector, n: nat)
    requires n <= |values|
    ensures Remaining(values + [v], d, n) == Remaining(values, d, n)
  {
    if n > 0 { RemainingSnoc(values, v, d, n - 1); }
  }

  lemma RemainingAdds(values: seq<string>, v: string, d: Detector)
    ensures Remaining(values + [v], d, |values| + 1) ==
            if !Untrusted(v, d) && !Text.Blank(v) then Remaining(values, d, |values|) + [v] else Remaining(values, d, |values|)
  {
    RemainingSnoc(values, v, d, |values|);
  }

  /** Without group rejection the unblocked strings leave the same lines; with it, none. */
  lemma {:induction false} UnblockedLeaves(values: seq<string>, d: Detector, group: bool, n: nat)
    requires n <= |values|
    ensures var u := Unblocked(values, d, group, n); Remaining(u, d, |u|) == if group then [] else Remaining(values, d, n)
  {
    if n > 0 {
      UnblockedLeaves(values, d, group, n - 1);
      RemainingAdds(Unblocked(values, d, group, n - 1), values[n - 1], d);
    }
  }

  lemma UnblockedIsAccepted(values: seq<string>, d: Detector)
    ensures !GroupRejected(Unblocked(values, d, GroupRejected(values, d), |values|), d)
  {
    UnblockedLeaves(values, d, GroupRejected(values, d), |values|);
  }

  lemma {:induction false} StringsAppend(items: seq<Json>, more: seq<Json>, n: nat)
    requires n <= |items| && |more| <= 1
    ensures Strings(items + more, n) == Strings(items, n)
  {
    if n > 0 { StringsAppend(items, more, n - 1); }
  }

  lemma StringsSnoc(ys: seq<Json>, x: Json, all: seq<Json>, n: nat)
    requires all == ys + [x] && n == |ys|
    ensures Strings(all, n + 1) == if x.Str? then Strings(ys, n) + [x.s] else Strings(ys, n)
  {
    StringsAppend(ys, [x], n);
    assert all[n] == x;
  }

  lemma UnblockedNext(values: seq<string>, v: string, d: Detector, group: bool)
    ensures Unblocked(values + [v], d, group, |values| + 1) ==
            Unblocked(values, d, group, |values|) + (if Blocked(v, d, group) then [] else [v])
  {
    UnblockedSnoc(values, v, d, group, |values|);
  }

  /** The strings of what is left agree with the unblocked ones of what was there. */
  predicate Agree(left: seq<Json>, texts: seq<string>, d: Detector, group: bool) {
    Strings(left, |left|) == Unblocked(texts, d, group, |texts|)
  }

  lemma KeptStringAgrees(x: Json, ys: seq<Json>, all: seq<Json>, texts: seq<string>, d: Detector, group: bool)
    requires x.Str? && !Blocked(x.s, d, group) && all == ys + [x] && Agree(ys, texts, d, group)
    ensures Agree(all, texts + [x.s], d, group)
  {
    StringsSnoc(ys, x, all, |ys|);
    UnblockedNext(texts, x.s, d, group);
  }

  lemma BlockedStringAgrees(x: Json, ys: seq<Json>, texts: seq<string>, d: Detector, group: bool)
    requires x.Str? && Blocked(x.s, d, group) && Agree(ys, texts, d, group)
    ensures Agree(ys, texts + [x.s], d, group)
  {
    UnblockedNext(texts, x.s, d, group);
  }

  lemma OtherItemAgrees(x: Json, ys: seq<Json>, all: seq<Json>, texts: seq<string>, d: Detector, group: bool)
    requires !x.Str? && all == ys + [x] && Agree(ys, texts, d, group)
    ensures Agree(all, texts, d, group)
  {
    StringsSnoc(ys, x, all, |ys|);
  }

  /** The strings left in a list are its unblocked strings: no other item becomes a string. */
  lemma {:induction false} StringsOfSanitized(items: seq<Json>, d: Detector, group: bool, n: nat)
    requires n <= |items|
    ensures Agree(SanitizedItems(items, d, group, n), Strings(items, n), d, group)
  {
    if n > 0 {
      StringsOfSanitized(items, d, group, n - 1);
      StringOfItem(items, d, group, n - 1);
      var x, ys, y := items[n - 1], SanitizedItems(items, d, group, n - 1), SanitizedItem(items, d, group, n - 1);
      var all := SanitizedItems(items, d, group, n);
      if y == [] {
        assert all == ys;
        if x.Str? { BlockedStringAgrees(x, ys, Strings(items, n - 1), d, group); }
      } else if x.Str? {
        KeptStringAgrees(x, ys, all, Strings(items, n - 1), d, group);
      } else {
        assert y == [y[0]];
        OtherItemAgrees(y[0], ys, all, Strings(items, n - 1), d, group);
      }
    }
  }

  lemma StringOfItem(items: seq<Json>, d: Detector, group: bool, i: nat)
    requires i < |items|
    ensures |SanitizedItem(items, d, group, i)| <= 1
    ensures items[i].Str? ==> SanitizedItem(items, d, group, i) == if Blocked(items[i].s, d, group) then [] else [items[i]]
    ensures !items[i].Str? && SanitizedItem(items, d, group, i) != [] ==> !SanitizedItem(items, d, group, i)[0].Str?
  {
  }

  lemma {:induction false} UnblockedSnoc(values: seq<string>, v: string, d: Detector, group: bool, n: nat)
    requires n <= |values|
    ensures Unblocked(values + [v], d, group, n) == Unblocked(values, d, group, n)
  {
    if n > 0 { UnblockedSnoc(values, v, d, group, n - 1); }
  }

  /** What the sanitiser returns is clean, whatever the tree and the detector. */
  lemma {:induction false} SanitizedIsClean(x: Json, d: Detector)
    ensures Sanitized(x, d).Some? ==> Clean(Sanitized(x, d).value, d)
    decreases x, 0
  {
    match x
    case List(items) => SanitizedItemsAreClean(items, d);
    case Tuple(items) => SanitizedItemsAreClean(items, d);
    case Dict(entries) =>
      forall k | k in entries ensures Sanitized(entries[k], d).Some? ==> Clean(Sanitized(entries[k], d).value, d) {
        SanitizedIsClean(entries[k], d);
      }
    case _ =>
  }

  lemma {:induction false} SanitizedItemsAreClean(items: seq<Json>, d: Detector)
    ensures var ys := SanitizedItems(items, d, GroupOf(items, d), |items|);
            !GroupOf(ys, d) && forall i :: 0 <= i < |ys| ==> Clean(ys[i], d)
    decreases items, |items| + 1
  {
    StringsOfSanitized(items, d, GroupOf(items, d), |items|);
    UnblockedIsAccepted(Strings(items, |items|), d);
    EachSanitizedIsClean(items, d, GroupOf(items, d), |items|);
  }

  lemma {:induction false} EachSanitizedIsClean(items: seq<Json>, d: Detector, group: bool, n: nat)
    requires n <= |items|
    ensures forall i :: 0 <= i < |SanitizedItems(items, d, group, n)| ==> Clean(SanitizedItems(items, d, group, n)[i], d)
    decreases items, n
  {
    if n > 0 {
      EachSanitizedIsClean(items, d, group, n - 1);
      SanitizedIsClean(items[n - 1], d);
    }
  }

  /** A tree is left as it is exactly when it is clean. */
  lemma FixedExactlyWhenClean(x: Json, d: Detector)
    ensures Sanitized(x, d) == Some(x) <==> Clean(x, d)
  {
    SanitizedIsClean(x, d);
    if Clean(x, d) { CleanIsKept(x, d); }
  }

  lemma SanitizedIsFixed(x: Json, d: Detector)
    requires Sanitized(x, d).Some?
    ensures Sanitized(Sanitized(x, d).value, d) == Sanitized(x, d)
  {
    SanitizedIsClean(x, d);
    CleanIsKept(Sanitized(x, d).value, d);
  }

  /** Sanitising a payload a second time changes nothing, and every value it keeps is clean. */
  lemma PayloadIsFixed(payload: map<string, Json>, d: Detector)
    ensures var once := SanitizedPayload(payload, d);
            SanitizedPayload(once, d) == once && forall k :: k in once ==> Clean(once[k], d)
  {
    var once := SanitizedPayload(payload, d);
    forall k | k in once ensures Sanitized(once[k], d) == Some(once[k]) && Clean(once[k], d) {
      SanitizedIsClean(payload[k], d);
      CleanIsKept(once[k], d);
    }
    assert SanitizedPayload(once, d) == once;
  }

  // ----------------------------------------------------------------- only deletions

  /** `y` is `x` with list items and map entries deleted, at any depth. */
  ghost predicate Pruned(y: Json, x: Json)
    decreases x, 0
  {
    match x
    case List(items) => y.List? && Thinned(y.items, |y.items|, items, |items|)
    case Tuple(items) => y.Tuple? && Thinned(y.items, |y.items|, items, |items|)
    case Dict(entries) => y.Dict? && forall k :: k in y.entries ==> k in entries && Pruned(y.entries[k], entries[k])
    case _ => y == x
  }

  /** The first `m` items of `ys` are some of the first `n` items of `xs`, in order and each pruned. */
  ghost predicate Thinned(ys: seq<Json>, m: nat, xs: seq<Json>, n: nat)
    requires m <= |ys| && n <= |xs|
    decreases xs, n
  {
    if n == 0 then m == 0
    else Thinned(ys, m, xs, n - 1) || (m > 0 && Pruned(ys[m - 1], xs[n - 1]) && Thinned(ys, m - 1, xs, n - 1))
  }

  lemma {:induction false} ThinnedSnoc(ys: seq<Json>, y: Json, m: nat, xs: seq<Json>, n: nat)
    requires m <= |ys| && n <= |xs| && Thinned(ys, m, xs, n)
    ensures Thinned(ys + [y], m, xs, n)
  {
    if n > 0 {
      if Thinned(ys, m, xs, n - 1) {
        ThinnedSnoc(ys, y, m, xs, n - 1);
      } else {
        ThinnedSnoc(ys, y, m - 1, xs, n - 1);
      }
    }
  }

  /** The sanitiser only deletes list items and map entries. */
  lemma {:induction false} SanitizedIsPruned(x: Json, d: Detector)
    ensures Sanitized(x, d).Some? ==> Pruned(Sanitized(x, d).value, x)
    decreases x, 0
  {
    match x
    case List(items) => ItemsAreThinned(items, d, GroupOf(items, d), |items|);
    case Tuple(items) => ItemsAreThinned(items, d, GroupOf(items, d), |items|);
    case Dict(entries) =>
      forall k | k in entries ensures Sanitized(entries[k], d).Some? ==> Pruned(Sanitized(entries[k], d).value, entries[k]) {
        SanitizedIsPruned(entries[k], d);
      }
    case _ =>
  }

  lemma ThinnedNext(ys: seq<Json>, more: seq<Json>, xs: seq<Json>, n: nat, all: seq<Json>)
    requires 0 < n <= |xs| && Thinned(ys, |ys|, xs, n - 1) && all == ys + more
    requires more == [] || (|more| == 1 && Pruned(more[0], xs[n - 1]))
    ensures Thinned(all, |all|, xs, n)
  {
    if more == [] {
      assert all == ys;
    } else {
      assert all == ys + [more[0]];
      ThinnedSnoc(ys, more[0], |ys|, xs, n - 1);
    }
  }

  lemma {:induction false} ItemsAreThinned(items: seq<Json>, d: Detector, group: bool, n: nat)
    requires n <= |items|
    ensures var ys := SanitizedItems(items, d, group, n); Thinned(ys, |ys|, items, n)
    decreases items, n
  {
    if n > 0 {
      ItemsAreThinned(items, d, group, n - 1);
      SanitizedIsPruned(items[n - 1], d);
      StringOfItem(items, d, group, n - 1);
      ThinnedNext(SanitizedItems(items, d, group, n - 1), SanitizedItem(items, d, group, n - 1), items, n,
                  SanitizedItems(items, d, group, n));
    }
  }

  /** A record that has lost the citations of its value. */
  predicate LostCitations(before: map<string, Json>, after: map<string, Json>) {
    "value" in before && "citations" in before && Unsupported(after)
  }

  /**
    The payload itself is not checked as a record: what is left of it is clean as a whole exactly when it is not a
    record with a value and empty citations, and it is what sanitising it as a record gives exactly when that would
    neither reject its excerpt nor miss its citations.
   */
  lemma PayloadIsCleanExactlyWhen(payload: map<string, Json>, d: Detector)
    ensures var once := SanitizedPayload(payload, d);
            && (Clean(Dict(once), d) <==> !LostCitations(once, once))
            && (Sanitized(Dict(payload), d) == Some(Dict(once)) <==> !ExcerptRejected(payload, d) && !LostCitations(payload, once))
  {
    PayloadIsFixed(payload, d);
  }

  /** A payload with a value and an empty list of citations is left as it is by the entry point, and is not clean. */
  lemma UncitedPayloadIsKept(value: real, d: Detector) returns (payload: map<string, Json>)
    ensures payload == map["value" := Number(value), "citations" := List([])]
    ensures SanitizedPayload(payload, d) == payload && !Clean(Dict(payload), d) && Sanitized(Dict(payload), d) == None
  {
    payload := map["value" := Number(value), "citations" := List([])];
    assert Strings([], 0) == [] && SanitizedItems([], d, GroupOf([], d), 0) == [];
    assert SanitizedPayload(payload, d) == payload;
    PayloadIsCleanExactlyWhen(payload, d);
    FixedExactlyWhenClean(Dict(payload), d);
  }
}
