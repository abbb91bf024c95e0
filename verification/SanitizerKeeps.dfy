/** Exactly what the sanitiser removes, and so exactly what it keeps, at every level of a tree. */
module SanitizerKeeps {
  import opened Common
  import Text
  import opened Sanitizer

  /** A record whose value survives while its citations do not: none is left, or only something empty. */
  predicate LosesItsCitations(entries: map<string, Json>, d: Detector) {
    && "value" in entries && "citations" in entries && Sanitized(entries["value"], d).Some?
    && Sanitized(entries["value"], d).value !in {Null, Str(""), List([]), Tuple([])}
    && (Sanitized(entries["citations"], d).None?
        || Sanitized(entries["citations"], d).value in {Null, Bool(false), Number(0.0), Str(""), List([]), Tuple([]), Dict(map[])})
  }

  /** What is removed: nulls, untrusted strings, records quoting an untrusted excerpt and records that lose their citations. */
  lemma RemovedExactlyWhen(x: Json, d: Detector)
    ensures Sanitized(x, d).None? <==>
            match x
            case Null => true
            case Str(s) => !Text.Blank(s) && d(s)
            case Dict(entries) =>
              || ("excerpt" in entries && entries["excerpt"].Str? && !Text.Blank(entries["excerpt"].s) && d(entries["excerpt"].s))
              || LosesItsCitations(entries, d)
            case _ => false
  {
  }

  /** A kept record keeps exactly the entries whose values are not removed, each sanitised. */
  lemma EntriesKeptExactlyWhen(entries: map<string, Json>, d: Detector)
    requires Sanitized(Dict(entries), d).Some?
    ensures var y := Sanitized(Dict(entries), d).value;
            y.Dict? && (forall k :: k in y.entries <==> k in entries && Sanitized(entries[k], d).Some?)
            && forall k :: k in y.entries ==> y.entries[k] == Sanitized(entries[k], d).value
  {
  }

  /** The lines left of a group: its strings that are neither blank nor untrusted by themselves, in order. */
  lemma {:induction false} RemainingAre(values: seq<string>, d: Detector, n: nat) returns (at: seq<nat>)
    requires n <= |values|
    ensures |at| == |Remaining(values, d, n)| && forall k, l :: 0 <= k < l < |at| ==> at[k] < at[l]
    ensures forall k :: 0 <= k < |at| ==> at[k] < n && Remaining(values, d, n)[k] == values[at[k]]
    ensures forall i :: 0 <= i < n ==> (i in at <==> !Text.Blank(values[i]) && !d(values[i]))
  {
    at := [];
    if n > 0 {
      at := RemainingAre(values, d, n - 1);
      if !Text.Blank(values[n - 1]) && !d(values[n - 1]) { at := at + [n - 1]; }
    }
  }

  /** An item stays unless it is a string that is untrusted alone or with its group, or is removed itself. */
  predicate Stays(items: seq<Json>, d: Detector, group: bool, i: nat)
    requires i < |items|
  {
    match items[i]
    case Str(s) => Text.Blank(s) || (!d(s) && !group)
    case _ => Sanitized(items[i], d).Some?
  }

  lemma StaysExactlyWhen(items: seq<Json>, d: Detector, group: bool, i: nat)
    requires i < |items|
    ensures SanitizedItem(items, d, group, i) == if Stays(items, d, group, i) then [Sanitized(items[i], d).value] else []
    ensures Stays(items, d, group, i) ==> Sanitized(items[i], d).Some?
  {
  }

  /** A kept list keeps exactly the items that stay, in order, each sanitised. */
  lemma {:induction false} ItemsKeptExactlyWhen(items: seq<Json>, d: Detector, group: bool, n: nat) returns (at: seq<nat>)
    requires n <= |items|
    ensures |at| == |SanitizedItems(items, d, group, n)| && forall k, l :: 0 <= k < l < |at| ==> at[k] < at[l]
    ensures forall k :: 0 <= k < |at| ==> at[k] < n && Sanitized(items[at[k]], d) == Some(SanitizedItems(items, d, group, n)[k])
    ensures forall i :: 0 <= i < n ==> (i in at <==> Stays(items, d, group, i))
  {
    at := [];
    if n > 0 {
      at := ItemsKeptExactlyWhen(items, d, group, n - 1);
      StaysExactlyWhen(items, d, group, n - 1);
      if Stays(items, d, group, n - 1) { at := at + [n - 1]; }
    }
  }

  /** Lists and tuples are never removed; what they keep depends on whether their strings give an order once joined. */
  lemma ListsKeepExactly(items: seq<Json>, d: Detector) returns (kept: seq<Json>, at: seq<nat>)
    ensures Sanitized(List(items), d) == Some(List(kept)) && Sanitized(Tuple(items), d) == Some(Tuple(kept))
    ensures |at| == |kept| && forall k, l :: 0 <= k < l < |at| ==> at[k] < at[l]
    ensures forall k :: 0 <= k < |at| ==> at[k] < |items| && Sanitized(items[at[k]], d) == Some(kept[k])
    ensures forall i :: 0 <= i < |items| ==> (i in at <==> Stays(items, d, GroupOf(items, d), i))
  {
    kept := SanitizedItems(items, d, GroupOf(items, d), |items|);
    at := ItemsKeptExactlyWhen(items, d, GroupOf(items, d), |items|);
  }
}
