/**
  How much the greedy matching of the extraction evaluation credits: the most that any matching could, for every
  list of values, exactly when the comparison of values has no Z pattern. Comparing dates by their normal form has
  none, comparing money has one if some text states two amounts, and comparing texts by containment has one.
 */
module ExtractionCredit {
  import opened Common
  import opened Text
  import opened Extraction
  import opened Grounding

  /** `matches(extracted, expected)`. */
  type Relation = (string, string) -> bool

  /** If three of the four pairs of two extracted and two expected values match, so does the fourth. */
  ghost predicate NoZ(matches: Relation) {
    forall a1, a2, e1, e2 :: matches(a1, e1) && matches(a1, e2) && matches(a2, e1) ==> matches(a2, e2)
  }

  /** No matching of the same values has more pairs than the greedy pass credits. */
  ghost predicate CreditsMost(actual: seq<string>, expected: seq<string>, cited: seq<bool>, matches: Relation)
    requires |expected| == |cited|
  {
    forall q: Progress :: IsMatching(q, actual, Supported(expected, cited, |expected|), matches) ==>
      |q.pairs| <= |Credited(actual, expected, cited, matches, |expected|).pairs|
  }

  ghost predicate GreedyMaximal(matches: Relation) {
    forall actual: seq<string>, expected: seq<string>, cited: seq<bool>
      | |expected| == |cited| :: CreditsMost(actual, expected, cited, matches)
  }

  // ------------------------------------------------------- values compared by a key

  function Keys<K>(s: seq<string>, key: string -> K): (r: seq<K>)
    ensures |r| == |s| && forall i :: 0 <= i < |s| ==> r[i] == key(s[i])
  {
    seq(|s|, i requires 0 <= i < |s| => key(s[i]))
  }

  /** An extracted and an expected value match exactly when they have the same key. */
  ghost predicate ByKeys<K(!new)>(matches: Relation, keyA: string -> K, keyE: string -> K) {
    forall a, e :: matches(a, e) <==> keyA(a) == keyE(e)
  }

  lemma KeysRemoveAt<K>(s: seq<string>, key: string -> K, k: nat)
    requires k < |s|
    ensures multiset(Keys(s, key)) == multiset(Keys(RemoveAt(s, k), key)) + multiset{key(s[k])}
  {
    var ks := Keys(s, key);
    assert Keys(RemoveAt(s, k), key) == ks[..k] + ks[k + 1..];
    assert ks == ks[..k] + ([ks[k]] + ks[k + 1..]);
  }

  lemma KeysSnoc<K>(s: seq<string>, x: string, key: string -> K)
    ensures multiset(Keys(s + [x], key)) == multiset(Keys(s, key)) + multiset{key(x)}
  {
    assert Keys(s + [x], key) == Keys(s, key) + [key(x)];
  }

  function IndexIn(s: seq<string>, x: string): (k: nat)
    requires x in s
    ensures k < |s| && s[k] == x
  {
    if s[0] == x then 0 else 1 + IndexIn(s[1..], x)
  }

  lemma WithoutOne<T>(x: T, part: multiset<T>, whole: multiset<T>)
    requires multiset{x} + part <= whole + multiset{x}
    ensures part <= whole
  {
    forall y ensures part[y] <= whole[y] {
      assert (multiset{x} + part)[y] <= (whole + multiset{x})[y];
    }
  }

  /** A part of a collection of values has a part of its keys. */
  lemma {:induction false} KeysMonotone<K>(part: seq<string>, whole: seq<string>, key: string -> K)
    requires multiset(part) <= multiset(whole)
    ensures multiset(Keys(part, key)) <= multiset(Keys(whole, key))
  {
    if part == [] {
      assert Keys(part, key) == [];
    } else {
      assert part == [part[0]] + part[1..] && part[0] in multiset(part);
      var k := IndexIn(whole, part[0]);
      RemoveAtRemoves(whole, k);
      WithoutOne(part[0], multiset(part[1..]), multiset(RemoveAt(whole, k)));
      KeysMonotone(part[1..], RemoveAt(whole, k), key);
      assert RemoveAt(part, 0) == part[1..];
      KeysRemoveAt(part, key, 0);
      KeysRemoveAt(whole, key, k);
    }
  }

  lemma LeftoversStep<K(!new)>(unmatched: seq<string>, wanted: string, matches: Relation, keyA: string -> K, keyE: string -> K)
    requires ByKeys(matches, keyA, keyE)
    ensures var k := FirstMatch(unmatched, wanted, matches, 0);
            multiset(Keys(if k.Some? then RemoveAt(unmatched, k.value) else unmatched, keyA)) ==
            multiset(Keys(unmatched, keyA)) - multiset{keyE(wanted)}
  {
    var k := FirstMatch(unmatched, wanted, matches, 0);
    if k.Some? {
      KeysRemoveAt(unmatched, keyA, k.value);
    } else {
      assert keyE(wanted) !in Keys(unmatched, keyA);
    }
  }

  /** The greedy pass leaves the extracted keys that no supported value asks for. */
  lemma {:induction false} LeftoversByKeys<K(!new)>(actual: seq<string>, expected: seq<string>, cited: seq<bool>,
                                                  matches: Relation, keyA: string -> K, keyE: string -> K, n: nat)
    requires n <= |expected| == |cited| && ByKeys(matches, keyA, keyE)
    ensures multiset(Keys(Credited(actual, expected, cited, matches, n).unmatched, keyA)) ==
            multiset(Keys(actual, keyA)) - multiset(Keys(Supported(expected, cited, n), keyE))
  {
    if n > 0 {
      LeftoversByKeys(actual, expected, cited, matches, keyA, keyE, n - 1);
      if cited[n - 1] {
        KeysSnoc(Supported(expected, cited, n - 1), expected[n - 1], keyE);
        LeftoversStep(Credited(actual, expected, cited, matches, n - 1).unmatched, expected[n - 1], matches, keyA, keyE);
      }
    }
  }

  /** With keys, the greedy pass credits the size of the common part of the two collections of keys. */
  lemma CreditByKeys<K(!new)>(actual: seq<string>, expected: seq<string>, cited: seq<bool>,
                            matches: Relation, keyA: string -> K, keyE: string -> K)
    requires |expected| == |cited| && ByKeys(matches, keyA, keyE)
    ensures |Credited(actual, expected, cited, matches, |expected|).pairs| ==
            |multiset(Keys(actual, keyA)) * multiset(Keys(Supported(expected, cited, |expected|), keyE))|
  {
    var n := |expected|;
    var p := Credited(actual, expected, cited, matches, n);
    var a, s := multiset(Keys(actual, keyA)), multiset(Keys(Supported(expected, cited, n), keyE));
    LeftoversByKeys(actual, expected, cited, matches, keyA, keyE, n);
    CreditIsMatching(actual, expected, cited, matches, n);
    assert |multiset(p.unmatched)| + |multiset(Firsts(p.pairs))| == |multiset(actual)|;
    assert (a - s) + (a * s) == a;
    assert |multiset(Keys(p.unmatched, keyA))| == |p.unmatched|;
  }

  lemma SubmultisetSize<K>(part: multiset<K>, whole: multiset<K>)
    requires part <= whole
    ensures |part| <= |whole|
  {
    assert whole == part + (whole - part);
  }

  /** With keys, no matching has more pairs than the common part of the two collections of keys. */
  lemma MatchingByKeys<K(!new)>(q: Progress, actual: seq<string>, supported: seq<string>,
                              matches: Relation, keyA: string -> K, keyE: string -> K)
    requires IsMatching(q, actual, supported, matches) && ByKeys(matches, keyA, keyE)
    ensures |q.pairs| <= |multiset(Keys(actual, keyA)) * multiset(Keys(supported, keyE))|
  {
    var firsts, seconds := Firsts(q.pairs), Seconds(q.pairs);
    KeysMonotone(firsts, actual, keyA);
    KeysMonotone(seconds, supported, keyE);
    forall i | 0 <= i < |q.pairs| ensures keyA(firsts[i]) == keyE(seconds[i]) {
      assert matches(q.pairs[i].0, q.pairs[i].1);
    }
    assert Keys(firsts, keyA) == Keys(seconds, keyE);
    SubmultisetSize(multiset(Keys(firsts, keyA)), multiset(Keys(actual, keyA)) * multiset(Keys(supported, keyE)));
    assert |multiset(Keys(firsts, keyA))| == |q.pairs|;
  }

  // ------------------------------------------------------------- with and without a Z

  /** The extracted values that match an expected one. */
  ghost function Partners(matches: Relation, e: string): iset<string> {
    iset a | matches(a, e)
  }

  /** Without a Z pattern all expected values that match `a` have the same partners: they are its key. */
  ghost function PartnersKey(matches: Relation, a: string): Option<iset<string>> {
    if exists e :: matches(a, e) then
      var e :| matches(a, e);
      Some(Partners(matches, e))
    else None
  }

  lemma PartnersAgree(matches: Relation, a: string, e: string, e': string)
    requires NoZ(matches) && matches(a, e) && matches(a, e')
    ensures Partners(matches, e) == Partners(matches, e')
  {
  }

  lemma NoZHasKeys(matches: Relation)
    requires NoZ(matches)
    ensures ByKeys(matches, a => PartnersKey(matches, a), e => Some(Partners(matches, e)))
  {
    forall a, e ensures matches(a, e) <==> PartnersKey(matches, a) == Some(Partners(matches, e)) {
      if matches(a, e) {
        var e' :| matches(a, e') && PartnersKey(matches, a) == Some(Partners(matches, e'));
        PartnersAgree(matches, a, e, e');
      }
      if PartnersKey(matches, a) == Some(Partners(matches, e)) {
        var e' :| matches(a, e') && PartnersKey(matches, a) == Some(Partners(matches, e'));
        assert a in Partners(matches, e');
      }
    }
  }

  lemma NoZCreditsMost(actual: seq<string>, expected: seq<string>, cited: seq<bool>, matches: Relation)
    requires |expected| == |cited| && NoZ(matches)
    ensures CreditsMost(actual, expected, cited, matches)
  {
    var keyA, keyE := (a: string) => PartnersKey(matches, a), (e: string) => Some(Partners(matches, e));
    NoZHasKeys(matches);
    CreditByKeys(actual, expected, cited, matches, keyA, keyE);
    forall q: Progress | IsMatching(q, actual, Supported(expected, cited, |expected|), matches)
      ensures |q.pairs| <= |Credited(actual, expected, cited, matches, |expected|).pairs|
    {
      MatchingByKeys(q, actual, Supported(expected, cited, |expected|), matches, keyA, keyE);
    }
  }

  lemma BothSupported(e1: string, e2: string)
    ensures Supported([e1, e2], [true, true], 2) == [e1, e2]
  {
    assert Supported([e1, e2], [true, true], 1) == [e1];
  }

  /** The pairing the greedy pass misses. */
  lemma CrossedPairing(a1: string, a2: string, e1: string, e2: string, matches: Relation)
    requires matches(a1, e2) && matches(a2, e1)
    ensures IsMatching(Progress([], [(a2, e1), (a1, e2)], []), [a1, a2], [e1, e2], matches)
  {
    var pairs := [(a2, e1), (a1, e2)];
    assert Firsts(pairs) == [a2, a1] && Seconds(pairs) == [e1, e2];
    assert multiset([a2, a1]) == multiset([a1, a2]);
  }

  /** In a Z pattern the greedy pass spends the first extracted value where only the second one could be used. */
  lemma ZMissesCredit(a1: string, a2: string, e1: string, e2: string, matches: Relation)
    requires matches(a1, e1) && matches(a1, e2) && matches(a2, e1) && !matches(a2, e2)
    ensures |Credited([a1, a2], [e1, e2], [true, true], matches, 2).pairs| == 1
    ensures IsMatching(Progress([], [(a2, e1), (a1, e2)], []), [a1, a2], Supported([e1, e2], [true, true], 2), matches)
  {
    assert FirstMatch([a1, a2], e1, matches, 0) == Some(0);
    assert RemoveAt([a1, a2], 0) == [a2];
    assert Credited([a1, a2], [e1, e2], [true, true], matches, 1).unmatched == [a2];
    assert FirstMatch([a2], e2, matches, 0) == None;
    BothSupported(e1, e2);
    CrossedPairing(a1, a2, e1, e2, matches);
  }

  /** The greedy pass credits the most it can, for every list of values, exactly when the comparison has no Z pattern. */
  lemma GreedyMaximalExactlyWhen(matches: Relation)
    ensures GreedyMaximal(matches) <==> NoZ(matches)
  {
    if NoZ(matches) {
      forall actual: seq<string>, expected: seq<string>, cited: seq<bool> | |expected| == |cited|
        ensures CreditsMost(actual, expected, cited, matches)
      {
        NoZCreditsMost(actual, expected, cited, matches);
      }
    } else {
      var a1, a2, e1, e2 :| matches(a1, e1) && matches(a1, e2) && matches(a2, e1) && !matches(a2, e2);
      ZMissesCredit(a1, a2, e1, e2, matches);
      assert !CreditsMost([a1, a2], [e1, e2], [true, true], matches);
    }
  }

  // ----------------------------------------------------------- values of given lists

  /** No Z pattern among the given extracted and expected values. */
  ghost predicate NoZAmong(extracted: set<string>, wanted: set<string>, matches: Relation) {
    forall a1, a2, e1, e2 | a1 in extracted && a2 in extracted && e1 in wanted && e2 in wanted ::
      matches(a1, e1) && matches(a1, e2) && matches(a2, e1) ==> matches(a2, e2)
  }

  predicate From(values: seq<string>, all: set<string>) {
    forall i :: 0 <= i < |values| ==> values[i] in all
  }

  /** The greedy pass credits the most it can however the given values are selected, repeated, ordered and cited. */
  ghost predicate MaximalAmong(extracted: set<string>, wanted: set<string>, matches: Relation) {
    forall actual: seq<string>, expected: seq<string>, cited: seq<bool>
      | |expected| == |cited| && From(actual, extracted) && From(expected, wanted) :: CreditsMost(actual, expected, cited, matches)
  }

  function Restricted(extracted: set<string>, wanted: set<string>, matches: Relation): Relation {
    (a, e) => a in extracted && e in wanted && matches(a, e)
  }

  lemma {:induction false} FirstMatchAlike(unmatched: seq<string>, e: string, matches: Relation, alike: Relation, k: nat)
    requires k <= |unmatched| && forall i :: 0 <= i < |unmatched| ==> (matches(unmatched[i], e) <==> alike(unmatched[i], e))
    ensures FirstMatch(unmatched, e, matches, k) == FirstMatch(unmatched, e, alike, k)
    decreases |unmatched| - k
  {
    if k < |unmatched| { FirstMatchAlike(unmatched, e, matches, alike, k + 1); }
  }

  /** The pass only compares the values of its lists. */
  lemma {:induction false} CreditedAlike(actual: seq<string>, expected: seq<string>, cited: seq<bool>, matches: Relation, alike: Relation,
                                         extracted: set<string>, wanted: set<string>, n: nat)
    requires n <= |expected| == |cited| && From(actual, extracted) && From(expected, wanted)
    requires forall a, e :: a in extracted && e in wanted ==> (matches(a, e) <==> alike(a, e))
    ensures Credited(actual, expected, cited, matches, n) == Credited(actual, expected, cited, alike, n)
    ensures From(Credited(actual, expected, cited, matches, n).unmatched, extracted)
  {
    if n > 0 {
      CreditedAlike(actual, expected, cited, matches, alike, extracted, wanted, n - 1);
      FirstMatchAlike(Credited(actual, expected, cited, matches, n - 1).unmatched, expected[n - 1], matches, alike, 0);
    }
  }

  lemma {:induction false} SupportedAreExpected(expected: seq<string>, cited: seq<bool>, wanted: set<string>, n: nat)
    requires n <= |expected| == |cited| && From(expected, wanted)
    ensures From(Supported(expected, cited, n), wanted)
  {
    if n > 0 { SupportedAreExpected(expected, cited, wanted, n - 1); }
  }

  lemma PartIsFrom(part: seq<string>, whole: seq<string>, all: set<string>)
    requires multiset(part) <= multiset(whole) && From(whole, all)
    ensures From(part, all)
  {
    forall i | 0 <= i < |part| ensures part[i] in all {
      assert part[i] in multiset(part) && part[i] in multiset(whole);
      assert part[i] in whole;
    }
  }

  lemma MatchingAlike(q: Progress, actual: seq<string>, supported: seq<string>, matches: Relation, extracted: set<string>, wanted: set<string>)
    requires IsMatching(q, actual, supported, matches) && From(actual, extracted) && From(supported, wanted)
    ensures IsMatching(q, actual, supported, Restricted(extracted, wanted, matches))
  {
    PartIsFrom(Firsts(q.pairs), actual, extracted);
    PartIsFrom(Seconds(q.pairs), supported, wanted);
    forall i | 0 <= i < |q.pairs| ensures q.pairs[i].0 in extracted && q.pairs[i].1 in wanted {
      assert q.pairs[i].0 == Firsts(q.pairs)[i] && q.pairs[i].1 == Seconds(q.pairs)[i];
    }
  }

  lemma NoZAmongCreditsMost(actual: seq<string>, expected: seq<string>, cited: seq<bool>, matches: Relation,
                            extracted: set<string>, wanted: set<string>)
    requires |expected| == |cited| && From(actual, extracted) && From(expected, wanted) && NoZAmong(extracted, wanted, matches)
    ensures CreditsMost(actual, expected, cited, matches)
  {
    var only, n := Restricted(extracted, wanted, matches), |expected|;
    assert NoZ(only);
    NoZCreditsMost(actual, expected, cited, only);
    CreditedAlike(actual, expected, cited, matches, only, extracted, wanted, n);
    SupportedAreExpected(expected, cited, wanted, n);
    forall q: Progress | IsMatching(q, actual, Supported(expected, cited, n), matches)
      ensures |q.pairs| <= |Credited(actual, expected, cited, matches, n).pairs|
    {
      MatchingAlike(q, actual, Supported(expected, cited, n), matches, extracted, wanted);
    }
  }

  lemma ZAmongMissesCredit(a1: string, a2: string, e1: string, e2: string, extracted: set<string>, wanted: set<string>, matches: Relation)
    requires a1 in extracted && a2 in extracted && e1 in wanted && e2 in wanted
    requires matches(a1, e1) && matches(a1, e2) && matches(a2, e1) && !matches(a2, e2)
    ensures !MaximalAmong(extracted, wanted, matches)
  {
    var actual, expected, cited := [a1, a2], [e1, e2], [true, true];
    ZMissesCredit(a1, a2, e1, e2, matches);
    assert From(actual, extracted) && From(expected, wanted) && !CreditsMost(actual, expected, cited, matches);
  }

  /** For given values: the greedy pass credits the most it can on every list of them exactly when they have no Z pattern. */
  lemma MaximalAmongExactlyWhen(extracted: set<string>, wanted: set<string>, matches: Relation)
    ensures MaximalAmong(extracted, wanted, matches) <==> NoZAmong(extracted, wanted, matches)
  {
    if NoZAmong(extracted, wanted, matches) {
      forall actual: seq<string>, expected: seq<string>, cited: seq<bool>
        | |expected| == |cited| && From(actual, extracted) && From(expected, wanted)
        ensures CreditsMost(actual, expected, cited, matches)
      {
        NoZAmongCreditsMost(actual, expected, cited, matches, extracted, wanted);
      }
    } else {
      var a1, a2, e1, e2 :| a1 in extracted && a2 in extracted && e1 in wanted && e2 in wanted
                            && matches(a1, e1) && matches(a1, e2) && matches(a2, e1) && !matches(a2, e2);
      ZAmongMissesCredit(a1, a2, e1, e2, extracted, wanted, matches);
    }
  }

  // ------------------------------------------------------------------ normal forms

  /** ASCII characters are folded to lower case. */
  ghost predicate FoldsAscii(fold: CharFold) {
    forall c: char :: c < 128 as char ==> fold(c) == [if 'A' <= c <= 'Z' then c + 32 as char else c]
  }

  predicate IsAlnum(c: char) {
    'a' <= c <= 'z' || '0' <= c <= '9'
  }

  /** Every run of other characters becomes one space. */
  function Squeezed(s: string): string {
    if s == "" then ""
    else if IsAlnum(s[0]) then [s[0]] + Squeezed(s[1..])
    else if |s| > 1 && !IsAlnum(s[1]) then Squeezed(s[1..])
    else " " + Squeezed(s[1..])
  }

  function Normalize(text: string, fold: CharFold): string {
    Strip(Squeezed(Fold(text, fold)))
  }

  /** Comparison of dates: by a normal form. */
  function SameForm(form: string -> string): Relation {
    (a, e) => form(a) == form(e)
  }

  /** Comparison of texts: equal normal forms, or the shorter one has three words and is contained in the longer one. */
  predicate TextMatches(actual: string, expected: string, fold: CharFold) {
    var a, e := Normalize(actual, fold), Normalize(expected, fold);
    var (shorter, longer) := if |e| < |a| then (e, a) else (a, e);
    a == e || (|Words(shorter)| >= 3 && Contains(longer, shorter))
  }

  function SameText(fold: CharFold): Relation {
    (a, e) => TextMatches(a, e, fold)
  }

  /** Letters and digits in words with one space between them: such text is its own normal form. */
  predicate IsNormal(s: string) {
    && (s == "" || (IsAlnum(s[0]) && IsAlnum(s[|s| - 1])))
    && Spread(s)
  }

  predicate Spread(s: string) {
    && (forall i :: 0 <= i < |s| ==> IsAlnum(s[i]) || s[i] == ' ')
    && forall i :: 0 <= i < |s| - 1 ==> IsAlnum(s[i]) || IsAlnum(s[i + 1])
  }

  lemma {:induction false} FoldedIsFixed(s: string, fold: CharFold)
    requires FoldsAscii(fold) && Spread(s)
    ensures Fold(s, fold) == s
  {
    if s != "" {
      assert s[0] == ' ' || IsAlnum(s[0]);
      FoldedIsFixed(s[1..], fold);
    }
  }

  lemma {:induction false} SqueezedIsFixed(s: string)
    requires Spread(s)
    ensures Squeezed(s) == s
  {
    if s != "" { SqueezedIsFixed(s[1..]); }
  }

  lemma NormalIsFixed(s: string, fold: CharFold)
    requires FoldsAscii(fold) && IsNormal(s)
    ensures Normalize(s, fold) == s
  {
    FoldedIsFixed(s, fold);
    SqueezedIsFixed(s);
    if s != "" { StripTrimmed(s); }
  }

  lemma {:induction false} SqueezedIsSpread(s: string)
    ensures Spread(Squeezed(s)) && (s != "" ==> Squeezed(s) != "" && (IsAlnum(Squeezed(s)[0]) <==> IsAlnum(s[0])))
  {
    if s != "" { SqueezedIsSpread(s[1..]); }
  }

  /** Every text has a normal form in words of letters and digits with one space between them, which is its own. */
  lemma NormalizeIsNormal(text: string, fold: CharFold)
    ensures IsNormal(Normalize(text, fold))
    ensures FoldsAscii(fold) ==> Normalize(Normalize(text, fold), fold) == Normalize(text, fold)
  {
    var s := Squeezed(Fold(text, fold));
    SqueezedIsSpread(Fold(text, fold));
    var b := StripBounds(s);
    var r := s[b.0..b.1];
    forall i | 0 <= i < |r| ensures r[i] == s[b.0 + i] {
    }
    assert Spread(r) && !IsAlnum(' ') && IsSpace(' ');
    if FoldsAscii(fold) { NormalIsFixed(r, fold); }
  }

  /** The letters and digits of a text, in order. */
  function Letters(s: string): string {
    if s == "" then "" else (if IsAlnum(s[0]) then [s[0]] else "") + Letters(s[1..])
  }

  lemma {:induction false} LettersAppend(a: string, b: string)
    ensures Letters(a + b) == Letters(a) + Letters(b)
  {
    if a == "" {
      assert a + b == b;
    } else {
      TailOfAppend(a, b);
      LettersAppend(a[1..], b);
      Assoc(if IsAlnum(a[0]) then [a[0]] else "", Letters(a[1..]), Letters(b));
    }
  }

  lemma {:induction false} SqueezedKeepsLetters(s: string)
    ensures Letters(Squeezed(s)) == Letters(s)
  {
    if s != "" {
      SqueezedKeepsLetters(s[1..]);
      if IsAlnum(s[0]) || |s| == 1 || IsAlnum(s[1]) { assert Squeezed(s)[1..] == Squeezed(s[1..]); }
    }
  }

  lemma {:induction false} BlankHasNoLetters(s: string)
    requires Blank(s)
    ensures Letters(s) == ""
  {
    if s != "" { BlankHasNoLetters(s[1..]); }
  }

  /** Normalising loses no letter and no digit of the folded text. */
  lemma NormalizeKeepsLetters(text: string, fold: CharFold)
    ensures Letters(Normalize(text, fold)) == Letters(Fold(text, fold))
  {
    var s := Squeezed(Fold(text, fold));
    SqueezedKeepsLetters(Fold(text, fold));
    var b := StripBounds(s);
    assert s == s[..b.0] + (s[b.0..b.1] + s[b.1..]);
    LettersAppend(s[..b.0], s[b.0..b.1] + s[b.1..]);
    LettersAppend(s[b.0..b.1], s[b.1..]);
    BlankHasNoLetters(s[..b.0]);
    BlankHasNoLetters(s[b.1..]);
  }

  lemma ContainedIsShorter(longer: string, shorter: string)
    requires Contains(longer, shorter)
    ensures |shorter| <= |longer| && (|shorter| == |longer| ==> shorter == longer)
  {
  }

  /** Two texts match when their normal forms are equal, or one of three words or more stands in the other: which is which does not matter. */
  lemma TextsMatchExactlyWhen(a: string, e: string, fold: CharFold)
    ensures var x, y := Normalize(a, fold), Normalize(e, fold);
            TextMatches(a, e, fold) <==>
              x == y || (|Words(x)| >= 3 && Contains(y, x)) || (|Words(y)| >= 3 && Contains(x, y))
    ensures TextMatches(a, e, fold) <==> TextMatches(e, a, fold)
  {
    var x, y := Normalize(a, fold), Normalize(e, fold);
    if Contains(y, x) { ContainedIsShorter(y, x); }
    if Contains(x, y) { ContainedIsShorter(x, y); }
  }

  /** Comparison by a normal form has no Z pattern, so the greedy pass credits the most it can. */
  lemma SameFormCreditsMost(form: string -> string)
    ensures NoZ(SameForm(form)) && GreedyMaximal(SameForm(form))
  {
    GreedyMaximalExactlyWhen(SameForm(form));
  }

  /** Comparison of money: some amount is stated in both texts. */
  function SameAmount(amounts: string -> set<string>): Relation {
    (a, e) => amounts(a) * amounts(e) != {}
  }

  /** Every amount of a text can be written alone. */
  ghost predicate Writable(amounts: string -> set<string>) {
    forall s, x :: x in amounts(s) ==> exists t :: amounts(t) == {x}
  }

  ghost predicate OneAmountEach(amounts: string -> set<string>) {
    forall s, x, y :: x in amounts(s) && y in amounts(s) ==> x == y
  }

  lemma SharedAmount(amounts: string -> set<string>, a: string, e: string) returns (x: string)
    requires SameAmount(amounts)(a, e)
    ensures x in amounts(a) && x in amounts(e)
  {
    assert amounts(a) * amounts(e) != {};
    x :| x in amounts(a) * amounts(e);
  }

  lemma OneAmountHasNoZ(amounts: string -> set<string>)
    requires OneAmountEach(amounts)
    ensures NoZ(SameAmount(amounts))
  {
    var matches := SameAmount(amounts);
    forall a1, a2, e1, e2 | matches(a1, e1) && matches(a1, e2) && matches(a2, e1) ensures matches(a2, e2) {
      var x := SharedAmount(amounts, a1, e1);
      var y := SharedAmount(amounts, a1, e2);
      var z := SharedAmount(amounts, a2, e1);
      assert x in amounts(a2) * amounts(e2);
    }
  }

  /** A text with two amounts, both also stated alone, is spent on either of them. */
  lemma TwoAmountsMakeZ(amounts: string -> set<string>, both: string, one: string, two: string, x: string, y: string)
    requires x in amounts(both) && y in amounts(both) && x != y && amounts(one) == {x} && amounts(two) == {y}
    ensures !NoZ(SameAmount(amounts))
  {
    var matches := SameAmount(amounts);
    assert x in amounts(both) * amounts(one) && y in amounts(both) * amounts(two) && x in amounts(one) * amounts(one);
    assert matches(both, one) && matches(both, two) && matches(one, one) && !matches(one, two);
  }

  /** Comparing money credits the most it can exactly when no text states two amounts. */
  lemma MoneyCreditsMostExactlyWhen(amounts: string -> set<string>)
    requires Writable(amounts)
    ensures GreedyMaximal(SameAmount(amounts)) <==> OneAmountEach(amounts)
  {
    GreedyMaximalExactlyWhen(SameAmount(amounts));
    if OneAmountEach(amounts) {
      OneAmountHasNoZ(amounts);
    } else {
      var both, x, y :| x in amounts(both) && y in amounts(both) && x != y;
      var one :| amounts(one) == {x};
      var two :| amounts(two) == {y};
      TwoAmountsMakeZ(amounts, both, one, two, x, y);
    }
  }

  /** Two texts of at least three words, neither within the other. */
  predicate TwoClauses(head: string, tail: string) {
    && IsNormal(head) && IsNormal(tail) && |Words(head)| >= 3 && |Words(tail)| >= 3
    && !Contains(head, tail) && !Contains(tail, head)
  }

  lemma WholeIsNormal(head: string, tail: string)
    requires IsNormal(head) && IsNormal(tail) && head != "" && tail != ""
    ensures IsNormal(head + " " + tail)
    ensures Contains(head + " " + tail, head) && Contains(head + " " + tail, tail)
  {
    var whole := head + " " + tail;
    ContainsSlice(whole, 0, |head|);
    ContainsSlice(whole, |head| + 1, |whole|);
    assert whole[0..|head|] == head && whole[|head| + 1..|whole|] == tail;
  }

  lemma ClausesMatch(head: string, tail: string, fold: CharFold)
    requires FoldsAscii(fold) && TwoClauses(head, tail)
    ensures TextMatches(head + " " + tail, head, fold) && TextMatches(head + " " + tail, tail, fold)
    ensures TextMatches(head, head, fold) && !TextMatches(head, tail, fold)
  {
    WholeIsNormal(head, tail);
    NormalIsFixed(head + " " + tail, fold);
    NormalIsFixed(head, fold);
    NormalIsFixed(tail, fold);
    ContainsItself(head);
  }

  /**
    When a whole and its head are extracted, and its head and its tail are expected, the greedy pass spends the whole
    on the head and credits one value; pairing the heads, and the whole with the tail, would credit both.
   */
  lemma ContainmentMissesCredit(head: string, tail: string, fold: CharFold)
    requires FoldsAscii(fold) && TwoClauses(head, tail)
    ensures var actual, expected := [head + " " + tail, head], [head, tail];
            && |Credited(actual, expected, [true, true], SameText(fold), 2).pairs| == 1
            && IsMatching(Progress([], [(head, head), (head + " " + tail, tail)], []), actual,
                          Supported(expected, [true, true], 2), SameText(fold))
    ensures !NoZ(SameText(fold)) && !GreedyMaximal(SameText(fold))
  {
    ClausesMatch(head, tail, fold);
    ZMissesCredit(head + " " + tail, head, head, tail, SameText(fold));
    GreedyMaximalExactlyWhen(SameText(fold));
  }

  lemma SameLengthContains(a: string, b: string)
    requires |a| == |b| && Contains(a, b)
    ensures a == b
  {
  }

  predicate IsAlnumWord(s: string) {
    s != "" && forall i :: 0 <= i < |s| ==> IsAlnum(s[i])
  }

  lemma WordIsWord(w: string)
    requires IsAlnumWord(w)
    ensures IsWord(w) && IsNormal(w)
  {
  }

  lemma ThreeWords(a: string, b: string, c: string, text: string)
    requires IsAlnumWord(a) && IsAlnumWord(b) && IsAlnumWord(c) && text == a + " " + (b + " " + c)
    ensures IsNormal(text) && Words(text) == [a, b, c]
  {
    WordIsWord(a);
    WordIsWord(b);
    WordIsWord(c);
    WholeIsNormal(b, c);
    WholeIsNormal(a, b + " " + c);
    assert Join([b, c]) == b + " " + c && [a, b, c][1..] == [b, c];
    WordsOfJoin([a, b, c]);
  }

  lemma HeadClause()
    ensures IsNormal("net ten days") && |Words("net ten days")| == 3
  {
    ThreeWords("net", "ten", "days", "net ten days");
  }

  lemma TailClause()
    ensures IsNormal("on each bill") && |Words("on each bill")| == 3
  {
    ThreeWords("on", "each", "bill", "on each bill");
  }

  lemma DifferentClauses(head: string, tail: string)
    requires |head| == |tail| && head != tail
    ensures !Contains(head, tail) && !Contains(tail, head)
  {
    if Contains(head, tail) { SameLengthContains(head, tail); }
    if Contains(tail, head) { SameLengthContains(tail, head); }
  }

  /** Text comparison misses credit on text the engine can be given. */
  lemma TextCanMissCredit(fold: CharFold) returns (head: string, tail: string)
    requires FoldsAscii(fold)
    ensures head == "net ten days" && tail == "on each bill"
    ensures var actual, expected := [head + " " + tail, head], [head, tail];
            && |Credited(actual, expected, [true, true], SameText(fold), 2).pairs| == 1
            && IsMatching(Progress([], [(head, head), (head + " " + tail, tail)], []), actual,
                          Supported(expected, [true, true], 2), SameText(fold))
    ensures !GreedyMaximal(SameText(fold))
  {
    head, tail := "net ten days", "on each bill";
    HeadClause();
    TailClause();
    assert head[0] != tail[0];
    DifferentClauses(head, tail);
    ContainmentMissesCredit(head, tail, fold);
  }
}
