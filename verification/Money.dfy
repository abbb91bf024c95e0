/** The normal form of money numbers: any grouping and either decimal mark give the same text. */
module Money {
  import opened Common
  import opened Text

  predicate IsDigit(c: char) { '0' <= c <= '9' }

  predicate IsMark(c: char) { c == ',' || c == '.' }

  /** What may stand between groups of three digits. */
  predicate IsSeparator(c: char) { IsSpace(c) || c == '\'' || IsMark(c) }

  predicate AllDigits(s: string) {
    forall i :: 0 <= i < |s| ==> IsDigit(s[i])
  }

  // -------------------------------------------------------------- the canonical text

  /** Without whitespace and apostrophes. */
  function Compact(s: string): string {
    if s == "" then ""
    else if IsSpace(s[0]) || s[0] == '\'' then Compact(s[1..])
    else [s[0]] + Compact(s[1..])
  }

  function DigitsOnly(s: string): string {
    if s == "" then "" else if IsDigit(s[0]) then [s[0]] + DigitsOnly(s[1..]) else DigitsOnly(s[1..])
  }

  /** The index of the last decimal point or comma. */
  function LastMark(s: string): (r: Option<nat>)
    ensures r.Some? ==> r.value < |s| && IsMark(s[r.value]) && forall i :: r.value < i < |s| ==> !IsMark(s[i])
    ensures r.None? ==> forall i :: 0 <= i < |s| ==> !IsMark(s[i])
  {
    if s == "" then None
    else if IsMark(s[|s| - 1]) then Some(|s| - 1)
    else LastMark(s[..|s| - 1])
  }

  /** `rstrip("0")`. */
  function StripZeros(s: string): string {
    if s != "" && s[|s| - 1] == '0' then StripZeros(s[..|s| - 1]) else s
  }

  function DigitOf(c: char): nat
    requires IsDigit(c)
  {
    c as nat - '0' as nat
  }

  function CharOf(d: nat): (c: char)
    requires d < 10
    ensures IsDigit(c) && DigitOf(c) == d
  {
    ('0' as nat + d) as char
  }

  /** `int` of a digit string. */
  function Number(s: string): nat
    requires AllDigits(s)
  {
    if s == "" then 0 else 10 * Number(s[..|s| - 1]) + DigitOf(s[|s| - 1])
  }

  /** `str` of an integer. */
  function Show(n: nat): (s: string)
    ensures s != "" && AllDigits(s)
  {
    if n < 10 then [CharOf(n)] else Show(n / 10) + [CharOf(n % 10)]
  }

  lemma {:induction false} DigitsOnlyAreDigits(s: string)
    ensures AllDigits(DigitsOnly(s))
  {
    if s != "" { DigitsOnlyAreDigits(s[1..]); }
  }

  function Whole(s: string, empty: string): string {
    DigitsOnlyAreDigits(s);
    if DigitsOnly(s) == "" then empty else Show(Number(DigitsOnly(s)))
  }

  /** A last mark with one or two characters behind it is the decimal mark. */
  function DecimalMark(compact: string): Option<nat> {
    var last := LastMark(compact);
    if last.Some? && |compact| - last.value - 1 in {1, 2} then last else None
  }

  function Canonical(raw: string): string {
    var compact := Compact(raw);
    match DecimalMark(compact)
    case None => Whole(compact, "")
    case Some(k) =>
      var decimals := StripZeros(DigitsOnly(compact[k + 1..]));
      var whole := Whole(compact[..k], "0");
      if decimals != "" then whole + "." + decimals else whole
  }

  // ------------------------------------------------------------------ the grammar

  /** A money number as written: digits, groups of three behind separators, and up to two decimals behind a mark. */
  datatype Written = Written(first: string, groups: seq<(char, string)>, mark: char, decimals: string)

  predicate GroupsValid(groups: seq<(char, string)>) {
    forall i :: 0 <= i < |groups| ==> IsSeparator(groups[i].0) && |groups[i].1| == 3 && AllDigits(groups[i].1)
  }

  predicate Valid(w: Written) {
    && w.first != "" && AllDigits(w.first) && (w.groups != [] ==> |w.first| <= 3) && GroupsValid(w.groups)
    && IsMark(w.mark) && |w.decimals| <= 2 && AllDigits(w.decimals)
  }

  function RenderGroups(groups: seq<(char, string)>): string {
    if groups == [] then "" else RenderGroups(groups[..|groups| - 1]) + ([groups[|groups| - 1].0] + groups[|groups| - 1].1)
  }

  function Head(w: Written): string {
    w.first + RenderGroups(w.groups)
  }

  function Render(w: Written): string {
    if w.decimals == "" then Head(w) else Head(w) + ([w.mark] + w.decimals)
  }

  function GroupDigits(groups: seq<(char, string)>): string {
    if groups == [] then "" else GroupDigits(groups[..|groups| - 1]) + groups[|groups| - 1].1
  }

  function Hundredths(decimals: string): (h: nat)
    requires |decimals| <= 2 && AllDigits(decimals)
    ensures h < 100
  {
    if |decimals| == 0 then 0
    else if |decimals| == 1 then 10 * DigitOf(decimals[0])
    else 10 * DigitOf(decimals[0]) + DigitOf(decimals[1])
  }

  lemma {:induction false} GroupDigitsAreDigits(groups: seq<(char, string)>)
    requires GroupsValid(groups)
    ensures AllDigits(GroupDigits(groups))
  {
    if groups != [] {
      assert GroupsValid(groups[..|groups| - 1]);
      GroupDigitsAreDigits(groups[..|groups| - 1]);
    }
  }

  /** The value in hundredths. */
  function Value(w: Written): nat
    requires Valid(w)
  {
    GroupDigitsAreDigits(w.groups);
    100 * Number(w.first + GroupDigits(w.groups)) + Hundredths(w.decimals)
  }

  /** The decimal normal form of a number of hundredths. */
  function NormalForm(value: nat): string {
    Show(value / 100) + DecimalText(value % 100)
  }

  function DecimalText(h: nat): string
    requires h < 100
  {
    if h == 0 then ""
    else if h % 10 == 0 then ['.', CharOf(h / 10)]
    else ['.', CharOf(h / 10), CharOf(h % 10)]
  }

  // ------------------------------------------------------------------------- lemmas

  lemma {:induction false} CompactAppend(a: string, b: string)
    ensures Compact(a + b) == Compact(a) + Compact(b)
  {
    if a == "" {
      assert a + b == b;
    } else {
      TailOfAppend(a, b);
      CompactAppend(a[1..], b);
    }
  }

  lemma {:induction false} DigitsOnlyAppend(a: string, b: string)
    ensures DigitsOnly(a + b) == DigitsOnly(a) + DigitsOnly(b)
  {
    if a == "" {
      assert a + b == b;
    } else {
      TailOfAppend(a, b);
      DigitsOnlyAppend(a[1..], b);
    }
  }

  lemma {:induction false} DigitsStay(s: string)
    requires AllDigits(s)
    ensures Compact(s) == s && DigitsOnly(s) == s
  {
    if s != "" {
      DigitsStay(s[1..]);
      assert s == [s[0]] + s[1..];
    }
  }

  lemma {:induction false} LastMarkBehind(a: string, digits: string)
    requires AllDigits(digits)
    ensures LastMark(a + digits) == LastMark(a)
  {
    if digits == "" {
      assert a + digits == a;
    } else {
      var n := |digits| - 1;
      assert (a + digits)[..|a + digits| - 1] == a + digits[..n];
      LastMarkBehind(a, digits[..n]);
    }
  }

  lemma LastMarkAt(a: string, mark: char, digits: string)
    requires IsMark(mark) && AllDigits(digits)
    ensures LastMark(a + ([mark] + digits)) == Some(|a|)
  {
    Assoc(a, [mark], digits);
    LastMarkBehind(a + [mark], digits);
  }

  /** The compacted head of a number has no decimal mark: its last mark has three digits or more behind it. */
  lemma {:induction false} HeadHasNoDecimalMark(first: string, groups: seq<(char, string)>)
    requires AllDigits(first) && GroupsValid(groups)
    ensures var h := Compact(first + RenderGroups(groups));
            && (LastMark(h).Some? ==> |h| - LastMark(h).value - 1 >= 3)
            && DigitsOnly(h) == first + GroupDigits(groups)
  {
    if groups == [] {
      assert first + RenderGroups(groups) == first;
      DigitsStay(first);
      LastMarkBehind("", first);
      assert "" + first == first;
    } else {
      var n := |groups| - 1;
      HeadHasNoDecimalMark(first, groups[..n]);
      GroupAdds(first, groups, first + RenderGroups(groups[..n]), groups[n].0, groups[n].1);
    }
  }

  lemma GroupAdds(first: string, groups: seq<(char, string)>, before: string, c: char, digits: string)
    requires groups != [] && groups[|groups| - 1] == (c, digits) && before == first + RenderGroups(groups[..|groups| - 1])
    requires IsSeparator(c) && |digits| == 3 && AllDigits(digits)
    requires var h := Compact(before); LastMark(h).Some? ==> |h| - LastMark(h).value - 1 >= 3
    requires DigitsOnly(Compact(before)) == first + GroupDigits(groups[..|groups| - 1])
    ensures var h := Compact(first + RenderGroups(groups));
            && (LastMark(h).Some? ==> |h| - LastMark(h).value - 1 >= 3)
            && DigitsOnly(h) == first + GroupDigits(groups)
  {
    Assoc(first, RenderGroups(groups[..|groups| - 1]), [c] + digits);
    CompactAppend(before, [c] + digits);
    CompactAppend([c], digits);
    DigitsStay(digits);
    var h := Compact(before);
    DigitsOnlyAppend(h, Compact([c]) + digits);
    DigitsOnlyAppend(Compact([c]), digits);
    Assoc(first, GroupDigits(groups[..|groups| - 1]), digits);
    if IsMark(c) {
      assert Compact([c]) == [c] && DigitsOnly([c]) == "";
      LastMarkAt(h, c, digits);
    } else {
      assert Compact([c]) == "";
      assert Compact([c]) + digits == digits;
      LastMarkBehind(h, digits);
    }
  }

  lemma OneDecimalNormalizes(a: char)
    requires IsDigit(a)
    ensures DecimalText(10 * DigitOf(a)) == if StripZeros([a]) == "" then "" else "." + StripZeros([a])
  {
    assert CharOf(DigitOf(a)) == a && [a][..0] == [];
    assert StripZeros([a]) == if a == '0' then [] else [a];
  }

  lemma TwoDecimalsNormalize(a: char, b: char)
    requires IsDigit(a) && IsDigit(b)
    ensures DecimalText(10 * DigitOf(a) + DigitOf(b)) == if StripZeros([a, b]) == "" then "" else "." + StripZeros([a, b])
  {
    assert [a, b][..1] == [a];
    if b == '0' {
      assert StripZeros([a, b]) == StripZeros([a]);
      OneDecimalNormalizes(a);
    } else {
      assert StripZeros([a, b]) == [a, b];
      assert CharOf(DigitOf(a)) == a && CharOf(DigitOf(b)) == b;
    }
  }

  lemma DecimalsNormalize(decimals: string)
    requires 1 <= |decimals| <= 2 && AllDigits(decimals)
    ensures DecimalText(Hundredths(decimals)) == if StripZeros(decimals) == "" then "" else "." + StripZeros(decimals)
  {
    if |decimals| == 1 {
      assert decimals == [decimals[0]];
      OneDecimalNormalizes(decimals[0]);
    } else {
      assert decimals == [decimals[0], decimals[1]];
      TwoDecimalsNormalize(decimals[0], decimals[1]);
    }
  }

  lemma WholeOfHead(w: Written, empty: string)
    requires Valid(w)
    ensures AllDigits(w.first + GroupDigits(w.groups))
    ensures Whole(Compact(Head(w)), empty) == Show(Number(w.first + GroupDigits(w.groups)))
  {
    GroupDigitsAreDigits(w.groups);
    HeadHasNoDecimalMark(w.first, w.groups);
  }

  lemma SplitsAtMark(h: string, mark: char, digits: string)
    requires IsMark(mark) && AllDigits(digits)
    ensures var s := h + ([mark] + digits);
            LastMark(s) == Some(|h|) && |s| == |h| + 1 + |digits| && s[..|h|] == h && s[|h| + 1..] == digits
  {
    LastMarkAt(h, mark, digits);
  }

  lemma CompactOfWritten(w: Written)
    requires Valid(w) && w.decimals != ""
    ensures Compact(Render(w)) == Compact(Head(w)) + ([w.mark] + w.decimals)
  {
    CompactAppend(Head(w), [w.mark] + w.decimals);
    CompactAppend([w.mark], w.decimals);
    DigitsStay(w.decimals);
    MarkStays(w.mark);
  }

  lemma MarkStays(mark: char)
    requires IsMark(mark)
    ensures Compact([mark]) == [mark]
  {
  }

  lemma DivMod(n: nat, h: nat)
    requires h < 100
    ensures (100 * n + h) / 100 == n && (100 * n + h) % 100 == h
  {
  }

  lemma CanonicalOfMarked(compact: string, h: string, mark: char, decimals: string, whole: string)
    requires compact == h + ([mark] + decimals) && IsMark(mark) && AllDigits(decimals) && 1 <= |decimals| <= 2
    requires Whole(h, "0") == whole
    ensures DecimalMark(compact) == Some(|h|) && Whole(compact[..|h|], "0") == whole
    ensures StripZeros(DigitsOnly(compact[|h| + 1..])) == StripZeros(decimals)
  {
    SplitsAtMark(h, mark, decimals);
    DigitsStay(decimals);
  }

  lemma CanonicalFrom(raw: string, k: nat, whole: string, z: string)
    requires DecimalMark(Compact(raw)) == Some(k) && Whole(Compact(raw)[..k], "0") == whole
    requires StripZeros(DigitsOnly(Compact(raw)[k + 1..])) == z
    ensures Canonical(raw) == whole + (if z == "" then "" else "." + z)
  {
    if z == "" { assert whole + "" == whole; } else { Assoc(whole, ".", z); }
  }

  lemma NormalFormOf(w: Written, number: nat)
    requires Valid(w) && AllDigits(w.first + GroupDigits(w.groups)) && number == Number(w.first + GroupDigits(w.groups))
    ensures NormalForm(Value(w)) == Show(number) + DecimalText(Hundredths(w.decimals))
  {
    DivMod(number, Hundredths(w.decimals));
  }

  lemma UnmarkedIsNormalForm(w: Written)
    requires Valid(w) && w.decimals == ""
    ensures Canonical(Render(w)) == NormalForm(Value(w))
  {
    WholeOfHead(w, "");
    HeadHasNoDecimalMark(w.first, w.groups);
    var number := Number(w.first + GroupDigits(w.groups));
    NormalFormOf(w, number);
    assert Show(number) + "" == Show(number);
  }

  /** Every way of writing a number canonicalises to the decimal normal form of its value. */
  lemma CanonicalIsNormalForm(w: Written)
    requires Valid(w)
    ensures Canonical(Render(w)) == NormalForm(Value(w))
  {
    if w.decimals == "" {
      UnmarkedIsNormalForm(w);
    } else {
      WholeOfHead(w, "0");
      var number := Number(w.first + GroupDigits(w.groups));
      CompactOfWritten(w);
      CanonicalOfMarked(Compact(Render(w)), Compact(Head(w)), w.mark, w.decimals, Show(number));
      CanonicalFrom(Render(w), |Compact(Head(w))|, Show(number), StripZeros(w.decimals));
      DecimalsNormalize(w.decimals);
      NormalFormOf(w, number);
    }
  }

  lemma {:induction false} NumberOfShow(n: nat)
    ensures Number(Show(n)) == n
  {
    if n < 10 {
      assert [CharOf(n)][..0] == "";
    } else {
      NumberOfShow(n / 10);
      assert Show(n)[..|Show(n)| - 1] == Show(n / 10);
    }
  }

  /** A normal form as a written number. */
  function Plain(value: nat): Written {
    var text := DecimalText(value % 100);
    Written(Show(value / 100), [], '.', if text == "" then "" else text[1..])
  }

  /** A normal form is itself a way of writing its value. */
  lemma NormalFormIsWritten(value: nat)
    ensures Valid(Plain(value)) && Render(Plain(value)) == NormalForm(value) && Value(Plain(value)) == value
  {
    NumberOfShow(value / 100);
    assert Show(value / 100) + "" == Show(value / 100);
    var text := DecimalText(value % 100);
    if text != "" { assert text == ['.'] + text[1..]; }
  }

  /** Reads a normal form back. */
  function ReadBack(s: string): nat {
    match LastMark(s)
    case None => if AllDigits(s) then 100 * Number(s) else 0
    case Some(k) =>
      if AllDigits(s[..k]) && AllDigits(s[k + 1..]) && |s| - k - 1 <= 2 then 100 * Number(s[..k]) + Hundredths(s[k + 1..]) else 0
  }

  lemma ReadBackWhole(whole: string)
    requires AllDigits(whole)
    ensures ReadBack(whole) == 100 * Number(whole)
  {
    LastMarkBehind("", whole);
    assert "" + whole == whole;
  }

  lemma ReadBackParts(whole: string, decimals: string)
    requires AllDigits(whole) && AllDigits(decimals) && |decimals| <= 2
    ensures ReadBack(whole + (['.'] + decimals)) == 100 * Number(whole) + Hundredths(decimals)
  {
    SplitsAtMark(whole, '.', decimals);
  }

  lemma NormalFormReadsBack(value: nat)
    ensures ReadBack(NormalForm(value)) == value
  {
    var whole, text := Show(value / 100), DecimalText(value % 100);
    NumberOfShow(value / 100);
    if text == "" {
      assert whole + text == whole;
      ReadBackWhole(whole);
    } else {
      assert text == ['.'] + text[1..];
      ReadBackParts(whole, text[1..]);
    }
  }

  /** Two written numbers canonicalise alike exactly when their values are equal, however they are written. */
  lemma AlikeExactlyWhenEqual(v: Written, w: Written)
    requires Valid(v) && Valid(w)
    ensures Canonical(Render(v)) == Canonical(Render(w)) <==> Value(v) == Value(w)
  {
    CanonicalIsNormalForm(v);
    CanonicalIsNormalForm(w);
    NormalFormReadsBack(Value(v));
    NormalFormReadsBack(Value(w));
  }

  lemma CanonicalIsFixed(w: Written)
    requires Valid(w)
    ensures Canonical(Canonical(Render(w))) == Canonical(Render(w))
  {
    CanonicalIsNormalForm(w);
    NormalFormIsWritten(Value(w));
    CanonicalIsNormalForm(Plain(Value(w)));
  }
}
