/** Whitespace, words and stripping, as Python's `str` methods and `\s`, `\S+` see them. */
module Text {
  import opened Common

  /** The code points for which Python's `str.isspace` holds. */
  predicate IsSpace(c: char) {
    var n := c as int;
    || 0x09 <= n <= 0x0D || 0x1C <= n <= 0x20 || n == 0x85 || n == 0xA0 || n == 0x1680
    || 0x2000 <= n <= 0x200A || n == 0x2028 || n == 0x2029 || n == 0x202F || n == 0x205F || n == 0x3000
  }

  predicate NoSpace(s: string) {
    forall i :: 0 <= i < |s| ==> !IsSpace(s[i])
  }

  predicate Blank(s: string) {
    forall i :: 0 <= i < |s| ==> IsSpace(s[i])
  }

  /** A word is what `\S+` can match in full. */
  predicate IsWord(s: string) {
    s != "" && NoSpace(s)
  }

  predicate AllWords(ws: seq<string>) {
    forall i :: 0 <= i < |ws| ==> IsWord(ws[i])
  }

  /** Neither empty nor starting or ending in whitespace: a fixed point of `str.strip`. */
  predicate Trimmed(s: string) {
    s != "" && !IsSpace(s[0]) && !IsSpace(s[|s| - 1])
  }

  /** The first index from `i` on that does not hold whitespace, or the end. */
  function SkipSpaces(s: string, i: nat): (q: nat)
    requires i <= |s|
    ensures i <= q <= |s|
    ensures forall k :: i <= k < q ==> IsSpace(s[k])
    ensures q < |s| ==> !IsSpace(s[q])
    decreases |s| - i
  {
    if i < |s| && IsSpace(s[i]) then SkipSpaces(s, i + 1) else i
  }

  /** The first index from `i` on that holds whitespace, or the end. */
  function SkipWord(s: string, i: nat): (q: nat)
    requires i <= |s|
    ensures i <= q <= |s|
    ensures forall k :: i <= k < q ==> !IsSpace(s[k])
    ensures q < |s| ==> IsSpace(s[q])
    decreases |s| - i
  {
    if i < |s| && !IsSpace(s[i]) then SkipWord(s, i + 1) else i
  }

  /** `j` moved back over trailing whitespace, but not before `i`. */
  function TrimEnd(s: string, i: nat, j: nat): (q: nat)
    requires i <= j <= |s|
    ensures i <= q <= j
    ensures forall k :: q <= k < j ==> IsSpace(s[k])
    ensures i < q ==> !IsSpace(s[q - 1])
    decreases j
  {
    if i < j && IsSpace(s[j - 1]) then TrimEnd(s, i, j - 1) else j
  }

  /** The length of the longest prefix without whitespace. */
  function WordLength(s: string): (n: nat)
    ensures n <= |s| && NoSpace(s[..n])
    ensures n < |s| ==> IsSpace(s[n])
    ensures s != "" && !IsSpace(s[0]) ==> 0 < n
  {
    SkipWord(s, 0)
  }

  /** The maximal whitespace-free runs of a text, left to right. */
  function Words(s: string): (ws: seq<string>)
    ensures AllWords(ws)
    decreases |s|
  {
    if s == "" then []
    else if IsSpace(s[0]) then Words(s[1..])
    else
      var n := WordLength(s);
      [s[..n]] + Words(s[n..])
  }

  /** Where `str.strip` starts and ends its result. */
  function StripBounds(s: string): (b: (nat, nat))
    ensures b.0 <= b.1 <= |s| && Blank(s[..b.0]) && Blank(s[b.1..])
    ensures forall i :: 0 <= i < |s| && !IsSpace(s[i]) ==> b.0 <= i < b.1
    ensures b.0 == b.1 || Trimmed(s[b.0..b.1])
  {
    var a := SkipSpaces(s, 0);
    (a, TrimEnd(s, a, |s|))
  }

  /** `str.strip`. */
  function Strip(s: string): (r: string)
    ensures r == "" || Trimmed(r)
  {
    var b := StripBounds(s);
    s[b.0..b.1]
  }

  /** Whitespace at either end of a concatenation keeps its two word lists apart. */
  lemma {:induction false} WordsAppend(a: string, b: string)
    requires a == "" || b == "" || IsSpace(a[|a| - 1]) || IsSpace(b[0])
    ensures Words(a + b) == Words(a) + Words(b)
    decreases |a|
  {
    if a == "" {
      assert a + b == b;
    } else if b == "" {
      assert a + b == a;
    } else if IsSpace(a[0]) {
      TailOfAppend(a, b);
      WordsAppend(a[1..], b);
    } else {
      var n := WordLength(a);
      WordLengthIs(a + b, n);
      assert (a + b)[..n] == a[..n];
      assert (a + b)[n..] == a[n..] + b;
      WordsAppend(a[n..], b);
      Assoc([a[..n]], Words(a[n..]), Words(b));
    }
  }

  lemma {:induction false} WordLengthIs(s: string, n: nat)
    requires n <= |s| && NoSpace(s[..n]) && (n < |s| ==> IsSpace(s[n]))
    ensures WordLength(s) == n
  {
    var m := WordLength(s);
    assert forall i :: 0 <= i < n ==> s[..n][i] == s[i];
    assert forall i :: 0 <= i < m ==> s[..m][i] == s[i];
  }

  lemma {:induction false} BlankHasNoWords(s: string)
    requires Blank(s)
    ensures Words(s) == []
  {
    if s != "" { BlankHasNoWords(s[1..]); }
  }

  lemma WordIsItsOwnWords(w: string)
    requires IsWord(w)
    ensures Words(w) == [w]
  {
    WordLengthIs(w, |w|);
    assert w[..|w|] == w && w[|w|..] == "";
  }

  lemma {:induction false} WordsOfPrefix(s: string, k: nat)
    requires k <= |s| && Blank(s[k..])
    ensures Words(s[..k]) == Words(s)
  {
    assert s == s[..k] + s[k..];
    if k < |s| { assert IsSpace(s[k..][0]); }
    WordsAppend(s[..k], s[k..]);
    BlankHasNoWords(s[k..]);
  }

  lemma {:induction false} WordsOfSuffix(s: string, k: nat)
    requires k <= |s| && Blank(s[..k])
    ensures Words(s[k..]) == Words(s)
  {
    assert s == s[..k] + s[k..];
    if 0 < k { assert IsSpace(s[..k][k - 1]); }
    WordsAppend(s[..k], s[k..]);
    BlankHasNoWords(s[..k]);
  }

  /** Stripping loses no word. */
  lemma StripKeepsWords(s: string)
    ensures Words(Strip(s)) == Words(s)
  {
    var b := StripBounds(s);
    WordsOfPrefix(s, b.1);
    assert s[..b.1][..b.0] == s[..b.0] && s[..b.1][b.0..] == s[b.0..b.1];
    WordsOfSuffix(s[..b.1], b.0);
  }

  /** Stripping changes nothing that is already stripped. */
  lemma StripTrimmed(s: string)
    requires Trimmed(s)
    ensures Strip(s) == s
  {
    assert SkipSpaces(s, 0) == 0 && TrimEnd(s, 0, |s|) == |s|;
  }

  /** `" ".join(ws)`. */
  function Join(ws: seq<string>): string
  {
    if ws == [] then "" else if |ws| == 1 then ws[0] else ws[0] + " " + Join(ws[1..])
  }

  /** The length of `" ".join(ws)`, kept as a running total by the packing loop. */
  function JoinedLength(ws: seq<string>): nat
  {
    if ws == [] then 0 else if |ws| == 1 then |ws[0]| else |ws[0]| + 1 + JoinedLength(ws[1..])
  }

  lemma {:induction false} JoinHasJoinedLength(ws: seq<string>)
    ensures |Join(ws)| == JoinedLength(ws)
  {
    if |ws| > 1 { JoinHasJoinedLength(ws[1..]); }
  }

  lemma {:induction false} JoinedLengthAppend(a: seq<string>, b: seq<string>)
    ensures JoinedLength(a + b) ==
            JoinedLength(a) + JoinedLength(b) + (if a != [] && b != [] then 1 else 0)
  {
    if a == [] {
      assert a + b == b;
    } else if b == [] {
      assert a + b == a;
    } else {
      TailOfAppend(a, b);
      JoinedLengthAppend(a[1..], b);
    }
  }

  /** Splitting a joined word list gives the list back. */
  lemma {:induction false} WordsOfJoin(ws: seq<string>)
    requires AllWords(ws)
    ensures Words(Join(ws)) == ws
  {
    if |ws| == 1 {
      WordIsItsOwnWords(ws[0]);
    } else if |ws| > 1 {
      assert AllWords(ws[1..]);
      WordsOfJoin(ws[1..]);
      var head := ws[0] + " ";
      WordsAppend(ws[0], " ");
      WordIsItsOwnWords(ws[0]);
      BlankHasNoWords(" ");
      WordsAppend(head, Join(ws[1..]));
      assert ws == [ws[0]] + ws[1..];
    }
  }

  /** The characters of a text that are not whitespace, in order. */
  function Ink(s: string): string
  {
    if s == "" then "" else if IsSpace(s[0]) then Ink(s[1..]) else [s[0]] + Ink(s[1..])
  }

  lemma {:induction false} InkAppend(a: string, b: string)
    ensures Ink(a + b) == Ink(a) + Ink(b)
  {
    if a == "" {
      assert a + b == b;
    } else {
      TailOfAppend(a, b);
      InkAppend(a[1..], b);
      Assoc([a[0]], Ink(a[1..]), Ink(b));
    }
  }

  lemma {:induction false} InkOfWord(w: string)
    requires NoSpace(w)
    ensures Ink(w) == w
  {
    if w != "" {
      assert NoSpace(w[1..]);
      InkOfWord(w[1..]);
    }
  }

  /** The words of a text hold exactly its non-whitespace characters, in order. */
  lemma {:induction false} InkIsWords(s: string)
    ensures Ink(s) == Flatten(Words(s))
    decreases |s|
  {
    if s != "" {
      if IsSpace(s[0]) {
        InkIsWords(s[1..]);
      } else {
        var n := WordLength(s);
        InkIsWords(s[n..]);
        assert s == s[..n] + s[n..];
        InkAppend(s[..n], s[n..]);
        InkOfWord(s[..n]);
        var ws := Words(s);
        assert ws[0] == s[..n] && ws[1..] == Words(s[n..]);
      }
    }
  }

  // ---------------------------------------------------------------- substrings

  predicate At(text: string, part: string, i: nat)
    requires i + |part| <= |text|
  {
    text[i..i + |part|] == part
  }

  /** `part in text`. */
  predicate Contains(text: string, part: string) {
    exists i :: 0 <= i <= |text| - |part| && At(text, part, i)
  }

  /** A part of a text is what stands between a beginning and an end of it. */
  lemma ContainsExactlyWhen(text: string, part: string)
    ensures Contains(text, part) <==> exists before, behind :: text == before + part + behind
  {
    if before, behind :| text == before + part + behind {
      assert text[|before|..|before| + |part|] == part;
      assert At(text, part, |before|);
    }
    if Contains(text, part) {
      var i :| 0 <= i <= |text| - |part| && At(text, part, i);
      assert text == text[..i] + part + text[i + |part|..];
    }
  }

  lemma ContainsSlice(text: string, i: nat, j: nat)
    requires i <= j <= |text|
    ensures Contains(text, text[i..j])
  {
    assert At(text, text[i..j], i);
  }

  lemma ContainsItself(text: string)
    ensures Contains(text, text)
  {
    assert At(text, text, 0);
  }

  lemma SliceOfSlice(s: string, i: nat, j: nat, k: nat, l: nat)
    requires i <= j <= |s| && k <= l <= j - i
    ensures s[i..j][k..l] == s[i + k..i + l]
  {
    var a, b := s[i..j][k..l], s[i + k..i + l];
    assert |a| == |b|;
    forall m | 0 <= m < |a| ensures a[m] == b[m] {
      assert a[m] == s[i..j][k + m];
    }
  }

  lemma ContainsIsTransitive(a: string, b: string, c: string)
    requires Contains(a, b) && Contains(b, c)
    ensures Contains(a, c)
  {
    var i :| 0 <= i <= |a| - |b| && At(a, b, i);
    var j :| 0 <= j <= |b| - |c| && At(b, c, j);
    SliceOfSlice(a, i, i + |b|, j, j + |c|);
    assert At(a, c, i + j);
  }

  lemma StripIsContained(s: string)
    ensures Contains(s, Strip(s))
  {
    var b := StripBounds(s);
    ContainsSlice(s, b.0, b.1);
  }

  // -------------------------------------------------------------------- lines

  /** Where `str.splitlines` cuts. */
  predicate IsLineBreak(c: char) {
    var n := c as int;
    0x0A <= n <= 0x0D || 0x1C <= n <= 0x1E || n == 0x85 || n == 0x2028 || n == 0x2029
  }

  function NextBreak(text: string, i: nat): (n: nat)
    requires i <= |text|
    ensures i <= n <= |text| && (n < |text| ==> IsLineBreak(text[n])) && forall k :: i <= k < n ==> !IsLineBreak(text[k])
    decreases |text| - i
  {
    if i == |text| || IsLineBreak(text[i]) then i else NextBreak(text, i + 1)
  }

  /** A carriage return and its newline are one break. */
  function BehindBreak(text: string, n: nat): (m: nat)
    requires n < |text|
    ensures n < m <= |text|
  {
    if text[n] == '\r' && n + 1 < |text| && text[n + 1] == '\n' then n + 2 else n + 1
  }

  /** `splitlines` from index `i` on. */
  function SplitLines(text: string, i: nat): seq<string>
    requires i <= |text|
    decreases |text| - i
  {
    var n := NextBreak(text, i);
    if i == |text| then []
    else if n == |text| then [text[i..n]]
    else [text[i..n]] + SplitLines(text, BehindBreak(text, n))
  }

  lemma {:induction false} LinesAreContained(text: string, i: nat)
    requires i <= |text|
    ensures forall k :: 0 <= k < |SplitLines(text, i)| ==> Contains(text, SplitLines(text, i)[k])
    decreases |text| - i
  {
    var n := NextBreak(text, i);
    ContainsSlice(text, i, n);
    if n < |text| { LinesAreContained(text, BehindBreak(text, n)); }
  }
}
