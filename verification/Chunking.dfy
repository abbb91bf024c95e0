/**
  The chunker: sentences, greedy packing of long sentences, and chunks across pages.
  Every loop is a method proved against a function; the lemmas are about the functions.
 */
module Chunking {
  import opened Common
  import opened Text

  datatype Block = Block(section: Option<string>, text: string)

  datatype ParsedPage = ParsedPage(page: nat, blocks: seq<Block>)

  datatype DocumentChunk = DocumentChunk(page: nat, section: Option<string>, ordinal: nat, text: string)

  // ---------------------------------------------------------------- sentences

  predicate IsTerminator(c: char) {
    c == '.' || c == '!' || c == '?'
  }

  /** The boundary expression can match at `p`: a terminator just before, whitespace from `p` on. */
  predicate IsBoundary(line: string, p: nat) {
    0 < p < |line| && IsTerminator(line[p - 1]) && IsSpace(line[p])
  }

  /** Where the next boundary match from `from` starts, or the end of the line. */
  function NextBoundary(line: string, from: nat): (p: nat)
    requires from <= |line|
    ensures from <= p <= |line|
    ensures p < |line| ==> IsBoundary(line, p)
    ensures forall i :: from <= i < p ==> !IsBoundary(line, i)
    decreases |line| - from
  {
    if from == |line| || IsBoundary(line, from) then from else NextBoundary(line, from + 1)
  }

  /** A part of a line as a sentence, unless it is blank. */
  function Kept(s: string): seq<string> {
    if Strip(s) == "" then [] else [Strip(s)]
  }

  function LineSentences(line: string, start: nat): seq<string>
    requires start <= |line|
    decreases |line| - start
  {
    var p := NextBoundary(line, start);
    if p == |line| then Kept(line[start..])
    else Kept(line[start..p]) + LineSentences(line, SkipSpaces(line, p))
  }

  /** The index just behind the first newline from `i` on, or the end. */
  function LineEnd(text: string, i: nat): (n: nat)
    requires i <= |text|
    ensures i <= n <= |text| && (i < |text| ==> i < n)
    ensures n < |text| ==> text[n - 1] == '\n'
    ensures forall k :: i <= k < n - 1 ==> text[k] != '\n'
    decreases |text| - i
  {
    if i == |text| then i else if text[i] == '\n' then i + 1 else LineEnd(text, i + 1)
  }

  function SentencesOf(text: string): seq<string>
    decreases |text|
  {
    if text == "" then []
    else
      var n := LineEnd(text, 0);
      LineSentences(text[..n], 0) + SentencesOf(text[n..])
  }

  method CutLine(line: string) returns (sentences: seq<string>)
    ensures sentences == LineSentences(line, 0)
  {
    sentences := [];
    var start := 0;
    var p := NextBoundary(line, start);
    while p < |line|
      invariant 0 <= start <= |line| && p == NextBoundary(line, start)
      invariant sentences + LineSentences(line, start) == LineSentences(line, 0)
      decreases |line| - start
    {
      Assoc(sentences, Kept(line[start..p]), LineSentences(line, SkipSpaces(line, p)));
      sentences := sentences + Kept(line[start..p]);
      start := SkipSpaces(line, p);
      p := NextBoundary(line, start);
    }
    sentences := sentences + Kept(line[start..]);
  }

  method Sentences(text: string) returns (sentences: seq<string>)
    ensures sentences == SentencesOf(text)
  {
    sentences := [];
    var rest := text;
    while rest != ""
      invariant sentences + SentencesOf(rest) == SentencesOf(text)
      decreases |rest|
    {
      var n := LineEnd(rest, 0);
      var cut := CutLine(rest[..n]);
      Assoc(sentences, cut, SentencesOf(rest[n..]));
      sentences := sentences + cut;
      rest := rest[n..];
    }
  }

  function WordsOfAll(parts: seq<string>): seq<string> {
    if parts == [] then [] else Words(parts[0]) + WordsOfAll(parts[1..])
  }

  lemma {:induction false} WordsOfAllAppend(a: seq<string>, b: seq<string>)
    ensures WordsOfAll(a + b) == WordsOfAll(a) + WordsOfAll(b)
  {
    if a == [] {
      assert a + b == b;
    } else {
      TailOfAppend(a, b);
      WordsOfAllAppend(a[1..], b);
      Assoc(Words(a[0]), WordsOfAll(a[1..]), WordsOfAll(b));
    }
  }

  lemma KeptKeepsWords(s: string)
    ensures WordsOfAll(Kept(s)) == Words(s)
  {
    StripKeepsWords(s);
  }

  lemma {:induction false} LineSentencesKeepWords(line: string, start: nat)
    requires start <= |line|
    ensures WordsOfAll(LineSentences(line, start)) == Words(line[start..])
    decreases |line| - start
  {
    var p := NextBoundary(line, start);
    if p == |line| {
      KeptKeepsWords(line[start..]);
    } else {
      var q := SkipSpaces(line, p);
      LineSentencesKeepWords(line, q);
      WordsOfAllAppend(Kept(line[start..p]), LineSentences(line, q));
      KeptKeepsWords(line[start..p]);
      WordsAcrossSpaces(line, start, p, q);
    }
  }

  lemma SliceThenRest<T>(s: seq<T>, i: nat, j: nat)
    requires i <= j <= |s|
    ensures s[i..] == s[i..j] + s[j..] && s[0..] == s && s[0..j] == s[..j]
  {
  }

  lemma BlankSlice(s: string, p: nat, q: nat)
    requires p <= q <= |s| && forall i :: p <= i < q ==> IsSpace(s[i])
    ensures Blank(s[p..][..q - p])
  {
    var b := s[p..][..q - p];
    forall i | 0 <= i < |b| ensures IsSpace(b[i]) {
      assert b[i] == s[p + i];
    }
  }

  lemma AcrossBlank(a: string, b: string, k: nat, whole: string)
    requires whole == a + b && 0 < k <= |b| && Blank(b[..k])
    ensures Words(whole) == Words(a) + Words(b[k..])
  {
    assert b[..k][0] == b[0];
    WordsAppend(a, b);
    WordsOfSuffix(b, k);
  }

  lemma WordsAcrossSpaces(line: string, start: nat, p: nat, q: nat)
    requires start <= p < q <= |line| && forall i :: p <= i < q ==> IsSpace(line[i])
    ensures Words(line[start..]) == Words(line[start..p]) + Words(line[q..])
  {
    SliceThenRest(line, start, p);
    DropDrop(line, p, q);
    BlankSlice(line, p, q);
    AcrossBlank(line[start..p], line[p..], q - p, line[start..]);
  }

  /** No word is lost or moved when a text is cut into sentences. */
  lemma {:induction false} SentencesKeepWords(text: string)
    ensures WordsOfAll(SentencesOf(text)) == Words(text)
    decreases |text|
  {
    if text != "" {
      var n := LineEnd(text, 0);
      var line, rest := text[..n], text[n..];
      LineSentencesKeepWords(line, 0);
      assert line[0..] == line;
      SentencesKeepWords(rest);
      WordsOfAllAppend(LineSentences(line, 0), SentencesOf(rest));
      assert rest == "" || IsSpace(line[|line| - 1]);
      WordsAppend(line, rest);
      TakeDrop(text, n);
    }
  }

  /** One sentence: stripped, on one line, with no place left where the boundary could match. */
  predicate Atomic(s: string) {
    Trimmed(s) && (forall i :: 0 <= i < |s| ==> s[i] != '\n') && (forall i :: 0 < i < |s| ==> !IsBoundary(s, i))
  }

  predicate AllAtomic(ss: seq<string>) {
    forall i :: 0 <= i < |ss| ==> Atomic(ss[i])
  }

  lemma SliceIsAtomic(line: string, a: nat, b: nat)
    requires a < b <= |line| && Trimmed(line[a..b])
    requires forall i :: a < i < b ==> !IsBoundary(line, i)
    requires forall i :: 0 <= i < |line| - 1 ==> line[i] != '\n'
    ensures Atomic(line[a..b])
  {
    var s := line[a..b];
    forall i | 0 <= i < |s| ensures s[i] != '\n' {
      assert s[i] == line[a + i] && IsSpace('\n');
    }
    forall i | 0 < i < |s| ensures !IsBoundary(s, i) {
      assert !IsBoundary(line, a + i);
    }
  }

  lemma KeptIsAtomic(line: string, start: nat, p: nat)
    requires start <= p <= |line|
    requires forall i :: start <= i < p ==> !IsBoundary(line, i)
    requires forall i :: 0 <= i < |line| - 1 ==> line[i] != '\n'
    ensures AllAtomic(Kept(line[start..p]))
  {
    var part := line[start..p];
    var s := Strip(part);
    if s != "" {
      var bounds := StripBounds(part);
      var a, b := start + bounds.0, start + bounds.1;
      SliceOfSlice(line, start, p, bounds.0, bounds.1);
      SliceIsAtomic(line, a, b);
    }
  }

  lemma {:induction false} LineSentencesAtomic(line: string, start: nat)
    requires start <= |line|
    requires forall i :: 0 <= i < |line| - 1 ==> line[i] != '\n'
    ensures AllAtomic(LineSentences(line, start))
    decreases |line| - start
  {
    var p := NextBoundary(line, start);
    KeptIsAtomic(line, start, p);
    if p < |line| {
      LineSentencesAtomic(line, SkipSpaces(line, p));
    } else {
      assert line[start..] == line[start..p];
    }
  }

  /** Every boundary of every line is a cut: no sentence can be cut further. */
  lemma {:induction false} SentencesAreAtomic(text: string)
    ensures AllAtomic(SentencesOf(text))
    decreases |text|
  {
    if text != "" {
      var n := LineEnd(text, 0);
      LineSentencesAtomic(text[..n], 0);
      SentencesAreAtomic(text[n..]);
    }
  }

  /** A sentence cut out of the middle of a line ends in a terminator, and is a slice of the line. */
  predicate EndsInTerminator(s: string) {
    s != "" && IsTerminator(s[|s| - 1])
  }

  ghost predicate IsSliceOf(s: string, line: string) {
    exists a, b :: 0 <= a <= b <= |line| && s == line[a..b]
  }

  ghost predicate CutAtTerminators(sentences: seq<string>, line: string) {
    && (forall i :: 0 <= i < |sentences| - 1 ==> EndsInTerminator(sentences[i]))
    && (forall i :: 0 <= i < |sentences| ==> IsSliceOf(sentences[i], line))
  }

  lemma KeptIsSlice(line: string, start: nat, p: nat)
    requires start <= p <= |line|
    ensures |Kept(line[start..p])| <= 1 && CutAtTerminators(Kept(line[start..p]), line)
  {
    var bounds := StripBounds(line[start..p]);
    SliceOfSlice(line, start, p, bounds.0, bounds.1);
  }

  lemma KeptEndsInTerminator(line: string, start: nat, p: nat)
    requires start <= p <= |line| && IsBoundary(line, p)
    ensures forall s :: s in Kept(line[start..p]) ==> EndsInTerminator(s)
  {
    var part := line[start..p];
    if start < p {
      assert part[|part| - 1] == line[p - 1] && !IsSpace(line[p - 1]);
      assert Strip(part) == part[StripBounds(part).0..];
    }
  }

  lemma CutAtTerminatorsPrepend(first: seq<string>, rest: seq<string>, line: string)
    requires CutAtTerminators(first, line) && CutAtTerminators(rest, line)
    requires forall s :: s in first ==> EndsInTerminator(s)
    ensures CutAtTerminators(first + rest, line)
  {
  }

  /** A line is cut only behind a terminator, and every sentence is text of the line. */
  lemma {:induction false} LineIsCutAtTerminators(line: string, start: nat)
    requires start <= |line|
    ensures CutAtTerminators(LineSentences(line, start), line)
    decreases |line| - start
  {
    var p := NextBoundary(line, start);
    KeptIsSlice(line, start, p);
    if p == |line| {
      assert line[start..] == line[start..p];
    } else {
      KeptEndsInTerminator(line, start, p);
      LineIsCutAtTerminators(line, SkipSpaces(line, p));
      CutAtTerminatorsPrepend(Kept(line[start..p]), LineSentences(line, SkipSpaces(line, p)), line);
    }
  }

  // ------------------------------------------------------------------ packing

  /** How many leading words fit in one piece, given that `n` of them do. */
  function Fitting(ws: seq<string>, n: nat, maxChars: nat): (m: nat)
    requires n <= |ws|
    ensures n <= m <= |ws|
    ensures m < |ws| ==> JoinedLength(ws[..m + 1]) > maxChars
    ensures JoinedLength(ws[..n]) <= maxChars ==> JoinedLength(ws[..m]) <= maxChars
    decreases |ws| - n
  {
    if n < |ws| && JoinedLength(ws[..n + 1]) <= maxChars then Fitting(ws, n + 1, maxChars) else n
  }

  /** An overlong word in consecutive slices of the maximal length. */
  function Slices(word: string, maxChars: nat): (r: seq<string>)
    requires maxChars > 0
    decreases |word|
  {
    if |word| <= maxChars then (if word == "" then [] else [word])
    else [word[..maxChars]] + Slices(word[maxChars..], maxChars)
  }

  /** Greedy packing: the longest run of leading words that fits, then the rest. */
  function Pack(ws: seq<string>, maxChars: nat): seq<string>
    requires maxChars > 0
    decreases |ws|
  {
    if ws == [] then []
    else if |ws[0]| > maxChars then Slices(ws[0], maxChars) + Pack(ws[1..], maxChars)
    else
      var n := Fitting(ws, 1, maxChars);
      [Join(ws[..n])] + Pack(ws[n..], maxChars)
  }

  function SentencePieces(sentence: string, maxChars: nat): seq<string>
    requires maxChars > 0
  {
    if |sentence| <= maxChars then [sentence] else Pack(Words(sentence), maxChars)
  }

  function SentencesPieces(sentences: seq<string>, maxChars: nat): seq<string>
    requires maxChars > 0
  {
    if sentences == [] then []
    else SentencePieces(sentences[0], maxChars) + SentencesPieces(sentences[1..], maxChars)
  }

  function PiecesOf(text: string, maxChars: nat): seq<string>
    requires maxChars > 0
  {
    SentencesPieces(SentencesOf(text), maxChars)
  }

  /** The joined length of a word list only grows when words are added behind it. */
  lemma JoinedLengthPrefix(ws: seq<string>, m: nat, n: nat)
    requires m <= n <= |ws|
    ensures JoinedLength(ws[..m]) <= JoinedLength(ws[..n])
  {
    assert ws[..n] == ws[..m] + ws[m..n];
    JoinedLengthAppend(ws[..m], ws[m..n]);
  }

  lemma JoinedLengthSuffix(ws: seq<string>, m: nat)
    requires m <= |ws|
    ensures JoinedLength(ws[m..]) <= JoinedLength(ws)
  {
    assert ws == ws[..m] + ws[m..];
    JoinedLengthAppend(ws[..m], ws[m..]);
  }

  lemma FittingIs(ws: seq<string>, k: nat, n: nat, maxChars: nat)
    requires k <= n <= |ws|
    requires JoinedLength(ws[..n]) <= maxChars
    requires n < |ws| ==> JoinedLength(ws[..n + 1]) > maxChars
    ensures Fitting(ws, k, maxChars) == n
  {
    JoinedLengthPrefix(ws, k, n);
    var m := Fitting(ws, k, maxChars);
    if m < n { JoinedLengthPrefix(ws, m + 1, n); }
    if n < m { JoinedLengthPrefix(ws, n + 1, m); }
  }

  /** A full group of words is what greedy packing emits next. */
  lemma PackGroup(ws: seq<string>, a: nat, i: nat, maxChars: nat)
    requires maxChars > 0 && a < i <= |ws|
    requires JoinedLength(ws[a..i]) <= maxChars
    requires i < |ws| ==> JoinedLength(ws[a..i + 1]) > maxChars
    ensures Pack(ws[a..], maxChars) == [Join(ws[a..i])] + Pack(ws[i..], maxChars)
  {
    var rest := ws[a..];
    assert rest[..i - a] == ws[a..i] && rest[i - a..] == ws[i..];
    assert i < |ws| ==> rest[..i - a + 1] == ws[a..i + 1];
    FittingIs(rest, 1, i - a, maxChars);
    JoinedLengthPrefix(rest, 1, i - a);
    assert JoinedLength(rest[..1]) == |rest[0]|;
  }

  lemma JoinedLengthSnoc(ws: seq<string>, a: nat, i: nat)
    requires a <= i < |ws|
    ensures JoinedLength(ws[a..i + 1]) == JoinedLength(ws[a..i]) + |ws[i]| + (if a < i then 1 else 0)
  {
    SliceSnoc(ws, a, i);
    JoinedLengthAppend(ws[a..i], [ws[i]]);
  }

  /** The two steps of the packing loop: emit the group before word `i`, and emit a word that cannot fit. */
  lemma EmitGroup(pieces: seq<string>, ws: seq<string>, a: nat, i: nat, maxChars: nat)
    requires maxChars > 0 && a < i <= |ws|
    requires JoinedLength(ws[a..i]) <= maxChars
    requires i < |ws| ==> JoinedLength(ws[a..i + 1]) > maxChars
    ensures pieces + [Join(ws[a..i])] + Pack(ws[i..], maxChars) == pieces + Pack(ws[a..], maxChars)
  {
    PackGroup(ws, a, i, maxChars);
    Assoc(pieces, [Join(ws[a..i])], Pack(ws[i..], maxChars));
  }

  lemma EmitSlices(pieces: seq<string>, ws: seq<string>, i: nat, maxChars: nat)
    requires maxChars > 0 && i < |ws| && |ws[i]| > maxChars
    ensures pieces + Slices(ws[i], maxChars) + Pack(ws[i + 1..], maxChars) == pieces + Pack(ws[i..], maxChars)
  {
    SliceSnoc(ws, i, i);
    Assoc(pieces, Slices(ws[i], maxChars), Pack(ws[i + 1..], maxChars));
  }

  method SliceWord(word: string, maxChars: nat) returns (slices: seq<string>)
    requires maxChars > 0 && word != ""
    ensures slices == Slices(word, maxChars)
  {
    slices := [];
    var offset := 0;
    while offset < |word|
      invariant 0 <= offset
      invariant slices + (if offset < |word| then Slices(word[offset..], maxChars) else []) == Slices(word, maxChars)
    {
      var end := if offset + maxChars < |word| then offset + maxChars else |word|;
      if offset + maxChars < |word| {
        assert word[offset..][maxChars..] == word[end..] && word[offset..][..maxChars] == word[offset..end];
        Assoc(slices, [word[offset..end]], Slices(word[end..], maxChars));
      } else {
        assert word[offset..] == word[offset..end];
      }
      slices := slices + [word[offset..end]];
      offset := offset + maxChars;
    }
  }

  /** The state of the packing loop at word `i`: the pending words start at word `a` and fit in one piece. */
  ghost predicate Packing(ws: seq<string>, maxChars: nat, pieces: seq<string>, current: seq<string>, length: nat, a: nat, i: nat)
    requires maxChars > 0
  {
    && a <= i <= |ws| && current == ws[a..i] && length == JoinedLength(current) <= maxChars
    && pieces + Pack(ws[a..], maxChars) == Pack(ws, maxChars)
  }

  method PackOverlong(ws: seq<string>, maxChars: nat, pieces: seq<string>, current: seq<string>, length: nat, ghost a: nat, i: nat)
    returns (pieces': seq<string>)
    requires maxChars > 0 && Packing(ws, maxChars, pieces, current, length, a, i) && i < |ws| && |ws[i]| > maxChars
    ensures pieces' + Pack(ws[i + 1..], maxChars) == Pack(ws, maxChars)
  {
    JoinedLengthSnoc(ws, a, i);
    pieces' := pieces;
    if current != [] {
      EmitGroup(pieces, ws, a, i, maxChars);
      pieces' := pieces' + [Join(current)];
    }
    EmitSlices(pieces', ws, i, maxChars);
    var slices := SliceWord(ws[i], maxChars);
    pieces' := pieces' + slices;
  }

  method PackFitting(ws: seq<string>, maxChars: nat, pieces: seq<string>, current: seq<string>, length: nat, ghost a: nat, i: nat)
    returns (pieces': seq<string>, current': seq<string>, length': nat, ghost a': nat)
    requires maxChars > 0 && Packing(ws, maxChars, pieces, current, length, a, i) && i < |ws| && |ws[i]| <= maxChars
    ensures Packing(ws, maxChars, pieces', current', length', a', i + 1)
  {
    JoinedLengthSnoc(ws, a, i);
    var word := ws[i];
    var added := |word| + (if current != [] then 1 else 0);
    if current != [] && length + added > maxChars {
      EmitGroup(pieces, ws, a, i, maxChars);
      SliceSnoc(ws, i, i);
      return pieces + [Join(current)], [word], |word|, i;
    }
    SliceSnoc(ws, a, i);
    return pieces, current + [word], length + added, a;
  }

  lemma PackingStarts(ws: seq<string>, maxChars: nat)
    requires maxChars > 0
    ensures Packing(ws, maxChars, [], [], 0, 0, 0)
  {
    assert ws[0..0] == [] && ws[0..] == ws;
  }

  lemma PackingRestarts(ws: seq<string>, maxChars: nat, pieces: seq<string>, i: nat)
    requires maxChars > 0 && i <= |ws| && pieces + Pack(ws[i..], maxChars) == Pack(ws, maxChars)
    ensures Packing(ws, maxChars, pieces, [], 0, i, i)
  {
    assert ws[i..i] == [];
  }

  lemma PackingEnds(ws: seq<string>, maxChars: nat, pieces: seq<string>, current: seq<string>, length: nat, a: nat)
    requires maxChars > 0 && Packing(ws, maxChars, pieces, current, length, a, |ws|)
    ensures pieces + (if current != [] then [Join(current)] else []) == Pack(ws, maxChars)
  {
    assert ws[|ws|..] == [] && Pack(ws[|ws|..], maxChars) == [];
    if current != [] { EmitGroup(pieces, ws, a, |ws|, maxChars); }
  }

  /** The packing loop for one overlong sentence, with its running list and running length. */
  method PackWords(ws: seq<string>, maxChars: nat) returns (pieces: seq<string>)
    requires maxChars > 0
    ensures pieces == Pack(ws, maxChars)
  {
    pieces := [];
    var current: seq<string>, length: nat := [], 0;
    ghost var a: nat := 0;
    PackingStarts(ws, maxChars);
    var i: nat := 0;
    while i < |ws|
      invariant Packing(ws, maxChars, pieces, current, length, a, i)
    {
      if |ws[i]| > maxChars {
        pieces := PackOverlong(ws, maxChars, pieces, current, length, a, i);
        PackingRestarts(ws, maxChars, pieces, i + 1);
        current, length, a := [], 0, i + 1;
      } else {
        pieces, current, length, a := PackFitting(ws, maxChars, pieces, current, length, a, i);
      }
      i := i + 1;
    }
    PackingEnds(ws, maxChars, pieces, current, length, a);
    if current != [] { pieces := pieces + [Join(current)]; }
  }

  method SplitText(text: string, maxChars: nat) returns (pieces: seq<string>)
    requires maxChars > 0
    ensures pieces == PiecesOf(text, maxChars)
  {
    pieces := [];
    var sentences := Sentences(text);
    for i := 0 to |sentences|
      invariant pieces + SentencesPieces(sentences[i..], maxChars) == SentencesPieces(sentences, maxChars)
    {
      ghost var rest := sentences[i..];
      assert rest[0] == sentences[i] && rest[1..] == sentences[i + 1..];
      Assoc(pieces, SentencePieces(rest[0], maxChars), SentencesPieces(rest[1..], maxChars));
      if |sentences[i]| <= maxChars {
        pieces := pieces + [sentences[i]];
      } else {
        var packed := PackWords(Words(sentences[i]), maxChars);
        pieces := pieces + packed;
      }
    }
  }

  // -------------------------------------------------- bounds and conservation

  predicate Bounded(pieces: seq<string>, maxChars: nat) {
    forall i :: 0 <= i < |pieces| ==> 0 < |pieces[i]| <= maxChars
  }

  lemma {:induction false} SlicesBounded(word: string, maxChars: nat)
    requires maxChars > 0
    ensures Bounded(Slices(word, maxChars), maxChars)
    decreases |word|
  {
    if |word| > maxChars { SlicesBounded(word[maxChars..], maxChars); }
  }

  lemma {:induction false} PackBounded(ws: seq<string>, maxChars: nat)
    requires maxChars > 0 && AllWords(ws)
    ensures Bounded(Pack(ws, maxChars), maxChars)
    decreases |ws|
  {
    if ws != [] {
      if |ws[0]| > maxChars {
        SlicesBounded(ws[0], maxChars);
        PackBounded(ws[1..], maxChars);
      } else {
        var n := Fitting(ws, 1, maxChars);
        JoinHasJoinedLength(ws[..n]);
        JoinedLengthPrefix(ws, 1, n);
        PackBounded(ws[n..], maxChars);
      }
    }
  }

  lemma {:induction false} SentencesPiecesBounded(sentences: seq<string>, maxChars: nat)
    requires maxChars > 0 && AllAtomic(sentences)
    ensures Bounded(SentencesPieces(sentences, maxChars), maxChars)
  {
    if sentences != [] {
      assert Atomic(sentences[0]);
      PackBounded(Words(sentences[0]), maxChars);
      SentencesPiecesBounded(sentences[1..], maxChars);
    }
  }

  /** Every piece is non-empty and at most `maxChars` long, whatever the text. */
  lemma PiecesBounded(text: string, maxChars: nat)
    requires maxChars > 0
    ensures Bounded(PiecesOf(text, maxChars), maxChars)
  {
    SentencesAreAtomic(text);
    SentencesPiecesBounded(SentencesOf(text), maxChars);
  }

  /** A word list in which every word that does not fit is replaced by its slices, and no other is touched. */
  function CutWords(ws: seq<string>, maxChars: nat): seq<string>
    requires maxChars > 0
  {
    if ws == [] then []
    else (if |ws[0]| <= maxChars then [ws[0]] else Slices(ws[0], maxChars)) + CutWords(ws[1..], maxChars)
  }

  lemma {:induction false} CutWordsAppend(a: seq<string>, b: seq<string>, maxChars: nat)
    requires maxChars > 0
    ensures CutWords(a + b, maxChars) == CutWords(a, maxChars) + CutWords(b, maxChars)
  {
    if a == [] {
      assert a + b == b;
    } else {
      TailOfAppend(a, b);
      CutWordsAppend(a[1..], b, maxChars);
      Assoc(if |a[0]| <= maxChars then [a[0]] else Slices(a[0], maxChars), CutWords(a[1..], maxChars), CutWords(b, maxChars));
    }
  }

  lemma {:induction false} CutWordsThatFit(ws: seq<string>, maxChars: nat)
    requires maxChars > 0
    requires forall i :: 0 <= i < |ws| ==> |ws[i]| <= maxChars
    ensures CutWords(ws, maxChars) == ws
  {
    if ws != [] {
      CutWordsThatFit(ws[1..], maxChars);
      assert ws == [ws[0]] + ws[1..];
    }
  }

  /** Words of a list whose join fits all fit themselves. */
  lemma {:induction false} WordsFit(ws: seq<string>, maxChars: nat)
    requires JoinedLength(ws) <= maxChars
    ensures forall i :: 0 <= i < |ws| ==> |ws[i]| <= maxChars
  {
    if |ws| > 1 { WordsFit(ws[1..], maxChars); }
  }

  lemma {:induction false} SlicesAreWords(word: string, maxChars: nat)
    requires maxChars > 0 && NoSpace(word)
    ensures WordsOfAll(Slices(word, maxChars)) == Slices(word, maxChars)
    ensures Flatten(Slices(word, maxChars)) == word
    decreases |word|
  {
    if word == "" {
    } else if |word| <= maxChars {
      WordIsItsOwnWords(word);
    } else {
      WordIsItsOwnWords(word[..maxChars]);
      SlicesAreWords(word[maxChars..], maxChars);
    }
  }

  lemma PackOfOverlong(ws: seq<string>, maxChars: nat)
    requires maxChars > 0 && ws != [] && |ws[0]| > maxChars
    ensures Pack(ws, maxChars) == Slices(ws[0], maxChars) + Pack(ws[1..], maxChars)
    ensures CutWords(ws, maxChars) == Slices(ws[0], maxChars) + CutWords(ws[1..], maxChars)
  {
  }

  lemma PackOfFitting(ws: seq<string>, maxChars: nat, n: nat)
    requires maxChars > 0 && ws != [] && |ws[0]| <= maxChars && n == Fitting(ws, 1, maxChars)
    ensures Pack(ws, maxChars) == [Join(ws[..n])] + Pack(ws[n..], maxChars)
  {
  }

  lemma WordsOfGroup(ws: seq<string>, maxChars: nat)
    requires maxChars > 0 && AllWords(ws) && JoinedLength(ws) <= maxChars
    ensures Words(Join(ws)) == CutWords(ws, maxChars)
  {
    WordsOfJoin(ws);
    WordsFit(ws, maxChars);
    CutWordsThatFit(ws, maxChars);
  }

  lemma WordsOfAllCons(s: string, rest: seq<string>)
    ensures WordsOfAll([s] + rest) == Words(s) + WordsOfAll(rest)
  {
    TailOfAppend([s], rest);
    assert [s][1..] + rest == rest;
  }

  lemma {:induction false} PackKeepsWords(ws: seq<string>, maxChars: nat)
    requires maxChars > 0 && AllWords(ws)
    ensures WordsOfAll(Pack(ws, maxChars)) == CutWords(ws, maxChars)
    decreases |ws|
  {
    if ws == [] {
    } else if |ws[0]| > maxChars {
      SlicesAreWords(ws[0], maxChars);
      PackKeepsWords(ws[1..], maxChars);
      WordsOfAllAppend(Slices(ws[0], maxChars), Pack(ws[1..], maxChars));
      PackOfOverlong(ws, maxChars);
    } else {
      var n := Fitting(ws, 1, maxChars);
      PackOfFitting(ws, maxChars, n);
      WordsOfGroup(ws[..n], maxChars);
      PackKeepsWords(ws[n..], maxChars);
      WordsOfAllCons(Join(ws[..n]), Pack(ws[n..], maxChars));
      SliceThenRest(ws, 0, n);
      CutWordsAppend(ws[..n], ws[n..], maxChars);
    }
  }

  lemma {:induction false} WordLengthsBounded(s: string)
    ensures forall i :: 0 <= i < |Words(s)| ==> |Words(s)[i]| <= |s|
    decreases |s|
  {
    if s != "" {
      if IsSpace(s[0]) { WordLengthsBounded(s[1..]); } else { WordLengthsBounded(s[WordLength(s)..]); }
    }
  }

  lemma {:induction false} SentencesPiecesKeepWords(sentences: seq<string>, maxChars: nat)
    requires maxChars > 0
    ensures WordsOfAll(SentencesPieces(sentences, maxChars)) == CutWords(WordsOfAll(sentences), maxChars)
  {
    if sentences != [] {
      var s := sentences[0];
      if |s| <= maxChars {
        WordLengthsBounded(s);
        CutWordsThatFit(Words(s), maxChars);
        assert WordsOfAll([s]) == Words(s);
      } else {
        PackKeepsWords(Words(s), maxChars);
      }
      SentencesPiecesKeepWords(sentences[1..], maxChars);
      WordsOfAllAppend(SentencePieces(s, maxChars), SentencesPieces(sentences[1..], maxChars));
      CutWordsAppend(Words(s), WordsOfAll(sentences[1..]), maxChars);
    }
  }

  /** The words of the pieces are the words of the text: each word that fits whole, each other one in slices. */
  lemma PiecesKeepWords(text: string, maxChars: nat)
    requires maxChars > 0
    ensures WordsOfAll(PiecesOf(text, maxChars)) == CutWords(Words(text), maxChars)
  {
    SentencesKeepWords(text);
    SentencesPiecesKeepWords(SentencesOf(text), maxChars);
  }

  // ------------------------------------------------- greedy packing is optimal

  /** A way to cut a word list into consecutive groups that each fit in one piece. */
  ghost predicate IsPacking(groups: seq<seq<string>>, ws: seq<string>, maxChars: nat) {
    Flatten(groups) == ws && forall i :: 0 <= i < |groups| ==> JoinedLength(groups[i]) <= maxChars
  }

  predicate AllFit(ws: seq<string>, maxChars: nat) {
    forall i :: 0 <= i < |ws| ==> |ws[i]| <= maxChars
  }

  lemma DropDrop<T>(s: seq<T>, p: nat, k: nat)
    requires p <= k <= |s|
    ensures s[p..][k - p..] == s[k..]
  {
  }

  /** From a later start greedy gets at least to the end of a group that fits. */
  lemma GreedyReachesGroupEnd(ws: seq<string>, k: nat, p: nat, maxChars: nat)
    requires k < p <= |ws| && JoinedLength(ws[..p]) <= maxChars
    ensures p <= k + Fitting(ws[k..], 1, maxChars)
  {
    var n := Fitting(ws[k..], 1, maxChars);
    assert ws[..p][k..] == ws[k..p];
    JoinedLengthSuffix(ws[..p], k);
    if k + n < p {
      assert ws[k..][..p - k] == ws[k..p];
      JoinedLengthPrefix(ws[k..], n + 1, p - k);
    }
  }

  lemma PackingOfRest(groups: seq<seq<string>>, ws: seq<string>, maxChars: nat)
    requires IsPacking(groups, ws, maxChars) && groups != []
    ensures |groups[0]| <= |ws| && groups[0] == ws[..|groups[0]|] && JoinedLength(groups[0]) <= maxChars
    ensures IsPacking(groups[1..], ws[|groups[0]|..], maxChars)
  {
    assert ws == groups[0] + Flatten(groups[1..]);
  }

  lemma OnePieceFewer(ws: seq<string>, k: nat, n: nat, maxChars: nat)
    requires maxChars > 0 && k < |ws| && |ws[k]| <= maxChars && n == Fitting(ws[k..], 1, maxChars)
    ensures 1 <= n <= |ws| - k && |Pack(ws[k..], maxChars)| == 1 + |Pack(ws[k + n..], maxChars)|
  {
    PackOfFitting(ws[k..], maxChars, n);
    DropDrop(ws, k, k + n);
  }

  lemma AheadOfGroup(ws: seq<string>, k: nat, p: nat, maxChars: nat, bound: nat)
    requires maxChars > 0 && p <= k <= |ws| && |Pack(ws[p..][k - p..], maxChars)| <= bound
    ensures |Pack(ws[k..], maxChars)| <= bound
  {
    DropDrop(ws, p, k);
  }

  lemma BehindGroup(ws: seq<string>, k: nat, p: nat, n: nat, maxChars: nat, bound: nat)
    requires maxChars > 0 && k < p <= |ws| && |ws[k]| <= maxChars && n == Fitting(ws[k..], 1, maxChars) && p <= k + n
    requires |Pack(ws[p..][k + n - p..], maxChars)| <= bound
    ensures |Pack(ws[k..], maxChars)| <= bound + 1
  {
    OnePieceFewer(ws, k, n, maxChars);
    AheadOfGroup(ws, k + n, p, maxChars, bound);
  }

  /** Greedy stays ahead: from any later starting word it still needs no more pieces. */
  lemma {:induction false} GreedyStaysAhead(ws: seq<string>, k: nat, groups: seq<seq<string>>, maxChars: nat)
    requires maxChars > 0 && k <= |ws| && AllFit(ws, maxChars)
    requires IsPacking(groups, ws, maxChars)
    ensures |Pack(ws[k..], maxChars)| <= |groups|
    decreases |groups|
  {
    if k == |ws| {
      assert ws[k..] == [];
    } else {
      assert groups != [];
      var p := |groups[0]|;
      PackingOfRest(groups, ws, maxChars);
      if p <= k {
        GreedyStaysAhead(ws[p..], k - p, groups[1..], maxChars);
        AheadOfGroup(ws, k, p, maxChars, |groups|);
      } else {
        var n := Fitting(ws[k..], 1, maxChars);
        GreedyReachesGroupEnd(ws, k, p, maxChars);
        GreedyStaysAhead(ws[p..], k + n - p, groups[1..], maxChars);
        BehindGroup(ws, k, p, n, maxChars, |groups| - 1);
      }
    }
  }

  /** The groups greedy packing forms. */
  function PackGroups(ws: seq<string>, maxChars: nat): seq<seq<string>>
    requires maxChars > 0
    decreases |ws|
  {
    if ws == [] then []
    else
      var n := Fitting(ws, 1, maxChars);
      [ws[..n]] + PackGroups(ws[n..], maxChars)
  }

  lemma {:induction false} PackGroupsIsPacking(ws: seq<string>, maxChars: nat)
    requires maxChars > 0 && AllFit(ws, maxChars)
    ensures IsPacking(PackGroups(ws, maxChars), ws, maxChars)
    ensures |PackGroups(ws, maxChars)| == |Pack(ws, maxChars)|
    ensures forall i :: 0 <= i < |Pack(ws, maxChars)| ==>
              Pack(ws, maxChars)[i] == Join(PackGroups(ws, maxChars)[i])
    decreases |ws|
  {
    if ws != [] {
      var n := Fitting(ws, 1, maxChars);
      PackGroupsIsPacking(ws[n..], maxChars);
      assert ws == ws[..n] + ws[n..];
    }
  }

  /**
    For a sentence longer than `maxChars` without an overlong word, the pieces are the joins of a
    packing of its words, and no packing has fewer groups.
   */
  lemma GreedyIsOptimal(sentence: string, maxChars: nat)
    requires maxChars > 0 && |sentence| > maxChars
    ensures AllFit(Words(sentence), maxChars) ==>
              exists best :: IsPacking(best, Words(sentence), maxChars)
                             && |SentencePieces(sentence, maxChars)| == |best|
                             && forall i :: 0 <= i < |best| ==> SentencePieces(sentence, maxChars)[i] == Join(best[i])
    ensures AllFit(Words(sentence), maxChars) ==>
              forall groups :: IsPacking(groups, Words(sentence), maxChars) ==>
                                 |SentencePieces(sentence, maxChars)| <= |groups|
  {
    var ws := Words(sentence);
    if AllFit(ws, maxChars) {
      PackGroupsIsPacking(ws, maxChars);
      forall groups | IsPacking(groups, ws, maxChars)
        ensures |Pack(ws, maxChars)| <= |groups|
      {
        GreedyStaysAhead(ws, 0, groups, maxChars);
        assert ws[0..] == ws;
      }
    }
  }

  // -------------------------------------------------------------------- pages

  /** A piece with the page and section it came from. */
  datatype Placed = Placed(page: nat, section: Option<string>, text: string)

  function PlacedIn(page: nat, section: Option<string>, pieces: seq<string>): (r: seq<Placed>)
    ensures |r| == |pieces|
    ensures forall i :: 0 <= i < |r| ==> r[i] == Placed(page, section, pieces[i])
  {
    seq(|pieces|, i requires 0 <= i < |pieces| => Placed(page, section, pieces[i]))
  }

  function BlocksPieces(page: nat, blocks: seq<Block>, maxChars: nat): seq<Placed>
    requires maxChars > 0
  {
    if blocks == [] then []
    else PlacedIn(page, blocks[0].section, PiecesOf(blocks[0].text, maxChars))
         + BlocksPieces(page, blocks[1..], maxChars)
  }

  function PagesPieces(pages: seq<ParsedPage>, maxChars: nat): seq<Placed>
    requires maxChars > 0
  {
    if pages == [] then []
    else BlocksPieces(pages[0].page, pages[0].blocks, maxChars) + PagesPieces(pages[1..], maxChars)
  }

  /** Pieces numbered from 0 in one count across all pages. */
  function Numbered(placed: seq<Placed>): (chunks: seq<DocumentChunk>)
    ensures |chunks| == |placed|
    ensures forall i :: 0 <= i < |chunks| ==>
              chunks[i] == DocumentChunk(placed[i].page, placed[i].section, i, placed[i].text)
  {
    seq(|placed|, i requires 0 <= i < |placed| => DocumentChunk(placed[i].page, placed[i].section, i, placed[i].text))
  }

  /** The numbered chunks, unless there are more than the budget allows. */
  function Budgeted(placed: seq<Placed>, maxChunks: nat): Result<seq<DocumentChunk>, string> {
    if |placed| > maxChunks then Err("too_many_chunks") else Ok(Numbered(placed))
  }

  function ChunksOf(pages: seq<ParsedPage>, maxChars: nat, maxChunks: nat): Result<seq<DocumentChunk>, string>
    requires maxChars > 0
  {
    Budgeted(PagesPieces(pages, maxChars), maxChunks)
  }

  method PlacePieces(chunks: seq<DocumentChunk>, page: nat, section: Option<string>, pieces: seq<string>,
                     maxChunks: nat, ghost done: seq<Placed>)
    returns (result: Result<seq<DocumentChunk>, string>)
    requires chunks == Numbered(done) && |done| <= maxChunks
    ensures result == Budgeted(done + PlacedIn(page, section, pieces), maxChunks)
  {
    ghost var placed := PlacedIn(page, section, pieces);
    var extended := chunks;
    var ordinal := |chunks|;
    for i := 0 to |pieces|
      invariant ordinal == |extended| == |done| + i <= maxChunks
      invariant extended == Numbered(done + placed[..i])
    {
      if |extended| >= maxChunks {
        return Err("too_many_chunks");
      }
      extended := extended + [DocumentChunk(page, section, ordinal, pieces[i])];
      ordinal := ordinal + 1;
      assert done + placed[..i + 1] == done + placed[..i] + [placed[i]];
    }
    assert placed[..|pieces|] == placed;
    return Ok(extended);
  }

  lemma BudgetMonotone(a: seq<Placed>, b: seq<Placed>, maxChunks: nat)
    requires Budgeted(a, maxChunks).Err?
    ensures Budgeted(a + b, maxChunks) == Budgeted(a, maxChunks)
  {
  }

  method PlaceBlocks(chunks: seq<DocumentChunk>, page: ParsedPage, maxChars: nat, maxChunks: nat,
                     ghost done: seq<Placed>)
    returns (result: Result<seq<DocumentChunk>, string>)
    requires maxChars > 0 && chunks == Numbered(done) && |done| <= maxChunks
    ensures result == Budgeted(done + BlocksPieces(page.page, page.blocks, maxChars), maxChunks)
  {
    var blocks := page.blocks;
    ghost var total := done + BlocksPieces(page.page, blocks, maxChars);
    ghost var sofar := done;
    var extended := chunks;
    for b := 0 to |blocks|
      invariant sofar + BlocksPieces(page.page, blocks[b..], maxChars) == total
      invariant extended == Numbered(sofar) && |sofar| <= maxChunks
    {
      SliceSnoc(blocks, b, b);
      var pieces := SplitText(blocks[b].text, maxChars);
      ghost var placed := PlacedIn(page.page, blocks[b].section, pieces);
      ghost var rest := BlocksPieces(page.page, blocks[b + 1..], maxChars);
      Assoc(sofar, placed, rest);
      var next := PlacePieces(extended, page.page, blocks[b].section, pieces, maxChunks, sofar);
      if next.Err? {
        BudgetMonotone(sofar + placed, rest, maxChunks);
        return next;
      }
      extended := next.value;
      sofar := sofar + placed;
    }
    assert blocks[|blocks|..] == [] && sofar == total;
    return Ok(extended);
  }

  method ChunkPages(pages: seq<ParsedPage>, maxChars: nat, maxChunks: nat)
    returns (result: Result<seq<DocumentChunk>, string>)
    requires maxChars > 0
    ensures result == ChunksOf(pages, maxChars, maxChunks)
  {
    ghost var total := PagesPieces(pages, maxChars);
    ghost var sofar: seq<Placed> := [];
    var chunks: seq<DocumentChunk> := [];
    for p := 0 to |pages|
      invariant sofar + PagesPieces(pages[p..], maxChars) == total
      invariant chunks == Numbered(sofar) && |sofar| <= maxChunks
    {
      SliceSnoc(pages, p, p);
      ghost var placed := BlocksPieces(pages[p].page, pages[p].blocks, maxChars);
      ghost var rest := PagesPieces(pages[p + 1..], maxChars);
      Assoc(sofar, placed, rest);
      var next := PlaceBlocks(chunks, pages[p], maxChars, maxChunks, sofar);
      if next.Err? {
        BudgetMonotone(sofar + placed, rest, maxChunks);
        return next;
      }
      chunks := next.value;
      sofar := sofar + placed;
    }
    assert pages[|pages|..] == [] && sofar == total;
    return Ok(chunks);
  }

  function TextsOf(blocks: seq<Block>): seq<string> {
    if blocks == [] then [] else [blocks[0].text] + TextsOf(blocks[1..])
  }

  /** The text of every block of every page, in reading order. */
  function BlockTexts(pages: seq<ParsedPage>): seq<string> {
    if pages == [] then [] else TextsOf(pages[0].blocks) + BlockTexts(pages[1..])
  }

  function PlacedTexts(placed: seq<Placed>): (r: seq<string>)
    ensures |r| == |placed| && forall i :: 0 <= i < |r| ==> r[i] == placed[i].text
  {
    seq(|placed|, i requires 0 <= i < |placed| => placed[i].text)
  }

  function ChunkTexts(chunks: seq<DocumentChunk>): (r: seq<string>)
    ensures |r| == |chunks| && forall i :: 0 <= i < |r| ==> r[i] == chunks[i].text
  {
    seq(|chunks|, i requires 0 <= i < |chunks| => chunks[i].text)
  }

  lemma PlacedTextsAppend(a: seq<Placed>, b: seq<Placed>)
    ensures PlacedTexts(a + b) == PlacedTexts(a) + PlacedTexts(b)
  {
  }

  /** The two facts that chunking keeps about a list of placed pieces and the texts they came from. */
  predicate Conserved(placed: seq<Placed>, texts: seq<string>, maxChars: nat)
    requires maxChars > 0
  {
    && WordsOfAll(PlacedTexts(placed)) == CutWords(WordsOfAll(texts), maxChars)
    && Bounded(PlacedTexts(placed), maxChars)
  }

  lemma ConservedAppend(a: seq<Placed>, b: seq<Placed>, s: seq<string>, t: seq<string>, maxChars: nat)
    requires maxChars > 0 && Conserved(a, s, maxChars) && Conserved(b, t, maxChars)
    ensures Conserved(a + b, s + t, maxChars)
  {
    PlacedTextsAppend(a, b);
    assert WordsOfAll(PlacedTexts(a + b)) == CutWords(WordsOfAll(s + t), maxChars) by {
      WordsOfAllAppend(PlacedTexts(a), PlacedTexts(b));
      WordsOfAllAppend(s, t);
      CutWordsAppend(WordsOfAll(s), WordsOfAll(t), maxChars);
    }
    BoundedAppend(PlacedTexts(a), PlacedTexts(b), maxChars);
  }

  lemma BoundedAppend(a: seq<string>, b: seq<string>, maxChars: nat)
    requires Bounded(a, maxChars) && Bounded(b, maxChars)
    ensures Bounded(a + b, maxChars)
  {
  }

  lemma TextConserved(page: nat, section: Option<string>, text: string, maxChars: nat)
    requires maxChars > 0
    ensures Conserved(PlacedIn(page, section, PiecesOf(text, maxChars)), [text], maxChars)
  {
    var pieces := PiecesOf(text, maxChars);
    assert PlacedTexts(PlacedIn(page, section, pieces)) == pieces;
    PiecesKeepWords(text, maxChars);
    PiecesBounded(text, maxChars);
    assert WordsOfAll([text]) == Words(text);
  }

  lemma {:induction false} BlocksConserved(page: nat, blocks: seq<Block>, maxChars: nat)
    requires maxChars > 0
    ensures Conserved(BlocksPieces(page, blocks, maxChars), TextsOf(blocks), maxChars)
  {
    if blocks != [] {
      BlocksConserved(page, blocks[1..], maxChars);
      TextConserved(page, blocks[0].section, blocks[0].text, maxChars);
      ConservedAppend(PlacedIn(page, blocks[0].section, PiecesOf(blocks[0].text, maxChars)),
                      BlocksPieces(page, blocks[1..], maxChars), [blocks[0].text], TextsOf(blocks[1..]), maxChars);
    }
  }

  lemma {:induction false} PagesConserved(pages: seq<ParsedPage>, maxChars: nat)
    requires maxChars > 0
    ensures Conserved(PagesPieces(pages, maxChars), BlockTexts(pages), maxChars)
  {
    if pages != [] {
      PagesConserved(pages[1..], maxChars);
      BlocksConserved(pages[0].page, pages[0].blocks, maxChars);
      ConservedAppend(BlocksPieces(pages[0].page, pages[0].blocks, maxChars), PagesPieces(pages[1..], maxChars),
                      TextsOf(pages[0].blocks), BlockTexts(pages[1..]), maxChars);
    }
  }

  lemma {:induction false} CutWordsKeepInk(ws: seq<string>, maxChars: nat)
    requires maxChars > 0 && AllWords(ws)
    ensures Flatten(CutWords(ws, maxChars)) == Flatten(ws)
  {
    if ws != [] {
      CutWordsKeepInk(ws[1..], maxChars);
      if |ws[0]| > maxChars {
        SlicesAreWords(ws[0], maxChars);
        FlattenAppend(Slices(ws[0], maxChars), CutWords(ws[1..], maxChars));
      }
    }
  }

  lemma {:induction false} InkOfAll(parts: seq<string>)
    ensures Ink(Flatten(parts)) == Flatten(WordsOfAll(parts)) && AllWords(WordsOfAll(parts))
  {
    if parts != [] {
      InkOfAll(parts[1..]);
      InkAppend(parts[0], Flatten(parts[1..]));
      InkIsWords(parts[0]);
      FlattenAppend(Words(parts[0]), WordsOfAll(parts[1..]));
    }
  }

  predicate OrdinalsInOrder(chunks: seq<DocumentChunk>) {
    forall i :: 0 <= i < |chunks| ==> chunks[i].ordinal == i
  }

  /**
    Chunking conserves text. When it succeeds, ordinals count from 0 across pages, every chunk is
    non-empty and within the bound, the chunks' words are the blocks' words with only the words that
    cannot fit cut, and so the non-whitespace characters are the same in the same order.
   */
  lemma ChunkingConservesText(pages: seq<ParsedPage>, maxChars: nat, maxChunks: nat)
    requires maxChars > 0
    ensures var result := ChunksOf(pages, maxChars, maxChunks);
            result.Ok? ==>
              && OrdinalsInOrder(result.value)
              && Bounded(ChunkTexts(result.value), maxChars)
              && WordsOfAll(ChunkTexts(result.value)) == CutWords(WordsOfAll(BlockTexts(pages)), maxChars)
              && Ink(Flatten(ChunkTexts(result.value))) == Ink(Flatten(BlockTexts(pages)))
  {
    var placed := PagesPieces(pages, maxChars);
    var chunks := Numbered(placed);
    PagesConserved(pages, maxChars);
    assert ChunkTexts(chunks) == PlacedTexts(placed);
    InkOfAll(ChunkTexts(chunks));
    InkOfAll(BlockTexts(pages));
    CutWordsKeepInk(WordsOfAll(BlockTexts(pages)), maxChars);
  }

  /** How many pieces a list of texts has. */
  function PieceCount(texts: seq<string>, maxChars: nat): nat
    requires maxChars > 0
  {
    if texts == [] then 0 else |PiecesOf(texts[0], maxChars)| + PieceCount(texts[1..], maxChars)
  }

  lemma {:induction false} PieceCountAppend(a: seq<string>, b: seq<string>, maxChars: nat)
    requires maxChars > 0
    ensures PieceCount(a + b, maxChars) == PieceCount(a, maxChars) + PieceCount(b, maxChars)
  {
    if a == [] {
      assert a + b == b;
    } else {
      TailOfAppend(a, b);
      PieceCountAppend(a[1..], b, maxChars);
    }
  }

  lemma {:induction false} BlocksCount(page: nat, blocks: seq<Block>, maxChars: nat)
    requires maxChars > 0
    ensures |BlocksPieces(page, blocks, maxChars)| == PieceCount(TextsOf(blocks), maxChars)
  {
    if blocks != [] {
      BlocksCount(page, blocks[1..], maxChars);
      assert TextsOf(blocks) == [blocks[0].text] + TextsOf(blocks[1..]);
    }
  }

  lemma {:induction false} PagesCount(pages: seq<ParsedPage>, maxChars: nat)
    requires maxChars > 0
    ensures |PagesPieces(pages, maxChars)| == PieceCount(BlockTexts(pages), maxChars)
  {
    if pages != [] {
      BlocksCount(pages[0].page, pages[0].blocks, maxChars);
      PagesCount(pages[1..], maxChars);
      PieceCountAppend(TextsOf(pages[0].blocks), BlockTexts(pages[1..]), maxChars);
    }
  }

  /** Chunking fails exactly when all the texts together have more pieces than the budget, and then with its one code. */
  lemma TooManyExactlyWhen(pages: seq<ParsedPage>, maxChars: nat, maxChunks: nat)
    requires maxChars > 0
    ensures ChunksOf(pages, maxChars, maxChunks).Err? <==> PieceCount(BlockTexts(pages), maxChars) > maxChunks
    ensures ChunksOf(pages, maxChars, maxChunks).Err? ==> ChunksOf(pages, maxChars, maxChunks).error == "too_many_chunks"
  {
    PagesCount(pages, maxChars);
  }
}
