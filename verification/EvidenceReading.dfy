/** How evidence is read and weighed: the segments of a passage, the support of a text and when two values differ. */
module EvidenceReading {
  import opened Common
  import opened Text
  import Chunking
  import opened Grounding
  import opened Answering
  import opened Decision
  import ExtractionCredit

  // -------------------------------------------------------------------- segments

  /** How many cuts the line has from index `i` on. */
  function Cuts(line: string, i: nat): nat
    requires i <= |line|
    decreases |line| - i
  {
    if i == |line| then 0 else (if IsCut(line, i) then 1 else 0) + Cuts(line, i + 1)
  }

  lemma {:induction false} NoCutsBefore(line: string, i: nat, p: nat)
    requires i <= p <= |line| && forall k :: i <= k < p ==> !IsCut(line, k)
    ensures Cuts(line, i) == Cuts(line, p)
    decreases p - i
  {
    if i < p { NoCutsBefore(line, i + 1, p); }
  }

  /** There is no cut inside the whitespace behind a cut. */
  lemma CutsBehind(line: string, p: nat)
    requires p < |line| && IsCut(line, p)
    ensures Cuts(line, p) == 1 + Cuts(line, SkipSpaces(line, p))
  {
    var q := SkipSpaces(line, p);
    forall k | p + 1 <= k < q ensures !IsCut(line, k) {
      assert IsSpace(line[k - 1]);
    }
    NoCutsBefore(line, p + 1, q);
  }

  lemma StripStartsAt(s: string)
    requires s != "" && !IsSpace(s[0])
    ensures Strip(s) != "" && Strip(s)[0] == s[0]
  {
    var b := StripBounds(s);
    assert b.0 == 0 < b.1;
  }

  lemma PartFromWord(line: string, start: nat, p: nat)
    requires start < p <= |line| && !IsSpace(line[start])
    ensures Strip(line[start..p]) != "" && Strip(line[start..p])[0] == line[start]
    ensures Kept(line[start..p]) == [Strip(line[start..p])] && Words(Strip(line[start..p])) == Words(line[start..p])
  {
    var part := line[start..p];
    assert part[0] == line[start];
    StripStartsAt(part);
    StripKeepsWords(part);
  }

  lemma WordsAcrossCut(line: string, start: nat, p: nat)
    requires start < p < |line| && IsCut(line, p)
    ensures Words(line[start..]) == Words(line[start..p]) + Words(line[SkipSpaces(line, p)..])
  {
    var q := SkipSpaces(line, p);
    var before, gap, rest := line[start..p], line[p..q], line[q..];
    SplitTwice(line, start, p, q);
    assert Blank(gap) && gap != "";
    WordsAroundGap(before, gap, rest);
  }

  lemma SplitTwice<T>(s: seq<T>, i: nat, j: nat, k: nat)
    requires i <= j <= k <= |s|
    ensures s[i..] == s[i..j] + (s[j..k] + s[k..])
  {
  }

  lemma WordsAroundGap(before: string, gap: string, rest: string)
    requires gap != "" && Blank(gap)
    ensures Words(before + (gap + rest)) == Words(before) + Words(rest)
  {
    assert (gap + rest)[0] == gap[0] && IsSpace(gap[|gap| - 1]);
    WordsAppend(before, gap + rest);
    WordsAppend(gap, rest);
    BlankHasNoWords(gap);
  }

  /** A line is cut behind `.`, `!` and `?` before a capital or digit, at every such place, and no word is lost. */
  lemma {:induction false} PartsAreCut(line: string, start: nat)
    requires start < |line| && !IsSpace(line[start])
    ensures |LineParts(line, start)| == 1 + Cuts(line, start)
    ensures Chunking.WordsOfAll(LineParts(line, start)) == Words(line[start..])
    decreases |line| - start
  {
    var p := NextCut(line, start);
    NoCutsBefore(line, start, p);
    PartFromWord(line, start, p);
    if p < |line| {
      var q := SkipSpaces(line, p);
      CutsBehind(line, p);
      PartsAreCut(line, q);
      WordsAcrossCut(line, start, p);
      Chunking.WordsOfAllCons(Strip(line[start..p]), LineParts(line, q));
    } else {
      assert line[start..] == line[start..p];
      Chunking.WordsOfAllCons(Strip(line[start..p]), []);
      assert [Strip(line[start..p])] + [] == [Strip(line[start..p])];
    }
  }

  /** Every part but the last ends in a terminator, and every part but the first starts with a capital or a digit. */
  predicate CutRight(parts: seq<string>) {
    && (forall i :: 0 <= i < |parts| ==> parts[i] != "")
    && (forall i :: 0 <= i < |parts| - 1 ==> parts[i][|parts[i]| - 1] in {'.', '!', '?'})
    && (forall i :: 0 < i < |parts| ==> IsSentenceStart(parts[i][0]))
  }

  predicate EndsInTerminator(part: string) {
    part != "" && part[|part| - 1] in {'.', '!', '?'}
  }

  predicate StartsWith(part: string, c: char) {
    part != "" && part[0] == c
  }

  lemma CutRightCons(first: string, rest: seq<string>, c: char)
    requires EndsInTerminator(first) && rest != [] && CutRight(rest) && StartsWith(rest[0], c) && IsSentenceStart(c)
    ensures CutRight([first] + rest)
  {
  }

  lemma CutRightOne(part: string, parts: seq<string>)
    requires part != "" && parts == [part]
    ensures CutRight(parts)
  {
  }

  lemma PartToCut(line: string, start: nat, p: nat)
    requires start < p < |line| && !IsSpace(line[start]) && IsCut(line, p)
    ensures Strip(line[start..p]) == line[start..p] && EndsInTerminator(line[start..p])
  {
    assert line[start..p][p - start - 1] == line[p - 1];
    StripTrimmed(line[start..p]);
  }

  /** What a line is cut into from a word on: up to the next cut, then from behind it; or what is left. */
  lemma PartsFrom(line: string, start: nat, p: nat)
    requires start < |line| && !IsSpace(line[start]) && p == NextCut(line, start)
    ensures start < p
    ensures p < |line| ==> LineParts(line, start) == [line[start..p]] + LineParts(line, SkipSpaces(line, p)) && EndsInTerminator(line[start..p])
    ensures p == |line| ==> LineParts(line, start) == [Strip(line[start..p])] && StartsWith(Strip(line[start..p]), line[start])
  {
    PartFromWord(line, start, p);
    if p < |line| { PartToCut(line, start, p); } else { assert line[start..] == line[start..p]; }
  }

  lemma {:induction false} PartsAreCutRight(line: string, start: nat)
    requires start < |line| && !IsSpace(line[start])
    ensures CutRight(LineParts(line, start)) && LineParts(line, start) != [] && StartsWith(LineParts(line, start)[0], line[start])
    decreases |line| - start
  {
    var p := NextCut(line, start);
    PartsFrom(line, start, p);
    if p < |line| {
      var q := SkipSpaces(line, p);
      PartsAreCutRight(line, q);
      CutRightCons(line[start..p], LineParts(line, q), line[q]);
    } else {
      CutRightOne(Strip(line[start..p]), LineParts(line, start));
    }
  }

  /** Leading bullets are dropped from a stripped line, then whitespace; nothing else is. */
  lemma BulletsAreDropped(line: string) returns (bullets: nat)
    ensures bullets <= |Strip(line)| && forall i :: 0 <= i < bullets ==> Strip(line)[i] as int == 0x2022
    ensures bullets < |Strip(line)| ==> Strip(line)[bullets] as int != 0x2022
    ensures Unbulleted(line) == Strip(Strip(line)[bullets..])
  {
    bullets := SkipBullets(Strip(line), 0);
    BulletsEnd(Strip(line), 0);
  }

  lemma {:induction false} BulletsEnd(s: string, i: nat)
    requires i <= |s|
    ensures SkipBullets(s, i) < |s| ==> s[SkipBullets(s, i)] as int != 0x2022
    decreases |s| - i
  {
    if i < |s| && s[i] as int == 0x2022 { BulletsEnd(s, i + 1); }
  }

  function Groups(lines: seq<string>): (r: seq<seq<string>>)
    ensures |r| == |lines|
  {
    seq(|lines|, i requires 0 <= i < |lines| => LineParts(Unbulleted(lines[i]), 0))
  }

  /** The words of lines without their bullets. */
  function LineWords(lines: seq<string>): seq<string> {
    if lines == [] then [] else Words(Unbulleted(lines[0])) + LineWords(lines[1..])
  }

  lemma UnbulletedKeepsWords(line: string)
    ensures Chunking.WordsOfAll(LineParts(Unbulleted(line), 0)) == Words(Unbulleted(line))
  {
    var u := Unbulleted(line);
    if u == "" {
      assert NextCut(u, 0) == 0 && u[0..] == "" && Strip("") == "";
    } else {
      PartsAreCut(u, 0);
      assert u[0..] == u;
    }
  }

  lemma GroupsSplit(lines: seq<string>)
    requires lines != []
    ensures Flatten(Groups(lines)) == LineParts(Unbulleted(lines[0]), 0) + Flatten(Groups(lines[1..]))
  {
    assert Groups(lines)[0] == LineParts(Unbulleted(lines[0]), 0) && Groups(lines)[1..] == Groups(lines[1..]);
  }

  lemma {:induction false} GroupsKeepWords(lines: seq<string>)
    ensures Chunking.WordsOfAll(Flatten(Groups(lines))) == LineWords(lines)
  {
    if lines != [] {
      GroupsKeepWords(lines[1..]);
      UnbulletedKeepsWords(lines[0]);
      GroupsSplit(lines);
      Chunking.WordsOfAllAppend(LineParts(Unbulleted(lines[0]), 0), Flatten(Groups(lines[1..])));
    }
  }

  /** The segments of a passage hold, in order, every word of its lines but for leading bullets. */
  lemma SegmentsKeepWords(text: string)
    ensures Chunking.WordsOfAll(Segments(text)) == LineWords(SplitLines(text, 0))
  {
    GroupsKeepWords(SplitLines(text, 0));
  }

  // --------------------------------------------------------------------- support

  /** The support of a text is the weighted sum of four fractions; the cap at one never acts. */
  lemma SupportIsWeighted(e: Engine, question: string, text: string, kind: Kind)
    ensures var asked := e.tokens(question) - e.noise;
            var coverage := |asked * e.tokens(text)| as real / (if asked == {} then 1 else |asked|) as real;
            var close := (e.similarity(question, text) + 1.0) / 2.0;
            && 0.0 <= coverage <= 1.0
            && Support(e, question, text, kind) ==
               0.30 * coverage + 0.20 * (if close < 0.0 then 0.0 else if close > 1.0 then 1.0 else close)
               + (if e.value(kind, text, question).Some? then 0.35 else 0.0) + (if e.related(question, text, kind) then 0.15 else 0.0)
  {
    var asked := e.tokens(question) - e.noise;
    var both := asked * e.tokens(text);
    Subset(both, asked);
    FractionIsUnit(|both|, if |asked| > 1 then |asked| else 1);
    assert asked == {} <==> |asked| == 0;
  }

  // ----------------------------------------------------------------- differing values

  lemma FoldOfYes(text: string, fold: CharFold)
    requires ExtractionCredit.FoldsAscii(fold)
    ensures Fold("Yes. " + text, fold) == "yes. " + Fold(text, fold)
    ensures Fold("No. " + text, fold) == "no. " + Fold(text, fold)
  {
    FoldAppend("Yes. ", text, fold);
    FoldAppend("No. ", text, fold);
    assert "Yes. "[1..] == "es. " && "es. "[1..] == "s. " && "s. "[1..] == ". " && ". "[1..] == " " && " "[1..] == "";
    assert "No. "[1..] == "o. " && "o. "[1..] == ". ";
    assert Fold(". ", fold) == ". ";
  }

  lemma VerdictIs(e: Engine, yes: bool, text: string)
    requires ExtractionCredit.FoldsAscii(e.fold)
    ensures KeyOf(e, Boolean, (if yes then "Yes. " else "No. ") + text) == Verdict(yes)
  {
    FoldOfYes(text, e.fold);
    var rest := Fold(text, e.fold);
    if yes {
      assert ("yes. " + rest)[0] != "no. "[0];
      assert "yes. " <= "yes. " + rest;
    } else {
      assert "no. " <= "no. " + rest;
    }
  }

  /** Verdicts compare by yes or no alone, whatever evidence follows. */
  lemma VerdictsComparePolarity(e: Engine, yes: bool, text: string, other: bool, evidence: string)
    requires ExtractionCredit.FoldsAscii(e.fold)
    ensures var a, b := (if yes then "Yes. " else "No. ") + text, (if other then "Yes. " else "No. ") + evidence;
            KeyOf(e, Boolean, a) != KeyOf(e, Boolean, b) <==> yes != other
  {
    VerdictIs(e, yes, text);
    VerdictIs(e, other, evidence);
  }

  /** Other values differ exactly when their folded texts do. */
  lemma ValuesCompareFolded(e: Engine, kind: Kind, a: string, b: string)
    requires kind != Boolean
    ensures KeyOf(e, kind, a) != KeyOf(e, kind, b) <==> Fold(a, e.fold) != Fold(b, e.fold)
  {
  }
}
