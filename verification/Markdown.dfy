/** The Markdown parser: lines to blocks, headings to section labels and pages. */
module Markdown {
  import opened Common
  import opened Text
  import opened Chunking

  datatype Line = Heading(level: nat, title: string) | Empty | Body(text: string)

  /** The length of the run of `#` at the start of a line. */
  function Hashes(line: string, i: nat): (n: nat)
    requires i <= |line|
    ensures i <= n <= |line| && forall k :: i <= k < n ==> line[k] == '#'
    ensures n < |line| ==> line[n] != '#'
    decreases |line| - i
  {
    if i < |line| && line[i] == '#' then Hashes(line, i + 1) else i
  }

  /** A stripped line: one to six `#`, whitespace and a title make a heading. */
  function Classify(raw: string): Line {
    var line := Strip(raw);
    var n := Hashes(line, 0);
    if line == "" then Empty
    else if 1 <= n <= 6 && n < |line| && IsSpace(line[n]) then Heading(n, Strip(line[SkipSpaces(line, n)..]))
    else Body(line)
  }

  /** A line of the form: one to six `#`, whitespace, a title that neither starts nor ends in whitespace. */
  ghost predicate IsHeading(line: string, level: nat, title: string) {
    exists gap: string :: 1 <= level <= 6 && gap != "" && Blank(gap) && Trimmed(title) && line == seq(level, _ => '#') + gap + title
  }

  lemma {:induction false} HashesAre(line: string, i: nat, n: nat)
    requires i <= n <= |line| && (forall k :: i <= k < n ==> line[k] == '#') && (n < |line| ==> line[n] != '#')
    ensures Hashes(line, i) == n
    decreases n - i
  {
    if i < n { HashesAre(line, i + 1, n); }
  }

  lemma {:induction false} SpacesAre(line: string, i: nat, n: nat)
    requires i <= n <= |line| && (forall k :: i <= k < n ==> IsSpace(line[k])) && (n < |line| ==> !IsSpace(line[n]))
    ensures SkipSpaces(line, i) == n
    decreases n - i
  {
    if i < n { SpacesAre(line, i + 1, n); }
  }

  lemma HeadingIsRead(raw: string, level: nat, title: string)
    requires IsHeading(Strip(raw), level, title)
    ensures Classify(raw) == Heading(level, title)
  {
    var line := Strip(raw);
    var gap: string :| 1 <= level <= 6 && gap != "" && Blank(gap) && Trimmed(title) && line == seq(level, _ => '#') + gap + title;
    var n := level + |gap|;
    assert line[level] == gap[0] && !IsSpace('#');
    assert line[n] == title[0] && line[n..] == title;
    forall k | level <= k < n ensures IsSpace(line[k]) {
      assert line[k] == gap[k - level];
    }
    HashesAre(line, 0, level);
    SpacesAre(line, level, n);
    StripTrimmed(title);
  }

  lemma ReadIsHeading(raw: string)
    requires Classify(raw).Heading?
    ensures IsHeading(Strip(raw), Classify(raw).level, Classify(raw).title)
  {
    var line := Strip(raw);
    var n := Hashes(line, 0);
    var q := SkipSpaces(line, n);
    assert !IsSpace(line[|line| - 1]);
    assert Trimmed(line[q..]);
    StripTrimmed(line[q..]);
    var marks, gap := seq(n, _ => '#'), line[n..q];
    assert line[..n] == marks;
    assert line == marks + gap + line[q..];
    assert Blank(gap) && gap != "";
  }

  /** Which lines are headings, empty or body text, by their form alone. */
  lemma ClassifiedExactlyWhen(raw: string, level: nat, title: string)
    ensures Classify(raw) == Heading(level, title) <==> IsHeading(Strip(raw), level, title)
    ensures Classify(raw).Empty? <==> Strip(raw) == ""
    ensures Classify(raw).Body? ==> Classify(raw).text == Strip(raw)
  {
    if IsHeading(Strip(raw), level, title) { HeadingIsRead(raw, level, title); }
    if Classify(raw).Heading? { ReadIsHeading(raw); }
  }

  // ------------------------------------------------------------------ the parser

  datatype Parser = Parser(pages: seq<ParsedPage>, blocks: seq<Block>, section: Option<string>, paragraph: seq<string>, number: nat)

  const Start := Parser([], [], None, [], 1)

  function Flushed(p: Parser): Parser {
    if p.paragraph == [] then p
    else p.(blocks := p.blocks + [Block(p.section, Strip(Join(p.paragraph)))], paragraph := [])
  }

  function Turned(p: Parser): Parser {
    p.(pages := p.pages + [ParsedPage(p.number, p.blocks)], blocks := [], number := p.number + 1)
  }

  /** The state at a heading, before its title takes effect. */
  function AtHeading(p: Parser, level: nat): Parser {
    var f := Flushed(p);
    if level == 2 && f.blocks != [] then Turned(f) else f
  }

  function Titled(t: Parser, level: nat, title: string): Parser {
    t.(section := Some(title), blocks := if level == 1 then t.blocks + [Block(Some(title), title)] else t.blocks)
  }

  function Next(p: Parser, line: Line): Parser {
    match line
    case Empty => Flushed(p)
    case Body(text) => p.(paragraph := p.paragraph + [text])
    case Heading(level, title) => Titled(AtHeading(p, level), level, title)
  }

  function After(lines: seq<Line>, n: nat): Parser
    requires n <= |lines|
  {
    if n == 0 then Start else Next(After(lines, n - 1), lines[n - 1])
  }

  function Finished(p: Parser): seq<ParsedPage> {
    var f := Flushed(p);
    if f.blocks != [] then f.pages + [ParsedPage(f.number, f.blocks)] else f.pages
  }

  /** The lines of a text, classified. */
  function Lines(text: string): seq<Line> {
    var lines := SplitLines(text, 0);
    seq(|lines|, i requires 0 <= i < |lines| => Classify(lines[i]))
  }

  function Pages(text: string): seq<ParsedPage> {
    Finished(After(Lines(text), |Lines(text)|))
  }

  method Flush(blocks: seq<Block>, section: Option<string>, paragraph: seq<string>) returns (blocks': seq<Block>)
    ensures blocks' == if paragraph == [] then blocks else blocks + [Block(section, Strip(Join(paragraph)))]
  {
    blocks' := blocks;
    if paragraph != [] { blocks' := blocks' + [Block(section, Strip(Join(paragraph)))]; }
  }

  /** One turn of the loop. */
  method ReadLine(line: Line, pages: seq<ParsedPage>, blocks: seq<Block>, section: Option<string>, paragraph: seq<string>, number: nat)
    returns (pages': seq<ParsedPage>, blocks': seq<Block>, section': Option<string>, paragraph': seq<string>, number': nat)
    ensures Parser(pages', blocks', section', paragraph', number') == Next(Parser(pages, blocks, section, paragraph, number), line)
  {
    pages', blocks', section', paragraph', number' := pages, blocks, section, paragraph, number;
    match line
    case Heading(level, title) =>
      blocks' := Flush(blocks', section', paragraph');
      paragraph' := [];
      if level == 2 && blocks' != [] {
        pages' := pages' + [ParsedPage(number', blocks')];
        blocks' := [];
        number' := number' + 1;
      }
      section' := Some(title);
      if level == 1 { blocks' := blocks' + [Block(section', title)]; }
    case Empty =>
      blocks' := Flush(blocks', section', paragraph');
      paragraph' := [];
    case Body(text) => paragraph' := paragraph' + [text];
  }

  method ParseLines(lines: seq<Line>) returns (pages: seq<ParsedPage>)
    ensures pages == Finished(After(lines, |lines|))
  {
    var blocks: seq<Block>, section: Option<string>, paragraph: seq<string>, number: nat := [], None, [], 1;
    pages := [];
    for i := 0 to |lines|
      invariant Parser(pages, blocks, section, paragraph, number) == After(lines, i)
    {
      AfterNext(lines, i + 1);
      pages, blocks, section, paragraph, number := ReadLine(lines[i], pages, blocks, section, paragraph, number);
    }
    blocks := Flush(blocks, section, paragraph);
    if blocks != [] { pages := pages + [ParsedPage(number, blocks)]; }
  }

  method ParseMarkdown(text: string) returns (pages: seq<ParsedPage>)
    ensures pages == Pages(text)
  {
    pages := ParseLines(Lines(text));
  }

  // ------------------------------------- where each line of the source belongs

  /** The last heading of the first `n` lines. */
  function SectionAt(lines: seq<Line>, n: nat): Option<string>
    requires n <= |lines|
  {
    if n == 0 then None
    else match lines[n - 1]
         case Heading(_, title) => Some(title)
         case _ => SectionAt(lines, n - 1)
  }

  /** Whether a line becomes text of the document. */
  predicate IsText(line: Line) {
    line.Body? || (line.Heading? && line.level == 1)
  }

  /** Whether there is text between the last level-2 heading, or the start, and line `n`. */
  predicate TextSinceBreak(lines: seq<Line>, n: nat)
    requires n <= |lines|
  {
    n > 0 && (IsText(lines[n - 1])
              || (!(lines[n - 1].Heading? && lines[n - 1].level == 2) && TextSinceBreak(lines, n - 1)))
  }

  /** The page line `n` belongs to: one more than the level-2 headings above it that had text since the one before. */
  function PageAt(lines: seq<Line>, n: nat): nat
    requires n <= |lines|
  {
    if n == 0 then 1
    else
      var line := lines[n - 1];
      PageAt(lines, n - 1) + (if line.Heading? && line.level == 2 && TextSinceBreak(lines, n - 1) then 1 else 0)
  }

  /** A block with the page it belongs to. */
  datatype PlacedBlock = PlacedBlock(page: nat, block: Block)

  /** The consecutive body lines that end before line `n`. */
  function BodyRun(lines: seq<Line>, n: nat): seq<string>
    requires n <= |lines|
  {
    if n == 0 || !lines[n - 1].Body? then [] else BodyRun(lines, n - 1) + [lines[n - 1].text]
  }

  /** Whether line `i` is the last of consecutive body lines. */
  predicate EndsRun(lines: seq<Line>, i: nat)
    requires i < |lines|
  {
    lines[i].Body? && (i + 1 == |lines| || !lines[i + 1].Body?)
  }

  /** The block that line `i` completes: a level-1 title, or the consecutive body lines that end with it. */
  function BlockAt(lines: seq<Line>, i: nat): seq<PlacedBlock>
    requires i < |lines|
  {
    match lines[i]
    case Heading(level, title) => TitleBlock(PageAt(lines, i), level, title)
    case Body(_) =>
      if EndsRun(lines, i) then [ParagraphBlock(PageAt(lines, i), SectionAt(lines, i), BodyRun(lines, i + 1))] else []
    case Empty => []
  }

  function TitleBlock(page: nat, level: nat, title: string): seq<PlacedBlock> {
    if level == 1 then [PlacedBlock(page, Block(Some(title), title))] else []
  }

  function ParagraphBlock(page: nat, section: Option<string>, run: seq<string>): PlacedBlock {
    PlacedBlock(page, Block(section, Strip(Join(run))))
  }

  /** The blocks of the first `n` lines, with page and section as the source has them. */
  function SourceBlocks(lines: seq<Line>, n: nat): seq<PlacedBlock>
    requires n <= |lines|
  {
    if n == 0 then [] else SourceBlocks(lines, n - 1) + BlockAt(lines, n - 1)
  }

  function Place(page: nat, blocks: seq<Block>): (r: seq<PlacedBlock>)
    ensures |r| == |blocks| && forall i :: 0 <= i < |r| ==> r[i] == PlacedBlock(page, blocks[i])
  {
    seq(|blocks|, i requires 0 <= i < |blocks| => PlacedBlock(page, blocks[i]))
  }

  function PlacedIn(pages: seq<ParsedPage>): seq<PlacedBlock> {
    if pages == [] then [] else PlacedIn(pages[..|pages| - 1]) + Place(pages[|pages| - 1].page, pages[|pages| - 1].blocks)
  }

  /** Every block a parser has completed, in order. */
  function Emitted(p: Parser): seq<PlacedBlock> {
    PlacedIn(p.pages) + Place(p.number, p.blocks)
  }

  /** The block that flushing the paragraph will complete. */
  function Pending(p: Parser): seq<PlacedBlock> {
    if p.paragraph == [] then [] else [ParagraphBlock(p.number, p.section, p.paragraph)]
  }

  lemma PlaceSnoc(page: nat, blocks: seq<Block>, b: Block)
    ensures Place(page, blocks + [b]) == Place(page, blocks) + [PlacedBlock(page, b)]
  {
  }

  lemma PlacedInSnoc(pages: seq<ParsedPage>, page: ParsedPage)
    ensures PlacedIn(pages + [page]) == PlacedIn(pages) + Place(page.page, page.blocks)
  {
    assert (pages + [page])[..|pages|] == pages;
  }

  lemma BlockEmitted(p: Parser, q: Parser, b: Block)
    requires q.pages == p.pages && q.number == p.number && q.blocks == p.blocks + [b]
    ensures Emitted(q) == Emitted(p) + [PlacedBlock(p.number, b)]
  {
    PlaceSnoc(p.number, p.blocks, b);
    Assoc(PlacedIn(p.pages), Place(p.number, p.blocks), [PlacedBlock(p.number, b)]);
  }

  lemma FlushedEmits(p: Parser)
    ensures Emitted(Flushed(p)) == Emitted(p) + Pending(p)
  {
    if p.paragraph != [] { BlockEmitted(p, Flushed(p), Block(p.section, Strip(Join(p.paragraph)))); }
  }

  lemma TurnedEmits(p: Parser)
    ensures Emitted(Turned(p)) == Emitted(p)
  {
    PlacedInSnoc(p.pages, ParsedPage(p.number, p.blocks));
  }

  // ------------------------------------------------------------------- the invariant

  ghost predicate PagesValid(pages: seq<ParsedPage>) {
    forall i :: 0 <= i < |pages| ==> pages[i].page == i + 1 && pages[i].blocks != [] && BlocksValid(pages[i].blocks)
  }

  predicate BlocksValid(blocks: seq<Block>) {
    forall i :: 0 <= i < |blocks| ==> Trimmed(blocks[i].text)
  }

  predicate AllTrimmed(lines: seq<string>) {
    forall i :: 0 <= i < |lines| ==> Trimmed(lines[i])
  }

  ghost predicate Valid(p: Parser) {
    PagesValid(p.pages) && p.number == |p.pages| + 1 && BlocksValid(p.blocks) && AllTrimmed(p.paragraph)
  }

  /** A heading has a title and a text line is not blank. */
  predicate LineValid(line: Line) {
    (line.Heading? ==> Trimmed(line.title)) && (line.Body? ==> Trimmed(line.text))
  }

  lemma ClassifiedIsValid(raw: string)
    ensures LineValid(Classify(raw))
  {
    var line := Strip(raw);
    if Classify(raw).Heading? {
      var q := SkipSpaces(line, Hashes(line, 0));
      assert !IsSpace(line[|line| - 1]);
      assert Trimmed(line[q..]);
      StripTrimmed(line[q..]);
    }
  }

  lemma {:induction false} JoinIsTrimmed(lines: seq<string>)
    requires lines != [] && AllTrimmed(lines)
    ensures Trimmed(Join(lines))
  {
    if |lines| > 1 { JoinIsTrimmed(lines[1..]); }
  }

  lemma FlushedIsValid(p: Parser)
    requires Valid(p)
    ensures Valid(Flushed(p)) && Flushed(p).paragraph == [] && Flushed(p).section == p.section && Flushed(p).number == p.number
    ensures Flushed(p).blocks != [] <==> p.blocks != [] || p.paragraph != []
  {
    if p.paragraph != [] {
      JoinIsTrimmed(p.paragraph);
      StripTrimmed(Join(p.paragraph));
    }
  }

  lemma TurnedIsValid(p: Parser)
    requires Valid(p) && p.blocks != []
    ensures Valid(Turned(p))
  {
  }

  lemma AtHeadingIsValid(p: Parser, level: nat)
    requires Valid(p)
    ensures Valid(AtHeading(p, level)) && AtHeading(p, level).paragraph == []
    ensures Emitted(AtHeading(p, level)) == Emitted(p) + Pending(p)
    ensures AtHeading(p, level).number == p.number + (if level == 2 && (p.blocks != [] || p.paragraph != []) then 1 else 0)
    ensures AtHeading(p, level).blocks != [] <==> level != 2 && (p.blocks != [] || p.paragraph != [])
  {
    FlushedIsValid(p);
    FlushedEmits(p);
    if level == 2 && Flushed(p).blocks != [] {
      TurnedIsValid(Flushed(p));
      TurnedEmits(Flushed(p));
    }
  }

  /** The parser's state is what the lines above say; a run of body lines that has ended is still to be flushed. */
  ghost predicate Follows(p: Parser, lines: seq<Line>, n: nat)
    requires n <= |lines|
  {
    && Valid(p) && p.section == SectionAt(lines, n) && p.number == PageAt(lines, n) && p.paragraph == BodyRun(lines, n)
    && (p.blocks != [] || p.paragraph != [] <==> TextSinceBreak(lines, n))
    && SourceBlocks(lines, n) == Emitted(p) + (if n < |lines| && lines[n].Body? then [] else Pending(p))
  }

  lemma BodyFollows(p: Parser, text: string, lines: seq<Line>, n: nat)
    requires n < |lines| && Follows(p, lines, n) && lines[n] == Body(text) && Trimmed(text)
    ensures Follows(Next(p, Body(text)), lines, n + 1)
  {
    var next := Next(p, Body(text));
    assert Emitted(next) == Emitted(p);
    assert BlockAt(lines, n) == if EndsRun(lines, n) then Pending(next) else [];
  }

  lemma EmptyFollows(p: Parser, lines: seq<Line>, n: nat)
    requires n < |lines| && Follows(p, lines, n) && lines[n] == Empty
    ensures Follows(Next(p, Empty), lines, n + 1)
  {
    FlushedIsValid(p);
    FlushedEmits(p);
    assert Pending(Flushed(p)) == [] && BlockAt(lines, n) == [];
  }

  lemma TitleEmits(t: Parser, level: nat, title: string)
    ensures Emitted(Titled(t, level, title)) == Emitted(t) + TitleBlock(t.number, level, title)
  {
    if level == 1 { BlockEmitted(t, Titled(t, level, title), Block(Some(title), title)); }
  }

  lemma TitledIsValid(t: Parser, level: nat, title: string)
    requires Valid(t) && Trimmed(title)
    ensures Valid(Titled(t, level, title)) && Titled(t, level, title).section == Some(title) && Titled(t, level, title).number == t.number
    ensures Titled(t, level, title).blocks != [] <==> level == 1 || t.blocks != []
  {
  }

  lemma SourceOfHeading(lines: seq<Line>, n: nat, level: nat, title: string)
    requires n < |lines| && lines[n] == Heading(level, title)
    ensures SectionAt(lines, n + 1) == Some(title)
    ensures PageAt(lines, n + 1) == PageAt(lines, n) + (if level == 2 && TextSinceBreak(lines, n) then 1 else 0)
    ensures TextSinceBreak(lines, n + 1) <==> level == 1 || (level != 2 && TextSinceBreak(lines, n))
    ensures SourceBlocks(lines, n + 1) == SourceBlocks(lines, n) + TitleBlock(PageAt(lines, n), level, title)
  {
  }

  lemma HeadingFollows(p: Parser, level: nat, title: string, lines: seq<Line>, n: nat)
    requires n < |lines| && Follows(p, lines, n) && lines[n] == Heading(level, title) && Trimmed(title)
    ensures Follows(Next(p, Heading(level, title)), lines, n + 1)
  {
    AtHeadingIsValid(p, level);
    TitledIsValid(AtHeading(p, level), level, title);
    TitleEmits(AtHeading(p, level), level, title);
    SourceOfHeading(lines, n, level, title);
    assert Pending(Next(p, Heading(level, title))) == [];
  }

  lemma LineFollows(p: Parser, lines: seq<Line>, n: nat, next: Parser)
    requires 0 < n <= |lines| && Follows(p, lines, n - 1) && LineValid(lines[n - 1]) && next == Next(p, lines[n - 1])
    ensures Follows(next, lines, n)
  {
    match lines[n - 1]
    case Body(text) => BodyFollows(p, text, lines, n - 1);
    case Empty => EmptyFollows(p, lines, n - 1);
    case Heading(level, title) => HeadingFollows(p, level, title, lines, n - 1);
  }

  lemma AfterNext(lines: seq<Line>, n: nat)
    requires 0 < n <= |lines|
    ensures After(lines, n) == Next(After(lines, n - 1), lines[n - 1])
  {
  }

  lemma {:induction false} ParserFollows(lines: seq<Line>, n: nat)
    requires n <= |lines| && forall i :: 0 <= i < |lines| ==> LineValid(lines[i])
    ensures Follows(After(lines, n), lines, n)
  {
    if n > 0 {
      ParserFollows(lines, n - 1);
      AfterNext(lines, n);
      LineFollows(After(lines, n - 1), lines, n, After(lines, n));
    }
  }

  lemma FinishedEmits(p: Parser)
    requires Valid(p)
    ensures PagesValid(Finished(p)) && PlacedIn(Finished(p)) == Emitted(p) + Pending(p)
  {
    var f := Flushed(p);
    FlushedIsValid(p);
    FlushedEmits(p);
    if f.blocks != [] { PlacedInSnoc(f.pages, ParsedPage(f.number, f.blocks)); }
  }

  /**
    Pages are numbered from 1 and hold at least one non-blank block each. Their blocks, in order, are one for each
    level-1 title and one for each run of consecutive body lines, joined and stripped, each under the last heading
    above it and on the page that counts the level-2 headings with text before them.
   */
  lemma PagesAreTheSourceBlocks(text: string)
    ensures PagesValid(Pages(text))
    ensures PlacedIn(Pages(text)) == SourceBlocks(Lines(text), |Lines(text)|)
  {
    var lines := Lines(text);
    forall i | 0 <= i < |lines| ensures LineValid(lines[i]) {
      ClassifiedIsValid(SplitLines(text, 0)[i]);
    }
    ParserFollows(lines, |lines|);
    FinishedEmits(After(lines, |lines|));
  }

  /** A level-2 heading opens a new page exactly when the current page already has a block, pending text included. */
  lemma SecondLevelOpensAPage(p: Parser, title: string)
    ensures |Next(p, Heading(2, title)).pages| > |p.pages| <==> p.blocks != [] || p.paragraph != []
    ensures Next(p, Heading(2, title)).number == p.number + |Next(p, Heading(2, title)).pages| - |p.pages|
  {
  }

  // --------------------------------------------------------------- no word is lost

  /** A word with the page and the section it belongs to. */
  datatype PlacedWord = PlacedWord(page: nat, section: Option<string>, word: string)

  function PlaceWords(page: nat, section: Option<string>, words: seq<string>): (r: seq<PlacedWord>)
    ensures |r| == |words| && forall i :: 0 <= i < |r| ==> r[i] == PlacedWord(page, section, words[i])
  {
    seq(|words|, i requires 0 <= i < |words| => PlacedWord(page, section, words[i]))
  }

  function WordsIn(blocks: seq<PlacedBlock>): seq<PlacedWord> {
    if blocks == [] then []
    else
      var last := blocks[|blocks| - 1];
      WordsIn(blocks[..|blocks| - 1]) + PlaceWords(last.page, last.block.section, Words(last.block.text))
  }

  /** The words of the first `n` lines: those of body lines and of level-1 titles, with page and section as the source has them. */
  function SourceWords(lines: seq<Line>, n: nat): seq<PlacedWord>
    requires n <= |lines|
  {
    if n == 0 then []
    else
      SourceWords(lines, n - 1) +
      match lines[n - 1]
      case Body(text) => PlaceWords(PageAt(lines, n - 1), SectionAt(lines, n - 1), Words(text))
      case Heading(level, title) => if level == 1 then PlaceWords(PageAt(lines, n - 1), Some(title), Words(title)) else []
      case Empty => []
  }

  function LineWords(lines: seq<string>): seq<string> {
    if lines == [] then [] else LineWords(lines[..|lines| - 1]) + Words(lines[|lines| - 1])
  }

  lemma {:induction false} JoinSnoc(ws: seq<string>, w: string)
    ensures Join(ws + [w]) == if ws == [] then w else Join(ws) + (" " + w)
  {
    if ws == [] {
      assert ws + [w] == [w];
    } else {
      TailOfAppend(ws, [w]);
      JoinSnoc(ws[1..], w);
      if |ws| > 1 {
        Assoc(ws[0] + " ", Join(ws[1..]), " " + w);
      } else {
        assert ws[1..] == [];
        Assoc(ws[0], " ", w);
      }
    }
  }

  lemma SpaceThenWords(s: string)
    ensures Words(" " + s) == Words(s) && IsSpace((" " + s)[0])
  {
    assert (" " + s)[1..] == s;
  }

  lemma {:induction false} ParagraphKeepsWords(lines: seq<string>)
    ensures Words(Strip(Join(lines))) == LineWords(lines) && Words(Join(lines)) == LineWords(lines)
  {
    if lines != [] {
      var before, last := lines[..|lines| - 1], lines[|lines| - 1];
      assert lines == before + [last];
      ParagraphKeepsWords(before);
      JoinSnoc(before, last);
      if before != [] {
        SpaceThenWords(last);
        WordsAppend(Join(before), " " + last);
      }
    }
    StripKeepsWords(Join(lines));
  }

  lemma WordsInSnoc(blocks: seq<PlacedBlock>, b: PlacedBlock)
    ensures WordsIn(blocks + [b]) == WordsIn(blocks) + PlaceWords(b.page, b.block.section, Words(b.block.text))
  {
    assert (blocks + [b])[..|blocks|] == blocks;
  }

  lemma RunWords(page: nat, section: Option<string>, run: seq<string>, text: string)
    ensures PlaceWords(page, section, LineWords(run + [text])) ==
            PlaceWords(page, section, LineWords(run)) + PlaceWords(page, section, Words(text))
  {
    assert (run + [text])[..|run|] == run;
  }

  /** The body lines before line `n` that belong to a block not completed yet. */
  function OpenRun(lines: seq<Line>, n: nat): seq<string>
    requires n <= |lines|
  {
    if n < |lines| && lines[n].Body? then BodyRun(lines, n) else []
  }

  lemma RunGrows(blocks: seq<PlacedBlock>, page: nat, section: Option<string>, run: seq<string>, text: string)
    ensures WordsIn(blocks) + PlaceWords(page, section, LineWords(run)) + PlaceWords(page, section, Words(text)) ==
            WordsIn(blocks) + PlaceWords(page, section, LineWords(run + [text]))
  {
    RunWords(page, section, run, text);
    Assoc(WordsIn(blocks), PlaceWords(page, section, LineWords(run)), PlaceWords(page, section, Words(text)));
  }

  lemma RunCloses(blocks: seq<PlacedBlock>, page: nat, section: Option<string>, run: seq<string>)
    ensures WordsIn(blocks) + PlaceWords(page, section, LineWords(run)) == WordsIn(blocks + [ParagraphBlock(page, section, run)])
  {
    ParagraphKeepsWords(run);
    WordsInSnoc(blocks, ParagraphBlock(page, section, run));
  }

  lemma AtBody(lines: seq<Line>, n: nat, run: seq<string>)
    requires n < |lines| && lines[n].Body? && run == BodyRun(lines, n + 1)
    ensures run == BodyRun(lines, n) + [lines[n].text]
    ensures PageAt(lines, n + 1) == PageAt(lines, n) && SectionAt(lines, n + 1) == SectionAt(lines, n)
    ensures OpenRun(lines, n + 1) == if EndsRun(lines, n) then [] else run
    ensures SourceBlocks(lines, n + 1) == SourceBlocks(lines, n) +
              (if EndsRun(lines, n) then [ParagraphBlock(PageAt(lines, n), SectionAt(lines, n), run)] else [])
    ensures SourceWords(lines, n + 1) == SourceWords(lines, n) + PlaceWords(PageAt(lines, n), SectionAt(lines, n), Words(lines[n].text))
  {
  }

  lemma NoneOpen(page: nat, section: Option<string>, words: seq<PlacedWord>)
    ensures words + PlaceWords(page, section, LineWords([])) == words
  {
  }

  /** The words read so far are in the completed blocks or in the open run. */
  ghost predicate WordsKept(lines: seq<Line>, n: nat)
    requires n <= |lines|
  {
    SourceWords(lines, n) ==
      WordsIn(SourceBlocks(lines, n)) + PlaceWords(PageAt(lines, n), SectionAt(lines, n), LineWords(OpenRun(lines, n)))
  }

  lemma BodyKeepsWords(lines: seq<Line>, n: nat)
    requires n < |lines| && lines[n].Body? && WordsKept(lines, n)
    ensures WordsKept(lines, n + 1)
  {
    var page, section, run := PageAt(lines, n), SectionAt(lines, n), BodyRun(lines, n + 1);
    AtBody(lines, n, run);
    RunGrows(SourceBlocks(lines, n), page, section, BodyRun(lines, n), lines[n].text);
    if EndsRun(lines, n) {
      RunCloses(SourceBlocks(lines, n), page, section, run);
      NoneOpen(page, section, WordsIn(SourceBlocks(lines, n + 1)));
    } else {
      assert SourceBlocks(lines, n + 1) == SourceBlocks(lines, n);
    }
  }

  lemma OtherKeepsWords(lines: seq<Line>, n: nat)
    requires n < |lines| && !lines[n].Body? && WordsKept(lines, n)
    ensures WordsKept(lines, n + 1)
  {
    NoneOpen(PageAt(lines, n), SectionAt(lines, n), WordsIn(SourceBlocks(lines, n)));
    NoneOpen(PageAt(lines, n + 1), SectionAt(lines, n + 1), WordsIn(SourceBlocks(lines, n + 1)));
    assert OpenRun(lines, n) == [] && OpenRun(lines, n + 1) == [];
    if lines[n].Heading? && lines[n].level == 1 {
      WordsInSnoc(SourceBlocks(lines, n), BlockAt(lines, n)[0]);
    } else {
      assert SourceBlocks(lines, n + 1) == SourceBlocks(lines, n);
    }
  }

  lemma NoLineKeepsWords(lines: seq<Line>)
    ensures WordsKept(lines, 0)
  {
    NoneOpen(PageAt(lines, 0), SectionAt(lines, 0), []);
    assert OpenRun(lines, 0) == [];
  }

  lemma LineKeepsWords(lines: seq<Line>, n: nat, next: nat)
    requires n < |lines| && WordsKept(lines, n) && next == n + 1
    ensures WordsKept(lines, next)
  {
    if lines[n].Body? { BodyKeepsWords(lines, n); } else { OtherKeepsWords(lines, n); }
  }

  lemma {:induction false} BlocksKeepWords(lines: seq<Line>, n: nat)
    requires n <= |lines|
    ensures WordsKept(lines, n)
  {
    if n == 0 {
      NoLineKeepsWords(lines);
    } else {
      BlocksKeepWords(lines, n - 1);
      LineKeepsWords(lines, n - 1, n);
    }
  }

  /** Reading the blocks of all pages in order gives every word of the body lines and level-1 titles once and in order. */
  lemma PagesKeepTheSource(text: string)
    ensures WordsIn(PlacedIn(Pages(text))) == SourceWords(Lines(text), |Lines(text)|)
  {
    PagesAreTheSourceBlocks(text);
    BlocksKeepWords(Lines(text), |Lines(text)|);
  }
}
