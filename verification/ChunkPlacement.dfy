/** Where chunks are: the page and section of each, and what greedy packing and slicing put into one piece. */
module ChunkPlacement {
  import opened Common
  import opened Text
  import opened Chunking

  // ------------------------------------------------------------- pages and sections

  /** The text is piece `k` of block `b` of page `p`, and so are its page number and section. */
  predicate StemsFrom(x: Placed, pages: seq<ParsedPage>, maxChars: nat, p: nat, b: nat, k: nat)
    requires maxChars > 0
  {
    && p < |pages| && b < |pages[p].blocks| && k < |PiecesOf(pages[p].blocks[b].text, maxChars)|
    && x == Placed(pages[p].page, pages[p].blocks[b].section, PiecesOf(pages[p].blocks[b].text, maxChars)[k])
  }

  lemma StemsFromLater(x: Placed, pages: seq<ParsedPage>, maxChars: nat, p: nat, b: nat, k: nat)
    requires maxChars > 0 && pages != [] && StemsFrom(x, pages[1..], maxChars, p, b, k)
    ensures StemsFrom(x, pages, maxChars, p + 1, b, k)
  {
  }

  lemma PagesPiecesSplit(pages: seq<ParsedPage>, maxChars: nat, first: seq<Placed>, rest: seq<Placed>)
    requires maxChars > 0 && pages != []
    requires first == BlocksPieces(pages[0].page, pages[0].blocks, maxChars) && rest == PagesPieces(pages[1..], maxChars)
    ensures PagesPieces(pages, maxChars) == first + rest
  {
  }

  lemma IndexOfAppend<T>(a: seq<T>, b: seq<T>, i: nat)
    requires i < |a + b|
    ensures (a + b)[i] == if i < |a| then a[i] else b[i - |a|]
  {
  }

  lemma {:induction false} PieceStems(page: ParsedPage, blocks: seq<Block>, maxChars: nat, i: nat) returns (b: nat, k: nat)
    requires maxChars > 0 && i < |BlocksPieces(page.page, blocks, maxChars)|
    ensures b < |blocks| && k < |PiecesOf(blocks[b].text, maxChars)|
    ensures BlocksPieces(page.page, blocks, maxChars)[i] ==
            Placed(page.page, blocks[b].section, PiecesOf(blocks[b].text, maxChars)[k])
  {
    var n := |PiecesOf(blocks[0].text, maxChars)|;
    if i < n {
      b, k := 0, i;
    } else {
      b, k := PieceStems(page, blocks[1..], maxChars, i - n);
      b := b + 1;
    }
  }

  lemma {:induction false} PlacedStems(pages: seq<ParsedPage>, maxChars: nat, i: nat) returns (p: nat, b: nat, k: nat)
    requires maxChars > 0 && i < |PagesPieces(pages, maxChars)|
    ensures StemsFrom(PagesPieces(pages, maxChars)[i], pages, maxChars, p, b, k)
  {
    var first, rest := BlocksPieces(pages[0].page, pages[0].blocks, maxChars), PagesPieces(pages[1..], maxChars);
    PagesPiecesSplit(pages, maxChars, first, rest);
    IndexOfAppend(first, rest, i);
    if i < |first| {
      b, k := PieceStems(pages[0], pages[0].blocks, maxChars, i);
      p := 0;
    } else {
      p, b, k := PlacedStems(pages[1..], maxChars, i - |first|);
      StemsFromLater(rest[i - |first|], pages, maxChars, p, b, k);
      p := p + 1;
    }
  }

  /** Every chunk is a piece of some block: it has the number of the block's page and the block's section. */
  lemma EveryChunkStems(pages: seq<ParsedPage>, maxChars: nat, maxChunks: nat, i: nat) returns (p: nat, b: nat, k: nat)
    requires maxChars > 0 && ChunksOf(pages, maxChars, maxChunks).Ok? && i < |ChunksOf(pages, maxChars, maxChunks).value|
    ensures var c := ChunksOf(pages, maxChars, maxChunks).value[i];
            StemsFrom(Placed(c.page, c.section, c.text), pages, maxChars, p, b, k)
  {
    p, b, k := PlacedStems(pages, maxChars, i);
  }

  /** The texts of the chunks with a page number and a section, in order. */
  function ChunksAt(chunks: seq<DocumentChunk>, page: nat, section: Option<string>): seq<string> {
    if chunks == [] then []
    else (if chunks[0].page == page && chunks[0].section == section then [chunks[0].text] else []) + ChunksAt(chunks[1..], page, section)
  }

  /** The texts of the blocks of a section, and of those on all pages with a page number, in order. */
  function InSection(blocks: seq<Block>, section: Option<string>): seq<string> {
    if blocks == [] then []
    else (if blocks[0].section == section then [blocks[0].text] else []) + InSection(blocks[1..], section)
  }

  function BlocksAt(pages: seq<ParsedPage>, page: nat, section: Option<string>): seq<string> {
    if pages == [] then []
    else (if pages[0].page == page then InSection(pages[0].blocks, section) else []) + BlocksAt(pages[1..], page, section)
  }

  function PiecesAt(placed: seq<Placed>, page: nat, section: Option<string>): seq<string> {
    if placed == [] then []
    else (if placed[0].page == page && placed[0].section == section then [placed[0].text] else []) + PiecesAt(placed[1..], page, section)
  }

  lemma {:induction false} PiecesAtAppend(a: seq<Placed>, b: seq<Placed>, page: nat, section: Option<string>)
    ensures PiecesAt(a + b, page, section) == PiecesAt(a, page, section) + PiecesAt(b, page, section)
  {
    if a == [] {
      assert a + b == b;
    } else {
      TailOfAppend(a, b);
      PiecesAtAppend(a[1..], b, page, section);
      Assoc(if a[0].page == page && a[0].section == section then [a[0].text] else [],
            PiecesAt(a[1..], page, section), PiecesAt(b, page, section));
    }
  }

  lemma {:induction false} ChunksAtNumbered(chunks: seq<DocumentChunk>, placed: seq<Placed>, page: nat, section: Option<string>)
    requires |chunks| == |placed|
    requires forall i :: 0 <= i < |chunks| ==> chunks[i].page == placed[i].page && chunks[i].section == placed[i].section && chunks[i].text == placed[i].text
    ensures ChunksAt(chunks, page, section) == PiecesAt(placed, page, section)
  {
    if chunks != [] { ChunksAtNumbered(chunks[1..], placed[1..], page, section); }
  }

  lemma {:induction false} PiecesOfOneBlock(from: nat, in_: Option<string>, pieces: seq<string>, page: nat, section: Option<string>)
    ensures PiecesAt(PlacedIn(from, in_, pieces), page, section) == if from == page && in_ == section then pieces else []
  {
    if pieces != [] {
      PiecesOfOneBlock(from, in_, pieces[1..], page, section);
      assert PlacedIn(from, in_, pieces)[1..] == PlacedIn(from, in_, pieces[1..]);
      assert pieces == [pieces[0]] + pieces[1..];
    }
  }

  /** The words of pieces are those of texts, with only the words that cannot fit cut. */
  predicate SameWords(pieces: seq<string>, texts: seq<string>, maxChars: nat)
    requires maxChars > 0
  {
    WordsOfAll(pieces) == CutWords(WordsOfAll(texts), maxChars)
  }

  lemma SameWordsAppend(a: seq<string>, b: seq<string>, s: seq<string>, t: seq<string>, maxChars: nat)
    requires maxChars > 0 && SameWords(a, s, maxChars) && SameWords(b, t, maxChars)
    ensures SameWords(a + b, s + t, maxChars)
  {
    WordsOfAllAppend(a, b);
    WordsOfAllAppend(s, t);
    CutWordsAppend(WordsOfAll(s), WordsOfAll(t), maxChars);
  }

  lemma BlockKeepsWords(text: string, maxChars: nat)
    requires maxChars > 0
    ensures SameWords(PiecesOf(text, maxChars), [text], maxChars)
  {
    PiecesKeepWords(text, maxChars);
    assert WordsOfAll([text]) == Words(text);
  }

  lemma {:induction false} PageKeepsWords(from: nat, blocks: seq<Block>, maxChars: nat, page: nat, section: Option<string>)
    requires maxChars > 0
    ensures SameWords(PiecesAt(BlocksPieces(from, blocks, maxChars), page, section),
                      if from == page then InSection(blocks, section) else [], maxChars)
  {
    if blocks != [] {
      var pieces := PiecesOf(blocks[0].text, maxChars);
      var here := from == page && blocks[0].section == section;
      PageKeepsWords(from, blocks[1..], maxChars, page, section);
      PiecesOfOneBlock(from, blocks[0].section, pieces, page, section);
      PiecesAtAppend(PlacedIn(from, blocks[0].section, pieces), BlocksPieces(from, blocks[1..], maxChars), page, section);
      BlockKeepsWords(blocks[0].text, maxChars);
      SameWordsAppend(if here then pieces else [], PiecesAt(BlocksPieces(from, blocks[1..], maxChars), page, section),
                      if here then [blocks[0].text] else [], if from == page then InSection(blocks[1..], section) else [], maxChars);
    }
  }

  lemma {:induction false} PagesKeepWords(pages: seq<ParsedPage>, maxChars: nat, page: nat, section: Option<string>)
    requires maxChars > 0
    ensures SameWords(PiecesAt(PagesPieces(pages, maxChars), page, section), BlocksAt(pages, page, section), maxChars)
  {
    if pages != [] {
      PagesKeepWords(pages[1..], maxChars, page, section);
      PageKeepsWords(pages[0].page, pages[0].blocks, maxChars, page, section);
      PiecesAtAppend(BlocksPieces(pages[0].page, pages[0].blocks, maxChars), PagesPieces(pages[1..], maxChars), page, section);
      SameWordsAppend(PiecesAt(BlocksPieces(pages[0].page, pages[0].blocks, maxChars), page, section),
                      PiecesAt(PagesPieces(pages[1..], maxChars), page, section),
                      if pages[0].page == page then InSection(pages[0].blocks, section) else [],
                      BlocksAt(pages[1..], page, section), maxChars);
    }
  }

  /** For every page number and section, the chunks there hold the words of the blocks there, in order. */
  lemma EverySectionKeepsWords(pages: seq<ParsedPage>, maxChars: nat, maxChunks: nat, page: nat, section: Option<string>)
    requires maxChars > 0 && ChunksOf(pages, maxChars, maxChunks).Ok?
    ensures WordsOfAll(ChunksAt(ChunksOf(pages, maxChars, maxChunks).value, page, section)) ==
            CutWords(WordsOfAll(BlocksAt(pages, page, section)), maxChars)
  {
    var placed := PagesPieces(pages, maxChars);
    PagesKeepWords(pages, maxChars, page, section);
    ChunksAtNumbered(Numbered(placed), placed, page, section);
  }

  // -------------------------------------------------------------- what is in a piece

  /** An overlong word is cut into full slices and at most one shorter one behind them. */
  lemma {:induction false} SlicesAreFull(word: string, maxChars: nat)
    requires maxChars > 0
    ensures forall i :: 0 <= i < |Slices(word, maxChars)| ==>
              |Slices(word, maxChars)[i]| == if i < |Slices(word, maxChars)| - 1 then maxChars else |word| - maxChars * i
    ensures maxChars * (|Slices(word, maxChars)| - 1) < |word| <= maxChars * |Slices(word, maxChars)| || word == ""
    decreases |word|
  {
    if |word| > maxChars { SlicesAreFull(word[maxChars..], maxChars); }
  }

  /** The first word of the next group would not fit into this one. */
  predicate NoRoom(group: seq<string>, next: seq<string>, maxChars: nat) {
    next != [] && JoinedLength(group + [next[0]]) > maxChars
  }

  lemma FirstGroupIsFull(ws: seq<string>, n: nat, maxChars: nat)
    requires maxChars > 0 && 0 < n < |ws| && n == Fitting(ws, 1, maxChars)
    ensures PackGroups(ws[n..], maxChars) != [] && NoRoom(ws[..n], PackGroups(ws[n..], maxChars)[0], maxChars)
  {
    assert PackGroups(ws[n..], maxChars)[0][0] == ws[n];
    assert ws[..n] + [ws[n]] == ws[..n + 1];
  }

  /** Greedy groups are full: none of them has room for the first word of the next. */
  lemma {:induction false} GroupsAreFull(ws: seq<string>, maxChars: nat)
    requires maxChars > 0 && AllFit(ws, maxChars)
    ensures forall i, j :: 0 <= i && i + 1 == j < |PackGroups(ws, maxChars)| ==>
              NoRoom(PackGroups(ws, maxChars)[i], PackGroups(ws, maxChars)[j], maxChars)
    decreases |ws|
  {
    if ws != [] {
      var n := Fitting(ws, 1, maxChars);
      GroupsAreFull(ws[n..], maxChars);
      if n < |ws| { FirstGroupIsFull(ws, n, maxChars); }
    }
  }

  lemma FittingStopsBefore(a: seq<string>, w: string, b: seq<string>, maxChars: nat)
    requires a != [] && |a[0]| <= maxChars < |w|
    ensures Fitting(a + ([w] + b), 1, maxChars) == Fitting(a, 1, maxChars)
  {
    var ws, n := a + ([w] + b), Fitting(a, 1, maxChars);
    assert a[..1] == [a[0]] && ws[..n] == a[..n];
    if n < |a| {
      assert ws[..n + 1] == a[..n + 1];
    } else {
      assert ws[..n + 1] == a + [w];
      JoinedLengthAppend(a, [w]);
    }
    FittingIs(ws, 1, n, maxChars);
  }

  /** An overlong word stands alone: its slices come between what the words before and behind it give by themselves. */
  lemma {:induction false} OverlongWordsStandAlone(a: seq<string>, w: string, b: seq<string>, maxChars: nat)
    requires maxChars > 0 && |w| > maxChars
    ensures Pack(a + ([w] + b), maxChars) == Pack(a, maxChars) + (Slices(w, maxChars) + Pack(b, maxChars))
    decreases |a|
  {
    var ws := a + ([w] + b);
    if a == [] {
      assert ws == [w] + b;
      PackOfOverlong(ws, maxChars);
    } else if |a[0]| > maxChars {
      TailOfAppend(a, [w] + b);
      OverlongWordsStandAlone(a[1..], w, b, maxChars);
      Assoc(Slices(a[0], maxChars), Pack(a[1..], maxChars), Slices(w, maxChars) + Pack(b, maxChars));
    } else {
      var n := Fitting(a, 1, maxChars);
      FittingStopsBefore(a, w, b, maxChars);
      PackOfFitting(ws, maxChars, n);
      PackOfFitting(a, maxChars, n);
      assert ws[..n] == a[..n] && ws[n..] == a[n..] + ([w] + b);
      OverlongWordsStandAlone(a[n..], w, b, maxChars);
      Assoc([Join(a[..n])], Pack(a[n..], maxChars), Slices(w, maxChars) + Pack(b, maxChars));
    }
  }

  lemma {:induction false} ShortSentenceIsAPiece(sentences: seq<string>, maxChars: nat, i: nat) returns (k: nat)
    requires maxChars > 0 && i < |sentences| && |sentences[i]| <= maxChars
    ensures k < |SentencesPieces(sentences, maxChars)| && SentencesPieces(sentences, maxChars)[k] == sentences[i]
  {
    if i == 0 {
      k := 0;
    } else {
      k := ShortSentenceIsAPiece(sentences[1..], maxChars, i - 1);
      k := k + |SentencePieces(sentences[0], maxChars)|;
    }
  }

  /** A sentence that fits is one piece as it stands, with the whitespace inside it. */
  lemma ShortSentencesStayWhole(text: string, maxChars: nat, i: nat) returns (k: nat)
    requires maxChars > 0 && i < |SentencesOf(text)| && |SentencesOf(text)[i]| <= maxChars
    ensures k < |PiecesOf(text, maxChars)| && PiecesOf(text, maxChars)[k] == SentencesOf(text)[i]
  {
    k := ShortSentenceIsAPiece(SentencesOf(text), maxChars, i);
  }
}
