/** Grounded answers: the segments of a passage, folded text and the validation of an answer against its passages. */
module Grounding {
  import opened Common
  import opened Text
  import Sanitizer

  datatype Chunk = Chunk(id: string, documentId: string, documentName: string, page: int, section: Option<string>, text: string)

  /** A chunk with its retrieval score. */
  datatype Passage = Passage(chunk: Chunk, score: real)

  datatype Citation = Citation(chunkId: string, documentId: string, documentName: string, page: int, section: Option<string>, excerpt: string)

  datatype Status = Answered | PartiallySupported | Ambiguous | Abstained

  datatype Assessment = Assessment(
    answerable: bool, answer: Option<string>, confidence: real,
    document: Option<string>, page: Option<int>, excerpt: Option<string>, reason: Option<string>,
    fields: map<string, string>, chunkId: string)

  datatype Answer = Answer(
    status: Status, answerable: bool, answer: string, confidence: real,
    document: Option<string>, page: Option<int>, excerpt: Option<string>, reason: Option<string>,
    fields: map<string, seq<string>>, chunkIds: seq<string>, citations: seq<Citation>, assessments: seq<Assessment>)

  // -------------------------------------------------------------------- segments

  /** What a sentence may start with: a capital, possibly accented, or a digit. */
  predicate IsSentenceStart(c: char) {
    'A' <= c <= 'Z' || 0xC0 <= c as int <= 0xD6 || 0xD8 <= c as int <= 0xDE || '0' <= c <= '9'
  }

  predicate IsCut(line: string, p: nat) {
    && 0 < p < |line| && line[p - 1] in {'.', '!', '?'} && IsSpace(line[p])
    && SkipSpaces(line, p) < |line| && IsSentenceStart(line[SkipSpaces(line, p)])
  }

  function NextCut(line: string, from: nat): (p: nat)
    requires from <= |line|
    ensures from <= p <= |line| && (p < |line| ==> IsCut(line, p))
    ensures forall i :: from <= i < p ==> !IsCut(line, i)
    decreases |line| - from
  {
    if from == |line| || IsCut(line, from) then from else NextCut(line, from + 1)
  }

  function Kept(part: string): seq<string> {
    if Strip(part) == "" then [] else [Strip(part)]
  }

  function LineParts(line: string, start: nat): seq<string>
    requires start <= |line|
    decreases |line| - start
  {
    var p := NextCut(line, start);
    if p == |line| then Kept(line[start..]) else Kept(line[start..p]) + LineParts(line, SkipSpaces(line, p))
  }

  /** The first index from `i` on without a bullet. */
  function SkipBullets(s: string, i: nat): (q: nat)
    requires i <= |s|
    ensures i <= q <= |s| && forall k :: i <= k < q ==> s[k] as int == 0x2022
    decreases |s| - i
  {
    if i < |s| && s[i] as int == 0x2022 then SkipBullets(s, i + 1) else i
  }

  /** A line without surrounding whitespace and leading bullets. */
  function Unbulleted(line: string): string {
    var s := Strip(line);
    Strip(s[SkipBullets(s, 0)..])
  }

  function Segments(text: string): seq<string> {
    var lines := SplitLines(text, 0);
    Flatten(seq(|lines|, i requires 0 <= i < |lines| => LineParts(Unbulleted(lines[i]), 0)))
  }

  /** Every part is non-empty and stands in the text. */
  predicate PartsOf(text: string, parts: seq<string>) {
    forall i :: 0 <= i < |parts| ==> parts[i] != "" && Contains(text, parts[i])
  }

  lemma KeptIsPart(line: string, i: nat, j: nat)
    requires i <= j <= |line|
    ensures PartsOf(line, Kept(line[i..j]))
  {
    ContainsSlice(line, i, j);
    StripIsContained(line[i..j]);
    ContainsIsTransitive(line, line[i..j], Strip(line[i..j]));
  }

  lemma {:induction false} LinePartsAreParts(line: string, start: nat)
    requires start <= |line|
    ensures PartsOf(line, LineParts(line, start))
    decreases |line| - start
  {
    var p := NextCut(line, start);
    KeptIsPart(line, start, p);
    if p < |line| {
      LinePartsAreParts(line, SkipSpaces(line, p));
    } else {
      assert line[start..] == line[start..p];
    }
  }

  lemma TailIsPart(line: string, s: string, k: nat)
    requires Contains(line, s) && k <= |s|
    ensures Contains(line, Strip(s[k..]))
  {
    ContainsSlice(s, k, |s|);
    assert s[k..] == s[k..|s|];
    ContainsIsTransitive(line, s, s[k..]);
    StripIsContained(s[k..]);
    ContainsIsTransitive(line, s[k..], Strip(s[k..]));
  }

  lemma PartsOfPart(text: string, line: string, parts: seq<string>)
    requires Contains(text, line) && PartsOf(line, parts)
    ensures PartsOf(text, parts)
  {
    forall i | 0 <= i < |parts| ensures Contains(text, parts[i]) {
      ContainsIsTransitive(text, line, parts[i]);
    }
  }

  lemma {:induction false} FlattenedParts(text: string, groups: seq<seq<string>>)
    requires forall k :: 0 <= k < |groups| ==> PartsOf(text, groups[k])
    ensures PartsOf(text, Flatten(groups))
  {
    if groups != [] { FlattenedParts(text, groups[1..]); }
  }

  lemma LineOfTextGivesParts(text: string, line: string)
    requires Contains(text, line)
    ensures PartsOf(text, LineParts(Unbulleted(line), 0))
  {
    StripIsContained(line);
    TailIsPart(line, Strip(line), SkipBullets(Strip(line), 0));
    assert Contains(line, Unbulleted(line));
    ContainsIsTransitive(text, line, Unbulleted(line));
    LinePartsAreParts(Unbulleted(line), 0);
    PartsOfPart(text, Unbulleted(line), LineParts(Unbulleted(line), 0));
  }

  /** Every segment is a non-empty substring of its passage. */
  lemma SegmentsAreParts(text: string)
    ensures PartsOf(text, Segments(text))
  {
    var lines := SplitLines(text, 0);
    var groups := seq(|lines|, i requires 0 <= i < |lines| => LineParts(Unbulleted(lines[i]), 0));
    LinesAreContained(text, 0);
    forall k | 0 <= k < |groups| ensures PartsOf(text, groups[k]) {
      LineOfTextGivesParts(text, lines[k]);
    }
    FlattenedParts(text, groups);
  }

  // --------------------------------------------------------------------- folding

  /** What folding makes of a single character. */
  type CharFold = char -> string

  function Fold(s: string, f: CharFold): string {
    if s == "" then "" else f(s[0]) + Fold(s[1..], f)
  }

  lemma {:induction false} FoldAppend(a: string, b: string, f: CharFold)
    ensures Fold(a + b, f) == Fold(a, f) + Fold(b, f)
  {
    if a == "" {
      assert a + b == b;
    } else {
      TailOfAppend(a, b);
      FoldAppend(a[1..], b, f);
      Assoc(f(a[0]), Fold(a[1..], f), Fold(b, f));
    }
  }

  /** Folding keeps substrings. */
  lemma FoldKeepsParts(text: string, part: string, f: CharFold)
    requires Contains(text, part)
    ensures Contains(Fold(text, f), Fold(part, f))
  {
    var i :| 0 <= i <= |text| - |part| && At(text, part, i);
    var a, b := text[..i], text[i + |part|..];
    assert text == a + (part + b);
    FoldAppend(a, part + b, f);
    FoldAppend(part, b, f);
    MiddleIsContained(Fold(a, f), Fold(part, f), Fold(b, f));
  }

  lemma MiddleIsContained(a: string, b: string, c: string)
    ensures Contains(a + (b + c), b)
  {
    assert (a + (b + c))[|a|..|a| + |b|] == b;
    assert At(a + (b + c), b, |a|);
  }

  // ------------------------------------------------------------------ validation

  datatype Flaw =
    | BadConfidence | AnsweredNotAnswerable | AnsweredWithReason | NotAnsweredButAnswerable | ReasonMissing | UnknownChunk
    | UntrustedInstruction
    | LocationWithoutExcerpt | GroundingMissing | AbstainedWithEvidence | LocationMissing | UnknownDocument | UnknownPage
    | ExcerptNotOnPage | AnswerNotSupported | BadField | FieldNotSupported | ChunkNotCited | CitationNotGrounded

  /** The chunks by id; a later chunk replaces an earlier one with the same id. */
  function ById(ranked: seq<Passage>): map<string, Chunk> {
    if ranked == [] then map[]
    else ById(ranked[..|ranked| - 1])[ranked[|ranked| - 1].chunk.id := ranked[|ranked| - 1].chunk]
  }

  function StatusFlaw(a: Answer): Option<Flaw> {
    if !(0.0 <= a.confidence <= 1.0) then Some(BadConfidence)
    else if a.status == Answered then
      if !a.answerable then Some(AnsweredNotAnswerable)
      else if a.reason.Some? then Some(AnsweredWithReason)
      else None
    else if a.answerable then Some(NotAnsweredButAnswerable)
    else if a.status != Abstained && (a.reason.None? || a.reason.value == "") then Some(ReasonMissing)
    else None
  }

  function Texts(o: Option<string>): set<string> {
    if o.Some? then {o.value} else {}
  }

  /** Every text of an answer that a reader may see. */
  function Channels(a: Answer): set<string> {
    {a.answer} + Texts(a.excerpt)
    + (set c | c in a.citations :: c.excerpt)
    + (set k, v | k in a.fields && v in a.fields[k] :: v)
    + (set s, t | s in a.assessments && t in Texts(s.answer) + Texts(s.excerpt) :: t)
    + (set s, k | s in a.assessments && k in s.fields :: s.fields[k])
  }

  predicate Crosses(a: Answer, d: Sanitizer.Detector) {
    exists t :: t in Channels(a) && Sanitizer.Untrusted(t, d)
  }

  function AbstentionFlaw(a: Answer): Option<Flaw> {
    if a.document.Some? || a.page.Some? then Some(LocationWithoutExcerpt)
    else if a.status != Abstained then Some(GroundingMissing)
    else if a.reason.Some? || a.fields != map[] || a.chunkIds != [] || a.citations != [] then Some(AbstainedWithEvidence)
    else None
  }

  predicate OnPage(c: Chunk, a: Answer) {
    Some(c.documentId) == a.document && Some(c.page) == a.page
  }

  /** The blocked segments of a passage. */
  predicate InBlockedSegment(text: string, excerpt: string, d: Sanitizer.Detector) {
    var segments := Segments(text);
    exists i :: 0 <= i < |segments|
      && Sanitizer.Blocked(segments[i], d, Sanitizer.GroupRejected(segments, d)) && Contains(segments[i], excerpt)
  }

  predicate AnswerSupported(answer: string, excerpt: string, f: CharFold) {
    Contains(Fold(excerpt, f), Fold(answer, f)) || answer == "Yes. " + excerpt || answer == "No. " + excerpt
  }

  predicate FieldSupported(values: seq<string>, excerpt: string, f: CharFold) {
    forall i :: 0 <= i < |values| ==> values[i] != "" && Contains(Fold(excerpt, f), Fold(values[i], f))
  }

  predicate CitationGrounded(c: Citation, chunks: map<string, Chunk>) {
    && c.chunkId in chunks
    && var chunk := chunks[c.chunkId];
       c.documentId == chunk.documentId && c.page == chunk.page && c.documentName == chunk.documentName && Contains(chunk.text, c.excerpt)
  }

  predicate ExcerptOnPage(a: Answer, chunks: map<string, Chunk>)
    requires a.excerpt.Some?
  {
    exists id :: id in chunks && OnPage(chunks[id], a) && Contains(chunks[id].text, a.excerpt.value)
  }

  predicate ExcerptBlocked(a: Answer, chunks: map<string, Chunk>, d: Sanitizer.Detector)
    requires a.excerpt.Some?
  {
    exists id :: id in chunks && OnPage(chunks[id], a) && InBlockedSegment(chunks[id].text, a.excerpt.value, d)
  }

  predicate ChunkCited(a: Answer, chunks: map<string, Chunk>)
    requires a.excerpt.Some?
  {
    exists id :: id in chunks && OnPage(chunks[id], a) && chunks[id].id in a.chunkIds && Contains(chunks[id].text, a.excerpt.value)
  }

  function EvidenceFlaw(a: Answer, chunks: map<string, Chunk>, d: Sanitizer.Detector, f: CharFold): Option<Flaw>
    requires a.excerpt.Some?
  {
    var excerpt := a.excerpt.value;
    if a.status == Abstained then Some(AbstainedWithEvidence)
    else if a.document.None? || a.page.None? then Some(LocationMissing)
    else if !exists id :: id in chunks && OnPage(chunks[id], a) then
      Some(if exists id :: id in chunks && Some(chunks[id].documentId) == a.document then UnknownPage else UnknownDocument)
    else if !ExcerptOnPage(a, chunks) then Some(ExcerptNotOnPage)
    else if ExcerptBlocked(a, chunks, d) then Some(UntrustedInstruction)
    else if a.status == Answered && !AnswerSupported(a.answer, excerpt, f) then Some(AnswerNotSupported)
    else if exists k :: k in a.fields && (k == "" || a.fields[k] == []) then Some(BadField)
    else if exists k :: k in a.fields && !FieldSupported(a.fields[k], excerpt, f) then Some(FieldNotSupported)
    else if !ChunkCited(a, chunks) then Some(ChunkNotCited)
    else if exists c :: c in a.citations && !CitationGrounded(c, chunks) then Some(CitationNotGrounded)
    else None
  }

  /** The first check of the validator that an answer fails, if any. */
  function GroundingFlaw(a: Answer, ranked: seq<Passage>, d: Sanitizer.Detector, f: CharFold): Option<Flaw> {
    var chunks := ById(ranked);
    if StatusFlaw(a).Some? then StatusFlaw(a)
    else if exists id :: id in a.chunkIds && id !in chunks then Some(UnknownChunk)
    else if Crosses(a, d) then Some(UntrustedInstruction)
    else if a.excerpt.None? then AbstentionFlaw(a)
    else EvidenceFlaw(a, chunks, d, f)
  }

  // ------------------------------------------------- answers that only trust can fail

  /** Chunks with the same id are the same chunk, as primary keys guarantee. */
  predicate OneChunkPerId(ranked: seq<Passage>) {
    forall i, j :: 0 <= i < |ranked| && 0 <= j < |ranked| && ranked[i].chunk.id == ranked[j].chunk.id ==> ranked[i].chunk == ranked[j].chunk
  }

  lemma {:induction false} FindsById(ranked: seq<Passage>, i: nat)
    requires OneChunkPerId(ranked) && i < |ranked|
    ensures ranked[i].chunk.id in ById(ranked) && ById(ranked)[ranked[i].chunk.id] == ranked[i].chunk
  {
    if i < |ranked| - 1 { FindsById(ranked[..|ranked| - 1], i); }
  }

  predicate Among(p: Passage, ranked: seq<Passage>) {
    exists i :: 0 <= i < |ranked| && ranked[i] == p
  }

  /** A citation of a passage by one of its substrings. */
  predicate Cites(c: Citation, p: Passage) {
    && c.chunkId == p.chunk.id && c.documentId == p.chunk.documentId && c.documentName == p.chunk.documentName
    && c.page == p.chunk.page && Contains(p.chunk.text, c.excerpt)
  }

  /** An answer built from a passage: located there, its excerpt taken from there, every citation of some passage. */
  ghost predicate BuiltFrom(a: Answer, p: Passage, ranked: seq<Passage>, f: CharFold) {
    && Among(p, ranked) && a.excerpt.Some? && Contains(p.chunk.text, a.excerpt.value)
    && a.document == Some(p.chunk.documentId) && a.page == Some(p.chunk.page) && p.chunk.id in a.chunkIds
    && a.status != Abstained && StatusFlaw(a).None?
    && (a.status == Answered ==> AnswerSupported(a.answer, a.excerpt.value, f))
    && (forall k :: k in a.fields ==> k != "" && a.fields[k] != [] && FieldSupported(a.fields[k], a.excerpt.value, f))
    && (forall id :: id in a.chunkIds ==> exists q :: Among(q, ranked) && q.chunk.id == id)
    && (forall c :: c in a.citations ==> exists q :: Among(q, ranked) && Cites(c, q))
  }

  lemma CitedIsGrounded(c: Citation, q: Passage, ranked: seq<Passage>)
    requires OneChunkPerId(ranked) && Among(q, ranked) && Cites(c, q)
    ensures CitationGrounded(c, ById(ranked))
  {
    var i :| 0 <= i < |ranked| && ranked[i] == q;
    FindsById(ranked, i);
  }

  lemma KnownById(q: Passage, ranked: seq<Passage>)
    requires OneChunkPerId(ranked) && Among(q, ranked)
    ensures q.chunk.id in ById(ranked) && ById(ranked)[q.chunk.id] == q.chunk
  {
    var i :| 0 <= i < |ranked| && ranked[i] == q;
    FindsById(ranked, i);
  }

  lemma BuiltIsLocated(a: Answer, p: Passage, ranked: seq<Passage>, f: CharFold)
    requires OneChunkPerId(ranked) && BuiltFrom(a, p, ranked, f)
    ensures exists id :: id in ById(ranked) && OnPage(ById(ranked)[id], a)
    ensures ExcerptOnPage(a, ById(ranked)) && ChunkCited(a, ById(ranked))
  {
    var chunks := ById(ranked);
    KnownById(p, ranked);
    assert p.chunk.id in chunks && OnPage(chunks[p.chunk.id], a);
  }

  lemma BuiltCitesPassages(a: Answer, p: Passage, ranked: seq<Passage>, f: CharFold)
    requires OneChunkPerId(ranked) && BuiltFrom(a, p, ranked, f)
    ensures forall c :: c in a.citations ==> CitationGrounded(c, ById(ranked))
  {
    forall c | c in a.citations ensures CitationGrounded(c, ById(ranked)) {
      var q :| Among(q, ranked) && Cites(c, q);
      CitedIsGrounded(c, q, ranked);
    }
  }

  lemma SoundEvidencePasses(a: Answer, chunks: map<string, Chunk>, d: Sanitizer.Detector, f: CharFold)
    requires a.excerpt.Some? && a.status != Abstained && a.document.Some? && a.page.Some?
    requires exists id :: id in chunks && OnPage(chunks[id], a)
    requires ExcerptOnPage(a, chunks) && ChunkCited(a, chunks)
    requires a.status == Answered ==> AnswerSupported(a.answer, a.excerpt.value, f)
    requires forall k :: k in a.fields ==> k != "" && a.fields[k] != [] && FieldSupported(a.fields[k], a.excerpt.value, f)
    requires forall c :: c in a.citations ==> CitationGrounded(c, chunks)
    ensures EvidenceFlaw(a, chunks, d, f) in {None, Some(UntrustedInstruction)}
  {
  }

  lemma BuiltPassesEvidence(a: Answer, p: Passage, ranked: seq<Passage>, d: Sanitizer.Detector, f: CharFold)
    requires OneChunkPerId(ranked) && BuiltFrom(a, p, ranked, f)
    ensures EvidenceFlaw(a, ById(ranked), d, f) in {None, Some(UntrustedInstruction)}
  {
    BuiltIsLocated(a, p, ranked, f);
    BuiltCitesPassages(a, p, ranked, f);
    SoundEvidencePasses(a, ById(ranked), d, f);
  }

  /** An answer built from passages can fail the validator only on trust. */
  lemma BuiltFailsOnlyOnTrust(a: Answer, p: Passage, ranked: seq<Passage>, d: Sanitizer.Detector, f: CharFold)
    requires OneChunkPerId(ranked) && BuiltFrom(a, p, ranked, f)
    ensures GroundingFlaw(a, ranked, d, f) in {None, Some(UntrustedInstruction)}
  {
    forall id | id in a.chunkIds ensures id in ById(ranked) {
      var q :| Among(q, ranked) && q.chunk.id == id;
      KnownById(q, ranked);
    }
    BuiltPassesEvidence(a, p, ranked, d, f);
  }

  // ----------------------------------------------------------- trust and the other checks

  /** The detector that rejects nothing: under it only the checks that do not concern trust are left. */
  function Permissive(): Sanitizer.Detector {
    _ => false
  }

  /** An untrusted instruction in anything a reader may see, or an excerpt from a blocked segment. */
  predicate TrustFails(a: Answer, ranked: seq<Passage>, d: Sanitizer.Detector) {
    Crosses(a, d) || (a.excerpt.Some? && ExcerptBlocked(a, ById(ranked), d))
  }

  lemma PermissiveTrusts(a: Answer, ranked: seq<Passage>)
    ensures !TrustFails(a, ranked, Permissive())
  {
    forall segments: seq<string> ensures !Sanitizer.GroupRejected(segments, Permissive()) {
    }
  }

  /** An answer passes the validator exactly when it passes every check but trust, and trust. */
  lemma FlawlessExactlyWhen(a: Answer, ranked: seq<Passage>, d: Sanitizer.Detector, f: CharFold)
    ensures GroundingFlaw(a, ranked, d, f) == None <==>
            GroundingFlaw(a, ranked, Permissive(), f) == None && !TrustFails(a, ranked, d)
  {
    PermissiveTrusts(a, ranked);
  }

  lemma BlockedIsTheOnlyTrustFlaw(a: Answer, chunks: map<string, Chunk>, d: Sanitizer.Detector, f: CharFold)
    requires a.excerpt.Some? && EvidenceFlaw(a, chunks, d, f) == Some(UntrustedInstruction)
    ensures ExcerptBlocked(a, chunks, d)
  {
  }

  lemma TrustIsTheRest(a: Answer, ranked: seq<Passage>, d: Sanitizer.Detector, f: CharFold)
    requires GroundingFlaw(a, ranked, d, f) in {None, Some(UntrustedInstruction)} && !TrustFails(a, ranked, d)
    ensures GroundingFlaw(a, ranked, d, f) == None
  {
    if a.excerpt.Some? && EvidenceFlaw(a, ById(ranked), d, f) == Some(UntrustedInstruction) {
      BlockedIsTheOnlyTrustFlaw(a, ById(ranked), d, f);
    }
  }

  /** An answer built from passages passes every check but trust. */
  lemma BuiltPassesButTrust(a: Answer, p: Passage, ranked: seq<Passage>, f: CharFold)
    requires OneChunkPerId(ranked) && BuiltFrom(a, p, ranked, f)
    ensures GroundingFlaw(a, ranked, Permissive(), f) == None
  {
    var d := Permissive();
    BuiltFailsOnlyOnTrust(a, p, ranked, d, f);
    PermissiveTrusts(a, ranked);
    TrustIsTheRest(a, ranked, d, f);
  }
}
