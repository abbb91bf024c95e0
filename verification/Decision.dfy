/** From evaluated evidence to an answer: assessments, the best candidate, conflicts and validation. */
module Decision {
  import opened Common
  import opened Text
  import Sanitizer
  import Ranking
  import opened Grounding
  import opened Answering

  // ------------------------------------------------------------------ assessments

  predicate Direct(r: Row) {
    r.value.Some? && r.relation
  }

  function DirectRows(rows: seq<Row>, n: nat): seq<Row>
    requires n <= |rows|
  {
    if n == 0 then []
    else if Direct(rows[n - 1]) then DirectRows(rows, n - 1) + [rows[n - 1]]
    else DirectRows(rows, n - 1)
  }

  function PartialRows(e: Engine, rows: seq<Row>, n: nat): seq<Row>
    requires n <= |rows|
  {
    if n == 0 then []
    else if rows[n - 1].score >= e.partialThreshold && rows[n - 1].relation then PartialRows(e, rows, n - 1) + [rows[n - 1]]
    else PartialRows(e, rows, n - 1)
  }

  /** `max` by score: the first row none exceeds. */
  function BestRow(rows: seq<Row>, n: nat): (r: Row)
    requires 0 < n <= |rows|
    ensures r in rows[..n] && forall i :: 0 <= i < n ==> rows[i].score <= r.score
  {
    if n == 1 then rows[0]
    else
      var r := BestRow(rows, n - 1);
      if rows[n - 1].score > r.score then rows[n - 1] else r
  }

  function TopScore(rows: seq<Row>): real {
    if rows == [] then 0.0 else BestRow(rows, |rows|).score
  }

  function Assess(e: Engine, kind: Kind, p: Passage, rows: seq<Row>): Assessment {
    var direct, partials := DirectRows(rows, |rows|), PartialRows(e, rows, |rows|);
    if direct != [] then
      var best := BestRow(direct, |direct|);
      var supported := best.score >= e.supportThreshold;
      Assessment(supported, if supported then best.value else None, best.score,
                 Some(p.chunk.documentId), Some(p.chunk.page), Some(best.text),
                 if supported then None else Some(e.wording(BelowThreshold)),
                 if supported && best.value.Some? && best.value.value != "" && kind != Boolean then map[e.fieldName(kind) := best.value.value] else map[],
                 p.chunk.id)
    else if partials != [] then
      var best := BestRow(partials, |partials|);
      Assessment(false, None, best.score, Some(p.chunk.documentId), Some(p.chunk.page), Some(best.text),
                 Some(e.wording(PassageRelationOnly)), map[], p.chunk.id)
    else Assessment(false, None, TopScore(rows), None, None, None, Some(e.wording(NoEvidence)), map[], p.chunk.id)
  }

  function Assessments(e: Engine, kind: Kind, ranked: seq<Passage>, found: Found, n: nat): (a: seq<Assessment>)
    requires n <= |ranked|
    ensures |a| == n
  {
    if n == 0 then []
    else Assessments(e, kind, ranked, found, n - 1) + [Assess(e, kind, ranked[n - 1], RowsFor(found.rows, ranked[n - 1].chunk.id))]
  }

  function RefusedAssessments(e: Engine, ranked: seq<Passage>): (a: seq<Assessment>)
    ensures forall s :: s in a ==> !s.answerable
  {
    seq(|ranked|, i requires 0 <= i < |ranked| =>
      Assessment(false, None, 0.0, None, None, None, Some(e.wording(RefusedEarly)), map[], ranked[i].chunk.id))
  }

  // ------------------------------------------------------------------- candidates

  predicate Before(a: Candidate, b: Candidate) {
    || a.score > b.score
    || (a.score == b.score && (a.passage.score > b.passage.score
                               || (a.passage.score == b.passage.score && Ranking.Less(a.passage.chunk.id, b.passage.chunk.id))))
  }

  /** Behind everything it does not come before, as a stable sort puts it. */
  function Insert(x: Candidate, s: seq<Candidate>): seq<Candidate> {
    if s == [] || Before(x, s[0]) then [x] + s else [s[0]] + Insert(x, s[1..])
  }

  function SortCandidates(s: seq<Candidate>, n: nat): seq<Candidate>
    requires n <= |s|
  {
    if n == 0 then [] else Insert(s[n - 1], SortCandidates(s, n - 1))
  }

  function Supported(s: seq<Candidate>, threshold: real): seq<Candidate> {
    if s == [] then []
    else if s[0].score >= threshold then [s[0]] + Supported(s[1..], threshold)
    else Supported(s[1..], threshold)
  }

  /** What candidates are compared by: the verdict of a yes/no answer, otherwise the folded value. */
  datatype Key = Verdict(yes: bool) | NoVerdict | Folded(text: string)

  function KeyOf(e: Engine, kind: Kind, value: string): Key {
    var folded := Fold(value, e.fold);
    if kind != Boolean then Folded(folded)
    else if "no. " <= folded then Verdict(false)
    else if "yes. " <= folded then Verdict(true)
    else NoVerdict
  }

  function FirstDistinct(e: Engine, kind: Kind, best: Candidate, others: seq<Candidate>): (r: Option<Candidate>)
    ensures r.Some? ==> r.value in others && KeyOf(e, kind, r.value.value) != KeyOf(e, kind, best.value)
    ensures r.None? ==> forall c :: c in others ==> KeyOf(e, kind, c.value) == KeyOf(e, kind, best.value)
  {
    if others == [] then None
    else if KeyOf(e, kind, others[0].value) != KeyOf(e, kind, best.value) then Some(others[0])
    else FirstDistinct(e, kind, best, others[1..])
  }

  function BestPartial(s: seq<Partial>, n: nat): (r: Partial)
    requires 0 < n <= |s|
    ensures r in s[..n] && forall i :: 0 <= i < n ==> s[i].score <= r.score
  {
    if n == 1 then s[0]
    else
      var r := BestPartial(s, n - 1);
      if s[n - 1].score > r.score then s[n - 1] else r
  }

  // --------------------------------------------------------------------- answers

  function CitationOf(p: Passage, excerpt: string): Citation {
    Citation(p.chunk.id, p.chunk.documentId, p.chunk.documentName, p.chunk.page, p.chunk.section, excerpt)
  }

  function AbstainedAnswer(message: string, assessments: seq<Assessment>): Answer {
    Answer(Abstained, false, message, 0.0, None, None, None, None, map[], [], [], assessments)
  }

  function PartialAnswer(e: Engine, p: Partial, assessments: seq<Assessment>): Answer {
    var chunk := p.passage.chunk;
    Answer(PartiallySupported, false, e.wording(ValueNotStated), p.score, Some(chunk.documentId), Some(chunk.page), Some(p.text),
           Some(e.wording(RelationOnly)), map[], [chunk.id], [CitationOf(p.passage, p.text)], assessments)
  }

  function AmbiguousAnswer(e: Engine, best: Candidate, other: Candidate, assessments: seq<Assessment>): Answer {
    var chunk := best.passage.chunk;
    Answer(Ambiguous, false, e.wording(Conflicting), Min(best.score, other.score), Some(chunk.documentId), Some(chunk.page),
           Some(best.text), Some(e.wording(ConflictReason)), map[], [chunk.id, other.passage.chunk.id],
           [CitationOf(best.passage, best.text), CitationOf(other.passage, other.text)], assessments)
  }

  /** The value, or the evidence itself if the value is empty. */
  function Stated(best: Candidate): string {
    if best.value != "" then best.value else best.text
  }

  function DirectAnswer(e: Engine, kind: Kind, best: Candidate, assessments: seq<Assessment>): Answer {
    var chunk := best.passage.chunk;
    Answer(Answered, true, Stated(best), best.score, Some(chunk.documentId), Some(chunk.page), Some(best.text), None,
           if kind == Boolean then map[] else map[e.fieldName(kind) := [Stated(best)]],
           [chunk.id], [CitationOf(best.passage, best.text)], assessments)
  }

  /** The answer before it is validated. */
  function Decide(e: Engine, kind: Kind, found: Found, assessments: seq<Assessment>): Answer {
    var supported := Supported(SortCandidates(found.candidates, |found.candidates|), e.supportThreshold);
    if supported == [] then
      if found.partials == [] then AbstainedAnswer(e.wording(Insufficient), assessments)
      else PartialAnswer(e, BestPartial(found.partials, |found.partials|), assessments)
    else
      var other := FirstDistinct(e, kind, supported[0], supported[1..]);
      if other.Some? && Conflicts(kind) then AmbiguousAnswer(e, supported[0], other.value, assessments)
      else DirectAnswer(e, kind, supported[0], assessments)
  }

  function Scoped(e: Engine, question: string, ranked: seq<Passage>): seq<Passage> {
    match e.scope(question, ranked)
    case None => ranked
    case Some(allowed) => InDocuments(ranked, allowed, |ranked|)
  }

  function InDocuments(ranked: seq<Passage>, allowed: set<string>, n: nat): seq<Passage>
    requires n <= |ranked|
  {
    if n == 0 then []
    else if ranked[n - 1].chunk.documentId in allowed then InDocuments(ranked, allowed, n - 1) + [ranked[n - 1]]
    else InDocuments(ranked, allowed, n - 1)
  }

  datatype Failure = BlankQuestion | Ungrounded(flaw: Flaw)

  /** Abstentions are returned as they are; every other answer is validated first. */
  function Checked(e: Engine, a: Answer, ranked: seq<Passage>): Result<Answer, Failure> {
    if a.status == Abstained then Ok(a)
    else match GroundingFlaw(a, ranked, e.untrusted, e.fold)
         case None => Ok(a)
         case Some(flaw) => Err(Ungrounded(flaw))
  }

  /** The answer built from the passages in scope, before it is validated. */
  function Built(e: Engine, question: string, scoped: seq<Passage>): Answer {
    var kind := e.kindOf(question);
    var found := FoundIn(e, question, kind, scoped);
    Decide(e, kind, found, Assessments(e, kind, scoped, found, |scoped|))
  }

  function AnswerIn(e: Engine, question: string, scoped: seq<Passage>): Result<Answer, Failure> {
    Checked(e, Built(e, question, scoped), scoped)
  }

  /** What the engine answers. */
  function AnswerOf(e: Engine, question: string, ranked: seq<Passage>): Result<Answer, Failure> {
    if e.unsafe(question) then Ok(AbstainedAnswer(e.wording(Refused), RefusedAssessments(e, ranked)))
    else if ranked == [] then Ok(AbstainedAnswer(e.wording(Insufficient), RefusedAssessments(e, ranked)))
    else if e.kindOf(question) == MultiSlot then Ok(AbstainedAnswer(e.wording(ManyFacts), []))
    else if Scoped(e, question, ranked) == [] then Ok(AbstainedAnswer(e.wording(Insufficient), []))
    else if Blank(question) then Err(BlankQuestion)
    else AnswerIn(e, question, Scoped(e, question, ranked))
  }

  method AssessPassages(e: Engine, kind: Kind, ranked: seq<Passage>, found: Found) returns (assessments: seq<Assessment>)
    ensures assessments == Assessments(e, kind, ranked, found, |ranked|)
  {
    assessments := [];
    for i := 0 to |ranked|
      invariant assessments == Assessments(e, kind, ranked, found, i)
    {
      assessments := assessments + [Assess(e, kind, ranked[i], RowsFor(found.rows, ranked[i].chunk.id))];
    }
  }

  method AnswerQuestion(e: Engine, question: string, ranked: seq<Passage>) returns (result: Result<Answer, Failure>)
    ensures result == AnswerOf(e, question, ranked)
  {
    if e.unsafe(question) || ranked == [] {
      return Ok(AbstainedAnswer(if e.unsafe(question) then e.wording(Refused) else e.wording(Insufficient), RefusedAssessments(e, ranked)));
    }
    var kind := e.kindOf(question);
    if kind == MultiSlot { return Ok(AbstainedAnswer(e.wording(ManyFacts), [])); }
    var scoped := Scoped(e, question, ranked);
    if scoped == [] { return Ok(AbstainedAnswer(e.wording(Insufficient), [])); }
    if Blank(question) { return Err(BlankQuestion); }
    var found := FindEvidence(e, question, kind, scoped);
    var assessments := AssessPassages(e, kind, scoped, found);
    result := Checked(e, Decide(e, kind, found, assessments), scoped);
  }

  // --------------------------------------------------------------- what is found fits

  /** Evidence of a passage in scope: a non-empty substring of it, with a score that is a probability. */
  predicate Fits(p: Passage, text: string, score: real, ranked: seq<Passage>) {
    Among(p, ranked) && text != "" && Contains(p.chunk.text, text) && 0.0 <= score <= 1.0
  }

  predicate CandidateFits(c: Candidate, kind: Kind, ranked: seq<Passage>) {
    Fits(c.passage, c.text, c.score, ranked) && ValueFits(kind, c.text, Some(c.value))
  }

  predicate WorkFits(w: (Passage, string), ranked: seq<Passage>) {
    Among(w.0, ranked) && w.1 != "" && Contains(w.0.chunk.text, w.1)
  }

  predicate AllWorkFits(work: Work, ranked: seq<Passage>) {
    forall i :: 0 <= i < |work| ==> WorkFits(work[i], ranked)
  }

  predicate FoundFits(found: Found, kind: Kind, ranked: seq<Passage>) {
    && (forall i :: 0 <= i < |found.candidates| ==> CandidateFits(found.candidates[i], kind, ranked))
    && (forall i :: 0 <= i < |found.partials| ==> Fits(found.partials[i].passage, found.partials[i].text, found.partials[i].score, ranked))
  }

  /** One evidence text adds at most one candidate or one partial. */
  lemma EvaluatedAdds(e: Engine, question: string, kind: Kind, p: Passage, text: string, found: Found)
    ensures var next := Evaluated(e, question, kind, p, text, found);
            && (next.candidates == found.candidates
                || (e.value(kind, text, question).Some?
                    && next.candidates == found.candidates + [Candidate(Support(e, question, text, kind), text, e.value(kind, text, question).value, p)]))
            && (next.partials == found.partials || next.partials == found.partials + [Partial(Support(e, question, text, kind), text, p)])
  {
  }

  lemma EvaluatedFits(e: Engine, question: string, kind: Kind, p: Passage, text: string, found: Found, ranked: seq<Passage>)
    requires Contract(e) && FoundFits(found, kind, ranked) && WorkFits((p, text), ranked)
    ensures FoundFits(Evaluated(e, question, kind, p, text, found), kind, ranked)
  {
    SupportIsUnit(e, question, text, kind);
    EvaluatedAdds(e, question, kind, p, text, found);
    StillFits(found, Evaluated(e, question, kind, p, text, found), Support(e, question, text, kind), text,
              e.value(kind, text, question), p, kind, ranked);
  }

  lemma StillFits(found: Found, next: Found, score: real, text: string, value: Option<string>, p: Passage, kind: Kind, ranked: seq<Passage>)
    requires FoundFits(found, kind, ranked) && Fits(p, text, score, ranked) && ValueFits(kind, text, value)
    requires next.candidates == found.candidates || (value.Some? && next.candidates == found.candidates + [Candidate(score, text, value.value, p)])
    requires next.partials == found.partials || next.partials == found.partials + [Partial(score, text, p)]
    ensures FoundFits(next, kind, ranked)
  {
  }

  lemma {:induction false} AllEvaluatedFits(e: Engine, question: string, kind: Kind, work: Work, ranked: seq<Passage>)
    requires Contract(e) && AllWorkFits(work, ranked)
    ensures FoundFits(EvaluateAll(e, question, kind, work), kind, ranked)
  {
    if work != [] {
      var n := |work| - 1;
      AllEvaluatedFits(e, question, kind, work[..n], ranked);
      assert WorkFits(work[n], ranked);
      EvaluatedFits(e, question, kind, work[n].0, work[n].1, EvaluateAll(e, question, kind, work[..n]), ranked);
    }
  }

  lemma {:induction false} PairsFit(p: Passage, segment: string, texts: seq<string>, n: nat, ranked: seq<Passage>)
    requires n <= |texts| && Among(p, ranked) && Contains(p.chunk.text, segment) && PartsOf(segment, texts)
    ensures AllWorkFits(Pairs(p, texts, n), ranked)
  {
    if n > 0 {
      PairsFit(p, segment, texts, n - 1, ranked);
      ContainsIsTransitive(p.chunk.text, segment, texts[n - 1]);
    }
  }

  lemma SegmentFits(e: Engine, question: string, kind: Kind, p: Passage, segments: seq<string>, i: nat, ranked: seq<Passage>)
    requires Contract(e) && i < |segments| && Among(p, ranked) && PartsOf(p.chunk.text, segments)
    ensures AllWorkFits(OneSegment(e, question, kind, p, segments, i), ranked)
  {
    var texts := TextsIn(e, question, kind, segments[i]);
    ContainsItself(segments[i]);
    assert PartsOf(segments[i], e.dateClauses(segments[i], question));
    PairsFit(p, segments[i], texts, |texts|, ranked);
  }

  lemma {:induction false} JoinedFits(works: seq<Work>, n: nat, ranked: seq<Passage>)
    requires n <= |works| && forall i :: 0 <= i < |works| ==> AllWorkFits(works[i], ranked)
    ensures AllWorkFits(Joined(works, n), ranked)
  {
    if n > 0 { JoinedFits(works, n - 1, ranked); }
  }

  lemma PassageFits(e: Engine, question: string, kind: Kind, p: Passage, ranked: seq<Passage>)
    requires Contract(e) && Among(p, ranked)
    ensures AllWorkFits(OnePassage(e, question, kind, p), ranked)
  {
    SegmentsAreParts(p.chunk.text);
    var segments := Segments(p.chunk.text);
    var works := SegmentWorks(e, question, kind, p, segments);
    forall i | 0 <= i < |works| ensures AllWorkFits(works[i], ranked) {
      SegmentFits(e, question, kind, p, segments, i, ranked);
    }
    JoinedFits(works, |works|, ranked);
  }

  /** Everything the engine finds is a substring of a passage in scope, with a value that fits it. */
  lemma FoundInFits(e: Engine, question: string, kind: Kind, ranked: seq<Passage>)
    requires Contract(e)
    ensures FoundFits(FoundIn(e, question, kind, ranked), kind, ranked)
  {
    var works := Works(e, question, kind, ranked);
    forall i | 0 <= i < |works| ensures AllWorkFits(works[i], ranked) {
      PassageFits(e, question, kind, ranked[i], ranked);
    }
    JoinedFits(works, |ranked|, ranked);
    AllEvaluatedFits(e, question, kind, Joined(works, |ranked|), ranked);
  }

  // -------------------------------------------------------------- sorted and supported

  predicate Falling(s: seq<Candidate>) {
    forall i, j :: 0 <= i < j < |s| ==> s[i].score >= s[j].score
  }

  lemma {:induction false} InsertAdds(x: Candidate, s: seq<Candidate>)
    ensures multiset(Insert(x, s)) == multiset(s) + multiset{x}
  {
    if s != [] && !Before(x, s[0]) {
      InsertAdds(x, s[1..]);
      assert s == [s[0]] + s[1..];
    }
  }

  lemma FallingCons(x: Candidate, s: seq<Candidate>)
    requires Falling(s) && forall i :: 0 <= i < |s| ==> x.score >= s[i].score
    ensures Falling([x] + s)
  {
  }

  lemma {:induction false} InsertFalls(x: Candidate, s: seq<Candidate>)
    requires Falling(s)
    ensures Falling(Insert(x, s))
  {
    if s != [] && !Before(x, s[0]) {
      var r := Insert(x, s[1..]);
      InsertFalls(x, s[1..]);
      InsertAdds(x, s[1..]);
      forall i | 0 <= i < |r| ensures s[0].score >= r[i].score {
        assert r[i] in multiset(r);
      }
      FallingCons(s[0], r);
    }
  }

  lemma {:induction false} SortFalls(s: seq<Candidate>, n: nat)
    requires n <= |s|
    ensures Falling(SortCandidates(s, n))
  {
    if n > 0 {
      SortFalls(s, n - 1);
      InsertFalls(s[n - 1], SortCandidates(s, n - 1));
    }
  }

  lemma {:induction false} SortAdds(s: seq<Candidate>, n: nat)
    requires n <= |s|
    ensures multiset(SortCandidates(s, n)) == multiset(s[..n])
  {
    if n > 0 {
      SortAdds(s, n - 1);
      InsertAdds(s[n - 1], SortCandidates(s, n - 1));
      MultisetSnoc(s, n);
    }
  }

  lemma MultisetSnoc<T>(s: seq<T>, n: nat)
    requires 0 < n <= |s|
    ensures multiset(s[..n]) == multiset(s[..n - 1]) + multiset{s[n - 1]}
  {
    assert s[..n] == s[..n - 1] + [s[n - 1]];
  }

  lemma {:induction false} SupportedAre(s: seq<Candidate>, threshold: real)
    ensures forall c :: c in Supported(s, threshold) <==> c in s && c.score >= threshold
    ensures Falling(s) ==> Falling(Supported(s, threshold))
  {
    if s != [] {
      SupportedAre(s[1..], threshold);
      assert forall c :: c in s <==> c == s[0] || c in s[1..];
      if Falling(s) {
        forall c | c in Supported(s[1..], threshold) ensures s[0].score >= c.score {
        }
      }
    }
  }

  /** The supported candidates, best first. */
  function Ordered(e: Engine, found: Found): seq<Candidate> {
    Supported(SortCandidates(found.candidates, |found.candidates|), e.supportThreshold)
  }

  lemma OrderedAre(e: Engine, found: Found)
    ensures forall c :: c in Ordered(e, found) <==> c in found.candidates && c.score >= e.supportThreshold
    ensures Falling(Ordered(e, found))
  {
    var s := SortCandidates(found.candidates, |found.candidates|);
    SortFalls(found.candidates, |found.candidates|);
    SortAdds(found.candidates, |found.candidates|);
    SupportedAre(s, e.supportThreshold);
    assert found.candidates[..|found.candidates|] == found.candidates;
    forall c ensures c in s <==> c in found.candidates {
      assert c in s <==> c in multiset(s);
      assert c in found.candidates <==> c in multiset(found.candidates);
    }
  }

  // ---------------------------------------------------------------- answers are grounded

  lemma CitationOfCites(p: Passage, excerpt: string)
    requires Contains(p.chunk.text, excerpt)
    ensures Cites(CitationOf(p, excerpt), p)
  {
  }

  lemma StatedIsSupported(e: Engine, kind: Kind, best: Candidate, ranked: seq<Passage>)
    requires CandidateFits(best, kind, ranked)
    ensures Stated(best) != "" && AnswerSupported(Stated(best), best.text, e.fold)
    ensures kind != Boolean ==> FieldSupported([Stated(best)], best.text, e.fold)
  {
    if kind != Boolean {
      ContainsItself(best.text);
      FoldKeepsParts(best.text, Stated(best), e.fold);
    }
  }

  lemma DirectIsBuilt(e: Engine, kind: Kind, best: Candidate, assessments: seq<Assessment>, ranked: seq<Passage>)
    requires Contract(e) && CandidateFits(best, kind, ranked)
    ensures BuiltFrom(DirectAnswer(e, kind, best, assessments), best.passage, ranked, e.fold)
  {
    StatedIsSupported(e, kind, best, ranked);
    CitationOfCites(best.passage, best.text);
  }

  lemma AmbiguousIsBuilt(e: Engine, kind: Kind, best: Candidate, other: Candidate, assessments: seq<Assessment>, ranked: seq<Passage>)
    requires Contract(e) && CandidateFits(best, kind, ranked) && CandidateFits(other, kind, ranked)
    ensures BuiltFrom(AmbiguousAnswer(e, best, other, assessments), best.passage, ranked, e.fold)
  {
    CitationOfCites(best.passage, best.text);
    CitationOfCites(other.passage, other.text);
  }

  lemma PartialIsBuilt(e: Engine, p: Partial, assessments: seq<Assessment>, ranked: seq<Passage>)
    requires Contract(e) && Fits(p.passage, p.text, p.score, ranked)
    ensures BuiltFrom(PartialAnswer(e, p, assessments), p.passage, ranked, e.fold)
  {
    CitationOfCites(p.passage, p.text);
  }

  /** The answer passes every check of the validator that does not concern trust. */
  predicate TrustAside(e: Engine, a: Answer, ranked: seq<Passage>) {
    GroundingFlaw(a, ranked, Permissive(), e.fold) == None
  }

  lemma DecidedIsGrounded(e: Engine, kind: Kind, found: Found, assessments: seq<Assessment>, ranked: seq<Passage>)
    requires Contract(e) && OneChunkPerId(ranked) && FoundFits(found, kind, ranked)
    ensures TrustAside(e, Decide(e, kind, found, assessments), ranked)
  {
    var supported := Ordered(e, found);
    OrderedAre(e, found);
    var a := Decide(e, kind, found, assessments);
    if supported != [] {
      assert supported[0] in found.candidates;
      var other := FirstDistinct(e, kind, supported[0], supported[1..]);
      if other.Some? && Conflicts(kind) {
        assert other.value in supported && other.value in found.candidates;
        AmbiguousIsBuilt(e, kind, supported[0], other.value, assessments, ranked);
      } else {
        DirectIsBuilt(e, kind, supported[0], assessments, ranked);
      }
      BuiltPassesButTrust(a, supported[0].passage, ranked, e.fold);
    } else if found.partials != [] {
      var p := BestPartial(found.partials, |found.partials|);
      assert p in found.partials;
      PartialIsBuilt(e, p, assessments, ranked);
      BuiltPassesButTrust(a, p.passage, ranked, e.fold);
    } else {
      AbstentionPasses(e, e.wording(Insufficient), assessments, ranked);
    }
  }

  lemma AbstentionPasses(e: Engine, message: string, assessments: seq<Assessment>, ranked: seq<Passage>)
    ensures TrustAside(e, AbstainedAnswer(message, assessments), ranked)
  {
    PermissiveTrusts(AbstainedAnswer(message, assessments), ranked);
  }

  lemma {:induction false} InDocumentsAreRanked(ranked: seq<Passage>, allowed: set<string>, n: nat)
    requires n <= |ranked|
    ensures forall p :: p in InDocuments(ranked, allowed, n) <==> p in ranked[..n] && p.chunk.documentId in allowed
  {
    if n > 0 {
      InDocumentsAreRanked(ranked, allowed, n - 1);
      assert ranked[..n] == ranked[..n - 1] + [ranked[n - 1]];
    }
  }

  lemma ScopedIsRanked(e: Engine, question: string, ranked: seq<Passage>)
    ensures forall p :: p in Scoped(e, question, ranked) ==> p in ranked
    ensures OneChunkPerId(ranked) ==> OneChunkPerId(Scoped(e, question, ranked))
  {
    var scope, scoped := e.scope(question, ranked), Scoped(e, question, ranked);
    if scope.Some? { InDocumentsAreRanked(ranked, scope.value, |ranked|); }
    if OneChunkPerId(ranked) {
      forall i, j | 0 <= i < |scoped| && 0 <= j < |scoped| && scoped[i].chunk.id == scoped[j].chunk.id
        ensures scoped[i].chunk == scoped[j].chunk
      {
        assert scoped[i] in scoped && scoped[j] in scoped;
        var k, l := Position(ranked, scoped[i]), Position(ranked, scoped[j]);
      }
    }
  }

  function Position(ranked: seq<Passage>, p: Passage): (i: nat)
    requires p in ranked
    ensures i < |ranked| && ranked[i] == p
  {
    if ranked[0] == p then 0 else 1 + Position(ranked[1..], p)
  }

  /** What becomes of a built answer: an error if an untrusted instruction would be shown, otherwise the answer itself. */
  function Trusted(e: Engine, a: Answer, ranked: seq<Passage>): Result<Answer, Failure> {
    if a.status != Abstained && TrustFails(a, ranked, e.untrusted) then Err(Ungrounded(UntrustedInstruction)) else Ok(a)
  }

  /** Validation lets a sound answer through unless trust fails, and never looks at an abstention. */
  lemma CheckedIs(e: Engine, a: Answer, ranked: seq<Passage>)
    requires TrustAside(e, a, ranked) && GroundingFlaw(a, ranked, e.untrusted, e.fold) in {None, Some(UntrustedInstruction)}
    ensures Checked(e, a, ranked) == Trusted(e, a, ranked)
  {
    FlawlessExactlyWhen(a, ranked, e.untrusted, e.fold);
  }

  lemma TrustIsTheFlaw(e: Engine, a: Answer, ranked: seq<Passage>)
    requires TrustAside(e, a, ranked)
    ensures GroundingFlaw(a, ranked, e.untrusted, e.fold) in {None, Some(UntrustedInstruction)}
  {
    PermissiveTrusts(a, ranked);
  }

  lemma AnswerInIsGrounded(e: Engine, question: string, scoped: seq<Passage>)
    requires Contract(e) && OneChunkPerId(scoped)
    ensures TrustAside(e, Built(e, question, scoped), scoped)
    ensures AnswerIn(e, question, scoped) == Trusted(e, Built(e, question, scoped), scoped)
  {
    var kind := e.kindOf(question);
    var found := FoundIn(e, question, kind, scoped);
    FoundInFits(e, question, kind, scoped);
    DecidedIsGrounded(e, kind, found, Assessments(e, kind, scoped, found, |scoped|), scoped);
    TrustIsTheFlaw(e, Built(e, question, scoped), scoped);
    CheckedIs(e, Built(e, question, scoped), scoped);
  }

  /** An abstention without any answerable assessment. */
  predicate EarlyAbstention(result: Result<Answer, Failure>) {
    && result.Ok? && result.value == AbstainedAnswer(result.value.answer, result.value.assessments)
    && forall i :: 0 <= i < |result.value.assessments| ==> !result.value.assessments[i].answerable
  }

  /** The ways the engine can end: an abstention before any evidence is read, a blank question, or an answer. */
  lemma AnswerOfIs(e: Engine, question: string, ranked: seq<Passage>)
    ensures var result := AnswerOf(e, question, ranked);
            || EarlyAbstention(result)
            || (result == Err(BlankQuestion) && Blank(question))
            || result == AnswerIn(e, question, Scoped(e, question, ranked))
  {
  }

  /**
    The engine never raises for lack of grounding: the answer it builds passes every check of the validator but
    trust, and it is returned unless it is no abstention and would show an untrusted instruction.
   */
  lemma EngineIsGrounded(e: Engine, question: string, ranked: seq<Passage>)
    requires Contract(e) && OneChunkPerId(ranked)
    ensures var result, scoped := AnswerOf(e, question, ranked), Scoped(e, question, ranked);
            && TrustAside(e, Built(e, question, scoped), scoped)
            && (EarlyAbstention(result) || (result == Err(BlankQuestion) && Blank(question))
                || result == Trusted(e, Built(e, question, scoped), scoped))
            && (result.Ok? ==> TrustAside(e, result.value, scoped))
            && (result.Ok? && result.value.status != Abstained ==> GroundingFlaw(result.value, scoped, e.untrusted, e.fold) == None)
  {
    var scoped := Scoped(e, question, ranked);
    ScopedIsRanked(e, question, ranked);
    AnswerInIsGrounded(e, question, scoped);
    AnswerOfIs(e, question, ranked);
    var result := AnswerOf(e, question, ranked);
    if EarlyAbstention(result) {
      AbstentionPasses(e, result.value.answer, result.value.assessments, scoped);
    } else if result.Ok? {
      FlawlessExactlyWhen(result.value, scoped, e.untrusted, e.fold);
    }
  }

  // --------------------------------------------------- assessments and status agree

  ghost predicate HasDirect(rows: map<string, seq<Row>>, id: string, score: real) {
    exists k :: 0 <= k < |RowsFor(rows, id)| && Direct(RowsFor(rows, id)[k]) && RowsFor(rows, id)[k].score == score
  }

  ghost predicate HasCandidate(candidates: seq<Candidate>, id: string, score: real) {
    exists i :: 0 <= i < |candidates| && candidates[i].passage.chunk.id == id && candidates[i].score == score
  }

  /** Candidates are exactly the direct rows. */
  ghost predicate Linked(found: Found) {
    && (forall i :: 0 <= i < |found.candidates| ==> HasDirect(found.rows, found.candidates[i].passage.chunk.id, found.candidates[i].score))
    && (forall id, k :: 0 <= k < |RowsFor(found.rows, id)| && Direct(RowsFor(found.rows, id)[k]) ==>
          HasCandidate(found.candidates, id, RowsFor(found.rows, id)[k].score))
  }

  lemma RowAdded(rows: map<string, seq<Row>>, id: string, row: Row, other: string)
    ensures RowsFor(rows[id := RowsFor(rows, id) + [row]], other) == if other == id then RowsFor(rows, id) + [row] else RowsFor(rows, other)
  {
  }

  lemma DirectKept(rows: map<string, seq<Row>>, id: string, row: Row, other: string, score: real)
    requires HasDirect(rows, other, score)
    ensures HasDirect(rows[id := RowsFor(rows, id) + [row]], other, score)
  {
    var k :| 0 <= k < |RowsFor(rows, other)| && Direct(RowsFor(rows, other)[k]) && RowsFor(rows, other)[k].score == score;
    RowAdded(rows, id, row, other);
    assert RowsFor(rows[id := RowsFor(rows, id) + [row]], other)[k] == RowsFor(rows, other)[k];
  }

  lemma CandidateKept(candidates: seq<Candidate>, more: seq<Candidate>, id: string, score: real)
    requires HasCandidate(candidates, id, score)
    ensures HasCandidate(candidates + more, id, score)
  {
    var i :| 0 <= i < |candidates| && candidates[i].passage.chunk.id == id && candidates[i].score == score;
    assert (candidates + more)[i] == candidates[i];
  }

  /** Adding a row, and a candidate exactly if the row is direct, keeps the link. */
  lemma LinkKept(found: Found, next: Found, p: Passage, row: Row, more: seq<Candidate>)
    requires Linked(found)
    requires next.rows == found.rows[p.chunk.id := RowsFor(found.rows, p.chunk.id) + [row]] && next.candidates == found.candidates + more
    requires if Direct(row) then more == [Candidate(row.score, row.text, row.value.value, p)] else more == []
    ensures Linked(next)
  {
    forall i | 0 <= i < |next.candidates|
      ensures HasDirect(next.rows, next.candidates[i].passage.chunk.id, next.candidates[i].score)
    {
      LinkedCandidate(found, next, p, row, more, i);
    }
    forall id, k | 0 <= k < |RowsFor(next.rows, id)| && Direct(RowsFor(next.rows, id)[k])
      ensures HasCandidate(next.candidates, id, RowsFor(next.rows, id)[k].score)
    {
      LinkedRow(found, next, p, row, more, id, k);
    }
  }

  lemma LinkedCandidate(found: Found, next: Found, p: Passage, row: Row, more: seq<Candidate>, i: nat)
    requires Linked(found) && i < |next.candidates|
    requires next.rows == found.rows[p.chunk.id := RowsFor(found.rows, p.chunk.id) + [row]] && next.candidates == found.candidates + more
    requires if Direct(row) then more == [Candidate(row.score, row.text, row.value.value, p)] else more == []
    ensures HasDirect(next.rows, next.candidates[i].passage.chunk.id, next.candidates[i].score)
  {
    if i < |found.candidates| {
      DirectKept(found.rows, p.chunk.id, row, found.candidates[i].passage.chunk.id, found.candidates[i].score);
    } else {
      RowAdded(found.rows, p.chunk.id, row, p.chunk.id);
      assert RowsFor(next.rows, p.chunk.id)[|RowsFor(found.rows, p.chunk.id)|] == row;
    }
  }

  lemma LinkedRow(found: Found, next: Found, p: Passage, row: Row, more: seq<Candidate>, id: string, k: nat)
    requires Linked(found)
    requires next.rows == found.rows[p.chunk.id := RowsFor(found.rows, p.chunk.id) + [row]] && next.candidates == found.candidates + more
    requires if Direct(row) then more == [Candidate(row.score, row.text, row.value.value, p)] else more == []
    requires k < |RowsFor(next.rows, id)| && Direct(RowsFor(next.rows, id)[k])
    ensures HasCandidate(next.candidates, id, RowsFor(next.rows, id)[k].score)
  {
    RowAdded(found.rows, p.chunk.id, row, id);
    if k < |RowsFor(found.rows, id)| {
      CandidateKept(found.candidates, more, id, RowsFor(found.rows, id)[k].score);
    } else {
      assert next.candidates[|found.candidates|] == more[0];
    }
  }

  lemma EvaluatedLinks(e: Engine, question: string, kind: Kind, p: Passage, text: string, found: Found)
    requires Linked(found)
    ensures Linked(Evaluated(e, question, kind, p, text, found))
  {
    var next := Evaluated(e, question, kind, p, text, found);
    if kind != Boolean && kind != StatusKind && e.denies(question, text, kind) {
      LinkKept(found, next, p, Row(0.0, text, None, false), []);
    } else if !Sanitizer.Untrusted(text, e.untrusted) {
      var row := Row(Support(e, question, text, kind), text, e.value(kind, text, question), e.relatedBySense(question, text, kind));
      LinkKept(found, next, p, row, if Direct(row) then [Candidate(row.score, row.text, row.value.value, p)] else []);
    }
  }

  lemma {:induction false} AllEvaluatedLinks(e: Engine, question: string, kind: Kind, work: Work)
    ensures Linked(EvaluateAll(e, question, kind, work))
  {
    if work != [] {
      var n := |work| - 1;
      AllEvaluatedLinks(e, question, kind, work[..n]);
      EvaluatedLinks(e, question, kind, work[n].0, work[n].1, EvaluateAll(e, question, kind, work[..n]));
    }
  }

  lemma {:induction false} DirectRowsAre(rows: seq<Row>, n: nat)
    requires n <= |rows|
    ensures forall r :: r in DirectRows(rows, n) <==> Direct(r) && r in rows[..n]
  {
    if n > 0 {
      DirectRowsAre(rows, n - 1);
      assert rows[..n] == rows[..n - 1] + [rows[n - 1]];
    }
  }

  /** A passage is assessed as answerable exactly when one of its direct rows reaches the threshold. */
  lemma AnswerableExactlyWhen(e: Engine, kind: Kind, p: Passage, rows: seq<Row>)
    ensures Assess(e, kind, p, rows).answerable <==> exists r :: r in rows && Direct(r) && r.score >= e.supportThreshold
  {
    var direct := DirectRows(rows, |rows|);
    DirectRowsAre(rows, |rows|);
    assert rows[..|rows|] == rows;
    if direct != [] {
      var best := BestRow(direct, |direct|);
      assert direct[..|direct|] == direct;
      assert best in direct && best in rows;
      forall r | r in direct ensures r.score <= best.score {
        var i :| 0 <= i < |direct| && direct[i] == r;
      }
    }
  }

  lemma {:induction false} AssessmentAt(e: Engine, kind: Kind, ranked: seq<Passage>, found: Found, n: nat, i: nat)
    requires i < n <= |ranked|
    ensures Assessments(e, kind, ranked, found, n)[i] == Assess(e, kind, ranked[i], RowsFor(found.rows, ranked[i].chunk.id))
  {
    if i < n - 1 { AssessmentAt(e, kind, ranked, found, n - 1, i); }
  }

  predicate SomeAnswerable(assessments: seq<Assessment>) {
    exists i :: 0 <= i < |assessments| && assessments[i].answerable
  }

  predicate SomeSupported(e: Engine, found: Found) {
    exists i :: 0 <= i < |found.candidates| && found.candidates[i].score >= e.supportThreshold
  }

  lemma SupportedIsAssessed(e: Engine, kind: Kind, ranked: seq<Passage>, found: Found)
    requires Linked(found) && FoundFits(found, kind, ranked) && SomeSupported(e, found)
    ensures SomeAnswerable(Assessments(e, kind, ranked, found, |ranked|))
  {
    var i :| 0 <= i < |found.candidates| && found.candidates[i].score >= e.supportThreshold;
    var c := found.candidates[i];
    assert CandidateFits(c, kind, ranked);
    var k :| 0 <= k < |ranked| && ranked[k] == c.passage;
    var rows := RowsFor(found.rows, c.passage.chunk.id);
    assert HasDirect(found.rows, c.passage.chunk.id, c.score);
    var r :| 0 <= r < |rows| && Direct(rows[r]) && rows[r].score == c.score;
    assert rows[r] in rows;
    AnswerableExactlyWhen(e, kind, ranked[k], rows);
    AssessmentAt(e, kind, ranked, found, |ranked|, k);
  }

  lemma AssessedIsSupported(e: Engine, kind: Kind, ranked: seq<Passage>, found: Found)
    requires Linked(found) && SomeAnswerable(Assessments(e, kind, ranked, found, |ranked|))
    ensures SomeSupported(e, found)
  {
    var k :| 0 <= k < |ranked| && Assessments(e, kind, ranked, found, |ranked|)[k].answerable;
    var id := ranked[k].chunk.id;
    var rows := RowsFor(found.rows, id);
    AssessmentAt(e, kind, ranked, found, |ranked|, k);
    AnswerableExactlyWhen(e, kind, ranked[k], rows);
    var r :| r in rows && Direct(r) && r.score >= e.supportThreshold;
    var j :| 0 <= j < |rows| && rows[j] == r;
    assert HasCandidate(found.candidates, id, RowsFor(found.rows, id)[j].score);
  }

  lemma DecidedExactlyWhenSupported(e: Engine, kind: Kind, found: Found, assessments: seq<Assessment>)
    ensures Decide(e, kind, found, assessments).status in {Answered, Ambiguous} <==> SomeSupported(e, found)
    ensures Decide(e, kind, found, assessments).assessments == assessments
  {
    var supported := Ordered(e, found);
    OrderedAre(e, found);
    if supported != [] {
      assert supported[0] in supported;
      var i :| 0 <= i < |found.candidates| && found.candidates[i] == supported[0];
    }
  }

  /** The status is answered or ambiguous exactly when some passage is assessed as answerable. */
  lemma StatusAgreesWithAssessments(e: Engine, question: string, ranked: seq<Passage>)
    requires Contract(e)
    ensures var result := AnswerOf(e, question, ranked);
            result.Ok? ==> (result.value.status in {Answered, Ambiguous} <==> SomeAnswerable(result.value.assessments))
  {
    var scoped, kind := Scoped(e, question, ranked), e.kindOf(question);
    var found := FoundIn(e, question, kind, scoped);
    AnswerOfIs(e, question, ranked);
    FoundInFits(e, question, kind, scoped);
    AllEvaluatedLinks(e, question, kind, Joined(Works(e, question, kind, scoped), |scoped|));
    DecidedExactlyWhenSupported(e, kind, found, Assessments(e, kind, scoped, found, |scoped|));
    if SomeSupported(e, found) { SupportedIsAssessed(e, kind, scoped, found); }
    if SomeAnswerable(Assessments(e, kind, scoped, found, |scoped|)) { AssessedIsSupported(e, kind, scoped, found); }
  }

  // ------------------------------------------------------------- conflicting values

  /** Two supported candidates that do not state the same. */
  predicate Conflict(e: Engine, kind: Kind, found: Found) {
    exists i, j :: 0 <= i < |found.candidates| && 0 <= j < |found.candidates|
      && found.candidates[i].score >= e.supportThreshold && found.candidates[j].score >= e.supportThreshold
      && KeyOf(e, kind, found.candidates[i].value) != KeyOf(e, kind, found.candidates[j].value)
  }

  /** The answer is that of a supported candidate that no other one exceeds. */
  ghost predicate AnswersBest(e: Engine, a: Answer, found: Found) {
    exists i :: 0 <= i < |found.candidates|
      && a.excerpt == Some(found.candidates[i].text) && a.document == Some(found.candidates[i].passage.chunk.documentId)
      && a.page == Some(found.candidates[i].passage.chunk.page) && a.confidence == found.candidates[i].score
      && a.answer == Stated(found.candidates[i])
      && forall j :: 0 <= j < |found.candidates| ==> found.candidates[j].score <= a.confidence
  }

  lemma DistinctConflicts(e: Engine, kind: Kind, found: Found, best: Candidate, other: Candidate)
    requires best in Ordered(e, found) && other in Ordered(e, found)
    requires KeyOf(e, kind, other.value) != KeyOf(e, kind, best.value)
    ensures Conflict(e, kind, found)
  {
    OrderedAre(e, found);
    var i :| 0 <= i < |found.candidates| && found.candidates[i] == best;
    var j :| 0 <= j < |found.candidates| && found.candidates[j] == other;
  }

  lemma AlikeDoNotConflict(e: Engine, kind: Kind, found: Found, best: Candidate)
    requires forall c :: c in Ordered(e, found) ==> KeyOf(e, kind, c.value) == KeyOf(e, kind, best.value)
    ensures !Conflict(e, kind, found)
  {
    OrderedAre(e, found);
    forall i | 0 <= i < |found.candidates| && found.candidates[i].score >= e.supportThreshold
      ensures KeyOf(e, kind, found.candidates[i].value) == KeyOf(e, kind, best.value)
    {
      assert found.candidates[i] in Ordered(e, found);
    }
  }

  lemma ConflictExactlyWhenDistinct(e: Engine, kind: Kind, found: Found)
    requires Ordered(e, found) != []
    ensures Conflict(e, kind, found) <==> FirstDistinct(e, kind, Ordered(e, found)[0], Ordered(e, found)[1..]).Some?
  {
    var s := Ordered(e, found);
    var other := FirstDistinct(e, kind, s[0], s[1..]);
    assert s == [s[0]] + s[1..];
    if other.Some? {
      DistinctConflicts(e, kind, found, s[0], other.value);
    } else {
      AlikeDoNotConflict(e, kind, found, s[0]);
    }
  }

  lemma BestIsFirst(e: Engine, kind: Kind, found: Found, assessments: seq<Assessment>)
    requires Ordered(e, found) != []
    ensures AnswersBest(e, DirectAnswer(e, kind, Ordered(e, found)[0], assessments), found)
  {
    var s := Ordered(e, found);
    OrderedAre(e, found);
    assert s[0] in s;
    var i :| 0 <= i < |found.candidates| && found.candidates[i] == s[0];
    forall j | 0 <= j < |found.candidates| ensures found.candidates[j].score <= s[0].score {
      if found.candidates[j].score >= e.supportThreshold {
        assert found.candidates[j] in s;
        var k :| 0 <= k < |s| && s[k] == found.candidates[j];
      }
    }
  }

  /**
    What is decided when evidence reaches the threshold: for a boolean, date, amount, duration or severity question
    the answer is ambiguous exactly when two supported candidates differ; otherwise the best candidate is answered.
   */
  lemma DecisionExactlyWhen(e: Engine, kind: Kind, found: Found, assessments: seq<Assessment>)
    requires SomeSupported(e, found)
    ensures var a := Decide(e, kind, found, assessments);
            && (a.status == Ambiguous <==> Conflicts(kind) && Conflict(e, kind, found))
            && (a.status == Answered <==> !(Conflicts(kind) && Conflict(e, kind, found)))
            && (a.status == Answered ==> AnswersBest(e, a, found))
  {
    DecidedExactlyWhenSupported(e, kind, found, assessments);
    ConflictExactlyWhenDistinct(e, kind, found);
    BestIsFirst(e, kind, found, assessments);
  }

  /** An answered question of a kind that can conflict has no two supported candidates that differ. */
  lemma AnsweredHasNoConflict(e: Engine, question: string, ranked: seq<Passage>)
    ensures var result := AnswerOf(e, question, ranked);
            var kind := e.kindOf(question);
            var found := FoundIn(e, question, kind, Scoped(e, question, ranked));
            result.Ok? && result.value.status == Answered ==>
              AnswersBest(e, result.value, found) && !(Conflicts(kind) && Conflict(e, kind, found))
  {
    var scoped, kind := Scoped(e, question, ranked), e.kindOf(question);
    var found := FoundIn(e, question, kind, scoped);
    AnswerOfIs(e, question, ranked);
    DecidedExactlyWhenSupported(e, kind, found, Assessments(e, kind, scoped, found, |scoped|));
    if SomeSupported(e, found) { DecisionExactlyWhen(e, kind, found, Assessments(e, kind, scoped, found, |scoped|)); }
  }
}
