/** When each answer is due: what the engine does with every question, in terms of the passages and what they say. */
module DecisionOutcomes {
  import opened Common
  import opened Text
  import Sanitizer
  import Ranking
  import opened Grounding
  import opened Answering
  import opened Decision

  // ------------------------------------------------------------- the early endings

  predicate InScope(e: Engine, question: string, ranked: seq<Passage>, p: Passage) {
    var allowed := e.scope(question, ranked);
    allowed.None? || p.chunk.documentId in allowed.value
  }

  predicate NothingInScope(e: Engine, question: string, ranked: seq<Passage>) {
    forall i :: 0 <= i < |ranked| ==> !InScope(e, question, ranked, ranked[i])
  }

  /** An abstention with a message and no evidence, its assessments given one per passage. */
  predicate Abstains(result: Result<Answer, Failure>, message: string, passages: seq<Passage>) {
    && result.Ok? && result.value.status == Abstained && !result.value.answerable && result.value.answer == message
    && result.value.document.None? && result.value.page.None? && result.value.excerpt.None? && result.value.reason.None?
    && result.value.fields == map[] && result.value.chunkIds == [] && result.value.citations == []
    && |result.value.assessments| == |passages|
    && forall i :: 0 <= i < |passages| ==> NotAssessed(result.value.assessments[i], passages[i])
  }

  predicate NotAssessed(a: Assessment, p: Passage) {
    !a.answerable && a.answer.None? && a.excerpt.None? && a.fields == map[] && a.chunkId == p.chunk.id
  }

  lemma ScopedIsInScope(e: Engine, question: string, ranked: seq<Passage>)
    ensures forall p :: p in Scoped(e, question, ranked) <==> p in ranked && InScope(e, question, ranked, p)
    ensures Scoped(e, question, ranked) == [] <==> NothingInScope(e, question, ranked)
  {
    var scope, scoped := e.scope(question, ranked), Scoped(e, question, ranked);
    if scope.Some? {
      InDocumentsAreRanked(ranked, scope.value, |ranked|);
      assert ranked[..|ranked|] == ranked;
    }
    if scoped != [] {
      assert scoped[0] in scoped;
    } else {
      forall i | 0 <= i < |ranked| ensures !InScope(e, question, ranked, ranked[i]) {
        assert ranked[i] !in scoped;
      }
    }
  }

  /** The passages in scope, in their order: `at` lists the indexes they have among all passages. */
  lemma {:induction false} ScopeKeepsOrder(ranked: seq<Passage>, allowed: set<string>, n: nat) returns (at: seq<nat>)
    requires n <= |ranked|
    ensures |at| == |InDocuments(ranked, allowed, n)|
    ensures forall k :: 0 <= k < |at| ==> at[k] < n && InDocuments(ranked, allowed, n)[k] == ranked[at[k]]
    ensures forall k, l :: 0 <= k < l < |at| ==> at[k] < at[l]
    ensures forall i :: 0 <= i < n && ranked[i].chunk.documentId in allowed ==> i in at
  {
    at := [];
    if n > 0 {
      at := ScopeKeepsOrder(ranked, allowed, n - 1);
      if ranked[n - 1].chunk.documentId in allowed { at := at + [n - 1]; }
    }
  }

  /**
    What the engine does with each question. Exactly the unsafe ones are refused; of the others, one without passages
    or without passages in scope is abstained from for lack of evidence, one that asks for many facts for that reason,
    a blank one raises, and every other one gets the answer built from the passages in scope, unless trust fails.
   */
  lemma EveryQuestionIsAnswered(e: Engine, question: string, ranked: seq<Passage>)
    ensures var result, scoped := AnswerOf(e, question, ranked), Scoped(e, question, ranked);
            var many, none := e.kindOf(question) == MultiSlot, NothingInScope(e, question, ranked);
            && (e.unsafe(question) ==> Abstains(result, e.wording(Refused), ranked))
            && (!e.unsafe(question) && ranked == [] ==> Abstains(result, e.wording(Insufficient), []))
            && (!e.unsafe(question) && ranked != [] && many ==> Abstains(result, e.wording(ManyFacts), []))
            && (!e.unsafe(question) && ranked != [] && !many && none ==> Abstains(result, e.wording(Insufficient), []))
            && (!e.unsafe(question) && !many && !none && Blank(question) ==> result == Err(BlankQuestion))
            && (!e.unsafe(question) && !many && !none && !Blank(question) ==>
                  result == Checked(e, Built(e, question, scoped), scoped))
  {
    ScopedIsInScope(e, question, ranked);
  }

  // ---------------------------------------------------------------- evidence texts

  /** A text the engine reads in a passage: a segment that is neither blocked nor a heading, or a date clause of one. */
  ghost predicate ReadIn(e: Engine, question: string, kind: Kind, p: Passage, text: string) {
    var segments := Segments(p.chunk.text);
    exists j :: 0 <= j < |segments|
      && !Sanitizer.Blocked(segments[j], e.untrusted, Sanitizer.GroupRejected(segments, e.untrusted)) && !e.heading(segments[j])
      && (if kind == Date then text in e.dateClauses(segments[j], question) else text == segments[j])
  }

  /** Outside yes/no and status questions, a text that denies the relation or states its absence is no evidence. */
  predicate Denies(e: Engine, question: string, kind: Kind, text: string) {
    kind != Boolean && kind != StatusKind && e.denies(question, text, kind)
  }

  ghost predicate Evidence(e: Engine, question: string, kind: Kind, p: Passage, text: string) {
    ReadIn(e, question, kind, p, text) && !Denies(e, question, kind, text) && !Sanitizer.Untrusted(text, e.untrusted)
  }

  /** The text states a value of the kind asked for and is about the relation asked for. */
  predicate States(e: Engine, question: string, kind: Kind, text: string) {
    e.value(kind, text, question).Some? && e.relatedBySense(question, text, kind)
  }

  /** The text identifies the relation well enough without stating the value. */
  predicate Touches(e: Engine, question: string, kind: Kind, text: string) {
    && !States(e, question, kind, text) && Support(e, question, text, kind) >= e.partialThreshold
    && e.explicitlyRelated(question, text) && !(kind == Date && e.pastEvent(question))
  }

  predicate Worked(work: Work, p: Passage, text: string) {
    exists k :: 0 <= k < |work| && work[k] == (p, text)
  }

  lemma WorkedAppend(a: Work, b: Work, p: Passage, text: string)
    ensures Worked(a + b, p, text) <==> Worked(a, p, text) || Worked(b, p, text)
  {
    if Worked(a, p, text) {
      var k :| 0 <= k < |a| && a[k] == (p, text);
      assert (a + b)[k] == (p, text);
    }
    if Worked(b, p, text) {
      var k :| 0 <= k < |b| && b[k] == (p, text);
      assert (a + b)[|a| + k] == (p, text);
    }
  }

  lemma {:induction false} PairsWork(q: Passage, texts: seq<string>, n: nat, p: Passage, text: string)
    requires n <= |texts|
    ensures Worked(Pairs(q, texts, n), p, text) <==> p == q && text in texts[..n]
  {
    if n > 0 {
      PairsWork(q, texts, n - 1, p, text);
      WorkedAppend(Pairs(q, texts, n - 1), [(q, texts[n - 1])], p, text);
      assert texts[..n] == texts[..n - 1] + [texts[n - 1]];
      assert Worked([(q, texts[n - 1])], p, text) <==> [(q, texts[n - 1])][0] == (p, text);
    }
  }

  lemma {:induction false} JoinedWork(works: seq<Work>, n: nat, p: Passage, text: string)
    requires n <= |works|
    ensures Worked(Joined(works, n), p, text) <==> exists i :: 0 <= i < n && Worked(works[i], p, text)
  {
    if n > 0 {
      JoinedWork(works, n - 1, p, text);
      WorkedAppend(Joined(works, n - 1), works[n - 1], p, text);
    }
  }

  lemma SegmentWork(e: Engine, question: string, kind: Kind, q: Passage, segments: seq<string>, j: nat, p: Passage, text: string)
    requires j < |segments|
    ensures Worked(OneSegment(e, question, kind, q, segments, j), p, text) <==>
            && p == q && !Sanitizer.Blocked(segments[j], e.untrusted, Sanitizer.GroupRejected(segments, e.untrusted))
            && !e.heading(segments[j])
            && (if kind == Date then text in e.dateClauses(segments[j], question) else text == segments[j])
  {
    var texts := TextsIn(e, question, kind, segments[j]);
    PairsWork(q, texts, |texts|, p, text);
    assert texts[..|texts|] == texts;
  }

  lemma PassageWork(e: Engine, question: string, kind: Kind, q: Passage, p: Passage, text: string)
    ensures Worked(OnePassage(e, question, kind, q), p, text) <==> p == q && ReadIn(e, question, kind, p, text)
  {
    var segments := Segments(q.chunk.text);
    var works := SegmentWorks(e, question, kind, q, segments);
    JoinedWork(works, |segments|, p, text);
    forall j | 0 <= j < |segments|
      ensures Worked(works[j], p, text) <==>
              && p == q && !Sanitizer.Blocked(segments[j], e.untrusted, Sanitizer.GroupRejected(segments, e.untrusted))
              && !e.heading(segments[j])
              && (if kind == Date then text in e.dateClauses(segments[j], question) else text == segments[j])
    {
      SegmentWork(e, question, kind, q, segments, j, p, text);
    }
  }

  /** The loops evaluate exactly the texts read in the passages. */
  lemma AllWork(e: Engine, question: string, kind: Kind, ranked: seq<Passage>, p: Passage, text: string)
    ensures Worked(Joined(Works(e, question, kind, ranked), |ranked|), p, text) <==>
            Among(p, ranked) && ReadIn(e, question, kind, p, text)
  {
    var works := Works(e, question, kind, ranked);
    JoinedWork(works, |ranked|, p, text);
    forall i | 0 <= i < |ranked| ensures Worked(works[i], p, text) <==> p == ranked[i] && ReadIn(e, question, kind, p, text) {
      PassageWork(e, question, kind, ranked[i], p, text);
    }
  }

  /** A candidate is the value stated by a text, with the text's support. */
  predicate CandidateFrom(e: Engine, question: string, kind: Kind, p: Passage, text: string, c: Candidate) {
    && !Denies(e, question, kind, text) && !Sanitizer.Untrusted(text, e.untrusted) && States(e, question, kind, text)
    && c == Candidate(Support(e, question, text, kind), text, e.value(kind, text, question).value, p)
  }

  predicate PartialFrom(e: Engine, question: string, kind: Kind, p: Passage, text: string, c: Partial) {
    && !Denies(e, question, kind, text) && !Sanitizer.Untrusted(text, e.untrusted) && Touches(e, question, kind, text)
    && c == Partial(Support(e, question, text, kind), text, p)
  }

  /** A text adds at most one candidate or one partial. */
  lemma TextAdds(e: Engine, question: string, kind: Kind, p: Passage, text: string, found: Found)
    returns (candidates: seq<Candidate>, partials: seq<Partial>)
    ensures Evaluated(e, question, kind, p, text, found).candidates == found.candidates + candidates
    ensures Evaluated(e, question, kind, p, text, found).partials == found.partials + partials
    ensures forall c :: c in candidates <==> CandidateFrom(e, question, kind, p, text, c)
    ensures forall c :: c in partials <==> PartialFrom(e, question, kind, p, text, c)
  {
    candidates, partials := [], [];
    if !Denies(e, question, kind, text) && !Sanitizer.Untrusted(text, e.untrusted) {
      var score := Support(e, question, text, kind);
      if States(e, question, kind, text) {
        candidates := [Candidate(score, text, e.value(kind, text, question).value, p)];
      } else if Touches(e, question, kind, text) {
        partials := [Partial(score, text, p)];
      }
    }
    assert found.candidates + [] == found.candidates && found.partials + [] == found.partials;
  }

  lemma TextAddsEach(e: Engine, question: string, kind: Kind, p: Passage, text: string, found: Found)
    ensures forall c :: c in Evaluated(e, question, kind, p, text, found).candidates <==>
                        c in found.candidates || CandidateFrom(e, question, kind, p, text, c)
    ensures forall c :: c in Evaluated(e, question, kind, p, text, found).partials <==>
                        c in found.partials || PartialFrom(e, question, kind, p, text, c)
  {
    var candidates, partials := TextAdds(e, question, kind, p, text, found);
  }

  lemma {:induction false} WorkAdds(e: Engine, question: string, kind: Kind, work: Work)
    ensures forall c :: c in EvaluateAll(e, question, kind, work).candidates <==>
                        exists p, text :: Worked(work, p, text) && CandidateFrom(e, question, kind, p, text, c)
    ensures forall c :: c in EvaluateAll(e, question, kind, work).partials <==>
                        exists p, text :: Worked(work, p, text) && PartialFrom(e, question, kind, p, text, c)
  {
    if work != [] {
      var n := |work| - 1;
      var before, last := work[..n], work[n];
      WorkAdds(e, question, kind, before);
      TextAddsEach(e, question, kind, last.0, last.1, EvaluateAll(e, question, kind, before));
      forall p, text ensures Worked(work, p, text) <==> Worked(before, p, text) || (p, text) == last {
        WorkedAppend(before, [last], p, text);
        assert work == before + [last];
        assert Worked([last], p, text) <==> [last][0] == (p, text);
      }
    }
  }

  /** Evidence in some passage that states a value with enough support. */
  ghost predicate Supports(e: Engine, question: string, kind: Kind, ranked: seq<Passage>, p: Passage, text: string) {
    && Among(p, ranked) && Evidence(e, question, kind, p, text) && States(e, question, kind, text)
    && Support(e, question, text, kind) >= e.supportThreshold
  }

  ghost predicate Suggests(e: Engine, question: string, kind: Kind, ranked: seq<Passage>, p: Passage, text: string) {
    Among(p, ranked) && Evidence(e, question, kind, p, text) && Touches(e, question, kind, text)
  }

  function CandidateOf(e: Engine, question: string, kind: Kind, p: Passage, text: string): Candidate
    requires States(e, question, kind, text)
  {
    Candidate(Support(e, question, text, kind), text, e.value(kind, text, question).value, p)
  }

  lemma CandidateIsEvidence(e: Engine, question: string, kind: Kind, ranked: seq<Passage>, c: Candidate)
    ensures c in FoundIn(e, question, kind, ranked).candidates <==>
            && Among(c.passage, ranked) && Evidence(e, question, kind, c.passage, c.text) && States(e, question, kind, c.text)
            && c == CandidateOf(e, question, kind, c.passage, c.text)
  {
    var work := Joined(Works(e, question, kind, ranked), |ranked|);
    WorkAdds(e, question, kind, work);
    AllWork(e, question, kind, ranked, c.passage, c.text);
    if c in FoundIn(e, question, kind, ranked).candidates {
      var p, text :| Worked(work, p, text) && CandidateFrom(e, question, kind, p, text, c);
    } else if Worked(work, c.passage, c.text) {
      assert !CandidateFrom(e, question, kind, c.passage, c.text, c);
    }
  }

  lemma PartialIsEvidence(e: Engine, question: string, kind: Kind, ranked: seq<Passage>, c: Partial)
    ensures c in FoundIn(e, question, kind, ranked).partials <==>
            && Among(c.passage, ranked) && Evidence(e, question, kind, c.passage, c.text) && Touches(e, question, kind, c.text)
            && c == Partial(Support(e, question, c.text, kind), c.text, c.passage)
  {
    var work := Joined(Works(e, question, kind, ranked), |ranked|);
    WorkAdds(e, question, kind, work);
    AllWork(e, question, kind, ranked, c.passage, c.text);
    if c in FoundIn(e, question, kind, ranked).partials {
      var p, text :| Worked(work, p, text) && PartialFrom(e, question, kind, p, text, c);
    } else if Worked(work, c.passage, c.text) {
      assert !PartialFrom(e, question, kind, c.passage, c.text, c);
    }
  }

  /** Supported candidates are the texts that support a value. */
  lemma SupportedAreSupports(e: Engine, question: string, kind: Kind, ranked: seq<Passage>, c: Candidate)
    ensures c in Ordered(e, FoundIn(e, question, kind, ranked)) <==>
            Supports(e, question, kind, ranked, c.passage, c.text) && c == CandidateOf(e, question, kind, c.passage, c.text)
  {
    OrderedAre(e, FoundIn(e, question, kind, ranked));
    CandidateIsEvidence(e, question, kind, ranked, c);
  }

  // ------------------------------------------------------------- the best candidate

  /** `a` is to be preferred: by support, then by the passage's score, then by the smaller chunk id. */
  predicate Preferred(a: Candidate, b: Candidate) {
    || a.score > b.score
    || (a.score == b.score && a.passage.score > b.passage.score)
    || (a.score == b.score && a.passage.score == b.passage.score && Ranking.Less(a.passage.chunk.id, b.passage.chunk.id))
  }

  lemma PreferredIsOrder(a: Candidate, b: Candidate, c: Candidate)
    ensures Preferred(a, b) == Before(a, b) && !(Preferred(a, b) && Preferred(b, a)) && !Preferred(a, a)
    ensures !Preferred(b, a) && !Preferred(c, b) ==> !Preferred(c, a)
  {
    var i, j, k := a.passage.chunk.id, b.passage.chunk.id, c.passage.chunk.id;
    Ranking.LessIsTotal(i, j);
    Ranking.LessIsTotal(j, k);
    Ranking.LessIsTotal(i, i);
    if Ranking.Less(k, i) && Ranking.Less(i, j) { Ranking.LessIsTransitive(k, i, j); }
    if Ranking.Less(j, k) && Ranking.Less(k, i) { Ranking.LessIsTransitive(j, k, i); }
  }

  predicate NonePreferredLater(s: seq<Candidate>) {
    forall i, j :: 0 <= i < j < |s| ==> !Preferred(s[j], s[i])
  }

  lemma NonePreferredCons(x: Candidate, s: seq<Candidate>)
    requires NonePreferredLater(s) && forall i :: 0 <= i < |s| ==> !Preferred(s[i], x)
    ensures NonePreferredLater([x] + s)
  {
  }

  lemma {:induction false} InsertKeepsPreference(x: Candidate, s: seq<Candidate>)
    requires NonePreferredLater(s)
    ensures NonePreferredLater(Insert(x, s))
  {
    if s != [] {
      PreferredIsOrder(x, s[0], s[0]);
      PreferredIsOrder(s[0], x, x);
      if Before(x, s[0]) {
        forall i | 0 <= i < |s| ensures !Preferred(s[i], x) {
          PreferredIsOrder(x, s[0], s[i]);
          PreferredIsOrder(s[0], s[0], s[0]);
        }
        NonePreferredCons(x, s);
      } else {
        var r := Insert(x, s[1..]);
        InsertKeepsPreference(x, s[1..]);
        InsertAdds(x, s[1..]);
        forall i | 0 <= i < |r| ensures !Preferred(r[i], s[0]) {
          assert r[i] in multiset(r);
        }
        NonePreferredCons(s[0], r);
      }
    }
  }

  lemma {:induction false} SortKeepsPreference(s: seq<Candidate>, n: nat)
    requires n <= |s|
    ensures NonePreferredLater(SortCandidates(s, n))
  {
    if n > 0 {
      SortKeepsPreference(s, n - 1);
      InsertKeepsPreference(s[n - 1], SortCandidates(s, n - 1));
    }
  }

  lemma {:induction false} FilterKeepsPreference(s: seq<Candidate>, threshold: real)
    requires NonePreferredLater(s)
    ensures NonePreferredLater(Supported(s, threshold))
  {
    if s != [] {
      FilterKeepsPreference(s[1..], threshold);
      SupportedAre(s[1..], threshold);
      var r := Supported(s[1..], threshold);
      if s[0].score >= threshold {
        forall i | 0 <= i < |r| ensures !Preferred(r[i], s[0]) {
          assert r[i] in r;
          var k :| 0 <= k < |s[1..]| && s[1..][k] == r[i];
        }
        NonePreferredCons(s[0], r);
      }
    }
  }

  lemma FirstOrderedIsBest(e: Engine, found: Found)
    requires Ordered(e, found) != []
    ensures forall c :: c in Ordered(e, found) ==> !Preferred(c, Ordered(e, found)[0])
  {
    var s := SortCandidates(found.candidates, |found.candidates|);
    SortKeepsPreference(found.candidates, |found.candidates|);
    FilterKeepsPreference(s, e.supportThreshold);
    var t := Ordered(e, found);
    PreferredIsOrder(t[0], t[0], t[0]);
  }

  // ---------------------------------------------------------------- what is decided

  ghost predicate SomeSupports(e: Engine, question: string, kind: Kind, ranked: seq<Passage>) {
    exists p, text :: Supports(e, question, kind, ranked, p, text)
  }

  ghost predicate SomeSuggests(e: Engine, question: string, kind: Kind, ranked: seq<Passage>) {
    exists p, text :: Suggests(e, question, kind, ranked, p, text)
  }

  /** The values of two texts are not the same: as verdicts for yes/no questions, otherwise once folded. */
  predicate Differs(e: Engine, question: string, kind: Kind, text: string, other: string)
    requires e.value(kind, text, question).Some? && e.value(kind, other, question).Some?
  {
    KeyOf(e, kind, e.value(kind, text, question).value) != KeyOf(e, kind, e.value(kind, other, question).value)
  }

  /** Two texts support values that differ. */
  ghost predicate Disagree(e: Engine, question: string, kind: Kind, ranked: seq<Passage>) {
    exists p, text, q, other :: Supports(e, question, kind, ranked, p, text) && Supports(e, question, kind, ranked, q, other)
      && Differs(e, question, kind, text, other)
  }

  /** No text that supports a value is preferred to `text` in `p`. */
  ghost predicate BestSupport(e: Engine, question: string, kind: Kind, ranked: seq<Passage>, p: Passage, text: string) {
    && Supports(e, question, kind, ranked, p, text)
    && forall q, other :: Supports(e, question, kind, ranked, q, other) ==>
         !Preferred(CandidateOf(e, question, kind, q, other), CandidateOf(e, question, kind, p, text))
  }

  lemma OrderedExactlyWhen(e: Engine, question: string, kind: Kind, ranked: seq<Passage>)
    ensures Ordered(e, FoundIn(e, question, kind, ranked)) != [] <==> SomeSupports(e, question, kind, ranked)
    ensures Ordered(e, FoundIn(e, question, kind, ranked)) != [] ==>
              var best := Ordered(e, FoundIn(e, question, kind, ranked))[0];
              BestSupport(e, question, kind, ranked, best.passage, best.text)
              && best == CandidateOf(e, question, kind, best.passage, best.text)
  {
    var found := FoundIn(e, question, kind, ranked);
    var s := Ordered(e, found);
    if s != [] {
      assert s[0] in s;
      SupportedAreSupports(e, question, kind, ranked, s[0]);
      FirstOrderedIsBest(e, found);
      forall q, other | Supports(e, question, kind, ranked, q, other)
        ensures !Preferred(CandidateOf(e, question, kind, q, other), s[0])
      {
        SupportedAreSupports(e, question, kind, ranked, CandidateOf(e, question, kind, q, other));
      }
    }
    if SomeSupports(e, question, kind, ranked) {
      var p, text :| Supports(e, question, kind, ranked, p, text);
      SupportedAreSupports(e, question, kind, ranked, CandidateOf(e, question, kind, p, text));
    }
  }

  /** The one citation of a text in a passage. */
  predicate CitesText(c: Citation, p: Passage, text: string) {
    c == Citation(p.chunk.id, p.chunk.documentId, p.chunk.documentName, p.chunk.page, p.chunk.section, text)
  }

  /** The answer rests on `text` in `p`: that is its excerpt, its location and its first citation. */
  predicate RestsOn(a: Answer, p: Passage, text: string) {
    && a.excerpt == Some(text) && a.document == Some(p.chunk.documentId) && a.page == Some(p.chunk.page)
    && a.citations != [] && CitesText(a.citations[0], p, text) && a.chunkIds != [] && a.chunkIds[0] == p.chunk.id
  }

  /** A direct answer: the stated value, or the text itself where the value is empty. */
  predicate AnswersWith(e: Engine, question: string, kind: Kind, a: Answer, p: Passage, text: string) {
    && RestsOn(a, p, text) && |a.citations| == |a.chunkIds| == 1 && a.status == Answered && a.answerable && a.reason.None?
    && a.confidence == Support(e, question, text, kind) && e.value(kind, text, question).Some?
    && a.answer == (if e.value(kind, text, question).value != "" then e.value(kind, text, question).value else text)
    && a.fields == if kind == Boolean then map[] else map[e.fieldName(kind) := [a.answer]]
  }

  /** An ambiguous answer rests on the preferred text and also cites one that differs. */
  predicate WaversBetween(e: Engine, question: string, kind: Kind, a: Answer, p: Passage, text: string, q: Passage, other: string) {
    && RestsOn(a, p, text) && |a.citations| == |a.chunkIds| == 2 && a.status == Ambiguous && !a.answerable
    && CitesText(a.citations[1], q, other) && a.chunkIds[1] == q.chunk.id && a.fields == map[]
    && a.answer == e.wording(Conflicting) && a.reason == Some(e.wording(ConflictReason))
    && a.confidence == Min(Support(e, question, text, kind), Support(e, question, other, kind))
  }

  predicate Points(e: Engine, question: string, kind: Kind, a: Answer, p: Passage, text: string) {
    && RestsOn(a, p, text) && |a.citations| == |a.chunkIds| == 1 && a.status == PartiallySupported && !a.answerable
    && a.fields == map[] && a.answer == e.wording(ValueNotStated) && a.reason == Some(e.wording(RelationOnly))
    && a.confidence == Support(e, question, text, kind)
  }

  ghost predicate AnswersBestSupport(e: Engine, question: string, kind: Kind, ranked: seq<Passage>, a: Answer) {
    exists p, text :: BestSupport(e, question, kind, ranked, p, text) && AnswersWith(e, question, kind, a, p, text)
  }

  ghost predicate WaversAtBest(e: Engine, question: string, kind: Kind, ranked: seq<Passage>, a: Answer) {
    exists p, text, q, other :: BestSupport(e, question, kind, ranked, p, text) && Supports(e, question, kind, ranked, q, other)
      && Differs(e, question, kind, text, other) && WaversBetween(e, question, kind, a, p, text, q, other)
  }

  ghost predicate PointsAtBest(e: Engine, question: string, kind: Kind, ranked: seq<Passage>, a: Answer) {
    exists p, text :: Suggests(e, question, kind, ranked, p, text) && Points(e, question, kind, a, p, text)
      && forall q, other :: Suggests(e, question, kind, ranked, q, other) ==> Support(e, question, other, kind) <= a.confidence
  }

  lemma DisagreementConflicts(e: Engine, question: string, kind: Kind, ranked: seq<Passage>, p: Passage, text: string, q: Passage, other: string)
    requires Supports(e, question, kind, ranked, p, text) && Supports(e, question, kind, ranked, q, other)
    requires Differs(e, question, kind, text, other)
    ensures Conflict(e, kind, FoundIn(e, question, kind, ranked))
  {
    var c, d := CandidateOf(e, question, kind, p, text), CandidateOf(e, question, kind, q, other);
    SupportedAreSupports(e, question, kind, ranked, c);
    SupportedAreSupports(e, question, kind, ranked, d);
    DistinctConflicts(e, kind, FoundIn(e, question, kind, ranked), d, c);
  }

  lemma ConflictDisagrees(e: Engine, question: string, kind: Kind, ranked: seq<Passage>)
    requires Conflict(e, kind, FoundIn(e, question, kind, ranked))
    ensures Disagree(e, question, kind, ranked)
  {
    var found := FoundIn(e, question, kind, ranked);
    var i, j :| 0 <= i < |found.candidates| && 0 <= j < |found.candidates|
      && found.candidates[i].score >= e.supportThreshold && found.candidates[j].score >= e.supportThreshold
      && KeyOf(e, kind, found.candidates[i].value) != KeyOf(e, kind, found.candidates[j].value);
    var c, d := found.candidates[i], found.candidates[j];
    OrderedAre(e, found);
    SupportedAreSupports(e, question, kind, ranked, c);
    SupportedAreSupports(e, question, kind, ranked, d);
    assert Differs(e, question, kind, c.text, d.text);
  }

  lemma DisagreeExactlyWhenConflict(e: Engine, question: string, kind: Kind, ranked: seq<Passage>)
    ensures Disagree(e, question, kind, ranked) <==> Conflict(e, kind, FoundIn(e, question, kind, ranked))
  {
    if Disagree(e, question, kind, ranked) {
      var p, text, q, other :| Supports(e, question, kind, ranked, p, text) && Supports(e, question, kind, ranked, q, other)
        && Differs(e, question, kind, text, other);
      DisagreementConflicts(e, question, kind, ranked, p, text, q, other);
    }
    if Conflict(e, kind, FoundIn(e, question, kind, ranked)) { ConflictDisagrees(e, question, kind, ranked); }
  }

  lemma WaversWhenConflicting(e: Engine, question: string, kind: Kind, ranked: seq<Passage>, assessments: seq<Assessment>)
    requires SomeSupports(e, question, kind, ranked) && Conflicts(kind) && Disagree(e, question, kind, ranked)
    ensures WaversAtBest(e, question, kind, ranked, Decide(e, kind, FoundIn(e, question, kind, ranked), assessments))
  {
    var found := FoundIn(e, question, kind, ranked);
    var s := Ordered(e, found);
    OrderedExactlyWhen(e, question, kind, ranked);
    DisagreeExactlyWhenConflict(e, question, kind, ranked);
    ConflictExactlyWhenDistinct(e, kind, found);
    var other := FirstDistinct(e, kind, s[0], s[1..]).value;
    assert other in s;
    SupportedAreSupports(e, question, kind, ranked, other);
    WaversOver(e, question, kind, ranked, assessments, s[0], other);
  }

  lemma WaversOver(e: Engine, question: string, kind: Kind, ranked: seq<Passage>, assessments: seq<Assessment>, best: Candidate, other: Candidate)
    requires BestSupport(e, question, kind, ranked, best.passage, best.text) && best == CandidateOf(e, question, kind, best.passage, best.text)
    requires Supports(e, question, kind, ranked, other.passage, other.text) && other == CandidateOf(e, question, kind, other.passage, other.text)
    requires KeyOf(e, kind, other.value) != KeyOf(e, kind, best.value)
    ensures WaversAtBest(e, question, kind, ranked, AmbiguousAnswer(e, best, other, assessments))
  {
    var a := AmbiguousAnswer(e, best, other, assessments);
    assert WaversBetween(e, question, kind, a, best.passage, best.text, other.passage, other.text);
    assert Differs(e, question, kind, best.text, other.text);
  }

  lemma AnswersWhenAgreed(e: Engine, question: string, kind: Kind, ranked: seq<Passage>, assessments: seq<Assessment>)
    requires SomeSupports(e, question, kind, ranked) && !(Conflicts(kind) && Disagree(e, question, kind, ranked))
    ensures AnswersBestSupport(e, question, kind, ranked, Decide(e, kind, FoundIn(e, question, kind, ranked), assessments))
  {
    var found := FoundIn(e, question, kind, ranked);
    OrderedExactlyWhen(e, question, kind, ranked);
    DisagreeExactlyWhenConflict(e, question, kind, ranked);
    ConflictExactlyWhenDistinct(e, kind, found);
    var best := Ordered(e, found)[0];
    assert AnswersWith(e, question, kind, DirectAnswer(e, kind, best, assessments), best.passage, best.text);
  }

  function PartialOf(e: Engine, question: string, kind: Kind, p: Passage, text: string): Partial {
    Partial(Support(e, question, text, kind), text, p)
  }

  /** The partials are exactly the texts that touch the relation. */
  ghost predicate PartialsAre(e: Engine, question: string, kind: Kind, ranked: seq<Passage>, partials: seq<Partial>) {
    forall c :: c in partials <==>
      Suggests(e, question, kind, ranked, c.passage, c.text) && c == PartialOf(e, question, kind, c.passage, c.text)
  }

  lemma FoundPartialsAre(e: Engine, question: string, kind: Kind, ranked: seq<Passage>)
    ensures PartialsAre(e, question, kind, ranked, FoundIn(e, question, kind, ranked).partials)
  {
    var partials := FoundIn(e, question, kind, ranked).partials;
    forall c ensures c in partials <==>
                     Suggests(e, question, kind, ranked, c.passage, c.text) && c == PartialOf(e, question, kind, c.passage, c.text)
    {
      PartialIsEvidence(e, question, kind, ranked, c);
    }
  }

  lemma SomeSuggestsExactlyWhen(e: Engine, question: string, kind: Kind, ranked: seq<Passage>, partials: seq<Partial>)
    requires PartialsAre(e, question, kind, ranked, partials)
    ensures SomeSuggests(e, question, kind, ranked) <==> partials != []
  {
    if partials != [] { assert partials[0] in partials; }
    if SomeSuggests(e, question, kind, ranked) {
      var p, text :| Suggests(e, question, kind, ranked, p, text);
      assert PartialOf(e, question, kind, p, text) in partials;
    }
  }

  lemma BestPartialIsTop(partials: seq<Partial>)
    requires partials != []
    ensures BestPartial(partials, |partials|) in partials
    ensures forall c :: c in partials ==> c.score <= BestPartial(partials, |partials|).score
  {
    var best := BestPartial(partials, |partials|);
    assert partials[..|partials|] == partials;
    forall c | c in partials ensures c.score <= best.score {
      var i :| 0 <= i < |partials| && partials[i] == c;
    }
  }

  lemma PartialPoints(e: Engine, question: string, kind: Kind, best: Partial, assessments: seq<Assessment>)
    requires best == PartialOf(e, question, kind, best.passage, best.text)
    ensures Points(e, question, kind, PartialAnswer(e, best, assessments), best.passage, best.text)
  {
  }

  lemma BestPartialPoints(e: Engine, question: string, kind: Kind, ranked: seq<Passage>, assessments: seq<Assessment>, partials: seq<Partial>, best: Partial)
    requires PartialsAre(e, question, kind, ranked, partials) && best in partials && forall c :: c in partials ==> c.score <= best.score
    ensures PointsAtBest(e, question, kind, ranked, PartialAnswer(e, best, assessments))
  {
    var a := PartialAnswer(e, best, assessments);
    PartialPoints(e, question, kind, best, assessments);
    assert a.confidence == best.score;
    forall q, other | Suggests(e, question, kind, ranked, q, other) ensures Support(e, question, other, kind) <= a.confidence {
      assert PartialOf(e, question, kind, q, other) in partials;
    }
  }

  lemma UnsupportedDecision(e: Engine, kind: Kind, found: Found, assessments: seq<Assessment>)
    requires Ordered(e, found) == []
    ensures Decide(e, kind, found, assessments) ==
            if found.partials == [] then AbstainedAnswer(e.wording(Insufficient), assessments)
            else PartialAnswer(e, BestPartial(found.partials, |found.partials|), assessments)
  {
  }

  lemma PointsWhenSuggested(e: Engine, question: string, kind: Kind, ranked: seq<Passage>, assessments: seq<Assessment>)
    requires !SomeSupports(e, question, kind, ranked)
    ensures var a := Decide(e, kind, FoundIn(e, question, kind, ranked), assessments);
            if SomeSuggests(e, question, kind, ranked) then PointsAtBest(e, question, kind, ranked, a) && a.status == PartiallySupported
            else a == AbstainedAnswer(e.wording(Insufficient), assessments)
  {
    var found := FoundIn(e, question, kind, ranked);
    OrderedExactlyWhen(e, question, kind, ranked);
    UnsupportedDecision(e, kind, found, assessments);
    FoundPartialsAre(e, question, kind, ranked);
    SomeSuggestsExactlyWhen(e, question, kind, ranked, found.partials);
    if found.partials != [] {
      BestPartialIsTop(found.partials);
      BestPartialPoints(e, question, kind, ranked, assessments, found.partials, BestPartial(found.partials, |found.partials|));
    }
  }

  /**
    What is built from the passages in scope. If some text supports a value, the preferred such text is answered,
    unless the kind can conflict and two texts support values that differ: then it is ambiguous. If none does but some
    text touches the relation, the best of those is pointed at. Otherwise the engine abstains.
   */
  lemma BuiltExactlyWhen(e: Engine, question: string, scoped: seq<Passage>)
    ensures var a, kind := Built(e, question, scoped), e.kindOf(question);
            var supported := SomeSupports(e, question, kind, scoped);
            var conflict := kind in {Boolean, Date, Amount, Duration, Severity} && Disagree(e, question, kind, scoped);
            && (a.status == Answered <==> supported && !conflict)
            && (a.status == Ambiguous <==> supported && conflict)
            && (a.status == PartiallySupported <==> !supported && SomeSuggests(e, question, kind, scoped))
            && (a.status == Abstained <==> !supported && !SomeSuggests(e, question, kind, scoped))
            && (a.status == Answered ==> AnswersBestSupport(e, question, kind, scoped, a))
            && (a.status == Ambiguous ==> WaversAtBest(e, question, kind, scoped, a))
            && (a.status == PartiallySupported ==> PointsAtBest(e, question, kind, scoped, a))
            && (a.status == Abstained ==> a.answer == e.wording(Insufficient) && a.excerpt.None? && a.citations == [] && a.fields == map[])
  {
    var kind := e.kindOf(question);
    var assessments := Assessments(e, kind, scoped, FoundIn(e, question, kind, scoped), |scoped|);
    if !SomeSupports(e, question, kind, scoped) {
      PointsWhenSuggested(e, question, kind, scoped, assessments);
    } else if Conflicts(kind) && Disagree(e, question, kind, scoped) {
      WaversWhenConflicting(e, question, kind, scoped, assessments);
    } else {
      AnswersWhenAgreed(e, question, kind, scoped, assessments);
    }
  }

  // ----------------------------------------------------------------- the assessments

  /** What an evidence text leaves for the assessment of its passage: nothing but its text if it denies the relation. */
  predicate RowFrom(e: Engine, question: string, kind: Kind, text: string, row: Row) {
    if Denies(e, question, kind, text) then row == Row(0.0, text, None, false)
    else !Sanitizer.Untrusted(text, e.untrusted)
         && row == Row(Support(e, question, text, kind), text, e.value(kind, text, question), e.relatedBySense(question, text, kind))
  }

  lemma TextRow(e: Engine, question: string, kind: Kind, p: Passage, text: string, found: Found) returns (rows: seq<Row>)
    ensures |rows| <= 1 && forall r :: r in rows <==> RowFrom(e, question, kind, text, r)
    ensures forall id :: RowsFor(Evaluated(e, question, kind, p, text, found).rows, id) ==
                         if p.chunk.id == id then RowsFor(found.rows, id) + rows else RowsFor(found.rows, id)
  {
    if Denies(e, question, kind, text) {
      rows := [Row(0.0, text, None, false)];
    } else if Sanitizer.Untrusted(text, e.untrusted) {
      rows := [];
      forall id ensures RowsFor(found.rows, id) + rows == RowsFor(found.rows, id) {
      }
    } else {
      rows := [Row(Support(e, question, text, kind), text, e.value(kind, text, question), e.relatedBySense(question, text, kind))];
    }
  }

  lemma TextAddsRows(e: Engine, question: string, kind: Kind, p: Passage, text: string, found: Found, id: string)
    ensures forall r :: r in RowsFor(Evaluated(e, question, kind, p, text, found).rows, id) <==>
                        r in RowsFor(found.rows, id) || (p.chunk.id == id && RowFrom(e, question, kind, text, r))
  {
    var rows := TextRow(e, question, kind, p, text, found);
  }

  lemma {:induction false} WorkAddsRows(e: Engine, question: string, kind: Kind, work: Work, id: string)
    ensures forall r :: r in RowsFor(EvaluateAll(e, question, kind, work).rows, id) <==>
                        exists p, text :: Worked(work, p, text) && p.chunk.id == id && RowFrom(e, question, kind, text, r)
  {
    if work != [] {
      var n := |work| - 1;
      var before, last := work[..n], work[n];
      WorkAddsRows(e, question, kind, before, id);
      TextAddsRows(e, question, kind, last.0, last.1, EvaluateAll(e, question, kind, before), id);
      forall p, text ensures Worked(work, p, text) <==> Worked(before, p, text) || (p, text) == last {
        WorkedAppend(before, [last], p, text);
        assert work == before + [last];
        assert Worked([last], p, text) <==> [last][0] == (p, text);
      }
    }
  }

  /** A row left by the texts read in the passages with a chunk id. */
  ghost predicate RowRead(e: Engine, question: string, kind: Kind, ranked: seq<Passage>, id: string, row: Row) {
    exists p, text :: Among(p, ranked) && p.chunk.id == id && ReadIn(e, question, kind, p, text) && RowFrom(e, question, kind, text, row)
  }

  lemma RowsAreRead(e: Engine, question: string, kind: Kind, ranked: seq<Passage>, id: string, row: Row)
    ensures row in RowsFor(FoundIn(e, question, kind, ranked).rows, id) <==> RowRead(e, question, kind, ranked, id, row)
  {
    var work := Joined(Works(e, question, kind, ranked), |ranked|);
    WorkAddsRows(e, question, kind, work, id);
    forall p, text ensures Worked(work, p, text) <==> Among(p, ranked) && ReadIn(e, question, kind, p, text) {
      AllWork(e, question, kind, ranked, p, text);
    }
  }

  /** The row has a property and no row with it a higher score. */
  ghost predicate Top(rows: seq<Row>, p: Row -> bool, row: Row) {
    row in rows && p(row) && forall r :: r in rows && p(r) ==> r.score <= row.score
  }

  function IsDirect(): Row -> bool { (r: Row) => r.value.Some? && r.relation }
  function IsPartial(e: Engine): Row -> bool { (r: Row) => r.score >= e.partialThreshold && r.relation }

  lemma TopDirect(rows: seq<Row>) returns (row: Row)
    requires DirectRows(rows, |rows|) != []
    ensures Top(rows, IsDirect(), row) && row == BestRow(DirectRows(rows, |rows|), |DirectRows(rows, |rows|)|)
  {
    var direct := DirectRows(rows, |rows|);
    DirectRowsAre(rows, |rows|);
    assert rows[..|rows|] == rows && direct[..|direct|] == direct;
    row := BestRow(direct, |direct|);
    forall r | r in rows && IsDirect()(r) ensures r.score <= row.score {
      assert r in direct;
      var i :| 0 <= i < |direct| && direct[i] == r;
    }
  }

  lemma {:induction false} PartialRowsAre(e: Engine, rows: seq<Row>, n: nat)
    requires n <= |rows|
    ensures forall r :: r in PartialRows(e, rows, n) <==> IsPartial(e)(r) && r in rows[..n]
  {
    if n > 0 {
      PartialRowsAre(e, rows, n - 1);
      assert rows[..n] == rows[..n - 1] + [rows[n - 1]];
    }
  }

  lemma TopPartial(e: Engine, rows: seq<Row>) returns (row: Row)
    requires PartialRows(e, rows, |rows|) != []
    ensures Top(rows, IsPartial(e), row) && row == BestRow(PartialRows(e, rows, |rows|), |PartialRows(e, rows, |rows|)|)
  {
    var partials := PartialRows(e, rows, |rows|);
    PartialRowsAre(e, rows, |rows|);
    assert rows[..|rows|] == rows && partials[..|partials|] == partials;
    row := BestRow(partials, |partials|);
    forall r | r in rows && IsPartial(e)(r) ensures r.score <= row.score {
      assert r in partials;
      var i :| 0 <= i < |partials| && partials[i] == r;
    }
  }

  predicate Locates(a: Assessment, p: Passage, row: Row) {
    a.document == Some(p.chunk.documentId) && a.page == Some(p.chunk.page) && a.excerpt == Some(row.text) && a.confidence == row.score
  }

  ghost predicate IsTopScore(rows: seq<Row>, score: real) {
    if rows == [] then score == 0.0 else (exists r :: r in rows && r.score == score) && forall r :: r in rows ==> r.score <= score
  }

  lemma TopScoreIs(rows: seq<Row>)
    ensures IsTopScore(rows, TopScore(rows))
  {
    if rows != [] {
      var best := BestRow(rows, |rows|);
      assert rows[..|rows|] == rows && best in rows;
      forall r | r in rows ensures r.score <= best.score {
        var i :| 0 <= i < |rows| && rows[i] == r;
      }
    }
  }

  /** What an assessment of a passage with these rows says. */
  ghost predicate Assesses(e: Engine, kind: Kind, p: Passage, rows: seq<Row>, a: Assessment) {
    && a.chunkId == p.chunk.id
    && (a.answerable <==> exists r :: r in rows && IsDirect()(r) && r.score >= e.supportThreshold)
    && ((exists r :: r in rows && IsDirect()(r)) ==>
          exists r :: Top(rows, IsDirect(), r) && Locates(a, p, r) && a.answer == (if a.answerable then r.value else None)
                      && a.fields == if a.answerable && r.value.value != "" && kind != Boolean then map[e.fieldName(kind) := r.value.value] else map[])
    && (!(exists r :: r in rows && IsDirect()(r)) ==> a.answer.None? && a.fields == map[])
    && (!(exists r :: r in rows && IsDirect()(r)) && (exists r :: r in rows && IsPartial(e)(r)) ==>
          exists r :: Top(rows, IsPartial(e), r) && Locates(a, p, r))
    && (!(exists r :: r in rows && (IsDirect()(r) || IsPartial(e)(r))) ==>
          a.excerpt.None? && a.document.None? && a.page.None? && IsTopScore(rows, a.confidence))
  }

  lemma DirectIsAssessed(e: Engine, kind: Kind, p: Passage, rows: seq<Row>)
    requires DirectRows(rows, |rows|) != []
    ensures Assesses(e, kind, p, rows, Assess(e, kind, p, rows))
  {
    AnswerableExactlyWhen(e, kind, p, rows);
    var row := TopDirect(rows);
    assert Top(rows, IsDirect(), row) && Locates(Assess(e, kind, p, rows), p, row);
  }

  lemma NoDirectIsAssessed(e: Engine, kind: Kind, p: Passage, rows: seq<Row>)
    requires DirectRows(rows, |rows|) == []
    ensures Assesses(e, kind, p, rows, Assess(e, kind, p, rows))
  {
    DirectRowsAre(rows, |rows|);
    PartialRowsAre(e, rows, |rows|);
    assert rows[..|rows|] == rows;
    forall r | r in rows ensures !IsDirect()(r) {
      assert r !in DirectRows(rows, |rows|);
    }
    if PartialRows(e, rows, |rows|) != [] {
      var row := TopPartial(e, rows);
      assert Top(rows, IsPartial(e), row) && Locates(Assess(e, kind, p, rows), p, row);
    } else {
      forall r | r in rows ensures !IsPartial(e)(r) {
        assert r !in PartialRows(e, rows, |rows|);
      }
      TopScoreIs(rows);
    }
  }

  /**
    Every passage in scope is assessed, in order, by exactly the texts read in it: it is answerable if a text with a
    value and the relation reaches the threshold, quotes the best such text, or else the best that touches the relation.
   */
  lemma EveryPassageIsAssessed(e: Engine, question: string, scoped: seq<Passage>, i: nat)
    requires i < |scoped|
    ensures var a, kind := Built(e, question, scoped), e.kindOf(question);
            |a.assessments| == |scoped|
            && exists rows :: (forall r :: r in rows <==> RowRead(e, question, kind, scoped, scoped[i].chunk.id, r))
                              && Assesses(e, kind, scoped[i], rows, a.assessments[i])
  {
    var kind := e.kindOf(question);
    var found := FoundIn(e, question, kind, scoped);
    var rows := RowsFor(found.rows, scoped[i].chunk.id);
    DecidedExactlyWhenSupported(e, kind, found, Assessments(e, kind, scoped, found, |scoped|));
    AssessmentAt(e, kind, scoped, found, |scoped|, i);
    forall r ensures r in rows <==> RowRead(e, question, kind, scoped, scoped[i].chunk.id, r) {
      RowsAreRead(e, question, kind, scoped, scoped[i].chunk.id, r);
    }
    if DirectRows(rows, |rows|) != [] {
      DirectIsAssessed(e, kind, scoped[i], rows);
    } else {
      NoDirectIsAssessed(e, kind, scoped[i], rows);
    }
  }
}
