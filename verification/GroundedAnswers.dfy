/** What the validator of grounded answers accepts, stated about the answer and the passages themselves. */
module GroundedAnswers {
  import opened Common
  import opened Text
  import Sanitizer
  import opened Grounding

  /** The chunk the validator knows by an id: that of the last passage with the id. */
  predicate Known(ranked: seq<Passage>, c: Chunk) {
    exists i :: 0 <= i < |ranked| && ranked[i].chunk == c && forall k :: i < k < |ranked| ==> ranked[k].chunk.id != c.id
  }

  lemma KnownSnoc(before: seq<Passage>, p: Passage, c: Chunk)
    ensures Known(before + [p], c) <==> p.chunk == c || (p.chunk.id != c.id && Known(before, c))
  {
    var all, n := before + [p], |before|;
    if p.chunk == c { assert all[n].chunk == c; }
    if p.chunk.id != c.id && Known(before, c) {
      var i :| 0 <= i < n && before[i].chunk == c && forall k :: i < k < n ==> before[k].chunk.id != c.id;
      assert all[i].chunk == c;
    }
    if Known(all, c) && p.chunk != c {
      var i :| 0 <= i < |all| && all[i].chunk == c && forall k :: i < k < |all| ==> all[k].chunk.id != c.id;
      assert all[n] == p && before[i].chunk == c;
      assert forall k :: i < k < n ==> all[k] == before[k];
    }
  }

  lemma {:induction false} KnownExactlyWhen(ranked: seq<Passage>, c: Chunk)
    ensures Known(ranked, c) <==> c.id in ById(ranked) && ById(ranked)[c.id] == c
    ensures forall id :: id in ById(ranked) ==> ById(ranked)[id].id == id
  {
    if ranked != [] {
      var n := |ranked| - 1;
      KnownExactlyWhen(ranked[..n], c);
      KnownSnoc(ranked[..n], ranked[n], c);
      assert ranked == ranked[..n] + [ranked[n]];
    }
  }

  lemma AllKnown(ranked: seq<Passage>)
    ensures forall c :: Known(ranked, c) <==> c.id in ById(ranked) && ById(ranked)[c.id] == c
    ensures forall id :: id in ById(ranked) ==> Known(ranked, ById(ranked)[id]) && ById(ranked)[id].id == id
  {
    forall c ensures Known(ranked, c) <==> c.id in ById(ranked) && ById(ranked)[c.id] == c {
      KnownExactlyWhen(ranked, c);
    }
    forall id | id in ById(ranked) ensures ById(ranked)[id].id == id {
      KnownExactlyWhen(ranked, ById(ranked)[id]);
    }
  }

  /** The status, the answerable flag, the reason and the confidence go together. */
  predicate Coherent(a: Answer) {
    && 0.0 <= a.confidence <= 1.0
    && (a.answerable <==> a.status == Answered)
    && (a.status == Answered ==> a.reason.None?)
    && (a.status in {PartiallySupported, Ambiguous} ==> a.reason.Some? && a.reason.value != "")
  }

  /** No text of the answer, its citations, its fields or its assessments is an untrusted instruction. */
  predicate Trusted(a: Answer, d: Sanitizer.Detector) {
    && !Sanitizer.Untrusted(a.answer, d)
    && (a.excerpt.Some? ==> !Sanitizer.Untrusted(a.excerpt.value, d))
    && (forall c :: c in a.citations ==> !Sanitizer.Untrusted(c.excerpt, d))
    && (forall k, v :: k in a.fields && v in a.fields[k] ==> !Sanitizer.Untrusted(v, d))
    && (forall s :: s in a.assessments && s.answer.Some? ==> !Sanitizer.Untrusted(s.answer.value, d))
    && (forall s :: s in a.assessments && s.excerpt.Some? ==> !Sanitizer.Untrusted(s.excerpt.value, d))
    && (forall s, k :: s in a.assessments && k in s.fields ==> !Sanitizer.Untrusted(s.fields[k], d))
  }

  /** A chunk at the location the answer names that holds its excerpt. */
  ghost predicate Holds(ranked: seq<Passage>, a: Answer, c: Chunk)
    requires a.excerpt.Some?
  {
    Known(ranked, c) && a.document == Some(c.documentId) && a.page == Some(c.page) && Contains(c.text, a.excerpt.value)
  }

  /** No blocked segment at that location holds the excerpt. */
  ghost predicate Unblocked(ranked: seq<Passage>, a: Answer, d: Sanitizer.Detector)
    requires a.excerpt.Some?
  {
    forall c, i :: Known(ranked, c) && a.document == Some(c.documentId) && a.page == Some(c.page) && 0 <= i < |Segments(c.text)|
                   && Contains(Segments(c.text)[i], a.excerpt.value) ==>
      !Sanitizer.Blocked(Segments(c.text)[i], d, Sanitizer.GroupRejected(Segments(c.text), d))
  }

  /** A citation of a known chunk by its own location, name and words. */
  ghost predicate Genuine(ranked: seq<Passage>, c: Citation) {
    exists chunk :: Known(ranked, chunk) && c.chunkId == chunk.id && c.documentId == chunk.documentId
      && c.documentName == chunk.documentName && c.page == chunk.page && Contains(chunk.text, c.excerpt)
  }

  /** Every value is a non-empty part of the excerpt, once both are folded. */
  predicate Within(values: seq<string>, excerpt: string, f: CharFold) {
    forall v :: v in values ==> v != "" && Contains(Fold(excerpt, f), Fold(v, f))
  }

  /** The evidence an answer rests on, if it has an excerpt. */
  ghost predicate Rests(a: Answer, ranked: seq<Passage>, d: Sanitizer.Detector, f: CharFold)
    requires a.excerpt.Some?
  {
    var excerpt := a.excerpt.value;
    && a.status != Abstained && Unblocked(ranked, a, d)
    && (exists c :: Holds(ranked, a, c) && c.id in a.chunkIds)
    && (a.status == Answered ==>
          Contains(Fold(excerpt, f), Fold(a.answer, f)) || a.answer == "Yes. " + excerpt || a.answer == "No. " + excerpt)
    && (forall k :: k in a.fields ==> k != "" && a.fields[k] != [])
    && (forall k :: k in a.fields ==> Within(a.fields[k], excerpt, f))
    && (forall c :: c in a.citations ==> Genuine(ranked, c))
  }

  /** Without an excerpt there is nothing but an abstention. */
  predicate Empty(a: Answer) {
    && a.status == Abstained && a.document.None? && a.page.None? && a.reason.None?
    && a.fields == map[] && a.chunkIds == [] && a.citations == []
  }

  lemma CoherentExactlyWhen(a: Answer)
    ensures StatusFlaw(a).None? <==> Coherent(a)
  {
  }

  lemma TrustedExactlyWhen(a: Answer, d: Sanitizer.Detector)
    ensures Crosses(a, d) <==> !Trusted(a, d)
  {
    if !Trusted(a, d) {
      UntrustedCrosses(a, d);
    }
    if Crosses(a, d) {
      var t :| t in Channels(a) && Sanitizer.Untrusted(t, d);
    }
  }

  lemma UntrustedCrosses(a: Answer, d: Sanitizer.Detector)
    requires !Trusted(a, d)
    ensures Crosses(a, d)
  {
    if Sanitizer.Untrusted(a.answer, d) {
      assert a.answer in Channels(a);
    } else if a.excerpt.Some? && Sanitizer.Untrusted(a.excerpt.value, d) {
      assert a.excerpt.value in Channels(a);
    } else if c :| c in a.citations && Sanitizer.Untrusted(c.excerpt, d) {
      assert c.excerpt in Channels(a);
    } else if k, v :| k in a.fields && v in a.fields[k] && Sanitizer.Untrusted(v, d) {
      assert v in Channels(a);
    } else if s :| s in a.assessments && s.answer.Some? && Sanitizer.Untrusted(s.answer.value, d) {
      assert s.answer.value in Texts(s.answer) + Texts(s.excerpt);
      assert s.answer.value in Channels(a);
    } else if s :| s in a.assessments && s.excerpt.Some? && Sanitizer.Untrusted(s.excerpt.value, d) {
      assert s.excerpt.value in Texts(s.answer) + Texts(s.excerpt);
      assert s.excerpt.value in Channels(a);
    } else {
      var s, k :| s in a.assessments && k in s.fields && Sanitizer.Untrusted(s.fields[k], d);
      assert s.fields[k] in Channels(a);
    }
  }

  lemma FieldExactlyWhen(values: seq<string>, excerpt: string, f: CharFold)
    ensures FieldSupported(values, excerpt, f) <==> Within(values, excerpt, f)
  {
    if Within(values, excerpt, f) {
      forall i | 0 <= i < |values| ensures values[i] != "" && Contains(Fold(excerpt, f), Fold(values[i], f)) {
        assert values[i] in values;
      }
    }
  }

  lemma ExcerptHeldExactlyWhen(a: Answer, ranked: seq<Passage>)
    requires a.excerpt.Some?
    ensures ExcerptOnPage(a, ById(ranked)) <==> exists c :: Holds(ranked, a, c)
    ensures ChunkCited(a, ById(ranked)) <==> exists c :: Holds(ranked, a, c) && c.id in a.chunkIds
  {
    AllKnown(ranked);
    var chunks := ById(ranked);
    if c :| Holds(ranked, a, c) { assert c.id in chunks && OnPage(chunks[c.id], a); }
    if c :| Holds(ranked, a, c) && c.id in a.chunkIds { assert c.id in chunks && OnPage(chunks[c.id], a); }
    if ExcerptOnPage(a, chunks) {
      var id :| id in chunks && OnPage(chunks[id], a) && Contains(chunks[id].text, a.excerpt.value);
      assert Holds(ranked, a, chunks[id]);
    }
    if ChunkCited(a, chunks) {
      var id :| id in chunks && OnPage(chunks[id], a) && chunks[id].id in a.chunkIds && Contains(chunks[id].text, a.excerpt.value);
      assert Holds(ranked, a, chunks[id]);
    }
  }

  lemma LocationsExactlyWhen(a: Answer, ranked: seq<Passage>, d: Sanitizer.Detector)
    requires a.excerpt.Some?
    ensures ExcerptOnPage(a, ById(ranked)) <==> exists c :: Holds(ranked, a, c)
    ensures ChunkCited(a, ById(ranked)) <==> exists c :: Holds(ranked, a, c) && c.id in a.chunkIds
    ensures ExcerptBlocked(a, ById(ranked), d) <==> !Unblocked(ranked, a, d)
  {
    AllKnown(ranked);
    ExcerptHeldExactlyWhen(a, ranked);
    var chunks := ById(ranked);
    if !Unblocked(ranked, a, d) {
      var c, i :| Known(ranked, c) && a.document == Some(c.documentId) && a.page == Some(c.page) && 0 <= i < |Segments(c.text)|
                  && Contains(Segments(c.text)[i], a.excerpt.value)
                  && Sanitizer.Blocked(Segments(c.text)[i], d, Sanitizer.GroupRejected(Segments(c.text), d));
      assert c.id in chunks && OnPage(chunks[c.id], a) && InBlockedSegment(chunks[c.id].text, a.excerpt.value, d);
    }
    if ExcerptBlocked(a, chunks, d) {
      var id :| id in chunks && OnPage(chunks[id], a) && InBlockedSegment(chunks[id].text, a.excerpt.value, d);
      assert Known(ranked, chunks[id]);
    }
  }

  lemma GenuineExactlyWhen(c: Citation, ranked: seq<Passage>)
    ensures CitationGrounded(c, ById(ranked)) <==> Genuine(ranked, c)
  {
    AllKnown(ranked);
    if CitationGrounded(c, ById(ranked)) { assert Known(ranked, ById(ranked)[c.chunkId]); }
  }

  /** The checks on an answer with an excerpt, one by one. */
  ghost predicate Sound(a: Answer, chunks: map<string, Chunk>, d: Sanitizer.Detector, f: CharFold)
    requires a.excerpt.Some?
  {
    && a.status != Abstained && ExcerptOnPage(a, chunks) && !ExcerptBlocked(a, chunks, d) && ChunkCited(a, chunks)
    && (a.status == Answered ==> AnswerSupported(a.answer, a.excerpt.value, f))
    && (forall k :: k in a.fields ==> k != "" && a.fields[k] != [])
    && (forall k :: k in a.fields ==> FieldSupported(a.fields[k], a.excerpt.value, f))
    && (forall c :: c in a.citations ==> CitationGrounded(c, chunks))
  }

  lemma SoundExactlyWhen(a: Answer, chunks: map<string, Chunk>, d: Sanitizer.Detector, f: CharFold)
    requires a.excerpt.Some?
    ensures EvidenceFlaw(a, chunks, d, f).None? <==> Sound(a, chunks, d, f)
  {
    if ExcerptOnPage(a, chunks) {
      var id :| id in chunks && OnPage(chunks[id], a) && Contains(chunks[id].text, a.excerpt.value);
    }
  }

  lemma SoundRests(a: Answer, ranked: seq<Passage>, d: Sanitizer.Detector, f: CharFold)
    requires a.excerpt.Some?
    requires ExcerptOnPage(a, ById(ranked)) <==> exists c :: Holds(ranked, a, c)
    requires ChunkCited(a, ById(ranked)) <==> exists c :: Holds(ranked, a, c) && c.id in a.chunkIds
    requires ExcerptBlocked(a, ById(ranked), d) <==> !Unblocked(ranked, a, d)
    requires forall c :: CitationGrounded(c, ById(ranked)) <==> Genuine(ranked, c)
    ensures Sound(a, ById(ranked), d, f) <==> Rests(a, ranked, d, f)
  {
    forall k | k in a.fields ensures FieldSupported(a.fields[k], a.excerpt.value, f) <==> Within(a.fields[k], a.excerpt.value, f) {
      FieldExactlyWhen(a.fields[k], a.excerpt.value, f);
    }
  }

  lemma RestsExactlyWhen(a: Answer, ranked: seq<Passage>, d: Sanitizer.Detector, f: CharFold)
    requires a.excerpt.Some?
    ensures EvidenceFlaw(a, ById(ranked), d, f).None? <==> Rests(a, ranked, d, f)
  {
    LocationsExactlyWhen(a, ranked, d);
    forall c ensures CitationGrounded(c, ById(ranked)) <==> Genuine(ranked, c) {
      GenuineExactlyWhen(c, ranked);
    }
    SoundExactlyWhen(a, ById(ranked), d, f);
    SoundRests(a, ranked, d, f);
  }

  /**
    Exactly which answers pass: coherent ones that name only known chunks and hold no untrusted instruction, and that
    are either empty abstentions or rest on an excerpt of a known and cited chunk at the location they name, with the
    answer and every field value inside the excerpt and every citation genuine.
   */
  lemma AcceptedExactlyWhen(a: Answer, ranked: seq<Passage>, d: Sanitizer.Detector, f: CharFold)
    ensures GroundingFlaw(a, ranked, d, f) == None <==>
            && Coherent(a) && Trusted(a, d)
            && (forall id :: id in a.chunkIds ==> exists c :: Known(ranked, c) && c.id == id)
            && (if a.excerpt.None? then Empty(a) else Rests(a, ranked, d, f))
  {
    AllKnown(ranked);
    CoherentExactlyWhen(a);
    TrustedExactlyWhen(a, d);
    forall id ensures id in ById(ranked) <==> exists c :: Known(ranked, c) && c.id == id {
      if id in ById(ranked) { assert Known(ranked, ById(ranked)[id]); }
    }
    if a.excerpt.Some? { RestsExactlyWhen(a, ranked, d, f); }
  }
}
