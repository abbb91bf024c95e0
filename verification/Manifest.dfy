/** Validation of an evaluation manifest against its corpus: the loop over the cases and their citations. */
module Manifest {
  import opened Common
  import opened Latency
  import Text
  import opened Metrics
  import opened Runner
  import Recalculation
  import opened Agreement

  /** A field of a decoded JSON object: missing (or null, where null is read as missing), of the wrong type, or as expected. */
  datatype Field<T> = Absent | Mistyped | Value(value: T)

  datatype Split = Development | Holdout

  datatype RawCitation = RawCitation(documentId: Field<string>, page: Field<int>, excerpt: Field<string>)

  /** A case as decoded. A citation that is not an object is `None`. */
  datatype RawCase = RawCase(
    id: Field<string>, question: Field<string>, split: Field<Split>, kind: Field<Kind>,
    expectedAnswer: Field<string>, citations: Field<seq<Option<RawCitation>>>, scope: Field<seq<Field<string>>>)

  datatype Flaw =
    | BadId | BadQuestion | BadSplit | BadKind | NeedsAnswer | HasAnswer | CitationsNotList | BadScope
    | NeedsCitation | HasCitation | CitationNotObject | NoDocumentId | BadPage | SplitsOverlap

  /** The pages of every corpus document. */
  type Corpus = map<string, seq<string>>

  predicate FilledIn(f: Field<string>) {
    f.Value? && !Text.Blank(f.value)
  }

  // ------------------------------------------------------------------- citations

  function CitationFlaw(c: Option<RawCitation>, corpus: Corpus): Option<Flaw> {
    if c.None? then Some(CitationNotObject)
    else if !c.value.documentId.Value? then Some(NoDocumentId)
    else if c.value.documentId.value in corpus && !c.value.page.Value? then Some(BadPage)
    else None
  }

  predicate Known(c: Option<RawCitation>, corpus: Corpus) {
    c.Some? && c.value.documentId.Value? && c.value.documentId.value in corpus
  }

  /** The cited page exists and holds the excerpt. */
  predicate Traceable(c: RawCitation, pages: seq<string>) {
    && c.page.Value? && 1 <= c.page.value <= |pages|
    && c.excerpt.Value? && Text.Contains(pages[c.page.value - 1], c.excerpt.value)
  }

  predicate Exact(c: Option<RawCitation>, corpus: Corpus) {
    Known(c, corpus) ==> Traceable(c.value, corpus[c.value.documentId.value])
  }

  predicate AllKnown(cs: seq<Option<RawCitation>>, n: nat, corpus: Corpus)
    requires n <= |cs|
  {
    forall i :: 0 <= i < n ==> Known(cs[i], corpus)
  }

  predicate AllExact(cs: seq<Option<RawCitation>>, n: nat, corpus: Corpus)
    requires n <= |cs|
  {
    forall i :: 0 <= i < n ==> Exact(cs[i], corpus)
  }

  function FirstFlaw(cs: seq<Option<RawCitation>>, n: nat, corpus: Corpus): Option<Flaw>
    requires n <= |cs|
  {
    if n == 0 then None
    else if FirstFlaw(cs, n - 1, corpus).Some? then FirstFlaw(cs, n - 1, corpus)
    else CitationFlaw(cs[n - 1], corpus)
  }

  lemma {:induction false} FirstFlawStays(cs: seq<Option<RawCitation>>, n: nat, m: nat, corpus: Corpus)
    requires n <= m <= |cs| && FirstFlaw(cs, n, corpus).Some?
    ensures FirstFlaw(cs, m, corpus) == FirstFlaw(cs, n, corpus)
  {
    if n < m { FirstFlawStays(cs, n, m - 1, corpus); }
  }

  method CheckCitations(cs: seq<Option<RawCitation>>, corpus: Corpus, known: bool, exact: bool)
    returns (result: Result<bool, Flaw>, known': bool, exact': bool)
    ensures result.Ok? <==> FirstFlaw(cs, |cs|, corpus).None?
    ensures result.Err? ==> FirstFlaw(cs, |cs|, corpus) == Some(result.error)
    ensures result.Ok? ==> known' == (known && AllKnown(cs, |cs|, corpus)) && exact' == (exact && AllExact(cs, |cs|, corpus))
  {
    known', exact' := known, exact;
    for i := 0 to |cs|
      invariant FirstFlaw(cs, i, corpus).None?
      invariant known' == (known && AllKnown(cs, i, corpus))
      invariant exact' == (exact && AllExact(cs, i, corpus))
    {
      assert AllKnown(cs, i + 1, corpus) <==> AllKnown(cs, i, corpus) && Known(cs[i], corpus);
      assert AllExact(cs, i + 1, corpus) <==> AllExact(cs, i, corpus) && Exact(cs[i], corpus);
      if CitationFlaw(cs[i], corpus).Some? {
        FirstFlawStays(cs, i + 1, |cs|, corpus);
        return Err(CitationFlaw(cs[i], corpus).value), known', exact';
      }
      var c := cs[i].value;
      if c.documentId.value !in corpus {
        known' := false;
      } else {
        var pages := corpus[c.documentId.value];
        if c.page.value < 1 || c.page.value > |pages| {
          exact' := false;
        } else if !c.excerpt.Value? || !Text.Contains(pages[c.page.value - 1], c.excerpt.value) {
          exact' := false;
        }
      }
    }
    return Ok(true), known', exact';
  }

  // ----------------------------------------------------------------------- cases

  function CitationsOf(c: RawCase): seq<Option<RawCitation>> {
    if c.citations.Value? then c.citations.value else []
  }

  predicate ScopeAccepted(scope: Field<seq<Field<string>>>, corpus: Corpus) {
    match scope
    case Absent => true
    case Mistyped => false
    case Value(ids) => ids != [] && forall i :: 0 <= i < |ids| ==> ids[i].Value? && ids[i].value in corpus
  }

  /** What is wrong with a case before its citations are looked at, apart from a repeated id. */
  function HeaderFlaw(c: RawCase, corpus: Corpus): Option<Flaw> {
    if !FilledIn(c.question) then Some(BadQuestion)
    else if !c.split.Value? then Some(BadSplit)
    else if !c.kind.Value? then Some(BadKind)
    else if c.kind.value == Answerable && !FilledIn(c.expectedAnswer) then Some(NeedsAnswer)
    else if c.kind.value != Answerable && !c.expectedAnswer.Absent? then Some(HasAnswer)
    else if c.citations.Mistyped? then Some(CitationsNotList)
    else if !ScopeAccepted(c.scope, corpus) then Some(BadScope)
    else if c.kind.value == Answerable && CitationsOf(c) == [] then Some(NeedsCitation)
    else if c.kind.value == Unanswerable && CitationsOf(c) != [] then Some(HasCitation)
    else None
  }

  predicate Repeated(cases: seq<RawCase>, n: nat, id: string)
    requires n <= |cases|
  {
    exists i :: 0 <= i < n && cases[i].id == Value(id)
  }

  /** What the loop finds wrong with case `i`, if anything. */
  function FlawAt(cases: seq<RawCase>, i: nat, corpus: Corpus): Option<Flaw>
    requires i < |cases|
  {
    var c := cases[i];
    if !FilledIn(c.id) || Repeated(cases, i, c.id.value) then Some(BadId)
    else if HeaderFlaw(c, corpus).Some? then HeaderFlaw(c, corpus)
    else FirstFlaw(CitationsOf(c), |CitationsOf(c)|, corpus)
  }

  predicate Accepted(cases: seq<RawCase>, n: nat, corpus: Corpus)
    requires n <= |cases|
  {
    forall i :: 0 <= i < n ==> FlawAt(cases, i, corpus).None?
  }

  predicate CasesKnown(cases: seq<RawCase>, n: nat, corpus: Corpus)
    requires n <= |cases|
  {
    forall i :: 0 <= i < n ==> AllKnown(CitationsOf(cases[i]), |CitationsOf(cases[i])|, corpus)
  }

  predicate CasesExact(cases: seq<RawCase>, n: nat, corpus: Corpus)
    requires n <= |cases|
  {
    forall i :: 0 <= i < n ==> AllExact(CitationsOf(cases[i]), |CitationsOf(cases[i])|, corpus)
  }

  datatype Report = Report(known: bool, exact: bool, answerable: nat, unanswerable: nat, adversarial: nat)

  function OfKind(kinds: set<Kind>): RawCase -> bool {
    (c: RawCase) => c.kind.Value? && c.kind.value in kinds
  }

  /** The report counts the kinds of the first `n` cases; ambiguous and adversarial ones together. */
  ghost predicate KindsCounted(report: Report, cases: seq<RawCase>, n: nat)
    requires n <= |cases|
  {
    && report.answerable == Number(cases[..n], OfKind({Answerable})) && report.unanswerable == Number(cases[..n], OfKind({Unanswerable}))
    && report.adversarial == Number(cases[..n], OfKind({Ambiguous, Adversarial}))
  }

  lemma NoKindsCounted(report: Report, cases: seq<RawCase>)
    requires report.answerable == 0 && report.unanswerable == 0 && report.adversarial == 0
    ensures KindsCounted(report, cases, 0)
  {
    NumberOfNone(cases[..0], OfKind({Answerable}));
    NumberOfNone(cases[..0], OfKind({Unanswerable}));
    NumberOfNone(cases[..0], OfKind({Ambiguous, Adversarial}));
  }

  method CountKind(report: Report, ghost cases: seq<RawCase>, ghost i: nat, kind: Kind) returns (next: Report)
    requires i < |cases| && cases[i].kind == Value(kind) && KindsCounted(report, cases, i)
    ensures KindsCounted(next, cases, i + 1) && next.known == report.known && next.exact == report.exact
  {
    NumberSnoc(cases[..i], cases[i], OfKind({Answerable}));
    NumberSnoc(cases[..i], cases[i], OfKind({Unanswerable}));
    NumberSnoc(cases[..i], cases[i], OfKind({Ambiguous, Adversarial}));
    assert cases[..i + 1] == cases[..i] + [cases[i]];
    if kind == Answerable {
      next := report.(answerable := report.answerable + 1);
    } else if kind == Unanswerable {
      next := report.(unanswerable := report.unanswerable + 1);
    } else {
      next := report.(adversarial := report.adversarial + 1);
    }
  }

  /** One case: its flaw, or the report with its kind and citations taken in. */
  method ValidateCase(cases: seq<RawCase>, i: nat, corpus: Corpus, ids: set<string>, report: Report) returns (result: Result<Report, Flaw>)
    requires i < |cases| && KindsCounted(report, cases, i) && forall id :: id in ids <==> Repeated(cases, i, id)
    ensures result.Ok? <==> FlawAt(cases, i, corpus).None?
    ensures result.Err? ==> FlawAt(cases, i, corpus) == Some(result.error)
    ensures result.Ok? ==> cases[i].id.Value? && cases[i].id.value !in ids && cases[i].split.Value? && KindsCounted(result.value, cases, i + 1)
    ensures result.Ok? ==> result.value.known == (report.known && AllKnown(CitationsOf(cases[i]), |CitationsOf(cases[i])|, corpus))
    ensures result.Ok? ==> result.value.exact == (report.exact && AllExact(CitationsOf(cases[i]), |CitationsOf(cases[i])|, corpus))
  {
    var c := cases[i];
    var citations := CitationsOf(c);
    if !c.id.Value? || Text.Blank(c.id.value) || c.id.value in ids { return Err(BadId); }
    var header := HeaderFlaw(c, corpus);
    if header.Some? { return Err(header.value); }
    var counted := CountKind(report, cases, i, c.kind.value);
    var checked, known, exact := CheckCitations(citations, corpus, report.known, report.exact);
    if checked.Err? { return Err(checked.error); }
    return Ok(counted.(known := known, exact := exact));
  }

  /** What one more case means for the cases so far. */
  lemma OneMoreCase(cases: seq<RawCase>, i: nat, corpus: Corpus)
    requires i < |cases|
    ensures Accepted(cases, i + 1, corpus) <==> Accepted(cases, i, corpus) && FlawAt(cases, i, corpus).None?
    ensures CasesKnown(cases, i + 1, corpus) <==> CasesKnown(cases, i, corpus) && AllKnown(CitationsOf(cases[i]), |CitationsOf(cases[i])|, corpus)
    ensures CasesExact(cases, i + 1, corpus) <==> CasesExact(cases, i, corpus) && AllExact(CitationsOf(cases[i]), |CitationsOf(cases[i])|, corpus)
    ensures forall id :: Repeated(cases, i + 1, id) <==> Repeated(cases, i, id) || cases[i].id == Value(id)
  {
    forall id ensures Repeated(cases, i + 1, id) <==> Repeated(cases, i, id) || cases[i].id == Value(id) {
      if cases[i].id == Value(id) { assert cases[i].id == Value(id); }
    }
  }

  lemma FlawRejects(cases: seq<RawCase>, i: nat, corpus: Corpus)
    requires i < |cases| && FlawAt(cases, i, corpus).Some?
    ensures !Accepted(cases, |cases|, corpus)
  {
  }

  /**
    The loop over the cases. It stops at the first flawed case and reports its flaw; otherwise the flags say whether
    every citation is of a corpus document and, among those, whether every one is exact. Since ids never repeat,
    the two splits cannot overlap.
   */
  method ValidateCases(cases: seq<RawCase>, corpus: Corpus) returns (result: Result<Report, Flaw>)
    ensures result.Ok? <==> Accepted(cases, |cases|, corpus)
    ensures result.Err? ==> exists i :: 0 <= i < |cases| && Accepted(cases, i, corpus) && FlawAt(cases, i, corpus) == Some(result.error)
    ensures result.Ok? ==> result.value.known == CasesKnown(cases, |cases|, corpus)
    ensures result.Ok? ==> result.value.exact == CasesExact(cases, |cases|, corpus)
    ensures result.Ok? ==> KindsCounted(result.value, cases, |cases|)
  {
    var ids: set<string>, development: set<string>, holdout: set<string> := {}, {}, {};
    var report := Report(true, true, 0, 0, 0);
    NoKindsCounted(report, cases);
    for i := 0 to |cases|
      invariant Accepted(cases, i, corpus)
      invariant forall id :: id in ids <==> Repeated(cases, i, id)
      invariant development + holdout == ids && development !! holdout
      invariant report.known == CasesKnown(cases, i, corpus) && report.exact == CasesExact(cases, i, corpus)
      invariant KindsCounted(report, cases, i)
    {
      var next := ValidateCase(cases, i, corpus, ids, report);
      if next.Err? {
        FlawRejects(cases, i, corpus);
        return Err(next.error);
      }
      OneMoreCase(cases, i, corpus);
      report := next.value;
      var id := cases[i].id.value;
      ids := ids + {id};
      if cases[i].split.value == Development { development := development + {id}; } else { holdout := holdout + {id}; }
    }
    if development * holdout != {} { return Err(SplitsOverlap); }
    return Ok(report);
  }

  // ------------------------------------------------------ what acceptance amounts to

  predicate Traced(c: Option<RawCitation>, corpus: Corpus) {
    c.Some? && c.value.documentId.Value? && (c.value.documentId.value in corpus ==> c.value.page.Value?)
  }

  /** A case with all its fields as its kind demands them. */
  predicate WellFormed(c: RawCase, corpus: Corpus) {
    && c.question.Value? && !Text.Blank(c.question.value) && c.split.Value? && c.kind.Value?
    && (c.kind.value == Answerable ==> c.expectedAnswer.Value? && !Text.Blank(c.expectedAnswer.value))
    && (c.kind.value != Answerable ==> c.expectedAnswer.Absent?)
    && (c.scope.Absent? || (c.scope.Value? && c.scope.value != []
                            && forall i :: 0 <= i < |c.scope.value| ==> c.scope.value[i].Value? && c.scope.value[i].value in corpus))
    && !c.citations.Mistyped?
    && (c.kind.value == Answerable ==> c.citations.Value? && c.citations.value != [])
    && (c.kind.value == Unanswerable ==> c.citations.Absent? || c.citations.value == [])
    && (c.citations.Value? ==> forall i :: 0 <= i < |c.citations.value| ==> Traced(c.citations.value[i], corpus))
  }

  lemma {:induction false} TracedExactlyWhen(cs: seq<Option<RawCitation>>, n: nat, corpus: Corpus)
    requires n <= |cs|
    ensures FirstFlaw(cs, n, corpus).None? <==> forall i :: 0 <= i < n ==> Traced(cs[i], corpus)
  {
    if n > 0 { TracedExactlyWhen(cs, n - 1, corpus); }
  }

  /** The cases of a manifest are accepted exactly when each has an id of its own and is well formed. */
  lemma AcceptedExactlyWhen(cases: seq<RawCase>, corpus: Corpus)
    ensures Accepted(cases, |cases|, corpus) <==>
            && (forall i :: 0 <= i < |cases| ==> cases[i].id.Value? && !Text.Blank(cases[i].id.value) && WellFormed(cases[i], corpus))
            && forall i, j :: 0 <= i < j < |cases| ==> cases[i].id != cases[j].id
  {
    forall i | 0 <= i < |cases|
      ensures FlawAt(cases, i, corpus).None? <==>
              && cases[i].id.Value? && !Text.Blank(cases[i].id.value) && WellFormed(cases[i], corpus)
              && forall k :: 0 <= k < i ==> cases[k].id != cases[i].id
    {
      TracedExactlyWhen(CitationsOf(cases[i]), |CitationsOf(cases[i])|, corpus);
    }
  }

  /** Citation `k` of case `i` quotes, word for word, a page of a corpus document. */
  ghost predicate Quotes(cases: seq<RawCase>, i: nat, k: nat, corpus: Corpus)
    requires i < |cases| && cases[i].citations.Value? && k < |cases[i].citations.value| && cases[i].citations.value[k].Some?
  {
    var c := cases[i].citations.value[k].value;
    && c.documentId.Value? && c.documentId.value in corpus
    && c.page.Value? && 0 < c.page.value <= |corpus[c.documentId.value]|
    && c.excerpt.Value? && exists before, behind :: corpus[c.documentId.value][c.page.value - 1] == before + c.excerpt.value + behind
  }

  /** Both flags are set exactly when every citation of every case quotes a page of the corpus. */
  lemma FlagsExactlyWhen(cases: seq<RawCase>, corpus: Corpus)
    requires Accepted(cases, |cases|, corpus)
    ensures CasesKnown(cases, |cases|, corpus) && CasesExact(cases, |cases|, corpus) <==>
            forall i, k :: 0 <= i < |cases| && cases[i].citations.Value? && 0 <= k < |cases[i].citations.value| ==>
              cases[i].citations.value[k].Some? && Quotes(cases, i, k, corpus)
  {
    forall i, k | 0 <= i < |cases| && cases[i].citations.Value? && 0 <= k < |cases[i].citations.value|
      ensures Known(cases[i].citations.value[k], corpus) && Exact(cases[i].citations.value[k], corpus) <==>
              cases[i].citations.value[k].Some? && Quotes(cases, i, k, corpus)
    {
      QuotesExactlyWhen(cases, i, k, corpus);
    }
    if CasesKnown(cases, |cases|, corpus) && CasesExact(cases, |cases|, corpus) {
      forall i, k | 0 <= i < |cases| && cases[i].citations.Value? && 0 <= k < |cases[i].citations.value|
        ensures cases[i].citations.value[k].Some? && Quotes(cases, i, k, corpus)
      {
        assert CitationsOf(cases[i])[k] == cases[i].citations.value[k];
        assert AllKnown(CitationsOf(cases[i]), |CitationsOf(cases[i])|, corpus) && AllExact(CitationsOf(cases[i]), |CitationsOf(cases[i])|, corpus);
      }
    }
  }

  lemma QuotesExactlyWhen(cases: seq<RawCase>, i: nat, k: nat, corpus: Corpus)
    requires i < |cases| && cases[i].citations.Value? && k < |cases[i].citations.value|
    ensures Known(cases[i].citations.value[k], corpus) && Exact(cases[i].citations.value[k], corpus) <==>
            cases[i].citations.value[k].Some? && Quotes(cases, i, k, corpus)
  {
    var cited := cases[i].citations.value[k];
    if cited.Some? && cited.value.documentId.Value? && cited.value.documentId.value in corpus && cited.value.page.Value?
       && 0 < cited.value.page.value <= |corpus[cited.value.documentId.value]| && cited.value.excerpt.Value? {
      var page, excerpt := corpus[cited.value.documentId.value][cited.value.page.value - 1], cited.value.excerpt.value;
      Text.ContainsExactlyWhen(page, excerpt);
    }
  }

  // ------------------------------------------------------------ what it is needed for

  function CitationOf(c: Option<RawCitation>): Citation {
    match c
    case None => Citation(Location("", 0), "")
    case Some(r) =>
      Citation(Location(if r.documentId.Value? then r.documentId.value else "", if r.page.Value? then r.page.value else 0),
               if r.excerpt.Value? then r.excerpt.value else "")
  }

  /** A case as the runner reads it. */
  function CaseOf(c: RawCase): Case
    requires c.kind.Value?
  {
    var cs := CitationsOf(c);
    Case(c.kind.value, seq(|cs|, i requires 0 <= i < |cs| => CitationOf(cs[i])))
  }

  /** The cases of one split, in manifest order. */
  function CasesIn(cases: seq<RawCase>, n: nat, split: Split): seq<Case>
    requires n <= |cases| && forall i :: 0 <= i < n ==> cases[i].kind.Value?
  {
    if n == 0 then []
    else if cases[n - 1].split == Value(split) then CasesIn(cases, n - 1, split) + [CaseOf(cases[n - 1])]
    else CasesIn(cases, n - 1, split)
  }

  /** An accepted case with known and exact citations is locatable. */
  lemma AcceptedIsLocatable(cases: seq<RawCase>, i: nat, corpus: Corpus)
    requires i < |cases| && FlawAt(cases, i, corpus).None?
    requires AllKnown(CitationsOf(cases[i]), |CitationsOf(cases[i])|, corpus)
    requires AllExact(CitationsOf(cases[i]), |CitationsOf(cases[i])|, corpus)
    ensures cases[i].kind.Value? && Locatable(CaseOf(cases[i]))
  {
    var cs, c := CitationsOf(cases[i]), CaseOf(cases[i]);
    assert HeaderFlaw(cases[i], corpus).None?;
    forall k | 0 <= k < |c.expected| ensures c.expected[k].location.page >= 1 {
      assert Known(cs[k], corpus) && Exact(cs[k], corpus);
    }
  }

  lemma {:induction false} SplitIsLocatable(cases: seq<RawCase>, n: nat, split: Split, corpus: Corpus)
    requires n <= |cases| && Accepted(cases, n, corpus) && CasesKnown(cases, n, corpus) && CasesExact(cases, n, corpus)
    ensures forall i :: 0 <= i < n ==> cases[i].kind.Value?
    ensures AllLocatable(CasesIn(cases, n, split), |CasesIn(cases, n, split)|)
  {
    if n > 0 {
      SplitIsLocatable(cases, n - 1, split, corpus);
      assert FlawAt(cases, n - 1, corpus).None?;
      AcceptedIsLocatable(cases, n - 1, corpus);
    }
  }

  /**
    For a manifest accepted with known and exact citations, any split, and any engine that fails in time, the
    recalculator does not raise and returns the runner's metrics.
   */
  lemma ValidManifestReplays(cases: seq<RawCase>, corpus: Corpus, split: Split, outs: seq<Timed>, m: Matcher,
                             details: seq<ExtractionCounts>, indexing: real)
    requires Accepted(cases, |cases|, corpus) && CasesKnown(cases, |cases|, corpus) && CasesExact(cases, |cases|, corpus)
    requires forall i :: 0 <= i < |cases| ==> cases[i].kind.Value?
    requires Measured(CasesIn(cases, |cases|, split), outs) && FailsInTime(outs, |outs|) && 0.0 <= indexing
    ensures var selected := CasesIn(cases, |cases|, split);
            Recalculation.RecalculationOf(ArtifactOf(selected, outs, m, details, indexing)) == Ok(ReplayOf(selected, outs, m, details))
  {
    SplitIsLocatable(cases, |cases|, split, corpus);
    ReplayAgrees(CasesIn(cases, |cases|, split), outs, m, details, indexing);
  }
}
