/**
  The grounded decision engine. Regular expressions, embeddings and the trust detector are parameters; what the
  engine relies on them for is stated in `Contract`.
 */
module Answering {
  import opened Common
  import opened Text
  import Sanitizer
  import Ranking
  import opened Grounding

  datatype Kind = Boolean | Date | Amount | Duration | Severity | People | Organization | StatusKind | MultiSlot | FreeText

  /** The kinds whose values must not conflict. */
  predicate Conflicts(kind: Kind) {
    kind in {Boolean, Date, Amount, Duration, Severity}
  }

  /** The fixed wordings of the engine. */
  datatype Message =
    | Refused | Insufficient | ManyFacts | ValueNotStated | RelationOnly | Conflicting | ConflictReason
    | RefusedEarly | BelowThreshold | PassageRelationOnly | NoEvidence

  datatype Engine = Engine(
    supportThreshold: real,
    partialThreshold: real,
    wording: Message -> string,
    fieldName: Kind -> string,
    unsafe: string -> bool,
    kindOf: string -> Kind,
    scope: (string, seq<Passage>) -> Option<set<string>>,
    heading: string -> bool,
    dateClauses: (string, string) -> seq<string>,
    denies: (string, string, Kind) -> bool,
    tokens: string -> set<string>,
    noise: set<string>,
    similarity: (string, string) -> real,
    value: (Kind, string, string) -> Option<string>,
    related: (string, string, Kind) -> bool,
    explicitlyRelated: (string, string) -> bool,
    relatedBySense: (string, string, Kind) -> bool,
    pastEvent: string -> bool,
    untrusted: Sanitizer.Detector,
    fold: CharFold)

  /** A value is part of the evidence it was found in; for yes/no questions it is the evidence behind its verdict. */
  predicate ValueFits(kind: Kind, text: string, v: Option<string>) {
    v.Some? ==> if kind == Boolean then v.value == "Yes. " + text || v.value == "No. " + text else Contains(text, v.value)
  }

  ghost predicate Contract(e: Engine) {
    && 0.0 <= e.supportThreshold <= 1.0 && 0.0 <= e.partialThreshold <= 1.0
    && (forall m :: e.wording(m) != "") && (forall k :: e.fieldName(k) != "")
    && (forall s, q :: PartsOf(s, e.dateClauses(s, q)))
    && (forall k, s, q :: ValueFits(k, s, e.value(k, s, q)))
  }

  // --------------------------------------------------------------------- scoring

  function Min(a: real, b: real): real { if a <= b then a else b }
  function Max(a: real, b: real): real { if a >= b then a else b }

  /** The share of the question's informative tokens that the text has. */
  function Coverage(e: Engine, question: string, text: string): real {
    var query := e.tokens(question) - e.noise;
    |query * e.tokens(text)| as real / (if |query| > 1 then |query| else 1) as real
  }

  function Support(e: Engine, question: string, text: string, kind: Kind): real {
    var semantic := Max(0.0, Min(1.0, (e.similarity(question, text) + 1.0) / 2.0));
    var hasValue := if e.value(kind, text, question).Some? then 1.0 else 0.0;
    var relation := if e.related(question, text, kind) then 1.0 else 0.0;
    Min(1.0, 0.30 * Coverage(e, question, text) + 0.20 * semantic + 0.35 * hasValue + 0.15 * relation)
  }

  lemma FractionIsUnit(a: nat, b: nat)
    requires a <= b && 0 < b
    ensures 0.0 <= a as real / b as real <= 1.0
  {
    var x, y := a as real, b as real;
    assert 0.0 <= x <= y && 0.0 < y;
  }

  /** Support scores are probabilities: finite and between zero and one. */
  lemma SupportIsUnit(e: Engine, question: string, text: string, kind: Kind)
    ensures 0.0 <= Support(e, question, text, kind) <= 1.0
  {
    var query := e.tokens(question) - e.noise;
    var both := query * e.tokens(text);
    assert both <= query;
    Subset(both, query);
    FractionIsUnit(|both|, if |query| > 1 then |query| else 1);
  }

  lemma Subset(a: set<string>, b: set<string>)
    requires a <= b
    ensures |a| <= |b|
  {
    assert b == a + (b - a);
  }

  // ------------------------------------------------------------------ evidence texts

  /** An evaluated evidence text: its score, its value if it states one, and whether it is about the relation asked for. */
  datatype Row = Row(score: real, text: string, value: Option<string>, relation: bool)

  datatype Candidate = Candidate(score: real, text: string, value: string, passage: Passage)

  datatype Partial = Partial(score: real, text: string, passage: Passage)

  datatype Found = Found(candidates: seq<Candidate>, partials: seq<Partial>, rows: map<string, seq<Row>>)

  function TextsIn(e: Engine, question: string, kind: Kind, segment: string): seq<string> {
    if kind == Date then e.dateClauses(segment, question) else [segment]
  }

  function RowsFor(rows: map<string, seq<Row>>, id: string): seq<Row> {
    if id in rows then rows[id] else []
  }

  function WithRow(found: Found, id: string, row: Row): Found {
    found.(rows := found.rows[id := RowsFor(found.rows, id) + [row]])
  }

  /** What one evidence text adds. */
  function Evaluated(e: Engine, question: string, kind: Kind, p: Passage, text: string, found: Found): Found {
    if kind != Boolean && kind != StatusKind && e.denies(question, text, kind) then WithRow(found, p.chunk.id, Row(0.0, text, None, false))
    else if Sanitizer.Untrusted(text, e.untrusted) then found
    else
      var score, value, relation := Support(e, question, text, kind), e.value(kind, text, question), e.relatedBySense(question, text, kind);
      var next := WithRow(found, p.chunk.id, Row(score, text, value, relation));
      if value.Some? && relation then next.(candidates := next.candidates + [Candidate(score, text, value.value, p)])
      else if score >= e.partialThreshold && e.explicitlyRelated(question, text) && !(kind == Date && e.pastEvent(question)) then
        next.(partials := next.partials + [Partial(score, text, p)])
      else next
  }

  /** Passages paired with the evidence texts to evaluate in them. */
  type Work = seq<(Passage, string)>

  function Pairs(p: Passage, texts: seq<string>, n: nat): Work
    requires n <= |texts|
  {
    if n == 0 then [] else Pairs(p, texts, n - 1) + [(p, texts[n - 1])]
  }

  /** A segment is read unless it is blocked or a heading. */
  function OneSegment(e: Engine, question: string, kind: Kind, p: Passage, segments: seq<string>, i: nat): Work
    requires i < |segments|
  {
    if Skipped(e, segments, i) then []
    else Pairs(p, TextsIn(e, question, kind, segments[i]), |TextsIn(e, question, kind, segments[i])|)
  }

  function SegmentWorks(e: Engine, question: string, kind: Kind, p: Passage, segments: seq<string>): (w: seq<Work>)
    ensures |w| == |segments|
  {
    seq(|segments|, i requires 0 <= i < |segments| => OneSegment(e, question, kind, p, segments, i))
  }

  predicate Skipped(e: Engine, segments: seq<string>, i: nat)
    requires i < |segments|
  {
    Sanitizer.Blocked(segments[i], e.untrusted, Sanitizer.GroupRejected(segments, e.untrusted)) || e.heading(segments[i])
  }

  function OnePassage(e: Engine, question: string, kind: Kind, p: Passage): Work {
    Joined(SegmentWorks(e, question, kind, p, Segments(p.chunk.text)), |Segments(p.chunk.text)|)
  }

  function Works(e: Engine, question: string, kind: Kind, ranked: seq<Passage>): (w: seq<Work>)
    ensures |w| == |ranked|
  {
    seq(|ranked|, i requires 0 <= i < |ranked| => OnePassage(e, question, kind, ranked[i]))
  }

  function Joined(works: seq<Work>, n: nat): Work
    requires n <= |works|
  {
    if n == 0 then [] else Joined(works, n - 1) + works[n - 1]
  }

  function EvaluateAll(e: Engine, question: string, kind: Kind, work: Work): Found {
    if work == [] then Found([], [], map[])
    else
      var last := work[|work| - 1];
      Evaluated(e, question, kind, last.0, last.1, EvaluateAll(e, question, kind, work[..|work| - 1]))
  }

  function FoundIn(e: Engine, question: string, kind: Kind, ranked: seq<Passage>): Found {
    EvaluateAll(e, question, kind, Joined(Works(e, question, kind, ranked), |ranked|))
  }

  // ------------------------------------------------------------------ the nested loops

  method EvaluateTexts(e: Engine, question: string, kind: Kind, p: Passage, texts: seq<string>, found: Found, ghost done: Work)
    returns (found': Found, ghost done': Work)
    requires found == EvaluateAll(e, question, kind, done)
    ensures done' == done + Pairs(p, texts, |texts|) && found' == EvaluateAll(e, question, kind, done')
  {
    found', done' := found, done;
    for i := 0 to |texts|
      invariant done' == done + Pairs(p, texts, i)
      invariant found' == EvaluateAll(e, question, kind, done')
    {
      Assoc(done, Pairs(p, texts, i), [(p, texts[i])]);
      EvaluateSnoc(e, question, kind, done', p, texts[i], done' + [(p, texts[i])]);
      found' := Evaluated(e, question, kind, p, texts[i], found');
      done' := done' + [(p, texts[i])];
    }
  }

  lemma EvaluateSnoc(e: Engine, question: string, kind: Kind, work: Work, p: Passage, text: string, longer: Work)
    requires longer == work + [(p, text)]
    ensures EvaluateAll(e, question, kind, longer) == Evaluated(e, question, kind, p, text, EvaluateAll(e, question, kind, work))
  {
    assert longer[..|longer| - 1] == work;
  }

  method EvaluateSegment(e: Engine, question: string, kind: Kind, p: Passage, segments: seq<string>, blocked: set<nat>, i: nat,
                         found: Found, ghost done: Work, ghost work: Work)
    returns (found': Found, ghost done': Work)
    requires i < |segments| && found == EvaluateAll(e, question, kind, done)
    requires work == OneSegment(e, question, kind, p, segments, i)
    requires i in blocked <==> Sanitizer.Blocked(segments[i], e.untrusted, Sanitizer.GroupRejected(segments, e.untrusted))
    ensures done' == done + work && found' == EvaluateAll(e, question, kind, done')
  {
    if i in blocked || e.heading(segments[i]) {
      return found, done;
    }
    found', done' := EvaluateTexts(e, question, kind, p, TextsIn(e, question, kind, segments[i]), found, done);
  }

  method EvaluatePassage(e: Engine, question: string, kind: Kind, p: Passage, found: Found, ghost done: Work)
    returns (found': Found, ghost done': Work, ghost work: Work)
    requires found == EvaluateAll(e, question, kind, done)
    ensures work == OnePassage(e, question, kind, p)
    ensures done' == done + work && found' == EvaluateAll(e, question, kind, done')
  {
    work := OnePassage(e, question, kind, p);
    found', done' := EvaluateSegments(e, question, kind, p, Segments(p.chunk.text), found, done);
  }

  lemma JoinedNext(done: Work, works: seq<Work>, i: nat)
    requires i < |works|
    ensures (done + Joined(works, i)) + works[i] == done + Joined(works, i + 1)
    ensures Joined(works, i) + works[i] == Joined(works, i + 1)
  {
    Assoc(done, Joined(works, i), works[i]);
  }

  method EvaluateSegments(e: Engine, question: string, kind: Kind, p: Passage, segments: seq<string>, found: Found, ghost done: Work)
    returns (found': Found, ghost done': Work)
    requires found == EvaluateAll(e, question, kind, done)
    ensures done' == done + Joined(SegmentWorks(e, question, kind, p, segments), |segments|)
    ensures found' == EvaluateAll(e, question, kind, done')
  {
    ghost var works := SegmentWorks(e, question, kind, p, segments);
    var blocked := Sanitizer.FragmentIndexes(segments, e.untrusted);
    found', done' := found, done;
    for i := 0 to |segments|
      invariant done' == done + Joined(works, i)
      invariant found' == EvaluateAll(e, question, kind, done')
    {
      JoinedNext(done, works, i);
      found', done' := EvaluateSegment(e, question, kind, p, segments, blocked, i, found', done', works[i]);
    }
  }

  /** Passages, their segments and the evidence texts of each, in three nested loops. */
  method FindEvidence(e: Engine, question: string, kind: Kind, ranked: seq<Passage>) returns (found: Found)
    ensures found == FoundIn(e, question, kind, ranked)
  {
    found := Found([], [], map[]);
    ghost var done: Work := [];
    ghost var works := Works(e, question, kind, ranked);
    for i := 0 to |ranked|
      invariant done == Joined(works, i)
      invariant found == EvaluateAll(e, question, kind, done)
    {
      JoinedNext([], works, i);
      ghost var work;
      found, done, work := EvaluatePassage(e, question, kind, ranked[i], found, done);
      assert work == works[i];
    }
  }
}
