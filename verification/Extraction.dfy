/** Steps 2 to 5 of the parse pipeline for one document: detect, decompose,
    extract, resolve. */
module Extraction {
  import opened Common
  import opened Json
  import opened Whitespace
  import opened Anchors
  import opened ReviewStatuses
  import opened ObligationRecords
  import opened Structure

  // ---- Detect ----

  const MODALS := ["shall", "must", "may", "should"]

  /** `t in s` on strings. */
  predicate Contains(s: string, t: string) {
    exists i | 0 <= i <= |s| :: OccursAt(s, t, i)
  }

  predicate OccursAt(s: string, t: string, i: nat) {
    i + |t| <= |s| && s[i..i + |t|] == t
  }

  /** The word occurs between spaces in the lowered text. */
  predicate HasWord(lower: string -> string, text: string, word: string) {
    Contains(" " + lower(text) + " ", " " + word + " ")
  }

  /** The `i`-th word is the first of them that occurs. */
  ghost predicate FirstIn(lower: string -> string, text: string, words: seq<string>, i: int) {
    0 <= i < |words| && HasWord(lower, text, words[i]) && forall j :: 0 <= j < i ==> !HasWord(lower, text, words[j])
  }

  function FirstWord(lower: string -> string, text: string, words: seq<string>): (r: Option<string>)
    ensures r.Some? ==> exists i :: FirstIn(lower, text, words, i) && r.value == words[i]
    ensures r.None? <==> forall w :: w in words ==> !HasWord(lower, text, w)
  {
    if words == [] then None
    else if HasWord(lower, text, words[0]) then
      assert FirstIn(lower, text, words, 0);
      Some(words[0])
    else
      var r := FirstWord(lower, text, words[1..]);
      assert forall i :: FirstIn(lower, text, words[1..], i) ==> FirstIn(lower, text, words, i + 1);
      r
  }

  datatype Detection = Detection(anchor: string, start: int, end: int, text: string, modal: Option<string>)

  function DetectionOf(lower: string -> string, text: string, a: Anchor): Detection {
    var slice := PySlice(text, a.start, a.end);
    Detection(a.id, a.start, a.end, slice, FirstWord(lower, slice, MODALS))
  }

  /** One detection per paragraph anchor. */
  function Detections(lower: string -> string, text: string, anchors: seq<Anchor>): seq<Detection> {
    if anchors == [] then []
    else
      var last := anchors[|anchors| - 1];
      Detections(lower, text, anchors[..|anchors| - 1]) + if last.kind == Paragraph then
        [DetectionOf(lower, text, last)] else []
  }

  method DetectNormativeSpans(lower: string -> string, text: string, anchors: seq<Anchor>)
    returns (results: seq<Detection>)
    ensures results == Detections(lower, text, anchors)
  {
    results := [];
    var i := 0;
    while i < |anchors|
      invariant i <= |anchors| && results == Detections(lower, text, anchors[..i])
    {
      assert anchors[..i + 1][..i] == anchors[..i];
      if anchors[i].kind == Paragraph {
        var slice := PySlice(text, anchors[i].start, anchors[i].end);
        var matched := FirstWord(lower, slice, MODALS);
        results := results + [Detection(anchors[i].id, anchors[i].start, anchors[i].end, slice, matched)];
      }
      i := i + 1;
    }
    assert anchors[..i] == anchors;
  }

  // ---- Decompose ----

  datatype Span = Span(id: string, anchor: string, start: int, end: int, text: string)

  function SpanOf(d: Detection): Span {
    Span(d.anchor + ":span-0", d.anchor, d.start, d.end, d.text)
  }

  /** One span per normative detection. */
  function Spans(ds: seq<Detection>): seq<Span> {
    if ds == [] then []
    else
      var last := ds[|ds| - 1];
      Spans(ds[..|ds| - 1]) + if last.modal.Some? then [SpanOf(last)] else []
  }

  method DecomposeNormativeSpans(detections: seq<Detection>) returns (candidates: seq<Span>)
    ensures candidates == Spans(detections)
  {
    candidates := [];
    var i := 0;
    while i < |detections|
      invariant i <= |detections| && candidates == Spans(detections[..i])
    {
      var d := detections[i];
      assert detections[..i + 1][..i] == detections[..i];
      i := i + 1;
      if d.modal.None? {
        continue;
      }
      candidates := candidates + [SpanOf(d)];
    }
    assert detections[..i] == detections;
  }

  /** A paragraph that carries a modal verb. */
  predicate Normative(lower: string -> string, text: string, a: Anchor) {
    a.kind == Paragraph && exists w | w in MODALS :: HasWord(lower, PySlice(text, a.start, a.end), w)
  }

  function SpanAt(text: string, a: Anchor): Span {
    Span(a.id + ":span-0", a.id, a.start, a.end, PySlice(text, a.start, a.end))
  }

  function SpansAt(text: string, anchors: seq<Anchor>): (spans: seq<Span>)
    ensures |spans| == |anchors| && forall i :: 0 <= i < |anchors| ==> spans[i] == SpanAt(text, anchors[i])
  {
    seq(|anchors|, i requires 0 <= i < |anchors| => SpanAt(text, anchors[i]))
  }

  /** The normative paragraphs, in document order. */
  function NormativeParagraphs(lower: string -> string, text: string, anchors: seq<Anchor>): seq<Anchor> {
    Filter((a: Anchor) => Normative(lower, text, a), anchors)
  }

  /** The spans are exactly the normative paragraphs, in document order, each
      carrying its slice of the text. */
  lemma {:induction false} SpansAreNormativeParagraphs(lower: string -> string, text: string, anchors: seq<Anchor>)
    ensures Spans(Detections(lower, text, anchors)) == SpansAt(text, NormativeParagraphs(lower, text, anchors))
  {
    hide Normative, DetectionOf, SpanAt, SpanOf;
    if anchors == [] {
      assert NormativeParagraphs(lower, text, anchors) == [] && SpansAt(text, []) == [];
    } else {
      var front, last := anchors[..|anchors| - 1], anchors[|anchors| - 1];
      SpansAreNormativeParagraphs(lower, text, front);
      var ds, found := Detections(lower, text, front), NormativeParagraphs(lower, text, front);
      NormativeIsDetected(lower, text, last);
      SpansSnoc(ds, DetectionOf(lower, text, last));
      assert ds + [] == ds && found + [] == found && Spans(ds) + [] == Spans(ds);
      assert SpansAt(text, found + [last]) == SpansAt(text, found) + [SpanAt(text, last)];
    }
  }

  lemma NormativeIsDetected(lower: string -> string, text: string, a: Anchor)
    ensures Normative(lower, text, a) <==> a.kind == Paragraph && DetectionOf(lower, text, a).modal.Some?
    ensures SpanOf(DetectionOf(lower, text, a)) == SpanAt(text, a)
  {
    hide HasWord, PySlice;
  }

  lemma SpansSnoc(ds: seq<Detection>, d: Detection)
    ensures Spans(ds + [d]) == Spans(ds) + if d.modal.Some? then [SpanOf(d)] else []
  {
    assert (ds + [d])[..|ds|] == ds;
  }

  // ---- Extract and resolve ----

  datatype Deadline = AbsoluteDate(date: string) | RelativePeriod(phrase: string, period: string)

  /** The parts of the rule-based extractor that are regular expressions or
      Unicode tables: lowering, conditions, exceptions, deadlines, article mentions. */
  datatype Fixture = Fixture(lower: string -> string, conditions: string -> seq<string>,
    exceptions: string -> seq<string>,
                             deadline: string -> Option<Deadline>, mentions: string -> seq<string>)

  const DEFAULT_VOCABULARY :=
    ["operator", "essential entity", "important entity", "competent authority", "CSIRT", "manufacturer", "provider"]

  function Vocabulary(given: seq<string>): seq<string> {
    if given == [] then DEFAULT_VOCABULARY else given
  }

  /** Tried in an order of its own; without any modal the default is "shall". */
  function Modality(lower: string -> string, text: string): string {
    match FirstWord(lower, text, ["shall", "must", "should", "may"]) case Some(w) => w case None => "shall"
  }

  function NormType(modality: string): string {
    if modality == "may" then "permission" else "obligation"
  }

  function Strings(s: seq<string>): Json {
    Arr(seq(|s|, i requires 0 <= i < |s| => Str(s[i])))
  }

  function Actors(lower: string -> string, text: string, vocabulary: seq<string>): (r: seq<string>)
    ensures r != []
  {
    var matches := Filter((term: string) => Contains(lower(text), lower(term)), vocabulary);
    if matches == [] then ["unspecified_actor"] else matches
  }

  function DeadlineJson(d: Option<Deadline>): Json {
    match d
    case None => Null
    case Some(AbsoluteDate(date)) => Obj(map["type" := Str("absolute_date"), "value" := Str(date), "normalized_iso" := Str(date)])
    case Some(RelativePeriod(phrase, period)) =>
      Obj(map["type" := Str("relative_period"), "value" := Str(phrase), "normalized_iso" := Str("P" + period)])
  }

  /** Semantics after extraction and deadline resolution. */
  function FixtureSemantics(x: Fixture, vocabulary: seq<string>, span: Span, title: Option<string>): Fields {
    var modality := Modality(x.lower, span.text);
    var action := PySlice(Strip(span.text), 0, 200);
    var subject := if title.Some? && title.value != "" then title.value else span.anchor;
    map["norm_type" := Str(NormType(modality)), "actor" := Strings(Actors(x.lower, span.text, Vocabulary(vocabulary))),
        "modality" := Str(modality), "action" := Str(action), "object" := Str(subject), "scope" := Str("EU"),
          "trigger" := Null,
        "deadline" := DeadlineJson(x.deadline(action + " " + subject)), "frequency" := Null,
        "conditions" := Strings(x.conditions(span.text)), "exceptions" := Strings(x.exceptions(span.text))]
  }

  /** Whatever fills the semantics and the article mentions of a span. */
  datatype Agent = Agent(semantics: (Span, Option<string>) -> Fields, mentions: string -> seq<string>)

  function FixtureAgent(x: Fixture, vocabulary: seq<string>): Agent {
    Agent((span, title) => FixtureSemantics(x, vocabulary, span, title), x.mentions)
  }

  datatype Job = Job(document: string, version: string, instrument: string, anchors: seq<Anchor>)

  /** `{anchor_id: label}`: the last anchor with the identifier. */
  function TitleOf(anchors: seq<Anchor>, id: string): Option<string> {
    if anchors == [] then None
    else if anchors[|anchors| - 1].id == id then anchors[|anchors| - 1].title
    else TitleOf(anchors[..|anchors| - 1], id)
  }

  function EvidenceOf(env: Env, span: Span): Fields {
    map["anchor_id" := Str(span.anchor), START := Num(span.start), END := Num(span.end), TEXT := Str(span.text),
      HASH := Str(env.hash(span.text))]
  }

  /** The proposal for one span after steps 4 and 5. The pipeline offers no
      candidate mentions, so no target is ever resolved. */
  function ProposalFor(env: Env, agent: Agent, job: Job, span: Span): Proposal {
    Proposal(
      Identity(job.document, job.version, job.instrument, BuildClauseId(job.document, job.version, span.anchor)),
      agent.semantics(span, TitleOf(job.anchors, span.anchor)),
      EvidenceOf(env, span),
      References(agent.mentions(span.text), []),
      Governance(Pending, []))
  }
}
