/** Runs that mix parse jobs and review decisions on one document, and what the
    rule-based extractor adds. */
module PipelineRuns {
  import opened Common
  import opened Json
  import opened Whitespace
  import opened Anchors
  import opened ReviewStatuses
  import opened ObligationRecords
  import opened Structure
  import opened Validator
  import opened Review
  import opened ReviewRuns
  import opened Extraction
  import opened ParseJobs
  import StructureShape

  datatype Event =
    | Parse(agent: Agent, lower: string -> string, job: Job)
    | Decided(call: Call)

  function AfterEvent(env: Env, source: Source, rows: Table, e: Event): Table {
    match e
    case Parse(agent, lower, job) => StoreAll(env, agent, job, source, rows,
      Spans(Detections(lower, env.text, job.anchors))).rows
    case Decided(call) => AfterCall(env, rows, call)
  }

  function RunEvents(env: Env, source: Source, es: seq<Event>): Table {
    if es == [] then [] else AfterEvent(env, source, RunEvents(env, source, es[..|es| - 1]), es[|es| - 1])
  }

  ghost predicate FreshIds(source: Source) {
    forall i: nat, j: nat :: i < j ==> source.id(i) != source.id(j)
  }

  /** A record as the pipeline stores it: unreviewed, with evidence that replays. */
  ghost predicate Unreviewed(env: Env, p: Proposal) {
    p.governance.history == [] && p.governance.status in {Pending, Escalated} && EvidenceOk(env, p.evidence)
  }

  /** A record that came out of the pipeline and saw some decisions since. */
  ghost predicate Reviewable(env: Env, p: Proposal) {
    exists p0, ds :: Unreviewed(env, p0) && p == RunRecord(env, p0, ds)
  }

  lemma UnreviewedIsReviewable(env: Env, p: Proposal)
    requires Unreviewed(env, p)
    ensures Reviewable(env, p)
  {
    assert p == RunRecord(env, p, []);
  }

  lemma StillReviewable(env: Env, p: Proposal, d: Decision)
    requires Reviewable(env, p)
    ensures Reviewable(env, After(env, p, d))
  {
    hide Unreviewed, After;
    var p0, ds :| Unreviewed(env, p0) && p == RunRecord(env, p0, ds);
    assert (ds + [d])[..|ds|] == ds;
    assert After(env, p, d) == RunRecord(env, p0, ds + [d]);
  }

  lemma StoredIsUnreviewed(env: Env, agent: Agent, job: Job, span: Span)
    requires Sliced(env, span) && Storable(env, agent, job, span).Ok?
    ensures Unreviewed(env, Storable(env, agent, job, span).value.0)
  {
    hide Validator.Validate, EvidenceOk, HashMatches, ClauseIdDerived;
    ExtractedEvidence(env, agent, job, span);
  }

  ghost predicate Sound(env: Env, source: Source, rows: Table) {
    && (forall i :: 0 <= i < |rows| ==> rows[i].id == source.id(i))
    && (forall i :: 0 <= i < |rows| ==> Reviewable(env, rows[i].proposal))
  }

  lemma JobKeepsSound(env: Env, source: Source, rows: Table, agent: Agent, lower: string -> string, job: Job)
    requires Sound(env, source, rows)
    ensures Sound(env, source, AfterEvent(env, source, rows, Parse(agent, lower, job)))
  {
    hide Storable, StoreAll, Reviewable;
    var spans := Spans(Detections(lower, env.text, job.anchors));
    SpansAreNormativeParagraphs(lower, env.text, job.anchors);
    StoreAllMeaning(env, agent, job, source, rows, spans);
    var t := StoreAll(env, agent, job, source, rows, spans).rows;
    forall i | 0 <= i < |t| ensures t[i].id == source.id(i) && Reviewable(env, t[i].proposal) {
      if i < |rows| {
        assert t[i] == rows[i];
      } else {
        assert IsRow(env, agent, job, source, spans[i - |rows|], t[i], i);
        StoredIsUnreviewed(env, agent, job, spans[i - |rows|]);
        UnreviewedIsReviewable(env, t[i].proposal);
      }
    }
  }

  lemma DecisionKeepsSound(env: Env, source: Source, rows: Table, c: Call)
    requires FreshIds(source) && Sound(env, source, rows)
    ensures Sound(env, source, AfterEvent(env, source, rows, Decided(c)))
  {
    hide Reviewable, AfterCall, After;
    CallIsDecision(env, rows, c);
    var t := AfterCall(env, rows, c);
    forall i | 0 <= i < |t| ensures t[i].id == source.id(i) && Reviewable(env, t[i].proposal) {
      StillReviewable(env, rows[i].proposal, c.decision);
    }
  }

  lemma {:induction false} RunIsSound(env: Env, source: Source, es: seq<Event>)
    requires FreshIds(source)
    ensures Sound(env, source, RunEvents(env, source, es))
    decreases |es|
  {
    hide Sound, AfterEvent, FreshIds;
    if es == [] {
      NothingIsSound(env, source);
    } else {
      RunIsSound(env, source, es[..|es| - 1]);
      var rows, e := RunEvents(env, source, es[..|es| - 1]), es[|es| - 1];
      match e
      case Parse(agent, lower, job) => JobKeepsSound(env, source, rows, agent, lower, job);
      case Decided(call) => DecisionKeepsSound(env, source, rows, call);
    }
  }

  lemma NothingIsSound(env: Env, source: Source)
    ensures Sound(env, source, [])
  {
  }

  /** After any mix of parse jobs and review decisions on a document, every stored
      record's text is the document sliced at its offsets, its hash is the hash of
      that text, and an accepted or edited status has been earned. */
  lemma StoredRecords(env: Env, source: Source, es: seq<Event>, r: Revision)
    requires FreshIds(source) && r in RunEvents(env, source, es)
    ensures EvidenceOk(env, r.proposal.evidence)
    ensures var g := r.proposal.governance;
      && (g.status in {Accepted, Edited} ==> g.history != [] && g.history[|g.history| - 1].action in {Accept, Edit})
      && forall e :: e in g.history ==> !Blank(e.rationale)
  {
    hide EvidenceOk, RunEvents, RunRecord, Blank;
    RunIsSound(env, source, es);
    var rows := RunEvents(env, source, es);
    var i :| 0 <= i < |rows| && rows[i] == r;
    assert Reviewable(env, rows[i].proposal);
    var p0, ds :| Unreviewed(env, p0) && r.proposal == RunRecord(env, p0, ds);
    RunKeepsEvidence(env, p0, ds);
    ReviewedIsEarned(env, p0, ds);
  }

  // ---- The rule-based extractor ----

  /** Date matches are never empty. */
  ghost predicate DatesMatch(x: Fixture) {
    forall s :: x.deadline(s).Some? && x.deadline(s).value.AbsoluteDate? ==> x.deadline(s).value.date != ""
  }

  lemma FieldNamesDiffer()
    ensures "actor" != "scope" && "modality" != "deadline" && "norm_type" != "frequency"
  {
    assert "actor"[0] != "scope"[0] && "modality"[0] != "deadline"[0] && "norm_type"[0] != "frequency"[0];
  }

  lemma FixtureFields(x: Fixture, vocabulary: seq<string>, span: Span, title: Option<string>)
    ensures var s := FixtureSemantics(x, vocabulary, span, title);
      && Get(s, "modality") == Str(Modality(x.lower, span.text))
      && Get(s, "norm_type") == Str(NormType(Modality(x.lower, span.text)))
      && Get(s, "actor") == Strings(Actors(x.lower, span.text, Vocabulary(vocabulary)))
      && exists t :: Get(s, "deadline") == DeadlineJson(x.deadline(t))
  {
    hide Modality, NormType, Strings, Actors, DeadlineJson, PySlice, Strip, Vocabulary;
    FieldNamesDiffer();
    var subject := if title.Some? && title.value != "" then title.value else span.anchor;
    var action := PySlice(Strip(span.text), 0, 200);
    assert Get(FixtureSemantics(x, vocabulary, span, title), "deadline")
      == DeadlineJson(x.deadline(action + " " + subject));
  }

  lemma VocabularyPasses(semantics: Fields, modality: string)
    requires Get(semantics, "modality") == Str(modality) && Get(semantics, "norm_type") == Str(NormType(modality))
    requires Str(modality) in MODALITIES && Str(NormType(modality)) in NORM_TYPES
    ensures CheckVocabulary(semantics) == Ok(Pass)
  {
    hide NormType;
  }

  lemma ConsistencyPasses(semantics: Fields, norm: string)
    requires Get(semantics, "norm_type") == Str(norm) && norm != "definition_only" && Truthy(Get(semantics, "actor"))
    ensures CheckConsistency(semantics) == Pass
  {
  }

  /** The rule-based extractor never produces anything the validator objects to:
      its proposals pass outright unless they break the record schema. */
  lemma FixturePasses(env: Env, x: Fixture, vocabulary: seq<string>, job: Job, span: Span)
    requires Sliced(env, span) && DatesMatch(x)
    ensures var p := ProposalFor(env, FixtureAgent(x, vocabulary), job, span);
      Validator.Validate(env, p).Ok? && Validator.Validate(env, p).value.overall == if env.schema(p) then AllPass
        else HardFail
  {
    hide EvidenceOk, HashMatches, FixtureSemantics, Strings, Actors, DeadlineJson, BuildClauseId, EvidenceOf, TitleOf;
    hide CheckFidelity, Failed, Modality, NormType, CheckVocabulary, CheckConsistency, CheckDate;
    var agent := FixtureAgent(x, vocabulary);
    var p := ProposalFor(env, agent, job, span);
    ExtractedEvidence(env, agent, job, span);
    FixtureFields(x, vocabulary, span, TitleOf(job.anchors, span.anchor));
    ModalityIsKnown(x.lower, span.text);
    ActorsTruthy(Actors(x.lower, span.text, Vocabulary(vocabulary)));
    assert CheckVocabulary(p.semantics) == Ok(Pass) by {
      VocabularyPasses(p.semantics, Modality(x.lower, span.text));
    }
    assert CheckFidelity(env, p.evidence) == Ok(Pass) by { FidelityPasses(env, span); }
    assert CheckDate(p.semantics) == Ok(Pass) by {
      var t :| Get(p.semantics, "deadline") == DeadlineJson(x.deadline(t));
      DatePasses(x, p.semantics, t);
    }
    assert CheckConsistency(p.semantics) == Pass by {
      ConsistencyPasses(p.semantics, NormType(Modality(x.lower, span.text)));
    }
    OnlySchemaCanFail(env, p);
  }

  lemma ModalityIsKnown(lower: string -> string, text: string)
    ensures Str(Modality(lower, text)) in MODALITIES && Str(NormType(Modality(lower, text))) in NORM_TYPES
    ensures NormType(Modality(lower, text)) != "definition_only"
  {
    assert |"definition_only"| == 15 && |"permission"| == 10 && |"obligation"| == 10;
  }

  lemma ActorsTruthy(actors: seq<string>)
    requires actors != []
    ensures Truthy(Strings(actors))
  {
    assert |Strings(actors).items| == |actors|;
  }

  lemma FidelityPasses(env: Env, span: Span)
    requires Sliced(env, span)
    ensures CheckFidelity(env, EvidenceOf(env, span)) == Ok(Pass)
  {
    EvidenceFields(env, span);
  }

  lemma DeadlinePasses(x: Fixture, t: string)
    requires DatesMatch(x)
    ensures match DeadlineJson(x.deadline(t))
      case Null => true
      case Obj(d) => Get(d, "type") in DEADLINE_TYPES && Truthy(Get(d, "normalized_iso"))
      case _ => false
  {
    assert |"type"| == 4 && |"value"| == 5 && |"normalized_iso"| == 14;
    if x.deadline(t).Some? && x.deadline(t).value.RelativePeriod? {
      assert ("P" + x.deadline(t).value.period)[0] == 'P';
    }
  }

  lemma DatePasses(x: Fixture, semantics: Fields, t: string)
    requires DatesMatch(x) && Get(semantics, "deadline") == DeadlineJson(x.deadline(t))
    ensures CheckDate(semantics) == Ok(Pass)
  {
    hide DeadlineJson;
    DeadlinePasses(x, t);
  }

  lemma OnlySchemaCanFail(env: Env, p: Proposal)
    requires CheckVocabulary(p.semantics) == Ok(Pass) && CheckFidelity(env, p.evidence) == Ok(Pass)
      && CheckDate(p.semantics) == Ok(Pass)
    requires CheckConsistency(p.semantics) == Pass && p.references.targets == []
    ensures Validator.Validate(env, p).Ok? && Validator.Validate(env, p).value.overall == if env.schema(p) then AllPass
      else HardFail
  {
    hide CheckVocabulary, CheckFidelity, CheckDate, CheckConsistency;
    var checks := ChecksFor(env, p).value;
    assert checks[0] == Check(SchemaValidity, Verdict(env.schema(p)));
    assert forall i :: 1 <= i < 7 ==> checks[i].status == Pass;
    if !env.schema(p) {
      assert checks[0] in checks;
    }
  }

  /** So a job with the rule-based extractor completes exactly when every normative
      paragraph's record fits the schema, and then all of them pass. */
  lemma FixtureJob(env: Env, x: Fixture, vocabulary: seq<string>, job: Job, source: Source, rows: Table)
    requires StatusBlind(env) && DatesMatch(x)
    ensures var agent := FixtureAgent(x, vocabulary);
      var spans := Spans(Detections(x.lower, env.text, job.anchors));
      var done := StoreAll(env, agent, job, source, rows, spans);
      && (done.failure.None? <==> forall s :: s in spans ==> env.schema(ProposalFor(env, agent, job, s)))
      && (done.failure.None? ==> Tally(done.rows[|rows|..]) == Summary(|spans|, |spans|, 0, 0))
  {
    hide Storable, StatusBlind, DatesMatch, StoreAll, ProposalFor, FixtureAgent, Validator.Validate;
    var agent := FixtureAgent(x, vocabulary);
    var spans := Spans(Detections(x.lower, env.text, job.anchors));
    var done := StoreAll(env, agent, job, source, rows, spans);
    SpansAreNormativeParagraphs(x.lower, env.text, job.anchors);
    StoreAllMeaning(env, agent, job, source, rows, spans);
    forall k | 0 <= k < |spans|
      ensures Storable(env, agent, job, spans[k]).Ok? <==> env.schema(ProposalFor(env, agent, job, spans[k]))
      ensures Storable(env, agent, job, spans[k]).Ok? ==> Storable(env, agent, job, spans[k]).value.1.overall == AllPass
    {
      FixtureSpan(env, x, vocabulary, job, spans[k]);
    }
    if done.failure.None? {
      var mine := done.rows[|rows|..];
      forall k | 0 <= k < |spans| ensures Storable(env, agent, job, spans[k]).Ok? && mine[k].report.overall == AllPass {
        assert IsRow(env, agent, job, source, spans[|rows| + k - |rows|], done.rows[|rows| + k], |rows| + k);
      }
      AllPassed(mine);
      forall s | s in spans ensures env.schema(ProposalFor(env, agent, job, s)) {
        var k :| 0 <= k < |spans| && spans[k] == s;
      }
    } else {
      var s := spans[|done.rows| - |rows|];
      assert s in spans && Storable(env, agent, job, s).Err?;
    }
  }

  lemma FixtureSpan(env: Env, x: Fixture, vocabulary: seq<string>, job: Job, span: Span)
    requires StatusBlind(env) && DatesMatch(x) && Sliced(env, span)
    ensures var agent := FixtureAgent(x, vocabulary);
      && (Storable(env, agent, job, span).Ok? <==> env.schema(ProposalFor(env, agent, job, span)))
      && (Storable(env, agent, job, span).Ok? ==> Storable(env, agent, job, span).value.1.overall == AllPass)
  {
    hide StatusBlind, DatesMatch, ProposalFor, FixtureAgent, Validator.Validate, Writable;
    FixturePasses(env, x, vocabulary, job, span);
    StoredSpan(env, FixtureAgent(x, vocabulary), job, span);
  }

  lemma {:induction false} AllPassed(rows: Table)
    requires forall k :: 0 <= k < |rows| ==> rows[k].report.overall == AllPass
    ensures Tally(rows) == Summary(|rows|, |rows|, 0, 0)
    decreases |rows|
  {
    if rows != [] {
      var front := rows[..|rows| - 1];
      assert rows == front + [rows[|rows| - 1]];
      AllPassed(front);
    }
  }

  /** The modality recorded for a paragraph is a word of its text, and it is
      recorded as a permission exactly when that word is "may". */
  lemma RecordedModality(env: Env, x: Fixture, vocabulary: seq<string>, job: Job, span: Span)
    requires span in Spans(Detections(x.lower, env.text, job.anchors))
    ensures var s := ProposalFor(env, FixtureAgent(x, vocabulary), job, span).semantics;
      exists w :: w in MODALS && HasWord(x.lower, span.text, w) && Get(s, "modality") == Str(w)
                  && (Get(s, "norm_type") == Str("permission") <==> w == "may")
  {
    hide HasWord, FixtureSemantics, PySlice, Modality, Normative, Spans, Detections, NormativeParagraphs;
    SpansAreNormativeParagraphs(x.lower, env.text, job.anchors);
    FixtureFields(x, vocabulary, span, TitleOf(job.anchors, span.anchor));
    var found := NormativeParagraphs(x.lower, env.text, job.anchors);
    var k :| 0 <= k < |found| && span == SpanAt(env.text, found[k]);
    FoundIsNormative(x.lower, env.text, job.anchors, found[k]);
    ModalityOccurs(x.lower, env.text, found[k]);
    assert "permission"[0] != "obligation"[0];
  }

  lemma FoundIsNormative(lower: string -> string, text: string, anchors: seq<Anchor>, a: Anchor)
    requires a in NormativeParagraphs(lower, text, anchors)
    ensures Normative(lower, text, a)
  {
    hide Normative;
  }

  /** The modality of a normative paragraph is one of its words. */
  lemma ModalityOccurs(lower: string -> string, text: string, a: Anchor)
    requires Normative(lower, text, a)
    ensures var w := Modality(lower, SpanAt(text, a).text); w in MODALS && HasWord(lower, SpanAt(text, a).text, w)
  {
    hide HasWord, PySlice;
    var tried := ["shall", "must", "should", "may"];
    assert forall w :: w in MODALS <==> w in tried;
    var r := FirstWord(lower, SpanAt(text, a).text, tried);
    if r.Some? {
      var i :| FirstIn(lower, SpanAt(text, a).text, tried, i) && r.value == tried[i];
      assert tried[i] in tried;
    }
  }

  // ---- Clause identifiers ----

  ghost predicate AnchoredIn(job: Job, id: string) {
    exists path :: id == MakeAnchorId(job.document, job.version, path)
  }

  lemma LastPartExtends(s: string, path: string)
    requires FirstColon(s) < |s| && FirstColon(s[FirstColon(s) + 1..]) < |s[FirstColon(s) + 1..]|
    ensures LastPart(s + path) == LastPart(s) + path
  {
    hide FirstColon;
    var i := FirstColon(s);
    FirstColonExtends(s, path);
    var rest := s[i + 1..];
    assert (s + path)[i + 1..] == rest + path;
    FirstColonExtends(rest, path);
    var j := FirstColon(rest);
    assert (rest + path)[j + 1..] == rest[j + 1..] + path;
  }

  lemma {:induction false} FirstColonExtends(s: string, path: string)
    requires FirstColon(s) < |s|
    ensures FirstColon(s + path) == FirstColon(s)
  {
    if s[0] != ':' {
      assert (s + path)[1..] == s[1..] + path;
      FirstColonExtends(s[1..], path);
    }
  }

  lemma {:induction false} HasColon(s: string, i: nat)
    requires i < |s| && s[i] == ':'
    ensures FirstColon(s) <= i
  {
    if s[0] != ':' {
      HasColon(s[1..], i - 1);
    }
  }

  /** What a clause id puts before the structural path. */
  function ClauseHead(document: string, version: string): string {
    var s := document + ":" + version + ":";
    s + LastPart(s)
  }

  lemma ClauseIdForm(document: string, version: string, path: string)
    ensures BuildClauseId(document, version, MakeAnchorId(document, version, path))
      == ClauseHead(document, version) + path
  {
    hide FirstColon, LastPart;
    var s := document + ":" + version + ":";
    TwoColons(document, version);
    assert MakeAnchorId(document, version, path) == s + path;
    LastPartExtends(s, path);
    assert MakeAnchorId(document, version, LastPart(s + path)) == s + (LastPart(s) + path) == s + LastPart(s) + path;
  }

  lemma TwoColons(document: string, version: string)
    ensures var s := document + ":" + version + ":";
      FirstColon(s) < |s| && FirstColon(s[FirstColon(s) + 1..]) < |s[FirstColon(s) + 1..]|
  {
    hide FirstColon;
    var s := document + ":" + version + ":";
    HasColon(s, |document|);
    var rest := s[FirstColon(s) + 1..];
    assert rest[|rest| - 1] == ':';
    HasColon(rest, |rest| - 1);
  }

  /** Different anchors of a document get different clause ids, whatever characters
      the document id and version contain. */
  lemma ClauseIdsDiffer(document: string, version: string, p: string, q: string)
    requires p != q
    ensures BuildClauseId(document, version, MakeAnchorId(document, version, p)) != BuildClauseId(document, version,
      MakeAnchorId(document, version, q))
  {
    hide BuildClauseId, MakeAnchorId, ClauseHead;
    ClauseIdForm(document, version, p);
    ClauseIdForm(document, version, q);
    var head := ClauseHead(document, version);
    assert (head + p)[|head|..] == p && (head + q)[|head|..] == q;
  }

  lemma {:induction false} FilterDistinct(p: Anchor -> bool, anchors: seq<Anchor>)
    requires Distinct(Ids(anchors))
    ensures Distinct(Ids(Filter(p, anchors)))
  {
    if anchors != [] {
      var n := |anchors| - 1;
      var front := anchors[..n];
      assert Distinct(Ids(front)) by {
        assert forall i :: 0 <= i < n ==> Ids(front)[i] == Ids(anchors)[i];
      }
      FilterDistinct(p, front);
      var kept := Filter(p, front);
      forall i | 0 <= i < |kept| ensures kept[i].id != anchors[n].id {
        assert kept[i] in kept;
        var j :| 0 <= j < n && front[j] == kept[i];
        assert Ids(anchors)[j] != Ids(anchors)[n];
      }
      var all := Filter(p, anchors);
      forall i, j | 0 <= i < j < |all| ensures Ids(all)[i] != Ids(all)[j] {
        if j < |kept| { assert Ids(kept)[i] != Ids(kept)[j]; }
      }
    }
  }

  /** The rows one job stores have pairwise distinct clause ids, when the structure
      passed its collision check. */
  lemma JobClauseIdsDistinct(env: Env, agent: Agent, lower: string -> string, job: Job, source: Source, rows: Table,
                             i: nat, j: nat)
    requires Distinct(Ids(job.anchors)) && forall a :: a in job.anchors ==> AnchoredIn(job, a.id)
    requires |rows| <= i < j < |StoreAll(env, agent, job, source, rows,
      Spans(Detections(lower, env.text, job.anchors))).rows|
    ensures var t := StoreAll(env, agent, job, source, rows, Spans(Detections(lower, env.text, job.anchors))).rows;
      t[i].clauseId != t[j].clauseId
  {
    hide StoreAll, AnchoredIn, Distinct, NormativeParagraphs, MakeAnchorId, BuildClauseId, Detections, Spans, Ids;
    JobRow(env, agent, lower, job, source, rows, i);
    JobRow(env, agent, lower, job, source, rows, j);
    NormativeAnchors(lower, env.text, job.anchors, i - |rows|, j - |rows|);
    var found := NormativeParagraphs(lower, env.text, job.anchors);
    var p := PathIn(job, found[i - |rows|].id);
    var q := PathIn(job, found[j - |rows|].id);
    ClauseIdsDiffer(job.document, job.version, p, q);
  }

  /** The clause id of a stored row comes from its paragraph's anchor. */
  lemma JobRow(env: Env, agent: Agent, lower: string -> string, job: Job, source: Source, rows: Table, i: nat)
    requires |rows| <= i < |StoreAll(env, agent, job, source, rows,
      Spans(Detections(lower, env.text, job.anchors))).rows|
    ensures var found := NormativeParagraphs(lower, env.text, job.anchors);
      var t := StoreAll(env, agent, job, source, rows, Spans(Detections(lower, env.text, job.anchors))).rows;
      && |t| - |rows| <= |found|
      && t[i].clauseId == BuildClauseId(job.document, job.version, found[i - |rows|].id)
  {
    hide Storable, StoreAll, NormativeParagraphs, BuildClauseId;
    var spans := Spans(Detections(lower, env.text, job.anchors));
    SpansAreNormativeParagraphs(lower, env.text, job.anchors);
    StoreAllMeaning(env, agent, job, source, rows, spans);
    var t := StoreAll(env, agent, job, source, rows, spans).rows;
    assert IsRow(env, agent, job, source, spans[i - |rows|], t[i], i);
    StoredClauseId(env, agent, job, spans[i - |rows|]);
  }

  lemma PathIn(job: Job, id: string) returns (path: string)
    requires AnchoredIn(job, id)
    ensures id == MakeAnchorId(job.document, job.version, path)
  {
    path :| id == MakeAnchorId(job.document, job.version, path);
  }

  lemma StoredClauseId(env: Env, agent: Agent, job: Job, span: Span)
    requires Storable(env, agent, job, span).Ok?
    ensures Storable(env, agent, job, span).value.0.identity.clauseId
      == BuildClauseId(job.document, job.version, span.anchor)
  {
    hide Validator.Validate;
  }

  lemma NormativeAnchors(lower: string -> string, text: string, anchors: seq<Anchor>, i: nat, j: nat)
    requires Distinct(Ids(anchors)) && i < j < |NormativeParagraphs(lower, text, anchors)|
    ensures var found := NormativeParagraphs(lower, text, anchors);
      found[i] in anchors && found[j] in anchors && found[i].id != found[j].id
  {
    hide Normative;
    FilterDistinct((a: Anchor) => Normative(lower, text, a), anchors);
    var found := NormativeParagraphs(lower, text, anchors);
    assert found[i] in found && found[j] in found;
    assert Ids(found)[i] != Ids(found)[j];
  }

  /** So for every structure the builder returns, with or without articles, a job on
      it stores rows with different clause ids. */
  lemma BuiltJobClauseIdsDistinct(d: Doc, env: Env, agent: Agent, lower: string -> string, job: Job, source: Source,
                                  rows: Table, i: nat, j: nat)
    requires Searches(d.m) && Built(d) == Ok(job.anchors) && job.document == d.id && job.version == d.version
    requires |rows| <= i < j < |StoreAll(env, agent, job, source, rows,
      Spans(Detections(lower, env.text, job.anchors))).rows|
    ensures var t := StoreAll(env, agent, job, source, rows, Spans(Detections(lower, env.text, job.anchors))).rows;
      t[i].clauseId != t[j].clauseId
  {
    hide Searches, Built, StoreAll, Spans, Detections, Distinct;
    BuiltAnchors(d, job);
    JobClauseIdsDistinct(env, agent, lower, job, source, rows, i, j);
  }

  /** A structure that was built satisfies what clause ids rest on. */
  lemma BuiltAnchors(d: Doc, job: Job)
    requires Searches(d.m) && Built(d) == Ok(job.anchors) && job.document == d.id && job.version == d.version
    ensures Distinct(Ids(job.anchors)) && forall a :: a in job.anchors ==> AnchoredIn(job, a.id)
  {
    hide Searches, Built, MakeAnchorId, Distinct;
    StructureShape.BuiltIff(d);
    forall a | a in job.anchors ensures AnchoredIn(job, a.id) {
      var i :| 0 <= i < |job.anchors| && job.anchors[i] == a;
      assert Ids(job.anchors)[i] == a.id;
      var path := StructureShape.BuiltPath(d, a.id);
    }
  }
}
