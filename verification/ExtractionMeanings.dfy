/** What the parse pipeline writes into a record, said about the paragraph and the job
    alone. */
module ExtractionMeanings {
  import opened Common
  import opened Json
  import opened Whitespace
  import opened Anchors
  import opened ReviewStatuses
  import opened ObligationRecords
  import opened Structure
  import opened Extraction

  // ---- Words ----

  /** The word stands between two spaces in the lowered text, padded with a space at
      either end. */
  ghost predicate Occurs(lower: string -> string, text: string, word: string) {
    exists i :: StandsAt(" " + lower(text) + " ", " " + word + " ", i)
  }

  ghost predicate StandsAt(s: string, t: string, i: int) {
    0 <= i <= i + |t| <= |s| && s[i..i + |t|] == t
  }

  lemma WordMeaning(lower: string -> string, text: string, word: string)
    ensures HasWord(lower, text, word) <==> Occurs(lower, text, word)
  {
    var s, t := " " + lower(text) + " ", " " + word + " ";
    if i :| 0 <= i <= |s| && OccursAt(s, t, i) {
      assert StandsAt(s, t, i);
    }
    if i :| StandsAt(s, t, i) {
      assert OccursAt(s, t, i);
    }
  }

  /** The first of the words that occurs, if one does. */
  ghost predicate FirstOf(lower: string -> string, text: string, words: seq<string>, r: Option<string>) {
    match r
    case None => forall i :: 0 <= i < |words| ==> !Occurs(lower, text, words[i])
    case Some(w) => exists i :: IsFirst(lower, text, words, i) && w == words[i]
  }

  ghost predicate IsFirst(lower: string -> string, text: string, words: seq<string>, i: int) {
    0 <= i < |words| && Occurs(lower, text, words[i]) && forall j :: 0 <= j < i ==> !Occurs(lower, text, words[j])
  }

  lemma FirstWordMeaning(lower: string -> string, text: string, words: seq<string>)
    ensures FirstOf(lower, text, words, FirstWord(lower, text, words))
  {
    hide Occurs, HasWord;
    forall w ensures HasWord(lower, text, w) <==> Occurs(lower, text, w) {
      WordMeaning(lower, text, w);
    }
    var r := FirstWord(lower, text, words);
    if r.Some? {
      var i :| FirstIn(lower, text, words, i) && r.value == words[i];
      assert IsFirst(lower, text, words, i);
    }
  }

  /** A paragraph is normative when one of the four modal verbs occurs in its slice. */
  lemma NormativeMeaning(lower: string -> string, text: string, a: Anchor)
    ensures Normative(lower, text, a) <==>
      a.kind == Paragraph && exists w :: w in ["shall", "must", "may", "should"] && Occurs(lower, PySlice(text, a.start, a.end), w)
  {
    hide Occurs, HasWord, PySlice;
    forall w
      ensures HasWord(lower, PySlice(text, a.start, a.end), w) <==> Occurs(lower, PySlice(text, a.start, a.end), w)
    {
      WordMeaning(lower, PySlice(text, a.start, a.end), w);
    }
  }

  /** A detection carries the anchor's place, its slice, and its first modal verb. */
  lemma DetectionMeaning(lower: string -> string, text: string, a: Anchor)
    ensures var d := DetectionOf(lower, text, a);
      && d.anchor == a.id && d.start == a.start && d.end == a.end && d.text == PySlice(text, a.start, a.end)
      && FirstOf(lower, d.text, ["shall", "must", "may", "should"], d.modal)
  {
    hide FirstOf, PySlice;
    FirstWordMeaning(lower, PySlice(text, a.start, a.end), MODALS);
  }

  // ---- The rule-based extractor ----

  /** The term occurs somewhere in the text, both lowered. */
  ghost predicate Mentions(lower: string -> string, text: string, term: string) {
    exists i :: StandsAt(lower(text), lower(term), i)
  }

  lemma MentionMeaning(lower: string -> string, text: string, term: string)
    ensures Contains(lower(text), lower(term)) <==> Mentions(lower, text, term)
  {
    if i :| 0 <= i <= |lower(text)| && OccursAt(lower(text), lower(term), i) {
      assert StandsAt(lower(text), lower(term), i);
    }
    if i :| StandsAt(lower(text), lower(term), i) {
      assert OccursAt(lower(text), lower(term), i);
    }
  }

  /** The terms that the extractor looks for. */
  ghost predicate IsVocabulary(given: seq<string>, used: seq<string>) {
    used == if given != [] then given
            else ["operator", "essential entity", "important entity", "competent authority", "CSIRT", "manufacturer",
              "provider"]
  }

  /** The recorded actors are the terms that the text mentions, or a placeholder. */
  lemma ActorsMeaning(lower: string -> string, text: string, given: seq<string>, used: seq<string>)
    requires IsVocabulary(given, used)
    ensures var found := Actors(lower, text, Vocabulary(given));
      if exists t :: t in used && Mentions(lower, text, t)
      then found == Filter((t: string) => Contains(lower(text), lower(t)), used)
           && forall t :: t in found <==> t in used && Mentions(lower, text, t)
      else found == ["unspecified_actor"]
  {
    hide Mentions, Contains;
    forall t ensures Contains(lower(text), lower(t)) <==> Mentions(lower, text, t) {
      MentionMeaning(lower, text, t);
    }
    var matches := Filter((t: string) => Contains(lower(text), lower(t)), used);
    if matches != [] {
      assert matches[0] in matches;
    }
  }

  lemma ModalityMeaning(lower: string -> string, text: string)
    ensures FirstOf(lower, text, ["shall", "must", "should", "may"], Some(Modality(lower, text)))
      || (FirstOf(lower, text, ["shall", "must", "should", "may"], None) && Modality(lower, text) == "shall")
  {
    hide FirstOf;
    FirstWordMeaning(lower, text, ["shall", "must", "should", "may"]);
  }

  /** The extractor fills eleven fields: the modality and the norm type it stands for,
      the actors, the stripped text up to 200 characters, the title or else the anchor,
      and the deadline found in those two. */
  lemma FixtureMeaning(x: Fixture, vocabulary: seq<string>, span: Span, title: Option<string>)
    ensures var f, modality := FixtureSemantics(x, vocabulary, span, title), Modality(x.lower, span.text);
      && Get(f, "modality") == Str(modality)
      && Get(f, "norm_type") == Str(if modality == "may" then "permission" else "obligation")
      && Get(f, "actor") == Strings(Actors(x.lower, span.text, Vocabulary(vocabulary)))
      && exists action, subject :: Get(f, "action") == Str(action) && Get(f, "object") == Str(subject)
           && IsAction(span.text, action) && IsSubject(title, span.anchor, subject)
           && IsDeadline(x.deadline(action + " " + subject), Get(f, "deadline"))
  {
    hide Modality, Actors, Strings, Strip, FixtureSemantics, DeadlineJson, IsDeadline;
    FixtureWords(x, vocabulary, span, title);
    var action, subject := FixtureText(x, vocabulary, span, title);
    DeadlineMeaning(x.deadline(action + " " + subject));
  }

  lemma FixtureWords(x: Fixture, vocabulary: seq<string>, span: Span, title: Option<string>)
    ensures var f, modality := FixtureSemantics(x, vocabulary, span, title), Modality(x.lower, span.text);
      && Get(f, "modality") == Str(modality)
      && Get(f, "norm_type") == Str(if modality == "may" then "permission" else "obligation")
      && Get(f, "actor") == Strings(Actors(x.lower, span.text, Vocabulary(vocabulary)))
  {
    hide Modality, Actors, Strings, Strip, DeadlineJson;
  }

  lemma FixtureText(x: Fixture, vocabulary: seq<string>, span: Span, title: Option<string>)
    returns (action: string, subject: string)
    ensures var f := FixtureSemantics(x, vocabulary, span, title);
      && Get(f, "action") == Str(action) && Get(f, "object") == Str(subject)
      && Get(f, "deadline") == DeadlineJson(x.deadline(action + " " + subject))
    ensures IsAction(span.text, action) && IsSubject(title, span.anchor, subject)
  {
    hide Modality, Actors, Strings, Strip, DeadlineJson, NormType;
    action := PySlice(Strip(span.text), 0, 200);
    subject := if title.Some? && title.value != "" then title.value else span.anchor;
  }

  /** The other five are the conditions and exceptions found and three constants. */
  lemma FixtureRest(x: Fixture, vocabulary: seq<string>, span: Span, title: Option<string>)
    ensures var f := FixtureSemantics(x, vocabulary, span, title);
      && f.Keys == {"norm_type", "actor", "modality", "action", "object", "scope", "trigger", "deadline", "frequency",
                    "conditions", "exceptions"}
      && Get(f, "conditions") == Strings(x.conditions(span.text))
        && Get(f, "exceptions") == Strings(x.exceptions(span.text))
      && Get(f, "scope") == Str("EU") && Get(f, "trigger") == Null && Get(f, "frequency") == Null
  {
    hide Modality, Actors, Strings, Strip, DeadlineJson;
  }

  lemma DeadlineMeaning(d: Option<Deadline>)
    ensures IsDeadline(d, DeadlineJson(d))
  {
  }

  /** The text without the whitespace around it, at most 200 characters of it. */
  ghost predicate IsAction(text: string, action: string) {
    action == if |Strip(text)| > 200 then Strip(text)[..200] else Strip(text)
  }

  ghost predicate IsSubject(title: Option<string>, anchor: string, subject: string) {
    subject == if title == None || title == Some("") then anchor else title.value
  }

  ghost predicate IsDeadline(d: Option<Deadline>, j: Json) {
    match d
    case None => j == Null
    case Some(AbsoluteDate(date)) =>
      j.Obj? && j.fields.Keys == {"type", "value", "normalized_iso"} && j.fields["type"] == Str("absolute_date")
      && j.fields["value"] == Str(date) && j.fields["normalized_iso"] == Str(date)
    case Some(RelativePeriod(phrase, period)) =>
      j.Obj? && j.fields.Keys == {"type", "value", "normalized_iso"} && j.fields["type"] == Str("relative_period")
      && j.fields["value"] == Str(phrase) && j.fields["normalized_iso"] == Str("P" + period)
  }

  lemma StringsMeaning(s: seq<string>)
    ensures Strings(s).Arr? && |Strings(s).items| == |s| && forall i :: 0 <= i < |s| ==>
      Strings(s).items[i] == Str(s[i])
  {
  }

  // ---- The record ----

  /** The title of the last anchor with the id. */
  ghost predicate IsTitle(anchors: seq<Anchor>, id: string, title: Option<string>) {
    || (title == None && forall a :: a in anchors ==> a.id != id)
    || exists i :: LastAnchor(anchors, id, i) && title == anchors[i].title
  }

  ghost predicate LastAnchor(anchors: seq<Anchor>, id: string, i: int) {
    0 <= i < |anchors| && anchors[i].id == id && forall j :: i < j < |anchors| ==> anchors[j].id != id
  }

  lemma {:induction false} TitleMeaning(anchors: seq<Anchor>, id: string)
    ensures IsTitle(anchors, id, TitleOf(anchors, id))
  {
    if anchors != [] {
      var n := |anchors| - 1;
      if anchors[n].id == id {
        assert LastAnchor(anchors, id, n);
      } else {
        TitleMeaning(anchors[..n], id);
        assert anchors == anchors[..n] + [anchors[n]];
        if i :| LastAnchor(anchors[..n], id, i) {
          assert LastAnchor(anchors, id, i);
        }
      }
    }
  }

  /** A new record names the job's document, version and instrument; its clause id is
      built from them and the last part of the anchor; its evidence is the span with the
      hash of its text; it carries the article mentions and no resolved target; and it
      is pending without a history. */
  lemma ProposalMeaning(env: Env, agent: Agent, job: Job, span: Span)
    ensures var p := ProposalFor(env, agent, job, span);
      && p.identity.documentId == job.document && p.identity.sourceVersion == job.version
      && p.identity.instrument == job.instrument
      && p.identity.clauseId == job.document + ":" + job.version + ":" + LastPart(span.anchor)
      && p.evidence == map["anchor_id" := Str(span.anchor), "char_start" := Num(span.start),
        "char_end" := Num(span.end),
                           "verbatim_text" := Str(span.text), "evidence_hash" := Str(env.hash(span.text))]
      && p.references.related == agent.mentions(span.text) && |p.references.targets| == 0
      && p.governance.status == Pending && |p.governance.history| == 0
      && exists title :: IsTitle(job.anchors, span.anchor, title) && p.semantics == agent.semantics(span, title)
  {
    hide IsTitle, LastPart;
    TitleMeaning(job.anchors, span.anchor);
  }
}
