/** What a validation report says, check by check, about the fields of the record, and
    when validation raises instead. */
module ReportMeanings {
  import opened Common
  import opened Json
  import opened ReviewStatuses
  import opened ObligationRecords
  import opened Validator

  /** The values Python takes for false. */
  ghost predicate Falsy(j: Json) {
    j == Null || j == Bool(false) || j == Num(0) || j == Str("") || j == Arr([]) || j == Obj(map[])
  }

  lemma FalsyMeaning(j: Json)
    ensures Falsy(j) <==> !Truthy(j)
  {
  }

  ghost predicate OneOf(j: Json, words: seq<string>) {
    exists i :: 0 <= i < |words| && j == Str(words[i])
  }

  /** Lists and dictionaries cannot be looked up in a set. */
  ghost predicate Nested(j: Json) {
    (exists items :: j == Arr(items)) || (exists fields :: j == Obj(fields))
  }

  ghost predicate KnownModality(semantics: Fields) {
    OneOf(Get(semantics, "modality"), ["shall", "must", "may", "should"])
  }

  ghost predicate KnownNorm(semantics: Fields) {
    OneOf(Get(semantics, "norm_type"), ["obligation", "prohibition", "permission", "definition_only"])
  }

  /** There is no deadline, or it has a known type and a normalised date. */
  ghost predicate DeadlineFine(semantics: Fields) {
    var d := Get(semantics, "deadline");
    d == Null || (d.Obj? && OneOf(Get(d.fields, "type"), ["absolute_date", "relative_period", "recurring"])
                  && !Falsy(Get(d.fields, "normalized_iso")))
  }

  /** The integer a slice bound stands for. */
  ghost predicate IsBound(j: Json, n: int) {
    j == Num(n) || (j == Bool(true) && n == 1) || (j == Bool(false) && n == 0)
  }

  /** The field is a string, or missing and read as the empty one. */
  ghost predicate Reads(evidence: Fields, name: string, s: string) {
    if name in evidence then evidence[name] == Str(s) else s == ""
  }

  /** The stored text is the document sliced at the stored offsets, and the stored hash
      is that of the text. */
  ghost predicate Faithful(env: Env, evidence: Fields) {
    exists s, lo, hi :: IsEvidence(env, evidence, s, lo, hi)
  }

  ghost predicate IsEvidence(env: Env, evidence: Fields, s: string, lo: int, hi: int) {
    && Reads(evidence, "verbatim_text", s) && Reads(evidence, "evidence_hash", env.hash(s))
    && IsBound(Get(evidence, "char_start"), lo) && IsBound(Get(evidence, "char_end"), hi)
    && PySlice(env.text, lo, hi) == s
  }

  lemma FaithfulMeaning(env: Env, evidence: Fields)
    ensures Faithful(env, evidence) <==> EvidenceOk(env, evidence)
  {
    if EvidenceOk(env, evidence) {
      var s := TextOf(evidence).value;
      var lo, hi := Bound(Get(evidence, START)).value, Bound(Get(evidence, END)).value;
      assert IsEvidence(env, evidence, s, lo, hi);
    }
  }

  /** The status a check must have: a pass when it holds, else this one. */
  ghost predicate Gives(c: Check, name: CheckName, holds: bool, otherwise: CheckStatus) {
    c == Check(name, if holds then Pass else otherwise)
  }

  lemma WordsMeaning(j: Json)
    ensures j in MODALITIES <==> OneOf(j, ["shall", "must", "may", "should"])
    ensures j in NORM_TYPES <==> OneOf(j, ["obligation", "prohibition", "permission", "definition_only"])
    ensures j in DEADLINE_TYPES <==> OneOf(j, ["absolute_date", "relative_period", "recurring"])
  {
    FourWords(j, "shall", "must", "may", "should");
    FourWords(j, "obligation", "prohibition", "permission", "definition_only");
    ThreeWords(j, "absolute_date", "relative_period", "recurring");
  }

  lemma FourWords(j: Json, a: string, b: string, c: string, d: string)
    ensures OneOf(j, [a, b, c, d]) <==> j == Str(a) || j == Str(b) || j == Str(c) || j == Str(d)
  {
    var words := [a, b, c, d];
    assert words[0] == a && words[1] == b && words[2] == c && words[3] == d;
  }

  lemma ThreeWords(j: Json, a: string, b: string, c: string)
    ensures OneOf(j, [a, b, c]) <==> j == Str(a) || j == Str(b) || j == Str(c)
  {
    var words := [a, b, c];
    assert words[0] == a && words[1] == b && words[2] == c;
  }

  lemma VocabularyMeaning(semantics: Fields)
    ensures CheckVocabulary(semantics) ==
      if Nested(Get(semantics, "modality")) || (KnownModality(semantics) && Nested(Get(semantics, "norm_type"))) then
        Err(Raised)
      else Ok(if KnownModality(semantics) && KnownNorm(semantics) then Pass else Fail)
  {
    hide OneOf;
    WordsMeaning(Get(semantics, "modality"));
    WordsMeaning(Get(semantics, "norm_type"));
    NestedMeaning(Get(semantics, "modality"));
    NestedMeaning(Get(semantics, "norm_type"));
  }

  lemma NestedMeaning(j: Json)
    ensures Nested(j) <==> Unhashable(j)
  {
    if j.Arr? {
      assert j == Arr(j.items);
    } else if j.Obj? {
      assert j == Obj(j.fields);
    }
  }

  lemma DateMeaning(semantics: Fields)
    ensures var d := Get(semantics, "deadline");
      CheckDate(semantics) ==
        if d != Null && (!d.Obj? || Nested(Get(d.fields, "type"))) then Err(Raised)
        else Ok(if DeadlineFine(semantics) then Pass else Warn)
  {
    hide OneOf, Nested, Falsy;
    var d := Get(semantics, "deadline");
    if d.Obj? {
      WordsMeaning(Get(d.fields, "type"));
      NestedMeaning(Get(d.fields, "type"));
      FalsyMeaning(Get(d.fields, "normalized_iso"));
    }
  }

  lemma FidelityMeaning(env: Env, evidence: Fields)
    requires CheckFidelity(env, evidence).Ok?
    ensures CheckFidelity(env, evidence) == Ok(if Faithful(env, evidence) then Pass else Fail)
  {
    hide Faithful;
    FaithfulMeaning(env, evidence);
  }

  /** Seven checks in this order, under the record's clause id: the schema; the
      vocabulary; the evidence; the deadline, which only warns; quantities, which always
      pass; the references; and the actor, which must be there, with a warning on a mere
      definition. */
  lemma ChecksMeaning(env: Env, p: Proposal)
    requires Validate(env, p).Ok?
    ensures var r, s := Validate(env, p).value, p.semantics;
      && r.target == p.identity.clauseId && |r.checks| == 7
      && Gives(r.checks[0], SchemaValidity, env.schema(p), Fail)
      && Gives(r.checks[1], ControlledVocabulary, KnownModality(s) && KnownNorm(s), Fail)
      && Gives(r.checks[2], EvidenceSpanFidelity, Faithful(env, p.evidence), Fail)
      && Gives(r.checks[3], DateNormalization, DeadlineFine(s), Warn)
      && Gives(r.checks[4], QuantityNormalization, true, Pass)
      && Gives(r.checks[5], ReferenceValidity, forall t :: t in p.references.targets ==> t in env.anchors, Fail)
      && Gives(r.checks[6], CrossFieldConsistency, !Falsy(Get(s, "actor"))
        && Get(s, "norm_type") != Str("definition_only"),
               if Falsy(Get(s, "actor")) then Fail else Warn)
  {
    hide CheckVocabulary, CheckFidelity, CheckDate, Faithful, DeadlineFine, KnownModality, KnownNorm, Falsy;
    VocabularyMeaning(p.semantics);
    FidelityMeaning(env, p.evidence);
    DateMeaning(p.semantics);
    FalsyMeaning(Get(p.semantics, "actor"));
  }

  ghost predicate AllFine(env: Env, p: Proposal) {
    && env.schema(p) && Faithful(env, p.evidence) && KnownModality(p.semantics) && KnownNorm(p.semantics)
    && (forall t :: t in p.references.targets ==> t in env.anchors) && !Falsy(Get(p.semantics, "actor"))
  }

  /** A record passes as a whole, warnings aside, when it fits the schema, its evidence is
      faithful, its vocabulary and references are known and it names an actor; without the
      first two it fails for good and is escalated, without the others it needs review. */
  lemma OverallMeaning(env: Env, p: Proposal)
    requires Validate(env, p).Ok?
    ensures var r := Validate(env, p).value;
      && (r.overall == HardFail <==> !env.schema(p) || !Faithful(env, p.evidence))
      && (r.overall == AllPass <==> AllFine(env, p))
      && RouteReviewStatus(r.overall) == if r.overall == HardFail then Escalated else Pending
  {
    hide Faithful, DeadlineFine, KnownModality, KnownNorm, Falsy, Validate;
    ChecksMeaning(env, p);
    StatusOfChecks(env, p);
    var checks := Validate(env, p).value.checks;
    SevenChecks(checks);
  }

  lemma StatusOfChecks(env: Env, p: Proposal)
    requires Validate(env, p).Ok?
    ensures Validate(env, p).value.overall == OverallStatus(Validate(env, p).value.checks)
  {
    hide OverallStatus;
  }

  /** The overall status of seven checks of these names. */
  lemma SevenChecks(checks: seq<Check>)
    requires |checks| == 7
    requires checks[0].name == SchemaValidity && checks[1].name == ControlledVocabulary
    requires checks[2].name == EvidenceSpanFidelity && checks[3].name == DateNormalization
    requires checks[4].name == QuantityNormalization && checks[5].name == ReferenceValidity
    requires checks[6].name == CrossFieldConsistency
    ensures OverallStatus(checks) ==
      if checks[0].status == Fail || checks[2].status == Fail then HardFail
      else if exists i :: 0 <= i < 7 && checks[i].status == Fail then NeedsReview
      else AllPass
  {
    forall name, i | 0 <= i < 7 && checks[i].name == name ensures Failed(checks, name) <==> checks[i].status == Fail {
      if checks[i].status == Fail {
        assert checks[i] == Check(name, Fail);
      }
      if Failed(checks, name) {
        var j :| 0 <= j < 7 && checks[j] == Check(name, Fail);
      }
    }
    assert Failed(checks, SchemaValidity) <==> checks[0].status == Fail;
    assert Failed(checks, EvidenceSpanFidelity) <==> checks[2].status == Fail;
    if i :| 0 <= i < 7 && checks[i].status == Fail {
      assert checks[i] in checks;
    }
  }

  /** Validation raises exactly on a modality, or a norm type behind a known modality,
      that is a list or dictionary; on text that is no string; on a matching hash with a
      bound that is neither missing nor a number; and on a deadline that is no dictionary
      or whose type is a list or dictionary. */
  lemma RaisesIff(env: Env, p: Proposal)
    ensures var s, e, d := p.semantics, p.evidence, Get(p.semantics, "deadline");
      Validate(env, p) == Err(Raised) <==>
        || Nested(Get(s, "modality")) || (KnownModality(s) && Nested(Get(s, "norm_type")))
        || (TEXT in e && !e[TEXT].Str?)
        || HashedUnbounded(env, e)
        || (d != Null && (!d.Obj? || Nested(Get(d.fields, "type"))))
    ensures Validate(env, p).Err? ==> Validate(env, p) == Err(Raised)
  {
    hide CheckVocabulary, CheckDate, CheckFidelity, Nested, KnownModality, OverallStatus;
    VocabularyMeaning(p.semantics);
    DateMeaning(p.semantics);
    FidelityRaises(env, p.evidence);
  }

  /** The stored hash is that of the text, both bounds are there, and one of them is not a
      number. */
  ghost predicate HashedUnbounded(env: Env, e: Fields) {
    && (exists s :: Reads(e, TEXT, s) && Reads(e, HASH, env.hash(s)))
    && Get(e, START) != Null && Get(e, END) != Null
    && !((Get(e, START).Num? || Get(e, START).Bool?) && (Get(e, END).Num? || Get(e, END).Bool?))
  }

  lemma FidelityRaises(env: Env, e: Fields)
    ensures CheckFidelity(env, e) == Err(Raised) <==> (TEXT in e && !e[TEXT].Str?) || HashedUnbounded(env, e)
    ensures CheckFidelity(env, e).Err? ==> CheckFidelity(env, e) == Err(Raised)
  {
    if !(TEXT in e && !e[TEXT].Str?) {
      var s := TextOf(e).value;
      assert Reads(e, TEXT, s);
      assert HashMatches(env, e) == Ok(true) <==> Reads(e, HASH, env.hash(s));
    }
  }
}
