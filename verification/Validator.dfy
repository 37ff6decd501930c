/** Step 6 validation: seven named checks, the overall status, and where a record
    is routed. */
module Validator {
  import opened Common
  import opened Json
  import opened ReviewStatuses
  import opened ObligationRecords

  datatype CheckName =
    | SchemaValidity | ControlledVocabulary | EvidenceSpanFidelity | DateNormalization
    | QuantityNormalization | ReferenceValidity | CrossFieldConsistency

  datatype CheckStatus = Pass | Warn | Fail

  datatype Check = Check(name: CheckName, status: CheckStatus)

  datatype Overall = AllPass | NeedsReview | HardFail

  datatype Report = Report(target: string, checks: seq<Check>, overall: Overall)

  /** `x in {"a", "b"}` raises on values that cannot be hashed. */
  predicate Unhashable(j: Json) {
    j.Arr? || j.Obj?
  }

  const MODALITIES: set<Json> := {Str("shall"), Str("must"), Str("may"), Str("should")}
  const NORM_TYPES: set<Json> := {Str("obligation"), Str("prohibition"), Str("permission"), Str("definition_only")}
  const DEADLINE_TYPES: set<Json> := {Str("absolute_date"), Str("relative_period"), Str("recurring")}

  function Verdict(ok: bool): CheckStatus {
    if ok then Pass else Fail
  }

  function CheckVocabulary(semantics: Fields): Result<CheckStatus, ReviewError> {
    var modality, normType := Get(semantics, "modality"), Get(semantics, "norm_type");
    if Unhashable(modality) then Err(Raised)
    else if modality !in MODALITIES then Ok(Fail)
    else if Unhashable(normType) then Err(Raised)
    else Ok(Verdict(normType in NORM_TYPES))
  }

  /** The evidence text, `""` when absent; encoding anything but a string raises. */
  function TextOf(evidence: Fields): Result<string, ReviewError> {
    if TEXT !in evidence then Ok("")
    else match evidence[TEXT] case Str(s) => Ok(s) case _ => Err(Raised)
  }

  /** The stored hash is the hash of the text. */
  function HashMatches(env: Env, evidence: Fields): Result<bool, ReviewError> {
    match TextOf(evidence)
    case Err(e) => Err(e)
    case Ok(s) => Ok((if HASH in evidence then evidence[HASH] else Str("")) == Str(env.hash(s)))
  }

  /** A slice bound: integers, and booleans as the integers they equal. */
  function Bound(j: Json): Result<int, ReviewError> {
    match j
    case Num(n) => Ok(n)
    case Bool(b) => Ok(if b then 1 else 0)
    case _ => Err(Raised)
  }

  /** The text is exactly the slice of the document at the stored offsets. */
  function Replays(env: Env, evidence: Fields): Result<bool, ReviewError> {
    match (Bound(Get(evidence, START)), Bound(Get(evidence, END)), TextOf(evidence))
    case (Ok(lo), Ok(hi), Ok(s)) => Ok(PySlice(env.text, lo, hi) == s)
    case _ => Err(Raised)
  }

  function CheckFidelity(env: Env, evidence: Fields): Result<CheckStatus, ReviewError> {
    match HashMatches(env, evidence)
    case Err(e) => Err(e)
    case Ok(matches) =>
      if !matches then Ok(Fail)
      else if Get(evidence, START).Null? || Get(evidence, END).Null? then Ok(Fail)
      else
        match Replays(env, evidence)
        case Err(e) => Err(e)
        case Ok(ok) => Ok(Verdict(ok))
  }

  function CheckDate(semantics: Fields): Result<CheckStatus, ReviewError> {
    match Get(semantics, "deadline")
    case Null => Ok(Pass)
    case Obj(deadline) =>
      if Unhashable(Get(deadline, "type")) then Err(Raised)
      else Ok(if Get(deadline, "type") in DEADLINE_TYPES && Truthy(Get(deadline, "normalized_iso")) then Pass else Warn)
    case _ => Err(Raised)
  }

  function CheckReferences(env: Env, p: Proposal): CheckStatus {
    Verdict(forall t | t in p.references.targets :: t in env.anchors)
  }

  function CheckConsistency(semantics: Fields): CheckStatus {
    if Get(semantics, "norm_type") == Str("definition_only") && Truthy(Get(semantics, "actor")) then Warn
    else Verdict(Truthy(Get(semantics, "actor")))
  }

  /** `statuses_by_name.get(name) == "fail"`. */
  predicate Failed(checks: seq<Check>, name: CheckName) {
    Check(name, Fail) in checks
  }

  /** A failed fidelity or schema check is hard; any other failure needs review. */
  function OverallStatus(checks: seq<Check>): Overall {
    if Failed(checks, EvidenceSpanFidelity) || Failed(checks, SchemaValidity) then HardFail
    else if exists c | c in checks :: c.status == Fail && c.name != EvidenceSpanFidelity && c.name != SchemaValidity then NeedsReview
    else AllPass
  }

  function RouteReviewStatus(overall: Overall): ReviewStatus {
    if overall == HardFail then Escalated else Pending
  }

  function ChecksFor(env: Env, p: Proposal): Result<seq<Check>, ReviewError> {
    match (CheckVocabulary(p.semantics), CheckFidelity(env, p.evidence), CheckDate(p.semantics))
    case (Ok(vocabulary), Ok(fidelity), Ok(date)) =>
      Ok([
        Check(SchemaValidity, Verdict(env.schema(p))),
        Check(ControlledVocabulary, vocabulary),
        Check(EvidenceSpanFidelity, fidelity),
        Check(DateNormalization, date),
        Check(QuantityNormalization, Pass),
        Check(ReferenceValidity, CheckReferences(env, p)),
        Check(CrossFieldConsistency, CheckConsistency(p.semantics))
      ])
    case _ => Err(Raised)
  }

  function Validate(env: Env, p: Proposal): Result<Report, ReviewError> {
    match ChecksFor(env, p)
    case Err(e) => Err(e)
    case Ok(checks) => Ok(Report(p.identity.clauseId, checks, OverallStatus(checks)))
  }

  /** Evidence that replays: text, hash and document slice agree. */
  ghost predicate EvidenceOk(env: Env, evidence: Fields) {
    && HashMatches(env, evidence) == Ok(true)
    && Replays(env, evidence) == Ok(true)
  }

  /** A report's fidelity check passes exactly on evidence that replays, and the
      hard failures are a broken schema or broken evidence. */
  lemma ReportMeaning(env: Env, p: Proposal)
    requires Validate(env, p).Ok?
    ensures var r := Validate(env, p).value;
      && (!Failed(r.checks, EvidenceSpanFidelity) <==> EvidenceOk(env, p.evidence))
      && (r.overall == HardFail <==> !EvidenceOk(env, p.evidence) || !env.schema(p))
      && (RouteReviewStatus(r.overall) == Escalated <==> r.overall == HardFail)
  {
    var checks := ChecksFor(env, p).value;
    var fidelity := CheckFidelity(env, p.evidence).value;
    assert checks[0] == Check(SchemaValidity, Verdict(env.schema(p)))
      && checks[2] == Check(EvidenceSpanFidelity, fidelity);
    assert Failed(checks, EvidenceSpanFidelity) <==> fidelity == Fail by {
      if fidelity == Fail { assert checks[2] in checks; }
      if Failed(checks, EvidenceSpanFidelity) {
        var i :| 0 <= i < |checks| && checks[i] == Check(EvidenceSpanFidelity, Fail);
      }
    }
    assert Failed(checks, SchemaValidity) <==> !env.schema(p) by {
      if !env.schema(p) { assert checks[0] in checks; }
      if Failed(checks, SchemaValidity) {
        var i :| 0 <= i < |checks| && checks[i] == Check(SchemaValidity, Fail);
      }
    }
    assert fidelity == Fail <==> !EvidenceOk(env, p.evidence);
  }
}
