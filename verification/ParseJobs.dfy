/** Step 6 and the parse job: each proposal is validated, routed and stored, and
    the job is summarised. Then runs that mix jobs and review decisions. */
module ParseJobs {
  import opened Common
  import opened Json
  import opened Anchors
  import opened ReviewStatuses
  import opened ObligationRecords
  import opened Validator
  import opened Review
  import opened Extraction

  // ---- One span ----

  /** The record and report that are stored for a span, unless something raises. */
  function Storable(env: Env, agent: Agent, job: Job, span: Span): Result<(Proposal, Report), ReviewError> {
    var p := ProposalFor(env, agent, job, span);
    match Validator.Validate(env, p)
    case Err(e) => Err(e)
    case Ok(report) =>
      var routed := p.(governance := Governance(RouteReviewStatus(report.overall), p.governance.history));
      match Writable(env, routed)
      case Err(e) => Err(e)
      case Ok(_) => Ok((routed, report))
  }

  /** Identifier and time of the k-th insertion into the table. */
  datatype Source = Source(id: nat -> string, time: nat -> int)

  function RowFor(stored: (Proposal, Report), source: Source, k: nat): Revision {
    Revision(source.id(k), stored.0.identity.clauseId, stored.0, stored.1, source.time(k))
  }

  // ---- All spans ----

  datatype Progress = Progress(rows: Table, failure: Option<ReviewError>)

  /** Rows are stored one by one; the first failure ends the job and what was
      stored before it stays. */
  function StoreAll(env: Env, agent: Agent, job: Job, source: Source, rows: Table, spans: seq<Span>): (done: Progress)
    ensures rows <= done.rows
    decreases |spans|
  {
    if spans == [] then Progress(rows, None)
    else
      match Storable(env, agent, job, spans[0])
      case Err(e) => Progress(rows, Some(e))
      case Ok(stored) => StoreAll(env, agent, job, source, rows + [RowFor(stored, source, |rows|)], spans[1..])
  }

  datatype Summary = Summary(total: nat, pass: nat, needsReview: nat, fail: nat)

  function Bump(s: Summary, overall: Overall): Summary {
    match overall
    case AllPass => Summary(s.total + 1, s.pass + 1, s.needsReview, s.fail)
    case NeedsReview => Summary(s.total + 1, s.pass, s.needsReview + 1, s.fail)
    case HardFail => Summary(s.total + 1, s.pass, s.needsReview, s.fail + 1)
  }

  function Count(rows: Table, overall: Overall): nat {
    CountIf((r: Revision) => r.report.overall == overall, rows)
  }

  function Tally(rows: Table): Summary {
    Summary(|rows|, Count(rows, AllPass), Count(rows, NeedsReview), Count(rows, HardFail))
  }

  lemma TallyStep(rows: Table, r: Revision)
    ensures Tally(rows + [r]) == Bump(Tally(rows), r.report.overall)
  {
    assert (rows + [r])[..|rows|] == rows;
  }

  method RunParseJob(env: Env, agent: Agent, lower: string -> string, job: Job, source: Source,
                     repo: ObligationRepository)
    returns (r: Result<Summary, ReviewError>)
    modifies repo
    ensures var done := StoreAll(env, agent, job, source, old(repo.rows),
      Spans(Detections(lower, env.text, job.anchors)));
      && repo.rows == done.rows && old(repo.rows) <= repo.rows
      && r == match done.failure case Some(e) => Err(e) case None => Ok(Tally(done.rows[|old(repo.rows)|..]))
  {
    hide Writable, Validator.Validate, ProposalFor, Tally;
    var detections := DetectNormativeSpans(lower, env.text, job.anchors);
    var spans := DecomposeNormativeSpans(detections);
    ghost var before := repo.rows;
    var summary := Summary(0, 0, 0, 0);
    TallyNothing();
    assert spans[0..] == spans && before[|before|..] == [];
    var i := 0;
    while i < |spans|
      invariant i <= |spans| && before <= repo.rows
      invariant StoreAll(env, agent, job, source, before, spans)
        == StoreAll(env, agent, job, source, repo.rows, spans[i..])
      invariant summary == Tally(repo.rows[|before|..])
    {
      var p := ProposalFor(env, agent, job, spans[i]);
      var report := Validator.Validate(env, p);
      if report.Err? {
        return Err(report.error);
      }
      p := p.(governance := Governance(RouteReviewStatus(report.value.overall), p.governance.history));
      ghost var rows := repo.rows;
      var stored := repo.CreateRevision(env, p, report.value, source.id(|repo.rows|), source.time(|repo.rows|));
      if stored.Err? {
        return Err(stored.error);
      }
      ghost var row := RowFor(Storable(env, agent, job, spans[i]).value, source, |rows|);
      assert repo.rows == rows + [row];
      assert repo.rows[|before|..] == rows[|before|..] + [row] && spans[i..][1..] == spans[i + 1..];
      TallyStep(rows[|before|..], row);
      summary := Bump(summary, report.value.overall);
      i := i + 1;
    }
    r := Ok(summary);
  }

  lemma TallyNothing()
    ensures Tally([]) == Summary(0, 0, 0, 0)
  {
  }

  datatype JobStatus = JobQueued | JobRunning | JobCompleted | JobFailed

  datatype ParseJob = ParseJob(status: JobStatus, summary: Summary)

  datatype JobError = NoSuchDocument | JobRaised(error: ReviewError)

  /** The job as it ends: a job that raises keeps an empty summary. */
  function EndedJob(done: Progress, before: nat): ParseJob
    requires before <= |done.rows|
  {
    if done.failure.None? then ParseJob(JobCompleted, Tally(done.rows[before..]))
    else ParseJob(JobFailed, Summary(0, 0, 0, 0))
  }

  class ParseJobStore {
    var jobs: map<string, ParseJob>

    constructor ()
      ensures jobs == map[]
    {
      jobs := map[];
    }

    method SetStatus(id: string, status: JobStatus)
      requires id in jobs
      modifies this
      ensures jobs == old(jobs)[id := old(jobs)[id].(status := status)]
    {
      jobs := jobs[id := jobs[id].(status := status)];
    }

    /** `newId` is the freshly generated job id. */
    method Create(newId: string)
      modifies this
      ensures jobs == old(jobs)[newId := ParseJob(JobQueued, Summary(0, 0, 0, 0))]
    {
      jobs := jobs[newId := ParseJob(JobQueued, Summary(0, 0, 0, 0))];
    }
  }

  /** Without the document there is no job. A job that raises is marked failed, the rows
      stored before stay, and the error is raised on; otherwise the id is returned. */
  method CreateParseJob(env: Env, agent: Agent, lower: string -> string, found: Option<Job>, source: Source,
                        repo: ObligationRepository, store: ParseJobStore, newId: string)
    returns (r: Result<string, JobError>)
    modifies repo, store
    ensures found.None? ==> r == Err(NoSuchDocument) && repo.rows == old(repo.rows) && store.jobs == old(store.jobs)
    ensures found.Some? ==>
      var done := StoreAll(env, agent, found.value, source, old(repo.rows),
        Spans(Detections(lower, env.text, found.value.anchors)));
      && repo.rows == done.rows
      && store.jobs == old(store.jobs)[newId := EndedJob(done, |old(repo.rows)|)]
      && r == match done.failure case Some(e) => Err(JobRaised(e)) case None => Ok(newId)
  {
    hide StoreAll, Tally;
    if found.None? {
      return Err(NoSuchDocument);
    }
    store.Create(newId);
    store.SetStatus(newId, JobRunning);
    var summary := RunParseJob(env, agent, lower, found.value, source, repo);
    match summary
    case Ok(s) =>
      store.jobs := store.jobs[newId := store.jobs[newId].(summary := s)];
      store.SetStatus(newId, JobCompleted);
      r := Ok(newId);
    case Err(e) =>
      store.SetStatus(newId, JobFailed);
      r := Err(JobRaised(e));
  }

  // ---- What a job stores ----

  /** The row stored for a span as the k-th insertion. */
  predicate IsRow(env: Env, agent: Agent, job: Job, source: Source, span: Span, row: Revision, k: nat) {
    match Storable(env, agent, job, span) case Ok(stored) => row == RowFor(stored, source, k) case Err(_) => false
  }

  /** The stored rows are those of a prefix of the spans, all of them unless a
      span fails. */
  lemma {:induction false} StoreAllMeaning(env: Env, agent: Agent, job: Job, source: Source, rows: Table,
                                           spans: seq<Span>)
    ensures var done := StoreAll(env, agent, job, source, rows, spans);
      && rows <= done.rows && |done.rows| - |rows| <= |spans|
      && (done.failure.None? <==> |done.rows| - |rows| == |spans|)
      && (forall k :: |rows| <= k < |done.rows| ==> IsRow(env, agent, job, source, spans[k - |rows|], done.rows[k], k))
      && (done.failure.Some? ==> Storable(env, agent, job, spans[|done.rows| - |rows|]) == Err(done.failure.value))
    decreases |spans|
  {
    hide Storable, RowFor;
    if spans == [] {
    } else if Storable(env, agent, job, spans[0]).Err? {
    } else {
      var row := RowFor(Storable(env, agent, job, spans[0]).value, source, |rows|);
      var next, tail := rows + [row], spans[1..];
      StoreAllMeaning(env, agent, job, source, next, tail);
      var done := StoreAll(env, agent, job, source, rows, spans);
      assert done == StoreAll(env, agent, job, source, next, tail);
      assert done.rows[|rows|] == next[|rows|];
      forall k | |rows| <= k < |done.rows| ensures IsRow(env, agent, job, source, spans[k - |rows|], done.rows[k], k) {
        if k > |rows| { assert tail[k - |next|] == spans[k - |rows|]; }
      }
      if done.failure.Some? {
        assert tail[|done.rows| - |next|] == spans[|done.rows| - |rows|];
      }
    }
  }

  /** The record schema puts no condition on the review status beyond its type. */
  ghost predicate StatusBlind(env: Env) {
    forall p: Proposal, s: ReviewStatus :: env.schema(p.(governance := Governance(s, p.governance.history)))
      == env.schema(p)
  }

  /** A span that carries its own slice of the text. */
  predicate Sliced(env: Env, span: Span) {
    span.text == PySlice(env.text, span.start, span.end)
  }

  lemma ExtractedEvidence(env: Env, agent: Agent, job: Job, span: Span)
    ensures EvidenceOk(env, ProposalFor(env, agent, job, span).evidence) <==> Sliced(env, span)
    ensures HashMatches(env, ProposalFor(env, agent, job, span).evidence) == Ok(true)
  {
    EvidenceFields(env, span);
  }

  lemma EvidenceFields(env: Env, span: Span)
    ensures var e := EvidenceOf(env, span);
      && HASH in e && e[HASH] == Str(env.hash(span.text)) && TEXT in e && e[TEXT] == Str(span.text)
      && Get(e, START) == Num(span.start) && Get(e, END) == Num(span.end)
  {
    assert |TEXT| == 13 && |HASH| == 13 && TEXT[0] != HASH[0] && |START| == 10 && |END| == 8;
  }

  lemma Derivation(env: Env, agent: Agent, job: Job, span: Span)
    ensures ClauseIdDerived(ProposalFor(env, agent, job, span).identity)
  {
    var prefix := job.document + ":" + job.version + ":";
    var rest := LastPart(span.anchor);
    assert BuildClauseId(job.document, job.version, span.anchor) == prefix + rest;
    assert (prefix + rest)[..|prefix|] == prefix;
  }

  /** A span is stored exactly when its validation does not raise and its record
      fits the schema; then it is pending, its evidence replays, and its report is
      no hard failure. */
  lemma StoredSpan(env: Env, agent: Agent, job: Job, span: Span)
    requires StatusBlind(env) && Sliced(env, span)
    ensures var p := ProposalFor(env, agent, job, span);
      && (Storable(env, agent, job, span).Ok? <==> Validator.Validate(env, p).Ok? && env.schema(p))
      && (Storable(env, agent, job, span).Ok? ==>
            var (q, report) := Storable(env, agent, job, span).value;
            q == p && report.overall != HardFail && EvidenceOk(env, q.evidence))
  {
    hide Validator.Validate, EvidenceOk, HashMatches, ClauseIdDerived;
    var p := ProposalFor(env, agent, job, span);
    ExtractedEvidence(env, agent, job, span);
    Derivation(env, agent, job, span);
    var report := Validator.Validate(env, p);
    if report.Ok? {
      ReportMeaning(env, p);
      var routed := p.(governance := Governance(RouteReviewStatus(report.value.overall), p.governance.history));
      assert env.schema(routed) == env.schema(p);
    }
  }

  lemma {:induction false} TallyAdds(rows: Table)
    ensures var t := Tally(rows);
      t.total == t.pass + t.needsReview + t.fail
    decreases |rows|
  {
    if rows != [] {
      TallyAdds(rows[..|rows| - 1]);
    }
  }

  /** A completed job: one row per normative paragraph, in order, each pending with
      evidence that replays; the summary counts them, none of them as failed. */
  lemma CompletedJob(env: Env, agent: Agent, lower: string -> string, job: Job, source: Source, rows: Table)
    requires StatusBlind(env)
    ensures var paragraphs := NormativeParagraphs(lower, env.text, job.anchors);
      var done := StoreAll(env, agent, job, source, rows, Spans(Detections(lower, env.text, job.anchors)));
      done.failure.None? ==>
        var t := Tally(done.rows[|rows|..]);
        && t.total == |paragraphs| == t.pass + t.needsReview && t.fail == 0
        && |done.rows| == |rows| + |paragraphs|
        && forall k :: 0 <= k < |paragraphs| ==>
             var p := done.rows[|rows| + k].proposal;
             && p.governance == Governance(Pending, []) && EvidenceOk(env, p.evidence)
             && p.evidence == EvidenceOf(env, SpanAt(env.text, paragraphs[k]))
             && p.identity.clauseId == BuildClauseId(job.document, job.version, paragraphs[k].id)
  {
    hide Storable, StatusBlind, EvidenceOk, StoreAll, NormativeParagraphs, EvidenceOf, Tally;
    var paragraphs := NormativeParagraphs(lower, env.text, job.anchors);
    var spans := Spans(Detections(lower, env.text, job.anchors));
    var done := StoreAll(env, agent, job, source, rows, spans);
    SpansAreNormativeParagraphs(lower, env.text, job.anchors);
    StoreAllMeaning(env, agent, job, source, rows, spans);
    if done.failure.None? {
      var mine := done.rows[|rows|..];
      forall k | 0 <= k < |paragraphs|
        ensures mine[k].proposal == ProposalFor(env, agent, job, spans[k]) && mine[k].report.overall != HardFail
        ensures EvidenceOk(env, mine[k].proposal.evidence)
      {
        StoredSpan(env, agent, job, spans[k]);
        assert IsRow(env, agent, job, source, spans[|rows| + k - |rows|], done.rows[|rows| + k], |rows| + k);
      }
      NoFailures(mine);
      TallyAdds(mine);
      assert Tally(mine).total == |mine| by { TallyTotal(mine); }
    }
  }

  lemma TallyTotal(rows: Table)
    ensures Tally(rows).total == |rows|
  {
  }

  lemma NoFailures(rows: Table)
    requires forall k :: 0 <= k < |rows| ==> rows[k].report.overall != HardFail
    ensures Tally(rows).fail == 0
  {
    CountZero((r: Revision) => r.report.overall == HardFail, rows);
  }
}
