/** Review decisions: the gates of the decision service, and the repository that
    appends to a record's history. */
module Review {
  import opened Common
  import opened Json
  import opened Whitespace
  import opened ReviewStatuses
  import opened ObligationRecords
  import opened Diffs
  import opened Validator

  function StatusOf(a: Action): ReviewStatus
    requires !a.UnknownAction?
  {
    match a case Accept => Accepted case Edit => Edited case Reject => Rejected case Escalate => Escalated
  }

  // ---- Cross-field invariants checked on every write ----

  predicate ClauseIdDerived(id: Identity) {
    var prefix := id.documentId + ":" + id.sourceVersion + ":";
    |prefix| <= |id.clauseId| && id.clauseId[..|prefix|] == prefix
  }

  predicate ReviewedInvariant(g: Governance) {
    g.status in {Accepted, Edited} ==> g.history != [] && forall e | e in g.history :: e.rationale != ""
  }

  /** What every write checks: schema, clause id, evidence hash, reviewed history. */
  function Writable(env: Env, p: Proposal): Result<Proposal, ReviewError> {
    if !env.schema(p) then Err(SchemaInvalid)
    else if !ClauseIdDerived(p.identity) then Err(NotDerived)
    else
      match HashMatches(env, p.evidence)
      case Err(e) => Err(e)
      case Ok(matches) =>
        if !matches then Err(HashMismatch)
        else if !ReviewedInvariant(p.governance) then Err(UnreviewedHistory)
        else Ok(p)
  }

  /** Appends the entry to the stored history and sets the status. Everything else
      comes from `base`, but history never does. */
  function Append(env: Env, stored: Proposal, base: Proposal, status: ReviewStatus,
                  entry: Entry): Result<Proposal, ReviewError> {
    if entry.rationale == "" then Err(EmptyRationale)
    else Writable(env, base.(governance := Governance(status, stored.governance.history + [entry])))
  }

  /** The edited proposal and its logged diff, if the edit keeps the evidence true
      to the document. */
  function EditFor(env: Env, p: Proposal, edits: Option<Fields>): Result<(Proposal, Diff), ReviewError> {
    if edits.None? || edits.value == map[] then Err(EditRequiresEdits)
    else
      match ApplyEdits(env, p, edits.value)
      case Err(e) => Err(e)
      case Ok(candidate) =>
        match Validator.Validate(env, candidate)
        case Err(e) => Err(e)
        case Ok(report) =>
          if Failed(report.checks, EvidenceSpanFidelity) then Err(BreaksFidelity)
          else Ok((candidate, DiffOf(p, edits.value)))
  }

  /** One decision on one record. */
  function Decide(env: Env, p: Proposal, d: Decision): Result<Proposal, ReviewError> {
    if d.action.UnknownAction? then Err(UnknownActionError)
    else if Blank(d.rationale) then Err(EmptyRationale)
    else if p.governance.status == Escalated && d.action in {Accept, Edit} then Err(NotPresentable)
    else if d.action == Edit then
      match EditFor(env, p, d.edits)
      case Err(e) => Err(e)
      case Ok(edited) => Append(env, p, edited.0, Edited, Entry(d.reviewer, Edit, d.rationale, Some(edited.1)))
    else Append(env, p, p, StatusOf(d.action), Entry(d.reviewer, d.action, d.rationale, None))
  }

  // ---- The repository ----

  datatype Revision = Revision(id: string, clauseId: string, proposal: Proposal, report: Report, createdAt: int)

  type Table = seq<Revision>

  /** Position of the revision, or the length. */
  function Find(rows: Table, id: string): (i: nat)
    ensures i <= |rows| && (i < |rows| ==> rows[i].id == id) && forall j :: 0 <= j < i ==> rows[j].id != id
  {
    if rows == [] || rows[0].id == id then 0 else 1 + Find(rows[1..], id)
  }

  /** A decision on the stored table: the addressed record is rewritten or, on any
      error, nothing is. */
  function DecideIn(env: Env, rows: Table, id: string, d: Decision): Result<Table, ReviewError> {
    if d.action.UnknownAction? then Err(UnknownActionError)
    else if Blank(d.rationale) then Err(EmptyRationale)
    else
      var i := Find(rows, id);
      if i == |rows| then Err(NoSuchRevision)
      else
        match Decide(env, rows[i].proposal, d)
        case Err(e) => Err(e)
        case Ok(p) => Ok(rows[i := rows[i].(proposal := p)])
  }

  ghost predicate InOrder(rows: Table) {
    forall i, j :: 0 <= i < j < |rows| ==> rows[i].createdAt <= rows[j].createdAt
  }

  /** After every row that is not later. */
  function InsertByTime(sorted: Table, r: Revision): (s: Table)
    ensures multiset(s) == multiset(sorted) + multiset{r}
    ensures forall x :: x in s ==> x == r || x in sorted
  {
    if sorted == [] || sorted[|sorted| - 1].createdAt <= r.createdAt then
      sorted + [r]
    else
      var n := |sorted| - 1;
      assert sorted == sorted[..n] + [sorted[n]];
      InsertByTime(sorted[..n], r) + [sorted[n]]
  }

  lemma {:induction false} InsertInOrder(sorted: Table, r: Revision)
    requires InOrder(sorted)
    ensures InOrder(InsertByTime(sorted, r))
  {
    if sorted != [] && sorted[|sorted| - 1].createdAt > r.createdAt {
      var n := |sorted| - 1;
      InsertInOrder(sorted[..n], r);
      var t := InsertByTime(sorted[..n], r);
      forall i | 0 <= i < |t| ensures t[i].createdAt <= sorted[n].createdAt {
        assert t[i] in t;
      }
    }
  }

  /** Sorted by creation time; rows of the same time keep their order. */
  function ByTime(rows: Table): (s: Table)
    ensures InOrder(s) && multiset(s) == multiset(rows)
  {
    if rows == [] then []
    else
      assert rows == rows[..|rows| - 1] + [rows[|rows| - 1]];
      InsertInOrder(ByTime(rows[..|rows| - 1]), rows[|rows| - 1]);
      InsertByTime(ByTime(rows[..|rows| - 1]), rows[|rows| - 1])
  }

  class ObligationRepository {
    var rows: Table

    constructor ()
      ensures rows == []
    {
      rows := [];
    }

    /** Checks and inserts; `id` is a fresh identifier, `now` the clock. */
    method CreateRevision(env: Env, p: Proposal, report: Report, id: string, now: int)
      returns (r: Result<string, ReviewError>)
      modifies this
      ensures r.Ok? <==> Writable(env, p).Ok?
      ensures r.Err? ==> rows == old(rows) && r.error == Writable(env, p).error
      ensures r.Ok? ==> r.value == id && rows == old(rows) + [Revision(id, p.identity.clauseId, p, report, now)]
    {
      var checked := Writable(env, p);
      if checked.Err? {
        return Err(checked.error);
      }
      rows := rows + [Revision(id, p.identity.clauseId, p, report, now)];
      r := Ok(id);
    }

    method GetRevision(id: string) returns (i: nat)
      ensures i == Find(rows, id)
    {
      i := 0;
      while i < |rows| && rows[i].id != id
        invariant i <= |rows| && Find(rows, id) == i + Find(rows[i..], id)
      {
        assert rows[i..][1..] == rows[i + 1..];
        i := i + 1;
      }
    }

    /** The revisions of a clause, oldest first. */
    method ListRevisionsForClause(clause: string) returns (found: seq<Revision>)
      ensures InOrder(found)
      ensures multiset(found) == multiset(Filter((r: Revision) => r.clauseId == clause, rows))
    {
      found := ByTime(Filter((r: Revision) => r.clauseId == clause, rows));
    }

    /** Reads the stored record, appends the entry to the stored history, and
        writes the result if it passes every check. */
    method ApplyDecision(env: Env, id: string, status: ReviewStatus, entry: Entry, updated: Option<Proposal>)
      returns (r: Result<Proposal, ReviewError>)
      modifies this
      ensures var i := Find(old(rows), id);
        if i == |old(rows)| then r == Err(NoSuchRevision) && rows == old(rows)
        else
          var stored := old(rows)[i].proposal;
          r == Append(env, stored, if updated.Some? then updated.value else stored, status, entry)
          && rows == if r.Ok? then old(rows)[i := old(rows)[i].(proposal := r.value)] else old(rows)
    {
      var i := GetRevision(id);
      if i == |rows| {
        return Err(NoSuchRevision);
      }
      if entry.rationale == "" {
        return Err(EmptyRationale);
      }
      var stored := rows[i].proposal;
      var base := if updated.Some? then updated.value else stored;
      var history := stored.governance.history + [entry];
      base := base.(governance := Governance(status, history));
      r := Writable(env, base);
      if r.Ok? {
        rows := rows[i := rows[i].(proposal := r.value)];
      }
    }
  }

  /** The decision service: gates in order, then the edit, then the write. */
  method ApplyReviewDecision(env: Env, id: string, d: Decision, repo: ObligationRepository)
    returns (r: Result<Proposal, ReviewError>)
    modifies repo
    ensures match DecideIn(env, old(repo.rows), id, d)
      case Err(e) => r == Err(e) && repo.rows == old(repo.rows)
      case Ok(rows) => r.Ok? && repo.rows == rows && r.value == rows[Find(old(repo.rows), id)].proposal
  {
    hide Writable, DiffOf, ApplyEdits, Validator.Validate;
    if d.action.UnknownAction? {
      return Err(UnknownActionError);
    }
    if Blank(d.rationale) {
      return Err(EmptyRationale);
    }
    var i := repo.GetRevision(id);
    if i == |repo.rows| {
      return Err(NoSuchRevision);
    }
    var stored := repo.rows[i].proposal;
    if stored.governance.status == Escalated && d.action in {Accept, Edit} {
      return Err(NotPresentable);
    }
    var updated: Option<Proposal>, diff: Option<Diff> := None, None;
    if d.action == Edit {
      if d.edits.None? || d.edits.value == map[] {
        return Err(EditRequiresEdits);
      }
      var logged := ComputeDiff(stored, d.edits.value);
      var candidate := ApplyEditsToProposal(env, stored, d.edits.value);
      if candidate.Err? {
        return Err(candidate.error);
      }
      var report := Validator.Validate(env, candidate.value);
      if report.Err? {
        return Err(report.error);
      }
      if Failed(report.value.checks, EvidenceSpanFidelity) {
        return Err(BreaksFidelity);
      }
      updated, diff := Some(candidate.value), Some(logged);
    }
    r := repo.ApplyDecision(env, id, StatusOf(d.action), Entry(d.reviewer, d.action, d.rationale, diff), updated);
  }
}
