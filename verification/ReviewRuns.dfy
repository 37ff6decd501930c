/** Whole runs of review decisions: what the history records, what replaying it
    gives back, and what no decision can break. */
module ReviewRuns {
  import opened Common
  import opened Json
  import opened Whitespace
  import opened ReviewStatuses
  import opened ObligationRecords
  import opened Diffs
  import opened Validator
  import opened Review

  /** A decision that is refused leaves the record as it was. */
  function After(env: Env, p: Proposal, d: Decision): Proposal {
    match Decide(env, p, d) case Ok(q) => q case Err(_) => p
  }

  function RunRecord(env: Env, p: Proposal, ds: seq<Decision>): Proposal {
    if ds == [] then p else After(env, RunRecord(env, p, ds[..|ds| - 1]), ds[|ds| - 1])
  }

  // ---- One accepted decision ----

  /** What an accepted decision does: one entry is appended, the status is that of
      the action, and only an edit touches the record. */
  lemma DecideMeaning(env: Env, p: Proposal, d: Decision)
    requires Decide(env, p, d).Ok?
    ensures var q := Decide(env, p, d).value;
      && !d.action.UnknownAction? && !Blank(d.rationale)
      && (d.action in {Accept, Edit} ==> p.governance.status != Escalated)
      && q.identity == p.identity && q.references == p.references
      && HashMatches(env, q.evidence) == Ok(true)
      && (d.action != Edit ==> q.semantics == p.semantics && q.evidence == p.evidence)
      && (d.action == Edit ==> EditFor(env, p, d.edits).Ok? && q.semantics == EditFor(env, p, d.edits).value.0.semantics
                               && q.evidence == EditFor(env, p, d.edits).value.0.evidence)
      && q.governance == Governance(StatusOf(d.action), p.governance.history
           + [Entry(d.reviewer, d.action, d.rationale, if d.action == Edit then Some(EditFor(env, p, d.edits).value.1)
             else None)])
  {
    hide HashMatches, Validator.Validate, DiffOf, PatchedEvidence;
  }

  // ---- Replaying the log ----

  /** The last logged value of a field, or the initial one if no entry mentions it. */
  function Replayed(initial: Json, log: seq<Entry>, key: string): Json {
    if log == [] then initial
    else
      var e := log[|log| - 1];
      if e.diff.Some? && key in e.diff.value then e.diff.value[key].after
      else Replayed(initial, log[..|log| - 1], key)
  }

  /** The entries logged since the record was `p0`. */
  function Logged(p0: Proposal, p: Proposal): seq<Entry> {
    if |p0.governance.history| <= |p.governance.history| then p.governance.history[|p0.governance.history|..] else []
  }

  /** Replaying the log gives the value the field has now. */
  ghost predicate Replays(p0: Proposal, p: Proposal, g: Group, f: string) {
    Same(Replayed(Get(GroupOf(p0, g), f), Logged(p0, p), Key(g, f)), Get(GroupOf(p, g), f))
  }

  /** The one field the edit changes without logging it. */
  predicate Derived(g: Group, f: string) {
    g == Evidence && f == HASH
  }

  /** A field an edit leaves out of its diff keeps its value, up to Python's
      equality, and a field in the diff gets the logged value. */
  lemma EditedField(env: Env, p: Proposal, edits: Fields, g: Group, f: string)
    requires ApplyEdits(env, p, edits).Ok? && !Derived(g, f)
    ensures var now := Get(GroupOf(ApplyEdits(env, p, edits).value, g), f);
      if Key(g, f) in DiffOf(p, edits) then now == DiffOf(p, edits)[Key(g, f)].after
        else Same(Get(GroupOf(p, g), f), now)
  {
    hide GroupEdits, DiffOf, Key, Same, GroupName, ApplyEdits;
    DiffMeaning(p, edits);
    PatchMeaning(env, p, edits, g, f);
    assert LogsField(p, edits, DiffOf(p, edits), g, f);
    var patch := GroupEdits(edits, g);
    SameReflexive(Get(GroupOf(p, g), f));
  }

  lemma SameReflexive(j: Json)
    ensures Same(j, j)
  {
  }

  lemma SameTransitive(a: Json, b: Json, c: Json)
    requires Same(a, b) && Same(b, c)
    ensures Same(a, c)
  {
  }

  lemma ReplayKept(env: Env, p0: Proposal, p: Proposal, d: Decision, g: Group, f: string)
    requires p0.governance.history <= p.governance.history && Replays(p0, p, g, f) && !Derived(g, f)
    ensures Replays(p0, After(env, p, d), g, f)
  {
    hide Decide, EditFor, Key, Same, DiffOf, ApplyEdits, Validator.Validate, HashMatches, Replayed;
    if Decide(env, p, d).Ok? {
      var q := Decide(env, p, d).value;
      DecideMeaning(env, p, d);
      var e := q.governance.history[|p.governance.history|];
      assert Logged(p0, q) == Logged(p0, p) + [e];
      ReplayedStep(Get(GroupOf(p0, g), f), Logged(p0, p), e, Key(g, f));
      if d.action == Edit {
        EditOutcome(env, p, d.edits);
        EditedField(env, p, d.edits.value, g, f);
        SameReflexive(Get(GroupOf(q, g), f));
        assert Get(GroupOf(q, g), f) == Get(GroupOf(ApplyEdits(env, p, d.edits.value).value, g), f);
        if Key(g, f) !in e.diff.value {
          SameTransitive(Replayed(Get(GroupOf(p0, g), f), Logged(p0, p), Key(g, f)), Get(GroupOf(p, g), f),
            Get(GroupOf(q, g), f));
        }
      } else {
        assert GroupOf(q, g) == GroupOf(p, g);
      }
    }
  }

  lemma ReplayedStep(initial: Json, log: seq<Entry>, e: Entry, key: string)
    ensures Replayed(initial, log + [e], key)
         == if e.diff.Some? && key in e.diff.value then e.diff.value[key].after else Replayed(initial, log, key)
  {
    assert (log + [e])[..|log|] == log;
  }

  /** An edit that goes through is the patched record with its diff, and its
      evidence replays against the document. */
  lemma EditOutcome(env: Env, p: Proposal, edits: Option<Fields>)
    requires EditFor(env, p, edits).Ok?
    ensures edits.Some? && EditFor(env, p, edits).value.1 == DiffOf(p, edits.value)
    ensures ApplyEdits(env, p, edits.value) == Ok(EditFor(env, p, edits).value.0)
    ensures EvidenceOk(env, EditFor(env, p, edits).value.0.evidence)
  {
    hide Validator.Validate, DiffOf, ApplyEdits, EvidenceOk, Failed;
    var candidate := ApplyEdits(env, p, edits.value).value;
    ReportMeaning(env, candidate);
  }

  // ---- Everything a run keeps ----

  /** The status before entry `i` was logged. */
  ghost function StatusBefore(p0: Proposal, history: seq<Entry>, i: nat): ReviewStatus
    requires |p0.governance.history| <= i <= |history|
  {
    if i == |p0.governance.history| || history[i - 1].action.UnknownAction? then p0.governance.status
    else StatusOf(history[i - 1].action)
  }

  /** A well-formed log entry: a known action, a rationale, a diff for edits only,
      and no acceptance or edit of an escalated record. */
  ghost predicate GoodEntry(before: ReviewStatus, e: Entry) {
    && !e.action.UnknownAction? && !Blank(e.rationale)
    && (e.diff.Some? <==> e.action == Edit)
    && (e.action in {Accept, Edit} ==> before != Escalated)
  }

  /** `p` is `p0` with more history: nothing was dropped or rewritten, each new
      entry is well formed, and the status is that of the last entry. */
  ghost predicate Trace(p0: Proposal, p: Proposal) {
    var h := p.governance.history;
    && p0.governance.history <= h
    && p.identity == p0.identity && p.references == p0.references
    && p.governance.status == StatusBefore(p0, h, |h|)
    && forall i :: |p0.governance.history| <= i < |h| ==> GoodEntry(StatusBefore(p0, h, i), h[i])
  }

  lemma TraceStart(p0: Proposal)
    ensures Trace(p0, p0)
  {
  }

  lemma TraceExtends(p0: Proposal, p: Proposal, q: Proposal, e: Entry)
    requires Trace(p0, p) && GoodEntry(p.governance.status, e)
    requires q.identity == p.identity && q.references == p.references
    requires q.governance == Governance(StatusOf(e.action), p.governance.history + [e])
    ensures Trace(p0, q)
  {
    hide GoodEntry;
    var h, k := p.governance.history, q.governance.history;
    forall i | |p0.governance.history| <= i <= |h| ensures StatusBefore(p0, k, i) == StatusBefore(p0, h, i) {
      assert i > 0 ==> k[i - 1] == h[i - 1];
    }
    forall i | |p0.governance.history| <= i < |k| ensures GoodEntry(StatusBefore(p0, k, i), k[i]) {
      assert i < |h| ==> k[i] == h[i];
    }
    assert k[|h|] == e && !e.action.UnknownAction? by { KnownAction(p.governance.status, e); }
  }

  lemma KnownAction(before: ReviewStatus, e: Entry)
    requires GoodEntry(before, e)
    ensures !e.action.UnknownAction?
  {
  }

  lemma TraceStep(env: Env, p0: Proposal, p: Proposal, d: Decision)
    requires Trace(p0, p)
    ensures Trace(p0, After(env, p, d)) && p.governance.history <= After(env, p, d).governance.history
  {
    hide Decide, EditFor, Blank, HashMatches, Trace;
    if Decide(env, p, d).Ok? {
      DecideMeaning(env, p, d);
      var e := Entry(d.reviewer, d.action, d.rationale, if d.action == Edit then Some(EditFor(env, p, d.edits).value.1)
        else None);
      TraceExtends(p0, p, Decide(env, p, d).value, e);
    }
  }

  /** History is append-only over the whole run and from any point of it onwards;
      the status follows the last entry; acceptance and edits never directly follow
      an escalation. */
  lemma {:induction false} RunIsTrace(env: Env, p0: Proposal, ds: seq<Decision>, n: nat)
    requires n <= |ds|
    ensures Trace(p0, RunRecord(env, p0, ds))
    ensures RunRecord(env, p0, ds[..n]).governance.history <= RunRecord(env, p0, ds).governance.history
    decreases |ds|
  {
    hide After, Trace;
    if ds == [] {
      TraceStart(p0);
      assert ds[..n] == ds;
    } else {
      var front := ds[..|ds| - 1];
      RunIsTrace(env, p0, front, if n < |ds| then n else 0);
      TraceStep(env, p0, RunRecord(env, p0, front), ds[|ds| - 1]);
      if n < |ds| {
        assert front[..n] == ds[..n];
      } else {
        assert ds[..n] == ds;
      }
    }
  }

  lemma TraceHistory(p0: Proposal, p: Proposal)
    requires Trace(p0, p)
    ensures p0.governance.history <= p.governance.history
  {
  }

  /** A record that reads accepted or edited has earned it: its history is not
      empty and every rationale logged on the way is more than whitespace. */
  lemma ReviewedIsEarned(env: Env, p0: Proposal, ds: seq<Decision>)
    requires p0.governance.history == [] && p0.governance.status !in {Accepted, Edited}
    ensures var g := RunRecord(env, p0, ds).governance;
      && (g.status in {Accepted, Edited} ==> g.history != [] && g.history[|g.history| - 1].action in {Accept, Edit})
      && forall e :: e in g.history ==> !Blank(e.rationale)
  {
    hide RunRecord, Blank;
    RunIsTrace(env, p0, ds, 0);
    var p := RunRecord(env, p0, ds);
    assert Trace(p0, p);
    var h := p.governance.history;
    forall e | e in h ensures !Blank(e.rationale) {
      var i :| 0 <= i < |h| && h[i] == e;
      assert GoodEntry(StatusBefore(p0, h, i), h[i]);
    }
  }

  /** The log replays: for every field of both editable groups except the evidence
      hash, the logged values folded over the initial record give the current one. */
  lemma {:induction false} HistoryReplays(env: Env, p0: Proposal, ds: seq<Decision>, g: Group, f: string)
    requires !Derived(g, f)
    ensures Replays(p0, RunRecord(env, p0, ds), g, f)
    decreases |ds|
  {
    hide After, Key, Trace;
    if ds == [] {
      assert Logged(p0, p0) == [];
      SameReflexive(Get(GroupOf(p0, g), f));
    } else {
      hide Replays;
      var front := ds[..|ds| - 1];
      HistoryReplays(env, p0, front, g, f);
      RunIsTrace(env, p0, front, 0);
      TraceHistory(p0, RunRecord(env, p0, front));
      ReplayKept(env, p0, RunRecord(env, p0, front), ds[|ds| - 1], g, f);
    }
  }

  // ---- Evidence ----

  lemma EvidenceStep(env: Env, p: Proposal, d: Decision)
    ensures EvidenceOk(env, p.evidence) ==> EvidenceOk(env, After(env, p, d).evidence)
    ensures HashMatches(env, p.evidence) == Ok(true) ==> HashMatches(env, After(env, p, d).evidence) == Ok(true)
    ensures d.action == Edit && Decide(env, p, d).Ok? ==> EvidenceOk(env, After(env, p, d).evidence)
  {
    hide Decide, EditFor, EvidenceOk, HashMatches, Blank;
    if Decide(env, p, d).Ok? {
      DecideMeaning(env, p, d);
      if d.action == Edit {
        EditOutcome(env, p, d.edits);
      }
    }
  }

  /** Evidence that replays against the document still does after any decisions. */
  lemma {:induction false} RunKeepsEvidence(env: Env, p0: Proposal, ds: seq<Decision>)
    requires EvidenceOk(env, p0.evidence)
    ensures EvidenceOk(env, RunRecord(env, p0, ds).evidence)
    decreases |ds|
  {
    hide After, EvidenceOk;
    if ds != [] {
      RunKeepsEvidence(env, p0, ds[..|ds| - 1]);
      EvidenceStep(env, RunRecord(env, p0, ds[..|ds| - 1]), ds[|ds| - 1]);
    }
  }

  lemma {:induction false} RunKeepsHash(env: Env, p0: Proposal, ds: seq<Decision>)
    requires HashMatches(env, p0.evidence) == Ok(true)
    ensures HashMatches(env, RunRecord(env, p0, ds).evidence) == Ok(true)
    decreases |ds|
  {
    hide After, HashMatches;
    if ds != [] {
      RunKeepsHash(env, p0, ds[..|ds| - 1]);
      EvidenceStep(env, RunRecord(env, p0, ds[..|ds| - 1]), ds[|ds| - 1]);
    }
  }

  /** The text a logged value stands for; a missing text is the empty one. */
  function TextValue(j: Json): string {
    if j.Str? then j.s else ""
  }

  /** The hash is not logged, but it too can be recovered: it is the hash of the
      text that the log replays to. */
  lemma HashIsRecovered(env: Env, p0: Proposal, ds: seq<Decision>)
    requires HashMatches(env, p0.evidence) == Ok(true)
    ensures var p := RunRecord(env, p0, ds);
      var text := TextValue(Replayed(Get(p0.evidence, TEXT), Logged(p0, p), Key(Evidence, TEXT)));
      (if HASH in p.evidence then p.evidence[HASH] else Str("")) == Str(env.hash(text))
  {
    hide RunRecord, Key, Replayed, Logged;
    TextIsNotHash();
    HistoryReplays(env, p0, ds, Evidence, TEXT);
    RunKeepsHash(env, p0, ds);
    var p := RunRecord(env, p0, ds);
    assert Same(Replayed(Get(p0.evidence, TEXT), Logged(p0, p), Key(Evidence, TEXT)), Get(p.evidence, TEXT));
  }

  lemma TextIsNotHash()
    ensures TEXT != HASH
  {
    assert TEXT[0] != HASH[0];
  }

  // ---- Where the gate stops ----

  /** Decision `i` of the run goes through. */
  predicate Lands(env: Env, p: Proposal, ds: seq<Decision>, i: nat)
    requires i < |ds|
  {
    Decide(env, RunRecord(env, p, ds[..i]), ds[i]).Ok?
  }

  /** Some rejection goes through and no escalation does after it. */
  ghost predicate Reopened(env: Env, p: Proposal, ds: seq<Decision>) {
    exists i :: 0 <= i < |ds| && ReopensAt(env, p, ds, i)
  }

  ghost predicate ReopensAt(env: Env, p: Proposal, ds: seq<Decision>, i: nat)
    requires i < |ds|
  {
    && Lands(env, p, ds, i) && ds[i].action == Reject
    && forall j :: i < j < |ds| && Lands(env, p, ds, j) ==> ds[j].action != Escalate
  }

  lemma LandsEarlier(env: Env, p: Proposal, ds: seq<Decision>, i: nat)
    requires i < |ds| - 1
    ensures Lands(env, p, ds[..|ds| - 1], i) <==> Lands(env, p, ds, i)
    ensures ds[..|ds| - 1][i] == ds[i]
  {
    assert ds[..|ds| - 1][..i] == ds[..i];
  }

  lemma ReopenedStep(env: Env, p: Proposal, ds: seq<Decision>)
    requires ds != []
    ensures var n := |ds| - 1;
      Reopened(env, p, ds) <==>
        if !Lands(env, p, ds, n) then Reopened(env, p, ds[..n])
        else ds[n].action == Reject || (Reopened(env, p, ds[..n]) && ds[n].action != Escalate)
  {
    hide Lands;
    var n := |ds| - 1;
    forall i: nat | i < n
      ensures ReopensAt(env, p, ds, i) <==>
        ReopensAt(env, p, ds[..n], i) && (Lands(env, p, ds, n) ==> ds[n].action != Escalate)
    {
      LandsEarlier(env, p, ds, i);
      forall j: nat | i < j < n ensures (Lands(env, p, ds[..n], j) <==> Lands(env, p, ds, j)) && ds[..n][j] == ds[j] {
        LandsEarlier(env, p, ds, j);
      }
    }
    if Reopened(env, p, ds[..n]) {
      var i :| 0 <= i < n && ReopensAt(env, p, ds[..n], i);
    }
    if Reopened(env, p, ds) {
      var i :| 0 <= i < |ds| && ReopensAt(env, p, ds, i);
      assert i < n ==> ReopensAt(env, p, ds[..n], i);
    }
    assert Lands(env, p, ds, n) && ds[n].action == Reject ==> ReopensAt(env, p, ds, n);
  }

  lemma DecidedStatus(env: Env, p: Proposal, d: Decision)
    ensures var q := After(env, p, d);
      if Decide(env, p, d).Err? then q == p
      else !d.action.UnknownAction? && q.governance.status == StatusOf(d.action) && (p.governance.status == Escalated ==> d.action in {Reject, Escalate})
  {
    hide Decide, EditFor, HashMatches, Blank;
    if Decide(env, p, d).Ok? {
      DecideMeaning(env, p, d);
    }
  }

  /** A record that starts escalated is open to acceptance again exactly when a
      rejection went through and no escalation did since. */
  lemma {:induction false} OpenIffReopened(env: Env, p: Proposal, ds: seq<Decision>)
    requires p.governance.status == Escalated
    ensures RunRecord(env, p, ds).governance.status != Escalated <==> Reopened(env, p, ds)
    decreases |ds|
  {
    hide After, Decide, Reopened;
    if ds == [] {
      NothingReopens(env, p);
    } else {
      var n := |ds| - 1;
      OpenIffReopened(env, p, ds[..n]);
      ReopenedStep(env, p, ds);
      DecidedStatus(env, RunRecord(env, p, ds[..n]), ds[n]);
    }
  }

  lemma NothingReopens(env: Env, p: Proposal)
    ensures !Reopened(env, p, [])
  {
  }

  /** So in a run without a rejection it stays escalated. */
  lemma StaysEscalated(env: Env, p: Proposal, ds: seq<Decision>)
    requires p.governance.status == Escalated && forall d :: d in ds ==> d.action != Reject
    ensures RunRecord(env, p, ds).governance.status == Escalated
  {
    hide RunRecord, Lands;
    OpenIffReopened(env, p, ds);
    forall i: nat | i < |ds| ensures ds[i].action != Reject {
      assert ds[i] in ds;
    }
  }

  /** The record that accepting `p` writes. */
  function AcceptedRecord(p: Proposal, d: Decision): Proposal {
    p.(governance := Governance(Accepted, p.governance.history + [Entry(d.reviewer, Accept, d.rationale, None)]))
  }

  /** After any decisions on a record that starts escalated, an acceptance goes
      through if and only if the record was reopened, the rationale is more than
      whitespace, and the record it writes passes the checks of every write. */
  lemma AcceptIffReopened(env: Env, p: Proposal, ds: seq<Decision>, accept: Decision)
    requires p.governance.status == Escalated && accept.action == Accept
    ensures var q := RunRecord(env, p, ds);
      Decide(env, q, accept).Ok? <==>
        Reopened(env, p, ds) && !Blank(accept.rationale) && Writable(env, AcceptedRecord(q, accept)).Ok?
  {
    hide RunRecord, Reopened, Writable, EditFor;
    OpenIffReopened(env, p, ds);
    BlankIfEmpty(accept.rationale);
  }

  /** Acceptances and edits alike wait for that. */
  lemma ReviewNeedsReopening(env: Env, p: Proposal, ds: seq<Decision>, d: Decision)
    requires p.governance.status == Escalated && d.action in {Accept, Edit}
    requires Decide(env, RunRecord(env, p, ds), d).Ok?
    ensures Reopened(env, p, ds)
  {
    hide RunRecord, Reopened, Decide;
    OpenIffReopened(env, p, ds);
    DecidedStatus(env, RunRecord(env, p, ds), d);
  }

  lemma BlankIfEmpty(s: string)
    ensures s == "" ==> Blank(s)
  {
  }

  /** An escalated record cannot be accepted; after one rejection it is accepted,
      if the two records this writes pass the checks of every write. */
  lemma RejectReopens(env: Env, p: Proposal, reject: Decision, accept: Decision)
    requires p.governance.status == Escalated && reject.action == Reject && accept.action == Accept
    requires !Blank(reject.rationale) && !Blank(accept.rationale)
    requires var rejected := p.(governance := Governance(Rejected, p.governance.history
      + [Entry(reject.reviewer, Reject, reject.rationale, None)]));
      Writable(env, rejected).Ok? && Writable(env, AcceptedRecord(rejected, accept)).Ok?
    ensures Decide(env, p, accept) == Err(NotPresentable)
    ensures RunRecord(env, p, [accept]) == p
    ensures RunRecord(env, p, [reject, accept]).governance.status == Accepted
  {
    hide Writable, EditFor, Blank;
    var rejected := p.(governance := Governance(Rejected, p.governance.history
      + [Entry(reject.reviewer, Reject, reject.rationale, None)]));
    BlankIfEmpty(reject.rationale);
    BlankIfEmpty(accept.rationale);
    WritableIsItself(env, rejected);
    WritableIsItself(env, AcceptedRecord(rejected, accept));
    assert Decide(env, p, reject) == Ok(rejected);
    assert Decide(env, rejected, accept) == Ok(AcceptedRecord(rejected, accept));
    assert [accept][..0] == [] && [reject, accept][..1] == [reject] && [reject][..0] == [];
  }

  lemma WritableIsItself(env: Env, p: Proposal)
    requires Writable(env, p).Ok?
    ensures Writable(env, p).value == p
  {
  }

  /** What the record schema asks of the governance part: a rationale in every
      entry and one of the four actions. */
  predicate GovernanceFits(g: Governance) {
    forall e | e in g.history :: e.rationale != "" && !e.action.UnknownAction?
  }

  /** The schema asks that of the governance part, whatever else it asks of the rest. */
  ghost predicate SchemaSplits(env: Env) {
    && (forall q :: env.schema(q) ==> GovernanceFits(q.governance))
    && (forall q, g :: env.schema(q) && GovernanceFits(g) ==> env.schema(q.(governance := g)))
  }

  /** Under such a schema every escalated record that could be stored is refused
      acceptance, and accepted after a rejection. */
  lemma EscalatedCanBeReopened(env: Env, p: Proposal, reject: Decision, accept: Decision)
    requires p.governance.status == Escalated && reject.action == Reject && accept.action == Accept
    requires !Blank(reject.rationale) && !Blank(accept.rationale)
    requires SchemaSplits(env) && Writable(env, p).Ok?
    ensures Decide(env, p, accept).Err? && RunRecord(env, p, [reject, accept]).governance.status == Accepted
  {
    hide HashMatches, ClauseIdDerived;
    BlankIfEmpty(reject.rationale);
    BlankIfEmpty(accept.rationale);
    var rejected := p.(governance := Governance(Rejected, p.governance.history
      + [Entry(reject.reviewer, Reject, reject.rationale, None)]));
    assert env.schema(p) && GovernanceFits(rejected.governance) && env.schema(p.(governance := rejected.governance));
    var accepted := AcceptedRecord(rejected, accept);
    assert GovernanceFits(accepted.governance) && env.schema(p.(governance := accepted.governance));
    RejectReopens(env, p, reject, accept);
  }

  // ---- The stored table ----

  datatype Call = Call(id: string, decision: Decision)

  function AfterCall(env: Env, rows: Table, c: Call): Table {
    match DecideIn(env, rows, c.id, c.decision) case Ok(t) => t case Err(_) => rows
  }

  function RunTable(env: Env, rows: Table, cs: seq<Call>): Table {
    if cs == [] then rows else AfterCall(env, RunTable(env, rows, cs[..|cs| - 1]), cs[|cs| - 1])
  }

  /** The decisions addressed to one revision, in order. */
  function Addressed(cs: seq<Call>, id: string): seq<Decision> {
    if cs == [] then []
    else Addressed(cs[..|cs| - 1], id) + if cs[|cs| - 1].id == id then [cs[|cs| - 1].decision] else []
  }

  ghost predicate DistinctIds(rows: Table) {
    forall i, j :: 0 <= i < j < |rows| ==> rows[i].id != rows[j].id
  }

  lemma CallIsDecision(env: Env, rows: Table, c: Call)
    requires DistinctIds(rows)
    ensures var t := AfterCall(env, rows, c);
      |t| == |rows| && forall i :: 0 <= i < |rows| ==>
        t[i] == if c.id == rows[i].id then rows[i].(proposal := After(env, rows[i].proposal, c.decision)) else rows[i]
  {
    hide EditFor, Append;
    var k := Find(rows, c.id);
  }

  lemma AddressedStep(env: Env, p: Proposal, cs: seq<Call>, id: string)
    requires cs != []
    ensures var front, c := cs[..|cs| - 1], cs[|cs| - 1];
      RunRecord(env, p, Addressed(cs, id))
        == if c.id == id then After(env, RunRecord(env, p, Addressed(front, id)), c.decision)
          else RunRecord(env, p, Addressed(front, id))
  {
    hide After;
    var mine, c := Addressed(cs[..|cs| - 1], id), cs[|cs| - 1];
    assert (mine + [c.decision])[..|mine|] == mine && mine + [] == mine;
  }

  /** Decisions on different revisions do not interfere: each row after a run is
      its record after the decisions addressed to it, and nothing else of the row
      moves. */
  lemma {:induction false} RowsAreRecords(env: Env, rows: Table, cs: seq<Call>)
    requires DistinctIds(rows)
    ensures |RunTable(env, rows, cs)| == |rows|
    ensures forall i :: 0 <= i < |rows| ==>
      RunTable(env, rows, cs)[i] == rows[i].(proposal := RunRecord(env, rows[i].proposal, Addressed(cs, rows[i].id)))
    decreases |cs|
  {
    hide AfterCall, After, RunRecord;
    if cs == [] {
      forall i | 0 <= i < |rows|
        ensures rows[i] == rows[i].(proposal := RunRecord(env, rows[i].proposal, Addressed(cs, rows[i].id)))
      {
        NothingAddressed(env, rows[i].proposal, rows[i].id);
      }
    } else {
      var front, c := cs[..|cs| - 1], cs[|cs| - 1];
      RowsAreRecords(env, rows, front);
      CallIsDecision(env, RunTable(env, rows, front), c);
      forall i | 0 <= i < |rows|
        ensures RunTable(env, rows, cs)[i]
          == rows[i].(proposal := RunRecord(env, rows[i].proposal, Addressed(cs, rows[i].id)))
      {
        AddressedStep(env, rows[i].proposal, cs, rows[i].id);
      }
    }
  }

  lemma NothingAddressed(env: Env, p: Proposal, id: string)
    ensures RunRecord(env, p, Addressed([], id)) == p
  {
  }

  /** Every stored record's evidence replays. */
  ghost predicate AllReplay(env: Env, rows: Table) {
    forall r :: r in rows ==> EvidenceOk(env, r.proposal.evidence)
  }

  /** No sequence of decisions on the table can store evidence that does not
      replay. */
  lemma TableKeepsEvidence(env: Env, rows: Table, cs: seq<Call>)
    requires DistinctIds(rows) && AllReplay(env, rows)
    ensures DistinctIds(RunTable(env, rows, cs)) && AllReplay(env, RunTable(env, rows, cs))
  {
    hide RunTable, RunRecord, EvidenceOk, Addressed;
    RowsAreRecords(env, rows, cs);
    var t := RunTable(env, rows, cs);
    forall r | r in t ensures EvidenceOk(env, r.proposal.evidence) {
      var i :| 0 <= i < |t| && t[i] == r;
      assert rows[i] in rows;
      RunKeepsEvidence(env, rows[i].proposal, Addressed(cs, rows[i].id));
    }
  }
}
