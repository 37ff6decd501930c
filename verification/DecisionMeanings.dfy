/** Exactly when a decision is refused, and with which error, said about the record and
    the decision alone. */
module DecisionMeanings {
  import opened Common
  import opened Json
  import opened Whitespace
  import opened ReviewStatuses
  import opened ObligationRecords
  import opened Diffs
  import opened Validator
  import opened Review
  import opened ReportMeanings

  // ---- Whitespace ----

  /** The 29 characters that Python strips. */
  lemma SpaceTable(c: char)
    ensures IsSpace(c) <==> c as int in {
      9, 10, 11, 12, 13, 28, 29, 30, 31, 32, 133, 160, 5760, 8192, 8193, 8194, 8195, 8196, 8197, 8198, 8199, 8200, 8201,
      8202, 8232, 8233, 8239, 8287, 12288 }
  {
  }

  /** What is left between the first and the last character that is no whitespace. */
  ghost predicate Stripped(s: string, r: string, i: int) {
    && 0 <= i <= i + |r| <= |s| && s[i..i + |r|] == r
    && (forall k :: 0 <= k < i || i + |r| <= k < |s| ==> IsSpace(s[k]))
    && (r != "" ==> !IsSpace(r[0]) && !IsSpace(r[|r| - 1]))
  }

  lemma {:induction false} LeftMeaning(s: string) returns (i: nat)
    ensures i <= |s| && StripLeft(s) == s[i..] && forall k :: 0 <= k < i ==> IsSpace(s[k])
  {
    hide IsSpace;
    if s != "" && IsSpace(s[0]) {
      var j := LeftMeaning(s[1..]);
      i := j + 1;
      assert s[1..][j..] == s[i..];
      assert forall k :: 1 <= k < i ==> s[k] == s[1..][k - 1];
    } else {
      i := 0;
    }
  }

  lemma StripMeaning(s: string) returns (i: nat)
    ensures Stripped(s, Strip(s), i)
    ensures Blank(s) <==> Strip(s) == ""
  {
    hide IsSpace;
    i := LeftMeaning(s);
    var left, r := StripLeft(s), Strip(s);
    assert r == left[..|r|] && left == s[i..];
    assert forall k :: 0 <= k < |left| ==> left[k] == s[i + k];
    forall k | i + |r| <= k < |s| ensures IsSpace(s[k]) {
      assert left[k - i] == s[k];
    }
    if r != "" {
      assert r[0] == left[0] && r[0] == s[i];
    }
  }

  // ---- What every write asks for ----

  /** The stored hash is that of the stored text. */
  ghost predicate HashFits(env: Env, evidence: Fields) {
    exists s :: Reads(evidence, "verbatim_text", s) && Reads(evidence, "evidence_hash", env.hash(s))
  }

  ghost predicate Derived(id: Identity) {
    exists rest :: id.clauseId == id.documentId + ":" + id.sourceVersion + ":" + rest
  }

  ghost predicate HistoryFits(g: Governance) {
    g.status == Accepted || g.status == Edited ==> |g.history| > 0 && forall e :: e in g.history ==> |e.rationale| > 0
  }

  /** A record can be written: it fits the schema, its clause id begins with its document
      and version, its hash is that of its text, and if it is reviewed it has a history
      in which every rationale is there. */
  ghost predicate CanBeStored(env: Env, p: Proposal) {
    env.schema(p) && Derived(p.identity) && HashFits(env, p.evidence) && HistoryFits(p.governance)
  }

  lemma HashMeaning(env: Env, e: Fields)
    ensures HashMatches(env, e) == Ok(true) <==> HashFits(env, e)
    ensures HashMatches(env, e).Err? <==> TEXT in e && !e[TEXT].Str?
    ensures HashMatches(env, e).Err? ==> HashMatches(env, e) == Err(Raised)
  {
    if HashMatches(env, e).Ok? {
      var s := TextOf(e).value;
      assert Reads(e, TEXT, s);
      assert HashMatches(env, e) == Ok(true) <==> Reads(e, HASH, env.hash(s));
    }
  }

  lemma DerivedMeaning(id: Identity)
    ensures ClauseIdDerived(id) <==> Derived(id)
  {
    var prefix := id.documentId + ":" + id.sourceVersion + ":";
    if ClauseIdDerived(id) {
      assert id.clauseId == prefix + id.clauseId[|prefix|..];
    }
  }

  /** A write goes through exactly on such a record and leaves it as it is; otherwise it
      names the first check that fails. */
  lemma WritableMeaning(env: Env, p: Proposal)
    ensures var r, odd := Writable(env, p), TEXT in p.evidence && !p.evidence[TEXT].Str?;
      && (r.Ok? <==> CanBeStored(env, p)) && (r.Ok? ==> r.value == p)
      && (r == Err(SchemaInvalid) <==> !env.schema(p))
      && (r == Err(NotDerived) <==> env.schema(p) && !Derived(p.identity))
      && (r == Err(Raised) <==> env.schema(p) && Derived(p.identity) && odd)
      && (r == Err(HashMismatch) <==> env.schema(p) && Derived(p.identity) && !odd && !HashFits(env, p.evidence))
      && (r == Err(UnreviewedHistory) <==>
            env.schema(p) && Derived(p.identity) && HashFits(env, p.evidence) && !HistoryFits(p.governance))
  {
    hide HashMatches, HashFits, Derived, ClauseIdDerived;
    HashMeaning(env, p.evidence);
    DerivedMeaning(p.identity);
    assert ReviewedInvariant(p.governance) <==> HistoryFits(p.governance);
  }

  // ---- The outcome of a decision ----

  /** The rationale has a character that is no whitespace. */
  ghost predicate Inked(rationale: string) {
    exists i :: 0 <= i < |rationale| && !IsSpace(rationale[i])
  }

  /** The record may be decided on in this way: only an escalated one may not be accepted
      or edited. */
  ghost predicate Presentable(p: Proposal, d: Decision) {
    !(p.governance.status == Escalated && (d.action == Accept || d.action == Edit))
  }

  ghost predicate Gated(p: Proposal, d: Decision) {
    !d.action.UnknownAction? && Inked(d.rationale) && Presentable(p, d)
  }

  ghost predicate NoEdits(d: Decision) {
    d.edits == None || d.edits == Some(map[])
  }

  /** The record an action moves to its status, with one more entry. */
  ghost predicate IsDecided(p: Proposal, d: Decision, base: Proposal, diff: Option<Diff>, q: Proposal) {
    && q == base.(governance := Governance(q.governance.status, p.governance.history
      + [Entry(d.reviewer, d.action, d.rationale, diff)]))
    && q.governance.status ==
      if d.action == Accept then Accepted else if d.action == Edit then Edited else if d.action == Reject then Rejected
      else Escalated
  }

  /** The patched record and the logged diff of an edit that may be written. */
  ghost predicate EditStands(env: Env, p: Proposal, d: Decision, base: Proposal, diff: Option<Diff>) {
    && !NoEdits(d) && ApplyEdits(env, p, d.edits.value) == Ok(base) && Validator.Validate(env, base).Ok?
    && Faithful(env, base.evidence) && diff == Some(DiffOf(p, d.edits.value))
  }

  /** What a decision that passes the gates would write. */
  ghost predicate Writes(env: Env, p: Proposal, d: Decision, q: Proposal) {
    exists base, diff :: IsDecided(p, d, base, diff, q)
      && if d.action == Edit then EditStands(env, p, d, base, diff) else base == p && diff == None
  }

  lemma EditMeaning(env: Env, p: Proposal, edits: Option<Fields>)
    ensures var r := EditFor(env, p, edits);
      if edits == None || edits == Some(map[]) then r == Err(EditRequiresEdits)
      else
        match ApplyEdits(env, p, edits.value)
        case Err(e) => r == Err(e)
        case Ok(q) =>
          match Validator.Validate(env, q)
          case Err(e) => r == Err(e)
          case Ok(_) => r == if Faithful(env, q.evidence) then Ok((q, DiffOf(p, edits.value))) else Err(BreaksFidelity)
  {
    hide ApplyEdits, Validator.Validate, DiffOf, Faithful, Failed;
    if edits.Some? && edits.value != map[] && ApplyEdits(env, p, edits.value).Ok? {
      var q := ApplyEdits(env, p, edits.value).value;
      if Validator.Validate(env, q).Ok? {
        ReportMeaning(env, q);
        FaithfulMeaning(env, q.evidence);
      }
    }
  }

  lemma InkedMeaning(s: string)
    ensures Inked(s) <==> !Blank(s)
    ensures Inked(s) ==> s != ""
  {
    hide IsSpace;
  }

  /** A decision goes through exactly when it passes the gates and what it writes can be
      stored, and then that is the new record. */
  lemma DecideIff(env: Env, p: Proposal, d: Decision)
    ensures var r := Decide(env, p, d);
      && (r.Ok? <==> Gated(p, d) && exists q :: Writes(env, p, d, q) && CanBeStored(env, q))
      && (r.Ok? ==> Writes(env, p, d, r.value) && CanBeStored(env, r.value))
  {
    hide Blank, ApplyEdits, Validator.Validate, DiffOf, Faithful, Writable, CanBeStored, EditFor, Inked;
    InkedMeaning(d.rationale);
    EditMeaning(env, p, d.edits);
    forall q { WritableMeaning(env, q); }
    if Gated(p, d) {
      if d.action != Edit {
        var q := p.(governance := Governance(StatusOf(d.action), p.governance.history
          + [Entry(d.reviewer, d.action, d.rationale, None)]));
        assert IsDecided(p, d, p, None, q);
      } else if EditFor(env, p, d.edits).Ok? {
        var base, diff := EditFor(env, p, d.edits).value.0, Some(EditFor(env, p, d.edits).value.1);
        var q := base.(governance := Governance(Edited, p.governance.history
          + [Entry(d.reviewer, Edit, d.rationale, diff)]));
        assert IsDecided(p, d, base, diff, q) && EditStands(env, p, d, base, diff);
      }
    }
  }

  /** Which gate refuses a decision. */
  lemma RefusedBy(env: Env, p: Proposal, d: Decision)
    ensures var r, known := Decide(env, p, d), !d.action.UnknownAction?;
      && (r == Err(UnknownActionError) <==> !known)
      && (r == Err(EmptyRationale) <==> known && !Inked(d.rationale))
      && (r == Err(NotPresentable) <==> known && Inked(d.rationale) && !Presentable(p, d))
      && (r == Err(EditRequiresEdits) <==> Gated(p, d) && d.action == Edit && NoEdits(d))
      && (r == Err(BreaksFidelity) <==> Gated(p, d) && d.action == Edit && EditBreaks(env, p, d))
  {
    hide Blank, Validator.Validate, DiffOf, Faithful, Writable, CanBeStored, EditFor, Inked, ApplyEdits;
    InkedMeaning(d.rationale);
    EditMeaning(env, p, d.edits);
    if d.edits.Some? {
      EditErrors(env, p, d.edits.value);
    }
    forall q
      ensures Writable(env, q).Err? ==>
        Writable(env, q).error in {SchemaInvalid, NotDerived, Raised, HashMismatch, UnreviewedHistory}
    {
      WriteErrors(env, q);
    }
  }

  /** The edit can be applied and validated, and its evidence is no longer faithful. */
  ghost predicate EditBreaks(env: Env, p: Proposal, d: Decision) {
    && !NoEdits(d) && ApplyEdits(env, p, d.edits.value).Ok?
    && Validator.Validate(env, ApplyEdits(env, p, d.edits.value).value).Ok?
    && !Faithful(env, ApplyEdits(env, p, d.edits.value).value.evidence)
  }

  lemma WriteErrors(env: Env, q: Proposal)
    ensures Writable(env, q).Err? ==>
      Writable(env, q).error in {SchemaInvalid, NotDerived, Raised, HashMismatch, UnreviewedHistory}
  {
    hide ClauseIdDerived, ReviewedInvariant;
  }

  lemma EditErrors(env: Env, p: Proposal, edits: Fields)
    ensures ApplyEdits(env, p, edits).Err? ==> ApplyEdits(env, p, edits) == Err(Raised)
    ensures ApplyEdits(env, p, edits).Ok? ==> var q := ApplyEdits(env, p, edits).value;
      Validator.Validate(env, q).Err? ==> Validator.Validate(env, q) == Err(Raised)
  {
    hide Validator.Validate, GroupEdits;
    if ApplyEdits(env, p, edits).Ok? {
      RaisesIff(env, ApplyEdits(env, p, edits).value);
    }
  }
}
