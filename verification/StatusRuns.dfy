/** Properties of whole runs of the protocol that concern the status of a change set:
    what it says about the six rules, along which moves it goes, and which statuses
    are final. */
module StatusRuns {
  import opened Common
  import opened Constraints
  import opened GraphStore
  import opened Changesets
  import opened Publisher
  import opened PublishRuns

  // ---- What a status says ----

  /** A status past draft says whether the proposal passes the six rules. */
  ghost predicate StatusEarned(cs: ChangeSet) {
    && (cs.status in {Validated, Approved, Published} ==> Passes(cs.nodes, cs.rels))
    && (cs.status == Rejected ==> !Passes(cs.nodes, cs.rels))
  }

  /** So does the status that a call saw, and a call that got past the status check
      saw an approved change set. */
  ghost predicate CallEarned(c: Call) {
    && StatusEarned(c.cs)
    && (c.Checked? || c.HeadRead? || c.Written? ==> c.cs.status == Approved)
  }

  ghost predicate Earned(w: World) {
    && (forall id :: id in w.rows.at ==> StatusEarned(w.rows.at[id]))
    && (forall n :: n in w.calls ==> CallEarned(w.calls[n]))
  }

  /** The row a call is about to write, the status it saw, and the one it writes. */
  datatype Ending = Ending(id: string, seen: Status, next: Status)

  function EndingOf(w: World, s: Step): Option<Ending> {
    match s
    case EndValidate(call) =>
      if call in w.calls && w.calls[call].Validating? then
        var cs := w.calls[call].cs;
        Some(Ending(cs.id, cs.status, Validate(cs).status))
      else None
    case EndApprove(call) =>
      if call in w.calls && w.calls[call].Approving? then
        Some(Ending(w.calls[call].cs.id, w.calls[call].cs.status, Approved))
      else None
    case UpdateStatus(call) =>
      if call in w.calls && w.calls[call].Written? then
        Some(Ending(w.calls[call].cs.id, w.calls[call].cs.status, Published))
      else None
    case _ => None
  }

  predicate Ends(w: World, s: Step, id: string) {
    EndingOf(w, s).Some? && EndingOf(w, s).value.id == id
  }

  /** A step changes a row's status by ending a call of it, and not otherwise. */
  lemma StatusAfter(w: World, s: Step, id: string)
    requires Sound(w) && id in w.rows.at
    ensures id in Apply(w, s).rows.at
    ensures Apply(w, s).rows.at[id].status == if Ends(w, s, id) then EndingOf(w, s).value.next else w.rows.at[id].status
  {
    hide Validate, Passes, PublishTo, ReportFor, Chained, PublicationSound;
    if EndingOf(w, s).Some? {
      assert CallSound(w, w.calls[s.call]);
    }
  }

  predicate Moves(before: Status, after: Status) {
    || before == after
    || (before == Draft && after in {Validated, Rejected})
    || (before == Validated && after == Approved)
    || (before == Approved && after == Published)
  }

  lemma ValidateMoves(cs: ChangeSet)
    requires StatusEarned(cs)
    ensures Moves(cs.status, Validate(cs).status) && Validate(cs).status != Draft
    ensures cs.status != Draft ==> Validate(cs).status == cs.status
    ensures Validate(cs).status == Rejected <==> !Passes(cs.nodes, cs.rels)
  {
  }

  /** What a call writes follows from what it saw, and says what the rules say. */
  lemma EndingMoves(w: World, s: Step)
    requires Sound(w) && Earned(w) && EndingOf(w, s).Some?
    ensures var e := EndingOf(w, s).value;
      && e.id in w.rows.at && Moves(e.seen, e.next) && e.next != Draft && (e.seen == Published ==> e.next == Published)
      && (e.next == Rejected <==> !Passes(w.rows.at[e.id].nodes, w.rows.at[e.id].rels))
  {
    hide Validate, Passes, Chained, PublicationSound, RowsValid;
    var c := w.calls[s.call];
    assert CallSound(w, c) && CallEarned(c);
    ValidateMoves(c.cs);
  }

  lemma RowEarnedAfter(w: World, s: Step, id: string)
    requires Sound(w) && Earned(w) && id in Apply(w, s).rows.at
    ensures StatusEarned(Apply(w, s).rows.at[id])
  {
    hide Apply, Passes, Sound, Ends, EndingOf, Keeps;
    StepKeeps(w, s);
    if id in w.rows.at {
      assert StatusEarned(w.rows.at[id]);
      StatusAfter(w, s, id);
      RowSame(w, s, id);
      if Ends(w, s, id) {
        EndedIs(w, s, id);
        EndingMoves(w, s);
      }
    } else {
      NewRow(w, s, id);
    }
  }

  lemma EndedIs(w: World, s: Step, id: string)
    requires Ends(w, s, id)
    ensures EndingOf(w, s).Some? && EndingOf(w, s).value.id == id
  {
  }

  lemma RowSame(w: World, s: Step, id: string)
    requires Sound(w) && id in w.rows.at
    ensures id in Apply(w, s).rows.at && SameProposal(w.rows.at[id], Apply(w, s).rows.at[id])
  {
    hide Apply, Sound;
    StepKeeps(w, s);
    assert RowKeeps(w.rows.at[id], Apply(w, s).rows.at[id]);
  }

  lemma NewRow(w: World, s: Step, id: string)
    requires Sound(w) && id in Apply(w, s).rows.at && id !in w.rows.at
    ensures Apply(w, s).rows.at[id].status == Draft
  {
    hide Validate, Passes, PublishTo, ReportFor, Chained, PublicationSound;
    if EndingOf(w, s).Some? {
      EndedHasRow(w, s);
    }
  }

  lemma EndedHasRow(w: World, s: Step)
    requires Sound(w) && EndingOf(w, s).Some?
    ensures EndingOf(w, s).value.id in w.rows.at
  {
    hide Validate, Passes, Chained, PublicationSound, RowsValid;
    assert CallSound(w, w.calls[s.call]);
  }

  lemma CallsEarnedAfter(w: World, s: Step, n: nat)
    requires Sound(w) && Earned(w) && n in Apply(w, s).calls
    ensures CallEarned(Apply(w, s).calls[n])
  {
    hide Passes, StatusEarned, Validate, PublishTo, Chained, PublicationSound, CallsSound;
    if n in w.calls {
      assert CallEarned(w.calls[n]);
    }
  }

  lemma {:induction false} EarnedFrom(w: World, steps: seq<Step>)
    requires Sound(w) && Earned(w)
    ensures Sound(Run(w, steps)) && Earned(Run(w, steps))
  {
    hide Apply, Sound, StatusEarned, CallEarned;
    if steps != [] {
      var v, s := Run(w, steps[..|steps| - 1]), steps[|steps| - 1];
      EarnedFrom(w, steps[..|steps| - 1]);
      StepKeeps(v, s);
      forall id | id in Apply(v, s).rows.at ensures StatusEarned(Apply(v, s).rows.at[id]) {
        RowEarnedAfter(v, s, id);
      }
      forall n | n in Apply(v, s).calls ensures CallEarned(Apply(v, s).calls[n]) {
        CallsEarnedAfter(v, s, n);
      }
    }
  }

  lemma RunEarned(steps: seq<Step>)
    ensures Sound(Run(INIT, steps)) && Earned(Run(INIT, steps))
  {
    hide Run;
    assert Sound(INIT);
    EarnedFrom(INIT, steps);
  }

  /** In any interleaving, whatever calls of the change set overlap: a status past
      draft tells whether the six rules pass. */
  lemma StatusTellsRules(steps: seq<Step>, id: string)
    requires id in Run(INIT, steps).rows.at
    ensures StatusEarned(Run(INIT, steps).rows.at[id])
  {
    hide Run, StatusEarned;
    RunEarned(steps);
  }

  // ---- The change-set lifecycle ----

  ghost predicate RowsMove(w: World, t: World) {
    forall id :: id in w.rows.at ==> id in t.rows.at && Moves(w.rows.at[id].status, t.rows.at[id].status)
  }

  /** A call ends on a row that has left the status it saw, for a third one. */
  predicate StaleEnd(w: World, s: Step, id: string) {
    Ends(w, s, id) && id in w.rows.at && w.rows.at[id].status != EndingOf(w, s).value.seen
      && w.rows.at[id].status != EndingOf(w, s).value.next
  }

  ghost predicate NoStaleEnd(w: World, s: Step) {
    forall id :: !StaleEnd(w, s, id)
  }

  ghost predicate NeverStaleEnd(steps: seq<Step>) {
    forall i :: 0 <= i < |steps| ==> NoStaleEnd(Run(INIT, steps[..i]), steps[i])
  }

  /** Every step moves every status along draft to validated or rejected, validated to
      approved, approved to published, or leaves it. */
  ghost predicate LegalSteps(steps: seq<Step>) {
    forall i :: 0 <= i < |steps| ==> RowsMove(Run(INIT, steps[..i]), Apply(Run(INIT, steps[..i]), steps[i]))
  }

  /** Reached by moves. */
  predicate Later(before: Status, after: Status) {
    || Moves(before, after)
    || (before == Draft && after in {Approved, Published})
    || (before == Validated && after == Published)
  }

  /** No row is behind what a call saw of it. */
  ghost predicate NotBehind(w: World) {
    forall n :: n in w.calls ==>
      w.calls[n].cs.id in w.rows.at && Later(w.calls[n].cs.status, w.rows.at[w.calls[n].cs.id].status)
  }

  lemma CallSeen(w: World, s: Step, n: nat)
    requires Sound(w) && n in Apply(w, s).calls
    ensures var cs := Apply(w, s).calls[n].cs;
      (n in w.calls && w.calls[n].cs == cs)
        || (cs.id in w.rows.at && cs == w.rows.at[cs.id] && Apply(w, s).rows == w.rows)
  {
    hide Passes, Validate, PublishTo, Chained, PublicationSound, CallsSound;
  }

  lemma NotBehindAfter(w: World, s: Step)
    requires Sound(w) && NotBehind(w) && RowsMove(w, Apply(w, s))
    ensures NotBehind(Apply(w, s))
  {
    hide Apply, Sound;
    forall n | n in Apply(w, s).calls
      ensures var cs := Apply(w, s).calls[n].cs;
        cs.id in Apply(w, s).rows.at && Later(cs.status, Apply(w, s).rows.at[cs.id].status)
    {
      CallSeen(w, s, n);
    }
  }

  lemma RowLegalIff(w: World, s: Step, id: string)
    requires Sound(w) && Earned(w) && NotBehind(w) && id in w.rows.at
    ensures id in Apply(w, s).rows.at
      && (Moves(w.rows.at[id].status, Apply(w, s).rows.at[id].status) <==> !StaleEnd(w, s, id))
  {
    hide Apply, Sound, Earned, NotBehind, EndingOf;
    StatusAfter(w, s, id);
    if Ends(w, s, id) {
      EndingMoves(w, s);
      EndingNotBehind(w, s);
    }
  }

  /** The moves are legal exactly when no call ends on a row that has gone further. */
  lemma StepLegalIff(w: World, s: Step)
    requires Sound(w) && Earned(w) && NotBehind(w)
    ensures RowsMove(w, Apply(w, s)) <==> NoStaleEnd(w, s)
  {
    hide Apply, Sound, Earned, NotBehind, StaleEnd, Moves;
    forall id | id in w.rows.at
      ensures id in Apply(w, s).rows.at
        && (Moves(w.rows.at[id].status, Apply(w, s).rows.at[id].status) <==> !StaleEnd(w, s, id))
    {
      RowLegalIff(w, s, id);
    }
    forall id | id !in w.rows.at ensures !StaleEnd(w, s, id) {
      NoRowNoStaleEnd(w, s, id);
    }
  }

  lemma NoRowNoStaleEnd(w: World, s: Step, id: string)
    requires id !in w.rows.at
    ensures !StaleEnd(w, s, id)
  {
  }

  lemma EndingNotBehind(w: World, s: Step)
    requires NotBehind(w) && EndingOf(w, s).Some?
    ensures var e := EndingOf(w, s).value; e.id in w.rows.at && Later(e.seen, w.rows.at[e.id].status)
  {
    hide Later, Validate;
  }

  lemma NeverStaleEndFront(steps: seq<Step>)
    requires steps != []
    ensures var n := |steps| - 1;
      NeverStaleEnd(steps) <==> NeverStaleEnd(steps[..n]) && NoStaleEnd(Run(INIT, steps[..n]), steps[n])
  {
    hide Run, NoStaleEnd;
    var n := |steps| - 1;
    assert forall i :: 0 <= i < n ==> steps[..n][..i] == steps[..i] && steps[..n][i] == steps[i];
  }

  lemma LegalStepsFront(steps: seq<Step>)
    requires steps != []
    ensures var n := |steps| - 1;
      LegalSteps(steps) <==>
        LegalSteps(steps[..n]) && RowsMove(Run(INIT, steps[..n]), Apply(Run(INIT, steps[..n]), steps[n]))
  {
    hide Run, RowsMove, Apply;
    var n := |steps| - 1;
    assert forall i :: 0 <= i < n ==> steps[..n][..i] == steps[..i] && steps[..n][i] == steps[i];
  }

  lemma {:induction false} LegalNotBehind(steps: seq<Step>)
    requires LegalSteps(steps)
    ensures NotBehind(Run(INIT, steps))
  {
    hide Apply, RowsMove, NotBehind, LegalSteps;
    if steps == [] {
      NoneBehind();
    } else {
      var n := |steps| - 1;
      LegalStepsFront(steps);
      LegalNotBehind(steps[..n]);
      RunEarned(steps[..n]);
      NotBehindAfter(Run(INIT, steps[..n]), steps[n]);
    }
  }

  lemma NoneBehind()
    ensures NotBehind(INIT) && LegalSteps([]) && NeverStaleEnd([])
  {
  }

  /** In any interleaving, the status of every change set moves only along draft to
      validated or rejected, validated to approved, approved to published, if and only
      if no call ends on a row that has left the status the call saw for a third one. */
  lemma {:induction false} LifecycleIff(steps: seq<Step>)
    ensures LegalSteps(steps) <==> NeverStaleEnd(steps)
  {
    hide Run, RowsMove, NoStaleEnd, NotBehind, LegalSteps, NeverStaleEnd, Earned, Sound;
    if steps == [] {
      NoneBehind();
    } else {
      var n := |steps| - 1;
      LifecycleIff(steps[..n]);
      LegalStepsFront(steps);
      NeverStaleEndFront(steps);
      if LegalSteps(steps[..n]) {
        LegalNotBehind(steps[..n]);
        RunEarned(steps[..n]);
        StepLegalIff(Run(INIT, steps[..n]), steps[n]);
      }
    }
  }

  // ---- Which statuses are final ----

  /** Rejected is final in every continuation of every run. */
  lemma {:induction false} RejectedIsFinal(steps: seq<Step>, rest: seq<Step>, id: string)
    requires id in Run(INIT, steps).rows.at && Run(INIT, steps).rows.at[id].status == Rejected
    ensures var t := Run(Run(INIT, steps), rest); id in t.rows.at && t.rows.at[id].status == Rejected
  {
    hide Apply, Sound, Earned, EndingOf, Passes;
    if rest != [] {
      var w, s := Run(Run(INIT, steps), rest[..|rest| - 1]), rest[|rest| - 1];
      RejectedIsFinal(steps, rest[..|rest| - 1], id);
      RunEarned(steps);
      EarnedFrom(Run(INIT, steps), rest[..|rest| - 1]);
      EarnedRow(w, id);
      StatusAfter(w, s, id);
      if Ends(w, s, id) {
        EndingMoves(w, s);
      }
    }
  }

  lemma EarnedRow(w: World, id: string)
    requires Earned(w) && id in w.rows.at
    ensures StatusEarned(w.rows.at[id])
  {
  }

  ghost predicate StaysPublished(w: World, rest: seq<Step>, id: string) {
    forall k :: 0 <= k <= |rest| ==>
      id in Run(w, rest[..k]).rows.at && Run(w, rest[..k]).rows.at[id].status == Published
  }

  ghost predicate NeverStaleFor(w: World, rest: seq<Step>, id: string) {
    forall k :: 0 <= k < |rest| ==> !StaleEnd(Run(w, rest[..k]), rest[k], id)
  }

  lemma StepStaysPublished(w: World, s: Step, id: string)
    requires Sound(w) && Earned(w) && id in w.rows.at && w.rows.at[id].status == Published
    ensures id in Apply(w, s).rows.at && (Apply(w, s).rows.at[id].status == Published <==> !StaleEnd(w, s, id))
  {
    hide Apply, Sound, Earned, EndingOf;
    StatusAfter(w, s, id);
    if Ends(w, s, id) {
      EndingMoves(w, s);
    }
  }

  lemma StaysPublishedFront(w: World, rest: seq<Step>, id: string)
    requires rest != []
    ensures StaysPublished(w, rest, id) <==>
      StaysPublished(w, rest[..|rest| - 1], id) && id in Run(w, rest).rows.at
        && Run(w, rest).rows.at[id].status == Published
  {
    hide Run;
    var n := |rest| - 1;
    assert forall k :: 0 <= k <= n ==> rest[..n][..k] == rest[..k];
    assert rest[..|rest|] == rest;
  }

  lemma NeverStaleForFront(w: World, rest: seq<Step>, id: string)
    requires rest != []
    ensures var n := |rest| - 1;
      NeverStaleFor(w, rest, id) <==> NeverStaleFor(w, rest[..n], id) && !StaleEnd(Run(w, rest[..n]), rest[n], id)
  {
    hide Run, StaleEnd;
    var n := |rest| - 1;
    assert forall k :: 0 <= k < n ==> rest[..n][..k] == rest[..k] && rest[..n][k] == rest[k];
  }

  lemma LastPublished(w: World, rest: seq<Step>, id: string)
    requires StaysPublished(w, rest, id)
    ensures id in Run(w, rest).rows.at && Run(w, rest).rows.at[id].status == Published
  {
    hide Run;
    assert rest[..|rest|] == rest;
  }

  /** A published change set stays published throughout a continuation if and only if
      no call of it ends there that saw another status and writes another one. */
  lemma {:induction false} PublishedStaysIff(w: World, rest: seq<Step>, id: string)
    requires Sound(w) && Earned(w) && id in w.rows.at && w.rows.at[id].status == Published
    ensures StaysPublished(w, rest, id) <==> NeverStaleFor(w, rest, id)
  {
    hide Apply, Sound, Earned, StaleEnd;
    if rest == [] {
      assert rest[..0] == [];
    } else {
      var n := |rest| - 1;
      PublishedStaysIff(w, rest[..n], id);
      StaysPublishedFront(w, rest, id);
      NeverStaleForFront(w, rest, id);
      if StaysPublished(w, rest[..n], id) {
        LastPublished(w, rest[..n], id);
        EarnedFrom(w, rest[..n]);
        StepStaysPublished(Run(w, rest[..n]), rest[n], id);
      }
    }
  }

  /** A validation that reads before a publish call and writes after it. */
  function LateValidation(id: string, snapshot: string): seq<Step> {
    [BeginValidate(1, id)] + ([Load(0, id), Check(0), ReadHead(0)] + [Write(0, snapshot), UpdateStatus(0)])
      + [EndValidate(1)]
  }

  /** From every world with a change set that is ready, such a validation puts the
      published row back to approved, with its snapshot in place: the change set is
      stranded. */
  lemma PublishedFallsBack(w: World, id: string, snapshot: string)
    requires Sound(w) && w.calls == map[] && ReadyToPublish(w, id) && snapshot !in w.store.snapshots
    ensures var t := Run(w, LateValidation(id, snapshot));
      && snapshot in t.store.snapshots && t.store.head == Some(snapshot) && id in t.rows.at
      && t.rows.at[id].status == Approved && t.rows.at[id].publishedSnapshot == Some(snapshot)
      && Stranded(t, id)
  {
    hide Run, Passes, Validate, ReportFor, PublishTo, Sound, Apply, ReadyToPublish;
    var cs := ReadyRow(w, id);
    var begun := w.(calls := map[1 := Validating(cs)]);
    RunNothing(w);
    RunSnoc(w, [], BeginValidate(1, id));
    assert [] + [BeginValidate(1, id)] == [BeginValidate(1, id)];
    Begun(w, id);
    var five := [Load(0, id), Check(0), ReadHead(0)] + [Write(0, snapshot), UpdateStatus(0)];
    RunFrom(w, [BeginValidate(1, id)], five);
    RunSnoc(w, [BeginValidate(1, id)] + five, EndValidate(1));
    RunFrom(begun, [Load(0, id), Check(0), ReadHead(0)], [Write(0, snapshot), UpdateStatus(0)]);
    RunThree(begun, Load(0, id), Check(0), ReadHead(0));
    StillReady(w, id);
    SoundRows(w);
    UpToHeadRead(begun, 0, id);
    var read := begun.(calls := begun.calls[0 := HeadRead(cs)]);
    RunTwo(read, Write(0, snapshot), UpdateStatus(0));
    LateEnd(read, cs, snapshot);
  }

  lemma ReadyRow(w: World, id: string) returns (cs: ChangeSet)
    requires ReadyToPublish(w, id)
    ensures id in w.rows.at && cs == w.rows.at[id] && cs.id == id && cs.status == Approved && Passes(cs.nodes, cs.rels)
  {
    hide Passes;
    cs := w.rows.at[id];
  }

  lemma Begun(w: World, id: string)
    requires w.calls == map[] && id in w.rows.at
    ensures Apply(w, BeginValidate(1, id)) == w.(calls := map[1 := Validating(w.rows.at[id])])
  {
  }

  lemma StillReady(w: World, id: string)
    requires ReadyToPublish(w, id)
    ensures ReadyToPublish(w.(calls := map[1 := Validating(w.rows.at[id])]), id)
  {
    hide Passes;
  }

  /** A write and the status update behind it. */
  lemma WriteAndUpdate(read: World, n: nat, snapshot: string)
    requires Reads(read, n) && snapshot !in read.store.snapshots && RowsValid(read.rows)
    requires var cs := read.calls[n].cs; cs.id in read.rows.at
    ensures var t, cs := Apply(Apply(read, Write(n, snapshot)), UpdateStatus(n)), read.calls[n].cs;
      && snapshot in t.store.snapshots && t.store.head == Some(snapshot) && t.calls == read.calls - {n}
      && snapshot in t.publishedBy && t.publishedBy[snapshot] == cs.id
      && t.rows.at == read.rows.at[cs.id := MarkPublished(read.rows.at[cs.id], snapshot, ReportFor(cs.nodes, cs.rels, {}))]
  {
    hide Passes, ReportFor;
    var cs := read.calls[n].cs;
    assert read.calls[n := Written(cs, snapshot)] - {n} == read.calls - {n};
  }

  lemma LateEnd(read: World, cs: ChangeSet, snapshot: string)
    requires read.calls == map[1 := Validating(cs), 0 := HeadRead(cs)] && snapshot !in read.store.snapshots
      && RowsValid(read.rows)
    requires cs.id in read.rows.at && read.rows.at[cs.id] == cs && cs.status == Approved && Passes(cs.nodes, cs.rels)
    ensures var t := Apply(Apply(Apply(read, Write(0, snapshot)), UpdateStatus(0)), EndValidate(1));
      && snapshot in t.store.snapshots && t.store.head == Some(snapshot) && cs.id in t.rows.at
      && t.rows.at[cs.id].status == Approved && t.rows.at[cs.id].publishedSnapshot == Some(snapshot)
      && Stranded(t, cs.id)
  {
    hide Passes, Validate, ReportFor, PublishTo;
    WriteAndUpdate(read, 0, snapshot);
    SeenApproved(cs);
    var u := Apply(Apply(read, Write(0, snapshot)), UpdateStatus(0));
    assert u.calls == map[1 := Validating(cs)];
    assert Apply(u, EndValidate(1)).calls == map[];
  }

  lemma SeenApproved(cs: ChangeSet)
    requires cs.status == Approved && Passes(cs.nodes, cs.rels)
    ensures Validate(cs).status == Approved
  {
  }

  /** The fresh re-check before a write never fails for an approved change set. */
  lemma FreshCheckNeverFails(steps: seq<Step>, call: nat)
    requires var w := Run(INIT, steps); call in w.calls && w.calls[call].Loaded? && w.calls[call].cs.status == Approved
    ensures var w := Run(INIT, steps); Apply(w, Check(call)).calls == w.calls[call := Checked(w.calls[call].cs)]
  {
    hide Passes, Run;
    RunEarned(steps);
    var w := Run(INIT, steps);
    assert CallEarned(w.calls[call]);
  }

  // ---- Snapshots that never get a published row ----

  /** The call will mark the row published, if it goes on. */
  predicate WillPublish(w: World, n: nat, id: string) {
    && n in w.calls && w.calls[n].cs.id == id
    && (w.calls[n].HeadRead? || w.calls[n].Written? || (w.calls[n].Validating? && w.calls[n].cs.status == Published))
  }

  predicate IsPublished(w: World, id: string) {
    id in w.rows.at && w.rows.at[id].status == Published
  }

  /** The change set has a snapshot, is not published, and no call will publish it. */
  ghost predicate Stranded(w: World, id: string) {
    HasSnapshot(w, id) && !IsPublished(w, id) && forall n :: !WillPublish(w, n, id)
  }

  lemma SnapshotStays(w: World, s: Step, id: string)
    requires Sound(w) && HasSnapshot(w, id)
    ensures id in w.rows.at && HasSnapshot(Apply(w, s), id)
  {
    hide Apply, Sound, Keeps;
    StepKeeps(w, s);
    StoreKept(w, Apply(w, s));
  }

  /** Where a call that will publish comes from. */
  lemma WillPublishBefore(w: World, s: Step, n: nat, id: string)
    requires Sound(w) && WillPublish(Apply(w, s), n, id) && !WillPublish(w, n, id)
    ensures (n in w.calls && w.calls[n].cs.id == id && w.calls[n].cs.base == w.store.head) || IsPublished(w, id)
  {
    hide Passes, Validate, PublishTo, Chained, PublicationSound, CallsSound, StoreSound;
    if s.BeginValidate? && s.id in w.rows.at {
      RowOf(w, s.id);
    }
  }

  lemma PublishingEnd(w: World, s: Step)
    requires Earned(w) && EndingOf(w, s).Some? && EndingOf(w, s).value.next == Published
    ensures WillPublish(w, s.call, EndingOf(w, s).value.id)
  {
    hide Earned, Validate;
    CallEarnedAt(w, s.call);
    ValidateMoves(w.calls[s.call].cs);
  }

  lemma NotPublishedAfter(w: World, s: Step, id: string)
    requires Sound(w) && Earned(w) && id in w.rows.at && !IsPublished(w, id) && forall n :: !WillPublish(w, n, id)
    ensures !IsPublished(Apply(w, s), id)
  {
    hide Apply, Sound, Earned, EndingOf;
    StatusAfter(w, s, id);
    if Ends(w, s, id) && EndingOf(w, s).value.next == Published {
      PublishingEnd(w, s);
    }
  }

  lemma CallEarnedAt(w: World, n: nat)
    requires Earned(w) && n in w.calls
    ensures CallEarned(w.calls[n])
  {
    hide StatusEarned;
  }

  lemma StrandedStep(w: World, s: Step, id: string)
    requires Sound(w) && BasesPlaced(w) && Earned(w) && Stranded(w, id)
    ensures Stranded(Apply(w, s), id)
  {
    hide Apply, Sound, Earned, BasesPlaced, HasSnapshot, WillPublish;
    SnapshotStays(w, s, id);
    NotPublishedAfter(w, s, id);
    forall n ensures !WillPublish(Apply(w, s), n, id) {
      if WillPublish(Apply(w, s), n, id) {
        WillPublishBefore(w, s, n, id);
        CallBase(w, n);
        WrittenIsPassed(w, id);
        assert false;
      }
    }
  }

  /** Such a snapshot stays without a published row in every continuation. */
  lemma {:induction false} StrandedForever(steps: seq<Step>, rest: seq<Step>, id: string)
    requires Stranded(Run(INIT, steps), id)
    ensures var t := Run(Run(INIT, steps), rest); Stranded(t, id) && RowsValid(t.rows)
    ensures var t := Run(Run(INIT, steps), rest);
      forall k :: k in t.publishedBy && t.publishedBy[k] == id ==> PublishedRows(t.rows, k) == []
  {
    hide Apply, Sound, Earned, BasesPlaced, Stranded;
    RunFrom(INIT, steps, rest);
    RunPlaced(steps + rest);
    if rest != [] {
      var front := rest[..|rest| - 1];
      StrandedForever(steps, front, id);
      RunFrom(INIT, steps, front);
      RunPlaced(steps + front);
      RunEarned(steps + front);
      StrandedStep(Run(Run(INIT, steps), front), rest[|rest| - 1], id);
    }
    NoPublishedRow(Run(Run(INIT, steps), rest), id);
  }

  lemma PublishedOwner(w: World, k: string, cs: ChangeSet)
    requires Sound(w) && cs in PublishedRows(w.rows, k)
    ensures IsPublished(w, cs.id) && k in w.publishedBy && w.publishedBy[k] == cs.id
  {
    hide Chained, CallsSound;
    assert RowSound(w, w.rows.at[cs.id]);
  }

  lemma NoPublishedRow(w: World, id: string)
    requires Sound(w) && Stranded(w, id)
    ensures RowsValid(w.rows) && forall k :: k in w.publishedBy && w.publishedBy[k] == id ==>
      PublishedRows(w.rows, k) == []
  {
    hide Sound, PublishedRows, HasSnapshot, WillPublish;
    SoundRows(w);
    forall k | k in w.publishedBy && w.publishedBy[k] == id ensures PublishedRows(w.rows, k) == [] {
      if PublishedRows(w.rows, k) != [] {
        PublishedOwner(w, k, PublishedRows(w.rows, k)[0]);
      }
    }
  }

  /** The rest of a call that will publish. */
  function Remainder(w: World, n: nat, newId: string): seq<Step> {
    if n !in w.calls then []
    else if w.calls[n].HeadRead? then [Write(n, newId), UpdateStatus(n)]
    else if w.calls[n].Written? then [UpdateStatus(n)]
    else [EndValidate(n)]
  }

  lemma RemainderPublishes(w: World, n: nat, id: string, newId: string)
    requires Sound(w) && Earned(w) && WillPublish(w, n, id) && newId !in w.store.snapshots
    ensures IsPublished(Run(w, Remainder(w, n, newId)), id)
  {
    hide Run, Passes, Validate, PublishTo, ReportFor, Sound, Earned;
    var c := w.calls[n];
    CallFits(w, n);
    SoundRows(w);
    CallEarnedAt(w, n);
    ValidateMoves(c.cs);
    RunNothing(w);
    if c.HeadRead? {
      RunTwo(w, Write(n, newId), UpdateStatus(n));
      WriteAndUpdate(w, n, newId);
    } else {
      var s := if c.Written? then UpdateStatus(n) else EndValidate(n);
      RunSnoc(w, [], s);
      assert [] + [s] == [s];
    }
  }

  /** In any interleaving, a change set that has a snapshot can still be published if
      and only if it is not stranded. */
  lemma StrandedIff(steps: seq<Step>, id: string, newId: string)
    requires HasSnapshot(Run(INIT, steps), id) && newId !in Run(INIT, steps).store.snapshots
    ensures Stranded(Run(INIT, steps), id) <==> forall rest :: !IsPublished(Run(Run(INIT, steps), rest), id)
  {
    hide Run, Sound, Earned, HasSnapshot, IsPublished, WillPublish;
    var w := Run(INIT, steps);
    RunEarned(steps);
    if Stranded(w, id) {
      forall rest ensures !IsPublished(Run(w, rest), id) {
        StrandedForever(steps, rest, id);
      }
    } else if IsPublished(w, id) {
      RunNothing(w);
    } else {
      var n :| WillPublish(w, n, id);
      RemainderPublishes(w, n, id, newId);
    }
  }

  /** A publish call that stops after its write. */
  function StoppedCall(id: string, snapshot: string): seq<Step> {
    [Load(0, id), Check(0), ReadHead(0)] + [Write(0, snapshot), Stop(0)]
  }

  /** From every world where nothing is under way, a call that stops after its write
      strands the change set. */
  lemma StopStrands(w: World, id: string, snapshot: string)
    requires Sound(w) && w.calls == map[] && ReadyToPublish(w, id) && snapshot !in w.store.snapshots
    ensures Stranded(Run(w, StoppedCall(id, snapshot)), id)
  {
    hide Run, Passes, PublishTo, Sound;
    var cs := ReadyRow(w, id);
    RunFrom(w, [Load(0, id), Check(0), ReadHead(0)], [Write(0, snapshot), Stop(0)]);
    RunThree(w, Load(0, id), Check(0), ReadHead(0));
    UpToHeadRead(w, 0, id);
    var read := w.(calls := map[0 := HeadRead(cs)]);
    assert w.calls[0 := HeadRead(cs)] == read.calls;
    RunTwo(read, Write(0, snapshot), Stop(0));
    var t := Apply(Apply(read, Write(0, snapshot)), Stop(0));
    assert t.calls == map[] && t.rows == w.rows;
    assert snapshot in t.publishedBy && t.publishedBy[snapshot] == id;
  }
}
