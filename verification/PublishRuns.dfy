/** Properties of whole runs of the protocol that concern the store: optimistic
    concurrency, and at most one snapshot per change set. */
module PublishRuns {
  import opened Common
  import opened Graph
  import opened Constraints
  import opened GraphStore
  import opened Changesets
  import opened Publisher

  // ---- Optimistic concurrency ----

  /** The snapshot superseded the base its change set was built on. */
  ghost predicate LinkMatches(w: World, k: string) {
    && k in w.store.snapshots && k in w.publishedBy && w.publishedBy[k] in w.rows.at
    && w.store.snapshots[k].superseded == w.rows.at[w.publishedBy[k]].base
  }

  ghost predicate LinksMatch(w: World) {
    forall k :: k in w.publishedBy ==> LinkMatches(w, k)
  }

  predicate WriteEnabled(w: World, s: Step) {
    s.Write? && s.call in w.calls && w.calls[s.call].HeadRead? && s.newId !in w.store.snapshots
  }

  /** The head moved between the call's comparison and its write. */
  predicate StaleWrite(w: World, s: Step) {
    WriteEnabled(w, s) && w.calls[s.call].cs.base != w.store.head
  }

  ghost predicate NeverStale(steps: seq<Step>) {
    forall i :: 0 <= i < |steps| ==> !StaleWrite(Run(INIT, steps[..i]), steps[i])
  }

  lemma OldLinksStay(w: World, s: Step, k: string)
    requires Sound(w) && k in w.publishedBy
    ensures LinkMatches(w, k) <==> LinkMatches(Apply(w, s), k)
  {
    StepKeeps(w, s);
    assert k in w.store.order;
    assert RowKeeps(w.rows.at[w.publishedBy[k]], Apply(w, s).rows.at[w.publishedBy[k]]);
  }

  lemma NewLink(w: World, s: Step)
    requires Sound(w) && WriteEnabled(w, s)
    ensures LinkMatches(Apply(w, s), s.newId) <==> !StaleWrite(w, s)
  {
    assert CallSound(w, w.calls[s.call]);
  }

  lemma PublishedByGrows(w: World, s: Step)
    ensures Apply(w, s).publishedBy.Keys == w.publishedBy.Keys + if WriteEnabled(w, s) then {s.newId} else {}
  {
  }

  lemma StepLinks(w: World, s: Step)
    requires Sound(w)
    ensures LinksMatch(Apply(w, s)) <==> LinksMatch(w) && !StaleWrite(w, s)
  {
    hide LinkMatches, Passes, PublishTo, Sound, Apply;
    var t := Apply(w, s);
    PublishedByGrows(w, s);
    forall k | k in w.publishedBy ensures LinkMatches(w, k) <==> LinkMatches(t, k) {
      OldLinksStay(w, s, k);
    }
    if WriteEnabled(w, s) {
      NewLink(w, s);
      assert s.newId in t.publishedBy;
    }
    assert forall k :: k in w.publishedBy ==> k in t.publishedBy;
    assert forall k :: k in t.publishedBy ==> k in w.publishedBy || (WriteEnabled(w, s) && k == s.newId);
  }

  lemma NeverStaleSnoc(steps: seq<Step>)
    requires steps != []
    ensures var n := |steps| - 1;
            NeverStale(steps) <==> NeverStale(steps[..n]) && !StaleWrite(Run(INIT, steps[..n]), steps[n])
  {
    var n := |steps| - 1;
    assert forall i :: 0 <= i < n ==> steps[..n][..i] == steps[..i] && steps[..n][i] == steps[i];
  }

  /** In any interleaving, every snapshot supersedes the base of its change set if
      and only if no write found that the head had moved since its comparison. */
  lemma {:induction false} LinksMatchIffNeverStale(steps: seq<Step>)
    ensures LinksMatch(Run(INIT, steps)) <==> NeverStale(steps)
  {
    if steps != [] {
      var n := |steps| - 1;
      assert Sound(INIT);
      RunKeeps(INIT, steps[..n]);
      LinksMatchIffNeverStale(steps[..n]);
      StepLinks(Run(INIT, steps[..n]), steps[n]);
      NeverStaleSnoc(steps);
    }
  }

  // ---- Calls that do not overlap ----

  /** The call is a publish call. */
  predicate Publishes(w: World, n: nat) {
    n in w.calls && !w.calls[n].Validating? && !w.calls[n].Approving?
  }

  ghost predicate AtMostOneCall(w: World) {
    forall m, n :: Publishes(w, m) && Publishes(w, n) ==> m == n
  }

  /** A publish call starts only when no other is under way; a call may stop
      anywhere, and other operations may come between its steps. */
  ghost predicate NoOverlap(steps: seq<Step>) {
    forall i :: 0 <= i <= |steps| ==> AtMostOneCall(Run(INIT, steps[..i]))
  }

  ghost predicate HeadStillCurrent(w: World) {
    forall n :: n in w.calls && w.calls[n].HeadRead? ==> w.calls[n].cs.base == w.store.head
  }

  lemma StepKeepsHeadCurrent(w: World, s: Step)
    requires AtMostOneCall(w) && HeadStillCurrent(w)
    ensures HeadStillCurrent(Apply(w, s))
  {
    hide Passes, PublishTo;
    if WriteEnabled(w, s) {
      forall n | n in w.calls && w.calls[n].HeadRead? ensures n == s.call {
        assert Publishes(w, n) && Publishes(w, s.call);
      }
    }
  }

  lemma {:induction false} NoOverlapKeepsHead(steps: seq<Step>)
    requires NoOverlap(steps)
    ensures HeadStillCurrent(Run(INIT, steps))
  {
    if steps != [] {
      var n := |steps| - 1;
      assert forall i :: 0 <= i <= n ==> steps[..n][..i] == steps[..i];
      NoOverlapKeepsHead(steps[..n]);
      assert AtMostOneCall(Run(INIT, steps[..n]));
      StepKeepsHeadCurrent(Run(INIT, steps[..n]), steps[n]);
    }
  }

  lemma NoOverlapNeverStale(steps: seq<Step>)
    requires NoOverlap(steps)
    ensures NeverStale(steps)
  {
    forall i | 0 <= i < |steps| ensures !StaleWrite(Run(INIT, steps[..i]), steps[i]) {
      assert forall j :: 0 <= j <= i ==> steps[..i][..j] == steps[..j];
      NoOverlapKeepsHead(steps[..i]);
    }
  }

  // ---- Where bases lie in the chain ----

  ghost predicate BaseAt(order: seq<string>, base: Option<string>, i: nat) {
    i <= |order| && base == Prev(order, i)
  }

  /** The base is the start of the chain or one of its snapshots. */
  ghost predicate OnChain(order: seq<string>, base: Option<string>) {
    exists i: nat :: BaseAt(order, base, i)
  }

  /** The base is on the chain and no longer its end. */
  ghost predicate Passed(order: seq<string>, base: Option<string>) {
    exists i: nat :: i < |order| && BaseAt(order, base, i)
  }

  /** A call that compared with the head has a base on the chain, and the base of a
      change set that has a snapshot has been passed. */
  ghost predicate BasesPlaced(w: World) {
    && (forall n :: n in w.calls && w.calls[n].HeadRead? ==> OnChain(w.store.order, w.calls[n].cs.base))
    && (forall k :: k in w.publishedBy ==>
      w.publishedBy[k] in w.rows.at && Passed(w.store.order, w.rows.at[w.publishedBy[k]].base))
  }

  lemma PlacesStay(order: seq<string>, later: seq<string>, base: Option<string>)
    requires |order| <= |later| && later[..|order|] == order
    ensures OnChain(order, base) ==> OnChain(later, base)
    ensures Passed(order, base) ==> Passed(later, base)
    ensures |order| < |later| && OnChain(order, base) ==> Passed(later, base)
  {
    forall i: nat | BaseAt(order, base, i) ensures BaseAt(later, base, i) {
      assert i > 0 ==> later[i - 1] == later[..|order|][i - 1];
    }
  }

  lemma PassedIsNotHead(s: Store, base: Option<string>)
    requires Chained(s) && Passed(s.order, base)
    ensures base != s.head
  {
    var i: nat :| i < |s.order| && BaseAt(s.order, base, i);
    assert i > 0 ==> s.order[i - 1] != s.order[|s.order| - 1];
  }

  lemma HeadIsOnChain(s: Store)
    requires Chained(s)
    ensures OnChain(s.order, s.head)
  {
    assert BaseAt(s.order, s.head, |s.order|);
  }

  lemma ReadersPlaced(w: World, s: Step, n: nat)
    requires Sound(w) && BasesPlaced(w)
    requires n in Apply(w, s).calls && Apply(w, s).calls[n].HeadRead?
    ensures OnChain(Apply(w, s).store.order, Apply(w, s).calls[n].cs.base)
  {
    hide Passes, OnChain, Passed, Sound, Keeps;
    StepKeeps(w, s);
    StoreKept(w, Apply(w, s));
    HeadIsOnChain(w.store);
    PlacesStay(w.store.order, Apply(w, s).store.order, Apply(w, s).calls[n].cs.base);
  }

  lemma StoreKept(w: World, t: World)
    requires Sound(w) && Keeps(w, t)
    ensures Chained(w.store) && |w.store.order| <= |t.store.order| && t.store.order[..|w.store.order|] == w.store.order
    ensures forall k :: k in w.publishedBy ==>
      k in t.publishedBy && t.publishedBy[k] == w.publishedBy[k]
      && w.publishedBy[k] in w.rows.at && w.publishedBy[k] in t.rows.at
      && t.rows.at[t.publishedBy[k]].base == w.rows.at[w.publishedBy[k]].base
  {
    forall k | k in w.publishedBy
      ensures w.publishedBy[k] in t.rows.at && t.rows.at[w.publishedBy[k]].base == w.rows.at[w.publishedBy[k]].base
    {
      assert RowKeeps(w.rows.at[w.publishedBy[k]], t.rows.at[w.publishedBy[k]]);
    }
  }

  /** What an enabled write does to the chain and to the history of writes. */
  lemma WriteEffect(w: World, s: Step)
    requires Sound(w) && WriteEnabled(w, s)
    ensures var t, cs := Apply(w, s), w.calls[s.call].cs;
      && t.store.order == w.store.order + [s.newId] && t.rows == w.rows && s.newId !in w.publishedBy
      && t.publishedBy == w.publishedBy[s.newId := cs.id] && t.calls == w.calls[s.call := Written(cs, s.newId)]
      && cs.id in w.rows.at && w.rows.at[cs.id].base == cs.base
  {
    hide Passes;
    assert CallSound(w, w.calls[s.call]);
  }

  lemma SnapshotsPlaced(w: World, s: Step, k: string)
    requires Sound(w) && BasesPlaced(w) && k in Apply(w, s).publishedBy
    ensures var t := Apply(w, s);
      t.publishedBy[k] in t.rows.at && Passed(t.store.order, t.rows.at[t.publishedBy[k]].base)
  {
    hide Apply, OnChain, Passed, Sound, Keeps;
    StepKeeps(w, s);
    StoreKept(w, Apply(w, s));
    PublishedByGrows(w, s);
    if k in w.publishedBy {
      PlacesStay(w.store.order, Apply(w, s).store.order, w.rows.at[w.publishedBy[k]].base);
    } else {
      WriteEffect(w, s);
      PlacesStay(w.store.order, Apply(w, s).store.order, w.calls[s.call].cs.base);
    }
  }

  lemma {:induction false} RunPlaced(steps: seq<Step>)
    ensures Sound(Run(INIT, steps)) && BasesPlaced(Run(INIT, steps))
  {
    hide Apply, OnChain, Passed;
    assert Sound(INIT);
    RunKeeps(INIT, steps);
    if steps != [] {
      var w, s := Run(INIT, steps[..|steps| - 1]), steps[|steps| - 1];
      RunPlaced(steps[..|steps| - 1]);
      forall n | n in Apply(w, s).calls && Apply(w, s).calls[n].HeadRead?
        ensures OnChain(Apply(w, s).store.order, Apply(w, s).calls[n].cs.base)
      {
        ReadersPlaced(w, s, n);
      }
      forall k | k in Apply(w, s).publishedBy
        ensures Apply(w, s).publishedBy[k] in Apply(w, s).rows.at
        ensures Passed(Apply(w, s).store.order, Apply(w, s).rows.at[Apply(w, s).publishedBy[k]].base)
      {
        SnapshotsPlaced(w, s, k);
      }
    }
  }

  // ---- Bases of different snapshots ----

  ghost predicate BasesAgree(w: World, j: string, k: string) {
    && j in w.publishedBy && k in w.publishedBy && w.publishedBy[j] in w.rows.at && w.publishedBy[k] in w.rows.at
    && w.rows.at[w.publishedBy[j]].base == w.rows.at[w.publishedBy[k]].base
  }

  /** No two snapshots were written from the same base. */
  ghost predicate BasesDiffer(w: World) {
    forall j, k :: j != k ==> !BasesAgree(w, j, k)
  }

  lemma LinksKeepBasesApart(w: World, j: string, k: string)
    requires Sound(w) && LinksMatch(w) && j != k
    ensures !BasesAgree(w, j, k)
  {
    if j in w.publishedBy && k in w.publishedBy {
      assert LinkMatches(w, j) && LinkMatches(w, k);
      assert j in w.store.order && k in w.store.order;
      var a :| 0 <= a < |w.store.order| && w.store.order[a] == j;
      var b :| 0 <= b < |w.store.order| && w.store.order[b] == k;
      if a < b {
        SupersededIsInjective(w.store, a, b);
      } else {
        SupersededIsInjective(w.store, b, a);
      }
    }
  }

  lemma AgreementStays(w: World, s: Step, j: string, k: string)
    requires Sound(w) && BasesAgree(w, j, k)
    ensures BasesAgree(Apply(w, s), j, k)
  {
    hide Apply, Sound, Keeps;
    StepKeeps(w, s);
    StoreKept(w, Apply(w, s));
  }

  /** The first stale write collides: its base was passed by the snapshot that
      follows it in the chain, and that one was written from the same base. */
  lemma StaleCollides(w: World, s: Step) returns (k: string)
    requires Sound(w) && BasesPlaced(w) && LinksMatch(w) && StaleWrite(w, s)
    ensures s.Write? && k != s.newId && BasesAgree(Apply(w, s), k, s.newId)
  {
    hide Apply, Passes;
    var base, order := w.calls[s.call].cs.base, w.store.order;
    WriteEffect(w, s);
    assert OnChain(order, base);
    var i: nat :| BaseAt(order, base, i);
    assert base != Prev(order, |order|);
    k := order[i];
    assert LinkedAt(w.store, i) && k in order;
    assert LinkMatches(w, k);
  }

  /** In any interleaving, no two snapshots share a base if and only if no write
      found that the head had moved since its comparison. */
  lemma {:induction false} BasesDifferIffNeverStale(steps: seq<Step>)
    ensures BasesDiffer(Run(INIT, steps)) <==> NeverStale(steps)
  {
    hide Apply, BasesAgree, LinksMatch, Sound, BasesPlaced, StaleWrite;
    RunPlaced(steps);
    LinksMatchIffNeverStale(steps);
    if NeverStale(steps) {
      forall j, k | j != k ensures !BasesAgree(Run(INIT, steps), j, k) {
        LinksKeepBasesApart(Run(INIT, steps), j, k);
      }
    } else {
      var j, k := SharedBase(steps);
    }
  }

  lemma {:induction false} SharedBase(steps: seq<Step>) returns (j: string, k: string)
    requires !NeverStale(steps)
    ensures j != k && BasesAgree(Run(INIT, steps), j, k)
  {
    hide Apply, BasesAgree, LinksMatch, Sound, BasesPlaced, StaleWrite, NeverStale;
    if steps == [] {
      NothingIsStale();
      assert false;
    } else {
      var front, s := steps[..|steps| - 1], steps[|steps| - 1];
      RunPlaced(front);
      LinksMatchIffNeverStale(front);
      NeverStaleSnoc(steps);
      if !NeverStale(front) {
        j, k := SharedBase(front);
        AgreementStays(Run(INIT, front), s, j, k);
      } else {
        j := StaleCollides(Run(INIT, front), s);
        k := s.newId;
      }
    }
  }

  lemma NothingIsStale()
    ensures NeverStale([])
  {
  }

  /** So without stale writes a published change set's base is the id its snapshot
      supersedes, and no two published change sets share a base. */
  lemma PublishedBases(steps: seq<Step>)
    requires NeverStale(steps)
    ensures var w := Run(INIT, steps);
      && (forall id :: id in w.rows.at && w.rows.at[id].status == Published ==>
            var k := w.rows.at[id].publishedSnapshot;
            k.Some? && k.value in w.store.snapshots && w.store.snapshots[k.value].superseded == w.rows.at[id].base)
      && (forall a, b :: a in w.rows.at && b in w.rows.at && a != b && w.rows.at[a].status == Published && w.rows.at[b].status == Published ==>
            w.rows.at[a].base != w.rows.at[b].base)
  {
    hide Run, Passes;
    var w := Run(INIT, steps);
    RunPlaced(steps);
    LinksMatchIffNeverStale(steps);
    forall id | id in w.rows.at && w.rows.at[id].status == Published
      ensures RowSound(w, w.rows.at[id]) && w.rows.at[id].id == id
        && LinkMatches(w, w.rows.at[id].publishedSnapshot.value)
    {
    }
    forall a, b | a in w.rows.at && b in w.rows.at && a != b && w.rows.at[a].status == Published
      && w.rows.at[b].status == Published
      ensures w.rows.at[a].base != w.rows.at[b].base
    {
      LinksKeepBasesApart(w, w.rows.at[a].publishedSnapshot.value, w.rows.at[b].publishedSnapshot.value);
    }
  }

  // ---- Snapshots of one change set ----

  ghost predicate HasSnapshot(w: World, id: string) {
    exists k :: k in w.publishedBy && w.publishedBy[k] == id
  }

  /** No change set has two snapshots. */
  ghost predicate OnceEach(w: World) {
    forall j, k :: j in w.publishedBy && k in w.publishedBy && w.publishedBy[j] == w.publishedBy[k] ==> j == k
  }

  /** A write for a change set that has a snapshot already. */
  ghost predicate RepeatWrite(w: World, s: Step) {
    WriteEnabled(w, s) && HasSnapshot(w, w.calls[s.call].cs.id)
  }

  ghost predicate NeverRepeats(steps: seq<Step>) {
    forall i :: 0 <= i < |steps| ==> !RepeatWrite(Run(INIT, steps[..i]), steps[i])
  }

  lemma NeverRepeatsSnoc(steps: seq<Step>)
    requires steps != []
    ensures var n := |steps| - 1;
            NeverRepeats(steps) <==> NeverRepeats(steps[..n]) && !RepeatWrite(Run(INIT, steps[..n]), steps[n])
  {
    var n := |steps| - 1;
    assert forall i :: 0 <= i < n ==> steps[..n][..i] == steps[..i] && steps[..n][i] == steps[i];
  }

  lemma OnceEachStep(w: World, s: Step)
    requires Sound(w)
    ensures OnceEach(Apply(w, s)) <==> OnceEach(w) && !RepeatWrite(w, s)
  {
    hide Apply, Sound, Keeps, WriteEnabled;
    StepKeeps(w, s);
    StoreKept(w, Apply(w, s));
    PublishedByGrows(w, s);
    if WriteEnabled(w, s) {
      WriteEffect(w, s);
    }
  }

  /** In any interleaving, each change set has at most one snapshot if and only if
      no write was made for a change set that had one. */
  lemma {:induction false} OnceIffNeverRepeats(steps: seq<Step>)
    ensures OnceEach(Run(INIT, steps)) <==> NeverRepeats(steps)
  {
    hide Apply, Sound, RepeatWrite;
    if steps != [] {
      var n := |steps| - 1;
      RunPlaced(steps[..n]);
      OnceIffNeverRepeats(steps[..n]);
      OnceEachStep(Run(INIT, steps[..n]), steps[n]);
      NeverRepeatsSnoc(steps);
    }
  }

  /** The call is between head read and write. */
  predicate Reads(w: World, n: nat) {
    n in w.calls && w.calls[n].HeadRead?
  }

  /** No two calls of the same change set are there together. */
  ghost predicate OneReaderEach(w: World) {
    forall m, n :: Reads(w, m) && Reads(w, n) && w.calls[m].cs.id == w.calls[n].cs.id ==> m == n
  }

  /** Calls of different change sets may overlap freely, calls of the same one only
      outside that window. */
  ghost predicate NoDoubleRead(steps: seq<Step>) {
    forall i :: 0 <= i <= |steps| ==> OneReaderEach(Run(INIT, steps[..i]))
  }

  /** A call about to write belongs to a change set without a snapshot. */
  ghost predicate ReadersUnwritten(w: World) {
    forall n :: n in w.calls && w.calls[n].HeadRead? ==> !HasSnapshot(w, w.calls[n].cs.id)
  }

  /** A change set that has a snapshot fails every head check. */
  lemma WrittenIsPassed(w: World, id: string)
    requires Sound(w) && BasesPlaced(w) && HasSnapshot(w, id)
    ensures id in w.rows.at && w.rows.at[id].base != w.store.head
  {
    hide Passed;
    var k :| k in w.publishedBy && w.publishedBy[k] == id;
    PassedIsNotHead(w.store, w.rows.at[id].base);
  }

  lemma NoNewSnapshot(w: World, s: Step, id: string)
    requires Sound(w) && (WriteEnabled(w, s) ==> w.calls[s.call].cs.id != id) && !HasSnapshot(w, id)
    ensures !HasSnapshot(Apply(w, s), id)
  {
    hide Apply, Sound, Keeps, WriteEnabled;
    StepKeeps(w, s);
    StoreKept(w, Apply(w, s));
    PublishedByGrows(w, s);
    if WriteEnabled(w, s) {
      WriteEffect(w, s);
    }
  }

  lemma ReaderUnwritten(w: World, s: Step, n: nat)
    requires Sound(w) && BasesPlaced(w) && OneReaderEach(w) && ReadersUnwritten(w)
    requires n in Apply(w, s).calls && Apply(w, s).calls[n].HeadRead?
    ensures !HasSnapshot(Apply(w, s), Apply(w, s).calls[n].cs.id)
  {
    hide Passes, HasSnapshot, Sound, BasesPlaced, PublishTo;
    var id := Apply(w, s).calls[n].cs.id;
    if n in w.calls && w.calls[n].HeadRead? {
      assert w.calls[n] == Apply(w, s).calls[n];
    } else {
      assert n in w.calls && w.calls[n].Checked? && w.calls[n].cs.base == w.store.head;
      CallBase(w, n);
      if HasSnapshot(w, id) {
        WrittenIsPassed(w, id);
        assert false;
      }
    }
    NoNewSnapshot(w, s, id);
  }

  lemma CallBase(w: World, n: nat)
    requires Sound(w) && n in w.calls
    ensures w.calls[n].cs.id in w.rows.at && w.rows.at[w.calls[n].cs.id].base == w.calls[n].cs.base
  {
    assert CallSound(w, w.calls[n]);
  }

  lemma {:induction false} NoDoubleReadUnwritten(steps: seq<Step>)
    requires NoDoubleRead(steps)
    ensures ReadersUnwritten(Run(INIT, steps)) && NeverRepeats(steps)
  {
    hide Apply, Sound, BasesPlaced, HasSnapshot;
    if steps != [] {
      var n := |steps| - 1;
      var w, s := Run(INIT, steps[..n]), steps[n];
      assert forall i :: 0 <= i <= n ==> steps[..n][..i] == steps[..i];
      NoDoubleReadUnwritten(steps[..n]);
      RunPlaced(steps[..n]);
      assert OneReaderEach(w);
      forall m | m in Apply(w, s).calls && Apply(w, s).calls[m].HeadRead?
        ensures !HasSnapshot(Apply(w, s), Apply(w, s).calls[m].cs.id)
      {
        ReaderUnwritten(w, s, m);
      }
      NeverRepeatsSnoc(steps);
    }
  }

  /** Even when calls stop after the write and are retried, and whatever calls of
      other change sets do: each change set has at most one snapshot, unless two
      calls of it were between head read and write together. */
  lemma OneSnapshotPerChangeSet(steps: seq<Step>)
    requires NoDoubleRead(steps)
    ensures OnceEach(Run(INIT, steps))
  {
    hide Run, NoDoubleRead, NeverRepeats;
    NoDoubleReadUnwritten(steps);
    OnceIffNeverRepeats(steps);
  }

  /** And when two are, nothing keeps both from writing. */
  lemma DoubleReadDoubles(w: World, m: nat, n: nat, s0: string, s1: string)
    requires Reads(w, m) && Reads(w, n) && m != n && w.calls[m].cs.id == w.calls[n].cs.id
    requires s0 !in w.store.snapshots && s1 !in w.store.snapshots && s0 != s1
    ensures !OnceEach(Run(w, [Write(m, s0), Write(n, s1)]))
  {
    hide Run, Apply;
    RunTwo(w, Write(m, s0), Write(n, s1));
    BothWrites(w, m, n, s0, s1);
    var t := Run(w, [Write(m, s0), Write(n, s1)]);
    assert s0 in t.publishedBy && s1 in t.publishedBy && t.publishedBy[s0] == t.publishedBy[s1];
  }

  /** Over any run the head never returns to an earlier value: the same head means
      that nothing was published in between. */
  lemma HeadNeverReturns(first: seq<Step>, rest: seq<Step>)
    ensures var w, t := Run(INIT, first), Run(INIT, first + rest);
      w.store.head == t.store.head ==> w.store.order == t.store.order
  {
    hide Run, Passes;
    var w, t := Run(INIT, first), Run(INIT, first + rest);
    LineageUnderInterleaving(first, rest);
    if w.store.head == t.store.head {
      HeadDecidesOrder(w.store, t.store);
    }
  }

  lemma HeadDecidesOrder(s: Store, t: Store)
    requires Chained(s) && Chained(t) && Extends(s, t) && s.head == t.head
    ensures s.order == t.order
  {
    var n := |s.order|;
    assert n > 0 ==> t.order[n - 1] == t.order[..n][n - 1];
    assert |t.order| == n;
    assert t.order[..n] == t.order;
  }

  /** In any interleaving, a change set that already has a snapshot fails every
      later head check. */
  lemma RetryIsRefused(steps: seq<Step>, k: string, call: nat)
    requires var w := Run(INIT, steps); k in w.publishedBy && call in w.calls && w.calls[call].cs.id == w.publishedBy[k]
    ensures var w := Run(INIT, steps); w.calls[call].cs.base != w.store.head
    ensures var w := Run(INIT, steps); w.calls[call].Checked? ==> call !in Apply(w, ReadHead(call)).calls
  {
    hide Passes, Run, BasesPlaced;
    var w := Run(INIT, steps);
    RunPlaced(steps);
    WrittenIsPassed(w, w.publishedBy[k]);
    CallBase(w, call);
  }

  // ---- Calls that overlap ----

  /** The change set is approved, passes the rules, and sits on the head. */
  ghost predicate ReadyToPublish(w: World, id: string) {
    id in w.rows.at && w.rows.at[id].id == id && w.rows.at[id].status == Approved
    && Passes(w.rows.at[id].nodes, w.rows.at[id].rels) && w.rows.at[id].base == w.store.head
  }

  lemma UpToHeadRead(w: World, call: nat, id: string)
    requires ReadyToPublish(w, id) && call !in w.calls
    ensures Apply(Apply(Apply(w, Load(call, id)), Check(call)), ReadHead(call))
      == w.(calls := w.calls[call := HeadRead(w.rows.at[id])])
  {
    hide Passes;
    var cs := w.rows.at[id];
    var loaded := Apply(w, Load(call, id));
    assert loaded == w.(calls := w.calls[call := Loaded(cs)]);
    var checked := Apply(loaded, Check(call));
    assert checked == w.(calls := w.calls[call := Checked(cs)]);
    assert checked.calls[call := HeadRead(cs)] == w.calls[call := HeadRead(cs)];
  }

  /** Two calls that both read the head before either writes. */
  function Overlapping(a: string, b: string, s0: string, s1: string): seq<Step> {
    [Load(0, a), Check(0), ReadHead(0), Load(1, b), Check(1), ReadHead(1), Write(0, s0), Write(1, s1)]
  }

  lemma RunSnoc(w: World, steps: seq<Step>, s: Step)
    ensures Run(w, steps + [s]) == Apply(Run(w, steps), s)
  {
    assert (steps + [s])[..|steps|] == steps;
  }

  lemma RunTwo(w: World, a: Step, b: Step)
    ensures Run(w, [a, b]) == Apply(Apply(w, a), b)
  {
    hide Apply;
    RunSnoc(w, [], a);
    RunSnoc(w, [a], b);
    assert [] + [a] == [a] && [a] + [b] == [a, b];
  }

  lemma RunThree(w: World, a: Step, b: Step, c: Step)
    ensures Run(w, [a, b, c]) == Apply(Apply(Apply(w, a), b), c)
  {
    hide Apply;
    RunSnoc(w, [], a);
    RunSnoc(w, [a], b);
    RunSnoc(w, [a, b], c);
    assert [] + [a] == [a] && [a] + [b] == [a, b] && [a, b] + [c] == [a, b, c];
  }

  /** Overlap breaks both promises, from every world where it can happen: two
      change sets on the same base are both written, the second on top of the
      first; and with a == b one change set gets two snapshots. */
  lemma OverlapWritesBoth(w: World, a: string, b: string, s0: string, s1: string)
    requires w.calls == map[] && ReadyToPublish(w, a) && ReadyToPublish(w, b)
    requires s0 !in w.store.snapshots && s1 !in w.store.snapshots && s0 != s1
    ensures var t := Run(w, Overlapping(a, b, s0, s1));
      && s0 in t.publishedBy && t.publishedBy[s0] == a
      && s1 in t.publishedBy && t.publishedBy[s1] == b
      && t.rows == w.rows && t.rows.at[a].base == t.rows.at[b].base == w.store.head
      && s1 in t.store.snapshots && t.store.snapshots[s1].superseded == Some(s0)
      && t.store.order == w.store.order + [s0] + [s1]
      && t.calls == map[0 := Written(w.rows.at[a], s0), 1 := Written(w.rows.at[b], s1)]
  {
    hide Passes, Run, ReadyToPublish;
    var looks := [Load(0, a), Check(0), ReadHead(0)] + [Load(1, b), Check(1), ReadHead(1)];
    var v := Run(w, looks);
    BothRead(w, a, b);
    RunFrom(w, looks, [Write(0, s0), Write(1, s1)]);
    RunTwo(v, Write(0, s0), Write(1, s1));
    assert Overlapping(a, b, s0, s1) == looks + [Write(0, s0), Write(1, s1)];
    BothWrites(v, 0, 1, s0, s1);
  }

  /** Both calls have compared with the head. */
  lemma BothRead(w: World, a: string, b: string)
    requires w.calls == map[] && ReadyToPublish(w, a) && ReadyToPublish(w, b)
    ensures a in w.rows.at && b in w.rows.at && w.rows.at[a].id == a && w.rows.at[b].id == b
    ensures w.rows.at[a].base == w.rows.at[b].base == w.store.head
    ensures Run(w, [Load(0, a), Check(0), ReadHead(0)] + [Load(1, b), Check(1), ReadHead(1)])
         == w.(calls := map[0 := HeadRead(w.rows.at[a]), 1 := HeadRead(w.rows.at[b])])
  {
    hide Passes, Run, Apply;
    RunThree(w, Load(0, a), Check(0), ReadHead(0));
    UpToHeadRead(w, 0, a);
    var u := w.(calls := w.calls[0 := HeadRead(w.rows.at[a])]);
    RunThree(u, Load(1, b), Check(1), ReadHead(1));
    UpToHeadRead(u, 1, b);
    RunFrom(w, [Load(0, a), Check(0), ReadHead(0)], [Load(1, b), Check(1), ReadHead(1)]);
  }

  lemma BothWrites(v: World, m: nat, n: nat, s0: string, s1: string)
    requires Reads(v, m) && Reads(v, n) && m != n
    requires s0 !in v.store.snapshots && s1 !in v.store.snapshots && s0 != s1
    ensures var a, b := v.calls[m].cs, v.calls[n].cs;
      var t := Apply(Apply(v, Write(m, s0)), Write(n, s1));
      && t.publishedBy == v.publishedBy[s0 := a.id][s1 := b.id]
      && t.calls == v.calls[m := Written(a, s0)][n := Written(b, s1)]
      && t.rows == v.rows && t.store.order == v.store.order + [s0] + [s1]
      && s1 in t.store.snapshots && t.store.snapshots[s1].superseded == Some(s0)
  {
    hide Passes, ById;
  }

  /** A draft without nodes, on the empty store. */
  function EmptyDraft(id: string, clauses: seq<string>): ChangeSet {
    ChangeSet(id, None, clauses, "1.0.0", [], [], Draft, None, None)
  }

  lemma EmptyProposalPasses()
    ensures Passes([], [])
  {
    hide Passes;
    PassIffWellFormed([], []);
  }

  /** Validation and approval, each without anything in between. */
  function ApprovalSteps(id: string): seq<Step> {
    [BeginValidate(0, id), EndValidate(0)] + [BeginApprove(0, id), EndApprove(0)]
  }

  function Approval(id: string, clauses: seq<string>): seq<Step> {
    [CreateDraft(EmptyDraft(id, clauses))] + ApprovalSteps(id)
  }

  lemma WholeValidation(w: World, call: nat, id: string)
    requires RowsValid(w.rows) && id in w.rows.at && call !in w.calls
    ensures Run(w, [BeginValidate(call, id), EndValidate(call)]) == w.(rows := w.rows.Put(id, Validate(w.rows.at[id])))
  {
    hide Validate, Run;
    RunTwo(w, BeginValidate(call, id), EndValidate(call));
    var cs := w.rows.at[id];
    var begun := Apply(w, BeginValidate(call, id));
    assert begun == w.(calls := w.calls[call := Validating(cs)]);
    assert begun.calls - {call} == w.calls;
    ValidatedItself(cs);
  }

  lemma ValidatedItself(cs: ChangeSet)
    ensures ValidatedAs(cs, cs) == Validate(cs)
  {
  }

  lemma WholeApproval(w: World, call: nat, id: string)
    requires RowsValid(w.rows) && id in w.rows.at && call !in w.calls
    ensures Run(w, [BeginApprove(call, id), EndApprove(call)])
         == if w.rows.at[id].status == Validated then w.(rows := w.rows.Put(id, w.rows.at[id].(status := Approved)))
           else w
  {
    hide Run;
    RunTwo(w, BeginApprove(call, id), EndApprove(call));
    if w.rows.at[id].status == Validated {
      var begun := Apply(w, BeginApprove(call, id));
      assert begun == w.(calls := w.calls[call := Approving(w.rows.at[id])]);
      assert begun.calls - {call} == w.calls;
    }
  }

  lemma ApproveDraft(w: World, id: string, clauses: seq<string>)
    requires RowsValid(w.rows) && id !in w.rows.at && w.calls == map[]
    ensures var t := Run(w, Approval(id, clauses));
      && id in t.rows.at && SameProposal(t.rows.at[id], EmptyDraft(id, clauses)) && t.rows.at[id].status == Approved
      && t == w.(rows := t.rows) && RowsValid(t.rows)
      && t.rows.keys == w.rows.keys + [id] && t.rows.at == w.rows.at[id := t.rows.at[id]]
  {
    hide Run, SameProposal, Validate, RowsValid, Apply, EmptyDraft;
    var cs := EmptyDraft(id, clauses);
    EmptyDraftValidates(id, clauses);
    Created(w, id, clauses);
    RunSnoc(w, [], CreateDraft(cs));
    RunNothing(w);
    assert [] + [CreateDraft(cs)] == [CreateDraft(cs)];
    RunFrom(w, [CreateDraft(cs)], ApprovalSteps(id));
    var created := w.(rows := w.rows.Put(id, cs));
    PutNamed(w.rows, id, cs);
    RunFrom(created, [BeginValidate(0, id), EndValidate(0)], [BeginApprove(0, id), EndApprove(0)]);
    WholeValidation(created, 0, id);
    var validated := created.(rows := created.rows.Put(id, Validate(cs)));
    PutNamed(created.rows, id, Validate(cs));
    WholeApproval(validated, 0, id);
    PutNamed(validated.rows, id, Validate(cs).(status := Approved));
    SameWithStatus(Validate(cs), cs, Approved);
  }

  lemma RunNothing(w: World)
    ensures Run(w, []) == w
  {
  }

  lemma PutNamed(rows: Rows, id: string, row: ChangeSet)
    requires RowsValid(rows) && row.id == id
    ensures RowsValid(rows.Put(id, row)) && rows.Put(id, row).at == rows.at[id := row]
    ensures rows.Put(id, row).keys == if id in rows.at then rows.keys else rows.keys + [id]
  {
    PutRow(rows, row);
  }

  lemma Created(w: World, id: string, clauses: seq<string>)
    requires id !in w.rows.at
    ensures Apply(w, CreateDraft(EmptyDraft(id, clauses))) == w.(rows := w.rows.Put(id, EmptyDraft(id, clauses)))
    ensures EmptyDraft(id, clauses).id == id
  {
  }

  lemma SameWithStatus(a: ChangeSet, b: ChangeSet, status: Status)
    requires SameProposal(a, b)
    ensures SameProposal(a.(status := status), b) && a.id == b.id
  {
  }

  lemma EmptyDraftValidates(id: string, clauses: seq<string>)
    ensures Validate(EmptyDraft(id, clauses)).status == Validated
      && SameProposal(Validate(EmptyDraft(id, clauses)), EmptyDraft(id, clauses))
    ensures Validate(EmptyDraft(id, clauses)).id == id
  {
    EmptyProposalPasses();
  }

  function TwoDrafts(clauses: seq<string>): seq<Step> {
    Approval("a", clauses) + Approval("b", clauses)
  }

  /** The worlds where overlap does this are reached: two drafts on the same base,
      validated and approved. */
  lemma OverlapIsReachable(clauses: seq<string>)
    ensures var w := Run(INIT, TwoDrafts(clauses));
      && w.calls == map[] && w.store == EMPTY_STORE && w.publishedBy == map[] && RowsValid(w.rows)
      && ReadyToPublish(w, "a") && ReadyToPublish(w, "b") && w.rows.keys == ["a", "b"]
      && w.rows.at["a"].sourceClauses == clauses && w.rows.at["b"].sourceClauses == clauses
  {
    hide Passes, Run;
    assert "a"[0] != "b"[0];
    EmptyProposalPasses();
    ApproveDraft(INIT, "a", clauses);
    ApproveDraft(Run(INIT, Approval("a", clauses)), "b", clauses);
    RunFrom(INIT, Approval("a", clauses), Approval("b", clauses));
    assert INIT.rows.keys + ["a"] + ["b"] == ["a", "b"];
  }
}
