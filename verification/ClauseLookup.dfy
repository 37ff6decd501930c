/** When the change set found for a clause is the most recently published one. */
module ClauseLookup {
  import opened Common
  import opened Constraints
  import opened GraphStore
  import opened Changesets
  import opened Export
  import opened Publisher
  import opened PublishRuns

  predicate Carries(cs: ChangeSet, clause: string) {
    cs.status.Published? && clause in cs.sourceClauses
  }

  ghost predicate Carrier(w: World, clause: string, id: string) {
    id in w.rows.at && Carries(w.rows.at[id], clause)
  }

  /** `a` comes before `b` in a list. */
  ghost predicate Before(s: seq<string>, a: string, b: string) {
    exists i, j :: 0 <= i < j < |s| && s[i] == a && s[j] == b
  }

  /** The snapshot of row `a` comes before that of row `b`. */
  ghost predicate PublishedBefore(w: World, a: string, b: string) {
    && a in w.rows.at && b in w.rows.at && w.rows.at[a].publishedSnapshot.Some? && w.rows.at[b].publishedSnapshot.Some?
    && Before(w.store.order, w.rows.at[a].publishedSnapshot.value, w.rows.at[b].publishedSnapshot.value)
  }

  /** No other published change set with the clause was published later. */
  ghost predicate MostRecent(w: World, clause: string, id: string) {
    Carrier(w, clause, id) && forall x :: Carrier(w, clause, x) && x != id ==> PublishedBefore(w, x, id)
  }

  // ---- What is found ----

  /** The row found is the last carrier in table order; none is found only when
      there is none. */
  lemma FoundIsLast(w: World, clause: string)
    requires RowsValid(w.rows)
    ensures match FindPublishedByClause(w.rows, clause)
      case None => forall id :: !Carrier(w, clause, id)
      case Some(cs) =>
        && Carrier(w, clause, cs.id) && w.rows.at[cs.id] == cs
        && forall x :: Carrier(w, clause, x) && x != cs.id ==> Before(w.rows.keys, x, cs.id)
  {
    hide FindPublishedByClause, CarriesAt, Before;
    var i := FoundAt(w.rows, clause);
    forall x | Carrier(w, clause, x)
      ensures exists j :: 0 <= j < |w.rows.keys| && CarriesAt(w.rows, clause, j)
    {
      var j := CarrierRow(w, clause, x);
    }
    if FindPublishedByClause(w.rows, clause).Some? {
      RowAt(w, clause, i);
      forall x | Carrier(w, clause, x) && x != w.rows.keys[i] ensures Before(w.rows.keys, x, w.rows.keys[i]) {
        var j := CarrierRow(w, clause, x);
        InOrder(w.rows.keys, j, i);
      }
    }
  }

  lemma InOrder(s: seq<string>, i: nat, j: nat)
    requires i < j < |s|
    ensures Before(s, s[i], s[j])
  {
  }

  lemma CarrierRow(w: World, clause: string, x: string) returns (j: nat)
    requires RowsValid(w.rows) && Carrier(w, clause, x)
    ensures j < |w.rows.keys| && w.rows.keys[j] == x && CarriesAt(w.rows, clause, j)
  {
    assert x in w.rows.keys;
    j :| 0 <= j < |w.rows.keys| && w.rows.keys[j] == x;
  }

  lemma RowAt(w: World, clause: string, i: int)
    requires RowsValid(w.rows) && CarriesAt(w.rows, clause, i)
    ensures 0 <= i < |w.rows.keys| && Carrier(w, clause, w.rows.keys[i])
      && w.rows.at[w.rows.keys[i]].id == w.rows.keys[i]
  {
  }

  // ---- Snapshots of published rows ----

  /** Published rows have snapshots of their own. */
  lemma PublishedRow(w: World, id: string) returns (k: string)
    requires Sound(w) && id in w.rows.at && w.rows.at[id].status == Published
    ensures w.rows.at[id].publishedSnapshot == Some(k) && k in w.publishedBy && w.publishedBy[k] == id
      && k in w.store.order
  {
    assert RowSound(w, w.rows.at[id]);
    k := w.rows.at[id].publishedSnapshot.value;
  }

  lemma OneWay(s: seq<string>, a: string, b: string)
    requires Distinct(s) && a in s && b in s && a != b
    ensures Before(s, a, b) <==> !Before(s, b, a)
  {
    var i :| 0 <= i < |s| && s[i] == a;
    var j :| 0 <= j < |s| && s[j] == b;
    assert forall m :: 0 <= m < |s| && s[m] == a ==> m == i;
    assert forall m :: 0 <= m < |s| && s[m] == b ==> m == j;
  }

  /** Two published rows: exactly one was published before the other. */
  lemma PublishedOneWay(w: World, a: string, b: string)
    requires Sound(w) && a in w.rows.at && b in w.rows.at && a != b
    requires w.rows.at[a].status == Published && w.rows.at[b].status == Published
    ensures PublishedBefore(w, a, b) <==> !PublishedBefore(w, b, a)
  {
    hide Before;
    var j := PublishedRow(w, a);
    var k := PublishedRow(w, b);
    OneWay(w.store.order, j, k);
  }

  /** The carrier comes after every other one, both in the table and in the store. */
  ghost predicate LastInBoth(w: World, clause: string, x: string) {
    Carrier(w, clause, x) && forall y :: Carrier(w, clause, y) && y != x ==>
      Before(w.rows.keys, y, x) && PublishedBefore(w, y, x)
  }

  /** In any interleaving, the change set found for a clause is the most recently
      published one if and only if one carrier was both created and published last. */
  lemma FoundIsMostRecentIff(steps: seq<Step>, clause: string)
    ensures RowsValid(Run(INIT, steps).rows)
    ensures var w := Run(INIT, steps); var found := FindPublishedByClause(w.rows, clause);
      found.Some? && MostRecent(w, clause, found.value.id) <==> exists x :: LastInBoth(w, clause, x)
  {
    hide Run, Before, PublishedBefore, FindPublishedByClause, Sound;
    var w := Run(INIT, steps);
    RunPlaced(steps);
    SoundRows(w);
    FoundIsLast(w, clause);
    KeysDistinct(w);
    var found := FindPublishedByClause(w.rows, clause);
    if found.Some? && MostRecent(w, clause, found.value.id) {
      assert LastInBoth(w, clause, found.value.id);
    }
    if x :| LastInBoth(w, clause, x) {
      LastIsFound(w, clause, x, found.value.id);
    }
  }

  /** Only one carrier comes last in the table. */
  lemma LastIsFound(w: World, clause: string, x: string, id: string)
    requires RowsValid(w.rows) && LastInBoth(w, clause, x) && Carrier(w, clause, id)
    requires x != id ==> Before(w.rows.keys, x, id)
    ensures x == id
  {
    hide PublishedBefore, Before;
    if x != id {
      OneWay(w.rows.keys, x, id);
    }
  }

  lemma KeysDistinct(w: World)
    requires RowsValid(w.rows)
    ensures Distinct(w.rows.keys)
  {
  }

  // ---- A run where it is not ----

  /** Two change sets for the same clause; the second one created is published
      first, because both calls compared with the head before either wrote. */
  function OutOfOrder(clause: string): seq<Step> {
    TwoDrafts([clause]) + Overlapping("b", "a", "s0", "s1") + [UpdateStatus(0), UpdateStatus(1)]
  }

  lemma LookupMissesLatest(clause: string)
    ensures var w := Run(INIT, OutOfOrder(clause));
      && RowsValid(w.rows) && Carrier(w, clause, "a") && Carrier(w, clause, "b") && PublishedBefore(w, "b", "a")
      && FindPublishedByClause(w.rows, clause) == Some(w.rows.at["b"]) && !MostRecent(w, clause, "b")
  {
    hide Run, FindPublishedByClause, Passes, ReportFor;
    assert "a"[0] != "b"[0] && "s0"[1] != "s1"[1];
    OverlapIsReachable([clause]);
    var w := Run(INIT, TwoDrafts([clause]));
    OverlapWritesBoth(w, "b", "a", "s0", "s1");
    var t := Run(w, Overlapping("b", "a", "s0", "s1"));
    RunTwo(t, UpdateStatus(0), UpdateStatus(1));
    RunFrom(INIT, TwoDrafts([clause]), Overlapping("b", "a", "s0", "s1"));
    RunFrom(INIT, TwoDrafts([clause]) + Overlapping("b", "a", "s0", "s1"), [UpdateStatus(0), UpdateStatus(1)]);
    BothUpdated(t, clause);
    var v := Run(INIT, OutOfOrder(clause));
    FoundIsLast(v, clause);
    PublishedInTurn(v);
    RunPlaced(OutOfOrder(clause));
    PublishedOneWay(v, "a", "b");
    assert Carrier(v, clause, "a") && Carrier(v, clause, "b");
    AfterB();
  }

  lemma AfterB()
    ensures !Before(["a", "b"], "b", "a")
  {
    assert "a"[0] != "b"[0];
  }

  lemma PublishedInTurn(v: World)
    requires v.store.order == ["s0", "s1"] && "a" in v.rows.at && "b" in v.rows.at
    requires v.rows.at["a"].publishedSnapshot == Some("s1") && v.rows.at["b"].publishedSnapshot == Some("s0")
    ensures PublishedBefore(v, "b", "a")
  {
    assert v.store.order[0] == "s0" && v.store.order[1] == "s1";
  }

  lemma BothUpdated(t: World, clause: string)
    requires t.rows.keys == ["a", "b"] && RowsValid(t.rows) && t.store.order == [] + ["s0"] + ["s1"]
    requires "a" in t.rows.at && "b" in t.rows.at
      && t.rows.at["a"].sourceClauses == [clause] == t.rows.at["b"].sourceClauses
    requires t.calls == map[0 := Written(t.rows.at["b"], "s0"), 1 := Written(t.rows.at["a"], "s1")]
    ensures var v := Apply(Apply(t, UpdateStatus(0)), UpdateStatus(1));
      && v.rows.keys == ["a", "b"] && RowsValid(v.rows) && v.store.order == ["s0", "s1"]
      && Carrier(v, clause, "a") && Carrier(v, clause, "b")
      && v.rows.at["a"].publishedSnapshot == Some("s1") && v.rows.at["b"].publishedSnapshot == Some("s0")
  {
    hide ReportFor, Passes;
    assert "a"[0] != "b"[0];
    var first := MarkPublished(t.rows.at["b"], "s0", ReportFor(t.rows.at["b"].nodes, t.rows.at["b"].rels, {}));
    PutRow(t.rows, first);
    var u := Apply(t, UpdateStatus(0));
    assert u.rows == t.rows.Put("b", first) && 1 in u.calls && u.calls[1] == Written(t.rows.at["a"], "s1");
    var second := MarkPublished(u.rows.at["a"], "s1", ReportFor(t.rows.at["a"].nodes, t.rows.at["a"].rels, {}));
    PutRow(u.rows, second);
    assert Apply(u, UpdateStatus(1)).rows == u.rows.Put("a", second);
  }

  // ---- Runs where it always is ----

  /** A draft is based on nothing or on a snapshot that exists when it is created. */
  predicate Grounded(w: World, s: Step) {
    s.CreateDraft? && s.cs.base.Some? ==> s.cs.base.value in w.store.snapshots
  }

  ghost predicate AllGrounded(steps: seq<Step>) {
    forall i :: 0 <= i < |steps| ==> Grounded(Run(INIT, steps[..i]), steps[i])
  }

  /** Rows are based on the chain; a row created before one that has a snapshot has
      its base passed by; and snapshots come in the order of creation. */
  ghost predicate InTurn(w: World) {
    && (forall id :: id in w.rows.at ==> OnChain(w.store.order, w.rows.at[id].base))
    && (forall a, b :: Before(w.rows.keys, a, b) && HasSnapshot(w, b) ==>
      a in w.rows.at && Passed(w.store.order, w.rows.at[a].base))
    && (forall j, k :: j in w.publishedBy && k in w.publishedBy && Before(w.rows.keys, w.publishedBy[j], w.publishedBy[k]) ==>
          Before(w.store.order, j, k))
  }

  lemma BeforeAppend(s: seq<string>, x: string, a: string, b: string)
    ensures Before(s + [x], a, b) <==> Before(s, a, b) || (b == x && a in s)
  {
    var t := s + [x];
    if Before(t, a, b) {
      var i, j :| 0 <= i < j < |t| && t[i] == a && t[j] == b;
      if j < |s| { assert s[i] == a && s[j] == b; } else { assert s[i] == a; }
    }
    if Before(s, a, b) {
      var i, j :| 0 <= i < j < |s| && s[i] == a && s[j] == b;
      assert t[i] == a && t[j] == b;
    }
    if b == x && a in s {
      var i :| 0 <= i < |s| && s[i] == a;
      assert t[i] == a && t[|s|] == b;
    }
  }

  lemma SnapshotOnChain(s: Store, base: Option<string>)
    requires Chained(s) && (base.Some? ==> base.value in s.snapshots)
    ensures OnChain(s.order, base)
  {
    if base.None? {
      assert BaseAt(s.order, base, 0);
    } else {
      assert base.value in s.order;
      var i :| 0 <= i < |s.order| && s.order[i] == base.value;
      assert BaseAt(s.order, base, i + 1);
    }
  }

  lemma RowKept(w: World, t: World, id: string)
    requires Keeps(w, t) && id in w.rows.at
    ensures id in t.rows.at && t.rows.at[id].base == w.rows.at[id].base
  {
    assert RowKeeps(w.rows.at[id], t.rows.at[id]);
  }

  lemma ValidKeys(w: World)
    requires Sound(w)
    ensures Chained(w.store) && Distinct(w.rows.keys) && (forall id :: id in w.rows.keys <==> id in w.rows.at)
    ensures forall k :: k in w.publishedBy <==> k in w.store.order
    ensures forall k :: k in w.publishedBy ==> w.publishedBy[k] in w.rows.at
  {
  }

  /** A step that writes nothing and adds no row. */
  lemma QuietInTurn(w: World, t: World)
    requires Sound(w) && InTurn(w) && Keeps(w, t)
    requires t.rows.keys == w.rows.keys && t.rows.at.Keys == w.rows.at.Keys && t.store == w.store
      && t.publishedBy == w.publishedBy
    ensures InTurn(t)
  {
    hide OnChain, Passed, Before, Sound, Keeps;
    forall id | id in t.rows.at ensures t.rows.at[id].base == w.rows.at[id].base {
      RowKept(w, t, id);
    }
    forall id ensures HasSnapshot(t, id) <==> HasSnapshot(w, id) {
    }
  }

  lemma DraftInTurn(w: World, cs: ChangeSet)
    requires Sound(w) && InTurn(w) && cs.id !in w.rows.at && Grounded(w, CreateDraft(cs))
    ensures InTurn(w.(rows := w.rows.Put(cs.id, cs)))
  {
    hide OnChain, Passed, Before, Sound;
    var t := w.(rows := w.rows.Put(cs.id, cs));
    ValidKeys(w);
    SnapshotOnChain(w.store, cs.base);
    forall a, b ensures Before(t.rows.keys, a, b) <==> Before(w.rows.keys, a, b) || (b == cs.id && a in w.rows.keys) {
      BeforeAppend(w.rows.keys, cs.id, a, b);
    }
    forall id ensures HasSnapshot(t, id) <==> HasSnapshot(w, id) {
    }
    assert !HasSnapshot(w, cs.id);
    forall a, b | Before(t.rows.keys, a, b) && HasSnapshot(t, b)
      ensures a in t.rows.at && Passed(t.store.order, t.rows.at[a].base)
    {
      assert Before(w.rows.keys, a, b) && a in w.rows.at;
    }
    forall j, k | j in t.publishedBy && k in t.publishedBy && Before(t.rows.keys, t.publishedBy[j], t.publishedBy[k])
      ensures Before(t.store.order, j, k)
    {
      assert HasSnapshot(w, w.publishedBy[k]);
    }
  }

  lemma WriteInTurn(w: World, s: Step)
    requires Sound(w) && InTurn(w) && WriteEnabled(w, s) && !StaleWrite(w, s)
    ensures InTurn(Apply(w, s))
  {
    hide OnChain, Passed, Before, Sound, Apply, HasSnapshot;
    var t, id := Apply(w, s), w.calls[s.call].cs.id;
    ValidKeys(w);
    WriteEffect(w, s);
    forall x | x in t.rows.at
      ensures OnChain(t.store.order, t.rows.at[x].base) && Passed(t.store.order, t.rows.at[x].base)
    {
      PlacesStay(w.store.order, t.store.order, w.rows.at[x].base);
    }
    forall a, b | Before(t.rows.keys, a, b) ensures a in t.rows.at {
      BeforeMembers(t.rows.keys, a, b);
    }
    forall j, k | j in t.publishedBy && k in t.publishedBy && Before(t.rows.keys, t.publishedBy[j], t.publishedBy[k])
      ensures Before(t.store.order, j, k)
    {
      WrittenInTurn(w, s, j, k);
    }
  }

  lemma BeforeMembers(s: seq<string>, a: string, b: string)
    requires Before(s, a, b)
    ensures a in s && b in s && (Distinct(s) ==> a != b)
  {
  }

  /** The row just written was not created before one that has a snapshot: else its
      base would have been passed. */
  lemma WrittenInTurn(w: World, s: Step, j: string, k: string)
    requires Sound(w) && InTurn(w) && WriteEnabled(w, s) && !StaleWrite(w, s)
    requires var t := Apply(w, s);
      j in t.publishedBy && k in t.publishedBy && Before(t.rows.keys, t.publishedBy[j], t.publishedBy[k])
    ensures Before(Apply(w, s).store.order, j, k)
  {
    hide OnChain, Passed, Before, Sound, Apply;
    var t, id := Apply(w, s), w.calls[s.call].cs.id;
    ValidKeys(w);
    WriteEffect(w, s);
    BeforeMembers(t.rows.keys, t.publishedBy[j], t.publishedBy[k]);
    BeforeAppend(w.store.order, s.newId, j, k);
    if j == s.newId {
      assert k in w.publishedBy && HasSnapshot(w, w.publishedBy[k]);
      PassedIsNotHead(w.store, w.rows.at[id].base);
      assert false;
    }
  }

  lemma StepInTurn(w: World, s: Step)
    requires Sound(w) && InTurn(w) && Grounded(w, s) && !StaleWrite(w, s)
    ensures InTurn(Apply(w, s))
  {
    hide InTurn, Sound, Keeps, Passes, ReportFor, Validate, RowsValid, Grounded, StaleWrite;
    StepKeeps(w, s);
    if WriteEnabled(w, s) {
      WriteInTurn(w, s);
    } else if s.CreateDraft? && Apply(w, s) != w {
      DraftInTurn(w, s.cs);
    } else {
      ValidKeys(w);
      NoNewKeys(w, s);
      QuietInTurn(w, Apply(w, s));
    }
  }

  lemma PutSameKeys(rows: Rows, id: string, cs: ChangeSet)
    requires id in rows.at
    ensures rows.Put(id, cs).keys == rows.keys && rows.Put(id, cs).at.Keys == rows.at.Keys
  {
  }

  lemma NoNewKeys(w: World, s: Step)
    requires !WriteEnabled(w, s) && (s.CreateDraft? ==> Apply(w, s) == w)
    ensures var t := Apply(w, s);
      t.rows.keys == w.rows.keys && t.rows.at.Keys == w.rows.at.Keys && t.store == w.store
        && t.publishedBy == w.publishedBy
  {
    hide Passes, ReportFor, Validate, MarkPublished;
    if (s.EndValidate? || s.EndApprove? || s.UpdateStatus?) && s.call in w.calls && w.calls[s.call].cs.id in w.rows.at {
      var c := w.calls[s.call];
      var row := w.rows.at[c.cs.id];
      if s.EndValidate? {
        PutSameKeys(w.rows, c.cs.id, ValidatedAs(row, c.cs));
      } else if s.EndApprove? {
        PutSameKeys(w.rows, c.cs.id, row.(status := Approved));
      } else if c.Written? {
        PutSameKeys(w.rows, c.cs.id, MarkPublished(row, c.snapshot, ReportFor(c.cs.nodes, c.cs.rels, {})));
      }
    }
  }

  lemma {:induction false} RunInTurn(steps: seq<Step>)
    requires AllGrounded(steps) && NeverStale(steps)
    ensures InTurn(Run(INIT, steps))
  {
    hide Apply, InTurn, Sound, StaleWrite, Grounded;
    if steps == [] {
      NothingInTurn();
    } else {
      var n := |steps| - 1;
      assert forall i :: 0 <= i < n ==> steps[..n][..i] == steps[..i] && steps[..n][i] == steps[i];
      RunPlaced(steps[..n]);
      RunInTurn(steps[..n]);
      StepInTurn(Run(INIT, steps[..n]), steps[n]);
    }
  }

  lemma NothingInTurn()
    ensures InTurn(INIT)
  {
  }

  /** When drafts are based on what exists and no write finds a moved head, change
      sets are published in the order they were created, so the one found for a
      clause is the most recently published. */
  lemma FoundIsMostRecent(steps: seq<Step>, clause: string)
    requires AllGrounded(steps) && NeverStale(steps)
    ensures RowsValid(Run(INIT, steps).rows)
    ensures var w := Run(INIT, steps);
      match FindPublishedByClause(w.rows, clause)
      case None => forall id :: !Carrier(w, clause, id)
      case Some(cs) => MostRecent(w, clause, cs.id)
  {
    hide Run, Before, FindPublishedByClause, OnChain, Passed, HasSnapshot, Sound, AllGrounded, NeverStale;
    var w := Run(INIT, steps);
    RunPlaced(steps);
    ValidKeys(w);
    SoundRows(w);
    RunInTurn(steps);
    FoundIsLast(w, clause);
    var found := FindPublishedByClause(w.rows, clause);
    if found.Some? {
      var id := found.value.id;
      var k := PublishedRow(w, id);
      forall x | Carrier(w, clause, x) && x != id ensures PublishedBefore(w, x, id) {
        var j := PublishedRow(w, x);
      }
    }
  }
}
