/** The change-set protocol. A publish call is a sequence of separate steps (load,
    check, read head, write, update status), a validation and an approval are a read
    and a write, so that calls can interleave with each other and stop between any
    two steps. */
module Publisher {
  import opened Common
  import opened PyDict
  import opened Constraints
  import opened GraphStore
  import opened Changesets

  /** How far a call has come, with the change set it loaded: four stages of a publish
      call, and a validation or an approval that has yet to write. */
  datatype Call =
    | Loaded(cs: ChangeSet)
    | Checked(cs: ChangeSet)
    | HeadRead(cs: ChangeSet)
    | Written(cs: ChangeSet, snapshot: string)
    | Validating(cs: ChangeSet)
    | Approving(cs: ChangeSet)

  /** `publishedBy` is a history variable: the change set behind each snapshot. */
  datatype World = World(store: Store, rows: Rows, calls: map<nat, Call>, publishedBy: map<string, string>)

  datatype Step =
    | CreateDraft(cs: ChangeSet)
    | BeginValidate(call: nat, id: string)
    | EndValidate(call: nat)
    | BeginApprove(call: nat, id: string)
    | EndApprove(call: nat)
    | Load(call: nat, id: string)
    | Check(call: nat)
    | ReadHead(call: nat)
    | Write(call: nat, newId: string)
    | UpdateStatus(call: nat)
    | Stop(call: nat)

  const INIT := World(EMPTY_STORE, Empty(), map[], map[])

  /** The row with the report, and the status that follows from the change set seen. */
  function ValidatedAs(row: ChangeSet, seen: ChangeSet): ChangeSet {
    row.(report := Validate(seen).report, status := Validate(seen).status)
  }

  /** One step. A step that is not enabled changes nothing; a call that raises, or
      stops, is gone. */
  function Apply(w: World, s: Step): World {
    match s
    case CreateDraft(cs) =>
      if cs.id in w.rows.at || cs.status != Draft || cs.publishedSnapshot != None then w
      else w.(rows := w.rows.Put(cs.id, cs))
    case BeginValidate(call, id) =>
      if call in w.calls || id !in w.rows.at then w
      else w.(calls := w.calls[call := Validating(w.rows.at[id])])
    case EndValidate(call) =>
      if call !in w.calls || !w.calls[call].Validating? || w.calls[call].cs.id !in w.rows.at then w
      else
        var cs := w.calls[call].cs;
        w.(rows := w.rows.Put(cs.id, ValidatedAs(w.rows.at[cs.id], cs)), calls := w.calls - {call})
    case BeginApprove(call, id) =>
      if call in w.calls || id !in w.rows.at || w.rows.at[id].status != Validated then w
      else w.(calls := w.calls[call := Approving(w.rows.at[id])])
    case EndApprove(call) =>
      if call !in w.calls || !w.calls[call].Approving? || w.calls[call].cs.id !in w.rows.at then w
      else
        var cs := w.calls[call].cs;
        w.(rows := w.rows.Put(cs.id, w.rows.at[cs.id].(status := Approved)), calls := w.calls - {call})
    case Load(call, id) =>
      if call in w.calls || id !in w.rows.at then w
      else w.(calls := w.calls[call := Loaded(w.rows.at[id])])
    case Check(call) =>
      if call !in w.calls || !w.calls[call].Loaded? then w
      else
        var cs := w.calls[call].cs;
        if cs.status == Approved && Passes(cs.nodes, cs.rels) then w.(calls := w.calls[call := Checked(cs)])
        else w.(calls := w.calls - {call})
    case ReadHead(call) =>
      if call !in w.calls || !w.calls[call].Checked? then w
      else
        var cs := w.calls[call].cs;
        if cs.base == w.store.head then w.(calls := w.calls[call := HeadRead(cs)])
        else w.(calls := w.calls - {call})
    case Write(call, newId) =>
      if call !in w.calls || !w.calls[call].HeadRead? || newId in w.store.snapshots then w
      else
        var cs := w.calls[call].cs;
        World(PublishTo(w.store, newId, cs.nodes, cs.rels, cs.ontologyVersion), w.rows,
              w.calls[call := Written(cs, newId)], w.publishedBy[newId := cs.id])
    case UpdateStatus(call) =>
      if call !in w.calls || !w.calls[call].Written? || w.calls[call].cs.id !in w.rows.at then w
      else
        var cs := w.calls[call].cs;
        var row := MarkPublished(w.rows.at[cs.id], w.calls[call].snapshot, ReportFor(cs.nodes, cs.rels, {}));
        w.(rows := w.rows.Put(cs.id, row), calls := w.calls - {call})
    case Stop(call) => w.(calls := w.calls - {call})
  }

  function Run(w: World, steps: seq<Step>): World {
    if steps == [] then w else Apply(Run(w, steps[..|steps| - 1]), steps[|steps| - 1])
  }

  // ---- Every interleaving ----

  /** The parts of a change set that no operation rewrites. */
  ghost predicate SameProposal(a: ChangeSet, b: ChangeSet) {
    a.id == b.id && a.base == b.base && a.nodes == b.nodes && a.rels == b.rels
    && a.sourceClauses == b.sourceClauses && a.ontologyVersion == b.ontologyVersion
  }

  ghost predicate StoreSound(w: World) {
    && Chained(w.store)
    && RowsValid(w.rows)
    && (forall k :: k in w.store.order <==> k in w.publishedBy)
    && (forall k :: k in w.publishedBy ==> w.publishedBy[k] in w.rows.at)
  }

  ghost predicate CallSound(w: World, c: Call) {
    && c.cs.id in w.rows.at
    && SameProposal(c.cs, w.rows.at[c.cs.id])
    && (c.Written? ==> c.snapshot in w.publishedBy && w.publishedBy[c.snapshot] == c.cs.id)
    && (c.Validating? && c.cs.status == Published ==> w.rows.at[c.cs.id].publishedSnapshot.Some?)
    && (c.Approving? ==> c.cs.status == Validated)
  }

  ghost predicate CallsSound(w: World) {
    forall n :: n in w.calls ==> CallSound(w, w.calls[n])
  }

  /** The snapshot that a row names was written for it, and a published row names
      one. */
  ghost predicate RowSound(w: World, row: ChangeSet) {
    && (row.status == Published ==> row.publishedSnapshot.Some?)
    && (row.publishedSnapshot.Some? ==>
          row.publishedSnapshot.value in w.publishedBy && w.publishedBy[row.publishedSnapshot.value] == row.id)
  }

  ghost predicate PublicationSound(w: World) {
    forall id :: id in w.rows.at ==> RowSound(w, w.rows.at[id])
  }

  ghost predicate Sound(w: World) {
    StoreSound(w) && CallsSound(w) && PublicationSound(w)
  }

  /** The later row has the same proposal, and names a snapshot if the earlier did. */
  ghost predicate RowKeeps(a: ChangeSet, b: ChangeSet) {
    SameProposal(a, b) && (a.publishedSnapshot.Some? ==> b.publishedSnapshot.Some?)
  }

  /** `t` keeps every row's proposal and every snapshot of `w`. */
  ghost predicate Keeps(w: World, t: World) {
    && Extends(w.store, t.store)
    && (forall id :: id in w.rows.at ==> id in t.rows.at && RowKeeps(w.rows.at[id], t.rows.at[id]))
    && (forall k :: k in w.publishedBy ==> k in t.publishedBy && t.publishedBy[k] == w.publishedBy[k])
  }

  lemma PutRow(rows: Rows, row: ChangeSet)
    requires RowsValid(rows)
    ensures RowsValid(rows.Put(row.id, row)) && rows.Put(row.id, row).at == rows.at[row.id := row]
  {
  }

  lemma SoundAfter(w: World, t: World)
    requires Sound(w) && StoreSound(t) && Keeps(w, t)
    requires forall n :: n in t.calls ==> (n in w.calls && t.calls[n] == w.calls[n]) || CallSound(t, t.calls[n])
    requires forall id :: id in t.rows.at ==>
      (id in w.rows.at && t.rows.at[id] == w.rows.at[id]) || RowSound(t, t.rows.at[id])
    ensures Sound(t)
  {
    forall n | n in t.calls ensures CallSound(t, t.calls[n]) {
      if n in w.calls && t.calls[n] == w.calls[n] {
        assert CallSound(w, w.calls[n]);
        assert RowKeeps(w.rows.at[w.calls[n].cs.id], t.rows.at[w.calls[n].cs.id]);
      }
    }
    forall id | id in t.rows.at ensures RowSound(t, t.rows.at[id]) {
      if id in w.rows.at && t.rows.at[id] == w.rows.at[id] {
        assert RowSound(w, w.rows.at[id]);
      }
    }
  }

  lemma PutKeeps(w: World, row: ChangeSet)
    requires Sound(w) && RowSound(w, row)
    requires row.id in w.rows.at ==> RowKeeps(w.rows.at[row.id], row)
    ensures var t := w.(rows := w.rows.Put(row.id, row)); Sound(t) && Keeps(w, t)
  {
    hide Chained, Extends, CallsSound, PublicationSound;
    var t := w.(rows := w.rows.Put(row.id, row));
    PutRow(w.rows, row);
    ExtendsReflexive(w.store);
    assert StoreSound(t);
    assert Keeps(w, t);
    SoundAfter(w, t);
  }

  lemma SetCallKeeps(w: World, n: nat, c: Call)
    requires Sound(w) && CallSound(w, c)
    ensures var t := w.(calls := w.calls[n := c]); Sound(t) && Keeps(w, t)
  {
    var t := w.(calls := w.calls[n := c]);
    forall m | m in t.calls ensures CallSound(t, t.calls[m]) {
      assert m != n ==> CallSound(w, w.calls[m]);
    }
  }

  lemma DropCallKeeps(w: World, n: nat)
    requires Sound(w)
    ensures var t := w.(calls := w.calls - {n}); Sound(t) && Keeps(w, t)
  {
    var t := w.(calls := w.calls - {n});
    forall m | m in t.calls ensures CallSound(t, t.calls[m]) {
      assert CallSound(w, w.calls[m]);
    }
  }

  lemma WriteKeeps(w: World, call: nat, newId: string)
    requires Sound(w)
    requires call in w.calls && newId !in w.store.snapshots
    ensures var cs := w.calls[call].cs;
            var t := World(PublishTo(w.store, newId, cs.nodes, cs.rels, cs.ontologyVersion), w.rows,
                           w.calls[call := Written(cs, newId)], w.publishedBy[newId := cs.id]);
            Sound(t) && Keeps(w, t)
  {
    hide Chained, Extends, PublishTo, RowsValid, CallsSound, PublicationSound;
    var cs := w.calls[call].cs;
    var store := PublishTo(w.store, newId, cs.nodes, cs.rels, cs.ontologyVersion);
    var t := World(store, w.rows, w.calls[call := Written(cs, newId)], w.publishedBy[newId := cs.id]);
    CallFits(w, call);
    PublishKeepsChain(w.store, newId, cs.nodes, cs.rels, cs.ontologyVersion);
    OrderGrows(w.store, newId, cs);
    assert StoreSound(t);
    assert Keeps(w, t);
    assert CallSound(t, t.calls[call]);
    SoundAfter(w, t);
  }

  lemma SoundRows(w: World)
    requires Sound(w)
    ensures RowsValid(w.rows)
  {
  }

  lemma CallFits(w: World, call: nat)
    requires Sound(w) && call in w.calls
    ensures CallSound(w, w.calls[call])
  {
  }

  lemma OrderGrows(s: Store, newId: string, cs: ChangeSet)
    requires Chained(s) && newId !in s.snapshots
    ensures forall k :: k in PublishTo(s, newId, cs.nodes, cs.rels, cs.ontologyVersion).order <==>
      k in s.order || k == newId
    ensures newId !in s.order
  {
  }

  /** A call that ends by writing its row. */
  lemma EndKeeps(w: World, call: nat, row: ChangeSet)
    requires Sound(w) && call in w.calls && RowSound(w, row)
    requires row.id in w.rows.at && RowKeeps(w.rows.at[row.id], row)
    ensures var t := w.(rows := w.rows.Put(row.id, row), calls := w.calls - {call}); Sound(t) && Keeps(w, t)
  {
    hide Sound, Keeps, RowSound, RowKeeps;
    var u := w.(rows := w.rows.Put(row.id, row));
    PutKeeps(w, row);
    DropCallKeeps(u, call);
    KeepsTransitive(w, u, u.(calls := u.calls - {call}));
  }

  lemma UpdateKeeps(w: World, call: nat)
    requires Sound(w)
    ensures var t := Apply(w, UpdateStatus(call)); Sound(t) && Keeps(w, t)
  {
    hide Sound, Keeps;
    KeepsReflexive(w);
    if call in w.calls && w.calls[call].Written? {
      var cs := w.calls[call].cs;
      CallFits(w, call);
      RowOf(w, cs.id);
      EndKeeps(w, call, MarkPublished(w.rows.at[cs.id], w.calls[call].snapshot, ReportFor(cs.nodes, cs.rels, {})));
    }
  }

  lemma KeepsReflexive(w: World)
    requires Sound(w)
    ensures Keeps(w, w)
  {
    ExtendsReflexive(w.store);
  }

  lemma RowOf(w: World, id: string)
    requires Sound(w) && id in w.rows.at
    ensures RowSound(w, w.rows.at[id]) && w.rows.at[id].id == id
  {
  }

  lemma DraftKeeps(w: World, s: Step)
    requires Sound(w) && s.CreateDraft?
    ensures Sound(Apply(w, s)) && Keeps(w, Apply(w, s))
  {
    hide Sound, Keeps;
    KeepsReflexive(w);
    if s.cs.id !in w.rows.at && s.cs.status == Draft && s.cs.publishedSnapshot == None {
      PutKeeps(w, s.cs);
    }
  }

  lemma EndStepKeeps(w: World, s: Step)
    requires Sound(w) && (s.EndValidate? || s.EndApprove?)
    ensures Sound(Apply(w, s)) && Keeps(w, Apply(w, s))
  {
    hide Sound, Keeps, Validate;
    KeepsReflexive(w);
    if s.call in w.calls {
      var cs := w.calls[s.call].cs;
      CallFits(w, s.call);
      RowOf(w, cs.id);
      ValidateKeepsPublication(cs);
      if s.EndValidate? && w.calls[s.call].Validating? {
        EndKeeps(w, s.call, ValidatedAs(w.rows.at[cs.id], cs));
      } else if s.EndApprove? && w.calls[s.call].Approving? {
        EndKeeps(w, s.call, w.rows.at[cs.id].(status := Approved));
      }
    }
  }

  lemma ValidateKeepsPublication(cs: ChangeSet)
    ensures Validate(cs).status == Published ==> cs.status == Published
  {
  }

  lemma CallStepKeeps(w: World, s: Step)
    requires Sound(w)
    requires s.Load? || s.Check? || s.ReadHead? || s.Stop? || s.BeginValidate? || s.BeginApprove?
    ensures Sound(Apply(w, s)) && Keeps(w, Apply(w, s))
  {
    hide Sound, Keeps;
    KeepsReflexive(w);
    DropCallKeeps(w, s.call);
    if s.Load? || s.BeginValidate? || s.BeginApprove? {
      if s.id in w.rows.at && s.call !in w.calls {
        RowOf(w, s.id);
        BeginKeeps(w, s);
      }
    } else if s.call in w.calls {
      CallFits(w, s.call);
      SetCallKeeps(w, s.call, if s.Check? then Checked(w.calls[s.call].cs) else HeadRead(w.calls[s.call].cs));
    }
  }

  lemma BeginKeeps(w: World, s: Step)
    requires Sound(w) && (s.Load? || s.BeginValidate? || s.BeginApprove?) && s.id in w.rows.at && s.call !in w.calls
    requires RowSound(w, w.rows.at[s.id]) && w.rows.at[s.id].id == s.id
    ensures Sound(Apply(w, s)) && Keeps(w, Apply(w, s))
  {
    hide Sound, Keeps;
    KeepsReflexive(w);
    var cs := w.rows.at[s.id];
    if s.Load? {
      SetCallKeeps(w, s.call, Loaded(cs));
    } else if s.BeginValidate? {
      SetCallKeeps(w, s.call, Validating(cs));
    } else if cs.status == Validated {
      SetCallKeeps(w, s.call, Approving(cs));
    }
  }

  lemma StepKeeps(w: World, s: Step)
    requires Sound(w)
    ensures Sound(Apply(w, s)) && Keeps(w, Apply(w, s))
  {
    hide Sound, Keeps;
    KeepsReflexive(w);
    if s.Write? {
      if s.call in w.calls && s.newId !in w.store.snapshots {
        WriteKeeps(w, s.call, s.newId);
      }
    } else if s.UpdateStatus? {
      UpdateKeeps(w, s.call);
    } else if s.CreateDraft? {
      DraftKeeps(w, s);
    } else if s.EndValidate? || s.EndApprove? {
      EndStepKeeps(w, s);
    } else {
      CallStepKeeps(w, s);
    }
  }

  lemma KeepsTransitive(a: World, b: World, c: World)
    requires Keeps(a, b) && Keeps(b, c)
    ensures Keeps(a, c)
  {
    ExtendsTransitive(a.store, b.store, c.store);
  }

  lemma {:induction false} RunKeeps(w: World, steps: seq<Step>)
    requires Sound(w)
    ensures Sound(Run(w, steps)) && Keeps(w, Run(w, steps))
  {
    if steps != [] {
      var before := Run(w, steps[..|steps| - 1]);
      RunKeeps(w, steps[..|steps| - 1]);
      StepKeeps(before, steps[|steps| - 1]);
      KeepsTransitive(w, before, Run(w, steps));
    }
  }

  lemma {:induction false} RunFrom(w: World, first: seq<Step>, rest: seq<Step>)
    ensures Run(w, first + rest) == Run(Run(w, first), rest)
  {
    if rest == [] {
      assert first + rest == first;
    } else {
      var n := |rest| - 1;
      assert (first + rest)[..|first + rest| - 1] == first + rest[..n];
      RunFrom(w, first, rest[..n]);
    }
  }

  /** Whatever the interleaving and wherever calls stop: at every moment the
      snapshots form one chain that ends at the head, and everything published by
      then is still there, unchanged, at the end. */
  lemma LineageUnderInterleaving(first: seq<Step>, rest: seq<Step>)
    ensures Chained(Run(INIT, first).store)
    ensures Chained(Run(INIT, first + rest).store)
    ensures Extends(Run(INIT, first).store, Run(INIT, first + rest).store)
  {
    assert Sound(INIT);
    RunKeeps(INIT, first);
    RunKeeps(Run(INIT, first), rest);
    RunFrom(INIT, first, rest);
  }
}
