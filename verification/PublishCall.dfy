/** One whole publish call on the repository and the store, and its agreement with
    the separate steps of the protocol. */
module PublishCall {
  import opened Common
  import opened Graph
  import opened Constraints
  import opened GraphStore
  import opened Changesets
  import opened Publisher
  import opened PublishRuns

  function CallSteps(id: string, newId: string): seq<Step> {
    [Load(0, id), Check(0), ReadHead(0), Write(0, newId), UpdateStatus(0)]
  }

  /** A world with nothing under way. */
  function Idle(store: Store, rows: Rows): World {
    World(store, rows, map[], map[])
  }

  lemma RunFive(w: World, id: string, newId: string)
    ensures Run(w, CallSteps(id, newId))
         == Apply(Apply(Apply(Apply(Apply(w, Load(0, id)), Check(0)), ReadHead(0)), Write(0, newId)), UpdateStatus(0))
  {
    hide Apply;
    var three := [Load(0, id), Check(0), ReadHead(0)];
    RunThree(w, Load(0, id), Check(0), ReadHead(0));
    RunSnoc(w, three, Write(0, newId));
    RunSnoc(w, three + [Write(0, newId)], UpdateStatus(0));
    assert CallSteps(id, newId) == three + [Write(0, newId)] + [UpdateStatus(0)];
  }

  /** Steps of a call that is not there change nothing. */
  lemma NoCallNoChange(w: World, newId: string)
    requires 0 !in w.calls
    ensures Apply(w, Check(0)) == w && Apply(w, ReadHead(0)) == w && Apply(w, Write(0, newId)) == w
      && Apply(w, UpdateStatus(0)) == w
  {
  }

  /** The row names the snapshot, is published with a passing report, and has kept the
      rest. */
  ghost predicate IsMarked(before: ChangeSet, snapshot: string, after: ChangeSet) {
    && SameProposal(before, after) && after.status == Published && after.publishedSnapshot == Some(snapshot)
    && after.report.Some? && after.report.value.pass
  }

  /** One row is marked, every other row and the order of the rows are as before. */
  ghost predicate OnlyMarked(before: Rows, id: string, snapshot: string, after: Rows) {
    && id in before.at && id in after.at && IsMarked(before.at[id], snapshot, after.at[id])
    && after.keys == before.keys && forall k :: k in before.at && k != id ==>
      k in after.at && after.at[k] == before.at[k]
  }

  lemma MarkOnly(rows: Rows, id: string, snapshot: string, report: Report)
    requires RowsValid(rows) && id in rows.at && report.pass
    ensures OnlyMarked(rows, id, snapshot, rows.Put(id, MarkPublished(rows.at[id], snapshot, report)))
  {
  }

  /** Run to the end with nothing in between, the steps either refuse and change
      nothing, or write one snapshot on the base and mark the row. */
  lemma WholeCall(w: World, id: string, newId: string)
    requires w.calls == map[] && RowsValid(w.rows) && newId !in w.store.snapshots
    ensures var t := Run(w, CallSteps(id, newId));
      if !ReadyToPublish(w, id) then t.store == w.store && t.rows == w.rows
      else
        var cs := w.rows.at[id];
        && t.store == PublishTo(w.store, newId, cs.nodes, cs.rels, cs.ontologyVersion)
        && t.rows == w.rows.Put(id, MarkPublished(cs, newId, ReportFor(cs.nodes, cs.rels, {})))
        && OnlyMarked(w.rows, id, newId, t.rows)
  {
    hide Passes, ReportFor, PublishTo, OnlyMarked;
    RunFive(w, id, newId);
    if id !in w.rows.at {
      NoCallNoChange(w, newId);
    } else if ReadyToPublish(w, id) {
      UpToHeadRead(w, 0, id);
      PassesIsReport(w.rows.at[id].nodes, w.rows.at[id].rels);
      MarkOnly(w.rows, id, newId, ReportFor(w.rows.at[id].nodes, w.rows.at[id].rels, {}));
    } else {
      RefusedCall(w, id, newId);
    }
  }

  lemma RefusedCall(w: World, id: string, newId: string)
    requires w.calls == map[] && id in w.rows.at && w.rows.at[id].id == id && !ReadyToPublish(w, id)
    ensures var t := Apply(Apply(Apply(Apply(Apply(w, Load(0, id)), Check(0)), ReadHead(0)), Write(0, newId)),
      UpdateStatus(0));
      t.store == w.store && t.rows == w.rows
  {
    hide Passes, ReportFor, PublishTo;
    var cs := w.rows.at[id];
    var loaded := Apply(w, Load(0, id));
    assert loaded == w.(calls := w.calls[0 := Loaded(cs)]);
    var checked := Apply(loaded, Check(0));
    var read := Apply(checked, ReadHead(0));
    assert read.store == w.store && read.rows == w.rows && 0 !in read.calls;
    NoCallNoChange(read, newId);
  }

  /** Publishes an approved change set. `newId` is the id the store generates. */
  method PublishChangeSet(id: string, repo: ChangesetRepository, store: InMemoryGraphStore, newId: string)
    returns (r: Result<string, Error>)
    requires RowsValid(repo.rows) && Chained(store.View()) && newId !in store.snapshots
    modifies repo, store
    ensures RowsValid(repo.rows) && Chained(store.View()) && Extends(old(store.View()), store.View())
    ensures var t := Run(Idle(old(store.View()), old(repo.rows)), CallSteps(id, newId));
      store.View() == t.store && repo.rows == t.rows
    ensures r.Ok? <==> ReadyToPublish(Idle(old(store.View()), old(repo.rows)), id)
    ensures r == Err(NoSuchChangeset) <==> id !in old(repo.rows).at
    ensures r == Err(NotApproved) <==> id in old(repo.rows).at && old(repo.rows).at[id].status != Approved
    ensures r == Err(StaleBase) <==>
      && id in old(repo.rows).at && old(repo.rows).at[id].status == Approved
        && Passes(old(repo.rows).at[id].nodes, old(repo.rows).at[id].rels)
      && old(repo.rows).at[id].base != old(store.head)
    ensures r == Err(ConstraintFailures) <==>
      id in old(repo.rows).at && old(repo.rows).at[id].status == Approved
        && !Passes(old(repo.rows).at[id].nodes, old(repo.rows).at[id].rels)
    ensures r.Err? ==> store.View() == old(store.View()) && repo.rows == old(repo.rows)
    ensures r.Ok? ==> r.value == newId && newId in store.snapshots
    ensures r.Ok? ==> store.snapshots[newId].superseded == old(repo.rows).at[id].base
  {
    hide Passes, Run, Apply, OnlyMarked;
    WholeCall(Idle(store.View(), repo.rows), id, newId);
    ExtendsReflexive(store.View());
    var found := repo.Get(id);
    if found == None {
      return Err(NoSuchChangeset);
    }
    var cs := found.value;
    if cs.status != Approved {
      return Err(NotApproved);
    }
    var current := ProduceReport(cs.nodes, cs.rels, {});
    PassesIsReport(cs.nodes, cs.rels);
    if !current.pass {
      return Err(ConstraintFailures);
    }
    if cs.base != store.head {
      return Err(StaleBase);
    }
    var metadata := store.Publish(cs.nodes, cs.rels, cs.ontologyVersion, newId);
    var updated := repo.Update(MarkPublished(cs, metadata.id, current));
    r := Ok(metadata.id);
  }

  lemma PassesIsReport(nodes: seq<Node>, rels: seq<Edge>)
    ensures Passes(nodes, rels) <==> ReportFor(nodes, rels, {}).pass
  {
  }
}
