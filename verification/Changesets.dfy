/** Change sets: the stored record, the repository, and the validate, approve and
    publish operations over the repository and the graph store. */
module Changesets {
  import opened Common
  import opened PyDict
  import opened Graph
  import opened Constraints

  datatype ChangeSet = ChangeSet(
    id: string,
    base: Option<string>,
    sourceClauses: seq<string>,
    ontologyVersion: string,
    nodes: seq<Node>,
    rels: seq<Edge>,
    status: Status,
    report: Option<Report>,
    publishedSnapshot: Option<string>)

  datatype Error =
    | DuplicateKey | NoSuchChangeset | NotValidated | NotApproved | ConstraintFailures | StaleBase

  /** The table of change sets, in insertion order. */
  type Rows = Dict<ChangeSet>

  ghost predicate RowsValid(rows: Rows) {
    rows.Valid() && forall k :: k in rows.at ==> rows.at[k].id == k
  }

  function Validate(cs: ChangeSet): ChangeSet {
    var report := ReportFor(cs.nodes, cs.rels, {});
    cs.(report := Some(report), status := ResolveStatus(report.pass, cs.status))
  }

  function MarkPublished(cs: ChangeSet, snapshot: string, report: Report): ChangeSet {
    cs.(report := Some(report), publishedSnapshot := Some(snapshot), status := Published)
  }

  function PublishedIn(cs: ChangeSet, snapshot: string): bool {
    cs.status == Published && cs.publishedSnapshot == Some(snapshot)
  }

  function OnlyPublished(all: seq<ChangeSet>, snapshot: string): seq<ChangeSet> {
    Filter(cs => PublishedIn(cs, snapshot), all)
  }

  /** The rows that a snapshot was published from, in table order. */
  function PublishedRows(rows: Rows, snapshot: string): (r: seq<ChangeSet>)
    requires RowsValid(rows)
    ensures forall cs :: cs in r <==> cs.id in rows.at && rows.at[cs.id] == cs && PublishedIn(cs, snapshot)
  {
    ValuesAreRows(rows);
    OnlyPublished(rows.Values(), snapshot)
  }

  class ChangesetRepository {
    var rows: Rows

    constructor ()
      ensures rows == Empty() && RowsValid(rows)
    {
      rows := Empty();
    }

    /** The identifier is the table's primary key. */
    method Create(cs: ChangeSet) returns (r: Result<(), Error>)
      requires RowsValid(rows)
      modifies this
      ensures RowsValid(rows)
      ensures r == if cs.id in old(rows).at then Err(DuplicateKey) else Ok(())
      ensures rows == if r.Err? then old(rows) else old(rows).Put(cs.id, cs)
    {
      if cs.id in rows.at {
        return Err(DuplicateKey);
      }
      rows := rows.Put(cs.id, cs);
      r := Ok(());
    }

    method Get(id: string) returns (r: Option<ChangeSet>)
      ensures r == if id in rows.at then Some(rows.at[id]) else None
    {
      r := if id in rows.at then Some(rows.at[id]) else None;
    }

    /** Rewrites one row, keeping its place in the table. */
    method Update(cs: ChangeSet) returns (r: Result<ChangeSet, Error>)
      requires RowsValid(rows)
      modifies this
      ensures RowsValid(rows)
      ensures r == if cs.id in old(rows).at then Ok(cs) else Err(NoSuchChangeset)
      ensures rows == if cs.id in old(rows).at then old(rows).Put(cs.id, cs) else old(rows)
    {
      if cs.id !in rows.at {
        return Err(NoSuchChangeset);
      }
      rows := rows.Put(cs.id, cs);
      r := Ok(cs);
    }

    method ListPublishedBySnapshot(snapshot: string) returns (found: seq<ChangeSet>)
      requires RowsValid(rows)
      ensures found == PublishedRows(rows, snapshot)
    {
      found := [];
      var all := rows.Values();
      for i := 0 to |all|
        invariant found == OnlyPublished(all[..i], snapshot)
      {
        assert all[..i + 1][..i] == all[..i];
        if PublishedIn(all[i], snapshot) {
          found := found + [all[i]];
        }
      }
      assert all[..|all|] == all;
    }
  }

  lemma ValuesAreRows(rows: Rows)
    requires RowsValid(rows)
    ensures forall cs :: cs in rows.Values() <==> cs.id in rows.at && rows.at[cs.id] == cs
  {
    forall cs ensures cs in rows.Values() <==> cs.id in rows.at && rows.at[cs.id] == cs {
      if cs in rows.Values() {
        var i :| 0 <= i < |rows.keys| && rows.Values()[i] == cs;
        assert rows.keys[i] in rows.keys;
      }
      if cs.id in rows.at && rows.at[cs.id] == cs {
        assert cs.id in rows.keys;
        var i :| 0 <= i < |rows.keys| && rows.keys[i] == cs.id;
        assert rows.Values()[i] == cs;
      }
    }
  }

  method ValidateChangeset(id: string, repo: ChangesetRepository) returns (r: Result<Report, Error>)
    requires RowsValid(repo.rows)
    modifies repo
    ensures RowsValid(repo.rows)
    ensures r.Err? <==> id !in old(repo.rows).at
    ensures r.Err? ==> r.error == NoSuchChangeset
    ensures repo.rows == if r.Err? then old(repo.rows) else old(repo.rows).Put(id, Validate(old(repo.rows).at[id]))
    ensures r.Ok? ==> r.value == ReportFor(old(repo.rows).at[id].nodes, old(repo.rows).at[id].rels, {})
  {
    var found := repo.Get(id);
    if found == None {
      return Err(NoSuchChangeset);
    }
    var cs := found.value;
    var report := ProduceReport(cs.nodes, cs.rels, {});
    var updated := repo.Update(cs.(report := Some(report), status := ResolveStatus(report.pass, cs.status)));
    r := Ok(report);
  }

  method ApproveChangeSet(id: string, repo: ChangesetRepository) returns (r: Result<ChangeSet, Error>)
    requires RowsValid(repo.rows)
    modifies repo
    ensures RowsValid(repo.rows)
    ensures r.Ok? <==> id in old(repo.rows).at && old(repo.rows).at[id].status == Validated
    ensures r == Err(NoSuchChangeset) <==> id !in old(repo.rows).at
    ensures r == Err(NotValidated) <==> id in old(repo.rows).at && old(repo.rows).at[id].status != Validated
    ensures r.Err? ==> repo.rows == old(repo.rows)
    ensures r.Ok? ==> r.value == old(repo.rows).at[id].(status := Approved)
    ensures r.Ok? ==> repo.rows == old(repo.rows).Put(id, r.value)
  {
    var found := repo.Get(id);
    if found == None {
      return Err(NoSuchChangeset);
    }
    if found.value.status != Validated {
      return Err(NotValidated);
    }
    r := repo.Update(found.value.(status := Approved));
  }
}
