/** The export of a published snapshot: which obligations pass the gates, and what
    each one is mapped to. */
module Export {
  import opened Common
  import opened PyDict
  import opened Ontology
  import opened Graph
  import opened ProofPath
  import opened GraphStore
  import opened Changesets
  import R = ReviewStatuses

  /** The newest stored revision of a clause, as far as the gates read it. */
  datatype Revision = Revision(status: R.ReviewStatus, documentId: string, sourceVersion: string,
                               runId: Option<string>, target: string, decisions: nat, anchor: string)

  /** The other stores the export consults: registered documents that have a
      checksum, and clauses with logged agent calls. */
  datatype Records = Records(latest: map<string, Revision>, documents: set<(string, string)>, agentCalls: set<string>)

  datatype Exported = Exported(clauseId: string, node: string, controls: seq<string>, assets: seq<string>,
                               evidence: seq<string>, status: R.ReviewStatus, anchor: string)

  datatype ExportResult = ExportResult(included: seq<Exported>, excluded: seq<string>)

  datatype ExportError = NoSuchSnapshot

  /** The last published row, in table order, that carries the clause. */
  function FindPublishedByClause(rows: Rows, clause: string): Option<ChangeSet>
    requires RowsValid(rows)
  {
    var found := Filter((cs: ChangeSet) => cs.status.Published? && clause in cs.sourceClauses, rows.Values());
    if found == [] then None else Some(found[|found| - 1])
  }

  /** Every link of the provenance chain resolves. */
  predicate ChainResolves(rec: Records, rows: Rows, clause: string)
    requires RowsValid(rows)
  {
    && clause in rec.latest
    && var r := rec.latest[clause];
       && (r.documentId, r.sourceVersion) in rec.documents
       && r.runId.Some? && r.runId.value != ""
       && clause in rec.agentCalls
       && r.target == clause
       && r.decisions > 0
       && var cs := FindPublishedByClause(rows, clause);
          cs.Some? && cs.value.publishedSnapshot.Some? && cs.value.publishedSnapshot.value != ""
  }

  predicate IsClauseNode(nodes: map<string, Node>, k: string, clause: string) {
    k in nodes && nodes[k].kind == Obligation && nodes[k].props.clauseId == Some(clause)
  }

  ghost predicate FirstClauseNode(nodes: Dict<Node>, clause: string, i: nat, j: int) {
    && i <= j < |nodes.keys| && IsClauseNode(nodes.at, nodes.keys[j], clause)
    && forall k :: i <= k < j ==> !IsClauseNode(nodes.at, nodes.keys[k], clause)
  }

  /** The first obligation node of the clause, from position `i` on. */
  function ClauseNode(nodes: Dict<Node>, clause: string, i: nat): (r: Option<string>)
    requires i <= |nodes.keys|
    ensures r.Some? ==> exists j :: FirstClauseNode(nodes, clause, i, j) && r.value == nodes.keys[j]
    ensures r.None? ==> forall j :: i <= j < |nodes.keys| ==> !IsClauseNode(nodes.at, nodes.keys[j], clause)
    decreases |nodes.keys| - i
  {
    if i == |nodes.keys| then None
    else if IsClauseNode(nodes.at, nodes.keys[i], clause) then
      assert FirstClauseNode(nodes, clause, i, i);
      Some(nodes.keys[i])
    else ClauseNode(nodes, clause, i + 1)
  }

  /** Targets of one kind of edge that have the given node type. */
  function Targets(c: Content, src: string, rel: RelType, kind: NodeType): (r: seq<string>)
    ensures forall x :: x in r <==> Edge(src, x, rel) in c.rels && IsKind(c.nodes.at, x, kind)
  {
    Filter(x => IsKind(c.nodes.at, x, kind), EdgesFrom(c.rels, src, rel))
  }

  function EvidenceOf(c: Content, controls: seq<string>): seq<string> {
    FlatMap(k => Targets(c, k, SatisfiedBy, EvidenceRequirement), controls)
  }

  /** A clause is exported when it was accepted or edited, its provenance resolves,
      and the change set has a node for it. */
  predicate Gates(rec: Records, rows: Rows, c: Content, clause: string)
    requires RowsValid(rows)
  {
    && clause in rec.latest && rec.latest[clause].status in {R.Accepted, R.Edited}
    && ChainResolves(rec, rows, clause)
    && ClauseNode(c.nodes, clause, 0).Some?
  }

  function ExportedFor(rec: Records, rows: Rows, c: Content, clause: string): (e: Exported)
    requires RowsValid(rows) && Gates(rec, rows, c, clause)
    ensures e.clauseId == clause && IsClauseNode(c.nodes.at, e.node, clause)
  {
    var n := ClauseNode(c.nodes, clause, 0).value;
    var controls := Targets(c, n, MapsToControl, Control);
    Exported(clause, n, controls, Targets(c, n, AffectsAsset, Asset), EvidenceOf(c, controls),
             rec.latest[clause].status, rec.latest[clause].anchor)
  }

  function ExportClauses(rec: Records, rows: Rows, c: Content, clauses: seq<string>): ExportResult
    requires RowsValid(rows)
  {
    if clauses == [] then ExportResult([], [])
    else
      var n := |clauses| - 1;
      var before := ExportClauses(rec, rows, c, clauses[..n]);
      if Gates(rec, rows, c, clauses[n]) then
        before.(included := before.included + [ExportedFor(rec, rows, c, clauses[n])])
      else before.(excluded := before.excluded + [clauses[n]])
  }

  function ExportAll(rec: Records, rows: Rows, published: seq<ChangeSet>): ExportResult
    requires RowsValid(rows)
  {
    if published == [] then ExportResult([], [])
    else
      var n := |published| - 1;
      var before := ExportAll(rec, rows, published[..n]);
      var last := ExportClauses(rec, rows, ContentOf(published[n].nodes, published[n].rels),
        published[n].sourceClauses);
      ExportResult(before.included + last.included, before.excluded + last.excluded)
  }

  // ---- Every clause lands on one side ----

  function IdsOf(es: seq<Exported>): seq<string> {
    seq(|es|, i requires 0 <= i < |es| => es[i].clauseId)
  }

  /** Nothing is lost or duplicated: the source clauses are, as a multiset, the
      included ones and the excluded ones; and a clause is on the included side
      exactly when it passes every gate. */
  lemma {:induction false} ExportPartitions(rec: Records, rows: Rows, c: Content, clauses: seq<string>)
    requires RowsValid(rows)
    ensures var r := ExportClauses(rec, rows, c, clauses);
      && multiset(IdsOf(r.included)) + multiset(r.excluded) == multiset(clauses)
      && (forall x :: x in IdsOf(r.included) <==> x in clauses && Gates(rec, rows, c, x))
      && (forall x :: x in r.excluded <==> x in clauses && !Gates(rec, rows, c, x))
      && (forall e :: e in r.included ==> Gates(rec, rows, c, e.clauseId) && e == ExportedFor(rec, rows, c, e.clauseId))
  {
    hide Gates, ExportedFor, RowsValid;
    if clauses != [] {
      var n := |clauses| - 1;
      var before := ExportClauses(rec, rows, c, clauses[..n]);
      assert clauses == clauses[..n] + [clauses[n]];
      ExportPartitions(rec, rows, c, clauses[..n]);
      if Gates(rec, rows, c, clauses[n]) {
        var e := ExportedFor(rec, rows, c, clauses[n]);
        assert e.clauseId == clauses[n];
        assert IdsOf(before.included + [e]) == IdsOf(before.included) + [e.clauseId];
      }
    }
  }

  // ---- What the gates ask for ----

  ghost predicate CarriesAt(rows: Rows, clause: string, i: int) {
    && 0 <= i < |rows.keys| && rows.keys[i] in rows.at
    && rows.at[rows.keys[i]].status.Published? && clause in rows.at[rows.keys[i]].sourceClauses
  }

  /** The last published row that carries the clause, in table order, names a snapshot. */
  ghost predicate LastCarrierNamesSnapshot(rows: Rows, clause: string) {
    exists i :: CarriesAt(rows, clause, i) && (forall j :: i < j ==> !CarriesAt(rows, clause, j))
      && rows.at[rows.keys[i]].publishedSnapshot.Some? && rows.at[rows.keys[i]].publishedSnapshot.value != ""
  }

  /** The clause may be exported from the change set: its newest revision is accepted or
      edited; its document is registered with a checksum; its run is named and some agent
      call is logged for it; the report targets it; it has a decision; the last published
      row that carries it names a snapshot; and the change set has an obligation for it. */
  ghost predicate Exportable(rec: Records, rows: Rows, cs: ChangeSet, clause: string) {
    && clause in rec.latest
    && (rec.latest[clause].status == R.Accepted || rec.latest[clause].status == R.Edited)
    && (rec.latest[clause].documentId, rec.latest[clause].sourceVersion) in rec.documents
    && rec.latest[clause].runId != None && rec.latest[clause].runId != Some("")
    && clause in rec.agentCalls
    && rec.latest[clause].target == clause
    && rec.latest[clause].decisions != 0
    && LastCarrierNamesSnapshot(rows, clause)
    && exists n :: n in ById(cs.nodes).at && ById(cs.nodes).at[n].kind == Obligation
         && ById(cs.nodes).at[n].props.clauseId == Some(clause)
  }

  /** Position of the last element that satisfies `p`, if any. */
  lemma {:induction false} FilterLast<T(!new)>(p: T -> bool, s: seq<T>) returns (i: int)
    ensures Filter(p, s) == [] ==> forall x :: x in s ==> !p(x)
    ensures Filter(p, s) != [] ==> 0 <= i < |s| && p(s[i]) && s[i] == Filter(p, s)[|Filter(p, s)| - 1]
    ensures Filter(p, s) != [] ==> forall j :: i < j < |s| ==> !p(s[j])
  {
    i := -1;
    if s != [] {
      var n := |s| - 1;
      assert s == s[..n] + [s[n]];
      if p(s[n]) {
        i := n;
      } else {
        i := FilterLast(p, s[..n]);
        assert forall j :: 0 <= j < n ==> s[..n][j] == s[j];
      }
    }
  }

  /** Where the row found stands: behind every other one that carries the clause. */
  lemma FoundAt(rows: Rows, clause: string) returns (i: int)
    requires RowsValid(rows)
    ensures match FindPublishedByClause(rows, clause)
      case None => forall j :: !CarriesAt(rows, clause, j)
      case Some(cs) =>
        CarriesAt(rows, clause, i) && rows.at[rows.keys[i]] == cs && forall j :: i < j ==> !CarriesAt(rows, clause, j)
  {
    var vs := rows.Values();
    var p := (cs: ChangeSet) => cs.status.Published? && clause in cs.sourceClauses;
    i := FilterLast(p, vs);
    forall j ensures CarriesAt(rows, clause, j) <==> 0 <= j < |vs| && p(vs[j]) {
      if 0 <= j < |vs| {
        assert rows.keys[j] in rows.keys;
      }
    }
    if Filter(p, vs) == [] {
      assert forall j :: 0 <= j < |vs| ==> vs[j] in vs;
    }
  }

  lemma FoundNamesSnapshot(rows: Rows, clause: string)
    requires RowsValid(rows)
    ensures LastCarrierNamesSnapshot(rows, clause) <==>
      var cs := FindPublishedByClause(rows, clause);
      cs.Some? && cs.value.publishedSnapshot.Some? && cs.value.publishedSnapshot.value != ""
  {
    hide FindPublishedByClause, CarriesAt;
    var i := FoundAt(rows, clause);
    if FindPublishedByClause(rows, clause).Some? {
      LastNames(rows, clause, i);
    }
  }

  lemma LastNames(rows: Rows, clause: string, i: int)
    requires CarriesAt(rows, clause, i) && forall j :: i < j ==> !CarriesAt(rows, clause, j)
    ensures var k := rows.at[rows.keys[i]].publishedSnapshot;
      LastCarrierNamesSnapshot(rows, clause) <==> k.Some? && k.value != ""
  {
    hide CarriesAt;
    CarrierRow(rows, clause, i);
    if LastCarrierNamesSnapshot(rows, clause) {
      var n :| CarriesAt(rows, clause, n) && (forall j :: n < j ==> !CarriesAt(rows, clause, j));
      CarrierRow(rows, clause, n);
      assert n == i;
    }
  }

  lemma CarrierRow(rows: Rows, clause: string, i: int)
    requires CarriesAt(rows, clause, i)
    ensures 0 <= i < |rows.keys| && rows.keys[i] in rows.at
  {
  }

  lemma GatesMeaning(rec: Records, rows: Rows, cs: ChangeSet, clause: string)
    requires RowsValid(rows)
    ensures Gates(rec, rows, ContentOf(cs.nodes, cs.rels), clause) <==> Exportable(rec, rows, cs, clause)
  {
    hide RowsValid, LastCarrierNamesSnapshot, ById, FindPublishedByClause;
    FoundNamesSnapshot(rows, clause);
    var d := ById(cs.nodes);
    assert d.Valid();
    var found := ClauseNode(d, clause, 0);
    if n :| n in d.at && d.at[n].kind == Obligation && d.at[n].props.clauseId == Some(clause) {
      assert n in d.keys;
    }
  }

  /** What is exported for a clause: its first obligation node in the change set, the
      controls and assets that node is mapped to, the evidence requirements of those
      controls, and the status and anchor of its newest revision. */
  lemma ExportedMeaning(rec: Records, rows: Rows, c: Content, clause: string)
    requires RowsValid(rows) && Gates(rec, rows, c, clause)
    ensures var e, at := ExportedFor(rec, rows, c, clause), c.nodes.at;
      && e.clauseId == clause && (exists j :: FirstClauseNode(c.nodes, clause, 0, j) && e.node == c.nodes.keys[j])
      && (forall x :: x in e.controls <==> Edge(e.node, x, MapsToControl) in c.rels && x in at && at[x].kind == Control)
      && (forall x :: x in e.assets <==> Edge(e.node, x, AffectsAsset) in c.rels && x in at && at[x].kind == Asset)
      && (forall x :: x in e.evidence <==>
            exists k :: k in e.controls && Edge(k, x, SatisfiedBy) in c.rels && IsKind(at, x, EvidenceRequirement))
      && clause in rec.latest && e.status == rec.latest[clause].status && e.anchor == rec.latest[clause].anchor
  {
    hide Gates, RowsValid, Targets, ClauseNode, EvidenceOf;
    GateNode(rec, rows, c, clause);
    var e := ExportedFor(rec, rows, c, clause);
    forall x ensures x in e.evidence <==>
      exists k :: k in e.controls && Edge(k, x, SatisfiedBy) in c.rels && IsKind(c.nodes.at, x, EvidenceRequirement)
    {
      EvidenceMembers(c, e.controls, x);
    }
  }

  lemma GateNode(rec: Records, rows: Rows, c: Content, clause: string)
    requires RowsValid(rows) && Gates(rec, rows, c, clause)
    ensures clause in rec.latest && ClauseNode(c.nodes, clause, 0).Some?
  {
  }

  lemma {:induction false} EvidenceMembers(c: Content, controls: seq<string>, x: string)
    ensures x in EvidenceOf(c, controls) <==>
      exists k :: k in controls && x in Targets(c, k, SatisfiedBy, EvidenceRequirement)
  {
    hide Targets;
    if controls != [] {
      var n := |controls| - 1;
      assert controls == controls[..n] + [controls[n]];
      EvidenceMembers(c, controls[..n], x);
      EvidenceSnoc(c, controls, n);
      assert controls[..n + 1] == controls;
    }
  }

  lemma EvidenceSnoc(c: Content, controls: seq<string>, i: nat)
    requires i < |controls|
    ensures EvidenceOf(c, controls[..i + 1])
      == EvidenceOf(c, controls[..i]) + Targets(c, controls[i], SatisfiedBy, EvidenceRequirement)
  {
    hide Targets;
    FlatMapSnoc(k => Targets(c, k, SatisfiedBy, EvidenceRequirement), controls, i);
  }

  /** The clause is included from some of the change sets. */
  ghost predicate IncludedFrom(rec: Records, rows: Rows, published: seq<ChangeSet>, clause: string) {
    exists cs :: cs in published && clause in cs.sourceClauses && Exportable(rec, rows, cs, clause)
  }

  ghost predicate ExcludedFrom(rec: Records, rows: Rows, published: seq<ChangeSet>, clause: string) {
    exists cs :: cs in published && clause in cs.sourceClauses && !Exportable(rec, rows, cs, clause)
  }

  /** All source clauses, change set by change set. */
  function AllSources(published: seq<ChangeSet>): seq<string> {
    if published == [] then [] else AllSources(published[..|published| - 1]) + published[|published| - 1].sourceClauses
  }

  lemma SourcesMeaning(rec: Records, rows: Rows, cs: ChangeSet)
    requires RowsValid(rows)
    ensures var r := ExportClauses(rec, rows, ContentOf(cs.nodes, cs.rels), cs.sourceClauses);
      && multiset(IdsOf(r.included)) + multiset(r.excluded) == multiset(cs.sourceClauses)
      && (forall x :: x in IdsOf(r.included) <==> x in cs.sourceClauses && Exportable(rec, rows, cs, x))
      && (forall x :: x in r.excluded <==> x in cs.sourceClauses && !Exportable(rec, rows, cs, x))
  {
    hide Exportable, ExportClauses, RowsValid, Gates, ExportedFor, IdsOf;
    ExportPartitions(rec, rows, ContentOf(cs.nodes, cs.rels), cs.sourceClauses);
    forall x ensures Gates(rec, rows, ContentOf(cs.nodes, cs.rels), x) <==> Exportable(rec, rows, cs, x) {
      GatesMeaning(rec, rows, cs, x);
    }
  }

  lemma FromAppended(rec: Records, rows: Rows, front: seq<ChangeSet>, cs: ChangeSet, x: string)
    ensures IncludedFrom(rec, rows, front + [cs], x) <==>
      IncludedFrom(rec, rows, front, x) || (x in cs.sourceClauses && Exportable(rec, rows, cs, x))
    ensures ExcludedFrom(rec, rows, front + [cs], x) <==>
      ExcludedFrom(rec, rows, front, x) || (x in cs.sourceClauses && !Exportable(rec, rows, cs, x))
  {
    hide Exportable;
  }

  lemma IdsAppended(a: seq<Exported>, b: seq<Exported>)
    ensures IdsOf(a + b) == IdsOf(a) + IdsOf(b)
  {
  }

  /** The whole export: as multisets the source clauses are the included and the
      excluded ones, and a clause is included, or excluded, exactly when some change set
      that carries it makes it exportable, or does not. */
  lemma {:induction false} ExportMeaning(rec: Records, rows: Rows, published: seq<ChangeSet>)
    requires RowsValid(rows)
    ensures var r := ExportAll(rec, rows, published);
      && multiset(IdsOf(r.included)) + multiset(r.excluded) == multiset(AllSources(published))
      && (forall x :: x in IdsOf(r.included) <==> IncludedFrom(rec, rows, published, x))
      && (forall x :: x in r.excluded <==> ExcludedFrom(rec, rows, published, x))
  {
    hide Exportable, ExportClauses, RowsValid, IncludedFrom, ExcludedFrom, IdsOf;
    if published == [] {
      NothingExported(rec, rows);
    } else {
      var front, cs := published[..|published| - 1], published[|published| - 1];
      ExportMeaning(rec, rows, front);
      SourcesMeaning(rec, rows, cs);
      assert published == front + [cs];
      forall x ensures IncludedFrom(rec, rows, published, x) <==>
        IncludedFrom(rec, rows, front, x) || (x in cs.sourceClauses && Exportable(rec, rows, cs, x))
      ensures ExcludedFrom(rec, rows, published, x) <==>
        ExcludedFrom(rec, rows, front, x) || (x in cs.sourceClauses && !Exportable(rec, rows, cs, x))
      {
        FromAppended(rec, rows, front, cs, x);
      }
      var before := ExportAll(rec, rows, front);
      IdsAppended(before.included, ExportClauses(rec, rows, ContentOf(cs.nodes, cs.rels), cs.sourceClauses).included);
    }
  }

  lemma NothingExported(rec: Records, rows: Rows)
    ensures IdsOf([]) == [] && AllSources([]) == []
    ensures forall x :: !IncludedFrom(rec, rows, [], x) && !ExcludedFrom(rec, rows, [], x)
  {
  }

  // ---- The loops ----

  method CollectEvidence(c: Content, controls: seq<string>) returns (evidence: seq<string>)
    ensures evidence == EvidenceOf(c, controls)
  {
    evidence := [];
    for i := 0 to |controls|
      invariant evidence == EvidenceOf(c, controls[..i])
    {
      EvidenceSnoc(c, controls, i);
      evidence := evidence + Targets(c, controls[i], SatisfiedBy, EvidenceRequirement);
    }
    assert controls[..|controls|] == controls;
  }

  method ExportChangeSet(rec: Records, rows: Rows, c: Content, clauses: seq<string>) returns (r: ExportResult)
    requires RowsValid(rows)
    ensures r == ExportClauses(rec, rows, c, clauses)
  {
    hide ChainResolves, Targets, EvidenceOf, ClauseNode, RowsValid;
    var included: seq<Exported>, excluded: seq<string> := [], [];
    for i := 0 to |clauses|
      invariant ExportResult(included, excluded) == ExportClauses(rec, rows, c, clauses[..i])
    {
      assert clauses[..i + 1][..i] == clauses[..i];
      var clause := clauses[i];
      if clause !in rec.latest || rec.latest[clause].status !in {R.Accepted, R.Edited} {
        excluded := excluded + [clause];
        continue;
      }
      if !ChainResolves(rec, rows, clause) {
        excluded := excluded + [clause];
        continue;
      }
      var node := ClauseNode(c.nodes, clause, 0);
      if node.None? {
        excluded := excluded + [clause];
        continue;
      }
      var controls := Targets(c, node.value, MapsToControl, Control);
      var assets := Targets(c, node.value, AffectsAsset, Asset);
      var evidence := CollectEvidence(c, controls);
      included := included
        + [Exported(clause, node.value, controls, assets, evidence, rec.latest[clause].status, rec.latest[clause].anchor)];
    }
    assert clauses[..|clauses|] == clauses;
    r := ExportResult(included, excluded);
  }

  /** The row is published and names this snapshot. */
  ghost predicate IsPublishedRow(rows: Rows, snapshot: string, cs: ChangeSet) {
    cs.id in rows.at && rows.at[cs.id] == cs && cs.status.Published? && cs.publishedSnapshot == Some(snapshot)
  }

  lemma PublishedExportMeaning(rec: Records, rows: Rows, snapshot: string)
    requires RowsValid(rows)
    ensures var r := ExportAll(rec, rows, PublishedRows(rows, snapshot));
      && (forall x :: x in IdsOf(r.included) <==>
            exists cs :: IsPublishedRow(rows, snapshot, cs) && x in cs.sourceClauses && Exportable(rec, rows, cs, x))
      && (forall x :: x in r.excluded <==>
            exists cs :: IsPublishedRow(rows, snapshot, cs) && x in cs.sourceClauses && !Exportable(rec, rows, cs, x))
  {
    hide Exportable, ExportAll, RowsValid, IdsOf;
    var published := PublishedRows(rows, snapshot);
    ExportMeaning(rec, rows, published);
    assert forall cs :: cs in published <==> IsPublishedRow(rows, snapshot, cs);
  }

  method BuildExport(snapshot: string, store: InMemoryGraphStore, repo: ChangesetRepository, rec: Records)
    returns (r: Result<ExportResult, ExportError>)
    requires RowsValid(repo.rows)
    ensures r.Err? <==> snapshot !in store.snapshots
    ensures r.Ok? ==> r.value == ExportAll(rec, repo.rows, PublishedRows(repo.rows, snapshot))
    ensures r.Ok? ==> forall x :: x in IdsOf(r.value.included) <==>
      exists cs :: IsPublishedRow(repo.rows, snapshot, cs) && x in cs.sourceClauses && Exportable(rec, repo.rows, cs, x)
    ensures r.Ok? ==> forall x :: x in r.value.excluded <==>
      exists cs :: IsPublishedRow(repo.rows, snapshot, cs) && x in cs.sourceClauses
        && !Exportable(rec, repo.rows, cs, x)
  {
    hide ExportClauses, RowsValid, PublishedRows;
    var m := store.GetSnapshot(snapshot);
    if m.None? {
      return Err(NoSuchSnapshot);
    }
    var published := repo.ListPublishedBySnapshot(snapshot);
    var included: seq<Exported>, excluded: seq<string> := [], [];
    for i := 0 to |published|
      invariant ExportResult(included, excluded) == ExportAll(rec, repo.rows, published[..i])
    {
      assert published[..i + 1][..i] == published[..i];
      var one := ExportChangeSet(rec, repo.rows, ContentOf(published[i].nodes, published[i].rels),
        published[i].sourceClauses);
      included := included + one.included;
      excluded := excluded + one.excluded;
    }
    assert published[..|published|] == published;
    r := Ok(ExportResult(included, excluded));
    PublishedExportMeaning(rec, repo.rows, snapshot);
  }
}
