/** The query and the export, which read the same snapshot in two ways, agree. */
module ExportAgrees {
  import opened Common
  import opened PyDict
  import opened Ontology
  import opened Graph
  import opened Constraints
  import opened ProofPath
  import opened ProofPathPattern
  import opened Changesets
  import opened Export
  import opened Publisher
  import opened PublishRuns
  import opened StatusRuns
  import M = Mapping
  import T = MappingTypeChecks

  /** The stops the loops find, said without loops. */
  ghost predicate IsStops(c: Content, s: Stops) {
    && IsKind(c.nodes.at, s.obligation, Obligation)
    && s.provision in EdgesFrom(c.rels, s.obligation, DerivedFrom) && IsKind(c.nodes.at, s.provision, Provision)
    && s.control in EdgesFrom(c.rels, s.obligation, MapsToControl) && IsKind(c.nodes.at, s.control, Control)
    && s.asset in OrNone(EdgesFrom(c.rels, s.control, AffectsAsset))
    && s.evidence in OrNone(EdgesFrom(c.rels, s.control, SatisfiedBy))
    && s.test in OrNone(TestsOf(c.rels, s.evidence))
  }

  lemma StopsMeaning(c: Content, s: Stops)
    requires c.nodes.Valid()
    ensures s in AllStops(c) <==> IsStops(c, s)
  {
    hide IsKind, EdgesFrom, OrNone, TestsOf, AllStops;
    CountNested(s, c);
    assert s in AllStops(c) <==> Times(s, AllStops(c)) > 0;
    assert s.provision in EdgesFrom(c.rels, s.obligation, DerivedFrom) <==>
      Times(s.provision, EdgesFrom(c.rels, s.obligation, DerivedFrom)) > 0;
    assert s.control in EdgesFrom(c.rels, s.obligation, MapsToControl) <==>
      Times(s.control, EdgesFrom(c.rels, s.obligation, MapsToControl)) > 0;
    assert s.asset in OrNone(EdgesFrom(c.rels, s.control, AffectsAsset)) <==>
      Times(s.asset, OrNone(EdgesFrom(c.rels, s.control, AffectsAsset))) > 0;
    assert s.evidence in OrNone(EdgesFrom(c.rels, s.control, SatisfiedBy)) <==>
      Times(s.evidence, OrNone(EdgesFrom(c.rels, s.control, SatisfiedBy))) > 0;
    assert s.test in OrNone(TestsOf(c.rels, s.evidence)) <==> Times(s.test, OrNone(TestsOf(c.rels, s.evidence))) > 0;
  }

  /** `x` appears on some path of the clause. */
  ghost predicate OnPathOf(c: Content, clause: string, x: string) {
    Query(c).Ok? && exists row :: row in Query(c).value && row.clauseId == clause && x in row.path
  }

  /** A mapped id is exported once for each parallel edge. */
  lemma {:induction false} TargetsTimes(c: Content, src: string, rel: RelType, kind: NodeType, x: string)
    ensures Times(x, Targets(c, src, rel, kind))
      == if x in c.nodes.at && c.nodes.at[x].kind == kind then Times(Edge(src, x, rel), c.rels) else 0
  {
    hide EdgesFrom;
    TimesEdge(c.rels, Edge(src, x, rel));
    FilterTimes(y => IsKind(c.nodes.at, y, kind), EdgesFrom(c.rels, src, rel), x);
  }

  lemma {:induction false} FilterTimes(p: string -> bool, s: seq<string>, x: string)
    ensures Times(x, Filter(p, s)) == if p(x) then Times(x, s) else 0
  {
    if s != [] {
      var n := |s| - 1;
      FilterTimes(p, s[..n], x);
      TimesSnoc(x, s);
      TimesConcat(x, Filter(p, s[..n]), if p(s[n]) then [s[n]] else []);
    }
  }

  /** The clause id of an obligation node names that node alone. */
  ghost predicate ClauseNodesUnique(nodes: Dict<Node>) {
    forall a, b, clause :: IsClauseNode(nodes.at, a, clause) && IsClauseNode(nodes.at, b, clause) ==> a == b
  }

  lemma RowOfStops(c: Content, clause: string, x: string)
    requires Query(c).Ok? && c.nodes.Valid()
    ensures OnPathOf(c, clause, x) <==>
      exists s :: s in AllStops(c) && ClauseOf(c.nodes.at, s.obligation) == clause && x in PathOf(s)
  {
    hide AllStops, ClauseOf, PathOf;
    var stops := AllStops(c);
    var rows := Query(c).value;
    assert rows == ProofPath.Rows(c.nodes.at, stops);
    if OnPathOf(c, clause, x) {
      var row :| row in rows && row.clauseId == clause && x in row.path;
      var i :| 0 <= i < |rows| && rows[i] == row;
      assert stops[i] in stops;
    }
    if s :| s in stops && ClauseOf(c.nodes.at, s.obligation) == clause && x in PathOf(s) {
      var i :| 0 <= i < |stops| && stops[i] == s;
      assert rows[i] in rows;
    }
  }

  lemma FromOrNone(ids: seq<string>, x: Option<string>)
    requires x in OrNone(ids)
    ensures x.Some? ==> x.value in ids
  {
  }

  lemma FromTests(rels: seq<Edge>, evidence: Option<string>, test: Option<string>)
    requires test in OrNone(TestsOf(rels, evidence))
    ensures test.Some? ==> evidence.Some? && Edge(evidence.value, test.value, EvidencedBy) in rels
  {
  }

  lemma PathMembers(s: Stops, x: string)
    ensures x in PathOf(s) <==>
      x == s.provision || x == s.obligation || x == s.control || s.asset == Some(x) || s.evidence == Some(x)
        || s.test == Some(x)
  {
  }

  /** Each stop of a path has its own node type. */
  lemma StopKinds(nodes: seq<Node>, rels: seq<Edge>, s: Stops, x: string)
    requires Passes(nodes, rels)
    requires var c := ContentOf(nodes, rels); IsStops(c, s) && x in PathOf(s)
    ensures var at := ContentOf(nodes, rels).nodes.at;
      && (IsKind(at, x, Control) <==> x == s.control)
      && (IsKind(at, x, EvidenceRequirement) <==> s.evidence == Some(x))
  {
    hide Passes, EdgesFrom, ById, PathOf, OrNone, TestsOf;
    var c := ContentOf(nodes, rels);
    PathMembers(s, x);
    FromOrNone(EdgesFrom(rels, s.control, AffectsAsset), s.asset);
    FromOrNone(EdgesFrom(rels, s.control, SatisfiedBy), s.evidence);
    FromTests(rels, s.evidence, s.test);
    if s.asset.Some? {
      TargetsAreTyped(nodes, rels, s.control, s.asset.value);
    }
    if s.evidence.Some? {
      TargetsAreTyped(nodes, rels, s.control, s.evidence.value);
      if s.test.Some? {
        TargetsAreTyped(nodes, rels, s.evidence.value, s.test.value);
      }
    }
  }

  /** An obligation of a passing change set has its provision. */
  lemma HasProvision(nodes: seq<Node>, rels: seq<Edge>, o: string) returns (p: string)
    requires Passes(nodes, rels) && IsKind(ById(nodes).at, o, Obligation)
    ensures p in EdgesFrom(rels, o, DerivedFrom) && IsKind(ById(nodes).at, p, Provision)
  {
    PassIffWellFormed(nodes, rels);
    TypesOfNodes(nodes);
    assert ById(nodes).at[o] in nodes;
    assert DerivedOnce(rels, o, NodeTypes(nodes));
    var i :| 0 <= i < |rels| && TypedEdge(rels[i], o, DerivedFrom, Provision, NodeTypes(nodes));
    p := rels[i].dst;
    assert rels[i] == Edge(o, p, DerivedFrom) && rels[i] in rels;
  }

  /** Every control the obligation maps to, with any of its evidence, is on a path. */
  lemma PathThrough(nodes: seq<Node>, rels: seq<Edge>, o: string, control: string, evidence: Option<string>)
    returns (s: Stops)
    requires Passes(nodes, rels)
    requires var c := ContentOf(nodes, rels);
      IsKind(c.nodes.at, o, Obligation) && control in Targets(c, o, MapsToControl, Control)
      && evidence in OrNone(EdgesFrom(rels, control, SatisfiedBy))
    ensures IsStops(ContentOf(nodes, rels), s) && s.obligation == o && s.control == control && s.evidence == evidence
  {
    hide Passes, ById;
    var p := HasProvision(nodes, rels, o);
    var assets := OrNone(EdgesFrom(rels, control, AffectsAsset));
    var tests := OrNone(TestsOf(rels, evidence));
    s := Stops(p, o, control, assets[0], evidence, tests[0]);
  }

  /** On the snapshot of a passing change set whose clause ids name one obligation
      node each: for every exported obligation, the controls on its query paths are
      its mapped controls, and the evidence requirements on them are its mapped
      evidence. */
  lemma QueryAgreesWithExport(rec: Records, rows: Rows, nodes: seq<Node>, rels: seq<Edge>, clause: string)
    requires RowsValid(rows) && Passes(nodes, rels)
    requires var c := ContentOf(nodes, rels); ClauseNodesUnique(c.nodes) && Gates(rec, rows, c, clause) && Query(c).Ok?
    ensures var c := ContentOf(nodes, rels); var e := ExportedFor(rec, rows, c, clause);
      && (forall x :: x in e.controls <==> OnPathOf(c, clause, x) && IsKind(c.nodes.at, x, Control))
      && (forall x :: x in e.evidence <==> OnPathOf(c, clause, x) && IsKind(c.nodes.at, x, EvidenceRequirement))
  {
    hide Passes, ById, OnPathOf, Gates, Query, RowsValid, ClauseNodesUnique, IsKind;
    var c := ContentOf(nodes, rels);
    var e := ExportedFor(rec, rows, c, clause);
    forall x ensures x in e.controls <==> OnPathOf(c, clause, x) && IsKind(c.nodes.at, x, Control) {
      ControlsAgree(nodes, rels, clause, e.node, x);
    }
    forall x ensures x in e.evidence <==> OnPathOf(c, clause, x) && IsKind(c.nodes.at, x, EvidenceRequirement) {
      EvidenceAgrees(nodes, rels, clause, e.node, x);
    }
  }

  /** Paths of the clause are the stops at its node. */
  lemma PathsAtNode(nodes: seq<Node>, rels: seq<Edge>, clause: string, o: string, x: string)
    requires var c := ContentOf(nodes, rels);
      ClauseNodesUnique(c.nodes) && Query(c).Ok? && IsClauseNode(c.nodes.at, o, clause)
    ensures var c := ContentOf(nodes, rels);
      OnPathOf(c, clause, x) <==> exists s :: IsStops(c, s) && s.obligation == o && x in PathOf(s)
  {
    hide ById, OnPathOf, PathOf, AllStops, Query, EdgesFrom, OrNone, TestsOf;
    var c := ContentOf(nodes, rels);
    RowOfStops(c, clause, x);
    forall s ensures s in AllStops(c) <==> IsStops(c, s) {
      StopsMeaning(c, s);
    }
    QueryIsOk(c);
    forall s | IsStops(c, s) ensures ClauseOf(c.nodes.at, s.obligation) == clause <==> s.obligation == o {
      if ClauseOf(c.nodes.at, s.obligation) == clause {
        assert IsClauseNode(c.nodes.at, s.obligation, clause);
      }
    }
  }

  lemma QueryIsOk(c: Content)
    requires Query(c).Ok? && c.nodes.Valid()
    ensures forall k :: k in c.nodes.at && c.nodes.at[k].kind == Obligation ==> c.nodes.at[k].props.clauseId.Some?
  {
    hide AllStops;
    assert !MissingClause(c.nodes.at, c.nodes.keys);
    assert forall k :: k in c.nodes.at ==> k in c.nodes.keys;
  }

  lemma ControlsAgree(nodes: seq<Node>, rels: seq<Edge>, clause: string, o: string, x: string)
    requires Passes(nodes, rels)
    requires var c := ContentOf(nodes, rels);
      ClauseNodesUnique(c.nodes) && Query(c).Ok? && IsClauseNode(c.nodes.at, o, clause)
    ensures var c := ContentOf(nodes, rels);
      x in Targets(c, o, MapsToControl, Control) <==> OnPathOf(c, clause, x) && IsKind(c.nodes.at, x, Control)
  {
    hide Passes, ById, OnPathOf, PathOf, Query, EdgesFrom, OrNone, TestsOf, ClauseNodesUnique;
    var c := ContentOf(nodes, rels);
    PathsAtNode(nodes, rels, clause, o, x);
    if x in Targets(c, o, MapsToControl, Control) {
      var evidence := OrNone(EdgesFrom(rels, x, SatisfiedBy));
      var s := PathThrough(nodes, rels, o, x, evidence[0]);
      PathMembers(s, x);
    }
    if OnPathOf(c, clause, x) && IsKind(c.nodes.at, x, Control) {
      var s :| IsStops(c, s) && s.obligation == o && x in PathOf(s);
      StopKinds(nodes, rels, s, x);
    }
  }

  lemma EvidenceAgrees(nodes: seq<Node>, rels: seq<Edge>, clause: string, o: string, x: string)
    requires Passes(nodes, rels)
    requires var c := ContentOf(nodes, rels);
      ClauseNodesUnique(c.nodes) && Query(c).Ok? && IsClauseNode(c.nodes.at, o, clause)
    ensures var c := ContentOf(nodes, rels);
      x in EvidenceOf(c, Targets(c, o, MapsToControl, Control)) <==>
        OnPathOf(c, clause, x) && IsKind(c.nodes.at, x, EvidenceRequirement)
  {
    hide Passes, ById, OnPathOf, PathOf, Query, EdgesFrom, OrNone, TestsOf, ClauseNodesUnique, EvidenceOf;
    var c := ContentOf(nodes, rels);
    var controls := Targets(c, o, MapsToControl, Control);
    PathsAtNode(nodes, rels, clause, o, x);
    EvidenceMembers(c, controls, x);
    if k :| k in controls && x in Targets(c, k, SatisfiedBy, EvidenceRequirement) {
      InOrNone(EdgesFrom(rels, k, SatisfiedBy), x);
      var s := PathThrough(nodes, rels, o, k, Some(x));
      PathMembers(s, x);
    }
    if OnPathOf(c, clause, x) && IsKind(c.nodes.at, x, EvidenceRequirement) {
      var s :| IsStops(c, s) && s.obligation == o && x in PathOf(s);
      StopKinds(nodes, rels, s, x);
      FromOrNone(EdgesFrom(rels, s.control, SatisfiedBy), s.evidence);
      assert s.control in controls && x in Targets(c, s.control, SatisfiedBy, EvidenceRequirement);
    }
  }

  lemma InOrNone(ids: seq<string>, x: string)
    requires x in ids
    ensures Some(x) in OrNone(ids)
  {
  }

  // ---- Snapshots built by the mapper and published ----

  /** An obligation node of a mapped proposal sits at the id its clause gives it. */
  lemma MappedObligation(ctx: M.Context, os: seq<M.Source>, k: string)
    requires k in M.MapAll(ctx, os).nodes.at && M.MapAll(ctx, os).nodes.at[k].kind == Obligation
    ensures var n := M.MapAll(ctx, os).nodes.at[k];
      n.props.clauseId.Some? && k == M.ObligationId(n.props.clauseId.value)
  {
    hide M.MapAll, M.ObligationId;
    var n := M.MapAll(ctx, os).nodes.at[k];
    T.ListedTypes(ctx, os);
    assert n in M.ProposalFor(ctx, os).nodes;
    T.ObligationsAre(ctx, os, n);
  }

  /** So there a clause id names one obligation node, and every obligation node
      carries one: the query of the proposal answers. */
  lemma MappedClauseNodes(ctx: M.Context, os: seq<M.Source>)
    ensures var p := M.ProposalFor(ctx, os);
      && ClauseNodesUnique(ById(p.nodes))
      && Query(ContentOf(p.nodes, p.rels)).Ok?
  {
    hide M.MapAll, AllStops, M.ObligationId, ById, ProofPath.Rows;
    var d := M.MapAll(ctx, os);
    M.NodesValid(ctx, os);
    T.ListedTypes(ctx, os);
    ByIdOfValues(d.nodes);
    forall k | k in d.nodes.at && d.nodes.at[k].kind == Obligation
      ensures d.nodes.at[k].props.clauseId.Some? && k == M.ObligationId(d.nodes.at[k].props.clauseId.value)
    {
      MappedObligation(ctx, os, k);
    }
  }

  /** So for the mapper's proposals the query and the export agree whenever the
      proposal passes, which `ProposalPassesIff` decides. */
  lemma MappedQueryAgreesWithExport(rec: Records, rows: Rows, ctx: M.Context, os: seq<M.Source>, clause: string)
    requires RowsValid(rows)
    requires var p := M.ProposalFor(ctx, os);
      Passes(p.nodes, p.rels) && Gates(rec, rows, ContentOf(p.nodes, p.rels), clause)
    ensures var p := M.ProposalFor(ctx, os); var c := ContentOf(p.nodes, p.rels);
      var e := ExportedFor(rec, rows, c, clause);
      && (forall x :: x in e.controls <==> OnPathOf(c, clause, x) && IsKind(c.nodes.at, x, Control))
      && (forall x :: x in e.evidence <==> OnPathOf(c, clause, x) && IsKind(c.nodes.at, x, EvidenceRequirement))
  {
    hide Passes, M.ProposalFor, Query, ClauseNodesUnique, Gates, RowsValid, ExportedFor, OnPathOf;
    var p := M.ProposalFor(ctx, os);
    MappedClauseNodes(ctx, os);
    QueryAgreesWithExport(rec, rows, p.nodes, p.rels, clause);
  }

  /** A snapshot's content is the proposal of the change set it was written for. */
  ghost predicate ContentIsProposal(w: World, k: string) {
    && k in w.store.content && k in w.publishedBy && w.publishedBy[k] in w.rows.at
    && var cs := w.rows.at[w.publishedBy[k]]; w.store.content[k] == ContentOf(cs.nodes, cs.rels)
  }

  lemma OldContentStays(w: World, s: Step, k: string)
    requires Sound(w) && k in w.publishedBy && ContentIsProposal(w, k)
    ensures ContentIsProposal(Apply(w, s), k)
  {
    hide Apply, ById, Passes;
    StepKeeps(w, s);
    assert k in w.store.order;
    assert RowKeeps(w.rows.at[w.publishedBy[k]], Apply(w, s).rows.at[w.publishedBy[k]]);
  }

  lemma NewContent(w: World, s: Step)
    requires Sound(w) && WriteEnabled(w, s)
    ensures ContentIsProposal(Apply(w, s), s.newId)
  {
    hide ById;
    assert CallSound(w, w.calls[s.call]);
  }

  lemma {:induction false} RunContent(steps: seq<Step>)
    ensures Sound(Run(INIT, steps))
    ensures forall k :: k in Run(INIT, steps).publishedBy ==> ContentIsProposal(Run(INIT, steps), k)
  {
    hide Apply, ContentIsProposal, WriteEnabled;
    assert Sound(INIT);
    RunKeeps(INIT, steps);
    if steps != [] {
      var n := |steps| - 1;
      var w := Run(INIT, steps[..n]);
      RunContent(steps[..n]);
      PublishedByGrows(w, steps[n]);
      forall k | k in Apply(w, steps[n]).publishedBy ensures ContentIsProposal(Apply(w, steps[n]), k) {
        if k in w.publishedBy {
          OldContentStays(w, steps[n], k);
        } else {
          NewContent(w, steps[n]);
        }
      }
    }
  }

  /** The change set is published as this snapshot. */
  ghost predicate PublishedAs(w: World, k: string, cs: ChangeSet) {
    cs.id in w.rows.at && w.rows.at[cs.id] == cs && PublishedIn(cs, k)
  }

  lemma ValuesDistinct(rows: Rows)
    requires RowsValid(rows)
    ensures Distinct(rows.Values())
  {
    var vs := rows.Values();
    forall i, j | 0 <= i < j < |vs| ensures vs[i] != vs[j] {
      assert rows.keys[i] in rows.keys && rows.keys[j] in rows.keys;
    }
  }

  lemma TwoDiffer<T>(s: seq<T>)
    requires Distinct(s) && |s| > 1
    ensures exists a, b :: a in s && b in s && a != b
  {
    assert s[0] in s && s[1] in s && s[0] != s[1];
  }

  lemma OnlyOne<T>(s: seq<T>, x: T)
    requires Distinct(s) && x in s && forall y :: y in s ==> y == x
    ensures s == [x]
  {
    if |s| > 1 {
      TwoDiffer(s);
      assert false;
    }
  }

  /** In any interleaving a snapshot has at most one published change set: that one
      passes the rules and its proposal is the snapshot's content. */
  lemma PublishedContent(steps: seq<Step>, k: string, cs: ChangeSet)
    requires PublishedAs(Run(INIT, steps), k, cs)
    ensures RowsValid(Run(INIT, steps).rows)
    ensures var w := Run(INIT, steps);
      && k in w.store.content && w.store.content[k] == ContentOf(cs.nodes, cs.rels)
      && Passes(cs.nodes, cs.rels) && PublishedRows(w.rows, k) == [cs]
  {
    hide Run, Passes, ById;
    var w := Run(INIT, steps);
    RunContent(steps);
    RunEarned(steps);
    assert forall x :: x in PublishedRows(w.rows, k) ==> RowSound(w, w.rows.at[x.id]) && w.publishedBy[k] == x.id;
    assert StatusEarned(cs);
    assert RowSound(w, cs) && ContentIsProposal(w, k);
    ValuesDistinct(w.rows);
    FilterDistinct(x => PublishedIn(x, k), w.rows.Values());
    OnlyOne(PublishedRows(w.rows, k), cs);
  }

  /** So the export of a snapshot is that of its one change set on the stored
      content, and each of its source clauses lands on exactly one side. */
  lemma PublishedExport(steps: seq<Step>, k: string, cs: ChangeSet, rec: Records)
    requires PublishedAs(Run(INIT, steps), k, cs)
    ensures RowsValid(Run(INIT, steps).rows) && k in Run(INIT, steps).store.content
    ensures var w := Run(INIT, steps); var c := w.store.content[k];
      var r := ExportAll(rec, w.rows, PublishedRows(w.rows, k));
      && r == ExportClauses(rec, w.rows, c, cs.sourceClauses)
      && multiset(IdsOf(r.included)) + multiset(r.excluded) == multiset(cs.sourceClauses)
      && (forall x :: x in IdsOf(r.included) <==> x in cs.sourceClauses && Exportable(rec, w.rows, cs, x))
      && (forall x :: x in r.excluded <==> x in cs.sourceClauses && !Exportable(rec, w.rows, cs, x))
      && (forall e :: e in r.included ==>
        Gates(rec, w.rows, c, e.clauseId) && e == ExportedFor(rec, w.rows, c, e.clauseId))
  {
    hide Run, Passes, ContentOf, Gates, Exportable, ExportedFor, ExportClauses, PublishedRows, PublishedAs, RowsValid;
    var w := Run(INIT, steps);
    PublishedContent(steps, k, cs);
    var c := ContentOf(cs.nodes, cs.rels);
    ExportOne(rec, w.rows, cs);
    ExportPartitions(rec, w.rows, c, cs.sourceClauses);
    forall x ensures Gates(rec, w.rows, ContentOf(cs.nodes, cs.rels), x) <==> Exportable(rec, w.rows, cs, x) {
      GatesMeaning(rec, w.rows, cs, x);
    }
  }

  lemma ExportOne(rec: Records, rows: Rows, cs: ChangeSet)
    requires RowsValid(rows)
    ensures ExportAll(rec, rows, [cs]) == ExportClauses(rec, rows, ContentOf(cs.nodes, cs.rels), cs.sourceClauses)
  {
    hide ContentOf, ExportClauses, RowsValid;
    var one := ExportClauses(rec, rows, ContentOf(cs.nodes, cs.rels), cs.sourceClauses);
    assert [cs][..0] == [] && ExportAll(rec, rows, []) == ExportResult([], []);
    assert [] + one.included == one.included && [] + one.excluded == one.excluded;
  }

  /** For every published snapshot whose clause ids name one obligation node each and
      whose query answers: whatever the export says an obligation is mapped to, and
      evidenced by, the query of the stored content says too. */
  lemma PublishedSnapshotAgrees(steps: seq<Step>, k: string, cs: ChangeSet, rec: Records, e: Exported)
    requires PublishedAs(Run(INIT, steps), k, cs)
    requires ClauseNodesUnique(ById(cs.nodes)) && Query(ContentOf(cs.nodes, cs.rels)).Ok?
    requires RowsValid(Run(INIT, steps).rows)
    requires e in ExportAll(rec, Run(INIT, steps).rows, PublishedRows(Run(INIT, steps).rows, k)).included
    ensures k in Run(INIT, steps).store.content
    ensures var c := Run(INIT, steps).store.content[k];
      && Query(c).Ok? && e.clauseId in cs.sourceClauses
      && (forall x :: x in e.controls <==> OnPathOf(c, e.clauseId, x) && IsKind(c.nodes.at, x, Control))
      && (forall x :: x in e.evidence <==> OnPathOf(c, e.clauseId, x) && IsKind(c.nodes.at, x, EvidenceRequirement))
  {
    hide Run, Passes, Query, ClauseNodesUnique, Gates, RowsValid, ExportedFor, OnPathOf;
    hide PublishedRows, ExportAll, ExportClauses, PublishedAs, ById;
    var w := Run(INIT, steps);
    PublishedContent(steps, k, cs);
    PublishedExport(steps, k, cs, rec);
    InIds(ExportAll(rec, w.rows, PublishedRows(w.rows, k)).included, e);
    QueryAgreesWithExport(rec, w.rows, cs.nodes, cs.rels, e.clauseId);
  }

  /** The mapper's proposals always meet both conditions. */
  lemma MappedSnapshotAgrees(steps: seq<Step>, k: string, cs: ChangeSet, rec: Records, ctx: M.Context,
                             os: seq<M.Source>, e: Exported)
    requires PublishedAs(Run(INIT, steps), k, cs)
    requires M.Proposal(cs.sourceClauses, cs.nodes, cs.rels) == M.ProposalFor(ctx, os)
    requires RowsValid(Run(INIT, steps).rows)
    requires e in ExportAll(rec, Run(INIT, steps).rows, PublishedRows(Run(INIT, steps).rows, k)).included
    ensures k in Run(INIT, steps).store.content
    ensures var c := Run(INIT, steps).store.content[k];
      && Query(c).Ok? && e.clauseId in M.ClauseIds(os)
      && (forall x :: x in e.controls <==> OnPathOf(c, e.clauseId, x) && IsKind(c.nodes.at, x, Control))
      && (forall x :: x in e.evidence <==> OnPathOf(c, e.clauseId, x) && IsKind(c.nodes.at, x, EvidenceRequirement))
  {
    hide Run, M.MapAll, Query, ClauseNodesUnique, RowsValid, OnPathOf, PublishedRows, ExportAll, PublishedAs, ById;
    MappedClauseNodes(ctx, os);
    PublishedSnapshotAgrees(steps, k, cs, rec, e);
  }

  lemma InIds(es: seq<Exported>, e: Exported)
    requires e in es
    ensures e.clauseId in IdsOf(es)
  {
    var i :| 0 <= i < |es| && es[i] == e;
    assert IdsOf(es)[i] == e.clauseId;
  }
}
