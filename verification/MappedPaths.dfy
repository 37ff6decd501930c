/** What the mapper alone can contribute to proof paths: its edges stop at
    controls, so none of its snapshots has a complete path to draw. */
module MappedPaths {
  import opened Common
  import opened Ontology
  import opened Graph
  import opened ProofPath
  import opened Constraints
  import opened ProofPathPattern
  import opened Mapping
  import opened MappingShape
  import opened MappingTypeChecks
  import opened MappedGraph
  import ExportAgrees
  import Layout

  /** A control of a mapped proposal is one that an obligation maps to, so its id
      begins as a control's should. */
  lemma ControlOf(ctx: Context, o: Source, n: Node)
    requires IsNodeOf(ctx, o, n) && n.kind == Control
    ensures KindFor(n.id) == Control
  {
    hide KindFor, OwnActors, OwnControls, OwnAssets, ObligationId, RegulationId, ProvisionId;
    OwnKinds(ctx, o, n.id);
  }

  /** The mapper draws asset edges only from obligations, and no evidence edges. */
  lemma NotFromControl(ctx: Context, o: Source, e: Edge)
    requires IsEdgeOf(ctx, o, e) && (e.kind == AffectsAsset || e.kind == SatisfiedBy)
    ensures KindFor(e.src) != Control
  {
    hide KindFor, OwnActors, OwnControls, OwnAssets, ObligationId, RegulationId, ProvisionId;
    KindOfObligation(o.clauseId);
  }

  lemma {:induction false} NoEdge(rels: seq<Edge>, src: string, kind: RelType)
    requires forall e :: e in rels ==> e.src != src || e.kind != kind
    ensures EdgesFrom(rels, src, kind) == []
  {
    if rels != [] {
      NoEdge(rels[..|rels| - 1], src, kind);
    }
  }

  /** So nothing leads on from a control. */
  lemma NothingBeyond(ctx: Context, os: seq<Source>, control: string)
    requires IsKind(MapAll(ctx, os).nodes.at, control, Control)
    ensures EdgesFrom(MapAll(ctx, os).rels, control, AffectsAsset) == []
      && EdgesFrom(MapAll(ctx, os).rels, control, SatisfiedBy) == []
  {
    hide KindFor, MapAll, IsNodeOf, IsEdgeOf, Mapped, SameRegulation, EdgesFrom;
    var d := MapAll(ctx, os);
    MapAllShape(ctx, os);
    assert Stems(ctx, os, control, d.nodes.at[control]);
    var o :| o in os && IsNodeOf(ctx, o, d.nodes.at[control]);
    ControlOf(ctx, o, d.nodes.at[control]);
    forall e | e in d.rels && (e.kind == AffectsAsset || e.kind == SatisfiedBy) ensures e.src != control {
      assert FromSome(ctx, os, e);
      var x :| x in os && IsEdgeOf(ctx, x, e);
      NotFromControl(ctx, x, e);
    }
    NoEdge(d.rels, control, AffectsAsset);
    NoEdge(d.rels, control, SatisfiedBy);
  }

  /** The snapshot's content is what the mapper built. */
  lemma MappedContent(ctx: Context, os: seq<Source>)
    ensures var p := ProposalFor(ctx, os); var c := ContentOf(p.nodes, p.rels);
      c.nodes == MapAll(ctx, os).nodes && c.nodes.Valid() && c.rels == MapAll(ctx, os).rels
  {
    hide MapAll, ById;
    ListedTypes(ctx, os);
    ByIdOfValues(MapAll(ctx, os).nodes);
  }

  /** Every path of a mapped snapshot ends at its control. */
  lemma MappedPathsEndAtControl(ctx: Context, os: seq<Source>, s: Stops)
    requires var p := ProposalFor(ctx, os); s in AllStops(ContentOf(p.nodes, p.rels))
    ensures PathOf(s) == [s.provision, s.obligation, s.control]
  {
    hide MapAll, AllStops, EdgesFrom, ProposalFor, ContentOf;
    var p := ProposalFor(ctx, os);
    var c := ContentOf(p.nodes, p.rels);
    MappedContent(ctx, os);
    ExportAgrees.StopsMeaning(c, s);
    NothingBeyond(ctx, os, s.control);
  }

  /** So no path reported for a snapshot that only the mapper built is drawn. */
  lemma NoMappedPathIsDrawn(ctx: Context, os: seq<Source>, row: Row)
    requires var p := ProposalFor(ctx, os); var c := ContentOf(p.nodes, p.rels); Query(c).Ok? && row in Query(c).value
    ensures Layout.NodeIds(row.path).None?
  {
    hide AllStops, ById, PathOf;
    var p := ProposalFor(ctx, os);
    var c := ContentOf(p.nodes, p.rels);
    QueryPaths(c);
    var i :| 0 <= i < |Query(c).value| && Query(c).value[i] == row;
    MappedPathsEndAtControl(ctx, os, AllStops(c)[i]);
  }

  /** Each row of a mapped snapshot occurs as often as its MAPS_TO_CONTROL edge times
      its DERIVED_FROM edge. */
  lemma MappedRowCount(ctx: Context, os: seq<Source>, s: Stops)
    ensures var p := ProposalFor(ctx, os); var at := ContentOf(p.nodes, p.rels).nodes.at;
      Times(s, AllStops(ContentOf(p.nodes, p.rels))) ==
        if s.asset.None? && s.evidence.None? && s.test.None?
          && s.obligation in at && at[s.obligation].kind == Obligation && s.provision in at
          && at[s.provision].kind == Provision && s.control in at && at[s.control].kind == Control
        then Times(Edge(s.obligation, s.provision, DerivedFrom), p.rels)
          * Times(Edge(s.obligation, s.control, MapsToControl), p.rels)
        else 0
  {
    hide MapAll, AllStops, ById, Times;
    var p := ProposalFor(ctx, os);
    var c := ContentOf(p.nodes, p.rels);
    MappedContent(ctx, os);
    if IsKind(c.nodes.at, s.control, Control) {
      NoWayOn(ctx, os, s.control);
    }
    EndingRow(c, s);
  }

  lemma NoWayOn(ctx: Context, os: seq<Source>, control: string)
    requires IsKind(MapAll(ctx, os).nodes.at, control, Control)
    ensures var rels := MapAll(ctx, os).rels;
      NoEdgeOut(rels, control, AffectsAsset) && NoEdgeOut(rels, control, SatisfiedBy)
  {
    hide MapAll, EdgesFrom;
    var rels := MapAll(ctx, os).rels;
    NothingBeyond(ctx, os, control);
    forall dst, kind | Edge(control, dst, kind) in rels ensures kind != AffectsAsset && kind != SatisfiedBy {
      assert dst in EdgesFrom(rels, control, kind);
    }
  }

  lemma EndingRow(c: Content, s: Stops)
    requires c.nodes.Valid()
    requires IsKind(c.nodes.at, s.control, Control) ==>
      NoEdgeOut(c.rels, s.control, AffectsAsset) && NoEdgeOut(c.rels, s.control, SatisfiedBy)
    ensures Times(s, AllStops(c)) ==
      if s.asset.None? && s.evidence.None? && s.test.None? && IsKind(c.nodes.at, s.obligation, Obligation)
        && IsKind(c.nodes.at, s.provision, Provision) && IsKind(c.nodes.at, s.control, Control)
      then Times(Edge(s.obligation, s.provision, DerivedFrom), c.rels)
        * Times(Edge(s.obligation, s.control, MapsToControl), c.rels)
      else 0
  {
    hide AllStops, Times, Ways, TestWays, NoEdgeOut;
    CountRows(s, c);
    if IsKind(c.nodes.at, s.control, Control) {
      LastWays(c.rels, s);
      OnesAndNoughts(Times(Edge(s.obligation, s.provision, DerivedFrom), c.rels)
        * Times(Edge(s.obligation, s.control, MapsToControl), c.rels), Ways(c.rels, s.control, AffectsAsset, s.asset),
        Ways(c.rels, s.control, SatisfiedBy, s.evidence), TestWays(c.rels, s));
    }
  }

  lemma OnesAndNoughts(n: nat, a: nat, b: nat, c: nat)
    ensures a == b == c == 1 ==> n * a * b * c == n
    ensures a == 0 || b == 0 || c == 0 ==> n * a * b * c == 0
  {
  }

  lemma LastWays(rels: seq<Edge>, s: Stops)
    requires NoEdgeOut(rels, s.control, AffectsAsset) && NoEdgeOut(rels, s.control, SatisfiedBy)
    ensures Ways(rels, s.control, AffectsAsset, s.asset) == if s.asset.None? then 1 else 0
    ensures Ways(rels, s.control, SatisfiedBy, s.evidence) == if s.evidence.None? then 1 else 0
    ensures s.evidence.None? ==> TestWays(rels, s) == if s.test.None? then 1 else 0
  {
  }

  /** In a passing proposal that is how often the caller lists the control for the
      obligation's clause. */
  lemma MappedPathCount(ctx: Context, os: seq<Source>, o: Source, control: string)
    requires var p := ProposalFor(ctx, os); Passes(p.nodes, p.rels)
    requires o in os
    ensures var p := ProposalFor(ctx, os);
      var s := Stops("provision:" + o.anchorId, "obligation:" + o.clauseId, "control:" + control, None, None, None);
      Times(s, AllStops(ContentOf(p.nodes, p.rels))) == TimesListed(ctx.controls, o.clauseId, control)
  {
    hide AllStops, ById, Passes, ProposalFor, Times, TimesListed;
    var p := ProposalFor(ctx, os);
    var s := Stops("provision:" + o.anchorId, "obligation:" + o.clauseId, "control:" + control, None, None, None);
    var mapped := Edge(s.obligation, s.control, MapsToControl);
    MappedRowCount(ctx, os, s);
    FixtureTimes(ctx, os, o.clauseId, control);
    OwnClause(ctx, os, o);
    NotThere(p.rels, mapped);
    if mapped in p.rels {
      ControlEnd(p, mapped);
    }
  }

  lemma NotThere(rels: seq<Edge>, e: Edge)
    ensures e !in rels ==> Times(e, rels) == 0
  {
  }

  /** In a passing proposal an obligation's clause occurs once, on its provision. */
  lemma OwnClause(ctx: Context, os: seq<Source>, o: Source)
    requires var p := ProposalFor(ctx, os); Passes(p.nodes, p.rels)
    requires o in os
    ensures var p := ProposalFor(ctx, os); var at := ById(p.nodes).at;
      && IsKind(at, "obligation:" + o.clauseId, Obligation) && IsKind(at, "provision:" + o.anchorId, Provision)
      && Times(Edge("obligation:" + o.clauseId, "provision:" + o.anchorId, DerivedFrom), p.rels) == 1
      && Occurrences(os, o.clauseId) == 1
  {
    hide ById, Passes, ProposalFor, Occurrences, ActorTotal, ActorsApart;
    var p := ProposalFor(ctx, os);
    var derived := Edge("obligation:" + o.clauseId, "provision:" + o.anchorId, DerivedFrom);
    ProposalPassesIff(ctx, os);
    DistinctMeansOnce(os);
    assert CountsRight(os, o);
    ProposalEdges(ctx, os);
    assert Draws(ctx, o, derived);
    OwnKindsOf(p, o);
    ProvisionEdgeIsSingle(p.nodes, p.rels, derived.src, derived.dst);
  }

  lemma OwnKindsOf(p: Proposal, o: Source)
    requires Passes(p.nodes, p.rels)
      && Edge("obligation:" + o.clauseId, "provision:" + o.anchorId, DerivedFrom) in p.rels
    ensures IsKind(ById(p.nodes).at, "obligation:" + o.clauseId, Obligation)
    ensures IsKind(ById(p.nodes).at, "provision:" + o.anchorId, Provision)
  {
    hide Passes, ById, IsPairAllowed;
    var e := Edge("obligation:" + o.clauseId, "provision:" + o.anchorId, DerivedFrom);
    EdgeIsTyped(p.nodes, p.rels, e);
    DerivedFromPairs(ById(p.nodes).at[e.src].kind, ById(p.nodes).at[e.dst].kind);
  }

  lemma ControlEnd(p: Proposal, e: Edge)
    requires Passes(p.nodes, p.rels) && e in p.rels && e.kind == MapsToControl
    ensures IsKind(ById(p.nodes).at, e.dst, Control)
  {
    hide Passes, ById, IsPairAllowed;
    EdgeIsTyped(p.nodes, p.rels, e);
    MapsToControlPairs(ById(p.nodes).at[e.src].kind, ById(p.nodes).at[e.dst].kind);
  }
}
