/** The mapped proposal, said without the mapper: which edges and nodes it has, and
    how often each edge that the caller's maps ask for. */
module MappedGraph {
  import opened Common
  import opened Ontology
  import opened Graph
  import opened EntityResolution
  import opened Mapping
  import opened MappingShape
  import opened MappingTypeChecks
  import opened ProofPathPattern

  /** The id an actor's name resolves to. */
  ghost predicate ResolvesTo(ctx: Context, name: string, id: string) {
    match Resolve(ctx.sim, name, ctx.existing).nodeId
    case Some(known) => id == if known != "" then known else "actor:" + ctx.slug(name)
    case None => id == "actor:" + ctx.slug(name)
  }

  /** The caller's map has this entry for the clause. */
  ghost predicate Listed(fixture: map<string, seq<string>>, clause: string, entry: string) {
    clause in fixture && entry in fixture[clause]
  }

  ghost predicate DrawsActor(ctx: Context, o: Source, e: Edge) {
    exists name :: name in o.actors && ResolvesTo(ctx, name, e.dst)
      && e == Edge("obligation:" + o.clauseId, e.dst, ImposesOn)
  }

  ghost predicate DrawsControl(ctx: Context, o: Source, e: Edge) {
    exists k :: Listed(ctx.controls, o.clauseId, k)
      && e == Edge("obligation:" + o.clauseId, "control:" + k, MapsToControl)
  }

  ghost predicate DrawsAsset(ctx: Context, o: Source, e: Edge) {
    exists k :: Listed(ctx.assets, o.clauseId, k) && e == Edge("obligation:" + o.clauseId, "asset:" + k, AffectsAsset)
  }

  ghost predicate DrawsSupersedes(ctx: Context, o: Source, e: Edge) {
    && ctx.latestVersion.Some? && ctx.latestVersion.value != o.sourceVersion
    && e == Edge("regulation:" + o.instrument + ":" + o.sourceVersion,
                 "regulation:" + o.instrument + ":" + ctx.latestVersion.value, Supersedes)
  }

  /** The edge is one that the obligation asks for. */
  ghost predicate Draws(ctx: Context, o: Source, e: Edge) {
    || e == Edge("obligation:" + o.clauseId, "provision:" + o.anchorId, DerivedFrom)
    || DrawsSupersedes(ctx, o, e) || DrawsActor(ctx, o, e) || DrawsControl(ctx, o, e) || DrawsAsset(ctx, o, e)
  }

  lemma InMapped(fixture: map<string, seq<string>>, clause: string, entry: string)
    ensures Listed(fixture, clause, entry) <==> entry in MappedTo(fixture, clause)
  {
  }

  lemma ActorDrawn(ctx: Context, o: Source, id: string)
    ensures id in OwnActors(ctx, o) <==> exists name :: name in o.actors && ResolvesTo(ctx, name, id)
  {
    forall name ensures ResolvesTo(ctx, name, id) <==> id == ActorId(ctx, name) {
    }
    if name :| name in o.actors && ResolvesTo(ctx, name, id) {
      var i :| 0 <= i < |o.actors| && o.actors[i] == name;
      assert OwnActors(ctx, o)[i] == id;
    }
  }

  lemma ControlDrawn(ctx: Context, o: Source, id: string)
    ensures id in OwnControls(ctx, o) <==> exists k :: Listed(ctx.controls, o.clauseId, k) && id == "control:" + k
  {
    var ks := MappedTo(ctx.controls, o.clauseId);
    forall k ensures Listed(ctx.controls, o.clauseId, k) <==> k in ks {
      InMapped(ctx.controls, o.clauseId, k);
    }
    if k :| k in ks && id == "control:" + k {
      var i :| 0 <= i < |ks| && ks[i] == k;
      assert OwnControls(ctx, o)[i] == id;
    }
  }

  lemma AssetDrawn(ctx: Context, o: Source, id: string)
    ensures id in OwnAssets(ctx, o) <==> exists k :: Listed(ctx.assets, o.clauseId, k) && id == "asset:" + k
  {
    var ks := MappedTo(ctx.assets, o.clauseId);
    forall k ensures Listed(ctx.assets, o.clauseId, k) <==> k in ks {
      InMapped(ctx.assets, o.clauseId, k);
    }
    if k :| k in ks && id == "asset:" + k {
      var i :| 0 <= i < |ks| && ks[i] == k;
      assert OwnAssets(ctx, o)[i] == id;
    }
  }

  lemma EdgeDrawn(ctx: Context, o: Source, e: Edge)
    ensures IsEdgeOf(ctx, o, e) <==> Draws(ctx, o, e)
  {
    hide OwnActors, OwnControls, OwnAssets, ResolvesTo, Listed;
    ActorDrawn(ctx, o, e.dst);
    ControlDrawn(ctx, o, e.dst);
    AssetDrawn(ctx, o, e.dst);
  }

  /** The proposal has exactly the edges its obligations ask for: one DERIVED_FROM
      edge, one IMPOSES_ON edge to each resolved actor, one edge to each control and
      each asset that the caller lists for the clause, and one SUPERSEDES edge to a
      given latest version other than the obligation's own. */
  lemma ProposalEdges(ctx: Context, os: seq<Source>)
    ensures forall e :: e in ProposalFor(ctx, os).rels <==> exists o :: o in os && Draws(ctx, o, e)
  {
    hide MapAll, IsEdgeOf, Draws, Stems, Mapped, SameRegulation;
    MapAllShape(ctx, os);
    forall e ensures e in ProposalFor(ctx, os).rels <==> exists o :: o in os && Draws(ctx, o, e) {
      forall o ensures IsEdgeOf(ctx, o, e) <==> Draws(ctx, o, e) {
        EdgeDrawn(ctx, o, e);
      }
      assert e in MapAll(ctx, os).rels <==> FromSome(ctx, os, e);
    }
  }

  /** So a listed control or asset is never dropped, and none is invented. */
  lemma FixtureEdges(ctx: Context, os: seq<Source>, clause: string, entry: string)
    requires exists o :: o in os && o.clauseId == clause
    ensures var rels := ProposalFor(ctx, os).rels;
      && (Edge("obligation:" + clause, "control:" + entry, MapsToControl) in rels <==>
        Listed(ctx.controls, clause, entry))
      && (Edge("obligation:" + clause, "asset:" + entry, AffectsAsset) in rels <==> Listed(ctx.assets, clause, entry))
  {
    hide ProposalFor, Listed, ResolvesTo;
    var control := Edge("obligation:" + clause, "control:" + entry, MapsToControl);
    var asset := Edge("obligation:" + clause, "asset:" + entry, AffectsAsset);
    ProposalEdges(ctx, os);
    forall o ensures DrawsControl(ctx, o, control) <==> o.clauseId == clause && Listed(ctx.controls, clause, entry) {
      SameTail("obligation:", clause, o.clauseId);
      forall k ensures "control:" + entry == "control:" + k <==> entry == k {
        SameTail("control:", entry, k);
      }
    }
    forall o ensures DrawsAsset(ctx, o, asset) <==> o.clauseId == clause && Listed(ctx.assets, clause, entry) {
      SameTail("obligation:", clause, o.clauseId);
      forall k ensures "asset:" + entry == "asset:" + k <==> entry == k {
        SameTail("asset:", entry, k);
      }
    }
    var o :| o in os && o.clauseId == clause;
    assert DrawsControl(ctx, o, control) ==> Draws(ctx, o, control);
    assert DrawsAsset(ctx, o, asset) ==> Draws(ctx, o, asset);
  }

  lemma SameTail(head: string, a: string, b: string)
    ensures head + a == head + b <==> a == b
  {
    assert (head + a)[|head|..] == a && (head + b)[|head|..] == b;
  }

  // ---- Nodes ----

  /** The node is one that the obligation asks for. */
  ghost predicate Places(ctx: Context, o: Source, n: Node) {
    || n == Node("regulation:" + o.instrument + ":" + o.sourceVersion, Regulation,
                 Props(None, Some(o.instrument), Some(o.sourceVersion)))
    || (ctx.latestVersion.Some? && ctx.latestVersion.value != o.sourceVersion
        && n == Node("regulation:" + o.instrument + ":" + ctx.latestVersion.value, Regulation,
                     Props(None, Some(o.instrument), ctx.latestVersion)))
    || n == Node("provision:" + o.anchorId, Provision, Props(None, Some(o.instrument), Some(o.sourceVersion)))
    || n == Node("obligation:" + o.clauseId, Obligation, Props(Some(o.clauseId), None, None))
    || (n == Node(n.id, Actor, Props(None, None, None)) && exists name :: name in o.actors && ResolvesTo(ctx, name, n.id))
    || (n == Node(n.id, Control, Props(None, None, None))
        && exists k :: Listed(ctx.controls, o.clauseId, k) && n.id == "control:" + k)
    || (n == Node(n.id, Asset, Props(None, None, None))
        && exists k :: Listed(ctx.assets, o.clauseId, k) && n.id == "asset:" + k)
  }

  lemma NodePlaced(ctx: Context, o: Source, n: Node)
    requires IsNodeOf(ctx, o, n)
    ensures Places(ctx, o, n)
  {
    hide OwnActors, OwnControls, OwnAssets, ResolvesTo, Listed;
    ActorDrawn(ctx, o, n.id);
    ControlDrawn(ctx, o, n.id);
    AssetDrawn(ctx, o, n.id);
  }

  lemma NodeAskedFor(ctx: Context, os: seq<Source>, n: Node)
    requires n in ProposalFor(ctx, os).nodes
    ensures exists o :: o in os && Places(ctx, o, n)
  {
    hide MapAll, IsNodeOf, Places, FromSome, SameRegulation, Mapped, ProposalFor;
    MapAllShape(ctx, os);
    ListedTypes(ctx, os);
    assert Stems(ctx, os, n.id, n);
    var o :| o in os && IsNodeOf(ctx, o, n);
    NodePlaced(ctx, o, n);
  }

  lemma IdsDiffer(ctx: Context, os: seq<Source>, i: nat, j: nat)
    requires i < j < |ProposalFor(ctx, os).nodes|
    ensures ProposalFor(ctx, os).nodes[i].id != ProposalFor(ctx, os).nodes[j].id
  {
    hide MapAll;
    var keys := MapAll(ctx, os).nodes.keys;
    ListedTypes(ctx, os);
    assert keys[i] in keys && keys[j] in keys;
  }

  lemma OwnNodes(ctx: Context, os: seq<Source>, o: Source)
    requires o in os
    ensures var nodes := ProposalFor(ctx, os).nodes;
      && Node("obligation:" + o.clauseId, Obligation, Props(Some(o.clauseId), None, None)) in nodes
      && RegulationListed(nodes, o)
  {
    hide MapAll, Stems, FromSome, SameRegulation, ProposalFor;
    MapAllShape(ctx, os);
    ListedTypes(ctx, os);
    var d := MapAll(ctx, os);
    assert Mapped(d, o);
    var n, r := d.nodes.at[ObligationId(o.clauseId)], d.nodes.at[RegulationId(o.instrument, o.sourceVersion)];
    assert n in ProposalFor(ctx, os).nodes && r in ProposalFor(ctx, os).nodes;
    ObligationsAre(ctx, os, n);
    var x :| x in os && n == ObligationNode(x);
    ObligationIdInjective(x.clauseId, o.clauseId);
  }

  /** Every node of the proposal is one that an obligation asks for, the nodes' ids
      differ, and every obligation has its own node and its regulation's. */
  lemma ProposalNodes(ctx: Context, os: seq<Source>)
    ensures var nodes := ProposalFor(ctx, os).nodes;
      && (forall n :: n in nodes ==> exists o :: o in os && Places(ctx, o, n))
      && (forall i, j :: 0 <= i < j < |nodes| ==> nodes[i].id != nodes[j].id)
      && (forall o :: o in os ==> RegulationListed(nodes, o))
      && (forall o :: o in os ==>
        Node("obligation:" + o.clauseId, Obligation, Props(Some(o.clauseId), None, None)) in nodes)
  {
    hide ProposalFor, Places, RegulationListed;
    var nodes := ProposalFor(ctx, os).nodes;
    forall n | n in nodes ensures exists o :: o in os && Places(ctx, o, n) {
      NodeAskedFor(ctx, os, n);
    }
    forall i, j | 0 <= i < j < |nodes| ensures nodes[i].id != nodes[j].id {
      IdsDiffer(ctx, os, i, j);
    }
    forall o | o in os
      ensures RegulationListed(nodes, o)
      ensures Node("obligation:" + o.clauseId, Obligation, Props(Some(o.clauseId), None, None)) in nodes
    {
      OwnNodes(ctx, os, o);
    }
  }

  ghost predicate RegulationListed(nodes: seq<Node>, o: Source) {
    exists n :: n in nodes && n.kind == Regulation && n.id == "regulation:" + o.instrument + ":" + o.sourceVersion
  }

  /** The first obligation with this anchor. */
  ghost predicate FirstWithAnchor(os: seq<Source>, anchor: string, i: int) {
    0 <= i < |os| && os[i].anchorId == anchor && forall j :: 0 <= j < i ==> os[j].anchorId != anchor
  }

  /** The node at a provision's id once an obligation has been mapped. */
  lemma ProvisionStep(ctx: Context, d: Build, o: Source, anchor: string)
    requires ProvisionId(anchor) !in OwnActors(ctx, o)
    ensures var at, t, k := d.nodes.at, MapOne(ctx, d, o).nodes.at, ProvisionId(anchor);
      && (k in at ==> k in t && t[k] == at[k])
      && (k !in at && o.anchorId == anchor ==> k in t && t[k] == ProvisionNode(o))
      && (k !in at && o.anchorId != anchor ==> k !in t)
  {
    hide MapOne, LinkAll, OwnActors, OwnControls, OwnAssets, WithRegulation;
    var k := ProvisionId(anchor);
    ProvisionBase(ctx, d, o, anchor);
    MapOneIsLinks(ctx, d, o);
    NotListed(ctx, o, anchor);
    LinkNodes(Based(ctx, d, o), ObligationId(o.clauseId), ImposesOn, Actor, OwnActors(ctx, o), k);
    LinkNodes(Bound(ctx, d, o), ObligationId(o.clauseId), MapsToControl, Control, OwnControls(ctx, o), k);
    LinkNodes(Controlled(ctx, d, o), ObligationId(o.clauseId), AffectsAsset, Asset, OwnAssets(ctx, o), k);
  }

  lemma NotListed(ctx: Context, o: Source, anchor: string)
    ensures ProvisionId(anchor) !in OwnControls(ctx, o) && ProvisionId(anchor) !in OwnAssets(ctx, o)
  {
    hide KindFor, OwnControls, OwnAssets, ProvisionId;
    KindOfProvision(anchor);
    OwnKinds(ctx, o, ProvisionId(anchor));
  }

  lemma ProvisionBase(ctx: Context, d: Build, o: Source, anchor: string)
    ensures var at, t, k := d.nodes.at, Based(ctx, d, o).nodes.at, ProvisionId(anchor);
      && (k in at ==> k in t && t[k] == at[k])
      && (k !in at && o.anchorId == anchor ==> k in t && t[k] == ProvisionNode(o))
      && (k !in at && o.anchorId != anchor ==> k !in t)
  {
    hide KindFor, RegulationId, ProvisionId, ObligationId;
    KindOfProvision(anchor);
    KindOfObligation(o.clauseId);
    KindOfRegulation(o.instrument, o.sourceVersion);
    if ctx.latestVersion.Some? {
      KindOfRegulation(o.instrument, ctx.latestVersion.value);
    }
    SameProvision(anchor, o.anchorId);
  }

  lemma SameProvision(a: string, b: string)
    ensures ProvisionId(a) == ProvisionId(b) <==> a == b
  {
    SameTail("provision:", a, b);
  }

  /** A provision's node has the instrument and version of the first obligation with its
      anchor, if no actor resolves to it. */
  lemma {:induction false} FirstProvision(ctx: Context, os: seq<Source>, i: nat)
    requires i < |os| && FirstWithAnchor(os, os[i].anchorId, i)
    requires !IsActor(ctx, os, "provision:" + os[i].anchorId)
    ensures var o := os[i];
      Node("provision:" + o.anchorId, Provision,
        Props(None, Some(o.instrument), Some(o.sourceVersion))) in ProposalFor(ctx, os).nodes
  {
    hide MapAll, OwnActors;
    var k := "provision:" + os[i].anchorId;
    ProvisionAt(ctx, os, i, |os|);
    ListedTypes(ctx, os);
    assert os[..|os|] == os;
  }

  lemma {:induction false} ProvisionAt(ctx: Context, os: seq<Source>, i: nat, n: nat)
    requires i < |os| && n <= |os| && FirstWithAnchor(os, os[i].anchorId, i)
    requires !IsActor(ctx, os, ProvisionId(os[i].anchorId))
    ensures var at, k := MapAll(ctx, os[..n]).nodes.at, ProvisionId(os[i].anchorId);
      if n <= i then k !in at else k in at && at[k] == ProvisionNode(os[i])
  {
    hide MapOne, OwnActors, ProvisionId;
    if n > 0 {
      ProvisionAt(ctx, os, i, n - 1);
      assert os[..n][..n - 1] == os[..n - 1] && os[n - 1] in os;
      ProvisionStep(ctx, MapAll(ctx, os[..n - 1]), os[n - 1], os[i].anchorId);
    }
  }

  // ---- How often ----

  lemma {:induction false} LinkTimes(d: Build, src: string, kind: RelType, target: NodeType, ids: seq<string>, e: Edge)
    ensures Times(e, LinkAll(d, src, kind, target, ids).rels)
      == Times(e, d.rels) + if e.src == src && e.kind == kind then Times(e.dst, ids) else 0
  {
    if ids != [] {
      var n := |ids| - 1;
      var before := LinkAll(d, src, kind, target, ids[..n]);
      LinkTimes(d, src, kind, target, ids[..n], e);
      TimesSnoc(e.dst, ids);
      TimesConcat(e, before.rels, [Edge(src, ids[n], kind)]);
    }
  }

  lemma BaseTimes(ctx: Context, d: Build, o: Source, e: Edge)
    requires e.kind == MapsToControl || e.kind == AffectsAsset
    ensures Times(e, Based(ctx, d, o).rels) == Times(e, d.rels)
  {
    hide RegulationId, ObligationId, ProvisionId;
    var t := WithRegulation(ctx, d, o);
    if t.rels != d.rels {
      TimesConcat(e, d.rels, [t.rels[|t.rels| - 1]]);
    }
    TimesConcat(e, t.rels, [Edge(ObligationId(o.clauseId), ProvisionId(o.anchorId), DerivedFrom)]);
  }

  lemma MapOneTimes(ctx: Context, d: Build, o: Source, e: Edge)
    requires e.kind == MapsToControl || e.kind == AffectsAsset
    ensures Times(e, MapOne(ctx, d, o).rels) == Times(e, d.rels) +
      if e.src != ObligationId(o.clauseId) then 0
      else if e.kind == MapsToControl then Times(e.dst, OwnControls(ctx, o))
      else Times(e.dst, OwnAssets(ctx, o))
  {
    hide LinkAll, MapOne, Based, ObligationId, OwnActors, OwnControls, OwnAssets;
    MapOneIsLinks(ctx, d, o);
    BaseTimes(ctx, d, o, e);
    LinkTimes(Based(ctx, d, o), ObligationId(o.clauseId), ImposesOn, Actor, OwnActors(ctx, o), e);
    LinkTimes(Bound(ctx, d, o), ObligationId(o.clauseId), MapsToControl, Control, OwnControls(ctx, o), e);
    LinkTimes(Controlled(ctx, d, o), ObligationId(o.clauseId), AffectsAsset, Asset, OwnAssets(ctx, o), e);
  }

  /** How often the caller lists the entry for the clause. */
  ghost function TimesListed(fixture: map<string, seq<string>>, clause: string, entry: string): nat {
    if clause in fixture then Times(entry, fixture[clause]) else 0
  }

  lemma {:induction false} TimesControl(ks: seq<string>, k: string)
    ensures Times(ControlId(k), ControlIds(ks)) == Times(k, ks)
  {
    if ks != [] {
      var n := |ks| - 1;
      TimesControl(ks[..n], k);
      TimesSnoc(k, ks);
      assert ControlIds(ks) == ControlIds(ks[..n]) + [ControlId(ks[n])];
      TimesConcat(ControlId(k), ControlIds(ks[..n]), [ControlId(ks[n])]);
      SameTail("control:", k, ks[n]);
    }
  }

  lemma {:induction false} TimesAsset(ks: seq<string>, k: string)
    ensures Times(AssetId(k), AssetIds(ks)) == Times(k, ks)
  {
    if ks != [] {
      var n := |ks| - 1;
      TimesAsset(ks[..n], k);
      TimesSnoc(k, ks);
      assert AssetIds(ks) == AssetIds(ks[..n]) + [AssetId(ks[n])];
      TimesConcat(AssetId(k), AssetIds(ks[..n]), [AssetId(ks[n])]);
      SameTail("asset:", k, ks[n]);
    }
  }

  /** Each entry listed for a clause gives one edge per time it is listed and per time
      the clause occurs. */
  lemma {:induction false} FixtureTimes(ctx: Context, os: seq<Source>, clause: string, entry: string)
    ensures Times(Edge("obligation:" + clause, "control:" + entry, MapsToControl), ProposalFor(ctx, os).rels)
      == Occurrences(os, clause) * TimesListed(ctx.controls, clause, entry)
    ensures Times(Edge("obligation:" + clause, "asset:" + entry, AffectsAsset), ProposalFor(ctx, os).rels)
      == Occurrences(os, clause) * TimesListed(ctx.assets, clause, entry)
  {
    hide MapOne;
    if os != [] {
      var front, o := os[..|os| - 1], os[|os| - 1];
      FixtureTimes(ctx, front, clause, entry);
      StepTimes(ctx, MapAll(ctx, front), o, clause, entry);
      OneMoreTimes(Occurrences(front, clause), TimesListed(ctx.controls, clause, entry));
      OneMoreTimes(Occurrences(front, clause), TimesListed(ctx.assets, clause, entry));
    }
  }

  lemma StepTimes(ctx: Context, d: Build, o: Source, clause: string, entry: string)
    ensures var e := Edge("obligation:" + clause, "control:" + entry, MapsToControl);
      Times(e, MapOne(ctx, d, o).rels)
        == Times(e, d.rels) + if o.clauseId == clause then TimesListed(ctx.controls, clause, entry) else 0
    ensures var e := Edge("obligation:" + clause, "asset:" + entry, AffectsAsset);
      Times(e, MapOne(ctx, d, o).rels)
        == Times(e, d.rels) + if o.clauseId == clause then TimesListed(ctx.assets, clause, entry) else 0
  {
    hide MapOne;
    var control := Edge("obligation:" + clause, "control:" + entry, MapsToControl);
    var asset := Edge("obligation:" + clause, "asset:" + entry, AffectsAsset);
    MapOneTimes(ctx, d, o, control);
    MapOneTimes(ctx, d, o, asset);
    SameTail("obligation:", clause, o.clauseId);
    TimesControl(MappedTo(ctx.controls, o.clauseId), entry);
    TimesAsset(MappedTo(ctx.assets, o.clauseId), entry);
  }
}
