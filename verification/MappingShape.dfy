/** What a mapped proposal consists of: each node and each edge stems from one of
    the obligations, and every obligation contributes all of its own. */
module MappingShape {
  import opened Common
  import opened Ontology
  import opened Graph
  import opened Mapping

  // ---- What one obligation contributes ----

  /** The version that a mapping of `version` links to, if any. */
  function Superseded(ctx: Context, version: string): Option<string> {
    if ctx.latestVersion == Some(version) then None else ctx.latestVersion
  }

  function ActorIds(ctx: Context, names: seq<string>): (ids: seq<string>)
    ensures |ids| == |names|
  {
    seq(|names|, i requires 0 <= i < |names| => ActorId(ctx, names[i]))
  }

  function ControlIds(controls: seq<string>): (ids: seq<string>)
    ensures |ids| == |controls|
  {
    seq(|controls|, i requires 0 <= i < |controls| => ControlId(controls[i]))
  }

  function AssetIds(assets: seq<string>): (ids: seq<string>)
    ensures |ids| == |assets|
  {
    seq(|assets|, i requires 0 <= i < |assets| => AssetId(assets[i]))
  }

  function OwnActors(ctx: Context, o: Source): seq<string> {
    ActorIds(ctx, o.actors)
  }

  function OwnControls(ctx: Context, o: Source): seq<string> {
    ControlIds(MappedTo(ctx.controls, o.clauseId))
  }

  function OwnAssets(ctx: Context, o: Source): seq<string> {
    AssetIds(MappedTo(ctx.assets, o.clauseId))
  }

  /** A node that the obligation contributes. */
  predicate IsNodeOf(ctx: Context, o: Source, n: Node) {
    || n == RegulationNode(o.instrument, o.sourceVersion)
    || (Superseded(ctx, o.sourceVersion).Some?
      && n == RegulationNode(o.instrument, Superseded(ctx, o.sourceVersion).value))
    || n == ProvisionNode(o)
    || n == ObligationNode(o)
    || (n.id in OwnActors(ctx, o) && n == BareNode(n.id, Actor))
    || (n.id in OwnControls(ctx, o) && n == BareNode(n.id, Control))
    || (n.id in OwnAssets(ctx, o) && n == BareNode(n.id, Asset))
  }

  /** The link from the obligation's regulation to the one it supersedes. */
  predicate IsSupersedesOf(ctx: Context, o: Source, e: Edge) {
    && Superseded(ctx, o.sourceVersion).Some?
    && e == Edge(RegulationId(o.instrument, o.sourceVersion),
      RegulationId(o.instrument, Superseded(ctx, o.sourceVersion).value), Supersedes)
  }

  /** An edge that the obligation contributes. */
  predicate IsEdgeOf(ctx: Context, o: Source, e: Edge) {
    || IsSupersedesOf(ctx, o, e)
    || e == Edge(ObligationId(o.clauseId), ProvisionId(o.anchorId), DerivedFrom)
    || (e.src == ObligationId(o.clauseId) && e.kind == ImposesOn && e.dst in OwnActors(ctx, o))
    || (e.src == ObligationId(o.clauseId) && e.kind == MapsToControl && e.dst in OwnControls(ctx, o))
    || (e.src == ObligationId(o.clauseId) && e.kind == AffectsAsset && e.dst in OwnAssets(ctx, o))
  }

  // ---- The three linking loops are one ----

  function LinkAll(d: Build, src: string, kind: RelType, target: NodeType, ids: seq<string>): Build {
    if ids == [] then d
    else
      var n := |ids| - 1;
      Link(LinkAll(d, src, kind, target, ids[..n]), BareNode(ids[n], target), Edge(src, ids[n], kind))
  }

  lemma {:induction false} ActorsAreLinks(ctx: Context, d: Build, clause: string, actors: seq<string>)
    ensures WithActors(ctx, d, clause, actors)
      == LinkAll(d, ObligationId(clause), ImposesOn, Actor, ActorIds(ctx, actors))
  {
    hide ActorId, ObligationId;
    if actors == [] {
      assert ActorIds(ctx, actors) == [];
    } else {
      var n := |actors| - 1;
      ActorsAreLinks(ctx, d, clause, actors[..n]);
      assert ActorIds(ctx, actors)[..n] == ActorIds(ctx, actors[..n]);
    }
  }

  lemma {:induction false} ControlsAreLinks(d: Build, clause: string, controls: seq<string>)
    ensures WithControls(d, clause, controls)
      == LinkAll(d, ObligationId(clause), MapsToControl, Control, ControlIds(controls))
  {
    hide ControlId, ObligationId;
    if controls == [] {
      assert ControlIds(controls) == [];
    } else {
      var n := |controls| - 1;
      ControlsAreLinks(d, clause, controls[..n]);
      assert ControlIds(controls)[..n] == ControlIds(controls[..n]);
    }
  }

  lemma {:induction false} AssetsAreLinks(d: Build, clause: string, assets: seq<string>)
    ensures WithAssets(d, clause, assets) == LinkAll(d, ObligationId(clause), AffectsAsset, Asset, AssetIds(assets))
  {
    hide AssetId, ObligationId;
    if assets == [] {
      assert AssetIds(assets) == [];
    } else {
      var n := |assets| - 1;
      AssetsAreLinks(d, clause, assets[..n]);
      assert AssetIds(assets)[..n] == AssetIds(assets[..n]);
    }
  }

  /** The provision and obligation on top of the regulation. */
  function Based(ctx: Context, d: Build, o: Source): Build {
    WithObligation(WithRegulation(ctx, d, o), o)
  }

  function Bound(ctx: Context, d: Build, o: Source): Build {
    LinkAll(Based(ctx, d, o), ObligationId(o.clauseId), ImposesOn, Actor, OwnActors(ctx, o))
  }

  function Controlled(ctx: Context, d: Build, o: Source): Build {
    LinkAll(Bound(ctx, d, o), ObligationId(o.clauseId), MapsToControl, Control, OwnControls(ctx, o))
  }

  lemma MapOneIsLinks(ctx: Context, d: Build, o: Source)
    ensures MapOne(ctx, d, o)
      == LinkAll(Controlled(ctx, d, o), ObligationId(o.clauseId), AffectsAsset, Asset, OwnAssets(ctx, o))
  {
    hide LinkAll, WithActors, WithControls, WithAssets, ObligationId, WithRegulation, WithObligation;
    ActorsAreLinks(ctx, Based(ctx, d, o), o.clauseId, o.actors);
    ControlsAreLinks(Bound(ctx, d, o), o.clauseId, MappedTo(ctx.controls, o.clauseId));
    AssetsAreLinks(Controlled(ctx, d, o), o.clauseId, MappedTo(ctx.assets, o.clauseId));
  }

  // ---- What linking does ----

  /** Linking keeps what is there, adds bare nodes for new ids, and one edge per id. */
  lemma {:induction false} LinkNodes(d: Build, src: string, kind: RelType, target: NodeType, ids: seq<string>,
                                     k: string)
    ensures var t := LinkAll(d, src, kind, target, ids);
      && (k in t.nodes.at <==> k in d.nodes.at || k in ids)
      && (k in t.nodes.at ==> t.nodes.at[k] == if k in d.nodes.at then d.nodes.at[k] else BareNode(k, target))
      && t.regulations == d.regulations
  {
    if ids != [] {
      var n := |ids| - 1;
      assert ids == ids[..n] + [ids[n]];
      LinkNodes(d, src, kind, target, ids[..n], k);
    }
  }

  lemma {:induction false} LinkEdges(d: Build, src: string, kind: RelType, target: NodeType, ids: seq<string>, e: Edge)
    ensures e in LinkAll(d, src, kind, target, ids).rels <==>
      e in d.rels || (e.src == src && e.kind == kind && e.dst in ids)
  {
    if ids != [] {
      var n := |ids| - 1;
      assert ids == ids[..n] + [ids[n]];
      LinkEdges(d, src, kind, target, ids[..n], e);
    }
  }

  // ---- What mapping one obligation does ----

  lemma RegulationNodes(ctx: Context, d: Build, o: Source, k: string)
    ensures var t, r := WithRegulation(ctx, d, o), RegulationId(o.instrument, o.sourceVersion);
      && (k in d.nodes.at ==> k in t.nodes.at && (t.nodes.at[k] == d.nodes.at[k] || t.nodes.at[k] == RegulationNode(o.instrument, o.sourceVersion)))
      && (k in t.nodes.at && k !in d.nodes.at ==> IsNodeOf(ctx, o, t.nodes.at[k]) && t.nodes.at[k].id == k)
      && (k in d.nodes.at && t.nodes.at[k] != d.nodes.at[k] ==> k == r)
      && ((o.instrument, o.sourceVersion) !in d.regulations ==> r in t.nodes.at && t.nodes.at[r].kind == Regulation)
      && ((o.instrument, o.sourceVersion) !in d.regulations && Superseded(ctx, o.sourceVersion).Some? ==>
            RegulationId(o.instrument, Superseded(ctx, o.sourceVersion).value) in t.nodes.at)
      && t.regulations == d.regulations + {(o.instrument, o.sourceVersion)}
  {
    hide RegulationId, ProvisionId, ObligationId, OwnActors, OwnControls, OwnAssets;
  }

  lemma ObligationNodes(ctx: Context, d: Build, o: Source, k: string)
    ensures var t := WithObligation(d, o);
      && (k in d.nodes.at ==> k in t.nodes.at && (t.nodes.at[k] == d.nodes.at[k] || (k == ObligationId(o.clauseId) && t.nodes.at[k] == ObligationNode(o))))
      && (k in t.nodes.at && k !in d.nodes.at ==> IsNodeOf(ctx, o, t.nodes.at[k]) && t.nodes.at[k].id == k)
      && ObligationId(o.clauseId) in t.nodes.at && t.nodes.at[ObligationId(o.clauseId)] == ObligationNode(o)
      && ProvisionId(o.anchorId) in t.nodes.at && t.regulations == d.regulations
  {
    hide RegulationId, ProvisionId, ObligationId, OwnActors, OwnControls, OwnAssets;
  }

  lemma BaseNodes(ctx: Context, d: Build, o: Source, k: string)
    ensures var t, r := Based(ctx, d, o), RegulationId(o.instrument, o.sourceVersion);
      && (k in d.nodes.at ==> k in t.nodes.at && (t.nodes.at[k] == d.nodes.at[k] || (IsNodeOf(ctx, o, t.nodes.at[k]) && t.nodes.at[k].id == k)))
      && (k in d.nodes.at && t.nodes.at[k] != d.nodes.at[k] ==> k == r || k == ObligationId(o.clauseId))
      && (k in t.nodes.at && k !in d.nodes.at ==> IsNodeOf(ctx, o, t.nodes.at[k]) && t.nodes.at[k].id == k)
      && ObligationId(o.clauseId) in t.nodes.at && t.nodes.at[ObligationId(o.clauseId)] == ObligationNode(o)
      && ProvisionId(o.anchorId) in t.nodes.at && t.regulations == d.regulations + {(o.instrument, o.sourceVersion)}
      && ((o.instrument, o.sourceVersion) !in d.regulations ==> r in t.nodes.at && t.nodes.at[r].kind == Regulation)
      && ((o.instrument, o.sourceVersion) !in d.regulations && Superseded(ctx, o.sourceVersion).Some? ==>
            RegulationId(o.instrument, Superseded(ctx, o.sourceVersion).value) in t.nodes.at)
  {
    hide RegulationId, ProvisionId, ObligationId, OwnActors, OwnControls, OwnAssets, WithRegulation, WithObligation;
    var r := RegulationId(o.instrument, o.sourceVersion);
    if Superseded(ctx, o.sourceVersion).Some? {
      ObligationNodes(ctx, WithRegulation(ctx, d, o), o,
        RegulationId(o.instrument, Superseded(ctx, o.sourceVersion).value));
    }
    RegulationNodes(ctx, d, o, k);
    RegulationNodes(ctx, d, o, r);
    ObligationNodes(ctx, WithRegulation(ctx, d, o), o, k);
    ObligationNodes(ctx, WithRegulation(ctx, d, o), o, r);
    NotAnObligation(o.instrument, o.sourceVersion, o.clauseId);
  }

  lemma NotAnObligation(instrument: string, version: string, clause: string)
    ensures RegulationId(instrument, version) != ObligationId(clause)
  {
    assert RegulationId(instrument, version)[0] == 'r' && ObligationId(clause)[0] == 'o';
  }

  /** A node is kept or replaced by one of the obligation's; the rest are its own. */
  lemma MapOneNodes(ctx: Context, d: Build, o: Source, k: string)
    ensures var t, b := MapOne(ctx, d, o), Based(ctx, d, o);
      && (k in b.nodes.at ==> k in t.nodes.at && t.nodes.at[k] == b.nodes.at[k])
      && (k in t.nodes.at && k !in b.nodes.at ==> IsNodeOf(ctx, o, t.nodes.at[k]) && t.nodes.at[k].id == k)
      && (k in OwnActors(ctx, o) || k in OwnControls(ctx, o) || k in OwnAssets(ctx, o) ==> k in t.nodes.at)
      && t.regulations == b.regulations
  {
    hide LinkAll, MapOne, Based, OwnActors, OwnControls, OwnAssets, ObligationId;
    MapOneIsLinks(ctx, d, o);
    LinkNodes(Based(ctx, d, o), ObligationId(o.clauseId), ImposesOn, Actor, OwnActors(ctx, o), k);
    LinkNodes(Bound(ctx, d, o), ObligationId(o.clauseId), MapsToControl, Control, OwnControls(ctx, o), k);
    LinkNodes(Controlled(ctx, d, o), ObligationId(o.clauseId), AffectsAsset, Asset, OwnAssets(ctx, o), k);
  }

  lemma MapOneEdges(ctx: Context, d: Build, o: Source, e: Edge)
    ensures e in MapOne(ctx, d, o).rels <==>
      if (o.instrument, o.sourceVersion) in d.regulations && IsSupersedesOf(ctx, o, e) then e in d.rels
      else e in d.rels || IsEdgeOf(ctx, o, e)
  {
    hide LinkAll, MapOne, OwnActors, OwnControls, OwnAssets, ObligationId, ProvisionId, RegulationId;
    MapOneIsLinks(ctx, d, o);
    LinkEdges(Based(ctx, d, o), ObligationId(o.clauseId), ImposesOn, Actor, OwnActors(ctx, o), e);
    LinkEdges(Bound(ctx, d, o), ObligationId(o.clauseId), MapsToControl, Control, OwnControls(ctx, o), e);
    LinkEdges(Controlled(ctx, d, o), ObligationId(o.clauseId), AffectsAsset, Asset, OwnAssets(ctx, o), e);
  }

  // ---- The whole mapping ----

  /** The node stands at its id and stems from one of the obligations. */
  ghost predicate Stems(ctx: Context, os: seq<Source>, k: string, n: Node) {
    n.id == k && exists o :: o in os && IsNodeOf(ctx, o, n)
  }

  ghost predicate HasKind(d: Build, k: string, kind: NodeType) {
    k in d.nodes.at && d.nodes.at[k].kind == kind
  }

  /** The obligation's own nodes are there, with their types. */
  ghost predicate Mapped(d: Build, o: Source) {
    && HasKind(d, ObligationId(o.clauseId), Obligation)
    && HasKind(d, RegulationId(o.instrument, o.sourceVersion), Regulation)
    && (o.instrument, o.sourceVersion) in d.regulations
  }

  ghost predicate FromSome(ctx: Context, os: seq<Source>, e: Edge) {
    exists o :: o in os && IsEdgeOf(ctx, o, e)
  }

  ghost predicate SameRegulation(os: seq<Source>, r: (string, string)) {
    exists o :: o in os && (o.instrument, o.sourceVersion) == r
  }

  ghost predicate Shape(ctx: Context, os: seq<Source>, d: Build) {
    && (forall k :: k in d.nodes.at ==> Stems(ctx, os, k, d.nodes.at[k]))
    && (forall o :: o in os ==> Mapped(d, o))
    && (forall r :: r in d.regulations ==> SameRegulation(os, r))
    && (forall e :: e in d.rels <==> FromSome(ctx, os, e))
    && (forall e :: e in d.rels ==> e.src in d.nodes.at && e.dst in d.nodes.at)
  }

  lemma Snoc(os: seq<Source>)
    requires os != []
    ensures forall o :: o in os <==> o in os[..|os| - 1] || o == os[|os| - 1]
  {
    assert os == os[..|os| - 1] + [os[|os| - 1]];
  }

  lemma NodesStem(ctx: Context, os: seq<Source>, d: Build, k: string)
    requires os != [] && Shape(ctx, os[..|os| - 1], d)
    requires k in MapOne(ctx, d, os[|os| - 1]).nodes.at
    ensures Stems(ctx, os, k, MapOne(ctx, d, os[|os| - 1]).nodes.at[k])
  {
    hide MapOne, Based, IsNodeOf, IsEdgeOf, Mapped;
    var o := os[|os| - 1];
    Snoc(os);
    BaseNodes(ctx, d, o, k);
    MapOneNodes(ctx, d, o, k);
    if k in d.nodes.at {
      assert Stems(ctx, os[..|os| - 1], k, d.nodes.at[k]);
    }
  }

  lemma KindStays(ctx: Context, d: Build, o: Source, k: string, kind: NodeType)
    requires HasKind(d, k, kind)
    requires kind == Regulation ==> k != ObligationId(o.clauseId)
    requires kind == Obligation ==> k != RegulationId(o.instrument, o.sourceVersion)
    requires kind == Regulation || kind == Obligation
    ensures HasKind(MapOne(ctx, d, o), k, kind)
  {
    hide MapOne, RegulationId, ObligationId, ProvisionId, OwnActors, OwnControls, OwnAssets;
    BaseKind(ctx, d, o, k, kind);
    MapOneNodes(ctx, d, o, k);
  }

  lemma BaseKind(ctx: Context, d: Build, o: Source, k: string, kind: NodeType)
    requires HasKind(d, k, kind)
    requires kind == Regulation ==> k != ObligationId(o.clauseId)
    requires kind == Obligation ==> k != RegulationId(o.instrument, o.sourceVersion)
    requires kind == Regulation || kind == Obligation
    ensures HasKind(Based(ctx, d, o), k, kind)
  {
    hide RegulationId, ObligationId, ProvisionId;
  }

  lemma MappedStays(ctx: Context, d: Build, o: Source, x: Source)
    requires Mapped(d, x) || x == o
    requires x == o && (o.instrument, o.sourceVersion) in d.regulations ==>
      HasKind(d, RegulationId(o.instrument, o.sourceVersion), Regulation)
    ensures Mapped(MapOne(ctx, d, o), x)
  {
    hide MapOne, Based, RegulationId, ObligationId, IsNodeOf;
    var r, id := RegulationId(x.instrument, x.sourceVersion), ObligationId(x.clauseId);
    NotAnObligation(x.instrument, x.sourceVersion, o.clauseId);
    NotAnObligation(o.instrument, o.sourceVersion, x.clauseId);
    BaseNodes(ctx, d, o, r);
    MapOneNodes(ctx, d, o, r);
    MapOneNodes(ctx, d, o, id);
    if x == o {
      if (o.instrument, o.sourceVersion) in d.regulations {
        KindStays(ctx, d, o, r, Regulation);
      }
      ObligationNodeKind(o);
    } else {
      KindStays(ctx, d, o, r, Regulation);
      KindStays(ctx, d, o, id, Obligation);
    }
  }

  lemma ObligationNodeKind(o: Source)
    ensures ObligationNode(o).kind == Obligation
  {
  }

  lemma EdgesStem(ctx: Context, os: seq<Source>, d: Build, e: Edge)
    requires os != [] && Shape(ctx, os[..|os| - 1], d)
    ensures e in MapOne(ctx, d, os[|os| - 1]).rels <==> FromSome(ctx, os, e)
  {
    hide MapOne, IsNodeOf, RegulationId, ObligationId, ProvisionId, OwnActors, OwnControls, OwnAssets, Stems, Mapped;
    var front, o := os[..|os| - 1], os[|os| - 1];
    Snoc(os);
    MapOneEdges(ctx, d, o, e);
    assert e in d.rels <==> FromSome(ctx, front, e);
    if (o.instrument, o.sourceVersion) in d.regulations && IsSupersedesOf(ctx, o, e) {
      assert SameRegulation(front, (o.instrument, o.sourceVersion));
      var x :| x in front && (x.instrument, x.sourceVersion) == (o.instrument, o.sourceVersion);
      assert IsSupersedesOf(ctx, x, e);
      assert IsEdgeOf(ctx, x, e);
    }
  }

  lemma EdgesClosed(ctx: Context, d: Build, o: Source, e: Edge)
    requires e in d.rels ==> e.src in d.nodes.at && e.dst in d.nodes.at
    requires e in MapOne(ctx, d, o).rels
    ensures e.src in MapOne(ctx, d, o).nodes.at && e.dst in MapOne(ctx, d, o).nodes.at
  {
    hide MapOne, Based, IsNodeOf, RegulationId, ObligationId, ProvisionId, OwnActors, OwnControls, OwnAssets;
    MapOneEdges(ctx, d, o, e);
    BaseNodes(ctx, d, o, e.src);
    BaseNodes(ctx, d, o, e.dst);
    MapOneNodes(ctx, d, o, e.src);
    MapOneNodes(ctx, d, o, e.dst);
  }

  /** Every node and edge of the mapping stems from an obligation, every obligation's
      regulation and obligation nodes keep their types, all edges of all obligations
      are there, and no edge dangles. */
  lemma {:induction false} MapAllShape(ctx: Context, os: seq<Source>)
    ensures Shape(ctx, os, MapAll(ctx, os))
  {
    hide Stems, Mapped, FromSome, SameRegulation, MapOne;
    if os == [] {
      NothingStems(ctx);
    } else {
      var front, o := os[..|os| - 1], os[|os| - 1];
      var d := MapAll(ctx, front);
      var t := MapOne(ctx, d, o);
      MapAllShape(ctx, front);
      Snoc(os);
      forall k | k in t.nodes.at ensures Stems(ctx, os, k, t.nodes.at[k]) {
        NodesStem(ctx, os, d, k);
      }
      forall x | x in os ensures Mapped(t, x) {
        RegulationKnown(front, d, o);
        MappedStays(ctx, d, o, x);
      }
      forall r | r in t.regulations ensures SameRegulation(os, r) {
        RegulationsFrom(ctx, os, d, r);
      }
      forall e ensures e in t.rels <==> FromSome(ctx, os, e) {
        EdgesStem(ctx, os, d, e);
      }
      forall e | e in t.rels ensures e.src in t.nodes.at && e.dst in t.nodes.at {
        EdgesClosed(ctx, d, o, e);
      }
    }
  }

  lemma NothingStems(ctx: Context)
    ensures Shape(ctx, [], MapAll(ctx, []))
  {
  }

  lemma RegulationKnown(os: seq<Source>, d: Build, o: Source)
    requires forall x :: x in os ==> Mapped(d, x)
    requires (o.instrument, o.sourceVersion) in d.regulations ==> SameRegulation(os, (o.instrument, o.sourceVersion))
    ensures (o.instrument, o.sourceVersion) in d.regulations ==>
      HasKind(d, RegulationId(o.instrument, o.sourceVersion), Regulation)
  {
    if (o.instrument, o.sourceVersion) in d.regulations {
      var x :| x in os && (x.instrument, x.sourceVersion) == (o.instrument, o.sourceVersion);
      assert Mapped(d, x);
    }
  }

  lemma RegulationsFrom(ctx: Context, os: seq<Source>, d: Build, r: (string, string))
    requires os != [] && (forall q :: q in d.regulations ==> SameRegulation(os[..|os| - 1], q))
    requires r in MapOne(ctx, d, os[|os| - 1]).regulations
    ensures SameRegulation(os, r)
  {
    hide MapOne, Based;
    var o := os[|os| - 1];
    Snoc(os);
    BaseNodes(ctx, d, o, "");
    MapOneNodes(ctx, d, o, "");
  }

  // ---- How many edges ----

  /** Edges of one kind out of one node. */
  function Degree(d: Build, id: string, kind: RelType): nat {
    |EdgesFrom(d.rels, id, kind)|
  }

  lemma {:induction false} LinkDegree(d: Build, src: string, kind: RelType, target: NodeType, ids: seq<string>,
                                      x: string, r: RelType)
    ensures Degree(LinkAll(d, src, kind, target, ids), x, r) == Degree(d, x, r) + if x == src && r == kind then |ids|
      else 0
  {
    if ids != [] {
      var n := |ids| - 1;
      var before := LinkAll(d, src, kind, target, ids[..n]);
      LinkDegree(d, src, kind, target, ids[..n], x, r);
      assert (before.rels + [Edge(src, ids[n], kind)])[..|before.rels|] == before.rels;
    }
  }

  lemma OneMore(rels: seq<Edge>, e: Edge, x: string, r: RelType)
    ensures |EdgesFrom(rels + [e], x, r)| == |EdgesFrom(rels, x, r)| + if e.src == x && e.kind == r then 1 else 0
  {
    assert (rels + [e])[..|rels|] == rels;
  }

  lemma RegulationDegree(ctx: Context, d: Build, o: Source, x: string, r: RelType)
    requires r != Supersedes
    ensures Degree(WithRegulation(ctx, d, o), x, r) == Degree(d, x, r)
  {
    hide RegulationId;
    var t := WithRegulation(ctx, d, o);
    if t.rels != d.rels {
      OneMore(d.rels, t.rels[|t.rels| - 1], x, r);
    }
  }

  lemma BaseDegree(ctx: Context, d: Build, o: Source, x: string)
    ensures Degree(Based(ctx, d, o), x, DerivedFrom) == Degree(d, x, DerivedFrom) + if x
      == ObligationId(o.clauseId) then 1 else 0
    ensures Degree(Based(ctx, d, o), x, ImposesOn) == Degree(d, x, ImposesOn)
  {
    hide RegulationId, ObligationId, ProvisionId, WithRegulation;
    var t := WithRegulation(ctx, d, o);
    var e := Edge(ObligationId(o.clauseId), ProvisionId(o.anchorId), DerivedFrom);
    RegulationDegree(ctx, d, o, x, DerivedFrom);
    RegulationDegree(ctx, d, o, x, ImposesOn);
    OneMore(t.rels, e, x, DerivedFrom);
    OneMore(t.rels, e, x, ImposesOn);
  }

  lemma BaseFixtureDegree(ctx: Context, d: Build, o: Source, x: string, r: RelType)
    requires r == MapsToControl || r == AffectsAsset
    ensures Degree(Based(ctx, d, o), x, r) == Degree(d, x, r)
  {
    hide RegulationId, ObligationId, ProvisionId, WithRegulation;
    var t := WithRegulation(ctx, d, o);
    RegulationDegree(ctx, d, o, x, r);
    OneMore(t.rels, Edge(ObligationId(o.clauseId), ProvisionId(o.anchorId), DerivedFrom), x, r);
  }

  lemma LinksDegree(ctx: Context, d: Build, o: Source, x: string, r: RelType)
    ensures Degree(MapOne(ctx, d, o), x, r) == Degree(Based(ctx, d, o), x, r) +
      if x != ObligationId(o.clauseId) then 0
      else if r == ImposesOn then |o.actors|
      else if r == MapsToControl then |OwnControls(ctx, o)|
      else if r == AffectsAsset then |OwnAssets(ctx, o)|
      else 0
  {
    hide LinkAll, MapOne, Based, Degree, ObligationId, OwnControls, OwnAssets;
    MapOneIsLinks(ctx, d, o);
    LinkDegree(Based(ctx, d, o), ObligationId(o.clauseId), ImposesOn, Actor, OwnActors(ctx, o), x, r);
    LinkDegree(Bound(ctx, d, o), ObligationId(o.clauseId), MapsToControl, Control, OwnControls(ctx, o), x, r);
    LinkDegree(Controlled(ctx, d, o), ObligationId(o.clauseId), AffectsAsset, Asset, OwnAssets(ctx, o), x, r);
  }

  /** How many entries the caller's map has for the clause. */
  ghost function Entries(fixture: map<string, seq<string>>, clause: string): nat {
    if clause in fixture then |fixture[clause]| else 0
  }

  lemma MapOneDegree(ctx: Context, d: Build, o: Source, x: string)
    ensures var t, own := MapOne(ctx, d, o), x == ObligationId(o.clauseId);
      && Degree(t, x, DerivedFrom) == Degree(d, x, DerivedFrom) + (if own then 1 else 0)
      && Degree(t, x, ImposesOn) == Degree(d, x, ImposesOn) + (if own then |o.actors| else 0)
      && Degree(t, x, MapsToControl)
        == Degree(d, x, MapsToControl) + (if own then Entries(ctx.controls, o.clauseId) else 0)
      && Degree(t, x, AffectsAsset)
        == Degree(d, x, AffectsAsset) + (if own then Entries(ctx.assets, o.clauseId) else 0)
  {
    hide MapOne, Based, Degree, ObligationId;
    BaseDegree(ctx, d, o, x);
    BaseFixtureDegree(ctx, d, o, x, MapsToControl);
    BaseFixtureDegree(ctx, d, o, x, AffectsAsset);
    LinksDegree(ctx, d, o, x, DerivedFrom);
    LinksDegree(ctx, d, o, x, ImposesOn);
    LinksDegree(ctx, d, o, x, MapsToControl);
    LinksDegree(ctx, d, o, x, AffectsAsset);
  }

  /** How many obligations carry the clause id. */
  function Occurrences(os: seq<Source>, clause: string): nat {
    CountIf((o: Source) => o.clauseId == clause, os)
  }

  /** Actor names over all obligations that carry the clause id. */
  function ActorTotal(os: seq<Source>, clause: string): nat {
    if os == [] then 0
    else ActorTotal(os[..|os| - 1], clause) + if os[|os| - 1].clauseId == clause then |os[|os| - 1].actors| else 0
  }

  /** One DERIVED_FROM edge per occurrence of a clause, one IMPOSES_ON edge per actor
      it names, and with each occurrence one MAPS_TO_CONTROL and one AFFECTS_ASSET edge
      per entry that the caller supplied for the clause. */
  lemma {:induction false} MapAllDegrees(ctx: Context, os: seq<Source>, clause: string)
    ensures Degree(MapAll(ctx, os), ObligationId(clause), DerivedFrom) == Occurrences(os, clause)
    ensures Degree(MapAll(ctx, os), ObligationId(clause), ImposesOn) == ActorTotal(os, clause)
    ensures Degree(MapAll(ctx, os), ObligationId(clause), MapsToControl)
      == Occurrences(os, clause) * Entries(ctx.controls, clause)
    ensures Degree(MapAll(ctx, os), ObligationId(clause), AffectsAsset)
      == Occurrences(os, clause) * Entries(ctx.assets, clause)
  {
    hide MapOne, Degree, ObligationId, Entries;
    if os == [] {
      NoDegree(clause, ctx);
    } else {
      var front, o := os[..|os| - 1], os[|os| - 1];
      MapAllDegrees(ctx, front, clause);
      MapOneDegree(ctx, MapAll(ctx, front), o, ObligationId(clause));
      if ObligationId(clause) == ObligationId(o.clauseId) {
        ObligationIdInjective(clause, o.clauseId);
        OneMoreTimes(Occurrences(front, clause), Entries(ctx.controls, clause));
        OneMoreTimes(Occurrences(front, clause), Entries(ctx.assets, clause));
      }
    }
  }

  lemma OneMoreTimes(n: nat, m: nat)
    ensures (n + 1) * m == n * m + m
  {
  }

  lemma NoDegree(clause: string, ctx: Context)
    ensures forall kind :: Degree(MapAll(ctx, []), ObligationId(clause), kind) == 0
  {
  }
}
