/** When a mapped proposal type-checks: exactly when the clause ids are distinct,
    every obligation names an actor, and no actor resolves to a node of another
    type. */
module MappingTypeChecks {
  import opened Common
  import opened Ontology
  import opened Graph
  import opened Constraints
  import opened Mapping
  import opened MappingShape
  import opened ProofPathPattern

  // ---- Actors that resolve to other nodes ----

  /** The obligation uses the id for a node that is not an actor. */
  predicate OtherIdOf(ctx: Context, o: Source, id: string) {
    || id == RegulationId(o.instrument, o.sourceVersion)
    || (Superseded(ctx, o.sourceVersion).Some?
      && id == RegulationId(o.instrument, Superseded(ctx, o.sourceVersion).value))
    || id == ProvisionId(o.anchorId) || id == ObligationId(o.clauseId)
    || id in OwnControls(ctx, o) || id in OwnAssets(ctx, o)
  }

  ghost predicate OtherId(ctx: Context, os: seq<Source>, id: string) {
    exists o :: o in os && OtherIdOf(ctx, o, id)
  }

  ghost predicate IsActor(ctx: Context, os: seq<Source>, id: string) {
    exists o :: o in os && id in OwnActors(ctx, o)
  }

  /** No actor of the obligations resolves to an id that they use for a regulation,
      a superseded regulation, a provision, an obligation, a control or an asset. */
  ghost predicate ActorsApart(ctx: Context, os: seq<Source>) {
    forall id :: IsActor(ctx, os, id) ==> !OtherId(ctx, os, id)
  }

  /** Every existing entity's id has the type of an actor by its prefix. An empty id
      is allowed: the mapping does not use it. */
  ghost predicate ActorIdsOk(ctx: Context) {
    forall e :: e in ctx.existing ==> KindFor(e.id) == Actor
  }

  lemma ActorKind(ctx: Context, name: string)
    requires ActorIdsOk(ctx)
    ensures KindFor(ActorId(ctx, name)) == Actor
  {
    hide KindFor;
    KindOfFreshActor(ctx.slug(name));
  }

  lemma OtherKind(ctx: Context, o: Source, n: Node)
    requires IsNodeOf(ctx, o, n)
    ensures (n.id in OwnActors(ctx, o) && n.kind == Actor) || (OtherIdOf(ctx, o, n.id) && n.kind == KindFor(n.id))
  {
    hide KindFor, RegulationId, ProvisionId, ObligationId, OwnActors, OwnControls, OwnAssets;
    KindOfRegulation(o.instrument, o.sourceVersion);
    if Superseded(ctx, o.sourceVersion).Some? {
      KindOfRegulation(o.instrument, Superseded(ctx, o.sourceVersion).value);
    }
    KindOfProvision(o.anchorId);
    KindOfObligation(o.clauseId);
    OwnKinds(ctx, o, n.id);
  }

  lemma OwnKinds(ctx: Context, o: Source, id: string)
    ensures id in OwnControls(ctx, o) ==> KindFor(id) == Control
    ensures id in OwnAssets(ctx, o) ==> KindFor(id) == Asset
    ensures id in OwnActors(ctx, o) && ActorIdsOk(ctx) ==> KindFor(id) == Actor
  {
    hide KindFor, ControlId, AssetId, ActorId;
    if id in OwnControls(ctx, o) {
      var i :| 0 <= i < |OwnControls(ctx, o)| && OwnControls(ctx, o)[i] == id;
      KindOfControl(MappedTo(ctx.controls, o.clauseId)[i]);
    }
    if id in OwnAssets(ctx, o) {
      var i :| 0 <= i < |OwnAssets(ctx, o)| && OwnAssets(ctx, o)[i] == id;
      KindOfAsset(MappedTo(ctx.assets, o.clauseId)[i]);
    }
    if id in OwnActors(ctx, o) && ActorIdsOk(ctx) {
      var i :| 0 <= i < |OwnActors(ctx, o)| && OwnActors(ctx, o)[i] == id;
      ActorKind(ctx, o.actors[i]);
    }
  }

  lemma OtherIdKind(ctx: Context, o: Source, id: string)
    requires OtherIdOf(ctx, o, id)
    ensures KindFor(id) != Actor
  {
    hide KindFor, RegulationId, ProvisionId, ObligationId, OwnActors, OwnControls, OwnAssets;
    KindOfRegulation(o.instrument, o.sourceVersion);
    if Superseded(ctx, o.sourceVersion).Some? {
      KindOfRegulation(o.instrument, Superseded(ctx, o.sourceVersion).value);
    }
    KindOfProvision(o.anchorId);
    KindOfObligation(o.clauseId);
    OwnKinds(ctx, o, id);
  }

  /** Entities whose ids all begin as actor ids should never clash. */
  lemma KnownActorsApart(ctx: Context, os: seq<Source>)
    requires ActorIdsOk(ctx)
    ensures ActorsApart(ctx, os)
  {
    hide KindFor, OtherIdOf, OwnActors;
    forall id | IsActor(ctx, os, id) ensures !OtherId(ctx, os, id) {
      var o :| o in os && id in OwnActors(ctx, o);
      OwnKinds(ctx, o, id);
      forall x | x in os ensures !OtherIdOf(ctx, x, id) {
        if OtherIdOf(ctx, x, id) {
          OtherIdKind(ctx, x, id);
        }
      }
    }
  }

  // ---- Node types ----

  /** The listed nodes and their types are those of the dictionary. */
  lemma ListedTypes(ctx: Context, os: seq<Source>)
    ensures var d, nodes := MapAll(ctx, os), ProposalFor(ctx, os).nodes; var types := NodeTypes(nodes);
      && d.nodes.Valid() && (forall k :: k in d.nodes.at ==> d.nodes.at[k].id == k)
      && types.Keys == d.nodes.at.Keys
      && (forall k :: k in types ==> types[k] == d.nodes.at[k].kind)
      && (forall n :: n in nodes <==> n.id in d.nodes.at && d.nodes.at[n.id] == n)
  {
    hide ById, NodeTypes, MapAll, IsNodeOf, Mapped, FromSome, SameRegulation;
    var d := MapAll(ctx, os);
    MapAllShape(ctx, os);
    NodesValid(ctx, os);
    forall k | k in d.nodes.at ensures d.nodes.at[k].id == k {
      assert Stems(ctx, os, k, d.nodes.at[k]);
    }
    ByIdOfValues(d.nodes);
    TypesOfNodes(d.nodes.Values());
    ListedNodes(d);
  }

  lemma ListedNodes(d: Build)
    requires d.nodes.Valid() && forall k :: k in d.nodes.at ==> d.nodes.at[k].id == k
    ensures forall n :: n in d.nodes.Values() <==> n.id in d.nodes.at && d.nodes.at[n.id] == n
  {
    var nodes := d.nodes.Values();
    forall n ensures n in nodes <==> n.id in d.nodes.at && d.nodes.at[n.id] == n {
      if n in nodes {
        var i :| 0 <= i < |nodes| && nodes[i] == n;
        assert d.nodes.keys[i] in d.nodes.keys;
      }
      if n.id in d.nodes.at && d.nodes.at[n.id] == n {
        assert n.id in d.nodes.keys;
        var i :| 0 <= i < |d.nodes.keys| && d.nodes.keys[i] == n.id;
        assert nodes[i] == n;
      }
    }
  }

  /** The types of the mapping's nodes when no actor clashes. */
  lemma KindsApart(ctx: Context, os: seq<Source>, k: string)
    requires ActorsApart(ctx, os) && k in MapAll(ctx, os).nodes.at
    ensures MapAll(ctx, os).nodes.at[k].kind == if IsActor(ctx, os, k) then Actor else KindFor(k)
  {
    hide KindFor, MapAll, IsNodeOf, OtherIdOf, OwnActors, Mapped, FromSome, SameRegulation;
    MapAllShape(ctx, os);
    var n := MapAll(ctx, os).nodes.at[k];
    assert Stems(ctx, os, k, n);
    var o :| o in os && IsNodeOf(ctx, o, n);
    OtherKind(ctx, o, n);
    if OtherIdOf(ctx, o, k) {
      assert OtherId(ctx, os, k);
    }
  }

  lemma PairsUsed()
    ensures IsPairAllowed(DerivedFrom, Obligation, Provision) && IsPairAllowed(ImposesOn, Obligation, Actor)
    ensures IsPairAllowed(MapsToControl, Obligation, Control) && IsPairAllowed(AffectsAsset, Obligation, Asset)
    ensures IsPairAllowed(Supersedes, Regulation, Regulation)
  {
    DerivedFromPairs(Obligation, Provision);
    MapsToControlPairs(Obligation, Control);
    AffectsAssetPairs(Obligation, Asset);
  }

  /** The type an id must have for the obligation's edges to be allowed. */
  lemma EdgeEnds(ctx: Context, o: Source, e: Edge)
    requires IsEdgeOf(ctx, o, e)
    ensures OtherIdOf(ctx, o, e.src)
    ensures e.kind == ImposesOn ==> e.dst in OwnActors(ctx, o)
    ensures e.kind != ImposesOn ==> OtherIdOf(ctx, o, e.dst)
    ensures IsPairAllowed(e.kind, KindFor(e.src), if e.kind == ImposesOn then Actor else KindFor(e.dst))
  {
    hide KindFor, IsPairAllowed, RegulationId, ProvisionId, ObligationId, OwnActors, OwnControls, OwnAssets;
    PairsUsed();
    KindOfRegulation(o.instrument, o.sourceVersion);
    if Superseded(ctx, o.sourceVersion).Some? {
      KindOfRegulation(o.instrument, Superseded(ctx, o.sourceVersion).value);
    }
    KindOfProvision(o.anchorId);
    KindOfObligation(o.clauseId);
    OwnKinds(ctx, o, e.dst);
  }

  /** Without a clash every edge is well typed. */
  lemma ApartIsTyped(ctx: Context, os: seq<Source>)
    requires ActorsApart(ctx, os)
    ensures var p := ProposalFor(ctx, os); EdgesWellTyped(p.nodes, p.rels)
  {
    hide KindFor, MapAll, IsNodeOf, OtherIdOf, OwnActors, IsPairAllowed, NodeTypes, Mapped, Stems, IsEdgeOf;
    hide SameRegulation;
    var d := MapAll(ctx, os);
    MapAllShape(ctx, os);
    ListedTypes(ctx, os);
    var types := NodeTypes(ProposalFor(ctx, os).nodes);
    forall e | e in d.rels
      ensures e.src in types && e.dst in types && IsPairAllowed(e.kind, types[e.src], types[e.dst])
    {
      assert FromSome(ctx, os, e);
      var o :| o in os && IsEdgeOf(ctx, o, e);
      EdgeEnds(ctx, o, e);
      KindsApart(ctx, os, e.src);
      KindsApart(ctx, os, e.dst);
      assert OtherId(ctx, os, e.src);
      if e.kind == ImposesOn {
        assert IsActor(ctx, os, e.dst);
      } else {
        assert OtherId(ctx, os, e.dst);
      }
    }
  }

  /** Well-typed edges fix the type of every id that an obligation uses. */
  lemma TypedEnds(ctx: Context, os: seq<Source>, o: Source, id: string)
    requires var p := ProposalFor(ctx, os); EdgesWellTyped(p.nodes, p.rels)
    requires o in os
    ensures var at := MapAll(ctx, os).nodes.at;
      && (OtherIdOf(ctx, o, id) ==> id in at && at[id].kind != Actor)
      && (id in OwnActors(ctx, o) ==> id in at && at[id].kind == Actor)
  {
    hide MapAll, IsNodeOf, IsEdgeOf, OwnActors, OwnControls, OwnAssets, IsPairAllowed, NodeTypes, Stems, SameRegulation;
    hide RegulationId, ProvisionId, ObligationId;
    var d := MapAll(ctx, os);
    var src := ObligationId(o.clauseId);
    MapAllShape(ctx, os);
    ListedTypes(ctx, os);
    var types := NodeTypes(ProposalFor(ctx, os).nodes);
    assert Mapped(d, o);
    forall e | IsEdgeOf(ctx, o, e)
      ensures e in d.rels && e.dst in types && IsPairAllowed(e.kind, types[e.src], types[e.dst])
    {
      assert FromSome(ctx, os, e);
    }
    UsedEdge(ctx, o, id, types);
  }

  lemma UsedEdge(ctx: Context, o: Source, id: string, types: map<string, NodeType>)
    requires forall e :: IsEdgeOf(ctx, o, e) ==>
      e.src in types && e.dst in types && IsPairAllowed(e.kind, types[e.src], types[e.dst])
    ensures id in OwnActors(ctx, o) ==> id in types && types[id] == Actor
    ensures id in OwnControls(ctx, o) ==> id in types && types[id] == Control
    ensures id in OwnAssets(ctx, o) ==> id in types && types[id] == Asset
    ensures id == ProvisionId(o.anchorId) ==> id in types && types[id] == Provision
    ensures Superseded(ctx, o.sourceVersion).Some? && id == RegulationId(o.instrument, Superseded(ctx, o.sourceVersion).value) ==>
      id in types && types[id] == Regulation
  {
    hide OwnActors, OwnControls, OwnAssets, IsPairAllowed, RegulationId, ProvisionId, ObligationId;
    var src := ObligationId(o.clauseId);
    forall kind, a, b
      ensures kind == ImposesOn && IsPairAllowed(kind, a, b) ==> b == Actor
      ensures kind == MapsToControl && IsPairAllowed(kind, a, b) ==> b == Control
      ensures kind == AffectsAsset && IsPairAllowed(kind, a, b) ==> b == Asset
      ensures kind == DerivedFrom && IsPairAllowed(kind, a, b) ==> b == Provision
      ensures kind == Supersedes && IsPairAllowed(kind, a, b) ==> b == Regulation
    {
      ImposesOnPairs(a, b);
      MapsToControlPairs(a, b);
      AffectsAssetPairs(a, b);
      DerivedFromPairs(a, b);
      SupersedesPairs(a, b);
    }
    assert IsEdgeOf(ctx, o, Edge(src, ProvisionId(o.anchorId), DerivedFrom));
    assert id in OwnActors(ctx, o) ==> IsEdgeOf(ctx, o, Edge(src, id, ImposesOn));
    assert id in OwnControls(ctx, o) ==> IsEdgeOf(ctx, o, Edge(src, id, MapsToControl));
    assert id in OwnAssets(ctx, o) ==> IsEdgeOf(ctx, o, Edge(src, id, AffectsAsset));
    if Superseded(ctx, o.sourceVersion).Some? {
      var prior := RegulationId(o.instrument, Superseded(ctx, o.sourceVersion).value);
      assert IsEdgeOf(ctx, o, Edge(RegulationId(o.instrument, o.sourceVersion), prior, Supersedes));
    }
  }

  /** Every edge of a mapped proposal is well typed if and only if no actor resolves
      to a node of another type. */
  lemma TypedIffApart(ctx: Context, os: seq<Source>)
    ensures var p := ProposalFor(ctx, os); EdgesWellTyped(p.nodes, p.rels) <==> ActorsApart(ctx, os)
  {
    hide EdgesWellTyped, ProposalFor, MapAll, OtherIdOf, OwnActors;
    if ActorsApart(ctx, os) {
      ApartIsTyped(ctx, os);
    }
    if EdgesWellTyped(ProposalFor(ctx, os).nodes, ProposalFor(ctx, os).rels) {
      forall id | IsActor(ctx, os, id) ensures !OtherId(ctx, os, id) {
        var o :| o in os && id in OwnActors(ctx, o);
        TypedEnds(ctx, os, o, id);
        forall x | x in os ensures !OtherIdOf(ctx, x, id) {
          TypedEnds(ctx, os, x, id);
        }
      }
    }
  }

  // ---- Grounded obligations ----

  /** When all targets have the type a rule asks for, it counts every edge. */
  lemma {:induction false} TypedCountIsDegree(rels: seq<Edge>, id: string, kind: RelType, target: NodeType,
                                              types: map<string, NodeType>)
    requires forall e :: e in rels && e.kind == kind ==> TypeOf(types, e.dst) == Some(target)
    ensures TypedCount(rels, id, kind, target, types) == |EdgesFrom(rels, id, kind)|
  {
    if rels != [] {
      var n := |rels| - 1;
      assert rels == rels[..n] + [rels[n]];
      TypedCountIsDegree(rels[..n], id, kind, target, types);
      TypedCountSnoc(rels, n, id, kind, target, types);
      assert rels[..n + 1] == rels;
    }
  }

  lemma GroundedByDegree(nodes: seq<Node>, rels: seq<Edge>, id: string)
    requires EdgesWellTyped(nodes, rels)
    ensures DerivedOnce(rels, id, NodeTypes(nodes)) <==> |EdgesFrom(rels, id, DerivedFrom)| == 1
    ensures Imposed(rels, id, NodeTypes(nodes)) <==> |EdgesFrom(rels, id, ImposesOn)| >= 1
  {
    hide IsPairAllowed, NodeTypes, DerivedOnce, Imposed, EdgesFrom, TypedCount;
    var types := NodeTypes(nodes);
    DerivedCount(rels, id, types);
    ImposedCount(rels, id, types);
    forall e | e in rels
      ensures e.kind == DerivedFrom ==> TypeOf(types, e.dst) == Some(Provision)
      ensures e.kind == ImposesOn ==> TypeOf(types, e.dst) == Some(Actor)
    {
      DerivedFromPairs(types[e.src], types[e.dst]);
      ImposesOnPairs(types[e.src], types[e.dst]);
    }
    TypedCountIsDegree(rels, id, DerivedFrom, Provision, types);
    TypedCountIsDegree(rels, id, ImposesOn, Actor, types);
  }

  ghost predicate CountsRight(os: seq<Source>, o: Source) {
    Occurrences(os, o.clauseId) == 1 && ActorTotal(os, o.clauseId) >= 1
  }

  lemma ObligationOf(ctx: Context, o: Source, n: Node)
    requires IsNodeOf(ctx, o, n) && n.kind == Obligation
    ensures n == ObligationNode(o)
  {
    hide OwnActors, OwnControls, OwnAssets, ObligationId, RegulationId, ProvisionId;
  }

  /** The obligation nodes are those of the mapped clauses. */
  lemma ObligationsAre(ctx: Context, os: seq<Source>, n: Node)
    requires n in ProposalFor(ctx, os).nodes && n.kind == Obligation
    ensures exists o :: o in os && n == ObligationNode(o)
  {
    hide MapAll, NodeTypes, IsNodeOf, Mapped, FromSome, SameRegulation, ObligationNode, ProposalFor;
    MapAllShape(ctx, os);
    ListedTypes(ctx, os);
    assert Stems(ctx, os, n.id, n);
    var o :| o in os && IsNodeOf(ctx, o, n);
    ObligationOf(ctx, o, n);
  }

  lemma ObligationListed(ctx: Context, os: seq<Source>, o: Source)
    requires o in os
    ensures exists m :: m in ProposalFor(ctx, os).nodes && m.kind == Obligation && m.id == ObligationId(o.clauseId)
  {
    hide MapAll, NodeTypes, Stems, FromSome, SameRegulation, ObligationId, ProposalFor;
    MapAllShape(ctx, os);
    ListedTypes(ctx, os);
    assert Mapped(MapAll(ctx, os), o);
    assert MapAll(ctx, os).nodes.at[ObligationId(o.clauseId)] in ProposalFor(ctx, os).nodes;
  }

  /** With well-typed edges, obligations are grounded when each clause occurs once and
      names an actor. */
  lemma GroundedIffCounted(ctx: Context, os: seq<Source>)
    requires var p := ProposalFor(ctx, os); EdgesWellTyped(p.nodes, p.rels)
    ensures var p := ProposalFor(ctx, os);
      ObligationsGrounded(p.nodes, p.rels) <==> forall o :: o in os ==> CountsRight(os, o)
  {
    hide EdgesWellTyped, MapAll, DerivedOnce, Imposed, NodeTypes, Occurrences, ActorTotal, ObligationId;
    var p := ProposalFor(ctx, os);
    forall clause ensures var id := ObligationId(clause);
      && (DerivedOnce(p.rels, id, NodeTypes(p.nodes)) <==> Occurrences(os, clause) == 1)
      && (Imposed(p.rels, id, NodeTypes(p.nodes)) <==> ActorTotal(os, clause) >= 1)
    {
      GroundedByDegree(p.nodes, p.rels, ObligationId(clause));
      MapAllDegrees(ctx, os, clause);
    }
    forall n | n in p.nodes && n.kind == Obligation ensures exists o :: o in os && n.id == ObligationId(o.clauseId) {
      ObligationsAre(ctx, os, n);
      var o :| o in os && n == ObligationNode(o);
    }
    if ObligationsGrounded(p.nodes, p.rels) {
      forall o | o in os ensures CountsRight(os, o) {
        ObligationListed(ctx, os, o);
        var m :| m in p.nodes && m.kind == Obligation && m.id == ObligationId(o.clauseId);
      }
    }
  }

  lemma OccursOnce(os: seq<Source>, i: nat)
    requires i < |os|
    ensures Occurrences(os, os[i].clauseId) == 1 <==> forall j :: 0 <= j < |os| && os[j].clauseId == os[i].clauseId ==>
      j == i
  {
    CountOne((o: Source) => o.clauseId == os[i].clauseId, os);
  }

  lemma {:induction false} ActorTotalPositive(os: seq<Source>, clause: string)
    ensures ActorTotal(os, clause) >= 1 <==> exists i :: 0 <= i < |os| && os[i].clauseId == clause && os[i].actors != []
  {
    if os != [] {
      var n := |os| - 1;
      ActorTotalPositive(os[..n], clause);
      assert forall i :: 0 <= i < n ==> os[..n][i] == os[i];
    }
  }

  /** With distinct ids each clause occurs once and its actors are its own. */
  lemma DistinctCounts(os: seq<Source>, i: nat)
    requires i < |os| && Distinct(ClauseIds(os)) && os[i].actors != []
    ensures CountsRight(os, os[i])
  {
    hide Occurrences, ActorTotal;
    OccursOnce(os, i);
    ActorTotalPositive(os, os[i].clauseId);
    var ids := ClauseIds(os);
    forall j | 0 <= j < |os| && os[j].clauseId == os[i].clauseId ensures j == i {
      assert ids[j] == ids[i];
    }
  }

  lemma CountsDistinct(os: seq<Source>, i: nat)
    requires i < |os| && CountsRight(os, os[i])
    ensures os[i].actors != [] && forall j :: 0 <= j < |os| && os[j].clauseId == os[i].clauseId ==> j == i
  {
    hide Occurrences, ActorTotal;
    OccursOnce(os, i);
    ActorTotalPositive(os, os[i].clauseId);
  }

  lemma DistinctMeansOnce(os: seq<Source>)
    ensures (forall o :: o in os ==> CountsRight(os, o)) <==> Distinct(ClauseIds(os)) && forall o :: o in os ==>
      o.actors != []
  {
    hide CountsRight;
    if forall o :: o in os ==> CountsRight(os, o) {
      forall i | 0 <= i < |os|
        ensures os[i].actors != [] && forall j :: 0 <= j < |os| && os[j].clauseId == os[i].clauseId ==> j == i
      {
        CountsDistinct(os, i);
      }
      var ids := ClauseIds(os);
      forall i, j | 0 <= i < j < |ids| ensures ids[i] != ids[j] {
        CountsDistinct(os, i);
      }
    }
    if Distinct(ClauseIds(os)) && forall o :: o in os ==> o.actors != [] {
      forall o | o in os ensures CountsRight(os, o) {
        var i :| 0 <= i < |os| && os[i] == o;
        DistinctCounts(os, i);
      }
    }
  }

  /** For any obligations, fixtures, prior regulation and existing entities: the
      proposal passes all six rules if and only if the clause ids are distinct, every
      obligation names at least one actor, and no actor resolves to an id that the
      proposal uses for a node of another type. */
  lemma ProposalPassesIff(ctx: Context, os: seq<Source>)
    ensures var p := ProposalFor(ctx, os);
      Passes(p.nodes, p.rels) <==>
        Distinct(ClauseIds(os)) && (forall o :: o in os ==> o.actors != []) && ActorsApart(ctx, os)
  {
    hide Passes, MapAll, EdgesWellTyped, ObligationsGrounded, ActorsApart, CountsRight, ProposalFor;
    var p := ProposalFor(ctx, os);
    PassIffWellFormed(p.nodes, p.rels);
    TypedIffApart(ctx, os);
    DistinctMeansOnce(os);
    if EdgesWellTyped(p.nodes, p.rels) {
      GroundedIffCounted(ctx, os);
    }
  }
}
