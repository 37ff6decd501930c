/** The graph mapping agent: reviewed obligations compiled into a typed proposal,
    and the proof that the proposal type-checks. */
module Mapping {
  import opened Common
  import opened PyDict
  import opened Ontology
  import opened Graph
  import opened EntityResolution
  import R = ReviewStatuses

  /** The fields of a reviewed obligation that the mapping reads. */
  datatype Source = Source(clauseId: string, instrument: string, sourceVersion: string, anchorId: string,
                                     actors: seq<string>, status: R.ReviewStatus)

  /** What the caller supplies besides the obligations. `slug` turns an actor name
      into an id suffix. */
  datatype Context = Context(
    existing: seq<Entity>,
    sim: Similarity,
    slug: string -> string,
    controls: map<string, seq<string>>,
    assets: map<string, seq<string>>,
    latestVersion: Option<string>)

  datatype MappingError = NotReviewed

  datatype Proposal = Proposal(sourceClauses: seq<string>, nodes: seq<Node>, rels: seq<Edge>)

  // ---- Node identifiers ----

  function RegulationId(instrument: string, version: string): string {
    "regulation:" + instrument + ":" + version
  }

  function ProvisionId(anchor: string): string {
    "provision:" + anchor
  }

  function ObligationId(clause: string): string {
    "obligation:" + clause
  }

  function ControlId(control: string): string {
    "control:" + control
  }

  function AssetId(asset: string): string {
    "asset:" + asset
  }

  /** The resolved node if there is one with a non-empty id, else one of its own. */
  function ActorId(ctx: Context, name: string): string {
    var m := Resolve(ctx.sim, name, ctx.existing);
    if m.nodeId.Some? && m.nodeId.value != "" then m.nodeId.value else "actor:" + ctx.slug(name)
  }

  predicate HasPrefix(s: string, prefix: string) {
    |prefix| <= |s| && s[..|prefix|] == prefix
  }

  /** The node type an id's prefix stands for; anything else is an actor's. */
  function KindFor(id: string): NodeType {
    if HasPrefix(id, "regulation:") then Regulation
    else if HasPrefix(id, "provision:") then Provision
    else if HasPrefix(id, "obligation:") then Obligation
    else if HasPrefix(id, "control:") then Control
    else if HasPrefix(id, "asset:") then Asset
    else Actor
  }

  lemma OwnPrefix(prefix: string, x: string)
    ensures HasPrefix(prefix + x, prefix)
  {
  }

  /** Only one prefix fits: the first two characters decide. */
  lemma OtherPrefix(s: string, prefix: string)
    requires |s| >= 2 && |prefix| >= 2 && (s[0] != prefix[0] || s[1] != prefix[1])
    ensures !HasPrefix(s, prefix)
  {
  }

  lemma KindOfRegulation(instrument: string, version: string)
    ensures KindFor(RegulationId(instrument, version)) == Regulation
  {
    OwnPrefix("regulation:", instrument + ":" + version);
    assert RegulationId(instrument, version) == "regulation:" + (instrument + ":" + version);
  }

  lemma KindOfProvision(anchor: string)
    ensures KindFor(ProvisionId(anchor)) == Provision
  {
    var id := ProvisionId(anchor);
    OwnPrefix("provision:", anchor);
    OtherPrefix(id, "regulation:");
  }

  lemma KindOfObligation(clause: string)
    ensures KindFor(ObligationId(clause)) == Obligation
  {
    var id := ObligationId(clause);
    OwnPrefix("obligation:", clause);
    OtherPrefix(id, "regulation:");
    OtherPrefix(id, "provision:");
  }

  lemma KindOfControl(control: string)
    ensures KindFor(ControlId(control)) == Control
  {
    var id := ControlId(control);
    OwnPrefix("control:", control);
    OtherPrefix(id, "regulation:");
    OtherPrefix(id, "provision:");
    OtherPrefix(id, "obligation:");
  }

  lemma KindOfAsset(asset: string)
    ensures KindFor(AssetId(asset)) == Asset
  {
    var id := AssetId(asset);
    OwnPrefix("asset:", asset);
    OtherPrefix(id, "regulation:");
    OtherPrefix(id, "provision:");
    OtherPrefix(id, "obligation:");
    OtherPrefix(id, "control:");
  }

  lemma KindOfFreshActor(slug: string)
    ensures KindFor("actor:" + slug) == Actor
  {
    var id := "actor:" + slug;
    OtherPrefix(id, "regulation:");
    OtherPrefix(id, "provision:");
    OtherPrefix(id, "obligation:");
    OtherPrefix(id, "control:");
    OtherPrefix(id, "asset:");
  }

  lemma ObligationIdInjective(c: string, d: string)
    requires ObligationId(c) == ObligationId(d)
    ensures c == d
  {
    assert ObligationId(c)[11..] == c && ObligationId(d)[11..] == d;
  }

  // ---- The proposal under construction ----

  datatype Build = Build(nodes: Dict<Node>, rels: seq<Edge>, regulations: set<(string, string)>)

  function BareNode(id: string, kind: NodeType): Node {
    Node(id, kind, Props(None, None, None))
  }

  function RegulationNode(instrument: string, version: string): Node {
    Node(RegulationId(instrument, version), Regulation, Props(None, Some(instrument), Some(version)))
  }

  function ProvisionNode(o: Source): Node {
    Node(ProvisionId(o.anchorId), Provision, Props(None, Some(o.instrument), Some(o.sourceVersion)))
  }

  function ObligationNode(o: Source): Node {
    Node(ObligationId(o.clauseId), Obligation, Props(Some(o.clauseId), None, None))
  }

  /** `nodes.setdefault(n)` and one relationship. */
  function Link(d: Build, n: Node, e: Edge): Build {
    d.(nodes := d.nodes.SetDefault(n.id, n), rels := d.rels + [e])
  }

  /** The regulation of an obligation, once per instrument and version, and the
      version it supersedes. */
  function WithRegulation(ctx: Context, d: Build, o: Source): Build {
    if (o.instrument, o.sourceVersion) in d.regulations then d
    else
      var n := RegulationNode(o.instrument, o.sourceVersion);
      var added := Build(d.nodes.Put(n.id, n), d.rels, d.regulations + {(o.instrument, o.sourceVersion)});
      if ctx.latestVersion.Some? && ctx.latestVersion.value != o.sourceVersion then
        var prior := RegulationNode(o.instrument, ctx.latestVersion.value);
        Link(added, prior, Edge(n.id, prior.id, Supersedes))
      else added
  }

  /** The provision and the obligation node, joined by a DERIVED_FROM edge. */
  function WithObligation(d: Build, o: Source): Build {
    var p, n := ProvisionNode(o), ObligationNode(o);
    d.(nodes := d.nodes.SetDefault(p.id, p).Put(n.id, n), rels := d.rels + [Edge(n.id, p.id, DerivedFrom)])
  }

  function WithActors(ctx: Context, d: Build, clause: string, actors: seq<string>): Build {
    if actors == [] then d
    else
      var n := |actors| - 1;
      var id := ActorId(ctx, actors[n]);
      Link(WithActors(ctx, d, clause, actors[..n]), BareNode(id, Actor), Edge(ObligationId(clause), id, ImposesOn))
  }

  function WithControls(d: Build, clause: string, controls: seq<string>): Build {
    if controls == [] then d
    else
      var n := |controls| - 1;
      var id := ControlId(controls[n]);
      Link(WithControls(d, clause, controls[..n]), BareNode(id, Control), Edge(ObligationId(clause), id, MapsToControl))
  }

  function WithAssets(d: Build, clause: string, assets: seq<string>): Build {
    if assets == [] then d
    else
      var n := |assets| - 1;
      var id := AssetId(assets[n]);
      Link(WithAssets(d, clause, assets[..n]), BareNode(id, Asset), Edge(ObligationId(clause), id, AffectsAsset))
  }

  function MappedTo(m: map<string, seq<string>>, clause: string): seq<string> {
    if clause in m then m[clause] else []
  }

  function MapOne(ctx: Context, d: Build, o: Source): Build {
    var based := WithObligation(WithRegulation(ctx, d, o), o);
    var bound := WithActors(ctx, based, o.clauseId, o.actors);
    var controlled := WithControls(bound, o.clauseId, MappedTo(ctx.controls, o.clauseId));
    WithAssets(controlled, o.clauseId, MappedTo(ctx.assets, o.clauseId))
  }

  function MapAll(ctx: Context, os: seq<Source>): Build {
    if os == [] then Build(Empty(), [], {})
    else MapOne(ctx, MapAll(ctx, os[..|os| - 1]), os[|os| - 1])
  }

  predicate Reviewed(o: Source) {
    o.status in {R.Accepted, R.Edited}
  }

  function ClauseIds(os: seq<Source>): (ids: seq<string>)
    ensures |ids| == |os| && forall i :: 0 <= i < |os| ==> ids[i] == os[i].clauseId
  {
    seq(|os|, i requires 0 <= i < |os| => os[i].clauseId)
  }

  lemma {:induction false} NodesValid(ctx: Context, os: seq<Source>)
    ensures MapAll(ctx, os).nodes.Valid()
  {
    if os != [] {
      var n := |os| - 1;
      NodesValid(ctx, os[..n]);
      StepValid(ctx, MapAll(ctx, os[..n]), os[n]);
    }
  }

  lemma StepValid(ctx: Context, d: Build, o: Source)
    requires d.nodes.Valid()
    ensures MapOne(ctx, d, o).nodes.Valid()
  {
    var based := WithObligation(WithRegulation(ctx, d, o), o);
    var bound := WithActors(ctx, based, o.clauseId, o.actors);
    ActorsValid(ctx, based, o.clauseId, o.actors);
    var controlled := WithControls(bound, o.clauseId, MappedTo(ctx.controls, o.clauseId));
    ControlsValid(bound, o.clauseId, MappedTo(ctx.controls, o.clauseId));
    AssetsValid(controlled, o.clauseId, MappedTo(ctx.assets, o.clauseId));
  }

  lemma ActorsValid(ctx: Context, d: Build, clause: string, actors: seq<string>)
    requires d.nodes.Valid()
    ensures WithActors(ctx, d, clause, actors).nodes.Valid()
  {
  }

  lemma ControlsValid(d: Build, clause: string, controls: seq<string>)
    requires d.nodes.Valid()
    ensures WithControls(d, clause, controls).nodes.Valid()
  {
  }

  lemma AssetsValid(d: Build, clause: string, assets: seq<string>)
    requires d.nodes.Valid()
    ensures WithAssets(d, clause, assets).nodes.Valid()
  {
  }

  /** The proposal for reviewed obligations. */
  function ProposalFor(ctx: Context, os: seq<Source>): Proposal {
    NodesValid(ctx, os);
    var d := MapAll(ctx, os);
    Proposal(ClauseIds(os), d.nodes.Values(), d.rels)
  }

  // ---- The loops ----

  method AddActors(ctx: Context, d: Build, clause: string, actors: seq<string>) returns (r: Build)
    ensures r == WithActors(ctx, d, clause, actors)
  {
    var nodes, rels := d.nodes, d.rels;
    for i := 0 to |actors|
      invariant Build(nodes, rels, d.regulations) == WithActors(ctx, d, clause, actors[..i])
    {
      assert actors[..i + 1][..i] == actors[..i];
      var m := ResolveEntity(ctx.sim, actors[i], ctx.existing);
      var id := if m.nodeId.Some? && m.nodeId.value != "" then m.nodeId.value else "actor:" + ctx.slug(actors[i]);
      nodes := nodes.SetDefault(id, BareNode(id, Actor));
      rels := rels + [Edge(ObligationId(clause), id, ImposesOn)];
    }
    assert actors[..|actors|] == actors;
    r := Build(nodes, rels, d.regulations);
  }

  method AddControls(d: Build, clause: string, controls: seq<string>) returns (r: Build)
    ensures r == WithControls(d, clause, controls)
  {
    var nodes, rels := d.nodes, d.rels;
    for i := 0 to |controls|
      invariant Build(nodes, rels, d.regulations) == WithControls(d, clause, controls[..i])
    {
      assert controls[..i + 1][..i] == controls[..i];
      nodes := nodes.SetDefault(ControlId(controls[i]), BareNode(ControlId(controls[i]), Control));
      rels := rels + [Edge(ObligationId(clause), ControlId(controls[i]), MapsToControl)];
    }
    assert controls[..|controls|] == controls;
    r := Build(nodes, rels, d.regulations);
  }

  method AddAssets(d: Build, clause: string, assets: seq<string>) returns (r: Build)
    ensures r == WithAssets(d, clause, assets)
  {
    var nodes, rels := d.nodes, d.rels;
    for i := 0 to |assets|
      invariant Build(nodes, rels, d.regulations) == WithAssets(d, clause, assets[..i])
    {
      assert assets[..i + 1][..i] == assets[..i];
      nodes := nodes.SetDefault(AssetId(assets[i]), BareNode(AssetId(assets[i]), Asset));
      rels := rels + [Edge(ObligationId(clause), AssetId(assets[i]), AffectsAsset)];
    }
    assert assets[..|assets|] == assets;
    r := Build(nodes, rels, d.regulations);
  }

  method ProposeChangeSet(ctx: Context, os: seq<Source>) returns (r: Result<Proposal, MappingError>)
    ensures r.Err? <==> exists o :: o in os && o.status != R.Accepted && o.status != R.Edited
    ensures r.Ok? ==> r.value == ProposalFor(ctx, os)
  {
    hide WithActors, WithControls, WithAssets, WithRegulation, WithObligation;
    for i := 0 to |os|
      invariant forall j :: 0 <= j < i ==> Reviewed(os[j])
    {
      if !Reviewed(os[i]) {
        return Err(NotReviewed);
      }
    }
    var d := Build(Empty(), [], {});
    var sources: seq<string> := [];
    for i := 0 to |os|
      invariant d == MapAll(ctx, os[..i]) && sources == ClauseIds(os[..i])
    {
      assert os[..i + 1][..i] == os[..i];
      var o := os[i];
      sources := sources + [o.clauseId];
      d := WithObligation(WithRegulation(ctx, d, o), o);
      d := AddActors(ctx, d, o.clauseId, o.actors);
      d := AddControls(d, o.clauseId, MappedTo(ctx.controls, o.clauseId));
      d := AddAssets(d, o.clauseId, MappedTo(ctx.assets, o.clauseId));
    }
    assert os[..|os|] == os;
    NodesValid(ctx, os);
    r := Ok(Proposal(sources, d.nodes.Values(), d.rels));
  }
}
