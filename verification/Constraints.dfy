/** The constraint engine: six named rules over the proposed nodes and
    relationships of a change set, and the report built from them. */
module Constraints {
  import opened Common
  import opened Ontology
  import opened Graph

  datatype RuleName =
    | ObligationDerivedFromProvision
    | ObligationImposesOnActor
    | MapsToControlEndpointRestriction
    | EvidencedByEndpointRestriction
    | NoDanglingNodeReference
    | RelationshipTypePairAllowed

  /** A rule's verdict: it fails with the offending nodes, or with the first
      offending relationship. */
  datatype RuleResult = RuleResult(rule: RuleName, pass: bool, offendingNodes: seq<string>, offendingEdge: Option<Edge>)

  datatype Report = Report(rules: seq<RuleResult>, pass: bool)

  datatype Status = Draft | Validated | Approved | Rejected | Published

  /** `{n["node_id"]: n["type"]}`: for a repeated id the last entry wins. */
  function NodeTypes(nodes: seq<Node>): (types: map<string, NodeType>)
    ensures forall k :: k in types <==> exists n :: n in nodes && n.id == k
  {
    if nodes == [] then map[]
    else
      var last := |nodes| - 1;
      assert nodes == nodes[..last] + [nodes[last]];
      NodeTypes(nodes[..last])[nodes[last].id := nodes[last].kind]
  }

  function TypeOf(types: map<string, NodeType>, id: string): Option<NodeType> {
    if id in types then Some(types[id]) else None
  }

  function NodeIds(nodes: seq<Node>): set<string> {
    set n | n in nodes :: n.id
  }

  function ObligationIds(nodes: seq<Node>): (ids: seq<string>)
    ensures forall id :: id in ids <==> exists n :: n in nodes && n.id == id && n.kind == Obligation
  {
    if nodes == [] then []
    else
      var last := |nodes| - 1;
      assert nodes == nodes[..last] + [nodes[last]];
      ObligationIds(nodes[..last]) + if nodes[last].kind == Obligation then [nodes[last].id] else []
  }

  /** An edge of kind `rel` out of `id` whose target has type `target`. */
  predicate TypedEdge(e: Edge, id: string, rel: RelType, target: NodeType, types: map<string, NodeType>) {
    e.src == id && e.kind == rel && TypeOf(types, e.dst) == Some(target)
  }

  function TypedCount(rels: seq<Edge>, id: string, rel: RelType, target: NodeType, types: map<string, NodeType>): nat {
    CountIf(e => TypedEdge(e, id, rel, target, types), rels)
  }

  predicate MisplacedControlEdge(e: Edge, types: map<string, NodeType>) {
    e.kind == MapsToControl &&
    (TypeOf(types, e.src) !in {Some(Obligation), Some(Risk)} || TypeOf(types, e.dst) != Some(Control))
  }

  predicate MisplacedEvidenceEdge(e: Edge, types: map<string, NodeType>) {
    e.kind == EvidencedBy && TypeOf(types, e.dst) !in {Some(EvidenceRequirement), Some(TestAsset)}
  }

  predicate DanglingEdge(e: Edge, known: set<string>) {
    e.src !in known || e.dst !in known
  }

  /** Edges with an untyped endpoint are left to the dangling rule. */
  predicate ForbiddenPair(e: Edge, types: map<string, NodeType>) {
    e.src in types && e.dst in types && !IsPairAllowed(e.kind, types[e.src], types[e.dst])
  }

  function NodeRule(rule: RuleName, offending: seq<string>): RuleResult {
    RuleResult(rule, offending == [], offending, None)
  }

  function EdgeRule(rule: RuleName, offending: seq<Edge>): RuleResult {
    RuleResult(rule, offending == [], [], if offending == [] then None else Some(offending[0]))
  }

  function NotDerivedOnce(nodes: seq<Node>, rels: seq<Edge>, ids: seq<string>): seq<string> {
    Filter(id => TypedCount(rels, id, DerivedFrom, Provision, NodeTypes(nodes)) != 1, ids)
  }

  function NotImposed(nodes: seq<Node>, rels: seq<Edge>, ids: seq<string>): seq<string> {
    Filter(id => TypedCount(rels, id, ImposesOn, Actor, NodeTypes(nodes)) < 1, ids)
  }

  function MisplacedControlEdges(rels: seq<Edge>, types: map<string, NodeType>): seq<Edge> {
    Filter(e => MisplacedControlEdge(e, types), rels)
  }

  function MisplacedEvidenceEdges(rels: seq<Edge>, types: map<string, NodeType>): seq<Edge> {
    Filter(e => MisplacedEvidenceEdge(e, types), rels)
  }

  function DanglingEdges(rels: seq<Edge>, known: set<string>): seq<Edge> {
    Filter(e => DanglingEdge(e, known), rels)
  }

  function ForbiddenPairs(rels: seq<Edge>, types: map<string, NodeType>): seq<Edge> {
    Filter(e => ForbiddenPair(e, types), rels)
  }

  function AllChecks(nodes: seq<Node>, rels: seq<Edge>, published: set<string>): seq<RuleResult> {
    var types := NodeTypes(nodes);
    [
      NodeRule(ObligationDerivedFromProvision, NotDerivedOnce(nodes, rels, ObligationIds(nodes))),
      NodeRule(ObligationImposesOnActor, NotImposed(nodes, rels, ObligationIds(nodes))),
      EdgeRule(MapsToControlEndpointRestriction, MisplacedControlEdges(rels, types)),
      EdgeRule(EvidencedByEndpointRestriction, MisplacedEvidenceEdges(rels, types)),
      EdgeRule(NoDanglingNodeReference, DanglingEdges(rels, NodeIds(nodes) + published)),
      EdgeRule(RelationshipTypePairAllowed, ForbiddenPairs(rels, types))
    ]
  }

  /** Overall status: a pass unless some rule failed. */
  function ReportFor(nodes: seq<Node>, rels: seq<Edge>, published: set<string>): Report {
    var rules := AllChecks(nodes, rels, published);
    Report(rules, !exists r :: r in rules && !r.pass)
  }

  /** The fresh check of the validate and publish operations: no node counts as
      already published. */
  predicate Passes(nodes: seq<Node>, rels: seq<Edge>) {
    ReportFor(nodes, rels, {}).pass
  }

  function ResolveStatus(overallPass: bool, current: Status): Status {
    if !overallPass then Rejected
    else if current == Draft then Validated
    else current
  }

  // ---- The checks as loops over the proposal ----

  lemma TypedCountSnoc(rels: seq<Edge>, i: nat, id: string, rel: RelType, target: NodeType,
                       types: map<string, NodeType>)
    requires i < |rels|
    ensures TypedCount(rels[..i + 1], id, rel, target, types)
         == TypedCount(rels[..i], id, rel, target, types) + if TypedEdge(rels[i], id, rel, target, types) then 1 else 0
  {
    CountSnoc(e => TypedEdge(e, id, rel, target, types), rels, i);
  }

  lemma TypedCountEmpty(id: string, rel: RelType, target: NodeType, types: map<string, NodeType>)
    ensures TypedCount([], id, rel, target, types) == 0
  {
  }

  method CountTypedEdges(rels: seq<Edge>, id: string, rel: RelType, target: NodeType, types: map<string, NodeType>)
    returns (count: nat)
    ensures count == TypedCount(rels, id, rel, target, types)
  {
    hide TypedCount;
    assert rels[..0] == [];
    TypedCountEmpty(id, rel, target, types);
    count := 0;
    for i := 0 to |rels|
      invariant count == TypedCount(rels[..i], id, rel, target, types)
    {
      TypedCountSnoc(rels, i, id, rel, target, types);
      if TypedEdge(rels[i], id, rel, target, types) {
        count := count + 1;
      }
    }
    assert rels[..|rels|] == rels;
  }

  method CheckObligationDerivedFromProvision(nodes: seq<Node>, rels: seq<Edge>) returns (r: RuleResult)
    ensures r == AllChecks(nodes, rels, {})[0]
  {
    var ids, types := ObligationIds(nodes), NodeTypes(nodes);
    var offending := [];
    for i := 0 to |ids|
      invariant offending == NotDerivedOnce(nodes, rels, ids[..i])
    {
      assert ids[..i + 1][..i] == ids[..i];
      var count := CountTypedEdges(rels, ids[i], DerivedFrom, Provision, types);
      if count != 1 {
        offending := offending + [ids[i]];
      }
    }
    assert ids[..|ids|] == ids;
    r := NodeRule(ObligationDerivedFromProvision, offending);
  }

  method CheckObligationImposesOnActor(nodes: seq<Node>, rels: seq<Edge>) returns (r: RuleResult)
    ensures r == AllChecks(nodes, rels, {})[1]
  {
    var ids, types := ObligationIds(nodes), NodeTypes(nodes);
    var offending := [];
    for i := 0 to |ids|
      invariant offending == NotImposed(nodes, rels, ids[..i])
    {
      assert ids[..i + 1][..i] == ids[..i];
      var count := CountTypedEdges(rels, ids[i], ImposesOn, Actor, types);
      if count < 1 {
        offending := offending + [ids[i]];
      }
    }
    assert ids[..|ids|] == ids;
    r := NodeRule(ObligationImposesOnActor, offending);
  }

  method CheckMapsToControl(rels: seq<Edge>, types: map<string, NodeType>) returns (r: RuleResult)
    ensures r == EdgeRule(MapsToControlEndpointRestriction, MisplacedControlEdges(rels, types))
  {
    var offending := [];
    for i := 0 to |rels|
      invariant offending == MisplacedControlEdges(rels[..i], types)
    {
      assert rels[..i + 1][..i] == rels[..i];
      if MisplacedControlEdge(rels[i], types) {
        offending := offending + [rels[i]];
      }
    }
    assert rels[..|rels|] == rels;
    r := EdgeRule(MapsToControlEndpointRestriction, offending);
  }

  method CheckEvidencedBy(rels: seq<Edge>, types: map<string, NodeType>) returns (r: RuleResult)
    ensures r == EdgeRule(EvidencedByEndpointRestriction, MisplacedEvidenceEdges(rels, types))
  {
    var offending := [];
    for i := 0 to |rels|
      invariant offending == MisplacedEvidenceEdges(rels[..i], types)
    {
      assert rels[..i + 1][..i] == rels[..i];
      if MisplacedEvidenceEdge(rels[i], types) {
        offending := offending + [rels[i]];
      }
    }
    assert rels[..|rels|] == rels;
    r := EdgeRule(EvidencedByEndpointRestriction, offending);
  }

  method CheckNoDangling(nodes: seq<Node>, rels: seq<Edge>, published: set<string>) returns (r: RuleResult)
    ensures r == EdgeRule(NoDanglingNodeReference, DanglingEdges(rels, NodeIds(nodes) + published))
  {
    var known := NodeIds(nodes) + published;
    var offending := [];
    for i := 0 to |rels|
      invariant offending == DanglingEdges(rels[..i], known)
    {
      assert rels[..i + 1][..i] == rels[..i];
      if DanglingEdge(rels[i], known) {
        offending := offending + [rels[i]];
      }
    }
    assert rels[..|rels|] == rels;
    r := EdgeRule(NoDanglingNodeReference, offending);
  }

  method CheckPairAllowed(rels: seq<Edge>, types: map<string, NodeType>) returns (r: RuleResult)
    ensures r == EdgeRule(RelationshipTypePairAllowed, ForbiddenPairs(rels, types))
  {
    var offending := [];
    for i := 0 to |rels|
      invariant offending == ForbiddenPairs(rels[..i], types)
    {
      assert rels[..i + 1][..i] == rels[..i];
      if ForbiddenPair(rels[i], types) {
        offending := offending + [rels[i]];
      }
    }
    assert rels[..|rels|] == rels;
    r := EdgeRule(RelationshipTypePairAllowed, offending);
  }

  method ProduceReport(nodes: seq<Node>, rels: seq<Edge>, published: set<string>) returns (report: Report)
    ensures report == ReportFor(nodes, rels, published)
  {
    var types := NodeTypes(nodes);
    var derived := CheckObligationDerivedFromProvision(nodes, rels);
    var imposed := CheckObligationImposesOnActor(nodes, rels);
    var control := CheckMapsToControl(rels, types);
    var evidence := CheckEvidencedBy(rels, types);
    var dangling := CheckNoDangling(nodes, rels, published);
    var pairs := CheckPairAllowed(rels, types);
    var rules := [derived, imposed, control, evidence, dangling, pairs];
    report := Report(rules, !exists r | r in rules :: !r.pass);
  }

  // ---- What a pass means ----

  /** Every relationship joins two proposed nodes by a pair the ontology allows. */
  ghost predicate EdgesWellTyped(nodes: seq<Node>, rels: seq<Edge>) {
    var types := NodeTypes(nodes);
    forall e :: e in rels ==> e.src in types && e.dst in types && IsPairAllowed(e.kind, types[e.src], types[e.dst])
  }

  /** Exactly one position holds a DERIVED_FROM edge from `id` to a provision. */
  ghost predicate DerivedOnce(rels: seq<Edge>, id: string, types: map<string, NodeType>) {
    exists i :: 0 <= i < |rels| && TypedEdge(rels[i], id, DerivedFrom, Provision, types)
      && forall j :: 0 <= j < |rels| && TypedEdge(rels[j], id, DerivedFrom, Provision, types) ==> j == i
  }

  ghost predicate Imposed(rels: seq<Edge>, id: string, types: map<string, NodeType>) {
    exists i :: 0 <= i < |rels| && TypedEdge(rels[i], id, ImposesOn, Actor, types)
  }

  /** Each obligation node comes from exactly one provision and binds some actor. */
  ghost predicate ObligationsGrounded(nodes: seq<Node>, rels: seq<Edge>) {
    forall n :: n in nodes && n.kind == Obligation ==>
      DerivedOnce(rels, n.id, NodeTypes(nodes)) && Imposed(rels, n.id, NodeTypes(nodes))
  }

  ghost predicate WellFormed(nodes: seq<Node>, rels: seq<Edge>) {
    EdgesWellTyped(nodes, rels) && ObligationsGrounded(nodes, rels)
  }

  lemma NodeIdsAreTyped(nodes: seq<Node>)
    ensures NodeIds(nodes) == NodeTypes(nodes).Keys
  {
  }

  lemma DerivedCount(rels: seq<Edge>, id: string, types: map<string, NodeType>)
    ensures TypedCount(rels, id, DerivedFrom, Provision, types) == 1 <==> DerivedOnce(rels, id, types)
  {
    CountOne(e => TypedEdge(e, id, DerivedFrom, Provision, types), rels);
  }

  lemma ImposedCount(rels: seq<Edge>, id: string, types: map<string, NodeType>)
    ensures TypedCount(rels, id, ImposesOn, Actor, types) >= 1 <==> Imposed(rels, id, types)
  {
    CountZero(e => TypedEdge(e, id, ImposesOn, Actor, types), rels);
  }

  /** The derivation rule passes exactly when every listed id is derived once. */
  lemma DerivationRule(nodes: seq<Node>, rels: seq<Edge>, ids: seq<string>)
    ensures NotDerivedOnce(nodes, rels, ids) == [] <==> forall id :: id in ids ==>
      DerivedOnce(rels, id, NodeTypes(nodes))
  {
    FilterEmpty(id => TypedCount(rels, id, DerivedFrom, Provision, NodeTypes(nodes)) != 1, ids);
    forall id
      ensures TypedCount(rels, id, DerivedFrom, Provision, NodeTypes(nodes)) == 1 <==>
        DerivedOnce(rels, id, NodeTypes(nodes))
    {
      DerivedCount(rels, id, NodeTypes(nodes));
    }
  }

  lemma ImpositionRule(nodes: seq<Node>, rels: seq<Edge>, ids: seq<string>)
    ensures NotImposed(nodes, rels, ids) == [] <==> forall id :: id in ids ==> Imposed(rels, id, NodeTypes(nodes))
  {
    FilterEmpty(id => TypedCount(rels, id, ImposesOn, Actor, NodeTypes(nodes)) < 1, ids);
    forall id
      ensures TypedCount(rels, id, ImposesOn, Actor, NodeTypes(nodes)) >= 1 <==> Imposed(rels, id, NodeTypes(nodes))
    {
      ImposedCount(rels, id, NodeTypes(nodes));
    }
  }

  /** The two cardinality rules together say that obligations are grounded. */
  lemma CardinalityRules(nodes: seq<Node>, rels: seq<Edge>)
    ensures (NotDerivedOnce(nodes, rels, ObligationIds(nodes)) == []
      && NotImposed(nodes, rels, ObligationIds(nodes)) == [])
       <==> ObligationsGrounded(nodes, rels)
  {
    var ids := ObligationIds(nodes);
    DerivationRule(nodes, rels, ids);
    ImpositionRule(nodes, rels, ids);
    GroundedById(nodes, rels, ids);
  }

  lemma GroundedById(nodes: seq<Node>, rels: seq<Edge>, ids: seq<string>)
    requires ids == ObligationIds(nodes)
    ensures ObligationsGrounded(nodes, rels)
       <==> forall id :: id in ids ==> DerivedOnce(rels, id, NodeTypes(nodes)) && Imposed(rels, id, NodeTypes(nodes))
  {
    if ObligationsGrounded(nodes, rels) {
      forall id | id in ids ensures DerivedOnce(rels, id, NodeTypes(nodes)) && Imposed(rels, id, NodeTypes(nodes)) {
        var n :| n in nodes && n.id == id && n.kind == Obligation;
      }
    }
    if forall id :: id in ids ==> DerivedOnce(rels, id, NodeTypes(nodes)) && Imposed(rels, id, NodeTypes(nodes)) {
      forall n | n in nodes && n.kind == Obligation
        ensures DerivedOnce(rels, n.id, NodeTypes(nodes)) && Imposed(rels, n.id, NodeTypes(nodes))
      {
        assert n.id in ids;
      }
    }
  }

  lemma FilterEmpty<T(!new)>(p: T -> bool, s: seq<T>)
    ensures Filter(p, s) == [] <==> forall x :: x in s ==> !p(x)
  {
    if Filter(p, s) != [] {
      assert Filter(p, s)[0] in Filter(p, s);
    }
    if x :| x in s && p(x) {
      assert x in Filter(p, s);
    }
  }

  /** With nothing published, the dangling and pair rules together say that every
      edge is well typed. */
  lemma EdgeRules(nodes: seq<Node>, rels: seq<Edge>)
    ensures (DanglingEdges(rels, NodeIds(nodes) + {}) == [] && ForbiddenPairs(rels, NodeTypes(nodes)) == [])
       <==> EdgesWellTyped(nodes, rels)
  {
    var types := NodeTypes(nodes);
    NodeIdsAreTyped(nodes);
    FilterEmpty(e => DanglingEdge(e, NodeIds(nodes) + {}), rels);
    FilterEmpty(e => ForbiddenPair(e, types), rels);
  }

  /** The control and evidence rules add nothing once edges are well typed. */
  lemma EndpointRulesFollow(nodes: seq<Node>, rels: seq<Edge>)
    requires EdgesWellTyped(nodes, rels)
    ensures MisplacedControlEdges(rels, NodeTypes(nodes)) == []
    ensures MisplacedEvidenceEdges(rels, NodeTypes(nodes)) == []
  {
    hide IsPairAllowed;
    var types := NodeTypes(nodes);
    forall e | e in rels ensures !MisplacedControlEdge(e, types) && !MisplacedEvidenceEdge(e, types) {
      assert IsPairAllowed(e.kind, types[e.src], types[e.dst]);
      MapsToControlPairs(types[e.src], types[e.dst]);
      EvidencedByPairs(types[e.src], types[e.dst]);
    }
    FilterEmpty(e => MisplacedControlEdge(e, types), rels);
    FilterEmpty(e => MisplacedEvidenceEdge(e, types), rels);
  }

  /** An evidence edge into a node that is only published passes the pair rule
      and the dangling rule, yet fails the evidence rule: the implication needs
      the empty set of published nodes. */
  lemma EndpointRulesNeedNothingPublished()
    ensures var nodes := [Node("e", EvidenceRequirement, Props(None, None, None))];
            var rels := [Edge("e", "t", EvidencedBy)];
            && DanglingEdges(rels, NodeIds(nodes) + {"t"}) == []
            && ForbiddenPairs(rels, NodeTypes(nodes)) == []
            && MisplacedEvidenceEdges(rels, NodeTypes(nodes)) == rels
  {
    var nodes := [Node("e", EvidenceRequirement, Props(None, None, None))];
    var rels := [Edge("e", "t", EvidencedBy)];
    assert nodes[0] in nodes && nodes[0].id == "e";
    FilterEmpty(x => DanglingEdge(x, NodeIds(nodes) + {"t"}), rels);
    FilterEmpty(x => ForbiddenPair(x, NodeTypes(nodes)), rels);
    assert rels[..0] == [];
    assert "t"[0] != "e"[0];
  }

  /** The engine is sound and complete for well-formedness. */
  lemma PassIffWellFormed(nodes: seq<Node>, rels: seq<Edge>)
    ensures Passes(nodes, rels) <==> WellFormed(nodes, rels)
  {
    CardinalityRules(nodes, rels);
    EdgeRules(nodes, rels);
    if EdgesWellTyped(nodes, rels) {
      EndpointRulesFollow(nodes, rels);
    }
    PassIffNoOffence(nodes, rels, {});
  }

  lemma PassIffNoOffence(nodes: seq<Node>, rels: seq<Edge>, published: set<string>)
    ensures ReportFor(nodes, rels, published).pass <==>
      && NotDerivedOnce(nodes, rels, ObligationIds(nodes)) == []
      && NotImposed(nodes, rels, ObligationIds(nodes)) == []
      && MisplacedControlEdges(rels, NodeTypes(nodes)) == []
      && MisplacedEvidenceEdges(rels, NodeTypes(nodes)) == []
      && DanglingEdges(rels, NodeIds(nodes) + published) == []
      && ForbiddenPairs(rels, NodeTypes(nodes)) == []
  {
    SixRules(AllChecks(nodes, rels, published));
  }

  lemma SixRules(rules: seq<RuleResult>)
    requires |rules| == 6
    ensures (!exists r :: r in rules && !r.pass)
       <==> rules[0].pass && rules[1].pass && rules[2].pass && rules[3].pass && rules[4].pass && rules[5].pass
  {
    if exists r :: r in rules && !r.pass {
      var r :| r in rules && !r.pass;
      var i :| 0 <= i < 6 && rules[i] == r;
    } else {
      assert forall i :: 0 <= i < 6 ==> rules[i] in rules;
    }
  }
}
