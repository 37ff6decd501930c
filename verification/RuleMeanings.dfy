/** What each of the six rules reports, said about the nodes and edges alone, and the
    table of allowed pairs. */
module RuleMeanings {
  import opened Common
  import opened Ontology
  import opened Graph
  import opened Constraints

  // ---- The type of an id ----

  /** The last node listed with the id has this type. */
  ghost predicate HasType(nodes: seq<Node>, id: string, kind: NodeType) {
    exists i :: LastWith(nodes, id, kind, i)
  }

  ghost predicate LastWith(nodes: seq<Node>, id: string, kind: NodeType, i: int) {
    && 0 <= i < |nodes| && nodes[i].id == id && nodes[i].kind == kind
    && forall j :: i < j < |nodes| ==> nodes[j].id != id
  }

  ghost predicate Known(nodes: seq<Node>, id: string) {
    exists i :: 0 <= i < |nodes| && nodes[i].id == id
  }

  lemma KnownAppended(front: seq<Node>, n: Node, id: string)
    ensures Known(front + [n], id) <==> Known(front, id) || n.id == id
  {
    var s := front + [n];
    assert s[|front|] == n;
    if Known(front, id) {
      var i :| 0 <= i < |front| && front[i].id == id;
      assert s[i].id == id;
    }
  }

  lemma TypeAppended(front: seq<Node>, n: Node, id: string, kind: NodeType)
    ensures HasType(front + [n], id, kind) <==> if n.id == id then n.kind == kind else HasType(front, id, kind)
  {
    var s := front + [n];
    assert s[|front|] == n;
    if n.id == id {
      assert n.kind == kind ==> LastWith(s, id, kind, |front|);
    } else {
      if i :| LastWith(front, id, kind, i) {
        assert LastWith(s, id, kind, i);
      }
      if i :| LastWith(s, id, kind, i) {
        assert i < |front| && forall j :: i < j < |front| ==> s[j] == front[j];
        assert LastWith(front, id, kind, i);
      }
    }
  }

  lemma {:induction false} TypesMeaning(nodes: seq<Node>, id: string)
    ensures Known(nodes, id) <==> id in NodeTypes(nodes)
    ensures forall kind :: HasType(nodes, id, kind) <==> id in NodeTypes(nodes) && NodeTypes(nodes)[id] == kind
  {
    if nodes == [] {
      NothingTyped(id);
    } else {
      hide Known, HasType;
      var n := |nodes| - 1;
      TypesMeaning(nodes[..n], id);
      assert nodes == nodes[..n] + [nodes[n]];
      KnownAppended(nodes[..n], nodes[n], id);
      forall kind ensures HasType(nodes, id, kind) <==> id in NodeTypes(nodes) && NodeTypes(nodes)[id] == kind {
        TypeAppended(nodes[..n], nodes[n], id, kind);
      }
    }
  }

  lemma NothingTyped(id: string)
    ensures !Known([], id) && id !in NodeTypes([]) && forall kind :: !HasType([], id, kind)
  {
  }

  lemma TypeOfMeaning(nodes: seq<Node>, id: string, kind: NodeType)
    ensures HasType(nodes, id, kind) <==> TypeOf(NodeTypes(nodes), id) == Some(kind)
  {
    TypesMeaning(nodes, id);
  }

  // ---- The two rules about obligations ----

  /** The `i`-th edge leads from the node, by an edge of this kind, to a node of this
      type. */
  ghost predicate LeadsTo(nodes: seq<Node>, rels: seq<Edge>, i: int, id: string, kind: RelType, target: NodeType) {
    0 <= i < |rels| && rels[i] == Edge(id, rels[i].dst, kind) && HasType(nodes, rels[i].dst, target)
  }

  /** Not exactly one DERIVED_FROM edge leads from the node to a provision. */
  ghost predicate BadlyDerived(nodes: seq<Node>, rels: seq<Edge>, id: string) {
    !exists i :: LeadsTo(nodes, rels, i, id, DerivedFrom, Provision)
      && forall j :: LeadsTo(nodes, rels, j, id, DerivedFrom, Provision) ==> j == i
  }

  /** No IMPOSES_ON edge leads from the node to an actor. */
  ghost predicate BindsNobody(nodes: seq<Node>, rels: seq<Edge>, id: string) {
    forall i :: !LeadsTo(nodes, rels, i, id, ImposesOn, Actor)
  }

  ghost predicate IsObligation(nodes: seq<Node>, id: string) {
    exists n :: n in nodes && n.id == id && n.kind == Obligation
  }

  lemma LeadsToMeaning(nodes: seq<Node>, rels: seq<Edge>, i: int, id: string, kind: RelType, target: NodeType)
    ensures LeadsTo(nodes, rels, i, id, kind, target) <==>
      0 <= i < |rels| && TypedEdge(rels[i], id, kind, target, NodeTypes(nodes))
  {
    hide HasType, NodeTypes, TypeOf;
    if 0 <= i < |rels| {
      TypeOfMeaning(nodes, rels[i].dst, target);
    }
  }

  lemma BadlyDerivedMeaning(nodes: seq<Node>, rels: seq<Edge>, id: string)
    ensures BadlyDerived(nodes, rels, id) <==> TypedCount(rels, id, DerivedFrom, Provision, NodeTypes(nodes)) != 1
  {
    hide LeadsTo, TypedEdge, NodeTypes, TypedCount;
    DerivedCount(rels, id, NodeTypes(nodes));
    forall i ensures LeadsTo(nodes, rels, i, id, DerivedFrom, Provision) <==>
      0 <= i < |rels| && TypedEdge(rels[i], id, DerivedFrom, Provision, NodeTypes(nodes))
    {
      LeadsToMeaning(nodes, rels, i, id, DerivedFrom, Provision);
    }
  }

  lemma BindsNobodyMeaning(nodes: seq<Node>, rels: seq<Edge>, id: string)
    ensures BindsNobody(nodes, rels, id) <==> TypedCount(rels, id, ImposesOn, Actor, NodeTypes(nodes)) < 1
  {
    hide LeadsTo, TypedEdge, NodeTypes, TypedCount;
    ImposedCount(rels, id, NodeTypes(nodes));
    forall i ensures LeadsTo(nodes, rels, i, id, ImposesOn, Actor) <==>
      0 <= i < |rels| && TypedEdge(rels[i], id, ImposesOn, Actor, NodeTypes(nodes))
    {
      LeadsToMeaning(nodes, rels, i, id, ImposesOn, Actor);
    }
  }

  /** The ids of the obligations at fault, in the order of the nodes. */
  ghost function AtFault(nodes: seq<Node>, fault: string -> bool): seq<string> {
    if nodes == [] then []
    else
      var n := nodes[|nodes| - 1];
      AtFault(nodes[..|nodes| - 1], fault) + if n.kind == Obligation && fault(n.id) then [n.id] else []
  }

  lemma {:induction false} AtFaultMeaning(nodes: seq<Node>, own: string -> bool, fault: string -> bool)
    requires forall id :: own(id) <==> fault(id)
    ensures Filter(own, ObligationIds(nodes)) == AtFault(nodes, fault)
  {
    if nodes != [] {
      var front, n := nodes[..|nodes| - 1], nodes[|nodes| - 1];
      AtFaultMeaning(front, own, fault);
      var ids := ObligationIds(front);
      assert (ids + [n.id])[..|ids|] == ids && ids + [] == ids;
    }
  }

  /** In order: the first two results list exactly the obligations at fault. */
  lemma NodeRulesList(nodes: seq<Node>, rels: seq<Edge>, published: set<string>)
    ensures var r := ReportFor(nodes, rels, published).rules;
      && |r| == 6 && r[0].offendingNodes == AtFault(nodes, id => BadlyDerived(nodes, rels, id))
      && r[1].offendingNodes == AtFault(nodes, id => BindsNobody(nodes, rels, id))
  {
    hide BadlyDerived, BindsNobody, TypedCount, NodeTypes, Filter, ObligationIds;
    forall id
      ensures BadlyDerived(nodes, rels, id) <==> TypedCount(rels, id, DerivedFrom, Provision, NodeTypes(nodes)) != 1
      ensures BindsNobody(nodes, rels, id) <==> TypedCount(rels, id, ImposesOn, Actor, NodeTypes(nodes)) < 1
    {
      BadlyDerivedMeaning(nodes, rels, id);
      BindsNobodyMeaning(nodes, rels, id);
    }
    AtFaultMeaning(nodes, id => TypedCount(rels, id, DerivedFrom, Provision, NodeTypes(nodes)) != 1,
      id => BadlyDerived(nodes, rels, id));
    AtFaultMeaning(nodes, id => TypedCount(rels, id, ImposesOn, Actor, NodeTypes(nodes)) < 1,
      id => BindsNobody(nodes, rels, id));
  }

  /** The first two results name exactly the obligations at fault, and no edge. */
  lemma NodeRulesMeaning(nodes: seq<Node>, rels: seq<Edge>, published: set<string>)
    ensures var r := ReportFor(nodes, rels, published).rules;
      && |r| == 6 && r[0].rule == ObligationDerivedFromProvision && r[1].rule == ObligationImposesOnActor
      && r[0].offendingEdge == None && r[1].offendingEdge == None
      && (forall id :: id in r[0].offendingNodes <==> IsObligation(nodes, id) && BadlyDerived(nodes, rels, id))
      && (forall id :: id in r[1].offendingNodes <==> IsObligation(nodes, id) && BindsNobody(nodes, rels, id))
      && (r[0].pass <==> r[0].offendingNodes == []) && (r[1].pass <==> r[1].offendingNodes == [])
  {
    hide BadlyDerived, BindsNobody, TypedCount, NodeTypes;
    forall id
      ensures BadlyDerived(nodes, rels, id) <==> TypedCount(rels, id, DerivedFrom, Provision, NodeTypes(nodes)) != 1
      ensures BindsNobody(nodes, rels, id) <==> TypedCount(rels, id, ImposesOn, Actor, NodeTypes(nodes)) < 1
    {
      BadlyDerivedMeaning(nodes, rels, id);
      BindsNobodyMeaning(nodes, rels, id);
    }
  }

  // ---- The four rules about edges ----

  ghost predicate Misplaced(nodes: seq<Node>, e: Edge) {
    e.kind == MapsToControl
    && ((!HasType(nodes, e.src, Obligation) && !HasType(nodes, e.src, Risk)) || !HasType(nodes, e.dst, Control))
  }

  ghost predicate MisplacedEvidence(nodes: seq<Node>, e: Edge) {
    e.kind == EvidencedBy && !HasType(nodes, e.dst, EvidenceRequirement) && !HasType(nodes, e.dst, TestAsset)
  }

  ghost predicate Dangling(nodes: seq<Node>, published: set<string>, e: Edge) {
    || (!Known(nodes, e.src) && e.src !in published)
    || (!Known(nodes, e.dst) && e.dst !in published)
  }

  ghost predicate Forbidden(nodes: seq<Node>, e: Edge) {
    exists a, b :: HasType(nodes, e.src, a) && HasType(nodes, e.dst, b) && !IsPairAllowed(e.kind, a, b)
  }

  /** The result passes when no edge is at fault, and else names the first that is. */
  ghost predicate NamesFirst(r: RuleResult, rule: RuleName, rels: seq<Edge>, fault: Edge -> bool) {
    && r.rule == rule && r.offendingNodes == [] && (r.pass <==> r.offendingEdge == None)
    && match r.offendingEdge
       case None => forall e :: e in rels ==> !fault(e)
       case Some(e) => FirstFault(rels, fault, e)
  }

  ghost predicate FaultAt(rels: seq<Edge>, fault: Edge -> bool, i: int) {
    0 <= i < |rels| && fault(rels[i]) && forall j :: 0 <= j < i ==> !fault(rels[j])
  }

  ghost predicate FirstFault(rels: seq<Edge>, fault: Edge -> bool, e: Edge) {
    exists i :: FaultAt(rels, fault, i) && rels[i] == e
  }

  lemma {:induction false} FilterFirst(fault: Edge -> bool, rels: seq<Edge>)
    ensures Filter(fault, rels) != [] ==> FirstFault(rels, fault, Filter(fault, rels)[0])
  {
    hide FirstFault;
    if rels != [] {
      var front := rels[..|rels| - 1];
      FilterFirst(fault, front);
      if Filter(fault, front) == [] {
        FilterEmpty(fault, front);
        FirstIsLast(fault, rels);
      } else {
        FaultStays(fault, rels, Filter(fault, front)[0]);
      }
    }
  }

  lemma FaultStays(fault: Edge -> bool, rels: seq<Edge>, e: Edge)
    requires rels != [] && FirstFault(rels[..|rels| - 1], fault, e)
    ensures FirstFault(rels, fault, e)
  {
    var front := rels[..|rels| - 1];
    var i :| FaultAt(front, fault, i) && front[i] == e;
    assert FaultAt(rels, fault, i) && rels[i] == e;
  }

  lemma FirstIsLast(fault: Edge -> bool, rels: seq<Edge>)
    requires rels != [] && forall e :: e in rels[..|rels| - 1] ==> !fault(e)
    ensures Filter(fault, rels) == if fault(rels[|rels| - 1]) then [rels[|rels| - 1]] else []
    ensures fault(rels[|rels| - 1]) ==> FirstFault(rels, fault, rels[|rels| - 1])
  {
    var front := rels[..|rels| - 1];
    FilterEmpty(fault, front);
    forall j | 0 <= j < |front| ensures !fault(rels[j]) {
      assert front[j] in front;
    }
    assert fault(rels[|rels| - 1]) ==> FaultAt(rels, fault, |front|);
  }

  lemma EdgeRuleNamesFirst(rule: RuleName, rels: seq<Edge>, own: Edge -> bool, fault: Edge -> bool)
    requires forall e :: own(e) <==> fault(e)
    ensures NamesFirst(EdgeRule(rule, Filter(own, rels)), rule, rels, fault)
  {
    FilterFirst(own, rels);
    FilterEmpty(own, rels);
    if Filter(own, rels) != [] {
      var i :| FaultAt(rels, own, i) && rels[i] == Filter(own, rels)[0];
      assert FaultAt(rels, fault, i);
    }
  }

  lemma FaultsMeaning(nodes: seq<Node>, published: set<string>, e: Edge)
    ensures MisplacedControlEdge(e, NodeTypes(nodes)) <==> Misplaced(nodes, e)
    ensures MisplacedEvidenceEdge(e, NodeTypes(nodes)) <==> MisplacedEvidence(nodes, e)
    ensures DanglingEdge(e, NodeIds(nodes) + published) <==> Dangling(nodes, published, e)
    ensures ForbiddenPair(e, NodeTypes(nodes)) <==> Forbidden(nodes, e)
  {
    hide HasType, Known, NodeTypes, NodeIds, TypeOf, IsPairAllowed;
    NodeIdsAreTyped(nodes);
    TypesMeaning(nodes, e.src);
    TypesMeaning(nodes, e.dst);
    TypeOfMeaning(nodes, e.src, Obligation);
    TypeOfMeaning(nodes, e.src, Risk);
    TypeOfMeaning(nodes, e.dst, Control);
    TypeOfMeaning(nodes, e.dst, EvidenceRequirement);
    TypeOfMeaning(nodes, e.dst, TestAsset);
  }

  /** Each of the other four results names the first edge at fault, if there is one. */
  lemma EdgeRulesMeaning(nodes: seq<Node>, rels: seq<Edge>, published: set<string>)
    ensures var r := ReportFor(nodes, rels, published).rules;
      && |r| == 6
      && NamesFirst(r[2], MapsToControlEndpointRestriction, rels, e => Misplaced(nodes, e))
      && NamesFirst(r[3], EvidencedByEndpointRestriction, rels, e => MisplacedEvidence(nodes, e))
      && NamesFirst(r[4], NoDanglingNodeReference, rels, e => Dangling(nodes, published, e))
      && NamesFirst(r[5], RelationshipTypePairAllowed, rels, e => Forbidden(nodes, e))
  {
    hide EdgeRule, NodeRule, NamesFirst, Filter, NodeTypes, NodeIds, Misplaced, MisplacedEvidence, Dangling, Forbidden;
    hide MisplacedControlEdge, MisplacedEvidenceEdge, DanglingEdge, ForbiddenPair;
    forall e
      ensures MisplacedControlEdge(e, NodeTypes(nodes)) <==> Misplaced(nodes, e)
      ensures MisplacedEvidenceEdge(e, NodeTypes(nodes)) <==> MisplacedEvidence(nodes, e)
      ensures DanglingEdge(e, NodeIds(nodes) + published) <==> Dangling(nodes, published, e)
      ensures ForbiddenPair(e, NodeTypes(nodes)) <==> Forbidden(nodes, e)
    {
      FaultsMeaning(nodes, published, e);
    }
    EdgeRuleNamesFirst(MapsToControlEndpointRestriction, rels, e => MisplacedControlEdge(e, NodeTypes(nodes)),
      e => Misplaced(nodes, e));
    EdgeRuleNamesFirst(EvidencedByEndpointRestriction, rels, e => MisplacedEvidenceEdge(e, NodeTypes(nodes)),
      e => MisplacedEvidence(nodes, e));
    EdgeRuleNamesFirst(NoDanglingNodeReference, rels, e => DanglingEdge(e, NodeIds(nodes) + published),
      e => Dangling(nodes, published, e));
    EdgeRuleNamesFirst(RelationshipTypePairAllowed, rels, e => ForbiddenPair(e, NodeTypes(nodes)),
      e => Forbidden(nodes, e));
  }

  /** The report passes when all six results do. */
  lemma OverallMeaning(nodes: seq<Node>, rels: seq<Edge>, published: set<string>)
    ensures var r := ReportFor(nodes, rels, published);
      |r.rules| == 6 && (r.pass <==> forall i :: 0 <= i < 6 ==> r.rules[i].pass)
  {
    hide EdgeRule, NodeRule;
    SixRules(AllChecks(nodes, rels, published));
  }

  // ---- The table ----

  /** The pairs the ontology allows, relationship by relationship. */
  lemma PairTable(rel: RelType, src: NodeType, dst: NodeType)
    ensures IsPairAllowed(rel, src, dst) <==>
      || (rel == DerivedFrom && src == Obligation && dst == Provision)
      || ((rel == ImposesOn || rel == AppliesTo) && src == Obligation && dst == Actor)
      || (rel == Requires && src == Obligation && dst == Action)
      || (rel == ConditionedBy && src == Obligation && dst == Condition)
      || (rel == ExceptionTo && src == Obligation && dst == Exception)
      || (rel == References && src == Provision && (dst == Provision || dst == Definition))
      || (rel == Defines && src == Definition && dst != Agent && !dst.OtherType?)
      || (rel == Amends && src == Provision && dst == Provision)
      || (rel == Supersedes && src == Regulation && dst == Regulation)
      || (rel == MapsToControl && (src == Obligation || src == Risk) && dst == Control)
      || (rel == AffectsAsset && (src == Obligation || src == Control) && dst == Asset)
      || (rel == SatisfiedBy && src == Control && dst == EvidenceRequirement)
      || (rel == EvidencedBy && src == EvidenceRequirement && dst == TestAsset)
  {
    hide IsPairAllowed;
    match rel
    case DerivedFrom => DerivedFromPairs(src, dst);
    case ImposesOn => ImposesOnPairs(src, dst);
    case MapsToControl => MapsToControlPairs(src, dst);
    case AffectsAsset => AffectsAssetPairs(src, dst);
    case SatisfiedBy => SatisfiedByPairs(src, dst);
    case EvidencedBy => EvidencedByPairs(src, dst);
    case Supersedes => SupersedesPairs(src, dst);
    case Defines => DefinesPairs(src, dst);
    case _ => OtherPairs(rel, src, dst);
  }

  lemma DefinesPairs(src: NodeType, dst: NodeType)
    ensures IsPairAllowed(Defines, src, dst) <==> src == Definition && dst != Agent && !dst.OtherType?
  {
  }

  lemma OtherPairs(rel: RelType, src: NodeType, dst: NodeType)
    requires rel in {Requires, ConditionedBy, ExceptionTo, References, Amends, AppliesTo} || rel.OtherRel?
    ensures IsPairAllowed(rel, src, dst) <==>
      || (rel == AppliesTo && src == Obligation && dst == Actor)
      || (rel == Requires && src == Obligation && dst == Action)
      || (rel == ConditionedBy && src == Obligation && dst == Condition)
      || (rel == ExceptionTo && src == Obligation && dst == Exception)
      || (rel == References && src == Provision && (dst == Provision || dst == Definition))
      || (rel == Amends && src == Provision && dst == Provision)
  {
  }
}
