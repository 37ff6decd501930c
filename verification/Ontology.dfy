/** The ontology tables: node types, relationship types, and which pairs of node
    types each relationship type may join. */
module Ontology {
  import opened Common

  datatype NodeType =
    | Regulation | Provision | Definition | Obligation | Actor | Action
    | Condition | Exception | Deadline | Control | Risk | EvidenceRequirement
    | Asset | System | API | Dataset | TestAsset | Agent
    | OtherType(name: string)

  datatype RelType =
    | DerivedFrom | ImposesOn | Requires | ConditionedBy | ExceptionTo
    | References | Defines | Amends | Supersedes | AppliesTo
    | MapsToControl | AffectsAsset | SatisfiedBy | EvidencedBy
    | OtherRel(name: string)

  const NODE_TYPES: set<NodeType> := {
    Regulation, Provision, Definition, Obligation, Actor, Action,
    Condition, Exception, Deadline, Control, Risk, EvidenceRequirement,
    Asset, System, API, Dataset, TestAsset, Agent
  }

  /** The allow-list; a relationship type outside the table has no entry. */
  function AllowedPairs(rel: RelType): Option<set<(NodeType, NodeType)>> {
    match rel
    case DerivedFrom => Some({(Obligation, Provision)})
    case ImposesOn => Some({(Obligation, Actor)})
    case Requires => Some({(Obligation, Action)})
    case ConditionedBy => Some({(Obligation, Condition)})
    case ExceptionTo => Some({(Obligation, Exception)})
    case References => Some({(Provision, Provision), (Provision, Definition)})
    case Defines => Some(set t | t in NODE_TYPES - {Agent} :: (Definition, t))
    case Amends => Some({(Provision, Provision)})
    case Supersedes => Some({(Regulation, Regulation)})
    case AppliesTo => Some({(Obligation, Actor)})
    case MapsToControl => Some({(Obligation, Control), (Risk, Control)})
    case AffectsAsset => Some({(Obligation, Asset), (Control, Asset)})
    case SatisfiedBy => Some({(Control, EvidenceRequirement)})
    case EvidencedBy => Some({(EvidenceRequirement, TestAsset)})
    case OtherRel(_) => None
  }

  predicate IsPairAllowed(rel: RelType, src: NodeType, dst: NodeType) {
    match AllowedPairs(rel)
    case None => false
    case Some(pairs) => (src, dst) in pairs
  }

  lemma DerivedFromPairs(src: NodeType, dst: NodeType)
    ensures IsPairAllowed(DerivedFrom, src, dst) <==> src == Obligation && dst == Provision
  {
  }

  lemma ImposesOnPairs(src: NodeType, dst: NodeType)
    ensures IsPairAllowed(ImposesOn, src, dst) <==> src == Obligation && dst == Actor
  {
  }

  lemma MapsToControlPairs(src: NodeType, dst: NodeType)
    ensures IsPairAllowed(MapsToControl, src, dst) <==> (src == Obligation || src == Risk) && dst == Control
  {
  }

  lemma AffectsAssetPairs(src: NodeType, dst: NodeType)
    ensures IsPairAllowed(AffectsAsset, src, dst) <==> (src == Obligation || src == Control) && dst == Asset
  {
  }

  lemma SatisfiedByPairs(src: NodeType, dst: NodeType)
    ensures IsPairAllowed(SatisfiedBy, src, dst) <==> src == Control && dst == EvidenceRequirement
  {
  }

  lemma EvidencedByPairs(src: NodeType, dst: NodeType)
    ensures IsPairAllowed(EvidencedBy, src, dst) <==> src == EvidenceRequirement && dst == TestAsset
  {
  }

  lemma SupersedesPairs(src: NodeType, dst: NodeType)
    ensures IsPairAllowed(Supersedes, src, dst) <==> src == Regulation && dst == Regulation
  {
  }
}
