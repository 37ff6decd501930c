/** The proof-path query: nested loops over one snapshot's content, and the graph
    pattern they answer. */
module ProofPath {
  import opened Common
  import opened PyDict
  import opened Ontology
  import opened Graph

  /** A published snapshot's nodes by id, in insertion order, and its edges. */
  datatype Content = Content(nodes: Dict<Node>, rels: seq<Edge>)

  /** The snapshot content a change set publishes. */
  function ContentOf(nodes: seq<Node>, rels: seq<Edge>): Content {
    Content(ById(nodes), rels)
  }

  /** The six stops of a path; the last three may be missing. */
  datatype Stops = Stops(provision: string, obligation: string, control: string,
                         asset: Option<string>, evidence: Option<string>, test: Option<string>)

  datatype Row = Row(clauseId: string, path: seq<string>)

  datatype QueryError = MissingClauseId

  function Optional(id: Option<string>): seq<string> {
    match id case None => [] case Some(x) => [x]
  }

  /** The path as reported: missing stops are dropped. */
  function PathOf(s: Stops): seq<string> {
    [s.provision, s.obligation, s.control] + Optional(s.asset) + Optional(s.evidence) + Optional(s.test)
  }

  function Somes(ids: seq<string>): (r: seq<Option<string>>)
    ensures |r| == |ids|
    ensures None !in r
    ensures forall x :: Some(x) in r <==> x in ids
  {
    if ids == [] then []
    else
      var n := |ids| - 1;
      assert ids == ids[..n] + [ids[n]];
      Somes(ids[..n]) + [Some(ids[n])]
  }

  /** `ids or [None]`. */
  function OrNone(ids: seq<string>): (r: seq<Option<string>>)
    ensures r != []
  {
    if ids == [] then [None] else Somes(ids)
  }

  predicate IsKind(nodes: map<string, Node>, id: string, kind: NodeType) {
    id in nodes && nodes[id].kind == kind
  }

  /** An absent or empty evidence id has no test assets. */
  function TestsOf(rels: seq<Edge>, evidence: Option<string>): seq<string> {
    match evidence
    case None => []
    case Some(e) => if e == "" then [] else EdgesFrom(rels, e, EvidencedBy)
  }

  /** Results of `f` over `s`, one after another. */
  function FlatMap<A, B>(f: A -> seq<B>, s: seq<A>): seq<B> {
    if s == [] then [] else FlatMap(f, s[..|s| - 1]) + f(s[|s| - 1])
  }

  // ---- One function per loop, innermost first ----

  function TestLevel(p: string, o: string, c: string, a: Option<string>, e: Option<string>,
                     tests: seq<Option<string>>): seq<Stops> {
    FlatMap(t => [Stops(p, o, c, a, e, t)], tests)
  }

  function EvidenceLevel(rels: seq<Edge>, p: string, o: string, c: string, a: Option<string>,
                         evidence: seq<Option<string>>): seq<Stops> {
    FlatMap(e => TestLevel(p, o, c, a, e, OrNone(TestsOf(rels, e))), evidence)
  }

  function AssetLevel(rels: seq<Edge>, p: string, o: string, c: string, assets: seq<Option<string>>): seq<Stops> {
    FlatMap(a => EvidenceLevel(rels, p, o, c, a, OrNone(EdgesFrom(rels, c, SatisfiedBy))), assets)
  }

  function ForControl(nodes: map<string, Node>, rels: seq<Edge>, p: string, o: string, c: string): seq<Stops> {
    if IsKind(nodes, c, Control) then AssetLevel(rels, p, o, c, OrNone(EdgesFrom(rels, c, AffectsAsset))) else []
  }

  function ControlLevel(nodes: map<string, Node>, rels: seq<Edge>, p: string, o: string,
                        controls: seq<string>): seq<Stops> {
    FlatMap(c => ForControl(nodes, rels, p, o, c), controls)
  }

  function ForProvision(nodes: map<string, Node>, rels: seq<Edge>, p: string, o: string): seq<Stops> {
    if IsKind(nodes, p, Provision) then ControlLevel(nodes, rels, p, o, EdgesFrom(rels, o, MapsToControl)) else []
  }

  function ProvisionLevel(nodes: map<string, Node>, rels: seq<Edge>, o: string, provisions: seq<string>): seq<Stops> {
    FlatMap(p => ForProvision(nodes, rels, p, o), provisions)
  }

  function ForObligation(nodes: map<string, Node>, rels: seq<Edge>, o: string): seq<Stops> {
    if IsKind(nodes, o, Obligation) then ProvisionLevel(nodes, rels, o, EdgesFrom(rels, o, DerivedFrom)) else []
  }

  function ObligationLevel(nodes: map<string, Node>, rels: seq<Edge>, keys: seq<string>): seq<Stops> {
    FlatMap(o => ForObligation(nodes, rels, o), keys)
  }

  /** Every row of the query, as stops, in the order the loops find them. */
  function AllStops(c: Content): seq<Stops> {
    ObligationLevel(c.nodes.at, c.rels, c.nodes.keys)
  }

  function Paths(stops: seq<Stops>): seq<seq<string>> {
    seq(|stops|, i requires 0 <= i < |stops| => PathOf(stops[i]))
  }

  function ClauseOf(nodes: map<string, Node>, id: string): string {
    if id in nodes && nodes[id].props.clauseId.Some? then nodes[id].props.clauseId.value else ""
  }

  function Rows(nodes: map<string, Node>, stops: seq<Stops>): seq<Row> {
    seq(|stops|, i requires 0 <= i < |stops| => Row(ClauseOf(nodes, stops[i].obligation), PathOf(stops[i])))
  }

  /** Some obligation node carries no clause id: reading it raises. */
  predicate MissingClause(nodes: map<string, Node>, keys: seq<string>) {
    exists k | k in keys :: IsKind(nodes, k, Obligation) && nodes[k].props.clauseId.None?
  }

  /** The query's answer for one snapshot's content. */
  function Query(c: Content): Result<seq<Row>, QueryError> {
    if MissingClause(c.nodes.at, c.nodes.keys) then Err(MissingClauseId)
    else Ok(Rows(c.nodes.at, AllStops(c)))
  }

  // ---- The loops themselves ----

  lemma FlatMapSnoc<A, B>(f: A -> seq<B>, s: seq<A>, i: nat)
    requires i < |s|
    ensures FlatMap(f, s[..i + 1]) == FlatMap(f, s[..i]) + f(s[i])
  {
    assert s[..i + 1][..i] == s[..i];
  }

  /** The innermost loop: one row per test asset of an evidence requirement. */
  method LoopTests(rels: seq<Edge>, p: string, o: string, c: string, a: Option<string>, e: Option<string>)
    returns (found: seq<Stops>)
    ensures found == TestLevel(p, o, c, a, e, OrNone(TestsOf(rels, e)))
  {
    var tests := OrNone(TestsOf(rels, e));
    found := [];
    for k := 0 to |tests|
      invariant found == TestLevel(p, o, c, a, e, tests[..k])
    {
      TestLevelSnoc(p, o, c, a, e, tests, k);
      found := found + [Stops(p, o, c, a, e, tests[k])];
    }
    assert tests[..|tests|] == tests;
  }

  method LoopEvidence(rels: seq<Edge>, p: string, o: string, c: string, a: Option<string>,
                      evidence: seq<Option<string>>)
    returns (found: seq<Stops>)
    ensures found == EvidenceLevel(rels, p, o, c, a, evidence)
  {
    found := [];
    for j := 0 to |evidence|
      invariant found == EvidenceLevel(rels, p, o, c, a, evidence[..j])
    {
      EvidenceLevelSnoc(rels, p, o, c, a, evidence, j);
      var rows := LoopTests(rels, p, o, c, a, evidence[j]);
      found := found + rows;
    }
    assert evidence[..|evidence|] == evidence;
  }

  method LoopAssets(rels: seq<Edge>, p: string, o: string, c: string, assets: seq<Option<string>>)
    returns (found: seq<Stops>)
    ensures found == AssetLevel(rels, p, o, c, assets)
  {
    found := [];
    for i := 0 to |assets|
      invariant found == AssetLevel(rels, p, o, c, assets[..i])
    {
      AssetLevelSnoc(rels, p, o, c, assets, i);
      var rows := LoopEvidence(rels, p, o, c, assets[i], OrNone(EdgesFrom(rels, c, SatisfiedBy)));
      found := found + rows;
    }
    assert assets[..|assets|] == assets;
  }

  method LoopControls(nodes: map<string, Node>, rels: seq<Edge>, p: string, o: string, controls: seq<string>)
    returns (found: seq<Stops>)
    ensures found == ControlLevel(nodes, rels, p, o, controls)
  {
    found := [];
    for j := 0 to |controls|
      invariant found == ControlLevel(nodes, rels, p, o, controls[..j])
    {
      ControlLevelSnoc(nodes, rels, p, o, controls, j);
      if !IsKind(nodes, controls[j], Control) {
        continue;
      }
      var rows := LoopAssets(rels, p, o, controls[j], OrNone(EdgesFrom(rels, controls[j], AffectsAsset)));
      found := found + rows;
    }
    assert controls[..|controls|] == controls;
  }

  lemma TestLevelSnoc(p: string, o: string, c: string, a: Option<string>, e: Option<string>, tests: seq<Option<string>>,
                      i: nat)
    requires i < |tests|
    ensures TestLevel(p, o, c, a, e, tests[..i + 1])
      == TestLevel(p, o, c, a, e, tests[..i]) + [Stops(p, o, c, a, e, tests[i])]
  {
    FlatMapSnoc(t => [Stops(p, o, c, a, e, t)], tests, i);
  }

  lemma EvidenceLevelSnoc(rels: seq<Edge>, p: string, o: string, c: string, a: Option<string>,
                          evidence: seq<Option<string>>, i: nat)
    requires i < |evidence|
    ensures EvidenceLevel(rels, p, o, c, a, evidence[..i + 1])
         == EvidenceLevel(rels, p, o, c, a, evidence[..i])
           + TestLevel(p, o, c, a, evidence[i], OrNone(TestsOf(rels, evidence[i])))
  {
    FlatMapSnoc(e => TestLevel(p, o, c, a, e, OrNone(TestsOf(rels, e))), evidence, i);
  }

  lemma AssetLevelSnoc(rels: seq<Edge>, p: string, o: string, c: string, assets: seq<Option<string>>, i: nat)
    requires i < |assets|
    ensures AssetLevel(rels, p, o, c, assets[..i + 1])
         == AssetLevel(rels, p, o, c, assets[..i])
           + EvidenceLevel(rels, p, o, c, assets[i], OrNone(EdgesFrom(rels, c, SatisfiedBy)))
  {
    FlatMapSnoc(a => EvidenceLevel(rels, p, o, c, a, OrNone(EdgesFrom(rels, c, SatisfiedBy))), assets, i);
  }

  lemma ControlLevelSnoc(nodes: map<string, Node>, rels: seq<Edge>, p: string, o: string, controls: seq<string>, i: nat)
    requires i < |controls|
    ensures ControlLevel(nodes, rels, p, o, controls[..i + 1])
         == ControlLevel(nodes, rels, p, o, controls[..i]) + ForControl(nodes, rels, p, o, controls[i])
  {
    FlatMapSnoc(c => ForControl(nodes, rels, p, o, c), controls, i);
  }

  lemma ProvisionLevelSnoc(nodes: map<string, Node>, rels: seq<Edge>, o: string, provisions: seq<string>, i: nat)
    requires i < |provisions|
    ensures ProvisionLevel(nodes, rels, o, provisions[..i + 1])
         == ProvisionLevel(nodes, rels, o, provisions[..i]) + ForProvision(nodes, rels, provisions[i], o)
  {
    FlatMapSnoc(p => ForProvision(nodes, rels, p, o), provisions, i);
  }

  lemma ObligationLevelSnoc(nodes: map<string, Node>, rels: seq<Edge>, keys: seq<string>, i: nat)
    requires i < |keys|
    ensures ObligationLevel(nodes, rels, keys[..i + 1])
         == ObligationLevel(nodes, rels, keys[..i]) + ForObligation(nodes, rels, keys[i])
  {
    FlatMapSnoc(o => ForObligation(nodes, rels, o), keys, i);
  }

  method LoopProvisions(nodes: map<string, Node>, rels: seq<Edge>, o: string, provisions: seq<string>)
    returns (found: seq<Stops>)
    ensures found == ProvisionLevel(nodes, rels, o, provisions)
  {
    found := [];
    for i := 0 to |provisions|
      invariant found == ProvisionLevel(nodes, rels, o, provisions[..i])
    {
      ProvisionLevelSnoc(nodes, rels, o, provisions, i);
      if !IsKind(nodes, provisions[i], Provision) {
        continue;
      }
      var rows := LoopControls(nodes, rels, provisions[i], o, EdgesFrom(rels, o, MapsToControl));
      found := found + rows;
    }
    assert provisions[..|provisions|] == provisions;
  }

  lemma RowsConcat(nodes: map<string, Node>, a: seq<Stops>, b: seq<Stops>)
    ensures Rows(nodes, a + b) == Rows(nodes, a) + Rows(nodes, b)
  {
  }

  method QueryContent(c: Content) returns (r: Result<seq<Row>, QueryError>)
    ensures r == Query(c)
  {
    var nodes, keys := c.nodes.at, c.nodes.keys;
    var results := [];
    for i := 0 to |keys|
      invariant results == Rows(nodes, ObligationLevel(nodes, c.rels, keys[..i]))
      invariant !MissingClause(nodes, keys[..i])
    {
      ObligationLevelSnoc(nodes, c.rels, keys, i);
      assert keys[..i + 1] == keys[..i] + [keys[i]];
      if !IsKind(nodes, keys[i], Obligation) {
        continue;
      }
      if nodes[keys[i]].props.clauseId.None? {
        assert keys[i] in keys;
        return Err(MissingClauseId);
      }
      var found := LoopProvisions(nodes, c.rels, keys[i], EdgesFrom(c.rels, keys[i], DerivedFrom));
      RowsConcat(nodes, ObligationLevel(nodes, c.rels, keys[..i]), found);
      results := results + Rows(nodes, found);
    }
    assert keys[..|keys|] == keys;
    r := Ok(results);
  }
}
