/** What the proof-path query means: each row is counted exactly, and the complete
    rows of a well-formed snapshot are the matches of the declarative pattern. */
module ProofPathPattern {
  import opened Common
  import opened Ontology
  import opened Graph
  import opened Constraints
  import opened ProofPath

  /** How often `x` occurs in `s`. */
  function Times<T(==)>(x: T, s: seq<T>): nat {
    multiset(s)[x]
  }

  lemma TimesSnoc<T>(x: T, s: seq<T>)
    requires s != []
    ensures Times(x, s) == Times(x, s[..|s| - 1]) + if s[|s| - 1] == x then 1 else 0
  {
    assert s == s[..|s| - 1] + [s[|s| - 1]];
  }

  /** `a * b` as repeated addition, which keeps the counting arguments linear. */
  function Product(a: nat, b: nat): (r: nat)
    ensures (a == 0 || b == 0) ==> r == 0
    ensures a == 1 ==> r == b
    ensures b == 1 ==> r == a
    ensures a > 0 && b > 0 ==> r > 0
  {
    if a == 0 then 0 else Product(a - 1, b) + b
  }

  lemma {:induction false} ProductIsMultiplication(a: nat, b: nat)
    ensures Product(a, b) == a * b
  {
    if a > 0 {
      ProductIsMultiplication(a - 1, b);
      assert (a - 1) * b + b == a * b;
    }
  }

  function NumberIf(condition: bool, n: nat): nat {
    if condition then n else 0
  }

  /** If each occurrence of `key` produces `b` exactly `m` times, and no other
      input produces it, then `b` occurs `m` times per occurrence of `key`. */
  lemma {:induction false} FlatCount<A, B>(f: A -> seq<B>, s: seq<A>, key: A, b: B, q: bool, m: nat)
    requires forall i :: 0 <= i < |s| ==> Times(b, f(s[i])) == NumberIf(q && s[i] == key, m)
    ensures Times(b, FlatMap(f, s)) == NumberIf(q, Product(Times(key, s), m))
  {
    if s != [] {
      var n := |s| - 1;
      assert forall i :: 0 <= i < n ==> s[..n][i] == s[i];
      FlatCount(f, s[..n], key, b, q, m);
      TimesSnoc(key, s);
      TimesConcat(b, FlatMap(f, s[..n]), f(s[n]));
    }
  }

  lemma TimesConcat<T>(x: T, a: seq<T>, b: seq<T>)
    ensures Times(x, a + b) == Times(x, a) + Times(x, b)
  {
  }


  lemma CountTests(s: Stops, p: string, o: string, c: string, a: Option<string>, e: Option<string>,
                   tests: seq<Option<string>>)
    ensures Times(s, TestLevel(p, o, c, a, e, tests))
         == NumberIf(s.provision == p && s.obligation == o && s.control == c && s.asset == a
           && s.evidence == e, Times(s.test, tests))
  {
    var q := s.provision == p && s.obligation == o && s.control == c && s.asset == a && s.evidence == e;
    forall t ensures Times(s, [Stops(p, o, c, a, e, t)]) == NumberIf(q && t == s.test, 1) {
      assert Times(s, [Stops(p, o, c, a, e, t)]) == NumberIf(Stops(p, o, c, a, e, t) == s, 1);
    }
    FlatCount(t => [Stops(p, o, c, a, e, t)], tests, s.test, s, q, 1);
  }

  lemma CountEvidence(s: Stops, rels: seq<Edge>, p: string, o: string, c: string, a: Option<string>,
                      evidence: seq<Option<string>>)
    ensures Times(s, EvidenceLevel(rels, p, o, c, a, evidence))
         == NumberIf(s.provision == p && s.obligation == o && s.control == c && s.asset == a,
               Product(Times(s.evidence, evidence), Times(s.test, OrNone(TestsOf(rels, s.evidence)))))
  {
    hide TestLevel, OrNone, TestsOf, Product;
    var q := s.provision == p && s.obligation == o && s.control == c && s.asset == a;
    var m := Times(s.test, OrNone(TestsOf(rels, s.evidence)));
    forall e ensures Times(s, TestLevel(p, o, c, a, e, OrNone(TestsOf(rels, e)))) == NumberIf(q && e == s.evidence, m) {
      CountTests(s, p, o, c, a, e, OrNone(TestsOf(rels, e)));
    }
    FlatCount(e => TestLevel(p, o, c, a, e, OrNone(TestsOf(rels, e))), evidence, s.evidence, s, q, m);
  }

  /** Rows below one asset that carry the stops of `s`. */
  function BelowAsset(s: Stops, rels: seq<Edge>): nat {
    Product(Times(s.evidence, OrNone(EdgesFrom(rels, s.control, SatisfiedBy))),
      Times(s.test, OrNone(TestsOf(rels, s.evidence))))
  }

  /** Rows below one control that carry the stops of `s`. */
  function BelowControl(s: Stops, rels: seq<Edge>): nat {
    Product(Times(s.asset, OrNone(EdgesFrom(rels, s.control, AffectsAsset))), BelowAsset(s, rels))
  }

  lemma CountAssets(s: Stops, rels: seq<Edge>, p: string, o: string, c: string, assets: seq<Option<string>>)
    ensures Times(s, AssetLevel(rels, p, o, c, assets))
         == NumberIf(s.provision == p && s.obligation == o
           && s.control == c, Product(Times(s.asset, assets), BelowAsset(s, rels)))
  {
    hide EvidenceLevel, OrNone, Product, EdgesFrom;
    var q := s.provision == p && s.obligation == o && s.control == c;
    var m := BelowAsset(s, rels);
    forall a
      ensures Times(s, EvidenceLevel(rels, p, o, c, a, OrNone(EdgesFrom(rels, c, SatisfiedBy))))
        == NumberIf(q && a == s.asset, m)
    {
      CountEvidence(s, rels, p, o, c, a, OrNone(EdgesFrom(rels, c, SatisfiedBy)));
    }
    FlatCount(a => EvidenceLevel(rels, p, o, c, a, OrNone(EdgesFrom(rels, c, SatisfiedBy))), assets, s.asset, s, q, m);
  }

  lemma CountForControl(s: Stops, nodes: map<string, Node>, rels: seq<Edge>, p: string, o: string, c: string)
    ensures Times(s, ForControl(nodes, rels, p, o, c))
         == NumberIf(s.provision == p && s.obligation == o && s.control == c
           && IsKind(nodes, c, Control), BelowControl(s, rels))
  {
    CountAssets(s, rels, p, o, c, OrNone(EdgesFrom(rels, c, AffectsAsset)));
  }

  lemma CountControls(s: Stops, nodes: map<string, Node>, rels: seq<Edge>, p: string, o: string, controls: seq<string>)
    ensures Times(s, ControlLevel(nodes, rels, p, o, controls))
         == NumberIf(s.provision == p && s.obligation == o,
               Product(Times(s.control, controls), NumberIf(IsKind(nodes, s.control, Control), BelowControl(s, rels))))
  {
    hide BelowControl, ForControl;
    var q := s.provision == p && s.obligation == o;
    var m := NumberIf(IsKind(nodes, s.control, Control), BelowControl(s, rels));
    forall c ensures Times(s, ForControl(nodes, rels, p, o, c)) == NumberIf(q && c == s.control, m) {
      CountForControl(s, nodes, rels, p, o, c);
    }
    FlatCount(c => ForControl(nodes, rels, p, o, c), controls, s.control, s, q, m);
  }

  function BelowProvision(s: Stops, nodes: map<string, Node>, rels: seq<Edge>): nat {
    Product(Times(s.control, EdgesFrom(rels, s.obligation, MapsToControl)),
      NumberIf(IsKind(nodes, s.control, Control), BelowControl(s, rels)))
  }

  lemma CountForProvision(s: Stops, nodes: map<string, Node>, rels: seq<Edge>, p: string, o: string)
    ensures Times(s, ForProvision(nodes, rels, p, o))
         == NumberIf(s.provision == p && s.obligation == o
           && IsKind(nodes, p, Provision), BelowProvision(s, nodes, rels))
  {
    hide BelowControl;
    CountControls(s, nodes, rels, p, o, EdgesFrom(rels, o, MapsToControl));
  }

  lemma CountProvisions(s: Stops, nodes: map<string, Node>, rels: seq<Edge>, o: string, provisions: seq<string>)
    ensures Times(s, ProvisionLevel(nodes, rels, o, provisions))
         == NumberIf(s.obligation == o,
               Product(Times(s.provision, provisions),
                 NumberIf(IsKind(nodes, s.provision, Provision), BelowProvision(s, nodes, rels))))
  {
    hide BelowProvision, ForProvision;
    var q := s.obligation == o;
    var m := NumberIf(IsKind(nodes, s.provision, Provision), BelowProvision(s, nodes, rels));
    forall p ensures Times(s, ForProvision(nodes, rels, p, o)) == NumberIf(q && p == s.provision, m) {
      CountForProvision(s, nodes, rels, p, o);
    }
    FlatCount(p => ForProvision(nodes, rels, p, o), provisions, s.provision, s, q, m);
  }

  function BelowObligation(s: Stops, nodes: map<string, Node>, rels: seq<Edge>): nat {
    Product(Times(s.provision, EdgesFrom(rels, s.obligation, DerivedFrom)),
      NumberIf(IsKind(nodes, s.provision, Provision), BelowProvision(s, nodes, rels)))
  }

  lemma {:induction false} DistinctTimes<T>(x: T, s: seq<T>)
    requires Distinct(s)
    ensures Times(x, s) == if x in s then 1 else 0
  {
    if s != [] {
      var n := |s| - 1;
      TimesSnoc(x, s);
      assert s == s[..n] + [s[n]];
      DistinctTimes(x, s[..n]);
      assert forall i :: 0 <= i < n ==> s[..n][i] == s[i] != s[n];
    }
  }

  lemma CountForObligation(s: Stops, nodes: map<string, Node>, rels: seq<Edge>, o: string)
    ensures Times(s, ForObligation(nodes, rels, o))
      == NumberIf(s.obligation == o && IsKind(nodes, o, Obligation), BelowObligation(s, nodes, rels))
  {
    hide BelowProvision;
    CountProvisions(s, nodes, rels, o, EdgesFrom(rels, o, DerivedFrom));
  }

  /** Every row of the query, counted along the nesting of the loops. */
  lemma CountNested(s: Stops, c: Content)
    requires c.nodes.Valid()
    ensures Times(s, AllStops(c))
      == NumberIf(IsKind(c.nodes.at, s.obligation, Obligation), BelowObligation(s, c.nodes.at, c.rels))
  {
    hide ForObligation, BelowObligation;
    var nodes, rels, keys := c.nodes.at, c.rels, c.nodes.keys;
    var m := NumberIf(IsKind(nodes, s.obligation, Obligation), BelowObligation(s, nodes, rels));
    forall o ensures Times(s, ForObligation(nodes, rels, o)) == NumberIf(true && o == s.obligation, m) {
      CountForObligation(s, nodes, rels, o);
    }
    FlatCount(o => ForObligation(nodes, rels, o), keys, s.obligation, s, true, m);
    DistinctTimes(s.obligation, keys);
  }

  // ---- The declarative pattern ----

  /** Provision <- obligation -> control -> asset, and control -> evidence
      requirement -> test asset: the six matched ids in that order. */
  ghost predicate Matches(nodes: map<string, Node>, rels: seq<Edge>, q: seq<string>) {
    && |q| == 6
    && IsKind(nodes, q[0], Provision) && IsKind(nodes, q[1], Obligation) && IsKind(nodes, q[2], Control)
    && IsKind(nodes, q[3], Asset) && IsKind(nodes, q[4], EvidenceRequirement) && IsKind(nodes, q[5], TestAsset)
    && Edge(q[1], q[0], DerivedFrom) in rels
    && Edge(q[1], q[2], MapsToControl) in rels
    && Edge(q[2], q[3], AffectsAsset) in rels
    && Edge(q[2], q[4], SatisfiedBy) in rels
    && Edge(q[4], q[5], EvidencedBy) in rels
  }

  /** The stops of a complete path. */
  function Complete(q: seq<string>): (s: Stops)
    requires |q| == 6
    ensures PathOf(s) == q
  {
    Stops(q[0], q[1], q[2], Some(q[3]), Some(q[4]), Some(q[5]))
  }

  lemma {:induction false} TimesEdge(rels: seq<Edge>, e: Edge)
    ensures Times(e.dst, EdgesFrom(rels, e.src, e.kind)) == Times(e, rels)
  {
    if rels != [] {
      var n := |rels| - 1;
      TimesEdge(rels[..n], e);
      TimesSnoc(e, rels);
      var last := if rels[n].src == e.src && rels[n].kind == e.kind then [rels[n].dst] else [];
      TimesConcat(e.dst, EdgesFrom(rels[..n], e.src, e.kind), last);
    }
  }

  lemma {:induction false} TimesSomes(x: string, ids: seq<string>)
    ensures Times(Some(x), Somes(ids)) == Times(x, ids)
  {
    if ids != [] {
      var n := |ids| - 1;
      TimesSomes(x, ids[..n]);
      TimesSnoc(x, ids);
      TimesConcat(Some(x), Somes(ids[..n]), [Some(ids[n])]);
    }
  }

  /** Parallel edges seen through the loops' outer-join lists. */
  lemma TimesSome(rels: seq<Edge>, src: string, dst: string, kind: RelType)
    ensures Times(Some(dst), OrNone(EdgesFrom(rels, src, kind))) == Times(Edge(src, dst, kind), rels)
  {
    TimesEdge(rels, Edge(src, dst, kind));
    TimesSomes(dst, EdgesFrom(rels, src, kind));
  }

  // ---- Every row, by its edges ----

  /** No edge of this kind leaves the node. */
  ghost predicate NoEdgeOut(rels: seq<Edge>, src: string, kind: RelType) {
    forall dst :: Edge(src, dst, kind) !in rels
  }

  /** The ways to go on to the next stop: one per parallel edge to a stop that is
      there; a missing stop stands for the single way to stop, if no edge leads on. */
  ghost function Ways(rels: seq<Edge>, src: string, kind: RelType, next: Option<string>): nat {
    match next
    case Some(dst) => Times(Edge(src, dst, kind), rels)
    case None => if NoEdgeOut(rels, src, kind) then 1 else 0
  }

  /** An absent or empty evidence id leads to no test. */
  ghost function TestWays(rels: seq<Edge>, s: Stops): nat {
    if s.evidence.None? || s.evidence.value == "" then (if s.test.None? then 1 else 0)
    else Ways(rels, s.evidence.value, EvidencedBy, s.test)
  }

  lemma {:induction false} NoNone(ids: seq<string>)
    ensures Times(None, Somes(ids)) == 0
  {
    assert None !in Somes(ids);
  }

  lemma WaysAreListed(rels: seq<Edge>, src: string, kind: RelType, next: Option<string>)
    ensures Times(next, OrNone(EdgesFrom(rels, src, kind))) == Ways(rels, src, kind, next)
  {
    match next
    case Some(dst) => TimesSome(rels, src, dst, kind);
    case None =>
      var ids := EdgesFrom(rels, src, kind);
      NoNone(ids);
      assert ids != [] ==> ids[0] in ids;
  }

  lemma TestWaysAreListed(rels: seq<Edge>, s: Stops)
    ensures Times(s.test, OrNone(TestsOf(rels, s.evidence))) == TestWays(rels, s)
  {
    if s.evidence.None? || s.evidence.value == "" {
      assert OrNone([]) == [None] && TestsOf(rels, s.evidence) == [];
    } else {
      WaysAreListed(rels, s.evidence.value, EvidencedBy, s.test);
    }
  }

  /** Every row of the query, partial or complete, on any content: an obligation, a
      provision and a control are reported with a combination of stops as often as
      there are combinations of parallel edges between them, and nothing else is. */
  lemma CountRows(s: Stops, c: Content)
    requires c.nodes.Valid()
    ensures var at, rels := c.nodes.at, c.rels;
      Times(s, AllStops(c)) ==
        if s.obligation in at && at[s.obligation].kind == Obligation && s.provision in at
          && at[s.provision].kind == Provision && s.control in at && at[s.control].kind == Control
        then Times(Edge(s.obligation, s.provision, DerivedFrom), rels)
          * Times(Edge(s.obligation, s.control, MapsToControl), rels)
          * Ways(rels, s.control, AffectsAsset, s.asset) * Ways(rels, s.control, SatisfiedBy, s.evidence)
          * TestWays(rels, s)
        else 0
  {
    hide Product, Ways, TestWays, OrNone, TestsOf, EdgesFrom, AllStops;
    var rels := c.rels;
    CountNested(s, c);
    TimesEdge(rels, Edge(s.obligation, s.provision, DerivedFrom));
    TimesEdge(rels, Edge(s.obligation, s.control, MapsToControl));
    WaysAreListed(rels, s.control, AffectsAsset, s.asset);
    WaysAreListed(rels, s.control, SatisfiedBy, s.evidence);
    TestWaysAreListed(rels, s);
    FiveFactors(Times(Edge(s.obligation, s.provision, DerivedFrom), rels),
      Times(Edge(s.obligation, s.control, MapsToControl), rels), Ways(rels, s.control, AffectsAsset, s.asset),
      Ways(rels, s.control, SatisfiedBy, s.evidence), TestWays(rels, s));
  }

  lemma FiveFactors(a: nat, b: nat, c: nat, d: nat, e: nat)
    ensures Product(a, Product(b, Product(c, Product(d, e)))) == a * b * c * d * e
  {
    hide Product;
    FourFactors(b, c, d, e);
    ProductIsMultiplication(a, b * c * d * e);
    MoveIn(a, b, c, d, e);
  }

  lemma MoveIn(a: nat, b: nat, c: nat, d: nat, e: nat)
    ensures a * (b * c * d * e) == a * b * c * d * e
  {
    var x, y := b * c * d, b * c;
    Associative(a, x, e);
    Associative(a, y, d);
    Associative(a, b, c);
    SameTimes(a * x, a * y * d, e);
    SameTimes(a * y, a * b * c, d);
    SameTimes(a * y * d, a * b * c * d, e);
  }

  lemma SameTimes(p: nat, q: nat, e: nat)
    requires p == q
    ensures p * e == q * e
  {
  }

  /** A reported path starts with the three stops that are always there, and goes on
      with those of the other three that are, in the order asset, evidence, test. */
  lemma PathMeaning(s: Stops)
    ensures var path := PathOf(s);
      && |path| == 3 + (if s.asset.Some? then 1 else 0) + (if s.evidence.Some? then 1 else 0)
        + (if s.test.Some? then 1 else 0)
      && path[..3] == [s.provision, s.obligation, s.control]
      && (s.asset.Some? ==> path[3] == s.asset.value)
      && (s.evidence.Some? ==> path[if s.asset.Some? then 4 else 3] == s.evidence.value)
      && (s.test.Some? ==> path[|path| - 1] == s.test.value)
  {
  }

  /** A six-entry path comes from complete stops only. */
  lemma {:induction false} TimesPath(q: seq<string>, stops: seq<Stops>)
    requires |q| == 6
    ensures Times(q, Paths(stops)) == Times(Complete(q), stops)
  {
    if stops != [] {
      var n := |stops| - 1;
      TimesPath(q, stops[..n]);
      TimesSnoc(Complete(q), stops);
      assert Paths(stops) == Paths(stops[..n]) + [PathOf(stops[n])];
      TimesConcat(q, Paths(stops[..n]), [PathOf(stops[n])]);
      PathOfComplete(stops[n], q);
    }
  }

  lemma PathOfComplete(s: Stops, q: seq<string>)
    requires |q| == 6
    ensures PathOf(s) == q <==> s == Complete(q)
  {
    if PathOf(s) == q {
      assert s.asset.Some? && s.evidence.Some? && s.test.Some?;
      var path := [s.provision, s.obligation, s.control, s.asset.value, s.evidence.value, s.test.value];
      assert PathOf(s) == path;
      assert path[0] == q[0] && path[1] == q[1] && path[2] == q[2] && path[3] == q[3] && path[4] == q[4]
        && path[5] == q[5];
    }
  }

  lemma {:induction false} TypesOfNodes(nodes: seq<Node>)
    ensures NodeTypes(nodes).Keys == ById(nodes).at.Keys
    ensures forall k :: k in NodeTypes(nodes) ==> NodeTypes(nodes)[k] == ById(nodes).at[k].kind
  {
    if nodes != [] {
      TypesOfNodes(nodes[..|nodes| - 1]);
    }
  }

  lemma OnePosition<T>(x: T, s: seq<T>, i: nat)
    requires i < |s| && s[i] == x
    requires forall j :: 0 <= j < |s| && s[j] == x ==> j == i
    ensures Times(x, s) == 1
  {
    assert s == s[..i] + [x] + s[i + 1..];
    assert x !in s[..i] && x !in s[i + 1..];
  }

  /** In a passing change set each obligation's provision edge has no parallel. */
  lemma ProvisionEdgeIsSingle(nodes: seq<Node>, rels: seq<Edge>, o: string, p: string)
    requires Passes(nodes, rels)
    requires IsKind(ById(nodes).at, o, Obligation) && IsKind(ById(nodes).at, p, Provision)
    ensures Times(Edge(o, p, DerivedFrom), rels) == NumberIf(Edge(o, p, DerivedFrom) in rels, 1)
  {
    var e := Edge(o, p, DerivedFrom);
    if e in rels {
      PassIffWellFormed(nodes, rels);
      TypesOfNodes(nodes);
      assert DerivedOnce(rels, o, NodeTypes(nodes)) by {
        assert ById(nodes).at[o] in nodes;
      }
      var i :| 0 <= i < |rels| && rels[i] == e;
      assert TypedEdge(rels[i], o, DerivedFrom, Provision, NodeTypes(nodes));
      OnePosition(e, rels, i);
    }
  }

  /** In a passing change set every edge joins known nodes by an allowed pair. */
  lemma EdgeIsTyped(nodes: seq<Node>, rels: seq<Edge>, e: Edge)
    requires Passes(nodes, rels) && e in rels
    ensures var at := ById(nodes).at;
            e.src in at && e.dst in at && IsPairAllowed(e.kind, at[e.src].kind, at[e.dst].kind)
  {
    PassIffWellFormed(nodes, rels);
    TypesOfNodes(nodes);
  }

  /** So the pair table fixes the kinds that the loops do not check. */
  lemma TargetsAreTyped(nodes: seq<Node>, rels: seq<Edge>, src: string, dst: string)
    requires Passes(nodes, rels)
    ensures Edge(src, dst, AffectsAsset) in rels ==> IsKind(ById(nodes).at, dst, Asset)
    ensures Edge(src, dst, SatisfiedBy) in rels ==> IsKind(ById(nodes).at, dst, EvidenceRequirement)
    ensures Edge(src, dst, EvidencedBy) in rels ==> IsKind(ById(nodes).at, dst, TestAsset)
  {
    var at := ById(nodes).at;
    forall kind | Edge(src, dst, kind) in rels
      ensures src in at && dst in at && IsPairAllowed(kind, at[src].kind, at[dst].kind)
    {
      EdgeIsTyped(nodes, rels, Edge(src, dst, kind));
    }
    if src in at && dst in at {
      AffectsAssetPairs(at[src].kind, at[dst].kind);
      SatisfiedByPairs(at[src].kind, at[dst].kind);
      EvidencedByPairs(at[src].kind, at[dst].kind);
    }
  }

  /** Combinations of parallel edges along a matched path. */
  function ParallelEdges(rels: seq<Edge>, q: seq<string>): nat
    requires |q| == 6
  {
    Times(Edge(q[1], q[2], MapsToControl), rels) * Times(Edge(q[2], q[3], AffectsAsset), rels)
    * Times(Edge(q[2], q[4], SatisfiedBy), rels) * Times(Edge(q[4], q[5], EvidencedBy), rels)
  }

  /** The same number as the counting lemmas build it up. */
  function NestedEdges(rels: seq<Edge>, q: seq<string>): nat
    requires |q| == 6
  {
    Product(Times(Edge(q[1], q[2], MapsToControl), rels),
            Product(Times(Edge(q[2], q[3], AffectsAsset), rels),
                    Product(Times(Edge(q[2], q[4], SatisfiedBy), rels), Times(Edge(q[4], q[5], EvidencedBy), rels))))
  }

  lemma NestedIsParallel(rels: seq<Edge>, q: seq<string>)
    requires |q| == 6
    ensures NestedEdges(rels, q) == ParallelEdges(rels, q)
  {
    var a, b := Times(Edge(q[1], q[2], MapsToControl), rels), Times(Edge(q[2], q[3], AffectsAsset), rels);
    var c, d := Times(Edge(q[2], q[4], SatisfiedBy), rels), Times(Edge(q[4], q[5], EvidencedBy), rels);
    FourFactors(a, b, c, d);
  }

  lemma FourFactors(a: nat, b: nat, c: nat, d: nat)
    ensures Product(a, Product(b, Product(c, d))) == a * b * c * d
  {
    hide Product;
    ProductIsMultiplication(c, d);
    ProductIsMultiplication(b, c * d);
    ProductIsMultiplication(a, b * (c * d));
    Associative(b, c, d);
    Associative(a, b * c, d);
    Associative(a, b, c);
  }

  lemma Associative(a: nat, b: nat, c: nat)
    ensures a * (b * c) == a * b * c
  {
  }

  /** The complete stops are counted by the edges themselves. */
  lemma CountComplete(q: seq<string>, c: Content)
    requires c.nodes.Valid() && |q| == 6
    ensures Times(q, Paths(AllStops(c)))
         == NumberIf(IsKind(c.nodes.at, q[1], Obligation) && IsKind(c.nodes.at, q[0], Provision)
           && IsKind(c.nodes.at, q[2], Control) && q[4] != "",
               Product(Times(Edge(q[1], q[0], DerivedFrom), c.rels), NestedEdges(c.rels, q)))
  {
    var s, rels := Complete(q), c.rels;
    TimesPath(q, AllStops(c));
    CountNested(s, c);
    TimesEdge(rels, Edge(q[1], q[0], DerivedFrom));
    TimesEdge(rels, Edge(q[1], q[2], MapsToControl));
    TimesSome(rels, q[2], q[3], AffectsAsset);
    TimesSome(rels, q[2], q[4], SatisfiedBy);
    if q[4] == "" {
      assert Times(s.test, OrNone(TestsOf(rels, s.evidence))) == 0;
    } else {
      TimesSome(rels, q[4], q[5], EvidencedBy);
    }
  }

  /** On the snapshot of a passing change set, a complete path is reported once
      for each combination of parallel edges along it when it matches the pattern
      and its evidence id is not the empty string, and never otherwise. */
  lemma QueryCountsMatches(nodes: seq<Node>, rels: seq<Edge>, q: seq<string>)
    requires Passes(nodes, rels) && |q| == 6
    ensures var c := ContentOf(nodes, rels);
            Times(q, Paths(AllStops(c))) == if Matches(c.nodes.at, rels, q) && q[4] != "" then ParallelEdges(rels, q)
              else 0
    ensures var c := ContentOf(nodes, rels); Matches(c.nodes.at, rels, q) ==> ParallelEdges(rels, q) > 0
  {
    hide ParallelEdges;
    var c := ContentOf(nodes, rels);
    NestedIsParallel(rels, q);
    CountComplete(q, c);
    if IsKind(c.nodes.at, q[1], Obligation) && IsKind(c.nodes.at, q[0], Provision)
      && IsKind(c.nodes.at, q[2], Control) {
      ProvisionEdgeIsSingle(nodes, rels, q[1], q[0]);
      TargetsAreTyped(nodes, rels, q[2], q[3]);
      TargetsAreTyped(nodes, rels, q[2], q[4]);
      TargetsAreTyped(nodes, rels, q[4], q[5]);
    }
  }

  /** As a set, the complete paths are exactly the matches with a non-empty
      evidence id. */
  lemma QueryRefinesPattern(nodes: seq<Node>, rels: seq<Edge>)
    requires Passes(nodes, rels)
    ensures var c := ContentOf(nodes, rels);
            forall q :: q in Paths(AllStops(c)) && |q| == 6 <==> Matches(c.nodes.at, rels, q) && q[4] != ""
  {
    hide ParallelEdges;
    var c := ContentOf(nodes, rels);
    forall q ensures q in Paths(AllStops(c)) && |q| == 6 <==> Matches(c.nodes.at, rels, q) && q[4] != "" {
      if |q| == 6 {
        QueryCountsMatches(nodes, rels, q);
      }
    }
  }

  /** The reported rows are those stops, each with its path and with the clause id of
      its obligation; the query raises exactly when an obligation has no clause id. */
  lemma QueryPaths(c: Content)
    requires c.nodes.Valid()
    ensures Query(c).Ok? ==> |Query(c).value| == |AllStops(c)| && forall i :: 0 <= i < |AllStops(c)| ==>
      && Query(c).value[i].path == PathOf(AllStops(c)[i])
      && var o := AllStops(c)[i].obligation;
        o in c.nodes.at && c.nodes.at[o].props.clauseId == Some(Query(c).value[i].clauseId)
    ensures Query(c).Err? <==>
      exists n :: n in c.nodes.at && c.nodes.at[n].kind == Obligation && c.nodes.at[n].props.clauseId.None?
  {
    hide AllStops, PathOf;
    var stops := AllStops(c);
    forall i | 0 <= i < |stops|
      ensures stops[i].obligation in c.nodes.keys && IsKind(c.nodes.at, stops[i].obligation, Obligation)
    {
      assert stops[i] in stops;
      CountRows(stops[i], c);
    }
    assert forall n :: n in c.nodes.keys <==> n in c.nodes.at;
  }
}
