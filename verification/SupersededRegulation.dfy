/** Which regulation the store calls the latest of an instrument after obligations
    have been mapped and published, whatever instruments and versions they mix. */
module SupersededRegulation {
  import opened Common
  import opened PyDict
  import opened Ontology
  import opened Graph
  import opened Constraints
  import opened ProofPath
  import opened GraphStore
  import opened Anchors
  import opened Mapping
  import opened MappingShape
  import opened MappingTypeChecks
  import opened ReviewStatuses

  // ---- The versions that get a node ----

  function Add(vs: seq<string>, v: string): seq<string> {
    if v in vs then vs else vs + [v]
  }

  function AddPrior(vs: seq<string>, prior: Option<string>): seq<string> {
    if prior.Some? then Add(vs, prior.value) else vs
  }

  /** The versions of an instrument that get a regulation node, in the order in which
      they do: for each of its obligations its own version, then the superseded one. */
  function MadeVersions(ctx: Context, os: seq<Source>, instrument: string): seq<string> {
    if os == [] then []
    else
      var vs, o := MadeVersions(ctx, os[..|os| - 1], instrument), os[|os| - 1];
      if o.instrument != instrument then vs
      else AddPrior(Add(vs, o.sourceVersion), Superseded(ctx, o.sourceVersion))
  }

  /** The obligation makes the version's node. */
  predicate Makes(ctx: Context, o: Source, instrument: string, v: string) {
    o.instrument == instrument && (v == o.sourceVersion || Superseded(ctx, o.sourceVersion) == Some(v))
  }

  lemma {:induction false} VersionsMeaning(ctx: Context, os: seq<Source>, instrument: string, v: string)
    ensures v in MadeVersions(ctx, os, instrument) <==> exists o :: o in os && Makes(ctx, o, instrument, v)
  {
    if os != [] {
      var front, o := os[..|os| - 1], os[|os| - 1];
      VersionsMeaning(ctx, front, instrument, v);
      Snoc(os);
      assert v in MadeVersions(ctx, os, instrument) <==>
        v in MadeVersions(ctx, front, instrument) || Makes(ctx, o, instrument, v);
      if x :| x in front && Makes(ctx, x, instrument, v) {
        assert x in os;
      }
    }
  }

  /** The obligation uses the id of this version's regulation for nothing else. */
  predicate LeavesFree(ctx: Context, o: Source, instrument: string, v: string) {
    && RegulationId(instrument, v) !in OwnActors(ctx, o)
    && (o.instrument != instrument ==>
          && RegulationId(o.instrument, o.sourceVersion) != RegulationId(instrument, v)
          && (Superseded(ctx, o.sourceVersion).Some? ==>
                RegulationId(o.instrument, Superseded(ctx, o.sourceVersion).value) != RegulationId(instrument, v)))
  }

  /** The ids of the instrument's regulations stand for nothing else: no actor resolves
      to one, and no other instrument has one of them. */
  ghost predicate OwnRegulations(ctx: Context, os: seq<Source>, instrument: string) {
    forall o, v :: o in os && v in MadeVersions(ctx, os, instrument) ==> LeavesFree(ctx, o, instrument, v)
  }

  lemma SplitRegulationId(i: string, v: string, j: string, u: string)
    requires ColonFree(i) && ColonFree(j) && RegulationId(i, v) == RegulationId(j, u)
    ensures i == j && v == u
  {
    var s := RegulationId(i, v)[|"regulation:"|..];
    assert RegulationId(i, v) == "regulation:" + (i + ":" + v) && RegulationId(j, u) == "regulation:" + (j + ":" + u);
    assert s == i + ":" + v && s == j + ":" + u;
    FirstColonAt(i, v);
    FirstColonAt(j, u);
    assert s[..|i|] == i && s[..|i|] == j && s[|i| + 1..] == v && s[|i| + 1..] == u;
  }

  /** That is so when instruments contain no colon and no actor resolves to a node of
      another type, as in every proposal that passes the rules. */
  lemma ApartIsOwn(ctx: Context, os: seq<Source>, instrument: string)
    requires ActorsApart(ctx, os)
    requires ColonFree(instrument) && forall o :: o in os ==> ColonFree(o.instrument)
    ensures OwnRegulations(ctx, os, instrument)
  {
    hide RegulationId, OwnActors, Superseded, ColonFree;
    forall o, v | o in os && v in MadeVersions(ctx, os, instrument) ensures LeavesFree(ctx, o, instrument, v) {
      VersionsMeaning(ctx, os, instrument, v);
      var x :| x in os && Makes(ctx, x, instrument, v);
      assert OtherIdOf(ctx, x, RegulationId(instrument, v));
      assert !IsActor(ctx, os, RegulationId(instrument, v));
      if o.instrument != instrument {
        OtherInstrument(ctx, o, instrument, v);
      }
    }
  }

  lemma PassingIsOwn(ctx: Context, os: seq<Source>, instrument: string)
    requires var p := ProposalFor(ctx, os); Passes(p.nodes, p.rels)
    requires ColonFree(instrument) && forall o :: o in os ==> ColonFree(o.instrument)
    ensures OwnRegulations(ctx, os, instrument)
  {
    hide Passes, ProposalFor, ColonFree, OwnRegulations, ActorsApart;
    ProposalPassesIff(ctx, os);
    ApartIsOwn(ctx, os, instrument);
  }

  lemma OtherInstrument(ctx: Context, o: Source, instrument: string, v: string)
    requires ColonFree(instrument) && ColonFree(o.instrument) && o.instrument != instrument
    ensures forall u :: RegulationId(o.instrument, u) != RegulationId(instrument, v)
  {
    hide RegulationId, ColonFree;
    forall u ensures RegulationId(o.instrument, u) != RegulationId(instrument, v) {
      if RegulationId(o.instrument, u) == RegulationId(instrument, v) {
        SplitRegulationId(o.instrument, u, instrument, v);
      }
    }
  }

  // ---- The versions that are read back ----

  function OwnVersion(n: Node, instrument: string): seq<Option<string>> {
    if ForInstrument(n, instrument) then [n.props.sourceVersion] else []
  }

  function KeyVersion(at: map<string, Node>, k: string, instrument: string): seq<Option<string>> {
    if k in at then OwnVersion(at[k], instrument) else []
  }

  function VersionsIn(keys: seq<string>, at: map<string, Node>, instrument: string): seq<Option<string>> {
    if keys == [] then []
    else VersionsIn(keys[..|keys| - 1], at, instrument) + KeyVersion(at, keys[|keys| - 1], instrument)
  }

  /** The versions of the instrument's nodes, in dictionary order. */
  function VersionsOf(d: Dict<Node>, instrument: string): seq<Option<string>> {
    VersionsIn(d.keys, d.at, instrument)
  }

  function AllSome(vs: seq<string>): (r: seq<Option<string>>)
    ensures |r| == |vs|
  {
    seq(|vs|, i requires 0 <= i < |vs| => Some(vs[i]))
  }

  lemma {:induction false} SameVersions(keys: seq<string>, a: map<string, Node>, b: map<string, Node>,
                                        instrument: string)
    requires forall k :: k in keys ==> KeyVersion(a, k, instrument) == KeyVersion(b, k, instrument)
    ensures VersionsIn(keys, a, instrument) == VersionsIn(keys, b, instrument)
  {
    hide KeyVersion;
    if keys != [] {
      var n := |keys| - 1;
      assert keys[n] in keys && forall k :: k in keys[..n] ==> k in keys;
      SameVersions(keys[..n], a, b, instrument);
    }
  }

  lemma NewKey(keys: seq<string>, k: string, at: map<string, Node>, instrument: string)
    ensures VersionsIn(keys + [k], at, instrument) == VersionsIn(keys, at, instrument) + KeyVersion(at, k, instrument)
  {
    assert (keys + [k])[..|keys|] == keys;
  }

  lemma PutVersions(d: Dict<Node>, n: Node, instrument: string)
    requires d.Valid() && (n.id in d.at ==> OwnVersion(d.at[n.id], instrument) == OwnVersion(n, instrument))
    ensures VersionsOf(d.Put(n.id, n), instrument) == VersionsOf(d, instrument) + if n.id in d.at then []
      else OwnVersion(n, instrument)
  {
    hide OwnVersion;
    SameVersions(d.keys, d.at, d.at[n.id := n], instrument);
    NewKey(d.keys, n.id, d.at[n.id := n], instrument);
  }

  lemma SetDefaultVersions(d: Dict<Node>, n: Node, instrument: string)
    requires d.Valid()
    ensures VersionsOf(d.SetDefault(n.id, n), instrument) == VersionsOf(d, instrument) + if n.id in d.at then []
      else OwnVersion(n, instrument)
  {
    hide OwnVersion;
    if n.id !in d.at {
      SameVersions(d.keys, d.at, d.at[n.id := n], instrument);
      NewKey(d.keys, n.id, d.at[n.id := n], instrument);
    }
  }

  lemma {:induction false} LinkVersions(d: Build, src: string, kind: RelType, target: NodeType, ids: seq<string>,
                                        instrument: string)
    requires d.nodes.Valid() && target != Regulation
    ensures var t := LinkAll(d, src, kind, target, ids);
      t.nodes.Valid() && VersionsOf(t.nodes, instrument) == VersionsOf(d.nodes, instrument)
  {
    hide VersionsOf;
    if ids != [] {
      var n := |ids| - 1;
      LinkVersions(d, src, kind, target, ids[..n], instrument);
      SetDefaultVersions(LinkAll(d, src, kind, target, ids[..n]).nodes, BareNode(ids[n], target), instrument);
    }
  }

  // ---- A regulation of the mapping ----

  /** A regulation node of the mapping was made for its own instrument and version. */
  lemma RegulationStems(ctx: Context, os: seq<Source>, k: string)
    requires k in MapAll(ctx, os).nodes.at && MapAll(ctx, os).nodes.at[k].kind == Regulation
    ensures exists o, v :: o in os && Makes(ctx, o, o.instrument, v) && MapAll(ctx, os).nodes.at[k] == RegulationNode(o.instrument, v)
                           && k == RegulationId(o.instrument, v)
  {
    hide MapAll, RegulationId, ProvisionId, ObligationId, OwnActors, OwnControls, OwnAssets, Mapped, FromSome;
    hide SameRegulation;
    var n := MapAll(ctx, os).nodes.at[k];
    MapAllShape(ctx, os);
    assert Stems(ctx, os, k, n);
    var o :| o in os && IsNodeOf(ctx, o, n);
    if n == RegulationNode(o.instrument, o.sourceVersion) {
      assert Makes(ctx, o, o.instrument, o.sourceVersion);
    } else {
      assert Makes(ctx, o, o.instrument, Superseded(ctx, o.sourceVersion).value);
    }
  }

  /** A node for the instrument is that of one of its versions. */
  lemma InstrumentNode(ctx: Context, os: seq<Source>, instrument: string, k: string)
    requires k in MapAll(ctx, os).nodes.at && ForInstrument(MapAll(ctx, os).nodes.at[k], instrument)
    ensures exists v :: v in MadeVersions(ctx, os, instrument) && k == RegulationId(instrument, v) && MapAll(ctx, os).nodes.at[k] == RegulationNode(instrument, v)
  {
    hide MapAll, RegulationId;
    RegulationStems(ctx, os, k);
    var o, v :| o in os && Makes(ctx, o, o.instrument, v)
      && MapAll(ctx, os).nodes.at[k] == RegulationNode(o.instrument, v)
                && k == RegulationId(o.instrument, v);
    VersionsMeaning(ctx, os, instrument, v);
  }

  /** The node at a regulation's own id is that regulation. */
  lemma RegulationPresent(ctx: Context, os: seq<Source>, instrument: string, v: string)
    requires forall o :: o in os ==> LeavesFree(ctx, o, instrument, v)
    ensures var at, k := MapAll(ctx, os).nodes.at, RegulationId(instrument, v);
      && (k in at <==> v in MadeVersions(ctx, os, instrument))
      && (k in at ==> at[k] == RegulationNode(instrument, v))
  {
    hide MapAll, RegulationId, OwnActors, Mapped, FromSome, SameRegulation, Makes;
    var d, k := MapAll(ctx, os), RegulationId(instrument, v);
    MapAllShape(ctx, os);
    VersionsMeaning(ctx, os, instrument, v);
    if k in d.nodes.at {
      assert Stems(ctx, os, k, d.nodes.at[k]);
      var o :| o in os && IsNodeOf(ctx, o, d.nodes.at[k]);
      NodeAtRegulation(ctx, o, d.nodes.at[k], instrument, v);
    }
    if v in MadeVersions(ctx, os, instrument) {
      var o :| o in os && Makes(ctx, o, instrument, v);
      MadeNode(ctx, os, o, instrument, v);
    }
  }

  lemma NodeAtRegulation(ctx: Context, o: Source, n: Node, instrument: string, v: string)
    requires IsNodeOf(ctx, o, n) && n.id == RegulationId(instrument, v) && LeavesFree(ctx, o, instrument, v)
    ensures n == RegulationNode(instrument, v) && Makes(ctx, o, instrument, v)
  {
    hide KindFor, OwnActors, OwnControls, OwnAssets, ProvisionId, ObligationId;
    KindOfRegulation(instrument, v);
    KindOfProvision(o.anchorId);
    KindOfObligation(o.clauseId);
    OwnKinds(ctx, o, n.id);
    SameInstrument(instrument, v, o.sourceVersion);
    if Superseded(ctx, o.sourceVersion).Some? {
      SameInstrument(instrument, v, Superseded(ctx, o.sourceVersion).value);
    }
  }

  lemma SameInstrument(instrument: string, v: string, u: string)
    ensures RegulationId(instrument, v) == RegulationId(instrument, u) <==> v == u
  {
    var head := "regulation:" + instrument + ":";
    assert RegulationId(instrument, v) == head + v && RegulationId(instrument, u) == head + u;
    assert (head + v)[|head|..] == v && (head + u)[|head|..] == u;
  }

  lemma MadeNode(ctx: Context, os: seq<Source>, o: Source, instrument: string, v: string)
    requires o in os && Makes(ctx, o, instrument, v)
    ensures RegulationId(instrument, v) in MapAll(ctx, os).nodes.at
  {
    hide MapAll, RegulationId, ObligationId, SameRegulation, Stems;
    MapAllShape(ctx, os);
    assert Mapped(MapAll(ctx, os), o);
    if Superseded(ctx, o.sourceVersion).Some? {
      LinkListed(ctx, os, o);
    }
  }

  /** Each obligation's link to the superseded version is in the proposal. */
  lemma LinkListed(ctx: Context, os: seq<Source>, o: Source)
    requires o in os && Superseded(ctx, o.sourceVersion).Some?
    ensures var d := MapAll(ctx, os);
      var n, t := RegulationId(o.instrument, o.sourceVersion),
        RegulationId(o.instrument, Superseded(ctx, o.sourceVersion).value);
      Edge(n, t, Supersedes) in d.rels && n in d.nodes.at && t in d.nodes.at
  {
    hide MapAll, RegulationId, ObligationId, SameRegulation, Stems, Mapped;
    MapAllShape(ctx, os);
    var e := Edge(RegulationId(o.instrument, o.sourceVersion),
      RegulationId(o.instrument, Superseded(ctx, o.sourceVersion).value), Supersedes);
    assert IsSupersedesOf(ctx, o, e);
    assert IsEdgeOf(ctx, o, e);
    assert FromSome(ctx, os, e);
  }

  // ---- The mapping keeps the order ----

  /** A regulation of another instrument changes nothing for this one. */
  lemma OthersVersions(ctx: Context, os: seq<Source>, o: Source, instrument: string)
    requires o.instrument != instrument
    requires forall v :: v in MadeVersions(ctx, os, instrument) ==> LeavesFree(ctx, o, instrument, v)
    ensures VersionsOf(WithRegulation(ctx, MapAll(ctx, os), o).nodes, instrument)
      == VersionsOf(MapAll(ctx, os).nodes, instrument)
  {
    hide MapAll, VersionsOf, RegulationId, OwnActors;
    var d, n := MapAll(ctx, os), RegulationNode(o.instrument, o.sourceVersion);
    NodesValid(ctx, os);
    if n.id in d.nodes.at && ForInstrument(d.nodes.at[n.id], instrument) {
      InstrumentNode(ctx, os, instrument, n.id);
      assert false;
    }
    PutVersions(d.nodes, n, instrument);
    if Superseded(ctx, o.sourceVersion).Some? {
      SetDefaultVersions(d.nodes.Put(n.id, n), RegulationNode(o.instrument, Superseded(ctx, o.sourceVersion).value),
        instrument);
    }
  }

  /** The obligation's own regulation, and the one it supersedes, are added if new. */
  lemma OwnVersions(ctx: Context, os: seq<Source>, o: Source, vs: seq<string>)
    requires vs == MadeVersions(ctx, os, o.instrument) && VersionsOf(MapAll(ctx, os).nodes, o.instrument) == AllSome(vs)
    requires forall x, v :: x in os && Makes(ctx, o, o.instrument, v) ==> LeavesFree(ctx, x, o.instrument, v)
    ensures VersionsOf(WithRegulation(ctx, MapAll(ctx, os), o).nodes, o.instrument)
         == AllSome(AddPrior(Add(vs, o.sourceVersion), Superseded(ctx, o.sourceVersion)))
  {
    hide MapAll, VersionsOf, RegulationId, LeavesFree, AllSome;
    var d, i, v := MapAll(ctx, os), o.instrument, o.sourceVersion;
    assert Makes(ctx, o, i, v);
    NewVersion(ctx, os, i, v, vs);
    if (i, v) in d.regulations {
      KnownVersions(ctx, os, o);
      assert Superseded(ctx, v).Some? ==> Makes(ctx, o, i, Superseded(ctx, v).value);
    } else if Superseded(ctx, v).Some? {
      var u := Superseded(ctx, v).value;
      assert Makes(ctx, o, i, u);
      NewPrior(ctx, os, i, v, u, vs);
    }
  }

  lemma NewVersion(ctx: Context, os: seq<Source>, i: string, v: string, vs: seq<string>)
    requires vs == MadeVersions(ctx, os, i) && VersionsOf(MapAll(ctx, os).nodes, i) == AllSome(vs)
    requires forall x :: x in os ==> LeavesFree(ctx, x, i, v)
    ensures var n, nodes := RegulationNode(i, v), MapAll(ctx, os).nodes;
      && nodes.Put(n.id, n).Valid() && VersionsOf(nodes.Put(n.id, n), i) == AllSome(Add(vs, v))
      && (n.id in nodes.at <==> v in vs)
  {
    hide MapAll, VersionsOf, RegulationId, LeavesFree;
    NodesValid(ctx, os);
    RegulationPresent(ctx, os, i, v);
    PutVersions(MapAll(ctx, os).nodes, RegulationNode(i, v), i);
  }

  lemma NewPrior(ctx: Context, os: seq<Source>, i: string, v: string, u: string, vs: seq<string>)
    requires vs == MadeVersions(ctx, os, i) && VersionsOf(MapAll(ctx, os).nodes, i) == AllSome(vs) && u != v
    requires forall x :: x in os ==> LeavesFree(ctx, x, i, v) && LeavesFree(ctx, x, i, u)
    ensures var n, m := RegulationNode(i, v), RegulationNode(i, u);
      VersionsOf(MapAll(ctx, os).nodes.Put(n.id, n).SetDefault(m.id, m), i) == AllSome(Add(Add(vs, v), u))
  {
    hide MapAll, VersionsOf, RegulationId, LeavesFree;
    var n, m := RegulationNode(i, v), RegulationNode(i, u);
    var added := MapAll(ctx, os).nodes.Put(n.id, n);
    NewVersion(ctx, os, i, v, vs);
    NewVersion(ctx, os, i, u, vs);
    SameInstrument(i, v, u);
    assert m.id in added.at <==> u in Add(vs, v);
    SetDefaultVersions(added, m, i);
  }

  lemma KnownVersions(ctx: Context, os: seq<Source>, o: Source)
    requires (o.instrument, o.sourceVersion) in MapAll(ctx, os).regulations
    ensures forall v :: Makes(ctx, o, o.instrument, v) ==> v in MadeVersions(ctx, os, o.instrument)
  {
    hide MapAll, Stems, Mapped, FromSome;
    MapAllShape(ctx, os);
    assert SameRegulation(os, (o.instrument, o.sourceVersion));
    var x :| x in os && (x.instrument, x.sourceVersion) == (o.instrument, o.sourceVersion);
    forall v | Makes(ctx, o, o.instrument, v) ensures v in MadeVersions(ctx, os, o.instrument) {
      assert Makes(ctx, x, o.instrument, v);
      VersionsMeaning(ctx, os, o.instrument, v);
    }
  }

  /** Provisions, obligations, actors, controls and assets are no regulations. */
  lemma RestVersions(ctx: Context, os: seq<Source>, o: Source, instrument: string)
    ensures VersionsOf(MapOne(ctx, MapAll(ctx, os), o).nodes, instrument)
      == VersionsOf(WithRegulation(ctx, MapAll(ctx, os), o).nodes, instrument)
  {
    hide MapAll, MapOne, VersionsOf, LinkAll, OwnActors, OwnControls, OwnAssets;
    var d := MapAll(ctx, os);
    NodesValid(ctx, os);
    BaseVersions(ctx, os, o, instrument);
    MapOneIsLinks(ctx, d, o);
    LinkVersions(Based(ctx, d, o), ObligationId(o.clauseId), ImposesOn, Actor, OwnActors(ctx, o), instrument);
    LinkVersions(Bound(ctx, d, o), ObligationId(o.clauseId), MapsToControl, Control, OwnControls(ctx, o), instrument);
    LinkVersions(Controlled(ctx, d, o), ObligationId(o.clauseId), AffectsAsset, Asset, OwnAssets(ctx, o), instrument);
  }

  lemma BaseVersions(ctx: Context, os: seq<Source>, o: Source, instrument: string)
    ensures var t := Based(ctx, MapAll(ctx, os), o).nodes;
      t.Valid() && VersionsOf(t, instrument) == VersionsOf(WithRegulation(ctx, MapAll(ctx, os), o).nodes, instrument)
  {
    hide MapAll, VersionsOf, RegulationId, ProvisionId, ObligationId;
    var r := WithRegulation(ctx, MapAll(ctx, os), o).nodes;
    NodesValid(ctx, os);
    NotYetARegulation(ctx, os, o);
    assert r.Valid();
    var p, n := ProvisionNode(o), ObligationNode(o);
    SetDefaultVersions(r, p, instrument);
    PutVersions(r.SetDefault(p.id, p), n, instrument);
  }

  /** No regulation stands at an obligation's id. */
  lemma NotYetARegulation(ctx: Context, os: seq<Source>, o: Source)
    ensures var at, k := WithRegulation(ctx, MapAll(ctx, os), o).nodes.at, ObligationId(o.clauseId);
      k in at ==> at[k].kind != Regulation
  {
    hide MapAll, WithRegulation, IsNodeOf, OtherIdOf, KindFor, RegulationId, ObligationId, OwnActors;
    var d, k := MapAll(ctx, os), ObligationId(o.clauseId);
    var at := WithRegulation(ctx, d, o).nodes.at;
    RegulationNodes(ctx, d, o, k);
    NotAnObligation(o.instrument, o.sourceVersion, o.clauseId);
    KindOfObligation(o.clauseId);
    if k in d.nodes.at && d.nodes.at[k].kind == Regulation {
      RegulationStems(ctx, os, k);
      var x, v :| x in os && Makes(ctx, x, x.instrument, v) && d.nodes.at[k] == RegulationNode(x.instrument, v)
        && k == RegulationId(x.instrument, v);
      NotAnObligation(x.instrument, v, o.clauseId);
      assert false;
    }
    if k in at && k !in d.nodes.at {
      OtherKind(ctx, o, at[k]);
    }
  }

  /** Reading back the instrument's regulations gives the versions in order. */
  lemma {:induction false} MappedVersions(ctx: Context, os: seq<Source>, instrument: string)
    requires OwnRegulations(ctx, os, instrument)
    ensures VersionsOf(MapAll(ctx, os).nodes, instrument) == AllSome(MadeVersions(ctx, os, instrument))
  {
    hide MapOne, LeavesFree;
    if os != [] {
      var front, o := os[..|os| - 1], os[|os| - 1];
      Snoc(os);
      FrontOwns(ctx, os, instrument);
      MappedVersions(ctx, front, instrument);
      RestVersions(ctx, front, o, instrument);
      if o.instrument == instrument {
        forall v | Makes(ctx, o, instrument, v) ensures v in MadeVersions(ctx, os, instrument) {
          VersionsMeaning(ctx, os, instrument, v);
        }
        OwnVersions(ctx, front, o, MadeVersions(ctx, front, instrument));
      } else {
        OthersVersions(ctx, front, o, instrument);
      }
    }
  }

  lemma FrontOwns(ctx: Context, os: seq<Source>, instrument: string)
    requires os != [] && OwnRegulations(ctx, os, instrument)
    ensures OwnRegulations(ctx, os[..|os| - 1], instrument)
  {
    hide LeavesFree;
    Snoc(os);
    assert forall v :: v in MadeVersions(ctx, os[..|os| - 1], instrument) ==> v in MadeVersions(ctx, os, instrument);
  }

  // ---- What the store answers ----

  /** The scan of one snapshot ends at the last of the instrument's nodes. */
  lemma {:induction false} ScanEnds(c: Content, id: string, instrument: string, j: nat,
                                    before: Option<LatestRegulation>)
    requires c.nodes.Valid() && j <= |c.nodes.keys|
    ensures var vs, r := VersionsIn(c.nodes.keys[..j], c.nodes.at, instrument), LatestIn(c, id, instrument, j, before);
      if vs == [] then r == before
      else r.Some? && r.value.snapshot == id && r.value.sourceVersion == vs[|vs| - 1]
           && r.value.node in c.nodes.at && ForInstrument(c.nodes.at[r.value.node], instrument)
           && c.nodes.at[r.value.node].props.sourceVersion == r.value.sourceVersion
  {
    if j > 0 {
      assert c.nodes.keys[..j] == c.nodes.keys[..j - 1] + [c.nodes.keys[j - 1]];
      NewKey(c.nodes.keys[..j - 1], c.nodes.keys[j - 1], c.nodes.at, instrument);
      ScanEnds(c, id, instrument, j - 1, before);
    }
  }

  lemma {:induction false} EarlierAnswer(s: Store, t: Store, instrument: string, i: nat)
    requires i <= |s.order| && Chained(s) && Extends(s, t)
    ensures i <= |t.order| && Latest(t, instrument, i) == Latest(s, instrument, i)
  {
    hide Chained, LatestIn;
    if i > 0 {
      EarlierAnswer(s, t, instrument, i - 1);
      assert t.order[i - 1] == t.order[..|s.order|][i - 1];
      assert s.order[i - 1] in s.order;
    }
  }

  /** The content of a mapped snapshot. */
  lemma MappedStore(s: Store, id: string, ctx: Context, os: seq<Source>, ontology: string)
    requires Chained(s) && id !in s.snapshots
    ensures var p := ProposalFor(ctx, os); var t := PublishTo(s, id, p.nodes, p.rels, ontology);
      var d := MapAll(ctx, os);
      && t.order == s.order + [id] && id in t.content && Chained(t) && Extends(s, t)
      && t.content[id] == Content(d.nodes, d.rels) && d.nodes.Valid()
  {
    hide MapAll, ById, Chained, Extends;
    var p := ProposalFor(ctx, os);
    ListedTypes(ctx, os);
    ByIdOfValues(MapAll(ctx, os).nodes);
    PublishKeepsChain(s, id, p.nodes, p.rels, ontology);
  }

  /** For any obligations, mapped and published: the store's latest regulation of an
      instrument is the last of the versions that got a node; without one it is what
      it was before. */
  lemma LatestAfterPublishing(s: Store, id: string, ctx: Context, os: seq<Source>, ontology: string, instrument: string)
    requires Chained(s) && id !in s.snapshots && OwnRegulations(ctx, os, instrument)
    ensures var p := ProposalFor(ctx, os); var t := PublishTo(s, id, p.nodes, p.rels, ontology);
      var vs := MadeVersions(ctx, os, instrument);
      Latest(t, instrument, |t.order|) ==
        if vs == [] then Latest(s, instrument, |s.order|)
        else Some(LatestRegulation(RegulationId(instrument, vs[|vs| - 1]), id, Some(vs[|vs| - 1])))
  {
    hide MapAll, RegulationId, ProposalFor, PublishTo, Chained, Extends, OwnRegulations, MadeVersions;
    var p := ProposalFor(ctx, os);
    var t, d := PublishTo(s, id, p.nodes, p.rels, ontology), MapAll(ctx, os);
    MappedStore(s, id, ctx, os, ontology);
    MappedVersions(ctx, os, instrument);
    EarlierAnswer(s, t, instrument, |s.order|);
    var n := |d.nodes.keys|;
    assert d.nodes.keys[..n] == d.nodes.keys;
    var before := Latest(t, instrument, |s.order|);
    ScanEnds(t.content[id], id, instrument, n, before);
    var r := LatestIn(t.content[id], id, instrument, n, before);
    assert Latest(t, instrument, |t.order|) == r;
    if MadeVersions(ctx, os, instrument) != [] {
      InstrumentNode(ctx, os, instrument, r.value.node);
    }
  }

  /** Every obligation's regulation then links to the superseded version, whether or
      not the store ever held that version of the instrument. */
  lemma LinkAfterPublishing(s: Store, id: string, ctx: Context, os: seq<Source>, ontology: string, o: Source)
    requires Chained(s) && id !in s.snapshots && OwnRegulations(ctx, os, o.instrument)
    requires o in os && Superseded(ctx, o.sourceVersion).Some?
    ensures var p := ProposalFor(ctx, os); var t := PublishTo(s, id, p.nodes, p.rels, ontology);
      SupersedesLink(t, o.instrument, o.sourceVersion,
        RegulationVersion(Some(o.instrument), Superseded(ctx, o.sourceVersion)))
  {
    hide MapAll, RegulationId, ProposalFor, PublishTo, Chained, Extends, MadeVersions;
    var p := ProposalFor(ctx, os);
    var t, u := PublishTo(s, id, p.nodes, p.rels, ontology), Superseded(ctx, o.sourceVersion).value;
    MappedStore(s, id, ctx, os, ontology);
    LinkListed(ctx, os, o);
    assert Makes(ctx, o, o.instrument, o.sourceVersion) && Makes(ctx, o, o.instrument, u);
    MadeRegulation(ctx, os, o, o.sourceVersion);
    MadeRegulation(ctx, os, o, u);
    assert t.order[|s.order|] == id;
    assert LinkIn(t.content[id], o.instrument, o.sourceVersion, RegulationVersion(Some(o.instrument), Some(u)));
  }

  lemma MadeRegulation(ctx: Context, os: seq<Source>, o: Source, v: string)
    requires o in os && Makes(ctx, o, o.instrument, v) && OwnRegulations(ctx, os, o.instrument)
    ensures var at, k := MapAll(ctx, os).nodes.at, RegulationId(o.instrument, v);
      k in at && at[k] == RegulationNode(o.instrument, v)
  {
    hide MapAll, RegulationId, LeavesFree, Makes, MadeVersions;
    VersionsMeaning(ctx, os, o.instrument, v);
    RegulationPresent(ctx, os, o.instrument, v);
  }

  // ---- When the answer is the newest version ----

  /** The versions of the instrument's obligations, as first met. */
  function Introduced(os: seq<Source>, instrument: string): seq<string> {
    if os == [] then []
    else
      var vs, o := Introduced(os[..|os| - 1], instrument), os[|os| - 1];
      if o.instrument == instrument then Add(vs, o.sourceVersion) else vs
  }

  function Without(vs: seq<string>, u: string): seq<string> {
    if vs == [] then []
    else Without(vs[..|vs| - 1], u) + if vs[|vs| - 1] == u then [] else [vs[|vs| - 1]]
  }

  /** A superseded version other than the first comes right after it. */
  function WithPrior(vs: seq<string>, prior: Option<string>): seq<string> {
    if prior.None? || vs == [] || vs[0] == prior.value then vs
    else [vs[0], prior.value] + Without(vs[1..], prior.value)
  }

  lemma {:induction false} WithoutMeaning(vs: seq<string>, u: string, v: string)
    ensures v in Without(vs, u) <==> v in vs && v != u
  {
    if vs != [] {
      var n := |vs| - 1;
      assert vs == vs[..n] + [vs[n]];
      WithoutMeaning(vs[..n], u, v);
    }
  }

  lemma WithoutSnoc(vs: seq<string>, u: string, v: string)
    ensures Without(vs + [v], u) == Without(vs, u) + if v == u then [] else [v]
  {
    assert (vs + [v])[..|vs|] == vs;
  }

  lemma AddWithPrior(vs: seq<string>, prior: Option<string>, v: string)
    ensures WithPrior(Add(vs, v), prior)
      == AddPrior(Add(WithPrior(vs, prior), v), if prior == Some(v) then None else prior)
  {
    if prior.Some? && vs != [] {
      if vs[0] == prior.value {
        assert vs[0] in vs;
      } else {
        AddBehindPrior(vs, prior.value, v);
      }
    }
  }

  lemma AddBehindPrior(vs: seq<string>, u: string, v: string)
    requires vs != [] && vs[0] != u
    ensures var r := WithPrior(vs, Some(u)); u in r && WithPrior(Add(vs, v), Some(u)) == Add(r, v)
  {
    hide Without;
    var r := WithPrior(vs, Some(u));
    assert vs == [vs[0]] + vs[1..];
    WithoutMeaning(vs[1..], u, v);
    assert v in r <==> v in vs || v == u;
    assert u == r[1];
    if v !in vs {
      WithoutSnoc(vs[1..], u, v);
      assert (vs + [v])[1..] == vs[1..] + [v];
      assert WithPrior(vs + [v], Some(u)) == r + if v == u then [] else [v];
    }
  }

  lemma {:induction false} VersionsForm(ctx: Context, os: seq<Source>, instrument: string)
    ensures MadeVersions(ctx, os, instrument) == WithPrior(Introduced(os, instrument), ctx.latestVersion)
  {
    hide WithPrior;
    if os == [] {
      assert WithPrior([], ctx.latestVersion) == [] by { NothingIntroduced(ctx.latestVersion); }
    } else {
      var front, o := os[..|os| - 1], os[|os| - 1];
      VersionsForm(ctx, front, instrument);
      AddWithPrior(Introduced(front, instrument), ctx.latestVersion, o.sourceVersion);
    }
  }

  lemma NothingIntroduced(prior: Option<string>)
    ensures WithPrior([], prior) == []
  {
  }

  lemma {:induction false} IntroducedDistinct(os: seq<Source>, instrument: string)
    ensures Distinct(Introduced(os, instrument))
  {
    if os != [] {
      IntroducedDistinct(os[..|os| - 1], instrument);
    }
  }

  /** The last version introduced comes last if and only if there is no superseded
      version, or that one is met first, or it is met second and is the last, or it is
      not the last of several. */
  predicate EndsNewest(vs: seq<string>, prior: Option<string>)
    requires vs != []
  {
    || prior.None? || vs[0] == prior.value
    || (|vs| == 2 && vs[1] == prior.value)
    || (|vs| >= 2 && vs[|vs| - 1] != prior.value)
  }

  lemma LastOfWithPrior(vs: seq<string>, prior: Option<string>)
    requires vs != [] && Distinct(vs)
    ensures var r := WithPrior(vs, prior); r != [] && (r[|r| - 1] == vs[|vs| - 1] <==> EndsNewest(vs, prior))
  {
    if prior.Some? && vs[0] != prior.value {
      var rest, r := vs[1..], Without(vs[1..], prior.value);
      if |rest| > 0 {
        WithoutMeaning(rest, prior.value, rest[0]);
        assert r != [] ==> r[|r| - 1] in r;
        WithoutMeaning(rest, prior.value, if r == [] then "" else r[|r| - 1]);
        assert |rest| > 1 ==> rest[0] != rest[|rest| - 1];
      }
    }
  }

  /** So, per instrument: the latest regulation is the version that its obligations
      introduced last if and only if `EndsNewest`. */
  lemma LatestIsLastIntroducedIff(s: Store, id: string, ctx: Context, os: seq<Source>, ontology: string,
                                  instrument: string)
    requires Chained(s) && id !in s.snapshots && OwnRegulations(ctx, os, instrument) && Introduced(os, instrument) != []
    ensures var p := ProposalFor(ctx, os); var t := PublishTo(s, id, p.nodes, p.rels, ontology);
      var vs, latest := Introduced(os, instrument), Latest(t, instrument, |t.order|);
      latest.Some? && (latest.value.sourceVersion == Some(vs[|vs| - 1]) <==> EndsNewest(vs, ctx.latestVersion))
  {
    hide ProposalFor, PublishTo, Latest, RegulationId, Chained, OwnRegulations, WithPrior, EndsNewest;
    LatestAfterPublishing(s, id, ctx, os, ontology, instrument);
    VersionsForm(ctx, os, instrument);
    IntroducedDistinct(os, instrument);
    LastOfWithPrior(Introduced(os, instrument), ctx.latestVersion);
  }

  /** All obligations of the instrument carry the version, and there is one. */
  ghost predicate OneVersion(os: seq<Source>, instrument: string, version: string) {
    (forall o :: o in os && o.instrument == instrument ==> o.sourceVersion == version) && exists o :: o in os && o.instrument == instrument
  }

  lemma {:induction false} OneIntroduced(os: seq<Source>, instrument: string, version: string)
    requires forall o :: o in os && o.instrument == instrument ==> o.sourceVersion == version
    ensures Introduced(os, instrument) == if exists o :: o in os && o.instrument == instrument then [version] else []
  {
    if os != [] {
      Snoc(os);
      OneIntroduced(os[..|os| - 1], instrument, version);
    }
  }

  /** With one version per instrument: the latest regulation is the superseded version
      if there is one, and the mapped version otherwise. */
  lemma LatestOfOneVersion(s: Store, id: string, ctx: Context, os: seq<Source>, ontology: string, instrument: string,
                           version: string)
    requires Chained(s) && id !in s.snapshots && OwnRegulations(ctx, os, instrument)
      && OneVersion(os, instrument, version)
    ensures var p := ProposalFor(ctx, os); var t := PublishTo(s, id, p.nodes, p.rels, ontology);
      var prior, latest := Superseded(ctx, version), Latest(t, instrument, |t.order|);
      latest.Some? && latest.value.sourceVersion == Some(if prior.Some? then prior.value else version)
  {
    hide ProposalFor, PublishTo, Latest, RegulationId, Chained, OwnRegulations;
    LatestAfterPublishing(s, id, ctx, os, ontology, instrument);
    VersionsForm(ctx, os, instrument);
    OneIntroduced(os, instrument, version);
  }

  /** So it is the version just published if and only if the caller passed the mapper
      no latest version, or that same one. */
  lemma LatestIsNewestIff(s: Store, id: string, ctx: Context, os: seq<Source>, ontology: string, instrument: string,
                          version: string)
    requires Chained(s) && id !in s.snapshots && OwnRegulations(ctx, os, instrument)
      && OneVersion(os, instrument, version)
    ensures var p := ProposalFor(ctx, os); var t := PublishTo(s, id, p.nodes, p.rels, ontology);
      var latest := Latest(t, instrument, |t.order|);
      latest.Some? && (latest.value.sourceVersion == Some(version) <==>
        ctx.latestVersion.None? || ctx.latestVersion == Some(version))
  {
    hide ProposalFor, PublishTo, Latest, RegulationId, Chained, OwnRegulations, OneVersion;
    LatestOfOneVersion(s, id, ctx, os, ontology, instrument, version);
  }

  // ---- One latest version for all instruments ----

  /** The store holds no regulation of the instrument. */
  ghost predicate Unpublished(s: Store, instrument: string) {
    forall k, n :: k in s.order && k in s.content && n in s.content[k].nodes.at ==>
      !ForInstrument(s.content[k].nodes.at[n], instrument)
  }

  /** The mapper takes one latest version and supersedes it for every instrument: one
      that was never published before gets a link to that version of its own, and the
      store then calls that version, which was never mapped, its latest. */
  lemma BorrowedVersion(s: Store, id: string, ctx: Context, os: seq<Source>, ontology: string, instrument: string,
                        version: string)
    requires Chained(s) && id !in s.snapshots && OwnRegulations(ctx, os, instrument)
      && OneVersion(os, instrument, version)
    requires Unpublished(s, instrument) && ctx.latestVersion.Some? && ctx.latestVersion.value != version
    ensures var p := ProposalFor(ctx, os); var t := PublishTo(s, id, p.nodes, p.rels, ontology);
      && SupersedesLink(t, instrument, version, RegulationVersion(Some(instrument), ctx.latestVersion))
      && Latest(t, instrument, |t.order|).Some?
        && Latest(t, instrument, |t.order|).value.sourceVersion == ctx.latestVersion
  {
    hide ProposalFor, PublishTo, Latest, RegulationId, Chained, OwnRegulations, SupersedesLink, Unpublished;
    LatestOfOneVersion(s, id, ctx, os, ontology, instrument, version);
    var o :| o in os && o.instrument == instrument;
    LinkAfterPublishing(s, id, ctx, os, ontology, o);
  }

  lemma NewUnpublished(s: Store, id: string, ctx: Context, os: seq<Source>, ontology: string, instrument: string)
    requires Chained(s) && id !in s.snapshots && Unpublished(s, instrument)
    requires forall o :: o in os ==> o.instrument != instrument
    ensures var p := ProposalFor(ctx, os); Unpublished(PublishTo(s, id, p.nodes, p.rels, ontology), instrument)
  {
    hide MapAll, RegulationId, ProposalFor, ForInstrument;
    var p := ProposalFor(ctx, os);
    var t := PublishTo(s, id, p.nodes, p.rels, ontology);
    MappedStore(s, id, ctx, os, ontology);
    forall n | n in t.content[id].nodes.at ensures !ForInstrument(t.content[id].nodes.at[n], instrument) {
      if ForInstrument(t.content[id].nodes.at[n], instrument) {
        InstrumentNode(ctx, os, instrument, n);
        var v :| v in MadeVersions(ctx, os, instrument);
        VersionsMeaning(ctx, os, instrument, v);
        assert false;
      }
    }
  }

  function Clause(clause: string, instrument: string, version: string): Source {
    Source(clause, instrument, version, clause, ["operator"], Accepted)
  }

  function FirstClauses(): seq<Source> {
    [Clause("a", "NIS2", "v1")]
  }

  function SecondClauses(): seq<Source> {
    [Clause("b", "NIS2", "v2"), Clause("c", "CRA", "v2")]
  }

  lemma ClausesPass(ctx: Context, os: seq<Source>, instrument: string)
    requires ActorIdsOk(ctx) && ColonFree(instrument)
    requires os == FirstClauses() || os == SecondClauses()
    ensures OwnRegulations(ctx, os, instrument)
    ensures var p := ProposalFor(ctx, os); Passes(p.nodes, p.rels)
  {
    hide Passes, ProposalFor, OwnRegulations, ActorsApart;
    assert "b"[0] != "c"[0] && Distinct(ClauseIds(os));
    KnownActorsApart(ctx, os);
    ProposalPassesIff(ctx, os);
    PassingIsOwn(ctx, os, instrument);
  }

  lemma FirstStore(ctx: Context, ontology: string)
    requires ActorIdsOk(ctx) && ctx.latestVersion == None
    ensures var p := ProposalFor(ctx, FirstClauses()); var s := PublishTo(EMPTY_STORE, "s1", p.nodes, p.rels, ontology);
      && Chained(s) && s.order == ["s1"] && s.snapshots.Keys == {"s1"} && Unpublished(s, "CRA")
      && Latest(s, "NIS2", |s.order|).Some? && Latest(s, "NIS2", |s.order|).value.sourceVersion == Some("v1")
  {
    hide ProposalFor, Latest, RegulationId, OwnRegulations, PublishTo, Unpublished, Chained;
    var os := FirstClauses();
    var p := ProposalFor(ctx, os);
    assert os[0] in os && "NIS2"[0] != "CRA"[0];
    ClausesPass(ctx, os, "NIS2");
    FirstPublish("s1", p, ontology);
    LatestOfOneVersion(EMPTY_STORE, "s1", ctx, os, ontology, "NIS2", "v1");
    NothingUnpublished("CRA");
    NewUnpublished(EMPTY_STORE, "s1", ctx, os, ontology, "CRA");
  }

  lemma FirstPublish(id: string, p: Proposal, ontology: string)
    ensures var s := PublishTo(EMPTY_STORE, id, p.nodes, p.rels, ontology);
      Chained(EMPTY_STORE) && Chained(s) && s.order == [id] && s.snapshots.Keys == {id}
  {
    hide Extends, PublishTo, LinkedAt;
    PublishKeepsChain(EMPTY_STORE, id, p.nodes, p.rels, ontology);
    OneSnapshot(id, p, ontology);
  }

  lemma OneSnapshot(id: string, p: Proposal, ontology: string)
    ensures PublishTo(EMPTY_STORE, id, p.nodes, p.rels, ontology).snapshots.Keys == {id}
  {
    hide ContentOf;
  }

  lemma NothingUnpublished(instrument: string)
    ensures Chained(EMPTY_STORE) && Unpublished(EMPTY_STORE, instrument)
  {
  }

  /** For instance: NIS2 v1 is published first; mapping NIS2 v2 and CRA v2 with the
      store's latest NIS2 version then makes CRA v1 the store's latest CRA regulation. */
  lemma BorrowedExample(ctx: Context, ontology: string)
    requires ActorIdsOk(ctx)
    ensures var p := ProposalFor(ctx.(latestVersion := None), FirstClauses());
      var s := PublishTo(EMPTY_STORE, "s1", p.nodes, p.rels, ontology);
      var latest := Latest(s, "NIS2", |s.order|);
      && Passes(p.nodes, p.rels) && latest.Some? && Unpublished(s, "CRA")
      && var q := ProposalFor(ctx.(latestVersion := latest.value.sourceVersion), SecondClauses());
         var t := PublishTo(s, "s2", q.nodes, q.rels, ontology);
         && Passes(q.nodes, q.rels) && SupersedesLink(t, "CRA", "v2", RegulationVersion(Some("CRA"), Some("v1")))
         && Latest(t, "CRA", |t.order|).Some? && Latest(t, "CRA", |t.order|).value.sourceVersion == Some("v1")
  {
    hide Passes, ProposalFor, Latest, RegulationId, OwnRegulations, SupersedesLink, PublishTo, Chained, Unpublished;
    hide Introduced;
    var first, second, os := ctx.(latestVersion := None), ctx.(latestVersion := Some("v1")), SecondClauses();
    var p := ProposalFor(first, FirstClauses());
    var s := PublishTo(EMPTY_STORE, "s1", p.nodes, p.rels, ontology);
    ClausesPass(first, FirstClauses(), "NIS2");
    ClausesPass(second, os, "CRA");
    FirstStore(first, ontology);
    assert "s1"[1] != "s2"[1] && "v1"[1] != "v2"[1] && os[1] in os && "CRA"[0] != "NIS2"[0];
    BorrowedVersion(s, "s2", second, os, ontology, "CRA", "v2");
  }
}
