/** The versioned graph store: immutable snapshots, a head pointer, and the
    lookups and walks over the published history. */
module GraphStore {
  import opened Common
  import opened Ontology
  import opened Graph
  import opened ProofPath

  datatype Metadata = Metadata(id: string, ontologyVersion: string, superseded: Option<string>)

  /** The store's state. `order` is the insertion order of the two dictionaries. */
  datatype Store = Store(head: Option<string>, order: seq<string>, snapshots: map<string, Metadata>,
    content: map<string, Content>)

  const EMPTY_STORE := Store(None, [], map[], map[])

  /** The snapshot published just before position `i`. */
  function Prev(order: seq<string>, i: nat): Option<string>
    requires i <= |order|
  {
    if i == 0 then None else Some(order[i - 1])
  }

  ghost predicate LinkedAt(s: Store, i: nat)
    requires i < |s.order|
  {
    var k := s.order[i];
    k in s.snapshots && s.snapshots[k].id == k && s.snapshots[k].superseded == Prev(s.order, i)
  }

  /** Snapshots form one chain in publish order: each supersedes the one before
      it, the first supersedes nothing, and the last is the head. */
  ghost predicate Chained(s: Store) {
    && Distinct(s.order)
    && s.snapshots.Keys == s.content.Keys
    && (forall k :: k in s.order <==> k in s.snapshots)
    && (forall i :: 0 <= i < |s.order| ==> LinkedAt(s, i))
    && s.head == Prev(s.order, |s.order|)
  }

  /** `later` has every snapshot of `earlier`, unchanged and in the same place. */
  ghost predicate Extends(earlier: Store, later: Store) {
    && |earlier.order| <= |later.order|
    && later.order[..|earlier.order|] == earlier.order
    && forall k :: k in earlier.order ==>
         && k in earlier.snapshots && k in later.snapshots && later.snapshots[k] == earlier.snapshots[k]
         && k in earlier.content && k in later.content && later.content[k] == earlier.content[k]
  }

  function PublishTo(s: Store, id: string, nodes: seq<Node>, rels: seq<Edge>, version: string): Store {
    Store(Some(id),
          if id in s.snapshots then s.order else s.order + [id],
          s.snapshots[id := Metadata(id, version, s.head)],
          s.content[id := ContentOf(nodes, rels)])
  }

  lemma PublishKeepsChain(s: Store, id: string, nodes: seq<Node>, rels: seq<Edge>, version: string)
    requires Chained(s) && id !in s.snapshots
    ensures Chained(PublishTo(s, id, nodes, rels, version))
    ensures Extends(s, PublishTo(s, id, nodes, rels, version))
    ensures var t := PublishTo(s, id, nodes, rels, version);
      && t.head == Some(id) && t.order == s.order + [id]
      && id in t.snapshots && t.snapshots[id] == Metadata(id, version, s.head)
      && id in t.content && t.content[id].rels == rels
      && forall n :: n in nodes ==> n.id in t.content[id].nodes.at
  {
    var t := PublishTo(s, id, nodes, rels, version);
    AppendFresh(s.order, id);
    assert t.order == s.order + [id];
    assert t.snapshots.Keys == s.snapshots.Keys + {id} && t.content.Keys == s.content.Keys + {id};
    forall i | 0 <= i < |t.order| ensures LinkedAt(t, i) {
      if i < |s.order| {
        assert LinkedAt(s, i);
      }
    }
  }

  lemma AppendFresh(order: seq<string>, id: string)
    requires Distinct(order) && id !in order
    ensures Distinct(order + [id])
    ensures forall k :: k in order + [id] <==> k in order || k == id
  {
    forall i, j | 0 <= i < j < |order| + 1 ensures (order + [id])[i] != (order + [id])[j] {
      if j == |order| { assert order[i] in order; }
    }
  }

  lemma ExtendsReflexive(s: Store)
    requires Chained(s)
    ensures Extends(s, s)
  {
  }

  lemma ExtendsTransitive(a: Store, b: Store, c: Store)
    requires Extends(a, b) && Extends(b, c)
    ensures Extends(a, c)
  {
    var n := |a.order|;
    assert c.order[..n] == c.order[..|b.order|][..n];
    forall k | k in a.order ensures k in b.order {
      var i :| 0 <= i < n && a.order[i] == k;
      assert b.order[..n][i] == b.order[i];
    }
  }

  /** In a chain two snapshots never supersede the same one. */
  lemma SupersededIsInjective(s: Store, i: nat, j: nat)
    requires Chained(s) && i < j < |s.order|
    ensures s.order[i] in s.snapshots && s.order[j] in s.snapshots
    ensures s.snapshots[s.order[i]].superseded != s.snapshots[s.order[j]].superseded
  {
    assert LinkedAt(s, i) && LinkedAt(s, j);
  }

  datatype RegulationVersion = RegulationVersion(instrument: Option<string>, sourceVersion: Option<string>)

  predicate IsRegulation(n: Node, instrument: string, version: string) {
    n.kind == Regulation && n.props.instrument == Some(instrument) && n.props.sourceVersion == Some(version)
  }

  function RegulationOf(n: Node): RegulationVersion {
    RegulationVersion(n.props.instrument, n.props.sourceVersion)
  }

  /** The first SUPERSEDES edge of `n`, from position `k` on, whose target is a
      node of the snapshot. */
  function EdgeTarget(c: Content, n: string, k: nat): Option<RegulationVersion>
    requires k <= |c.rels|
    decreases |c.rels| - k
  {
    if k == |c.rels| then None
    else if c.rels[k].src == n && c.rels[k].kind == Supersedes && c.rels[k].dst in c.nodes.at then
      Some(RegulationOf(c.nodes.at[c.rels[k].dst]))
    else EdgeTarget(c, n, k + 1)
  }

  /** The first such target of a node for this version, from node `j` on. */
  function NodeTarget(c: Content, instrument: string, version: string, j: nat): Option<RegulationVersion>
    requires j <= |c.nodes.keys|
    decreases |c.nodes.keys| - j
  {
    if j == |c.nodes.keys| then None
    else
      var n := c.nodes.keys[j];
      var found := if n in c.nodes.at && IsRegulation(c.nodes.at[n], instrument, version) then EdgeTarget(c, n, 0)
        else None;
      if found.Some? then found else NodeTarget(c, instrument, version, j + 1)
  }

  /** The first such target in publish order, from snapshot `i` on. */
  function SupersedesTarget(s: Store, instrument: string, version: string, i: nat): Option<RegulationVersion>
    requires i <= |s.order|
    decreases |s.order| - i
  {
    if i == |s.order| then None
    else
      var found := if s.order[i] in s.content then NodeTarget(s.content[s.order[i]], instrument, version, 0) else None;
      if found.Some? then found else SupersedesTarget(s, instrument, version, i + 1)
  }

  /** In this snapshot a node for the version has a SUPERSEDES edge to a node with
      the target's properties. */
  ghost predicate LinkIn(c: Content, instrument: string, version: string, target: RegulationVersion) {
    exists n, t :: n in c.nodes.keys && n in c.nodes.at && t in c.nodes.at
      && IsRegulation(c.nodes.at[n], instrument, version)
      && Edge(n, t, Supersedes) in c.rels && RegulationOf(c.nodes.at[t]) == target
  }

  ghost predicate SupersedesLink(s: Store, instrument: string, version: string, target: RegulationVersion) {
    exists i :: 0 <= i < |s.order| && s.order[i] in s.content
      && LinkIn(s.content[s.order[i]], instrument, version, target)
  }

  lemma {:induction false} EdgeTargetMeaning(c: Content, n: string, k: nat)
    requires k <= |c.rels|
    ensures var r := EdgeTarget(c, n, k);
      if r.Some? then exists i :: k <= i < |c.rels| && c.rels[i] == Edge(n, c.rels[i].dst, Supersedes) && c.rels[i].dst in c.nodes.at && RegulationOf(c.nodes.at[c.rels[i].dst]) == r.value
      else forall i :: k <= i < |c.rels| && c.rels[i] == Edge(n, c.rels[i].dst, Supersedes) ==>
        c.rels[i].dst !in c.nodes.at
    decreases |c.rels| - k
  {
    if k < |c.rels| {
      EdgeTargetMeaning(c, n, k + 1);
    }
  }

  lemma {:induction false} NodeTargetMeaning(c: Content, instrument: string, version: string, j: nat)
    requires j <= |c.nodes.keys|
    ensures var r := NodeTarget(c, instrument, version, j);
      && (r.Some? ==> LinkIn(c, instrument, version, r.value))
      && (r.None? ==> forall i, t :: j <= i < |c.nodes.keys| && c.nodes.keys[i] in c.nodes.at && t in c.nodes.at ==>
            IsRegulation(c.nodes.at[c.nodes.keys[i]], instrument, version) ==>
              Edge(c.nodes.keys[i], t, Supersedes) !in c.rels)
    decreases |c.nodes.keys| - j
  {
    if j < |c.nodes.keys| {
      EdgeTargetMeaning(c, c.nodes.keys[j], 0);
      NodeTargetMeaning(c, instrument, version, j + 1);
    }
  }

  /** The search finds a link exactly when there is one. */
  lemma {:induction false} SupersedesTargetMeaning(s: Store, instrument: string, version: string, i: nat)
    requires i <= |s.order|
    ensures var r := SupersedesTarget(s, instrument, version, i);
      && (r.Some? ==> SupersedesLink(s, instrument, version, r.value))
      && (r.None? ==> forall j, target :: i <= j < |s.order| && s.order[j] in s.content ==>
        !LinkIn(s.content[s.order[j]], instrument, version, target))
    decreases |s.order| - i
  {
    if i < |s.order| {
      if s.order[i] in s.content {
        NodeTargetMeaning(s.content[s.order[i]], instrument, version, 0);
      }
      SupersedesTargetMeaning(s, instrument, version, i + 1);
    }
  }

  datatype LatestRegulation = LatestRegulation(node: string, snapshot: string, sourceVersion: Option<string>)

  predicate ForInstrument(n: Node, instrument: string) {
    n.kind == Regulation && n.props.instrument == Some(instrument)
  }

  /** The last matching node among the first `j`, or what was found before. */
  function LatestIn(c: Content, snapshot: string, instrument: string, j: nat,
                    before: Option<LatestRegulation>): Option<LatestRegulation>
    requires j <= |c.nodes.keys|
  {
    if j == 0 then before
    else
      var k := c.nodes.keys[j - 1];
      if k in c.nodes.at && ForInstrument(c.nodes.at[k], instrument) then
        Some(LatestRegulation(k, snapshot, c.nodes.at[k].props.sourceVersion))
      else LatestIn(c, snapshot, instrument, j - 1, before)
  }

  /** The last matching node of the last snapshot that has one. */
  function Latest(s: Store, instrument: string, i: nat): Option<LatestRegulation>
    requires i <= |s.order|
  {
    if i == 0 then None
    else
      var k := s.order[i - 1];
      if k in s.content then LatestIn(s.content[k], k, instrument, |s.content[k].nodes.keys|,
        Latest(s, instrument, i - 1))
      else Latest(s, instrument, i - 1)
  }

  class InMemoryGraphStore {
    var head: Option<string>
    var order: seq<string>
    var snapshots: map<string, Metadata>
    var content: map<string, Content>

    ghost function View(): Store
      reads this
    {
      Store(head, order, snapshots, content)
    }

    constructor ()
      ensures View() == EMPTY_STORE && Chained(View())
    {
      head, order, snapshots, content := None, [], map[], map[];
    }

    /** Stages the snapshot and commits it. `newId` is the freshly generated id. */
    method Publish(nodes: seq<Node>, rels: seq<Edge>, ontologyVersion: string, newId: string) returns (m: Metadata)
      requires Chained(View())
      requires newId !in snapshots
      modifies this
      ensures View() == PublishTo(old(View()), newId, nodes, rels, ontologyVersion)
      ensures m == Metadata(newId, ontologyVersion, old(head))
      ensures Chained(View()) && Extends(old(View()), View())
    {
      PublishKeepsChain(View(), newId, nodes, rels, ontologyVersion);
      var stagedContent := ContentOf(nodes, rels);
      m := Metadata(newId, ontologyVersion, head);
      order := order + [newId];
      snapshots := snapshots[newId := m];
      content := content[newId := stagedContent];
      head := Some(newId);
    }

    method GetSnapshot(id: string) returns (m: Option<Metadata>)
      ensures m == if id in snapshots then Some(snapshots[id]) else None
    {
      m := if id in snapshots then Some(snapshots[id]) else None;
    }

    /** An unknown snapshot answers with no rows. */
    method QueryProofPath(id: string) returns (r: Result<seq<Row>, QueryError>)
      ensures r == if id in content then Query(content[id]) else Ok([])
    {
      if id !in content {
        return Ok([]);
      }
      r := QueryContent(content[id]);
    }

    /** The snapshot's own id and every id its chain of superseded links leads to.
        The loop has no bound of its own: the chain supplies it. */
    method Lineage(id: string) returns (r: Option<seq<string>>)
      requires Chained(View())
      ensures r.None? <==> id !in order
      ensures r.Some? ==> exists i :: 0 <= i < |order| && order[i] == id && |r.value| == i + 1
                            && forall k :: 0 <= k <= i ==> r.value[k] == order[i - k]
    {
      var m := GetSnapshot(id);
      if m == None {
        return None;
      }
      assert id in order;
      ghost var start :| 0 <= start < |order| && order[start] == id;
      ghost var i: int := start;
      assert LinkedAt(View(), i);
      var lineage := [m.value.id];
      var cursor := m.value.superseded;
      while cursor != None
        invariant 0 <= i <= start
        invariant |lineage| == start - i + 1
        invariant forall k :: 0 <= k < |lineage| ==> lineage[k] == order[start - k]
        invariant cursor == Prev(order, i)
        decreases i
      {
        lineage := lineage + [cursor.value];
        i := i - 1;
        assert LinkedAt(View(), i);
        var prior := GetSnapshot(cursor.value);
        cursor := if prior.Some? then prior.value.superseded else None;
      }
      r := Some(lineage);
    }
 
    /** The properties of the regulation that this version supersedes. */
    method FindSupersedesTarget(instrument: string, version: string) returns (r: Option<RegulationVersion>)
      requires Chained(View())
      ensures r == SupersedesTarget(View(), instrument, version, 0)
    {
      ghost var s := View();
      for i := 0 to |order|
        invariant SupersedesTarget(s, instrument, version, 0) == SupersedesTarget(s, instrument, version, i)
      {
        assert order[i] in order;
        r := FindInSnapshot(content[order[i]], instrument, version);
        if r.Some? {
          return;
        }
      }
      r := None;
    }

    static method FindInSnapshot(c: Content, instrument: string, version: string) returns (r: Option<RegulationVersion>)
      ensures r == NodeTarget(c, instrument, version, 0)
    {
      for j := 0 to |c.nodes.keys|
        invariant NodeTarget(c, instrument, version, 0) == NodeTarget(c, instrument, version, j)
      {
        var n := c.nodes.keys[j];
        if n in c.nodes.at && IsRegulation(c.nodes.at[n], instrument, version) {
          r := FindEdge(c, n);
          if r.Some? {
            return;
          }
        }
      }
      r := None;
    }

    static method FindEdge(c: Content, n: string) returns (r: Option<RegulationVersion>)
      ensures r == EdgeTarget(c, n, 0)
    {
      for k := 0 to |c.rels|
        invariant EdgeTarget(c, n, 0) == EdgeTarget(c, n, k)
      {
        var e := c.rels[k];
        if e.src == n && e.kind == Supersedes && e.dst in c.nodes.at {
          return Some(RegulationOf(c.nodes.at[e.dst]));
        }
      }
      r := None;
    }

    /** Scans every snapshot and keeps overwriting: the last match wins. */
    method FindLatestRegulation(instrument: string) returns (latest: Option<LatestRegulation>)
      requires Chained(View())
      ensures latest == Latest(View(), instrument, |order|)
    {
      latest := None;
      ghost var s := View();
      for i := 0 to |order|
        invariant latest == Latest(s, instrument, i)
      {
        assert order[i] in order;
        var c := content[order[i]];
        ghost var before := latest;
        for j := 0 to |c.nodes.keys|
          invariant latest == LatestIn(c, order[i], instrument, j, before)
        {
          var k := c.nodes.keys[j];
          if k in c.nodes.at && ForInstrument(c.nodes.at[k], instrument) {
            latest := Some(LatestRegulation(k, order[i], c.nodes.at[k].props.sourceVersion));
          }
        }
      }
    }
  }
}
