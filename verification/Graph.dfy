/** Graph records: typed nodes, typed edges, and the dictionary of nodes by id. */
module Graph {
  import opened Common
  import opened PyDict
  import opened Ontology

  /** The node properties that some modelled operation reads. */
  datatype Props = Props(clauseId: Option<string>, instrument: Option<string>, sourceVersion: Option<string>)

  datatype Node = Node(id: string, kind: NodeType, props: Props)

  datatype Edge = Edge(src: string, dst: string, kind: RelType)

  /** `{n["node_id"]: n for n in nodes}`: a repeated id keeps its first place and
      its last value. */
  function ById(nodes: seq<Node>): (d: Dict<Node>)
    ensures d.Valid()
    ensures forall k :: k in d.at ==> d.at[k] in nodes && d.at[k].id == k
    ensures forall n :: n in nodes ==> n.id in d.at
  {
    if nodes == [] then Empty()
    else
      var last := |nodes| - 1;
      assert nodes == nodes[..last] + [nodes[last]];
      ById(nodes[..last]).Put(nodes[last].id, nodes[last])
  }

  /** The dictionary without its last key. */
  ghost function Init(d: Dict<Node>): (r: Dict<Node>)
    requires d.Valid() && d.keys != []
    ensures r.Valid()
    ensures r.keys == d.keys[..|d.keys| - 1]
    ensures forall k :: k in r.at ==> k in d.at && r.at[k] == d.at[k]
  {
    var n := |d.keys| - 1;
    var k := d.keys[n];
    assert d.keys == d.keys[..n] + [k];
    assert forall x :: x in d.keys[..n] ==> x in d.at;
    Dict(d.keys[..n], map x | x in d.keys[..n] :: d.at[x])
  }

  lemma PutBack(d: Dict<Node>)
    requires d.Valid() && d.keys != []
    ensures var k := d.keys[|d.keys| - 1]; k in d.at && Init(d).Put(k, d.at[k]) == d
  {
    var n := |d.keys| - 1;
    var k := d.keys[n];
    assert d.keys == d.keys[..n] + [k];
    assert k in d.keys;
    assert Init(d).at[k := d.at[k]] == d.at;
  }

  /** Listing a dictionary of nodes and indexing the list again gives it back. */
  lemma {:induction false} ByIdOfValues(d: Dict<Node>)
    requires d.Valid()
    requires forall k :: k in d.at ==> d.at[k].id == k
    ensures ById(d.Values()) == d
    decreases |d.keys|
  {
    if |d.keys| == 0 {
      assert d.at == map[] by { assert forall k :: k !in d.at; }
    } else {
      var n := |d.keys| - 1;
      assert d.keys[n] in d.keys;
      ByIdOfValues(Init(d));
      assert d.Values()[..n] == Init(d).Values() by {
        forall i | 0 <= i < n ensures d.Values()[i] == Init(d).Values()[i] {
          assert d.keys[..n][i] == d.keys[i];
          assert Init(d).keys[i] in Init(d).keys;
        }
      }
      PutBack(d);
    }
  }

  /** Targets of the edges of one kind out of one node, in list order. */
  function EdgesFrom(rels: seq<Edge>, src: string, kind: RelType): (r: seq<string>)
    ensures forall t :: t in r <==> Edge(src, t, kind) in rels
  {
    if rels == [] then []
    else
      var n := |rels| - 1;
      var e := rels[n];
      assert rels == rels[..n] + [e];
      EdgesFrom(rels[..n], src, kind) + if e.src == src && e.kind == kind then [e.dst] else []
  }
}
