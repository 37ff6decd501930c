/** What the two searches of the store find, by position: the first link of a version
    and the last regulation of an instrument. */
module StoreSearches {
  import opened Common
  import opened Ontology
  import opened ProofPath
  import opened GraphStore

  // ---- The first link ----

  /** The `k`-th edge leads from the `j`-th node, a regulation of this version, to a node
      of the snapshot. */
  ghost predicate LinkAt(c: Content, instrument: string, version: string, j: int, k: int) {
    && 0 <= j < |c.nodes.keys| && c.nodes.keys[j] in c.nodes.at
    && c.nodes.at[c.nodes.keys[j]].kind == Regulation
    && c.nodes.at[c.nodes.keys[j]].props.instrument == Some(instrument)
    && c.nodes.at[c.nodes.keys[j]].props.sourceVersion == Some(version)
    && LeavesAt(c, c.nodes.keys[j], k)
  }

  ghost predicate LeavesAt(c: Content, n: string, k: int) {
    && 0 <= k < |c.rels| && c.rels[k].src == n && c.rels[k].kind == Supersedes && c.rels[k].dst in c.nodes.at
  }

  /** The properties of the node that the `k`-th edge leads to. */
  ghost predicate LeadsTo(c: Content, k: int, t: RegulationVersion) {
    && 0 <= k < |c.rels| && c.rels[k].dst in c.nodes.at
    && t == RegulationVersion(c.nodes.at[c.rels[k].dst].props.instrument, c.nodes.at[c.rels[k].dst].props.sourceVersion)
  }

  ghost predicate FirstLeaving(c: Content, n: string, from: nat, k: int) {
    from <= k && LeavesAt(c, n, k) && forall m :: from <= m < k ==> !LeavesAt(c, n, m)
  }

  lemma {:induction false} EdgeIsFirst(c: Content, n: string, from: nat)
    requires from <= |c.rels|
    ensures match EdgeTarget(c, n, from)
      case None => forall k :: from <= k ==> !LeavesAt(c, n, k)
      case Some(t) => exists k :: FirstLeaving(c, n, from, k) && LeadsTo(c, k, t)
    decreases |c.rels| - from
  {
    if from < |c.rels| {
      EdgeIsFirst(c, n, from + 1);
      if LeavesAt(c, n, from) {
        assert FirstLeaving(c, n, from, from) && LeadsTo(c, from, RegulationOf(c.nodes.at[c.rels[from].dst]));
      } else if EdgeTarget(c, n, from).Some? {
        var t := EdgeTarget(c, n, from).value;
        var k :| FirstLeaving(c, n, from + 1, k) && LeadsTo(c, k, t);
        assert FirstLeaving(c, n, from, k);
      }
    }
  }

  /** The link at (j, k) comes before every other link from node `from` on. */
  ghost predicate FirstLink(c: Content, instrument: string, version: string, from: nat, j: int, k: int) {
    && from <= j && LinkAt(c, instrument, version, j, k)
    && forall i, m :: from <= i && LinkAt(c, instrument, version, i, m) ==> j < i || (j == i && k <= m)
  }

  lemma {:induction false} NodeIsFirst(c: Content, instrument: string, version: string, from: nat)
    requires from <= |c.nodes.keys|
    ensures match NodeTarget(c, instrument, version, from)
      case None => forall j, k :: from <= j ==> !LinkAt(c, instrument, version, j, k)
      case Some(t) => exists j, k :: FirstLink(c, instrument, version, from, j, k) && LeadsTo(c, k, t)
    decreases |c.nodes.keys| - from
  {
    hide LeavesAt, LeadsTo, EdgeTarget;
    if from < |c.nodes.keys| {
      var n := c.nodes.keys[from];
      NodeIsFirst(c, instrument, version, from + 1);
      EdgeIsFirst(c, n, 0);
      var own := n in c.nodes.at && IsRegulation(c.nodes.at[n], instrument, version);
      NoEarlyEdge(c, n);
      if own && EdgeTarget(c, n, 0).Some? {
        var t := EdgeTarget(c, n, 0).value;
        var k :| FirstLeaving(c, n, 0, k) && LeadsTo(c, k, t);
        assert FirstLink(c, instrument, version, from, from, k);
      } else if NodeTarget(c, instrument, version, from).Some? {
        var t := NodeTarget(c, instrument, version, from).value;
        var j, k :| FirstLink(c, instrument, version, from + 1, j, k) && LeadsTo(c, k, t);
        assert FirstLink(c, instrument, version, from, j, k);
      }
    }
  }

  lemma NoEarlyEdge(c: Content, n: string)
    ensures forall k :: LeavesAt(c, n, k) ==> 0 <= k
  {
  }

  ghost predicate StoreLinkAt(s: Store, instrument: string, version: string, i: int, j: int, k: int) {
    0 <= i < |s.order| && s.order[i] in s.content && LinkAt(s.content[s.order[i]], instrument, version, j, k)
  }

  /** The link in snapshot `i` at (j, k) comes before every other one from snapshot `from`
      on. */
  ghost predicate FirstStoreLink(s: Store, instrument: string, version: string, from: nat, i: int, j: int, k: int) {
    && from <= i && StoreLinkAt(s, instrument, version, i, j, k)
    && forall a, b, m :: from <= a && StoreLinkAt(s, instrument, version, a, b, m) ==>
         i < a || (i == a && (j < b || (j == b && k <= m)))
  }

  /** The search finds the target of the first link: in publish order, then in node
      order, then in edge order. */
  lemma {:induction false} TargetIsFirst(s: Store, instrument: string, version: string, from: nat)
    requires from <= |s.order|
    ensures match SupersedesTarget(s, instrument, version, from)
      case None => forall i, j, k :: from <= i ==> !StoreLinkAt(s, instrument, version, i, j, k)
      case Some(t) => exists i, j, k ::
        FirstStoreLink(s, instrument, version, from, i, j, k) && LeadsTo(s.content[s.order[i]], k, t)
    decreases |s.order| - from
  {
    hide LinkAt, LeadsTo, NodeTarget;
    if from < |s.order| {
      TargetIsFirst(s, instrument, version, from + 1);
      if s.order[from] in s.content {
        NodeIsFirst(s.content[s.order[from]], instrument, version, 0);
        NoEarlyNode(s.content[s.order[from]], instrument, version);
      }
      if s.order[from] in s.content && NodeTarget(s.content[s.order[from]], instrument, version, 0).Some? {
        var t := NodeTarget(s.content[s.order[from]], instrument, version, 0).value;
        var j, k :| FirstLink(s.content[s.order[from]], instrument, version, 0, j, k)
                    && LeadsTo(s.content[s.order[from]], k, t);
        assert FirstStoreLink(s, instrument, version, from, from, j, k);
      } else if SupersedesTarget(s, instrument, version, from).Some? {
        var t := SupersedesTarget(s, instrument, version, from).value;
        var i, j, k :| FirstStoreLink(s, instrument, version, from + 1, i, j, k)
          && LeadsTo(s.content[s.order[i]], k, t);
        assert FirstStoreLink(s, instrument, version, from, i, j, k);
      }
    }
  }

  lemma NoEarlyNode(c: Content, instrument: string, version: string)
    ensures forall j, k :: LinkAt(c, instrument, version, j, k) ==> 0 <= j
  {
  }

  // ---- The last regulation ----

  /** The `j`-th node of snapshot `i` is a regulation of the instrument. */
  ghost predicate RegulationAt(s: Store, instrument: string, i: int, j: int) {
    && 0 <= i < |s.order| && s.order[i] in s.content && 0 <= j < |s.content[s.order[i]].nodes.keys|
    && s.content[s.order[i]].nodes.keys[j] in s.content[s.order[i]].nodes.at
    && var n := s.content[s.order[i]].nodes.at[s.content[s.order[i]].nodes.keys[j]];
       n.kind == Regulation && n.props.instrument == Some(instrument)
  }

  /** It comes after every other one before (i', j'). */
  ghost predicate LastBefore(s: Store, instrument: string, i: int, j: int, n: nat, m: nat) {
    && RegulationAt(s, instrument, i, j) && (i < n || (i == n && j < m))
    && forall a, b :: RegulationAt(s, instrument, a, b) && (a < n || (a == n && b < m)) ==> a < i || (a == i && b <= j)
  }

  /** The answer names the node, the snapshot and the version. */
  ghost predicate NamesAt(s: Store, i: int, j: int, r: LatestRegulation) {
    && 0 <= i < |s.order| && s.order[i] in s.content && 0 <= j < |s.content[s.order[i]].nodes.keys|
    && s.content[s.order[i]].nodes.keys[j] in s.content[s.order[i]].nodes.at
    && r.node == s.content[s.order[i]].nodes.keys[j] && r.snapshot == s.order[i]
    && r.sourceVersion == s.content[s.order[i]].nodes.at[r.node].props.sourceVersion
  }

  ghost predicate IsLast(s: Store, instrument: string, n: nat, m: nat, r: Option<LatestRegulation>) {
    match r
    case None => forall a, b :: a < n || (a == n && b < m) ==> !RegulationAt(s, instrument, a, b)
    case Some(x) => exists i, j :: LastBefore(s, instrument, i, j, n, m) && NamesAt(s, i, j, x)
  }

  lemma {:induction false} NodesAreLast(s: Store, instrument: string, n: nat, m: nat, before: Option<LatestRegulation>)
    requires n < |s.order| && s.order[n] in s.content && m <= |s.content[s.order[n]].nodes.keys|
    requires IsLast(s, instrument, n, 0, before)
    ensures IsLast(s, instrument, n, m, LatestIn(s.content[s.order[n]], s.order[n], instrument, m, before))
  {
    if m > 0 {
      hide IsLast;
      NodesAreLast(s, instrument, n, m - 1, before);
      OneNodeMore(s, instrument, n, m, LatestIn(s.content[s.order[n]], s.order[n], instrument, m - 1, before));
    }
  }

  lemma OneNodeMore(s: Store, instrument: string, n: nat, m: nat, r: Option<LatestRegulation>)
    requires n < |s.order| && s.order[n] in s.content && 0 < m <= |s.content[s.order[n]].nodes.keys|
    requires IsLast(s, instrument, n, m - 1, r)
    ensures var c := s.content[s.order[n]]; var k := c.nodes.keys[m - 1];
      IsLast(s, instrument, n, m, if k in c.nodes.at && ForInstrument(c.nodes.at[k], instrument)
        then Some(LatestRegulation(k, s.order[n], c.nodes.at[k].props.sourceVersion)) else r)
  {
    hide NamesAt;
    if RegulationAt(s, instrument, n, m - 1) {
      NamedAt(s, n, m - 1);
      assert LastBefore(s, instrument, n, m - 1, n, m);
    } else if r.Some? {
      var i, j :| LastBefore(s, instrument, i, j, n, m - 1) && NamesAt(s, i, j, r.value);
      assert LastBefore(s, instrument, i, j, n, m);
    }
  }

  lemma NamedAt(s: Store, i: nat, j: nat)
    requires i < |s.order| && s.order[i] in s.content && j < |s.content[s.order[i]].nodes.keys|
    requires s.content[s.order[i]].nodes.keys[j] in s.content[s.order[i]].nodes.at
    ensures var c := s.content[s.order[i]]; var k := c.nodes.keys[j];
      NamesAt(s, i, j, LatestRegulation(k, s.order[i], c.nodes.at[k].props.sourceVersion))
  {
  }

  lemma NextSnapshot(s: Store, instrument: string, n: nat, r: Option<LatestRegulation>)
    requires n < |s.order|
    requires IsLast(s, instrument, n, if s.order[n] in s.content then |s.content[s.order[n]].nodes.keys| else 0, r)
    ensures IsLast(s, instrument, n + 1, 0, r)
  {
    hide NamesAt;
    var m := if s.order[n] in s.content then |s.content[s.order[n]].nodes.keys| else 0;
    forall a, b | RegulationAt(s, instrument, a, b) ensures (a < n || (a == n && b < m)) <==> a < n + 1 {
    }
    forall a, b | RegulationAt(s, instrument, a, b) ensures 0 <= b {
    }
    if r.Some? {
      var i, j :| LastBefore(s, instrument, i, j, n, m) && NamesAt(s, i, j, r.value);
      assert LastBefore(s, instrument, i, j, n + 1, 0);
    }
  }

  /** The latest regulation of an instrument is the last one: in publish order, then in
      node order. */
  lemma {:induction false} LatestIsLast(s: Store, instrument: string, n: nat)
    requires n <= |s.order|
    ensures IsLast(s, instrument, n, 0, Latest(s, instrument, n))
  {
    if n == 0 {
      assert forall a, b :: RegulationAt(s, instrument, a, b) ==> 0 <= a && 0 <= b;
    } else {
      hide IsLast;
      LatestIsLast(s, instrument, n - 1);
      if s.order[n - 1] in s.content {
        NodesAreLast(s, instrument, n - 1, |s.content[s.order[n - 1]].nodes.keys|, Latest(s, instrument, n - 1));
      }
      NextSnapshot(s, instrument, n - 1, Latest(s, instrument, n));
    }
  }
}
