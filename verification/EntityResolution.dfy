/** Matching a candidate name to an existing entity: the first exact match after
    normalisation, else the closest one when it is close enough. */
module EntityResolution {
  import opened Common

  datatype Entity = Entity(id: string, name: string)

  datatype MatchKind = Exact | Fuzzy | Unmatched

  datatype Match = Match(candidate: string, nodeId: Option<string>, name: Option<string>, confidence: real,
    kind: MatchKind)

  /** The string functions the matcher is built on: normalisation, and the
      similarity ratio between two normalised names. */
  datatype Similarity = Similarity(normalize: string -> string, ratio: (string, string) -> real)

  const THRESHOLD: real := 0.6

  predicate SameName(sim: Similarity, candidate: string, e: Entity) {
    sim.normalize(e.name) == sim.normalize(candidate)
  }

  function RatioTo(sim: Similarity, candidate: string, e: Entity): real {
    sim.ratio(sim.normalize(candidate), sim.normalize(e.name))
  }

  /** Position of the first exact match from `i` on, or the length. */
  function FirstExact(sim: Similarity, candidate: string, existing: seq<Entity>, i: nat): (r: nat)
    requires i <= |existing|
    ensures i <= r <= |existing|
    ensures r < |existing| ==> SameName(sim, candidate, existing[r])
    ensures forall j :: i <= j < r ==> !SameName(sim, candidate, existing[j])
    decreases |existing| - i
  {
    if i == |existing| || SameName(sim, candidate, existing[i]) then i
    else FirstExact(sim, candidate, existing, i + 1)
  }

  /** Position of the first entity with the greatest positive ratio, if any. */
  function Closest(sim: Similarity, candidate: string, existing: seq<Entity>): (r: Option<nat>)
    ensures r.Some? ==> r.value < |existing| && RatioTo(sim, candidate, existing[r.value]) > 0.0
    ensures r.Some? ==> forall j :: 0 <= j < |existing| ==>
              RatioTo(sim, candidate, existing[j]) <= RatioTo(sim, candidate, existing[r.value])
              && (j < r.value ==> RatioTo(sim, candidate, existing[j]) < RatioTo(sim, candidate, existing[r.value]))
    ensures r.None? ==> forall j :: 0 <= j < |existing| ==> RatioTo(sim, candidate, existing[j]) <= 0.0
  {
    if existing == [] then None
    else
      var n := |existing| - 1;
      var before := Closest(sim, candidate, existing[..n]);
      assert forall j :: 0 <= j < n ==> existing[..n][j] == existing[j];
      var best := if before.Some? then RatioTo(sim, candidate, existing[before.value]) else 0.0;
      if RatioTo(sim, candidate, existing[n]) > best then Some(n) else before
  }

  function Resolve(sim: Similarity, candidate: string, existing: seq<Entity>): (m: Match)
    ensures m.candidate == candidate
    ensures m.nodeId.Some? ==> exists e :: e in existing && m.nodeId == Some(e.id) && m.name == Some(e.name)
  {
    var i := FirstExact(sim, candidate, existing, 0);
    if i < |existing| then Match(candidate, Some(existing[i].id), Some(existing[i].name), 1.0, Exact)
    else
      var best := Closest(sim, candidate, existing);
      if best.Some? && RatioTo(sim, candidate, existing[best.value]) >= THRESHOLD then
        Match(candidate, Some(existing[best.value].id), Some(existing[best.value].name),
          RatioTo(sim, candidate, existing[best.value]), Fuzzy)
      else Match(candidate, None, None, 0.0, Unmatched)
  }

  method ResolveEntity(sim: Similarity, candidate: string, existing: seq<Entity>) returns (m: Match)
    ensures m == Resolve(sim, candidate, existing)
  {
    for i := 0 to |existing|
      invariant FirstExact(sim, candidate, existing, 0) == FirstExact(sim, candidate, existing, i)
    {
      if SameName(sim, candidate, existing[i]) {
        return Match(candidate, Some(existing[i].id), Some(existing[i].name), 1.0, Exact);
      }
    }
    var best: Option<nat>, bestRatio := None, 0.0;
    for i := 0 to |existing|
      invariant best == Closest(sim, candidate, existing[..i])
      invariant bestRatio == if best.Some? then RatioTo(sim, candidate, existing[best.value]) else 0.0
    {
      assert existing[..i + 1][..i] == existing[..i];
      var ratio := RatioTo(sim, candidate, existing[i]);
      if ratio > bestRatio {
        best, bestRatio := Some(i), ratio;
      }
    }
    assert existing[..|existing|] == existing;
    if best.Some? && bestRatio >= THRESHOLD {
      return Match(candidate, Some(existing[best.value].id), Some(existing[best.value].name), bestRatio, Fuzzy);
    }
    m := Match(candidate, None, None, 0.0, Unmatched);
  }

  /** The `i`-th entity is the first whose normalised name is the candidate's. */
  ghost predicate FirstSame(sim: Similarity, candidate: string, existing: seq<Entity>, i: int) {
    && 0 <= i < |existing| && sim.normalize(existing[i].name) == sim.normalize(candidate)
    && forall j :: 0 <= j < i ==> sim.normalize(existing[j].name) != sim.normalize(candidate)
  }

  ghost function RatioAt(sim: Similarity, candidate: string, existing: seq<Entity>, i: nat): real
    requires i < |existing|
  {
    sim.ratio(sim.normalize(candidate), sim.normalize(existing[i].name))
  }

  /** The `i`-th entity is the first of those closest to the candidate. */
  ghost predicate FirstClosest(sim: Similarity, candidate: string, existing: seq<Entity>, i: int) {
    && 0 <= i < |existing|
    && (forall j :: 0 <= j < |existing| ==>
      RatioAt(sim, candidate, existing, j) <= RatioAt(sim, candidate, existing, i))
    && (forall j :: 0 <= j < i ==> RatioAt(sim, candidate, existing, j) < RatioAt(sim, candidate, existing, i))
  }

  ghost predicate Names(m: Match, e: Entity, confidence: real) {
    m.nodeId == Some(e.id) && m.name == Some(e.name) && m.confidence == confidence
  }

  ghost predicate NamesClosest(sim: Similarity, candidate: string, existing: seq<Entity>, i: int, m: Match) {
    && FirstClosest(sim, candidate, existing, i) && RatioAt(sim, candidate, existing, i) >= 0.6
    && Names(m, existing[i], RatioAt(sim, candidate, existing, i))
  }

  /** A match is exact with the first entity of the same normalised name; without one
      it is fuzzy with the first closest entity, if its ratio is at least 0.6; otherwise
      there is none. It names that entity and carries that ratio. */
  lemma ResolveMeaning(sim: Similarity, candidate: string, existing: seq<Entity>)
    ensures var m := Resolve(sim, candidate, existing);
      && m.candidate == candidate
      && (m.kind == Exact <==> exists i :: FirstSame(sim, candidate, existing, i))
      && (m.kind == Exact ==> exists i :: FirstSame(sim, candidate, existing, i) && Names(m, existing[i], 1.0))
      && (m.kind == Fuzzy ==> exists i :: NamesClosest(sim, candidate, existing, i, m))
      && (m.kind == Unmatched <==> forall i :: 0 <= i < |existing| ==>
            sim.normalize(existing[i].name) != sim.normalize(candidate) && RatioAt(sim, candidate, existing, i) < 0.6)
      && (m.kind == Unmatched ==> m == Match(candidate, None, None, 0.0, Unmatched))
  {
    var i := FirstExact(sim, candidate, existing, 0);
    if i < |existing| {
      assert FirstSame(sim, candidate, existing, i);
      assert RatioAt(sim, candidate, existing, i) == RatioTo(sim, candidate, existing[i]);
    } else {
      var best := Closest(sim, candidate, existing);
      forall j: nat | j < |existing|
        ensures RatioAt(sim, candidate, existing, j) == RatioTo(sim, candidate, existing[j])
      {
      }
      if best.Some? {
        var m := Resolve(sim, candidate, existing);
        assert FirstClosest(sim, candidate, existing, best.value);
        assert m.kind == Fuzzy ==> NamesClosest(sim, candidate, existing, best.value, m);
      }
    }
  }
}
