/** Field edits: the diff that is logged and the patch that is applied. */
module Diffs {
  import opened Common
  import opened Json
  import opened ObligationRecords

  datatype Group = Semantics | Evidence

  function GroupName(g: Group): string {
    match g case Semantics => "legal_semantics" case Evidence => "source_evidence"
  }

  function GroupOf(p: Proposal, g: Group): Fields {
    match g case Semantics => p.semantics case Evidence => p.evidence
  }

  /** The patch for one group; anything that is not a dictionary is skipped. */
  function GroupEdits(edits: Fields, g: Group): Fields {
    if GroupName(g) in edits && edits[GroupName(g)].Obj? then edits[GroupName(g)].fields else map[]
  }

  /** `f"{group}.{field}"`, the key of a changed field in the logged diff. */
  function Named(name: string, field: string): string {
    name + "." + field
  }

  function Key(g: Group, field: string): string {
    Named(GroupName(g), field)
  }

  predicate Changes(p: Proposal, edits: Fields, g: Group, field: string) {
    field in GroupEdits(edits, g) && !Same(Get(GroupOf(p, g), field), GroupEdits(edits, g)[field])
  }

  /** A field is logged exactly when the edits change it, with old and new value. */
  ghost predicate LogsField(p: Proposal, edits: Fields, diff: Diff, g: Group, f: string) {
    && (Key(g, f) in diff <==> Changes(p, edits, g, f))
    && (Changes(p, edits, g, f) ==>
          Key(g, f) in diff && diff[Key(g, f)] == Change(Get(GroupOf(p, g), f), GroupEdits(edits, g)[f]))
  }

  /** The diff logs every field that the edits really change, and nothing else. */
  ghost predicate IsDiff(p: Proposal, edits: Fields, diff: Diff) {
    && (forall g, f :: LogsField(p, edits, diff, g, f))
    && (forall k :: k in diff ==> exists g, f :: k == Key(g, f))
  }

  lemma FieldOfKey(name: string, f: string)
    ensures |name| + 1 <= |Named(name, f)| && Named(name, f)[|name| + 1..] == f
  {
  }

  function ChangedKeys(name: string, before: Fields, patch: Fields): (keys: set<string>)
    ensures forall k :: k in keys ==> |name| + 1 <= |k|
  {
    set f | f in patch && !Same(Get(before, f), patch[f]) :: Named(name, f)
  }

  /** Changed fields of one group, keyed for the log. */
  function GroupDiff(name: string, before: Fields, patch: Fields): (d: Diff)
    ensures d.Keys == ChangedKeys(name, before, patch)
  {
    var keys := ChangedKeys(name, before, patch);
    map k | k in keys :: Change(Get(before, k[|name| + 1..]), Get(patch, k[|name| + 1..]))
  }

  lemma GroupDiffMeaning(name: string, before: Fields, patch: Fields, f: string)
    ensures Named(name, f) in GroupDiff(name, before, patch) <==> f in patch && !Same(Get(before, f), patch[f])
    ensures Named(name, f) in GroupDiff(name, before, patch) ==>
      GroupDiff(name, before, patch)[Named(name, f)] == Change(Get(before, f), Get(patch, f))
  {
    hide Same, Named;
    FieldOfKey(name, f);
    if Named(name, f) in GroupDiff(name, before, patch) {
      var x :| x in patch && !Same(Get(before, x), patch[x]) && Named(name, x) == Named(name, f);
      FieldOfKey(name, x);
    }
  }

  lemma GroupDiffKeys(name: string, before: Fields, patch: Fields, k: string)
    requires k in GroupDiff(name, before, patch)
    ensures |name| + 1 <= |k| && k == Named(name, k[|name| + 1..])
  {
    hide Same, Named;
    var x :| x in patch && k == Named(name, x);
    FieldOfKey(name, x);
  }

  function DiffOf(p: Proposal, edits: Fields): Diff {
    GroupDiff(GroupName(Semantics), p.semantics, GroupEdits(edits, Semantics))
    + GroupDiff(GroupName(Evidence), p.evidence, GroupEdits(edits, Evidence))
  }

  lemma KeysApart(g: Group, f: string, h: Group, x: string)
    requires g != h
    ensures Key(g, f) != Key(h, x)
  {
    assert Key(g, f)[0] == GroupName(g)[0] && Key(h, x)[0] == GroupName(h)[0];
  }

  lemma GroupsApart(g: Group, f: string, h: Group, before: Fields, patch: Fields)
    requires g != h
    ensures Key(g, f) !in GroupDiff(GroupName(h), before, patch)
  {
    hide Same, Named, GroupName, GroupDiff;
    if Key(g, f) in GroupDiff(GroupName(h), before, patch) {
      var k := Key(g, f);
      GroupDiffKeys(GroupName(h), before, patch, k);
      KeysApart(g, f, h, k[|GroupName(h)| + 1..]);
    }
  }

  /** The logged diff says what it should. */
  lemma DiffMeaning(p: Proposal, edits: Fields)
    ensures IsDiff(p, edits, DiffOf(p, edits))
  {
    hide DiffOf, LogsField, Named, GroupName;
    var d := DiffOf(p, edits);
    forall g, f ensures LogsField(p, edits, d, g, f) {
      DiffAt(p, edits, g, f);
    }
    forall k | k in d ensures exists g, f :: k == Key(g, f) {
      KeysOfDiff(p, edits, k);
    }
  }

  lemma DiffAt(p: Proposal, edits: Fields, g: Group, f: string)
    ensures LogsField(p, edits, DiffOf(p, edits), g, f)
  {
    hide Same, GroupDiff, GroupEdits, Named, GroupName;
    GroupDiffMeaning(GroupName(g), GroupOf(p, g), GroupEdits(edits, g), f);
    var h := if g == Semantics then Evidence else Semantics;
    GroupsApart(g, f, h, GroupOf(p, h), GroupEdits(edits, h));
  }

  lemma KeysOfDiff(p: Proposal, edits: Fields, k: string)
    requires k in DiffOf(p, edits)
    ensures exists g, f :: k == Key(g, f)
  {
    hide Same, GroupEdits, GroupDiff, Named, GroupName;
    if k in GroupDiff(GroupName(Evidence), p.evidence, GroupEdits(edits, Evidence)) {
      GroupDiffKeys(GroupName(Evidence), p.evidence, GroupEdits(edits, Evidence), k);
      assert k == Key(Evidence, k[|GroupName(Evidence)| + 1..]);
    } else {
      GroupDiffKeys(GroupName(Semantics), p.semantics, GroupEdits(edits, Semantics), k);
      assert k == Key(Semantics, k[|GroupName(Semantics)| + 1..]);
    }
  }

  // ---- The two loops over the edits ----

  function Restrict(m: Fields, keys: set<string>): Fields {
    map k | k in m && k in keys :: m[k]
  }

  lemma RestrictAll(m: Fields)
    ensures Restrict(m, m.Keys) == m
  {
  }

  lemma RestrictNext(m: Fields, left: set<string>, f: string)
    requires left <= m.Keys && f in left
    ensures f !in Restrict(m, m.Keys - left)
    ensures Restrict(m, m.Keys - (left - {f})) == Restrict(m, m.Keys - left)[f := m[f]]
  {
  }

  method DiffGroup(name: string, before: Fields, patch: Fields) returns (d: Diff)
    ensures d == GroupDiff(name, before, patch)
  {
    hide Same, GroupDiff, Restrict;
    d := map[];
    var left := patch.Keys;
    RestrictEmpty(patch);
    GroupDiffEmpty(name, before);
    while left != {}
      invariant left <= patch.Keys
      invariant d == GroupDiff(name, before, Restrict(patch, patch.Keys - left))
    {
      var f :| f in left;
      RestrictNext(patch, left, f);
      GroupDiffStep(name, before, Restrict(patch, patch.Keys - left), f, patch[f]);
      if !Same(Get(before, f), patch[f]) {
        d := d[Named(name, f) := Change(Get(before, f), patch[f])];
      }
      left := left - {f};
    }
    assert patch.Keys - left == patch.Keys;
    RestrictAll(patch);
  }

  lemma RestrictEmpty(m: Fields)
    ensures Restrict(m, m.Keys - m.Keys) == map[]
  {
  }

  lemma GroupDiffEmpty(name: string, before: Fields)
    ensures GroupDiff(name, before, map[]) == map[]
  {
  }

  lemma GroupDiffStep(name: string, before: Fields, patch: Fields, f: string, v: Json)
    requires f !in patch
    ensures GroupDiff(name, before, patch[f := v])
         == if Same(Get(before, f), v) then GroupDiff(name, before, patch)
           else GroupDiff(name, before, patch)[Named(name, f) := Change(Get(before, f), v)]
  {
    hide Same, GroupDiff, Named;
    var a := GroupDiff(name, before, patch[f := v]);
    var b := if Same(Get(before, f), v) then GroupDiff(name, before, patch)
      else GroupDiff(name, before, patch)[Named(name, f) := Change(Get(before, f), v)];
    forall k | k in a || k in b ensures k in a && k in b && a[k] == b[k] {
      var x := if k in a then FieldIn(name, before, patch[f := v], k) else if k == Named(name, f) then f
        else FieldIn(name, before, patch, k);
      FieldOfKey(name, x);
      FieldOfKey(name, f);
      GroupDiffMeaning(name, before, patch[f := v], x);
      GroupDiffMeaning(name, before, patch, x);
    }
  }

  ghost function FieldIn(name: string, before: Fields, patch: Fields, k: string): (x: string)
    requires k in GroupDiff(name, before, patch)
    ensures k == Named(name, x)
  {
    GroupDiffKeys(name, before, patch, k);
    k[|name| + 1..]
  }

  /** Loops over the edited groups; anything that is not an editable group with a
      dictionary of edits is skipped. */
  method ComputeDiff(p: Proposal, edits: Fields) returns (diff: Diff)
    ensures diff == DiffOf(p, edits)
  {
    hide GroupDiff, Named, GroupName, PartialDiff;
    NamesDiffer();
    PartialEnds(p, edits);
    diff := map[];
    var todo := edits.Keys;
    while todo != {}
      invariant todo <= edits.Keys
      invariant diff == PartialDiff(p, edits, edits.Keys - todo)
    {
      var name :| name in todo;
      PartialStep(p, edits, edits.Keys - todo, name);
      assert edits.Keys - (todo - {name}) == edits.Keys - todo + {name};
      if name == GroupName(Semantics) && edits[name].Obj? {
        var d := DiffGroup(name, p.semantics, edits[name].fields);
        diff := diff + d;
      } else if name == GroupName(Evidence) && edits[name].Obj? {
        var d := DiffGroup(name, p.evidence, edits[name].fields);
        diff := diff + d;
      }
      todo := todo - {name};
    }
    assert edits.Keys - todo == edits.Keys;
  }

  lemma PartialEnds(p: Proposal, edits: Fields)
    ensures PartialDiff(p, edits, edits.Keys - edits.Keys) == map[]
    ensures PartialDiff(p, edits, edits.Keys) == DiffOf(p, edits)
  {
    hide GroupDiff;
    GroupDiffEmpty(GroupName(Semantics), p.semantics);
    GroupDiffEmpty(GroupName(Evidence), p.evidence);
  }

  lemma PartialStep(p: Proposal, edits: Fields, done: set<string>, name: string)
    requires name in edits && name !in done
    ensures PartialDiff(p, edits, done + {name}) == PartialDiff(p, edits, done) +
      if !edits[name].Obj? then map[]
      else if name == GroupName(Semantics) then GroupDiff(name, p.semantics, edits[name].fields)
      else if name == GroupName(Evidence) then GroupDiff(name, p.evidence, edits[name].fields)
      else map[]
  {
    hide GroupDiff, GroupName, GroupEdits;
    NamesDiffer();
    var a := GroupDiff(GroupName(Semantics), p.semantics, GroupEdits(edits, Semantics));
    var b := GroupDiff(GroupName(Evidence), p.evidence, GroupEdits(edits, Evidence));
    DiffsCommute(p, edits);
    UnionUnit(a);
    UnionUnit(b);
    UnionUnit(PartialDiff(p, edits, done));
    if name == GroupName(Semantics) {
      VisitedGroup(edits, Semantics, p.semantics);
      assert PartialDiff(p, edits, done) == if GroupName(Evidence) in done then b else map[];
    } else if name == GroupName(Evidence) {
      VisitedGroup(edits, Evidence, p.evidence);
      assert PartialDiff(p, edits, done) == if GroupName(Semantics) in done then a else map[];
    } else {
      assert PartialDiff(p, edits, done + {name}) == PartialDiff(p, edits, done);
    }
  }

  lemma UnionUnit(d: Diff)
    ensures d + map[] == d && map[] + d == d
  {
  }

  lemma VisitedGroup(edits: Fields, g: Group, before: Fields)
    requires GroupName(g) in edits
    ensures GroupDiff(GroupName(g), before, GroupEdits(edits, g))
         == if edits[GroupName(g)].Obj? then GroupDiff(GroupName(g), before, edits[GroupName(g)].fields) else map[]
  {
    GroupDiffEmpty(GroupName(g), before);
  }

  lemma NamesDiffer()
    ensures GroupName(Semantics) != GroupName(Evidence)
  {
    assert GroupName(Semantics)[0] != GroupName(Evidence)[0];
  }

  /** The diff once the groups in `done` have been visited. */
  ghost function PartialDiff(p: Proposal, edits: Fields, done: set<string>): Diff {
    (if GroupName(Semantics) in done then GroupDiff(GroupName(Semantics), p.semantics, GroupEdits(edits, Semantics))
      else map[])
    + (if GroupName(Evidence) in done then GroupDiff(GroupName(Evidence), p.evidence, GroupEdits(edits, Evidence))
      else map[])
  }

  lemma DiffsCommute(p: Proposal, edits: Fields)
    ensures var a := GroupDiff(GroupName(Semantics), p.semantics, GroupEdits(edits, Semantics));
            var b := GroupDiff(GroupName(Evidence), p.evidence, GroupEdits(edits, Evidence));
            a + b == b + a
  {
    hide GroupDiff, Named, GroupEdits, GroupName, ChangedKeys;
    var a := GroupDiff(GroupName(Semantics), p.semantics, GroupEdits(edits, Semantics));
    var b := GroupDiff(GroupName(Evidence), p.evidence, GroupEdits(edits, Evidence));
    forall k | k in a ensures k !in b {
      GroupDiffKeys(GroupName(Semantics), p.semantics, GroupEdits(edits, Semantics), k);
      var f := k[|GroupName(Semantics)| + 1..];
      assert k == Key(Semantics, f);
      GroupsApart(Semantics, f, Evidence, p.evidence, GroupEdits(edits, Evidence));
    }
    DisjointUnion(a, b);
  }

  lemma DisjointUnion(a: Diff, b: Diff)
    requires a.Keys !! b.Keys
    ensures a + b == b + a
  {
  }

  /** The patched evidence. New text without a new hash gets its hash recomputed,
      which raises unless the text is a string. */
  function PatchedEvidence(env: Env, evidence: Fields, patch: Fields): Result<Fields, ReviewError> {
    var merged := evidence + patch;
    if TEXT in patch && HASH !in patch then
      match merged[TEXT]
      case Str(s) => Ok(merged[HASH := Str(env.hash(s))])
      case _ => Err(Raised)
    else Ok(merged)
  }

  function ApplyEdits(env: Env, p: Proposal, edits: Fields): Result<Proposal, ReviewError> {
    match PatchedEvidence(env, p.evidence, GroupEdits(edits, Evidence))
    case Err(e) => Err(e)
    case Ok(evidence) => Ok(p.(semantics := p.semantics + GroupEdits(edits, Semantics), evidence := evidence))
  }

  method ApplyEditsToProposal(env: Env, p: Proposal, edits: Fields) returns (r: Result<Proposal, ReviewError>)
    ensures r == ApplyEdits(env, p, edits)
  {
    hide PatchedEvidence;
    PatchNothing(env, p.evidence);
    var updated := p;
    var todo := edits.Keys;
    while todo != {}
      invariant todo <= edits.Keys
      invariant updated.identity == p.identity && updated.references == p.references
        && updated.governance == p.governance
      invariant updated.semantics == p.semantics + if GroupName(Semantics) in edits.Keys - todo then
        GroupEdits(edits, Semantics) else map[]
      invariant Ok(updated.evidence)
        == PatchedEvidence(env, p.evidence, if GroupName(Evidence) in edits.Keys - todo then
          GroupEdits(edits, Evidence) else map[])
    {
      var name :| name in todo;
      if name == GroupName(Semantics) && edits[name].Obj? {
        updated := updated.(semantics := updated.semantics + edits[name].fields);
      } else if name == GroupName(Evidence) && edits[name].Obj? {
        assert updated.evidence == p.evidence;
        var patched := PatchedEvidence(env, updated.evidence, edits[name].fields);
        if patched.Err? {
          return Err(patched.error);
        }
        updated := updated.(evidence := patched.value);
      }
      todo := todo - {name};
    }
    r := Ok(updated);
  }

  /** What an edit does to the record: each patched field gets its new value, every
      other field keeps its old one, and only the hash of new text is recomputed;
      nothing outside the two groups moves. */
  lemma PatchMeaning(env: Env, p: Proposal, edits: Fields, g: Group, f: string)
    requires ApplyEdits(env, p, edits).Ok?
    ensures var q := ApplyEdits(env, p, edits).value;
      var patch := GroupEdits(edits, g);
      && q.identity == p.identity && q.references == p.references && q.governance == p.governance
      && (if g == Evidence && f == HASH && TEXT in patch && HASH !in patch
          then TEXT in q.evidence && q.evidence[TEXT].Str? && Get(q.evidence, HASH) == Str(env.hash(q.evidence[TEXT].s))
          else Get(GroupOf(q, g), f) == if f in patch then patch[f] else Get(GroupOf(p, g), f))
  {
    hide GroupEdits;
    HashIsNotText();
  }

  /** The two editable groups and the keys of the log. */
  lemma GroupsMeaning(edits: Fields, f: string)
    ensures Key(Semantics, f) == "legal_semantics." + f && Key(Evidence, f) == "source_evidence." + f
    ensures GroupEdits(edits, Semantics) == match Get(edits, "legal_semantics") case Obj(patch) => patch case _ => map[]
    ensures GroupEdits(edits, Evidence) == match Get(edits, "source_evidence") case Obj(patch) => patch case _ => map[]
  {
    assert "legal_semantics" + "." + f == "legal_semantics." + f;
    assert "source_evidence" + "." + f == "source_evidence." + f;
  }

  /** An edit cannot be applied exactly when it brings new text that is no string, without
      a hash of its own. */
  lemma EditFailsIff(env: Env, p: Proposal, edits: Fields)
    ensures var patch := GroupEdits(edits, Evidence);
      ApplyEdits(env, p, edits) == Err(Raised) <==> TEXT in patch && HASH !in patch && !patch[TEXT].Str?
    ensures ApplyEdits(env, p, edits).Err? ==> ApplyEdits(env, p, edits) == Err(Raised)
  {
    hide GroupEdits;
  }

  lemma HashIsNotText()
    ensures HASH != TEXT
  {
    assert HASH[0] != TEXT[0];
  }

  lemma PatchNothing(env: Env, evidence: Fields)
    ensures PatchedEvidence(env, evidence, map[]) == Ok(evidence)
  {
    assert evidence + map[] == evidence;
  }
}
