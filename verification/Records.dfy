/** The status of a reviewed record, shared by the review and the graph sides. */
module ReviewStatuses {
  datatype ReviewStatus = Pending | Accepted | Edited | Rejected | Escalated
}

/** Characters that Python's string methods treat as whitespace. */
module Whitespace {
  predicate IsSpace(c: char) {
    var n := c as int;
    || 0x09 <= n <= 0x0D || 0x1C <= n <= 0x20 || n == 0x85 || n == 0xA0 || n == 0x1680
    || 0x2000 <= n <= 0x200A || n == 0x2028 || n == 0x2029 || n == 0x202F || n == 0x205F || n == 0x3000
  }

  function StripLeft(s: string): (r: string)
    ensures r == "" || !IsSpace(r[0])
  {
    if s != "" && IsSpace(s[0]) then StripLeft(s[1..]) else s
  }

  /** `s.rstrip()`. */
  function StripRight(s: string): (r: string)
    ensures r <= s && (r == "" || !IsSpace(r[|r| - 1])) && forall i :: |r| <= i < |s| ==> IsSpace(s[i])
  {
    if s != "" && IsSpace(s[|s| - 1]) then StripRight(s[..|s| - 1]) else s
  }

  /** `s.strip()`. */
  function Strip(s: string): string {
    StripRight(StripLeft(s))
  }

  /** `not s.strip()`. */
  predicate Blank(s: string) {
    forall i | 0 <= i < |s| :: IsSpace(s[i])
  }
}

/** JSON values as Python sees them. */
module Json {
  datatype Json = Null | Bool(b: bool) | Num(n: int) | Str(s: string) | Arr(items: seq<Json>) | Obj(fields: map<string,
    Json>)

  /** Booleans become the numbers they equal. */
  function Norm(j: Json): Json {
    match j
    case Bool(b) => Num(if b then 1 else 0)
    case Arr(items) => Arr(seq(|items|, i requires 0 <= i < |items| => Norm(items[i])))
    case Obj(fields) => Obj(map k | k in fields :: Norm(fields[k]))
    case _ => j
  }

  /** Python's `==`: `True == 1`, at any depth. */
  predicate Same(a: Json, b: Json) {
    Norm(a) == Norm(b)
  }

  /** The number a boolean or a number stands for. */
  ghost predicate Counts(j: Json, n: int) {
    j == Num(n) || (j == Bool(true) && n == 1) || (j == Bool(false) && n == 0)
  }

  /** Equal values are numbers, or booleans, of the same value; the same string; both
      missing; lists of the same length with equal items; or dictionaries with the same
      keys and equal values. */
  lemma SameMeaning(a: Json, b: Json)
    ensures Same(a, b) <==>
      || (exists n :: Counts(a, n) && Counts(b, n))
      || (a.Str? && b == a) || (a.Null? && b.Null?)
      || (a.Arr? && b.Arr? && |a.items| == |b.items| && forall i :: 0 <= i < |a.items| ==> Same(a.items[i], b.items[i]))
      || (a.Obj? && b.Obj? && a.fields.Keys == b.fields.Keys && forall k :: k in a.fields ==>
        Same(a.fields[k], b.fields[k]))
  {
    NumberOf(a);
    NumberOf(b);
    if a.Arr? && b.Arr? {
      ItemsAlike(a.items, b.items);
    }
    if a.Obj? && b.Obj? {
      FieldsAlike(a.fields, b.fields);
    }
  }

  lemma NumberOf(j: Json)
    ensures forall n :: Counts(j, n) <==> Norm(j) == Num(n)
  {
  }

  lemma ItemsAlike(a: seq<Json>, b: seq<Json>)
    ensures Same(Arr(a), Arr(b)) <==> |a| == |b| && forall i :: 0 <= i < |a| ==> Same(a[i], b[i])
  {
    var x, y := Norm(Arr(a)), Norm(Arr(b));
    assert forall i :: 0 <= i < |a| ==> x.items[i] == Norm(a[i]);
    assert forall i :: 0 <= i < |b| ==> y.items[i] == Norm(b[i]);
    if |a| == |b| && forall i :: 0 <= i < |a| ==> Same(a[i], b[i]) {
      assert x.items == y.items;
    }
  }

  lemma FieldsAlike(a: map<string, Json>, b: map<string, Json>)
    ensures Same(Obj(a), Obj(b)) <==> a.Keys == b.Keys && forall k :: k in a ==> Same(a[k], b[k])
  {
    var x, y := Norm(Obj(a)), Norm(Obj(b));
    assert x.fields.Keys == a.Keys && y.fields.Keys == b.Keys;
    if a.Keys == b.Keys && forall k :: k in a ==> Same(a[k], b[k]) {
      assert x.fields == y.fields;
    }
  }

  /** Python's truth value. */
  predicate Truthy(j: Json) {
    match j
    case Null => false
    case Bool(b) => b
    case Num(n) => n != 0
    case Str(s) => s != ""
    case Arr(items) => items != []
    case Obj(fields) => fields != map[]
  }

  type Fields = map<string, Json>

  /** `fields.get(name)`. */
  function Get(fields: Fields, name: string): (r: Json)
    ensures name in fields ==> r == fields[name]
    ensures name !in fields ==> r == Null
  {
    if name in fields then fields[name] else Null
  }
}

/** Obligation records as they are stored and reviewed. */
module ObligationRecords {
  import opened Common
  import opened Json
  import opened ReviewStatuses

  datatype Identity = Identity(documentId: string, sourceVersion: string, instrument: string, clauseId: string)

  datatype References = References(related: seq<string>, targets: seq<string>)

  datatype Action = Accept | Edit | Reject | Escalate | UnknownAction(name: string)

  datatype Change = Change(before: Json, after: Json)

  type Diff = map<string, Change>

  datatype Entry = Entry(reviewer: string, action: Action, rationale: string, diff: Option<Diff>)

  datatype Governance = Governance(status: ReviewStatus, history: seq<Entry>)

  /** An obligation record. The two editable groups are dictionaries. */
  datatype Proposal = Proposal(identity: Identity, semantics: Fields, evidence: Fields, references: References,
    governance: Governance)

  datatype Decision = Decision(reviewer: string, action: Action, rationale: string, edits: Option<Fields>)

  datatype ReviewError =
    | UnknownActionError | EmptyRationale | NoSuchRevision | NotPresentable | EditRequiresEdits
    | BreaksFidelity | Raised | SchemaInvalid | NotDerived | HashMismatch | UnreviewedHistory

  /** The fixed document behind a record, and the functions the model leaves
      uninterpreted: the evidence hash and the record schema. */
  datatype Env = Env(text: string, anchors: set<string>, hash: string -> string, schema: Proposal -> bool)

  const TEXT := "verbatim_text"
  const HASH := "evidence_hash"
  const START := "char_start"
  const END := "char_end"
}
