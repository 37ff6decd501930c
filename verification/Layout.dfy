/** The proof-path drawing over the reals: labels, boxes, and where edges end. */
module Layout {
  import opened Common
  import opened Anchors

  datatype Role = Provision | Obligation | Control | Asset | Evidence | TestAsset

  const ROLES := [Provision, Obligation, Control, Asset, Evidence, TestAsset]

  /** The node-type prefix of a path entry. */
  function Name(r: Role): string {
    match r
    case Provision => "provision"
    case Obligation => "obligation"
    case Control => "control"
    case Asset => "asset"
    case Evidence => "evidence"
    case TestAsset => "testasset"
  }

  // ---- Labels ----

  const ID_LIMIT := 20

  /** Long identifiers keep 19 characters and an ellipsis. */
  function Truncate(id: string): (shown: string)
    ensures |shown| <= ID_LIMIT
    ensures shown == id <==> |id| <= ID_LIMIT
    ensures |id| > ID_LIMIT ==> |shown| == 20 && shown[..19] == id[..19] && shown[19] == '\U{2026}'
  {
    if |id| <= ID_LIMIT then id else id[..ID_LIMIT - 1] + ['\U{2026}']
  }

  /** `type:id`, both parts non-empty. */
  function SplitEntry(entry: string): Option<(string, string)> {
    var i := FirstColon(entry);
    if i == |entry| || i == 0 || i + 1 == |entry| then None else Some((entry[..i], entry[i + 1..]))
  }

  /** The node ids of a complete path, in order; anything else is not drawn. */
  function NodeIds(path: seq<string>): Option<seq<string>> {
    if |path| == |ROLES| && forall i | 0 <= i < |ROLES| :: SplitEntry(path[i]).Some? && SplitEntry(path[i]).value.0 == Name(ROLES[i])
    then Some(seq(|ROLES|, i requires 0 <= i < |ROLES| && SplitEntry(path[i]).Some? => SplitEntry(path[i]).value.1))
    else None
  }

  function DisplayLabel(r: Role, id: string): string {
    Name(r) + ": " + Truncate(id)
  }

  /** A path is drawn exactly when its six entries name the six types in order,
      each with a non-empty id. */
  lemma DrawnIff(path: seq<string>, ids: seq<string>)
    requires |ids| == |ROLES|
    ensures NodeIds(path) == Some(ids)
       <==> |path| == |ROLES| && forall i :: 0 <= i < |ROLES| ==>
         ids[i] != "" && path[i] == Name(ROLES[i]) + ":" + ids[i]
  {
    if NodeIds(path) == Some(ids) {
      forall i | 0 <= i < |ROLES| ensures ids[i] != "" && path[i] == Name(ROLES[i]) + ":" + ids[i] {
        var k := FirstColon(path[i]);
        assert path[i] == path[i][..k] + ":" + path[i][k + 1..];
      }
    }
    if |path| == |ROLES| && forall i :: 0 <= i < |ROLES| ==> ids[i] != "" && path[i] == Name(ROLES[i]) + ":" + ids[i] {
      forall i | 0 <= i < |ROLES| ensures SplitEntry(path[i]) == Some((Name(ROLES[i]), ids[i])) {
        SplitNamed(ROLES[i], ids[i]);
      }
      assert NodeIds(path).Some?;
      assert NodeIds(path).value == ids;
    }
  }

  lemma SplitNamed(r: Role, id: string)
    requires id != ""
    ensures SplitEntry(Name(r) + ":" + id) == Some((Name(r), id))
  {
    var name := Name(r);
    var s := name + ":" + id;
    assert forall j :: 0 <= j < |name| ==> name[j] != ':';
    assert s[|name|] == ':' && forall j :: 0 <= j < |name| ==> s[j] == name[j];
    assert FirstColon(s) == |name|;
    assert s[..|name|] == name && s[|name| + 1..] == id;
  }

  // ---- Boxes ----

  function Max(a: real, b: real): real {
    if a >= b then a else b
  }

  function BoxWidth(caption: string): real {
    Max(120.0, |caption| as real * 7.2 + 24.0)
  }

  function EdgeGap(relationship: string): real {
    Max(90.0, |relationship| as real * 6.4 + 30.0)
  }

  const TOP := 40.0
  const BOTTOM := 210.0
  const HEIGHT := 50.0
  const MARGIN := 20.0

  datatype Box = Box(x: real, y: real, width: real, height: real) {
    function CenterX(): real { x + width / 2.0 }
    function CenterY(): real { y + height / 2.0 }
  }

  /** Box widths, by role. */
  datatype Widths = Widths(provision: real, obligation: real, control: real, asset: real, evidence: real,
    testasset: real) {
    function Of(r: Role): real {
      match r
      case Provision => provision
      case Obligation => obligation
      case Control => control
      case Asset => asset
      case Evidence => evidence
      case TestAsset => testasset
    }

    predicate Wide() {
      forall r: Role :: Of(r) >= 120.0
    }
  }

  function WidthsOf(labels: map<Role, string>): (w: Widths)
    requires forall r: Role :: r in labels
    ensures w.Wide()
    ensures forall r: Role :: w.Of(r) == BoxWidth(labels[r])
  {
    Widths(BoxWidth(labels[Provision]), BoxWidth(labels[Obligation]), BoxWidth(labels[Control]),
           BoxWidth(labels[Asset]), BoxWidth(labels[Evidence]), BoxWidth(labels[TestAsset]))
  }

  /** How far the asset and evidence centres lie from the control's centre line. */
  function BranchOffset(w: Widths): real {
    Max(180.0, w.asset / 2.0 + w.evidence / 2.0 + 60.0)
  }

  function ControlX(w: Widths): real {
    MARGIN + w.provision + EdgeGap("DERIVED_FROM") + w.obligation + EdgeGap("MAPS_TO_CONTROL")
  }

  function ControlCenter(w: Widths): real {
    ControlX(w) + w.control / 2.0
  }

  /** Left edge before anything is shifted. */
  function LeftEdge(w: Widths, r: Role): real {
    match r
    case Provision => MARGIN
    case Obligation => MARGIN + w.provision + EdgeGap("DERIVED_FROM")
    case Control => ControlX(w)
    case Asset => ControlCenter(w) - BranchOffset(w) - w.asset / 2.0
    case Evidence => ControlCenter(w) + BranchOffset(w) - w.evidence / 2.0
    case TestAsset => ControlCenter(w) + BranchOffset(w) + w.evidence / 2.0 + EdgeGap("EVIDENCED_BY")
  }

  function Row(r: Role): real {
    if r.Provision? || r.Obligation? || r.Control? then TOP else BOTTOM
  }

  /** Everything moves right if the asset box would start left of the margin. */
  function Shift(w: Widths): real {
    Max(0.0, MARGIN - LeftEdge(w, Asset))
  }

  function Placed(w: Widths, r: Role): Box {
    Box(LeftEdge(w, r) + Shift(w), Row(r), w.Of(r), HEIGHT)
  }

  lemma Gaps()
    ensures EdgeGap("DERIVED_FROM") == 106.8 && EdgeGap("MAPS_TO_CONTROL") == 126.0 && EdgeGap("EVIDENCED_BY") == 106.8
  {
    assert |"DERIVED_FROM"| == 12 && |"MAPS_TO_CONTROL"| == 15 && |"EVIDENCED_BY"| == 12;
  }

  /** Places the boxes from left to right, then shifts all of them if the leftmost
      lies outside the margin. */
  method ComputeLayout(labels: map<Role, string>) returns (boxes: map<Role, Box>)
    requires forall r: Role :: r in labels
    ensures forall r: Role :: r in boxes && boxes[r] == Placed(WidthsOf(labels), r)
  {
    var w := WidthsOf(labels);
    Gaps();
    boxes := map[];
    var x := 20.0;
    boxes := boxes[Provision := Box(x, 40.0, w.provision, 50.0)];
    x := x + w.provision + EdgeGap("DERIVED_FROM");
    boxes := boxes[Obligation := Box(x, 40.0, w.obligation, 50.0)];
    x := x + w.obligation + EdgeGap("MAPS_TO_CONTROL");
    boxes := boxes[Control := Box(x, 40.0, w.control, 50.0)];
    var center := boxes[Control].CenterX();
    var bottom := 40.0 + 170.0;
    var offset := Max(180.0, w.asset / 2.0 + w.evidence / 2.0 + 60.0);
    boxes := boxes[Asset := Box(center - offset - w.asset / 2.0, bottom, w.asset, 50.0)];
    boxes := boxes[Evidence := Box(center + offset - w.evidence / 2.0, bottom, w.evidence, 50.0)];
    boxes := boxes[TestAsset := Box(boxes[Evidence].x + boxes[Evidence].width + EdgeGap("EVIDENCED_BY"), bottom, w.testasset, 50.0)];
    ghost var unshifted := boxes;
    forall r: Role ensures r in boxes && boxes[r] == Box(LeftEdge(w, r), Row(r), w.Of(r), HEIGHT) {
      match r case Provision => case Obligation => case Control => case Asset => case Evidence => case TestAsset =>
    }
    var least := LeastX(boxes);
    LeftmostIsMarginOrAsset(w);
    if least < 20.0 {
      var shift := 20.0 - least;
      var i := 0;
      while i < |ROLES|
        invariant 0 <= i <= |ROLES|
        invariant forall r: Role :: r in boxes
        invariant forall j :: 0 <= j < |ROLES| ==>
          boxes[ROLES[j]] == var b := unshifted[ROLES[j]]; if j < i then b.(x := b.x + shift) else b
      {
        boxes := boxes[ROLES[i] := boxes[ROLES[i]].(x := boxes[ROLES[i]].x + shift)];
        i := i + 1;
      }
      forall r: Role ensures boxes[r] == Placed(w, r) {
        var j := Index(r);
        assert boxes[ROLES[j]] == unshifted[r].(x := unshifted[r].x + shift);
      }
    }
  }

  function Index(r: Role): (i: nat)
    ensures i < |ROLES| && ROLES[i] == r
  {
    match r
    case Provision => 0
    case Obligation => 1
    case Control => 2
    case Asset => 3
    case Evidence => 4
    case TestAsset => 5
  }

  /** `min(box["x"] for box in boxes.values())`. */
  method LeastX(boxes: map<Role, Box>) returns (least: real)
    requires forall r: Role :: r in boxes
    ensures forall r: Role :: least <= boxes[r].x
    ensures exists r: Role :: least == boxes[r].x
  {
    least := boxes[Provision].x;
    var i := 1;
    while i < |ROLES|
      invariant 1 <= i <= |ROLES|
      invariant forall j :: 0 <= j < i ==> least <= boxes[ROLES[j]].x
      invariant exists r: Role :: least == boxes[r].x
    {
      if boxes[ROLES[i]].x < least {
        least := boxes[ROLES[i]].x;
      }
      i := i + 1;
    }
    forall r: Role ensures least <= boxes[r].x {
      assert ROLES[Index(r)] == r;
    }
  }

  lemma LeftmostIsMarginOrAsset(w: Widths)
    requires w.Wide()
    ensures forall r: Role :: LeftEdge(w, r) >= MARGIN || r == Asset
  {
    Gaps();
    assert w.Of(Provision) >= 120.0 && w.Of(Obligation) >= 120.0 && w.Of(Control) >= 120.0;
    assert w.Of(Asset) >= 120.0 && w.Of(Evidence) >= 120.0;
  }
}
