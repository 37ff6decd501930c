/** What the drawing looks like: boxes apart and on the canvas, edges that end on
    the boxes they join and keep clear of all others. */
module LayoutGeometry {
  import opened Layout

  /** Two closed rectangles without a common point. */
  predicate Disjoint(a: Box, b: Box) {
    || a.x + a.width < b.x || b.x + b.width < a.x
    || a.y + a.height < b.y || b.y + b.height < a.y
  }

  /** For any widths the boxes are pairwise disjoint and at or right of the
      margin. */
  lemma BoxesApart(w: Widths, r: Role, q: Role)
    requires w.Wide()
    ensures Placed(w, r).x >= MARGIN
    ensures r != q ==> Disjoint(Placed(w, r), Placed(w, q))
  {
    LeftmostIsMarginOrAsset(w);
    Gaps();
    WideAll(w);
  }

  lemma WideAll(w: Widths)
    requires w.Wide()
    ensures w.provision >= 120.0 && w.obligation >= 120.0 && w.control >= 120.0
    ensures w.asset >= 120.0 && w.evidence >= 120.0 && w.testasset >= 120.0
  {
    assert w.Of(Provision) >= 120.0 && w.Of(Obligation) >= 120.0 && w.Of(Control) >= 120.0;
    assert w.Of(Asset) >= 120.0 && w.Of(Evidence) >= 120.0 && w.Of(TestAsset) >= 120.0;
  }

  /** No text is cut: every label fits its box with the padding, and the gap
      between neighbours in a row fits the label of the edge that spans it. */
  lemma TextFits(labels: map<Role, string>, r: Role)
    requires forall q: Role :: q in labels
    ensures var w := WidthsOf(labels);
      && Placed(w, r).width >= |labels[r]| as real * 7.2 + 24.0
      && GapAfter(w, Provision, Obligation) >= |"DERIVED_FROM"| as real * 6.4 + 30.0
      && GapAfter(w, Obligation, Control) >= |"MAPS_TO_CONTROL"| as real * 6.4 + 30.0
      && GapAfter(w, Evidence, TestAsset) >= |"EVIDENCED_BY"| as real * 6.4 + 30.0
  {
    var w := WidthsOf(labels);
    assert w.Of(r) == BoxWidth(labels[r]);
  }

  function GapAfter(w: Widths, left: Role, right: Role): real {
    Placed(w, right).x - (Placed(w, left).x + Placed(w, left).width)
  }

  /** Where the boxes stand: three in the upper row and three in the lower one; gaps for
      the three edge labels of a row; asset and evidence centred at equal distance on
      either side of the control; and the provision or the asset at the left margin. */
  lemma BoxesMeaning(labels: map<Role, string>)
    requires forall r: Role :: r in labels
    ensures var w := WidthsOf(labels);
      var p, o, c, a, e, t := Placed(w, Provision), Placed(w, Obligation), Placed(w, Control), Placed(w, Asset),
                              Placed(w, Evidence), Placed(w, TestAsset);
      && p.y == o.y == c.y == 40.0 && a.y == e.y == t.y == 210.0
      && (forall r: Role :: Placed(w, r).height == 50.0 && IsWidth(|labels[r]|, Placed(w, r).width))
      && o.x - (p.x + p.width) == 106.8 && c.x - (o.x + o.width) == 126.0 && t.x - (e.x + e.width) == 106.8
      && IsOffset(a.width + e.width, c.CenterX() - a.CenterX())
        && e.CenterX() - c.CenterX() == c.CenterX() - a.CenterX()
      && p.x >= 20.0 && a.x >= 20.0 && (p.x == 20.0 || a.x == 20.0)
  {
    Gaps();
    var w := WidthsOf(labels);
    forall r: Role ensures IsWidth(|labels[r]|, Placed(w, r).width) {
      assert w.Of(r) == BoxWidth(labels[r]);
    }
  }

  /** At least 120, and 7.2 per character and 24 more if that is wider. */
  ghost predicate IsWidth(characters: nat, width: real) {
    var needed := characters as real * 7.2 + 24.0;
    width == if needed > 120.0 then needed else 120.0
  }

  /** At least 180, and half of both widths and 60 more if that is farther. */
  ghost predicate IsOffset(both: real, distance: real) {
    var needed := both / 2.0 + 60.0;
    distance == if needed > 180.0 then needed else 180.0
  }

  // ---- Where an edge ends ----

  function Abs(a: real): real {
    if a >= 0.0 then a else -a
  }

  /** How far along the way to the target the boundary is crossed. */
  function Scale(halfWidth: real, halfHeight: real, dx: real, dy: real): real
    requires dx != 0.0 || dy != 0.0
  {
    if dx == 0.0 then halfHeight / Abs(dy)
    else if dy == 0.0 then halfWidth / Abs(dx)
    else if halfWidth / Abs(dx) <= halfHeight / Abs(dy) then halfWidth / Abs(dx)
    else halfHeight / Abs(dy)
  }

  datatype Point = Point(x: real, y: real)

  function Center(b: Box): Point {
    Point(b.CenterX(), b.CenterY())
  }

  function Scaled(d: real, s: real): real {
    d * s
  }

  /** The point a fraction `s` of the way from one point to another. */
  function Along(p: Point, q: Point, s: real): Point {
    Point(p.x + Scaled(q.x - p.x, s), p.y + Scaled(q.y - p.y, s))
  }

  function Anchor(b: Box, toward: Point): Point {
    var c := Center(b);
    if toward == c then c
    else Along(c, toward, Scale(b.width / 2.0, b.height / 2.0, toward.x - c.x, toward.y - c.y))
  }

  predicate Inside(b: Box, p: Point) {
    b.x <= p.x <= b.x + b.width && b.y <= p.y <= b.y + b.height
  }

  predicate OnBoundary(b: Box, p: Point) {
    Inside(b, p) && (p.x == b.x || p.x == b.x + b.width || p.y == b.y || p.y == b.y + b.height)
  }

  lemma Divide(h: real, a: real)
    requires h > 0.0 && a > 0.0
    ensures h / a > 0.0 && (h / a) * a == h
  {
  }

  lemma ScaleUp(x: real, y: real, a: real)
    requires x <= y && a > 0.0
    ensures x * a <= y * a
  {
  }

  /** The scale keeps both offsets within the half sizes and exhausts one. */
  lemma ScaleMeaning(halfWidth: real, halfHeight: real, dx: real, dy: real)
    requires halfWidth > 0.0 && halfHeight > 0.0 && (dx != 0.0 || dy != 0.0)
    ensures var s := Scale(halfWidth, halfHeight, dx, dy);
      && s > 0.0 && Abs(dx) * s <= halfWidth && Abs(dy) * s <= halfHeight
      && (Abs(dx) * s == halfWidth || Abs(dy) * s == halfHeight)
  {
    var s := Scale(halfWidth, halfHeight, dx, dy);
    if dx != 0.0 {
      Divide(halfWidth, Abs(dx));
      if s <= halfWidth / Abs(dx) { ScaleUp(s, halfWidth / Abs(dx), Abs(dx)); }
    }
    if dy != 0.0 {
      Divide(halfHeight, Abs(dy));
      if s <= halfHeight / Abs(dy) { ScaleUp(s, halfHeight / Abs(dy), Abs(dy)); }
    }
  }

  lemma SignedProduct(d: real, s: real)
    requires s >= 0.0
    ensures Abs(d) * s == Abs(d * s)
  {
    if d >= 0.0 { assert d * s >= 0.0; } else { assert (-d) * s == -(d * s); assert (-d) * s >= 0.0; }
  }

  lemma FullStep(s: real, a: real, h: real)
    requires a > h > 0.0
    ensures s > 1.0 ==> a * s > h
  {
    if s > 1.0 {
      ScaleUp(1.0, s, a);
      assert a * s >= a;
    }
  }

  lemma ScaleIsPart(halfWidth: real, halfHeight: real, dx: real, dy: real)
    requires halfWidth > 0.0 && halfHeight > 0.0 && (Abs(dx) > halfWidth || Abs(dy) > halfHeight)
    ensures 0.0 < Scale(halfWidth, halfHeight, dx, dy) <= 1.0
  {
    hide Scale;
    var s := Scale(halfWidth, halfHeight, dx, dy);
    ScaleMeaning(halfWidth, halfHeight, dx, dy);
    if Abs(dx) > halfWidth {
      FullStep(s, Abs(dx), halfWidth);
    } else {
      FullStep(s, Abs(dy), halfHeight);
    }
  }

  lemma OffsetOnBoundary(b: Box, ox: real, oy: real)
    requires Abs(ox) <= b.width / 2.0 && Abs(oy) <= b.height / 2.0
      && (Abs(ox) == b.width / 2.0 || Abs(oy) == b.height / 2.0)
    ensures OnBoundary(b, Point(Center(b).x + ox, Center(b).y + oy))
  {
  }

  lemma OutsideIsFar(b: Box, p: Point)
    requires !Inside(b, p)
    ensures Abs(p.x - Center(b).x) > b.width / 2.0 || Abs(p.y - Center(b).y) > b.height / 2.0
  {
  }

  /** A target outside the box is reached beyond the boundary, so the end of the
      edge lies on the box's boundary and on the segment between the centres. */
  lemma AnchorMeaning(b: Box, toward: Point)
    requires b.width > 0.0 && b.height > 0.0 && !Inside(b, toward)
    ensures OnBoundary(b, Anchor(b, toward))
    ensures exists s :: 0.0 < s <= 1.0 && Anchor(b, toward) == Along(Center(b), toward, s)
  {
    hide Scale, OnBoundary, Abs;
    var c := Center(b);
    var dx, dy := toward.x - c.x, toward.y - c.y;
    var hw, hh := b.width / 2.0, b.height / 2.0;
    OutsideIsFar(b, toward);
    AbsZero();
    var s := Scale(hw, hh, dx, dy);
    ScaleMeaning(hw, hh, dx, dy);
    ScaleIsPart(hw, hh, dx, dy);
    SignedProduct(dx, s);
    SignedProduct(dy, s);
    OffsetOnBoundary(b, dx * s, dy * s);
    assert dx != 0.0 || dy != 0.0;
    assert toward != c;
    var end := Along(c, toward, s);
    assert end == Point(c.x + dx * s, c.y + dy * s);
    assert Anchor(b, toward) == end;
    assert OnBoundary(b, end);
  }

  lemma AbsZero()
    ensures Abs(0.0) == 0.0
  {
  }

  // ---- The five edges ----

  predicate Joins(f: Role, t: Role) {
    || (f == Provision && t == Obligation) || (f == Obligation && t == Control)
    || (f == Control && t == Asset) || (f == Control && t == Evidence) || (f == Evidence && t == TestAsset)
  }

  function CenterOf(w: Widths, r: Role): Point {
    Center(Placed(w, r))
  }

  /** Some point of the segment between the centres of two boxes lies in a third. */
  ghost predicate Meets(w: Widths, f: Role, t: Role, r: Role) {
    exists u :: MeetsAt(w, f, t, r, u)
  }

  ghost predicate MeetsAt(w: Widths, f: Role, t: Role, r: Role, u: real) {
    0.0 <= u <= 1.0 && Inside(Placed(w, r), Along(CenterOf(w, f), CenterOf(w, t), u))
  }

  /** The branch to the asset drops below the top row before it reaches the
      obligation box. */
  predicate Steep(w: Widths) {
    25.0 * BranchOffset(w) < 170.0 * (126.0 + w.control / 2.0)
  }

  lemma Part(d: real, u: real)
    requires 0.0 <= u <= 1.0
    ensures d >= 0.0 ==> 0.0 <= Scaled(d, u) <= d
    ensures d <= 0.0 ==> d <= Scaled(d, u) <= 0.0
  {
    if d > 0.0 {
      ScaleUp(0.0, u, d);
      ScaleUp(u, 1.0, d);
      assert d * u == u * d;
    } else if d < 0.0 {
      ScaleUp(0.0, u, -d);
      ScaleUp(u, 1.0, -d);
      assert d * u == -(u * -d);
    } else {
      assert 0.0 * u == 0.0;
    }
  }

  lemma CentersOf(w: Widths)
    ensures CenterOf(w, Provision) == Point(MARGIN + w.provision / 2.0 + Shift(w), 65.0)
    ensures CenterOf(w, Obligation) == Point(MARGIN + w.provision + 106.8 + w.obligation / 2.0 + Shift(w), 65.0)
    ensures CenterOf(w, Control) == Point(ControlCenter(w) + Shift(w), 65.0)
    ensures CenterOf(w, Asset) == Point(ControlCenter(w) - BranchOffset(w) + Shift(w), 235.0)
    ensures CenterOf(w, Evidence) == Point(ControlCenter(w) + BranchOffset(w) + Shift(w), 235.0)
    ensures CenterOf(w, TestAsset)
      == Point(ControlCenter(w) + BranchOffset(w) + w.evidence / 2.0 + 106.8 + w.testasset / 2.0 + Shift(w), 235.0)
    ensures ControlCenter(w) == MARGIN + w.provision + 106.8 + w.obligation + 126.0 + w.control / 2.0
  {
    Gaps();
  }

  lemma Between(p: Point, q: Point, u: real)
    requires p.x <= q.x && p.y == q.y && 0.0 <= u <= 1.0
    ensures p.x <= Along(p, q, u).x <= q.x && Along(p, q, u).y == p.y
  {
    hide Scaled;
    Part(q.x - p.x, u);
    Part(q.y - p.y, u);
  }

  /** Edges within a row stay between their two boxes. */
  lemma RowEdgesClear(w: Widths, f: Role, t: Role, r: Role, u: real)
    requires w.Wide() && Joins(f, t) && Row(f) == Row(t) && r != f && r != t
    ensures !MeetsAt(w, f, t, r, u)
  {
    hide BranchOffset, Shift, EdgeGap, Along, CenterOf;
    WideAll(w);
    Gaps();
    CentersOf(w);
    OffsetIsWide(w);
    if 0.0 <= u <= 1.0 {
      Between(CenterOf(w, f), CenterOf(w, t), u);
    }
  }

  lemma OffsetIsWide(w: Widths)
    ensures BranchOffset(w) >= 180.0 && BranchOffset(w) >= w.asset / 2.0 + w.evidence / 2.0 + 60.0
  {
  }

  /** The branch to the evidence box leaves to the right and meets nothing. */
  lemma EvidenceEdgeClear(w: Widths, r: Role, u: real)
    requires w.Wide() && r != Control && r != Evidence
    ensures !MeetsAt(w, Control, Evidence, r, u)
  {
    hide BranchOffset, Shift, EdgeGap, Scaled;
    WideAll(w);
    Gaps();
    CentersOf(w);
    OffsetIsWide(w);
    if 0.0 <= u <= 1.0 {
      Part(170.0, u);
      Between(Point(CenterOf(w, Control).x, 0.0), Point(CenterOf(w, Evidence).x, 0.0), u);
    }
  }

  /** The branch to the asset box, point by point. */
  lemma AssetEdgePoint(w: Widths, u: real)
    ensures Along(CenterOf(w, Control), CenterOf(w, Asset), u)
      == Point(CenterOf(w, Control).x - BranchOffset(w) * u, 65.0 + 170.0 * u)
  {
    hide BranchOffset, Shift, EdgeGap;
    CentersOf(w);
    var d := CenterOf(w, Asset).x - CenterOf(w, Control).x;
    assert d == -BranchOffset(w);
    assert d * u == -(BranchOffset(w) * u);
  }

  lemma AssetEdgeClear(w: Widths, r: Role, u: real)
    requires w.Wide() && r != Control && r != Asset && Steep(w)
    ensures !MeetsAt(w, Control, Asset, r, u)
  {
    hide BranchOffset, Shift, EdgeGap;
    WideAll(w);
    Gaps();
    CentersOf(w);
    OffsetIsWide(w);
    AssetEdgePoint(w, u);
    if 0.0 <= u <= 1.0 {
      Part(BranchOffset(w), u);
      if u * 170.0 <= 25.0 {
        ScaleUp(u * 170.0, 25.0, BranchOffset(w));
        assert 170.0 * (BranchOffset(w) * u) <= 25.0 * BranchOffset(w);
      }
    }
  }

  /** When the branch is not steep, it does run into the obligation box. */
  lemma ShallowMeets(w: Widths)
    requires w.Wide() && !Steep(w)
    ensures Meets(w, Control, Asset, Obligation)
  {
    hide BranchOffset, Shift, EdgeGap;
    WideAll(w);
    Gaps();
    CentersOf(w);
    OffsetIsWide(w);
    var b, d := BranchOffset(w), 126.0 + w.control / 2.0;
    var u := d / b;
    Divide(d, b);
    assert b * u == d;
    assert 170.0 * u <= 25.0 by {
      if 170.0 * u > 25.0 { Grows(25.0, 170.0 * u, b); }
    }
    AssetEdgePoint(w, u);
    assert MeetsAt(w, Control, Asset, Obligation, u);
  }

  lemma Grows(x: real, y: real, a: real)
    requires x < y && a > 0.0
    ensures x * a < y * a
  {
  }

  /** No edge runs into a third box. */
  ghost predicate EdgesClear(w: Widths) {
    forall f, t, r :: Joins(f, t) && r != f && r != t ==> !Meets(w, f, t, r)
  }

  /** For any widths, the edges keep clear of all third boxes exactly when the
      branch is steep enough. */
  lemma ClearIffSteep(w: Widths)
    requires w.Wide()
    ensures EdgesClear(w) <==> Steep(w)
  {
    hide MeetsAt, Steep, Placed;
    if Steep(w) {
      forall f, t, r, u | Joins(f, t) && r != f && r != t ensures !MeetsAt(w, f, t, r, u) {
        if f == Control && t == Asset {
          AssetEdgeClear(w, r, u);
        } else if f == Control && t == Evidence {
          EvidenceEdgeClear(w, r, u);
        } else {
          RowEdgesClear(w, f, t, r, u);
        }
      }
    } else {
      ShallowMeets(w);
    }
  }

  // ---- Truncation bounds the widths ----

  lemma LabelsAreShort(r: Role, id: string)
    ensures BoxWidth(DisplayLabel(r, id)) <= 254.4
  {
    assert |"provision"| == 9 && |"obligation"| == 10 && |"control"| == 7 && |"asset"| == 5 && |"evidence"| == 8
      && |"testasset"| == 9;
    assert |DisplayLabel(r, id)| == |Name(r)| + 2 + |Truncate(id)| <= 32;
  }

  ghost predicate LabelsOf(ids: map<Role, string>, labels: map<Role, string>) {
    forall r: Role :: r in ids && r in labels && labels[r] == DisplayLabel(r, ids[r])
  }

  /** Because long ids are truncated, no drawn proof path has an edge that runs into
      a third box, whatever its ids, and nothing ever has to be shifted. */
  lemma TruncationKeepsEdgesClear(ids: map<Role, string>, labels: map<Role, string>)
    requires LabelsOf(ids, labels)
    ensures EdgesClear(WidthsOf(labels)) && Shift(WidthsOf(labels)) == 0.0
  {
    hide EdgesClear, BoxWidth, DisplayLabel, EdgeGap;
    var w := WidthsOf(labels);
    WideAll(w);
    Gaps();
    forall r: Role ensures w.Of(r) <= 254.4 {
      LabelsAreShort(r, ids[r]);
    }
    assert w.Of(Asset) <= 254.4 && w.Of(Evidence) <= 254.4;
    ClearIffSteep(w);
  }

  // ---- The drawn line ----

  lemma SubSegment(p: Point, q: Point, s: real, z: real, v: real) returns (u: real)
    requires 0.0 <= s <= 1.0 && 0.0 <= z <= 1.0 && 0.0 <= v <= 1.0
    ensures 0.0 <= u <= 1.0 && Along(Along(p, q, s), Along(q, p, z), v) == Along(p, q, u)
  {
    hide Along, Scaled;
    u := s + Scaled(1.0 - z - s, v);
    Part(1.0 - z - s, v);
    AlongTwice(p, q, s, z, v);
  }

  lemma AlongTwice(p: Point, q: Point, s: real, z: real, v: real)
    ensures Along(Along(p, q, s), Along(q, p, z), v) == Along(p, q, s + Scaled(1.0 - z - s, v))
  {
    OnLine(p.x, q.x, s, z, v);
    OnLine(p.y, q.y, s, z, v);
  }

  lemma OnLine(p: real, q: real, s: real, z: real, v: real)
    ensures (p + (q - p) * s) + ((q + (p - q) * z) - (p + (q - p) * s)) * v == p + (q - p) * (s + (1.0 - z - s) * v)
  {
    var d := q - p;
    assert (q + (p - q) * z) - (p + d * s) == d * (1.0 - z - s);
    assert d * (1.0 - z - s) * v == d * ((1.0 - z - s) * v);
    assert d * (s + (1.0 - z - s) * v) == d * s + d * ((1.0 - z - s) * v);
  }

  /** The line that is drawn joins the two boundaries and has no point in a third
      box. */
  lemma DrawnLineIsClear(w: Widths, f: Role, t: Role, r: Role, v: real)
    requires w.Wide() && EdgesClear(w) && Joins(f, t) && r != f && r != t && 0.0 <= v <= 1.0
    ensures var start, end := Anchor(Placed(w, f), CenterOf(w, t)), Anchor(Placed(w, t), CenterOf(w, f));
      && OnBoundary(Placed(w, f), start) && OnBoundary(Placed(w, t), end)
      && !Inside(Placed(w, r), Along(start, end, v))
  {
    hide Placed, Anchor, OnBoundary, Inside, Along;
    var p, q := CenterOf(w, f), CenterOf(w, t);
    CenterOutside(w, f, t);
    CenterOutside(w, t, f);
    AnchorMeaning(Placed(w, f), q);
    AnchorMeaning(Placed(w, t), p);
    var s :| 0.0 < s <= 1.0 && Anchor(Placed(w, f), q) == Along(p, q, s);
    var z :| 0.0 < z <= 1.0 && Anchor(Placed(w, t), p) == Along(q, p, z);
    var u := SubSegment(p, q, s, z, v);
    assert !Meets(w, f, t, r);
    assert !MeetsAt(w, f, t, r, u);
  }

  lemma CenterOutside(w: Widths, f: Role, t: Role)
    requires w.Wide() && f != t
    ensures !Inside(Placed(w, f), CenterOf(w, t)) && Placed(w, f).width > 0.0 && Placed(w, f).height > 0.0
  {
    hide BranchOffset, Shift, LeftEdge;
    WideAll(w);
    BoxesApart(w, f, t);
    CenterInside(Placed(w, t));
    ApartPoint(Placed(w, f), Placed(w, t), CenterOf(w, t));
  }

  lemma CenterInside(b: Box)
    requires b.width > 0.0 && b.height > 0.0
    ensures Inside(b, Center(b))
  {
  }

  lemma ApartPoint(a: Box, b: Box, p: Point)
    requires Disjoint(a, b) && Inside(b, p)
    ensures !Inside(a, p)
  {
  }
}
