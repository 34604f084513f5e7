/**
 * Route geometry of a relation line: `FlowChart.prototype.drawRelationLine`
 * (src/js/flowchart.js) for the polyline, straight, bessel and besselArc
 * shapes, computed on values. The SVG elements it creates or updates are
 * not modelled; what is kept is the `d` attribute (as the `pathD` array
 * before its join), the dash pattern, the control points handed to the
 * handle circles, the shape offsets stored back on the relation, and the
 * label centre.
 *
 * The two line ends come from renderRelation already floored, so their
 * coordinates are integers; curvature and offsets are reals.
 */
module Route {
  import opened Base
  import opened ElementProps

  /** An end of the line: whole-pixel position, offset inside the relation's box, and its port side. */
  datatype LinePoint = LinePoint(left: int, top: int, offsetLeft: int, offsetTop: int, side: Option<Side>)

  datatype Pt = Pt(x: real, y: real)

  /** One entry of the `pathD` array: a command letter or a coordinate. */
  datatype Token = Cmd(c: char) | Coord(v: real)

  /** The style argument of drawRelationLine, as far as the geometry reads it. */
  datatype LineStyle = LineStyle(
    style: string, width: real, shape: string,
    /** `style.bounds.shape`: the offsets the user dragged the handles by. */
    offsets: Option<map<string, real>>,
    /** `style.shapeStyle.besselCurvature`. */
    curvature: Option<real>)

  /** What one call draws. */
  datatype Drawn = Drawn(
    path: seq<Token>,
    /** Centres of the handle circles: [por] for a polyline, [b, c, e] for a curve. */
    handles: seq<Pt>,
    /** The `shape` handed to `relation.setBounds`, when it is called. */
    shapeUpdate: Option<map<string, real>>,
    /** `relation.position.porx` / `pory`, set by the polyline branch. */
    por: Option<Pt>,
    /** centerOffsetLeft / centerOffsetTop: where the label is centred. */
    labelLeft: real, labelTop: real)

  /** `Math.floor((a + b) / 2)`; Dafny's division by a positive number floors. */
  function Mid(a: int, b: int): (r: int)
    ensures (if a <= b then a else b) <= r <= (if a <= b then b else a)
  {
    (a + b) / 2
  }

  function Abs(a: int): nat { if a < 0 then -a else a }

  /** `Math.min(1, Math.max(-1, p))`. */
  function Clamp(p: real): (r: real)
    ensures -1.0 <= r <= 1.0
    ensures -1.0 <= p <= 1.0 ==> r == p
  {
    if p < -1.0 then -1.0 else if p > 1.0 then 1.0 else p
  }

  /** A key of `$.extend(defaults, offsets)`: the given offset, else 0. */
  function Offset(offsets: Option<map<string, real>>, k: string): real
  {
    if offsets.Some? && k in offsets.value then offsets.value[k] else 0.0
  }

  /** `$.extend(defaults, offsets)` with every default 0. */
  function WithDefaults(keys: set<string>, offsets: Option<map<string, real>>): (r: map<string, real>)
    ensures r.Keys == keys + (if offsets.Some? then offsets.value.Keys else {})
    ensures forall k :: k in r ==> r[k] == Offset(offsets, k)
  {
    (map k | k in keys :: 0.0) + (if offsets.Some? then offsets.value else map[])
  }

  // ---------------------------------------------------------------------
  // Dash pattern
  // ---------------------------------------------------------------------

  /**
   * `stroke-dasharray`: dash and gap lengths, or None when the attribute
   * stays null (an empty pattern is falsy).
   */
  function DashPattern(style: string, w: real): (r: Option<(real, real)>)
    ensures r.Some? <==> style == "dashed" || style == "dotted"
  {
    if style == "dashed" then Some((w * 4.0, w * 2.0))
    else if style == "dotted" then Some((w, w))
    else None
  }

  /** Dashes are twice as long as their gaps and gaps twice the line width; dots and gaps are one width each. */
  lemma DashProportions(style: string, w: real)
    ensures style == "dashed" ==> var (on, off) := DashPattern(style, w).value; on == 2.0 * off && off == 2.0 * w
    ensures style == "dotted" ==> var (on, off) := DashPattern(style, w).value; on == w && off == w
  {
    if style == "dotted" {
      assert style != "dashed" by { assert style[1] == 'o'; }
    }
  }

  // ---------------------------------------------------------------------
  // Polyline
  // ---------------------------------------------------------------------

  /** `Math.floor(center + por * extent / 2)` on one axis. */
  function ElbowAxis(a: int, b: int, por: real): (r: int)
  {
    (Mid(a, b) as real + Shift(por, Abs(a - b))).Floor
  }

  /** `Math.min(1, Math.max(-1, por)) * extent / 2`: at most half the extent either way. */
  function Shift(por: real, extent: nat): (r: real)
    ensures -(extent as real / 2.0) <= r <= extent as real / 2.0
    ensures por == 0.0 ==> r == 0.0
  {
    ScaledHalf(Clamp(por), extent);
    Clamp(por) * extent as real / 2.0
  }

  /**
   * The control point stays within the extent of the two ends on each
   * axis, except that flooring twice can put it one pixel before the
   * lower end (see ElbowBelowBox).
   */
  lemma ElbowAxisBounds(a: int, b: int, por: real)
    ensures var lo, hi := (if a <= b then a else b), (if a <= b then b else a);
            lo - 1 <= ElbowAxis(a, b, por) <= hi
  {
    var lo, hi := (if a <= b then a else b), (if a <= b then b else a);
    var w: nat := hi - lo;
    assert Abs(a - b) == w;
    MidOffset(lo, w);
    var t := Shift(por, w);
    var m := Mid(a, b);
    assert m == lo + w / 2 && m as real == lo as real + (w / 2) as real;
    assert hi as real == lo as real + w as real / 2.0 + w as real / 2.0;
    FloorWithin(m as real + t, lo, hi);
  }

  /** The floored midpoint of lo and lo + w is lo + w / 2, at most half a pixel short of the exact midpoint. */
  lemma MidOffset(lo: int, w: nat)
    ensures Mid(lo, lo + w) == Mid(lo + w, lo) == lo + w / 2
    ensures w as real / 2.0 - 0.5 <= (w / 2) as real <= w as real / 2.0
  {
    assert lo + (lo + w) == 2 * lo + w;
    assert w == 2 * (w / 2) + w % 2;
  }

  lemma ScaledHalf(c: real, w: nat)
    requires -1.0 <= c <= 1.0
    ensures -(w as real / 2.0) <= c * w as real / 2.0
    ensures c * w as real / 2.0 <= w as real / 2.0
  {
    var h := w as real / 2.0;
    assert c * w as real / 2.0 == c * h;
    assert h >= 0.0;
    if c >= 0.0 {
      assert c * h <= 1.0 * h;
    } else {
      assert c * h >= -1.0 * h;
    }
  }

  lemma FloorWithin(v: real, lo: int, hi: int)
    requires lo as real - 0.5 <= v <= hi as real
    ensures lo - 1 <= v.Floor <= hi
  {
  }

  /** The lower bound is reached: ends at 0 and 1 with porX = -1 give -1. */
  lemma ElbowBelowBox()
    ensures ElbowAxis(0, 1, -1.0) == -1
  {
    assert Mid(0, 1) == 0;
    assert (0 as real + -1.0 * 1 as real / 2.0) == -0.5;
  }

  /** With no offset the control point is the midpoint. */
  lemma ElbowCentred(a: int, b: int)
    ensures ElbowAxis(a, b, 0.0) == Mid(a, b)
  {
  }

  /** A horizontal port side (left / right) turns on the control point's column. */
  predicate Horizontal(s: Option<Side>) { s == Some(Left) || s == Some(Right) }
  predicate Vertical(s: Option<Side>) { s == Some(Top) || s == Some(Bottom) }

  function PtOf(x: int, y: int): Pt { Pt(x as real, y as real) }

  /** The elbow next to an end: aligned with the control point across its port side. */
  function Elbow(p: LinePoint, cx: int, cy: int): Pt
  {
    PtOf(if Horizontal(p.side) then cx else p.left, if Vertical(p.side) then cy else p.top)
  }

  /** The five corners of the polyline: begin, elbow, control point, elbow, end. */
  function PolylineCorners(b: LinePoint, e: LinePoint, porX: real, porY: real): (r: seq<Pt>)
    ensures |r| == 5
    ensures r[0] == PtOf(b.left, b.top) && r[4] == PtOf(e.left, e.top)
    ensures r[2] == PtOf(ElbowAxis(b.left, e.left, porX), ElbowAxis(b.top, e.top, porY))
  {
    var cx, cy := ElbowAxis(b.left, e.left, porX), ElbowAxis(b.top, e.top, porY);
    [PtOf(b.left, b.top), Elbow(b, cx, cy), PtOf(cx, cy), Elbow(e, cx, cy), PtOf(e.left, e.top)]
  }

  /**
   * When both ports sit on a side, every leg of the polyline is horizontal
   * or vertical.
   */
  lemma PolylineOrthogonal(b: LinePoint, e: LinePoint, porX: real, porY: real)
    requires b.side.Some? && e.side.Some?
    ensures var c := PolylineCorners(b, e, porX, porY);
            forall i :: 0 <= i < 4 ==> c[i].x == c[i + 1].x || c[i].y == c[i + 1].y
  {
    var c := PolylineCorners(b, e, porX, porY);
    SideAxis(b.side.value);
    SideAxis(e.side.value);
    assert c[0].x == c[1].x || c[0].y == c[1].y;
    assert c[1].x == c[2].x || c[1].y == c[2].y;
    assert c[2].x == c[3].x || c[2].y == c[3].y;
    assert c[3].x == c[4].x || c[3].y == c[4].y;
  }

  /** Every port side is horizontal or vertical, never both. */
  lemma SideAxis(s: Side)
    ensures Horizontal(Some(s)) != Vertical(Some(s))
  {
  }

  /** Every corner of the polyline lies in the ends' box, widened by one pixel before its low edges. */
  lemma PolylineInBox(b: LinePoint, e: LinePoint, porX: real, porY: real)
    ensures var c := PolylineCorners(b, e, porX, porY);
            forall i :: 0 <= i < 5 ==>
              && (if b.left <= e.left then b.left else e.left) as real - 1.0 <= c[i].x
              && c[i].x <= (if b.left <= e.left then e.left else b.left) as real
              && (if b.top <= e.top then b.top else e.top) as real - 1.0 <= c[i].y
              && c[i].y <= (if b.top <= e.top then e.top else b.top) as real
  {
    ElbowAxisBounds(b.left, e.left, porX);
    ElbowAxisBounds(b.top, e.top, porY);
  }

  function PointTokens(p: Pt): seq<Token> { [Coord(p.x), Coord(p.y)] }

  /** The `pathD` array: each command letter followed by the coordinates of its point. */
  function PathThrough(cmds: seq<char>, pts: seq<Pt>): (r: seq<Token>)
    requires |cmds| == |pts|
    ensures |r| == 3 * |pts|
  {
    if pts == [] then [] else [Cmd(cmds[0])] + PointTokens(pts[0]) + PathThrough(cmds[1..], pts[1..])
  }

  /** Entry 3i of the path is the i-th command and the next two are the i-th point. */
  lemma {:induction false} PathPoint(cmds: seq<char>, pts: seq<Pt>, i: nat)
    requires |cmds| == |pts| && i < |pts|
    ensures var r := PathThrough(cmds, pts);
            r[3 * i] == Cmd(cmds[i]) && r[3 * i + 1] == Coord(pts[i].x) && r[3 * i + 2] == Coord(pts[i].y)
  {
    if i > 0 {
      PathPoint(cmds[1..], pts[1..], i - 1);
      var rest := PathThrough(cmds[1..], pts[1..]);
      assert PathThrough(cmds, pts) == [Cmd(cmds[0])] + PointTokens(pts[0]) + rest;
      assert 3 * i == 3 * (i - 1) + 3;
    }
  }

  /** The polyline branch. */
  function Polyline(b: LinePoint, e: LinePoint, s: LineStyle): (r: Drawn)
    ensures var c := PolylineCorners(b, e, Offset(s.offsets, "porX"), Offset(s.offsets, "porY"));
            r.path == PathThrough("MLLL,", c) && r.handles == [c[2]]
    ensures r.shapeUpdate.Some? <==> Offset(s.offsets, "porX") != 0.0 || Offset(s.offsets, "porY") != 0.0
    ensures r.shapeUpdate.Some? ==> r.shapeUpdate.value == WithDefaults({"porX", "porY"}, s.offsets)
    ensures r.por == Some(Pt(Abs(b.left - e.left) as real / 2.0, Abs(b.top - e.top) as real / 2.0))
  {
    var porX, porY := Offset(s.offsets, "porX"), Offset(s.offsets, "porY");
    var c := PolylineCorners(b, e, porX, porY);
    var cx, cy := ElbowAxis(b.left, e.left, porX), ElbowAxis(b.top, e.top, porY);
    Drawn(
      PathThrough("MLLL,", c),
      [c[2]],
      if porX != 0.0 || porY != 0.0 then Some(WithDefaults({"porX", "porY"}, s.offsets)) else None,
      Some(Pt(Abs(b.left - e.left) as real / 2.0, Abs(b.top - e.top) as real / 2.0)),
      (Mid(b.offsetLeft, e.offsetLeft) + (cx - Mid(b.left, e.left))) as real,
      (Mid(b.offsetTop, e.offsetTop) + (cy - Mid(b.top, e.top))) as real)
  }

  // ---------------------------------------------------------------------
  // Bessel curves
  // ---------------------------------------------------------------------

  /** The curve's control point next to an end: pushed out from its port side by half the extent times the curvature. */
  function BesselEnd(p: LinePoint, bw: nat, bh: nat, k: real): (r: (int, int))
  {
    var dx := bw as real * k / 2.0;
    var dy := bh as real * k / 2.0;
    ((if p.side == Some(Right) then p.left as real + dx
      else if p.side == Some(Left) then p.left as real - dx
      else p.left as real).Floor,
     (if p.side == Some(Top) then p.top as real - dy
      else if p.side == Some(Bottom) then p.top as real + dy
      else p.top as real).Floor)
  }

  /**
   * With a non-negative curvature the control point leaves its end on the
   * port's side, at most half the extent times the curvature away, and
   * stays level with the end across that side.
   */
  lemma BesselEndOutward(p: LinePoint, bw: nat, bh: nat, k: real)
    requires k >= 0.0
    ensures var (x, y) := BesselEnd(p, bw, bh, k);
            && (p.side == Some(Right) ==> p.left <= x && (x - p.left) as real <= bw as real * k / 2.0)
            && (p.side == Some(Left) ==> x <= p.left && (p.left - x) as real <= bw as real * k / 2.0 + 1.0)
            && (p.side == Some(Top) ==> y <= p.top && (p.top - y) as real <= bh as real * k / 2.0 + 1.0)
            && (p.side == Some(Bottom) ==> p.top <= y && (y - p.top) as real <= bh as real * k / 2.0)
            && (!Horizontal(p.side) ==> x == p.left)
            && (!Vertical(p.side) ==> y == p.top)
  {
    assert bw as real * k / 2.0 >= 0.0 && bh as real * k / 2.0 >= 0.0;
  }

  /** The keys of the curve offsets. */
  const CurveKeys: set<string> := {"bboX", "bboY", "bcoX", "bcoY", "beoX", "beoY"}

  /** The three control points of a curve, offsets added. */
  function CurvePoints(b: LinePoint, e: LinePoint, s: LineStyle, defaultCurvature: real): (r: seq<Pt>)
    ensures |r| == 3
  {
    var k := if s.curvature.Some? then s.curvature.value else defaultCurvature;
    var bw, bh := Abs(b.left - e.left), Abs(b.top - e.top);
    var (bbX, bbY) := BesselEnd(b, bw, bh, k);
    var (beX, beY) := BesselEnd(e, bw, bh, k);
    var o := s.offsets;
    [Pt(bbX as real + Offset(o, "bboX"), bbY as real + Offset(o, "bboY")),
     Pt(Mid(b.left, e.left) as real + Offset(o, "bcoX"), Mid(b.top, e.top) as real + Offset(o, "bcoY")),
     Pt(beX as real + Offset(o, "beoX"), beY as real + Offset(o, "beoY"))]
  }

  /** The bessel and besselArc branches, which are the same code. */
  function Curve(b: LinePoint, e: LinePoint, s: LineStyle, defaultCurvature: real): (r: Drawn)
    ensures var c := CurvePoints(b, e, s, defaultCurvature);
            r.path == PathThrough("MQ,Q,", [PtOf(b.left, b.top)] + c + [PtOf(e.left, e.top)]) && r.handles == c
    ensures r.shapeUpdate == Some(WithDefaults(CurveKeys, s.offsets))
    ensures r.por.None?
  {
    var c := CurvePoints(b, e, s, defaultCurvature);
    Drawn(
      PathThrough("MQ,Q,", [PtOf(b.left, b.top)] + c + [PtOf(e.left, e.top)]),
      c,
      Some(WithDefaults(CurveKeys, s.offsets)),
      None,
      Mid(b.offsetLeft, e.offsetLeft) as real + (c[1].x - Mid(b.left, e.left) as real),
      Mid(b.offsetTop, e.offsetTop) as real + (c[1].y - Mid(b.top, e.top) as real))
  }

  /** With no curvature and no offsets the curve's handles are its two ends and their midpoint. */
  lemma FlatCurve(b: LinePoint, e: LinePoint, s: LineStyle)
    requires s.curvature == Some(0.0) && s.offsets.None?
    ensures CurvePoints(b, e, s, 0.0)
         == [PtOf(b.left, b.top), PtOf(Mid(b.left, e.left), Mid(b.top, e.top)), PtOf(e.left, e.top)]
  {
  }

  // ---------------------------------------------------------------------
  // drawRelationLine
  // ---------------------------------------------------------------------

  /** The straight branch: a single segment between the ends. */
  function Straight(b: LinePoint, e: LinePoint): (r: Drawn)
    ensures r.path == PathThrough("ML", [PtOf(b.left, b.top), PtOf(e.left, e.top)])
    ensures r.handles == [] && r.shapeUpdate.None? && r.por.None?
  {
    Drawn(PathThrough("ML", [PtOf(b.left, b.top), PtOf(e.left, e.top)]),
          [], None, None, Mid(b.offsetLeft, e.offsetLeft) as real, Mid(b.offsetTop, e.offsetTop) as real)
  }

  /**
   * drawRelationLine for every shape but `arc`, which is None here; a
   * shape it does not know draws an empty path.
   */
  function DrawRelationLine(b: LinePoint, e: LinePoint, s: LineStyle, defaultCurvature: real): (r: Option<Drawn>)
    ensures r.None? <==> s.shape == "arc"
  {
    if s.shape == "polyline" then Some(Polyline(b, e, s))
    else if s.shape == "straight" then Some(Straight(b, e))
    else if s.shape == "bessel" || s.shape == "besselArc" then Some(Curve(b, e, s, defaultCurvature))
    else if s.shape == "arc" then None
    else Some(Drawn([], [], None, None, Mid(b.offsetLeft, e.offsetLeft) as real, Mid(b.offsetTop, e.offsetTop) as real))
  }

  /** bessel and besselArc draw the same path, handles and stored offsets. */
  lemma BesselArcIsBessel(b: LinePoint, e: LinePoint, s: LineStyle, k: real)
    ensures DrawRelationLine(b, e, s.(shape := "bessel"), k) == DrawRelationLine(b, e, s.(shape := "besselArc"), k)
  {
  }

  /**
   * The label is moved by exactly the amount the primary handle was moved
   * off the centre: it sits at the midpoint of the ends' offsets when
   * nothing was dragged, and keeps its distance to the handle otherwise.
   */
  lemma LabelFollowsHandle(b: LinePoint, e: LinePoint, s: LineStyle, k: real)
    requires s.shape in {"polyline", "bessel", "besselArc"}
    ensures var d := DrawRelationLine(b, e, s, k).value;
            var h := if s.shape == "polyline" then d.handles[0] else d.handles[1];
            && d.labelLeft - h.x == (Mid(b.offsetLeft, e.offsetLeft) - Mid(b.left, e.left)) as real
            && d.labelTop - h.y == (Mid(b.offsetTop, e.offsetTop) - Mid(b.top, e.top)) as real
  {
  }

  /** With nothing dragged the label sits at the midpoint of the ends' offsets. */
  lemma LabelCentred(b: LinePoint, e: LinePoint, s: LineStyle, k: real)
    requires s.offsets.None?
    ensures var d := DrawRelationLine(b, e, s, k);
            d.Some? ==> (d.value.labelLeft == Mid(b.offsetLeft, e.offsetLeft) as real
                         && d.value.labelTop == Mid(b.offsetTop, e.offsetTop) as real)
  {
    if s.shape == "polyline" {
      ElbowCentred(b.left, e.left);
      ElbowCentred(b.top, e.top);
    } else if s.shape == "bessel" || s.shape == "besselArc" {
      var c := CurvePoints(b, e, s, k);
      assert c[1] == PtOf(Mid(b.left, e.left), Mid(b.top, e.top));
    }
  }

  /** `$text.css`: the label box is centred on the label point. */
  function LabelBox(d: Drawn, textWidth: real, textHeight: real): (r: (int, int))
    ensures r.0 as real <= d.labelLeft - textWidth / 2.0 < r.0 as real + 1.0
    ensures r.1 as real <= d.labelTop - textHeight / 2.0 < r.1 as real + 1.0
  {
    ((d.labelLeft - textWidth / 2.0).Floor, (d.labelTop - textHeight / 2.0).Floor)
  }
}
