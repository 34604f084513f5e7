/**
 * Element geometry: the stored bounds of an element, the derived bounds
 * that `FlowChartElement.getBounds` caches, and the edge-inclusive
 * rectangle test `isIntersectWith` (src/js/flowchart.js).
 *
 * A coordinate that is not a number (never set, or NaN after arithmetic
 * on a missing value) is `None`; every JavaScript comparison involving it
 * is false.
 */
module Bounds {
  import opened Base

  /** The stored `bounds` of an element. */
  datatype Rect = Rect(left: Option<real>, top: Option<real>, width: Option<real>, height: Option<real>)

  /** What getBounds returns: the stored bounds plus the derived edges and centre. */
  datatype BoundsInfo = BoundsInfo(
    hasPosition: bool,
    left: Option<real>, top: Option<real>, width: Option<real>, height: Option<real>,
    right: Option<real>, bottom: Option<real>,
    centerLeft: Option<real>, centerTop: Option<real>)

  /** `a + b` where a missing operand yields NaN. */
  function Add(a: Option<real>, b: Option<real>): (r: Option<real>)
    ensures r.Some? <==> a.Some? && b.Some?
  {
    if a.Some? && b.Some? then Some(a.value + b.value) else None
  }

  function Half(a: Option<real>): Option<real>
  {
    if a.Some? then Some(a.value / 2.0) else None
  }

  /**
   * getBounds, computed afresh: the position is known iff left and top are
   * numbers, and only then are the right and bottom edges and the centre
   * derived (NaN when the size is missing).
   */
  function Derive(b: Rect): (r: BoundsInfo)
    ensures r.hasPosition <==> b.left.Some? && b.top.Some?
    ensures r.left == b.left && r.top == b.top && r.width == b.width && r.height == b.height
    ensures r.hasPosition && b.width.Some? ==> r.right == Some(b.left.value + b.width.value)
    ensures r.hasPosition && b.height.Some? ==> r.bottom == Some(b.top.value + b.height.value)
    ensures r.hasPosition && b.width.Some? ==> r.centerLeft == Some(b.left.value + b.width.value / 2.0)
    ensures r.hasPosition && b.height.Some? ==> r.centerTop == Some(b.top.value + b.height.value / 2.0)
    ensures !r.hasPosition || b.width.None? ==> r.right.None? && r.centerLeft.None?
    ensures !r.hasPosition || b.height.None? ==> r.bottom.None? && r.centerTop.None?
  {
    var has := b.left.Some? && b.top.Some?;
    BoundsInfo(has, b.left, b.top, b.width, b.height,
               if has then Add(b.left, b.width) else None,
               if has then Add(b.top, b.height) else None,
               if has then Add(b.left, Half(b.width)) else None,
               if has then Add(b.top, Half(b.height)) else None)
  }

  /** The centre lies half-way between the edges. */
  lemma CentreBetweenEdges(b: Rect)
    requires b.left.Some? && b.top.Some? && b.width.Some? && b.height.Some?
    requires b.width.value >= 0.0 && b.height.value >= 0.0
    ensures var r := Derive(b);
            && r.left.value <= r.centerLeft.value <= r.right.value
            && r.top.value <= r.centerTop.value <= r.bottom.value
            && r.centerLeft.value - r.left.value == r.right.value - r.centerLeft.value
            && r.centerTop.value - r.top.value == r.bottom.value - r.centerTop.value
  {
  }

  /** `a < b` in JavaScript: false when either side is NaN. */
  predicate Less(a: Option<real>, b: Option<real>)
  {
    a.Some? && b.Some? && a.value < b.value
  }

  /**
   * The rectangle test of isIntersectWith on two derived bounds: the boxes
   * intersect unless one lies strictly beside, above or below the other.
   */
  predicate Intersects(b1: BoundsInfo, b2: BoundsInfo)
  {
    !(Less(b2.right, b1.left) || Less(b1.right, b2.left)
      || Less(b2.bottom, b1.top) || Less(b1.bottom, b2.top))
  }

  /** The test is symmetric, missing values included. */
  lemma IntersectsSymmetric(b1: BoundsInfo, b2: BoundsInfo)
    ensures Intersects(b1, b2) <==> Intersects(b2, b1)
  {
  }

  /** A fully known box of non-negative size. */
  predicate Placed(b: Rect)
  {
    b.left.Some? && b.top.Some? && b.width.Some? && b.height.Some?
    && b.width.value >= 0.0 && b.height.value >= 0.0
  }

  /** The closed box of `b` holds the point (x, y). */
  predicate Covers(b: Rect, x: real, y: real)
    requires Placed(b)
  {
    b.left.value <= x <= b.left.value + b.width.value
    && b.top.value <= y <= b.top.value + b.height.value
  }

  /**
   * For fully known boxes the test is edge-inclusive overlap: it holds iff
   * the two closed boxes share a point.
   */
  lemma IntersectsIffSharedPoint(b1: Rect, b2: Rect)
    requires Placed(b1) && Placed(b2)
    ensures Intersects(Derive(b1), Derive(b2))
        <==> exists x, y :: Covers(b1, x, y) && Covers(b2, x, y)
  {
    var d1, d2 := Derive(b1), Derive(b2);
    if Intersects(d1, d2) {
      var x := if b1.left.value < b2.left.value then b2.left.value else b1.left.value;
      var y := if b1.top.value < b2.top.value then b2.top.value else b1.top.value;
      assert Covers(b1, x, y) && Covers(b2, x, y);
    }
  }

  /** A box with neither left nor top intersects everything: every comparison is false. */
  lemma UnplacedIntersectsAll(b1: Rect, b2: BoundsInfo)
    requires b1.left.None? && b1.top.None?
    ensures Intersects(Derive(b1), b2) && Intersects(b2, Derive(b1))
  {
  }

  // ---------------------------------------------------------------------
  // setBounds, on values
  // ---------------------------------------------------------------------

  /**
   * The argument of setBounds. A field that is not a number is `None`;
   * `shape` holds the relation curve offsets when an object is given.
   */
  datatype Patch = Patch(
    top: Option<real>, left: Option<real>, width: Option<real>, height: Option<real>,
    shape: Option<map<string, real>>)

  predicate SetsTop(p: Patch) { p.top.Some? }
  predicate SetsLeft(p: Patch) { p.left.Some? }
  predicate SetsWidth(p: Patch) { p.width.Some? && p.width.value >= 0.0 }
  predicate SetsHeight(p: Patch) { p.height.Some? && p.height.value >= 0.0 }

  /** The stored bounds after setBounds: given coordinates, non-negative sizes. */
  function Patched(b: Rect, p: Patch): (r: Rect)
    ensures r.top == (if SetsTop(p) then p.top else b.top)
    ensures r.left == (if SetsLeft(p) then p.left else b.left)
    ensures r.width == (if SetsWidth(p) then p.width else b.width)
    ensures r.height == (if SetsHeight(p) then p.height else b.height)
  {
    Rect(if SetsLeft(p) then p.left else b.left,
         if SetsTop(p) then p.top else b.top,
         if SetsWidth(p) then p.width else b.width,
         if SetsHeight(p) then p.height else b.height)
  }

  /** A negative width or height leaves the stored size as it was. */
  lemma NegativeSizeIgnored(b: Rect, p: Patch)
    requires p.width.Some? && p.width.value < 0.0
    requires p.height.Some? && p.height.value < 0.0
    requires p.top.None? && p.left.None?
    ensures Patched(b, p) == b
  {
  }

  /** Setting the same bounds twice is setting them once. */
  lemma PatchedIdempotent(b: Rect, p: Patch)
    ensures Patched(Patched(b, p), p) == Patched(b, p)
  {
  }

  /** A patch that sets all four values fixes the derived edges. */
  lemma FullPatchDerives(b: Rect, p: Patch)
    requires SetsTop(p) && SetsLeft(p) && SetsWidth(p) && SetsHeight(p)
    ensures var d := Derive(Patched(b, p));
            && d.hasPosition
            && d.right == Some(p.left.value + p.width.value)
            && d.bottom == Some(p.top.value + p.height.value)
            && Placed(Patched(b, p))
  {
  }

  /** The chart canvas (`flowChart.bounds`): all four values are numbers. */
  datatype Area = Area(left: real, top: real, width: real, height: real)

  function Min(a: real, b: real): real { if a <= b then a else b }
  function Max(a: real, b: real): real { if a >= b then a else b }

  /**
   * Canvas growth once an element has a full box: the smaller left and top,
   * and width / height pushed out to the element's right and bottom edges.
   */
  function Grow(c: Area, b: Rect): (r: Area)
    requires Placed(b)
    ensures r.left <= c.left && r.left <= b.left.value && (r.left == c.left || r.left == b.left.value)
    ensures r.top <= c.top && r.top <= b.top.value && (r.top == c.top || r.top == b.top.value)
    ensures r.width >= c.width && r.width >= b.left.value + b.width.value
    ensures r.height >= c.height && r.height >= b.top.value + b.height.value
    ensures r.width == c.width || r.width == b.left.value + b.width.value
    ensures r.height == c.height || r.height == b.top.value + b.height.value
  {
    Area(Min(c.left, b.left.value), Min(c.top, b.top.value),
         Max(c.width, b.left.value + b.width.value), Max(c.height, b.top.value + b.height.value))
  }

  /** Growing is idempotent and order-independent. */
  lemma GrowCommutes(c: Area, b1: Rect, b2: Rect)
    requires Placed(b1) && Placed(b2)
    ensures Grow(Grow(c, b1), b1) == Grow(c, b1)
    ensures Grow(Grow(c, b1), b2) == Grow(Grow(c, b2), b1)
  {
  }

  /** `$.extend({}, prev, next)` on the shape offsets: new keys win. */
  function MergeShape(prev: Option<map<string, real>>, next: map<string, real>): (r: map<string, real>)
    ensures r.Keys == next.Keys + (if prev.Some? then prev.value.Keys else {})
    ensures forall k :: k in next ==> r[k] == next[k]
    ensures prev.Some? ==> forall k :: k in prev.value && k !in next ==> r[k] == prev.value[k]
  {
    (if prev.Some? then prev.value else map[]) + next
  }

  /** The number of truthy (non-zero) offsets. */
  function TruthyCount(m: map<string, real>): (n: nat)
    ensures n == 0 <==> forall k :: k in m ==> m[k] == 0.0
  {
    var nz := set k | k in m && m[k] != 0.0;
    assert (forall k :: k in m ==> m[k] == 0.0) ==> nz == {};
    assert (exists k :: k in m && m[k] != 0.0) ==> |nz| > 0 by {
      if exists k :: k in m && m[k] != 0.0 {
        var k :| k in m && m[k] != 0.0;
        assert k in nz;
      }
    }
    |nz|
  }
}
