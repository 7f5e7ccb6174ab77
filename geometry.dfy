/** Points of the plane and the few real-valued helpers every generator shares. */
module Geometry {
  /** A point, in the program's linear unit (inches for the board cutout). */
  datatype Point = Point(x: real, y: real)

  const Origin: Point := Point(0.0, 0.0)

  /** Python's abs() on a float. */
  function Abs(v: real): (r: real)
    ensures r >= 0.0
    ensures r == v || r == -v
  {
    if v < 0.0 then -v else v
  }

  /** Squared distance between two points; the ordering it induces is the
      ordering of the Euclidean distance, whose square root is not needed. */
  function SqDist(p: Point, q: Point): real
  {
    (p.x - q.x) * (p.x - q.x) + (p.y - q.y) * (p.y - q.y)
  }

  /** Squared distance to the origin (x**2 + y**2). */
  function SqNorm(p: Point): real
  {
    p.x * p.x + p.y * p.y
  }

  /** An axis-aligned bounding box (min_x, max_x, min_y, max_y). */
  datatype Box = Box(minX: real, maxX: real, minY: real, maxY: real)

  /** Every point lies in the box and each of its four bounds is the
      coordinate of some point. */
  ghost predicate Bounds(outline: seq<Point>, b: Box)
  {
    && (forall k :: 0 <= k < |outline| ==>
          b.minX <= outline[k].x <= b.maxX && b.minY <= outline[k].y <= b.maxY)
    && (exists k :: 0 <= k < |outline| && outline[k].x == b.minX)
    && (exists k :: 0 <= k < |outline| && outline[k].x == b.maxX)
    && (exists k :: 0 <= k < |outline| && outline[k].y == b.minY)
    && (exists k :: 0 <= k < |outline| && outline[k].y == b.maxY)
  }

  /** Attained bounds are determined by the points alone: two lists
      holding the same points have the same box. */
  lemma {:induction false} BoundsUnique(a: seq<Point>, b: seq<Point>, ba: Box, bb: Box)
    requires forall p :: p in a <==> p in b
    requires Bounds(a, ba) && Bounds(b, bb)
    ensures ba == bb
  {
    var i :| 0 <= i < |a| && a[i].x == ba.minX;
    var j :| 0 <= j < |b| && b[j].x == bb.minX;
    assert a[i] in b && b[j] in a;
    var i2 :| 0 <= i2 < |a| && a[i2].x == ba.maxX;
    var j2 :| 0 <= j2 < |b| && b[j2].x == bb.maxX;
    assert a[i2] in b && b[j2] in a;
    var i3 :| 0 <= i3 < |a| && a[i3].y == ba.minY;
    var j3 :| 0 <= j3 < |b| && b[j3].y == bb.minY;
    assert a[i3] in b && b[j3] in a;
    var i4 :| 0 <= i4 < |a| && a[i4].y == ba.maxY;
    var j4 :| 0 <= j4 < |b| && b[j4].y == bb.maxY;
    assert a[i4] in b && b[j4] in a;
  }
}
