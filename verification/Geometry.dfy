/** Planar points and boxes shared by the cut-out sweep and the ear clipper. Coordinates are
    real numbers: Python's floats without their rounding. */
module Geometry {

  /** The tolerance `1e-6` written throughout the renderer. */
  const EPS: real := 0.000001

  datatype Point = Point(x: real, y: real)

  /** An axis-parallel box, read as the half-open region `[x0, x1) x [y0, y1)`, so that boxes
      sharing an edge share no point. */
  datatype Box = Box(x0: real, x1: real, y0: real, y1: real) {
    predicate Contains(x: real, y: real) {
      x0 <= x < x1 && y0 <= y < y1
    }

    function Area(): real {
      (x1 - x0) * (y1 - y0)
    }
  }

  function MinX(points: seq<Point>): (r: real)
    requires points != []
    ensures forall p :: p in points ==> r <= p.x
    ensures exists p :: p in points && p.x == r
  {
    if |points| == 1 then assert points[0] in points; points[0].x
    else
      var m := MinX(points[1..]);
      if points[0].x <= m then points[0].x else m
  }

  function MaxX(points: seq<Point>): (r: real)
    requires points != []
    ensures forall p :: p in points ==> p.x <= r
    ensures exists p :: p in points && p.x == r
  {
    if |points| == 1 then assert points[0] in points; points[0].x
    else
      var m := MaxX(points[1..]);
      if points[0].x >= m then points[0].x else m
  }

  function MinY(points: seq<Point>): (r: real)
    requires points != []
    ensures forall p :: p in points ==> r <= p.y
    ensures exists p :: p in points && p.y == r
  {
    if |points| == 1 then assert points[0] in points; points[0].y
    else
      var m := MinY(points[1..]);
      if points[0].y <= m then points[0].y else m
  }

  function MaxY(points: seq<Point>): (r: real)
    requires points != []
    ensures forall p :: p in points ==> p.y <= r
    ensures exists p :: p in points && p.y == r
  {
    if |points| == 1 then assert points[0] in points; points[0].y
    else
      var m := MaxY(points[1..]);
      if points[0].y >= m then points[0].y else m
  }

  /** The bounding box of a non-empty point list: it holds every point, and each side touches one. */
  function Bounds(points: seq<Point>): (b: Box)
    requires points != []
    ensures forall p :: p in points ==> b.x0 <= p.x <= b.x1 && b.y0 <= p.y <= b.y1
    ensures exists p :: p in points && p.x == b.x0
    ensures exists p :: p in points && p.x == b.x1
    ensures exists p :: p in points && p.y == b.y0
    ensures exists p :: p in points && p.y == b.y1
    ensures b.x0 <= b.x1 && b.y0 <= b.y1
  {
    assert points[0] in points;
    Box(MinX(points), MaxX(points), MinY(points), MaxY(points))
  }
}
