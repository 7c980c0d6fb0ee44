/** What the tests on turns and order say about segments as sets of points. */
module Segments {
  import opened Geometry
  import opened EarClip
  import opened Orientation
  import opened Winding

  function Along(a: Point, b: Point, t: real): Point {
    Point(a.x + t * (b.x - a.x), a.y + t * (b.y - a.y))
  }

  /** `x` is a point of the closed segment. */
  ghost predicate OnSegment(x: Point, a: Point, b: Point) {
    exists t :: 0.0 <= t <= 1.0 && x == Along(a, b, t)
  }

  // ------------------------------------------------------------------
  // The points of one segment
  // ------------------------------------------------------------------

  lemma CrossAlong(p: Point, q: Point, a: Point, b: Point, t: real)
    ensures Cross2(p, q, Along(a, b, t)) == (1.0 - t) * Cross2(p, q, a) + t * Cross2(p, q, b)
  {
    var dx, dy := q.x - p.x, q.y - p.y;
    assert dx * (a.y + t * (b.y - a.y) - p.y) == (1.0 - t) * (dx * (a.y - p.y)) + t * (dx * (b.y - p.y));
    assert dy * (a.x + t * (b.x - a.x) - p.x) == (1.0 - t) * (dy * (a.x - p.x)) + t * (dy * (b.x - p.x));
  }

  lemma ScaledTo(t: real, d: real, e: real)
    requires 0.0 < t < 1.0 && t * d == e
    ensures if d == 0.0 then e == 0.0 else 0.0 < e < d || d < e < 0.0
  {
    var u := 1.0 - t;
    assert u * d == d - e;
    SignOfProduct(t, d);
    SignOfProduct(u, d);
  }

  lemma InnerPoint(a: Point, b: Point, t: real)
    requires a != b && 0.0 < t < 1.0
    ensures On(Along(a, b, t), a, b)
  {
    hide Cross2;
    FlatAlong(a, b, t);
    Three(a, b, Along(a, b, t));
    InnerOrder(a, b, t);
    hide Before, Along;
  }

  lemma FlatAlong(a: Point, b: Point, t: real)
    ensures Cross2(a, b, Along(a, b, t)) == 0.0
  {
    CrossAlong(a, b, a, b, t);
  }

  predicate Strictly(x: real, a: real, b: real) {
    if a == b then x == a else a < x < b || b < x < a
  }

  lemma StrictlyInside(a: real, b: real, t: real)
    requires 0.0 < t < 1.0
    ensures Strictly(a + t * (b - a), a, b)
  {
    ScaledTo(t, b - a, t * (b - a));
  }

  lemma InnerOrder(a: Point, b: Point, t: real)
    requires a != b && 0.0 < t < 1.0
    ensures if Before(a, b) then Before(a, Along(a, b, t)) && Before(Along(a, b, t), b)
            else Before(b, Along(a, b, t)) && Before(Along(a, b, t), a)
  {
    hide Before;
    StrictlyInside(a.x, b.x, t);
    StrictlyInside(a.y, b.y, t);
    assert a == Point(a.x, a.y) && b == Point(b.x, b.y);
    BoxOrder(a, b, Along(a, b, t));
  }

  lemma BoxOrder(a: Point, b: Point, x: Point)
    requires (a.x != b.x || a.y != b.y) && Strictly(x.x, a.x, b.x) && Strictly(x.y, a.y, b.y)
    ensures if Before(a, b) then Before(a, x) && Before(x, b) else Before(b, x) && Before(x, a)
  {
  }

  lemma Share(d: real, e: real)
    requires d != 0.0 && ((0.0 < e < d) || (d < e < 0.0))
    ensures 0.0 < e / d < 1.0 && (e / d) * d == e
  {
    var t := e / d;
    assert t * d == e;
    ProperShare(d, t, e);
  }

  lemma ProperShare(d: real, t: real, e: real)
    requires t * d == e && ((0.0 < e < d) || (d < e < 0.0))
    ensures 0.0 < t < 1.0
  {
    var u := 1.0 - t;
    assert u * d == d - e;
    SignOfProduct(t, d);
    SignOfProduct(u, d);
  }

  lemma Cancel(d: real, e: real)
    requires d != 0.0
    ensures d * e == 0.0 ==> e == 0.0
  {
  }

  lemma PointBetween(x: Point, a: Point, b: Point) returns (t: real)
    requires On(x, a, b)
    ensures 0.0 < t < 1.0 && x == Along(a, b, t)
  {
    var dx, dy, ex, ey := b.x - a.x, b.y - a.y, x.x - a.x, x.y - a.y;
    Three(a, b, x);
    assert dx * ey - dy * ex == 0.0;
    assert (Up(ex, ey) && Up(dx - ex, dy - ey)) || (Up(-ex, -ey) && Up(ex - dx, ey - dy));
    hide Ccw, Cross2, Before;
    t := Fraction(dx, dy, ex, ey);
    assert x == Point(a.x + ex, a.y + ey);
  }

  /** A step in line with another one and shorter is a fraction of it. */
  lemma Fraction(dx: real, dy: real, ex: real, ey: real) returns (t: real)
    requires dx * ey - dy * ex == 0.0
    requires (Up(ex, ey) && Up(dx - ex, dy - ey)) || (Up(-ex, -ey) && Up(ex - dx, ey - dy))
    ensures 0.0 < t < 1.0 && ex == t * dx && ey == t * dy
  {
    if dx != 0.0 {
      Level(dx, dy, ex, ey);
      Share(dx, ex);
      t := ex / dx;
      SameSlope(dx, dy, ex, ey, t);
    } else {
      assert ex == 0.0;
      Share(dy, ey);
      t := ey / dy;
    }
  }

  lemma SameSlope(dx: real, dy: real, ex: real, ey: real, t: real)
    requires dx != 0.0 && dx * ey - dy * ex == 0.0 && t * dx == ex
    ensures ey == t * dy
  {
    assert dy * (t * dx) == dx * (t * dy);
    assert dx * (ey - t * dy) == 0.0;
    Cancel(dx, ey - t * dy);
  }

  lemma Level(dx: real, dy: real, ex: real, ey: real)
    requires dx != 0.0 && dx * ey - dy * ex == 0.0
    requires (Up(ex, ey) && Up(dx - ex, dy - ey)) || (Up(-ex, -ey) && Up(ex - dx, ey - dy))
    ensures (0.0 < ex < dx) || (dx < ex < 0.0)
  {
    assert ex == dx ==> dx * (ey - dy) == 0.0;
    Cancel(dx, ey);
    Cancel(dx, ey - dy);
  }

  /** The points of a segment are its ends and what lies between them. */
  lemma SegmentPoints(x: Point, a: Point, b: Point)
    requires a != b
    ensures OnSegment(x, a, b) <==> x == a || x == b || On(x, a, b)
  {
    hide On;
    if t :| 0.0 <= t <= 1.0 && x == Along(a, b, t) {
      if 0.0 < t < 1.0 {
        InnerPoint(a, b, t);
      }
    }
    assert a == Along(a, b, 0.0) && b == Along(a, b, 1.0);
    if On(x, a, b) {
      var t := PointBetween(x, a, b);
    }
  }

  // ------------------------------------------------------------------
  // Common points of two segments
  // ------------------------------------------------------------------

  ghost predicate Common(x: Point, a: Point, b: Point, c: Point, d: Point) {
    OnSegment(x, a, b) && OnSegment(x, c, d)
  }

  /** A point of a line between two points that the line separates, if in line with them, lies between them. */
  lemma BetweenSeparated(a: Point, b: Point, c: Point, d: Point, x: Point)
    requires Distinct4(a, b, c, d) && Separates(a, b, c, d) && On(x, a, b) && InLine(c, d, x)
    ensures On(x, c, d)
  {
    hide Ccw, Before;
    Three(a, b, x);
    Facts4(a, b, c, d);
    if x != a && x != b && x != c && x != d {
      Facts4(x, c, d, a);
      Facts4(x, c, d, b);
      Facts4(a, b, c, x);
      Facts4(a, b, d, x);
    }
  }

  lemma OnIsInner(x: Point, a: Point, b: Point)
    requires On(x, a, b)
    ensures x != a && x != b
  {
  }

  lemma ProperCrossing(a: Point, b: Point, c: Point, d: Point) returns (x: Point)
    requires Distinct4(a, b, c, d) && Separates(a, b, c, d) && Separates(c, d, a, b)
    ensures On(x, a, b) && On(x, c, d)
  {
    hide Cross2, Before;
    var p, q := Cross2(c, d, a), Cross2(c, d, b);
    Three(c, d, a);
    Three(c, d, b);
    Share(p - q, p);
    var t := p / (p - q);
    x := Along(a, b, t);
    CrossAlong(c, d, a, b, t);
    Balance(t, p, q);
    InnerPoint(a, b, t);
    Three(c, d, x);
    hide Along;
    BetweenSeparated(a, b, c, d, x);
  }

  lemma Balance(t: real, p: real, q: real)
    requires t * (p - q) == p
    ensures (1.0 - t) * p + t * q == 0.0
  {
  }

  lemma CrossingMeets(a: Point, b: Point, c: Point, d: Point, x: Point)
    requires Distinct4(a, b, c, d) && On(x, a, b) && On(x, c, d)
    ensures Meets(a, b, c, d)
  {
    OnIsInner(x, a, b);
    OnIsInner(x, c, d);
    hide Ccw, Before;
    Facts4(a, b, c, d);
    Facts4(a, b, c, x);
    Facts4(a, b, d, x);
    Facts4(a, c, d, x);
    Facts4(b, c, d, x);
    Facts5(a, b, c, d, x);
  }

  /** The test for two segments without a common end says whether they have a common point. */
  lemma MeetsIsCommonPoint(a: Point, b: Point, c: Point, d: Point)
    requires Distinct4(a, b, c, d)
    ensures Meets(a, b, c, d) <==> exists x :: Common(x, a, b, c, d)
  {
    hide Ccw, Before, OnSegment, On;
    forall x ensures OnSegment(x, a, b) <==> x == a || x == b || On(x, a, b) {
      SegmentPoints(x, a, b);
    }
    forall x ensures OnSegment(x, c, d) <==> x == c || x == d || On(x, c, d) {
      SegmentPoints(x, c, d);
    }
    if Meets(a, b, c, d) {
      var x := MeetingPoint(a, b, c, d);
      assert Common(x, a, b, c, d);
    }
    if x :| Common(x, a, b, c, d) {
      if On(x, a, b) && On(x, c, d) {
        CrossingMeets(a, b, c, d, x);
      }
    }
  }

  lemma MeetingPoint(a: Point, b: Point, c: Point, d: Point) returns (x: Point)
    requires Distinct4(a, b, c, d) && Meets(a, b, c, d)
    ensures (x == a || x == b || On(x, a, b)) && (x == c || x == d || On(x, c, d))
  {
    hide Ccw, Before, On, Separates;
    if On(c, a, b) {
      x := c;
    } else if On(d, a, b) {
      x := d;
    } else if On(a, c, d) {
      x := a;
    } else if On(b, c, d) {
      x := b;
    } else {
      x := ProperCrossing(a, b, c, d);
    }
  }

  lemma SameRayNests(w: Point, p: Point, q: Point)
    requires Distinct3(w, p, q)
    ensures SameRay(w, p, q) <==> On(p, w, q) || On(q, w, p)
  {
    hide Ccw, Before;
    Three(w, p, q);
    InOrder(w, p, q);
  }

  lemma SharedRay(w: Point, p: Point, q: Point, x: Point)
    requires Distinct3(w, p, q) && On(x, w, p) && On(x, w, q)
    ensures SameRay(w, p, q)
  {
    OnIsInner(x, w, p);
    OnIsInner(x, w, q);
    hide Ccw, Before;
    Facts4(w, p, q, x);
  }

  /** The test for two segments from a common end says whether they have another common point. */
  lemma SameRayIsOverlap(w: Point, p: Point, q: Point)
    requires Distinct3(w, p, q)
    ensures SameRay(w, p, q) <==> exists x :: x != w && Common(x, w, p, w, q)
  {
    hide Ccw, Before, OnSegment, On, SameRay;
    forall x ensures OnSegment(x, w, p) <==> x == w || x == p || On(x, w, p) {
      SegmentPoints(x, w, p);
    }
    forall x ensures OnSegment(x, w, q) <==> x == w || x == q || On(x, w, q) {
      SegmentPoints(x, w, q);
    }
    SameRayNests(w, p, q);
    if SameRay(w, p, q) {
      assert if On(p, w, q) then Common(p, w, p, w, q) else Common(q, w, p, w, q);
    }
    if x :| x != w && Common(x, w, p, w, q) {
      if On(x, w, p) && On(x, w, q) {
        SharedRay(w, p, q, x);
      }
    }
  }

  lemma SegmentFlips(x: Point, a: Point, b: Point)
    requires a != b
    ensures OnSegment(x, a, b) <==> OnSegment(x, b, a)
  {
    hide OnSegment;
    SegmentPoints(x, a, b);
    SegmentPoints(x, b, a);
    hide Ccw, Before;
    Three(a, b, x);
  }

  // ------------------------------------------------------------------
  // Simple polygons
  // ------------------------------------------------------------------

  /** Two sides have no point in common but a corner in which both end. */
  ghost predicate SidesApart(points: seq<Point>, u: nat, v: nat, p: nat, q: nat)
    requires u < |points| && v < |points| && p < |points| && q < |points|
  {
    forall x :: Common(x, points[u], points[v], points[p], points[q]) ==>
      (x == points[u] && (u == p || u == q)) || (x == points[v] && (v == p || v == q))
  }

  lemma ClearMeans(points: seq<Point>, u: nat, v: nat, p: nat, q: nat)
    requires Distinct(points) && u < |points| && v < |points| && p < |points| && q < |points| && u != v && p != q
    requires !(u == p && v == q) && !(u == q && v == p)
    ensures Clear(points, u, v, p, q) <==> SidesApart(points, u, v, p, q)
  {
    hide Meets, SameRay, OnSegment, Distinct;
    TwoDistinct(points, u, v);
    TwoDistinct(points, p, q);
    forall x ensures OnSegment(x, points[u], points[v]) <==> OnSegment(x, points[v], points[u]) {
      SegmentFlips(x, points[u], points[v]);
    }
    forall x ensures OnSegment(x, points[p], points[q]) <==> OnSegment(x, points[q], points[p]) {
      SegmentFlips(x, points[p], points[q]);
    }
    if Disjoint2(u, v, p, q) {
      FourDistinct(points, u, v, p, q);
      MeetsIsCommonPoint(points[u], points[v], points[p], points[q]);
    } else {
      var w := if u == p || u == q then u else v;
      var y, z := if w == u then v else u, if w == p then q else p;
      ThreeDistinct(points, w, y, z);
      SameRayFlips(points[w], points[y], points[z]);
      SameRayIsOverlap(points[w], points[y], points[z]);
      forall x ensures Common(x, points[u], points[v], points[p], points[q]) <==> Common(x, points[w], points[y], points[w], points[z]) {
      }
    }
  }
}
