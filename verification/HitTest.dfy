/** Which item of the level-path document lies under the mouse. */
module HitTest {
  import opened Common
  import opened LevelPath

  // ------------------------------------------------------------------
  // Distance to a segment
  // ------------------------------------------------------------------

  /** Multiplication under a name, so that proofs can hide it. */
  function Times(x: real, y: real): real {
    x * y
  }

  function Norm(x: real, y: real): real {
    Times(x, x) + Times(y, y)
  }

  function Inner(x: real, y: real, dx: real, dy: real): real {
    x * dx + y * dy
  }

  /** The squared distance of two points; the code compares distances, which are never negative. */
  function DistSq(p: Vec2, q: Vec2): real {
    Norm(p.u - q.u, p.v - q.v)
  }

  /** The point at `t` along the segment from `a` to `b`. */
  function Along(a: Vec2, b: Vec2, t: real): Vec2 {
    Vec2(a.u + (b.u - a.u) * t, a.v + (b.v - a.v) * t)
  }

  function Dot(p: Vec2, a: Vec2, b: Vec2): real {
    Inner(p.u - a.u, p.v - a.v, b.u - a.u, b.v - a.v)
  }

  function AbsReal(x: real): real {
    if x < 0.0 then -x else x
  }

  /** Both extents are below the code's tolerance. */
  predicate Degenerate(a: Vec2, b: Vec2) {
    AbsReal(b.u - a.u) < 0.000001 && AbsReal(b.v - a.v) < 0.000001
  }

  function ClampUnit(t: real): real {
    if t < 0.0 then 0.0 else if t > 1.0 then 1.0 else t
  }

  lemma PositiveTimes(x: real, y: real)
    requires x > 0.0 && y > 0.0
    ensures Times(x, y) > 0.0
  {
  }

  lemma TimesSigns(x: real)
    ensures Times(-x, -x) == Times(x, x) && Times(0.0, 0.0) == 0.0
  {
  }

  lemma SquarePositive(x: real)
    ensures x == 0.0 || Times(x, x) > 0.0
    ensures Times(x, x) >= 0.0
  {
    hide Times;
    TimesSigns(x);
    if x > 0.0 {
      PositiveTimes(x, x);
    } else if x < 0.0 {
      PositiveTimes(-x, -x);
    }
  }

  lemma NormPositive(x: real, y: real)
    ensures Norm(x, y) >= 0.0
    ensures (x == 0.0 && y == 0.0) || Norm(x, y) > 0.0
  {
    hide Times;
    SquarePositive(x);
    SquarePositive(y);
  }

  lemma LengthPositive(a: Vec2, b: Vec2)
    requires a != b
    ensures DistSq(b, a) > 0.0
  {
    NormPositive(b.u - a.u, b.v - a.v);
    assert a == Vec2(a.u, a.v) && b == Vec2(b.u, b.v);
  }

  /** Where along the segment the code looks for the closest point. */
  function Foot(p: Vec2, a: Vec2, b: Vec2): real
    requires !Degenerate(a, b)
  {
    LengthPositive(a, b);
    ClampUnit(Dot(p, a, b) / DistSq(b, a))
  }

  /** `_distance_point_to_segment`, squared. */
  function SegmentDistSq(p: Vec2, a: Vec2, b: Vec2): real {
    if Degenerate(a, b) then DistSq(p, a) else DistSq(p, Along(a, b, Foot(p, a, b)))
  }

  /** `e - 2tm + t^2 q`. */
  function Quadratic(e: real, m: real, q: real, t: real): real {
    e - 2.0 * t * m + t * t * q
  }

  lemma NormQuadratic(x: real, y: real, dx: real, dy: real, t: real)
    ensures Norm(x - dx * t, y - dy * t) == Quadratic(Norm(x, y), Inner(x, y, dx, dy), Norm(dx, dy), t)
  {
  }

  lemma SameNorm(x: real, y: real, x': real, y': real)
    requires x == x' && y == y'
    ensures Norm(x, y) == Norm(x', y')
  {
  }

  /** The distance along the segment is a quadratic in `t`. */
  lemma AlongQuadratic(p: Vec2, a: Vec2, b: Vec2, t: real)
    ensures DistSq(p, Along(a, b, t)) == Quadratic(DistSq(p, a), Dot(p, a, b), DistSq(b, a), t)
  {
    hide Norm, Inner, Quadratic;
    var x, y, dx, dy := p.u - a.u, p.v - a.v, b.u - a.u, b.v - a.v;
    NormQuadratic(x, y, dx, dy, t);
    var foot := Along(a, b, t);
    SameNorm(p.u - foot.u, p.v - foot.v, x - dx * t, y - dy * t);
  }

  lemma Product(x: real, y: real)
    ensures x >= 0.0 && y >= 0.0 ==> x * y >= 0.0
    ensures x <= 0.0 && y <= 0.0 ==> x * y >= 0.0
    ensures x > 0.0 && y < 0.0 ==> x * y < 0.0
  {
  }

  /** Two values of the quadratic differ by this product. */
  lemma Difference(e: real, m: real, q: real, s: real, t: real)
    ensures Quadratic(e, m, q, t) - Quadratic(e, m, q, s) == (t - s) * (q * (t + s) - 2.0 * m)
  {
    assert (t - s) * (q * (t + s)) == q * (t * t) - q * (s * s);
    assert (t - s) * (2.0 * m) == 2.0 * t * m - 2.0 * s * m;
  }

  /** The clamped quotient minimises the quadratic on the unit interval. */
  lemma ClampMinimises(e: real, m: real, q: real, s: real, t: real)
    requires q > 0.0 && s == ClampUnit(m / q) && 0.0 <= t <= 1.0
    ensures Quadratic(e, m, q, s) <= Quadratic(e, m, q, t)
  {
    hide Quadratic;
    Difference(e, m, q, s, t);
    FactorNotNegative(m, q, s, t);
  }

  lemma FactorNotNegative(m: real, q: real, s: real, t: real)
    requires q > 0.0 && s == ClampUnit(m / q) && 0.0 <= t <= 1.0
    ensures (t - s) * (q * (t + s) - 2.0 * m) >= 0.0
  {
    var r := m / q;
    assert r * q == m;
    var z := t + s - 2.0 * r;
    assert q * (t + s) - 2.0 * m == q * z;
    assert (t - s) * (q * z) == q * ((t - s) * z);
    // below the segment s = 0 and above it s = 1: both factors have the sign of t - s; between, z = t - s
    Product(t - s, z);
    if 0.0 <= r <= 1.0 {
      SquarePositive(t - s);
    }
    Product(q, (t - s) * z);
  }

  ghost predicate Minimal(p: Vec2, a: Vec2, b: Vec2, d: real) {
    forall t :: 0.0 <= t <= 1.0 ==> d <= DistSq(p, Along(a, b, t))
  }

  /** The distance computed is the least over all points of the segment, exactly when the segment is not
      treated as a point, or the point lies on the near side of its start. */
  lemma ClosestPoint(p: Vec2, a: Vec2, b: Vec2)
    ensures Minimal(p, a, b, SegmentDistSq(p, a, b)) <==> !Degenerate(a, b) || Dot(p, a, b) <= 0.0
    ensures exists t :: 0.0 <= t <= 1.0 && SegmentDistSq(p, a, b) == DistSq(p, Along(a, b, t))
  {
    if !Degenerate(a, b) {
      var s := Foot(p, a, b);
      forall t | 0.0 <= t <= 1.0 ensures SegmentDistSq(p, a, b) <= DistSq(p, Along(a, b, t)) {
        FootIsClosest(p, a, b, t);
      }
      assert SegmentDistSq(p, a, b) == DistSq(p, Along(a, b, s));
    } else {
      assert Along(a, b, 0.0) == a;
      PointCase(p, a, b);
    }
  }

  /** A concrete segment shorter than the tolerance: its far end lies at a distance from it. */
  lemma ShortSegmentIsAPoint()
    ensures var a, b := Vec2(0.0, 0.0), Vec2(0.0000005, 0.0);
            Degenerate(a, b) && !Minimal(b, a, b, SegmentDistSq(b, a, b))
  {
    var a, b := Vec2(0.0, 0.0), Vec2(0.0000005, 0.0);
    assert Degenerate(a, b) && Dot(b, a, b) > 0.0;
    hide Minimal, SegmentDistSq, Degenerate, Dot;
    ClosestPoint(b, a, b);
  }

  lemma FootIsClosest(p: Vec2, a: Vec2, b: Vec2, t: real)
    requires !Degenerate(a, b) && 0.0 <= t <= 1.0
    ensures SegmentDistSq(p, a, b) <= DistSq(p, Along(a, b, t))
  {
    hide DistSq, Along, Dot, Quadratic;
    LengthPositive(a, b);
    AlongQuadratic(p, a, b, Foot(p, a, b));
    AlongQuadratic(p, a, b, t);
    ClampMinimises(DistSq(p, a), Dot(p, a, b), DistSq(b, a), Foot(p, a, b), t);
  }

  lemma PointCase(p: Vec2, a: Vec2, b: Vec2)
    ensures Minimal(p, a, b, DistSq(p, a)) <==> Dot(p, a, b) <= 0.0
  {
    hide DistSq, Along, Dot, Quadratic;
    var e, m, q := DistSq(p, a), Dot(p, a, b), DistSq(b, a);
    DistSqPositive(b, a);
    if m <= 0.0 {
      forall t | 0.0 <= t <= 1.0 ensures e <= DistSq(p, Along(a, b, t)) {
        AlongQuadratic(p, a, b, t);
        NotCloserAhead(e, m, q, t);
      }
    } else {
      var t := if m >= q then 1.0 else m / q;
      CloserAhead(e, m, q, t);
      AlongQuadratic(p, a, b, t);
      assert DistSq(p, Along(a, b, t)) < e;
    }
  }

  lemma DistSqPositive(p: Vec2, q: Vec2)
    ensures DistSq(p, q) >= 0.0
  {
    NormPositive(p.u - q.u, p.v - q.v);
  }

  lemma NotCloserAhead(e: real, m: real, q: real, t: real)
    requires m <= 0.0 <= q && 0.0 <= t
    ensures e <= Quadratic(e, m, q, t)
  {
    Product(t, -m);
    Product(t, t);
    Product(t * t, q);
    assert -2.0 * t * m == 2.0 * (t * -m);
  }

  lemma CloserAhead(e: real, m: real, q: real, t: real)
    requires m > 0.0 && q >= 0.0 && t == if m >= q then 1.0 else m / q
    ensures 0.0 < t <= 1.0 && Quadratic(e, m, q, t) < e
  {
    if m < q {
      assert t * q == m;
      if t <= 0.0 {
        Product(-t, q);
      } else if t > 1.0 {
        Product(t - 1.0, q);
      }
    }
    assert q * t <= m;
    Product(t, q * t - 2.0 * m);
    assert t * (q * t - 2.0 * m) == -2.0 * t * m + t * t * q;
  }

  // ------------------------------------------------------------------
  // Areas
  // ------------------------------------------------------------------

  /** An area's extent in the plane of the view. */
  function PlaneDims(area: Area, view: View): Vec2 {
    var size := area.size;
    var sx := if |size| > 0 then size[0] else 4.0;
    var sy0 := if |size| > 1 then size[1] else if area.shape.Cube? then 3.0 else 0.18;
    var sz0 := if |size| > 2 then size[2] else if |size| > 1 then size[1] else sx;
    var thick := if |size| > 2 then sy0 else 0.18;
    var sy := if area.shape.Square? then (if thick > 0.18 then thick else 0.18) else sy0;
    var sz := if area.shape.Square? then (if |size| > 1 then size[1] else sx) else sz0;
    match view
    case Front => Vec2(sx, sy)
    case Back => Vec2(sx, sy)
    case Left => Vec2(sz, sy)
    case Right => Vec2(sz, sy)
    case Top => Vec2(sx, sz)
    case Bottom => Vec2(sx, sz)
  }

  datatype Rect = Rect(x0: real, y0: real, x1: real, y1: real)

  function MinReal(a: real, b: real): real {
    if a < b then a else b
  }

  function MaxReal(a: real, b: real): real {
    if a > b then a else b
  }

  function ScreenRect(c: Camera, center: Vec2, dims: Vec2): Rect {
    var p := Project(c, Vec2(center.u - dims.u * 0.5, center.v - dims.v * 0.5));
    var q := Project(c, Vec2(center.u + dims.u * 0.5, center.v + dims.v * 0.5));
    Rect(MinReal(p.u, q.u), MinReal(p.v, q.v), MaxReal(p.u, q.u), MaxReal(p.v, q.v))
  }

  predicate PointInRect(s: Vec2, r: Rect) {
    r.x0 <= s.u <= r.x1 && r.y0 <= s.v <= r.y1
  }

  predicate HitsArea(c: Camera, area: Area, s: Vec2) {
    PointInRect(s, ScreenRect(c, WorldToPlane(c.view, Vec(area.position)), PlaneDims(area, c.view)))
  }

  /** The screen coordinate of a plane coordinate, along one axis. */
  function Axis(base: real, origin: real, k: real, x: real): real {
    base + (x - origin) * k
  }

  lemma Monotone(base: real, origin: real, k: real, x: real, y: real)
    requires k > 0.0
    ensures x <= y <==> Axis(base, origin, k, x) <= Axis(base, origin, k, y)
  {
    assert Axis(base, origin, k, y) - Axis(base, origin, k, x) == (y - x) * k;
    if x <= y {
      Product(y - x, k);
    } else {
      assert (x - y) * k > 0.0;
      assert (y - x) * k == -((x - y) * k);
    }
  }

  lemma RangeOnScreen(base: real, origin: real, k: real, center: real, half: real, x: real)
    requires k > 0.0
    ensures var p, q := Axis(base, origin, k, center - half), Axis(base, origin, k, center + half);
            MinReal(p, q) <= Axis(base, origin, k, x) <= MaxReal(p, q) <==> AbsReal(x - center) <= AbsReal(half)
  {
    hide Axis;
    Monotone(base, origin, k, center - half, x);
    Monotone(base, origin, k, x, center - half);
    Monotone(base, origin, k, center + half, x);
    Monotone(base, origin, k, x, center + half);
    Monotone(base, origin, k, center - half, center + half);
    Monotone(base, origin, k, center + half, center - half);
  }

  lemma ProjectAxes(c: Camera, p: Vec2)
    ensures Project(c, p).u == Axis(WIDTH * 0.5, c.center.u, Scale(c), p.u)
    ensures Project(c, p).v == -Axis(-(HEIGHT * 0.55), c.center.v, Scale(c), p.v)
  {
  }

  /** A projected point lies in the rectangle of an extent exactly when the point lies in the extent. */
  lemma RectMeansExtent(c: Camera, world: Vec2, at: Vec2, dims: Vec2)
    requires Scale(c) > 0.0
    ensures PointInRect(Project(c, world), ScreenRect(c, at, dims))
            <==> AbsReal(world.u - at.u) <= AbsReal(dims.u * 0.5) && AbsReal(world.v - at.v) <= AbsReal(dims.v * 0.5)
  {
    hide Project, Axis;
    var hu, hv := dims.u * 0.5, dims.v * 0.5;
    ProjectAxes(c, world);
    ProjectAxes(c, Vec2(at.u - hu, at.v - hv));
    ProjectAxes(c, Vec2(at.u + hu, at.v + hv));
    RangeOnScreen(WIDTH * 0.5, c.center.u, Scale(c), at.u, hu, world.u);
    RangeOnScreen(-(HEIGHT * 0.55), c.center.v, Scale(c), at.v, hv, world.v);
  }

  /** At any positive zoom a screen point hits an area exactly when the world point under it lies within the
      area's extent around its position, edges included. */
  lemma HitMeansInside(c: Camera, area: Area, s: Vec2)
    requires c.zoom >= 0.0
    ensures var at, world := WorldToPlane(c.view, Vec(area.position)), Unproject(c, s);
            var dims := PlaneDims(area, c.view);
            HitsArea(c, area, s)
            <==> AbsReal(world.u - at.u) <= AbsReal(dims.u * 0.5) && AbsReal(world.v - at.v) <= AbsReal(dims.v * 0.5)
  {
    hide Project, Unproject, ScreenRect, PointInRect, PlaneDims, WorldToPlane;
    var at, world := WorldToPlane(c.view, Vec(area.position)), Unproject(c, s);
    UnprojectProject(c, s);
    RectMeansExtent(c, world, at, PlaneDims(area, c.view));
  }

  /** The size the editor reads off an area, case by case: a square lies in the x and z axes and is at least 0.18
      thick, and lengths left out are replaced. */
  ghost predicate SizeIs(area: Area, size: Vec3) {
    var given, square := area.size, area.shape.Square?;
    && size.x == (if |given| == 0 then 4.0 else given[0])
    && (|given| <= 1 ==> size.z == size.x && size.y == if area.shape.Cube? then 3.0 else 0.18)
    && (|given| == 2 ==> size.z == given[1] && size.y == if square then 0.18 else given[1])
    && (|given| >= 3 && square ==> size.z == given[1] && size.y >= 0.18 && size.y >= given[1] && size.y in [0.18, given[1]])
    && (|given| >= 3 && !square ==> size.z == given[2] && size.y == given[1])
  }

  /** Two coordinates are apart by at most half an extent, whatever its sign. */
  predicate Near(a: real, b: real, extent: real) {
    -extent <= 2.0 * (a - b) <= extent || extent <= 2.0 * (a - b) <= -extent
  }

  lemma DimsOfSize(area: Area, view: View, size: Vec3)
    requires SizeIs(area, size)
    ensures PlaneDims(area, view).u == if view.Left? || view.Right? then size.z else size.x
    ensures PlaneDims(area, view).v == if view.Top? || view.Bottom? then size.z else size.y
  {
  }

  lemma NearIsHalf(a: real, b: real, extent: real)
    ensures Near(a, b, extent) <==> AbsReal(a - b) <= AbsReal(extent * 0.5)
  {
  }

  /** What a click means in the world: with `w` any world point that shows under it, the area is hit exactly when `w`
      is within half the area's size of its position along both axes of the view: x and z from the top and bottom,
      x and y from the front and back, z and y from the sides. */
  lemma ClickHits(c: Camera, area: Area, s: Vec2, w: Vec3, size: Vec3)
    requires c.zoom >= 0.0 && ShowsAt(c, w, s) && SizeIs(area, size)
    ensures var pos := Vec(area.position);
            HitsArea(c, area, s)
            <==> match c.view
                 case Top => Near(w.x, pos.x, size.x) && Near(w.z, pos.z, size.z)
                 case Bottom => Near(w.x, pos.x, size.x) && Near(w.z, pos.z, size.z)
                 case Front => Near(w.x, pos.x, size.x) && Near(w.y, pos.y, size.y)
                 case Back => Near(w.x, pos.x, size.x) && Near(w.y, pos.y, size.y)
                 case Left => Near(w.z, pos.z, size.z) && Near(w.y, pos.y, size.y)
                 case Right => Near(w.z, pos.z, size.z) && Near(w.y, pos.y, size.y)
  {
    hide Project, Unproject, ScreenRect, PointInRect, PlaneDims, Near, ShowsAt, SizeIs, AbsReal;
    ProjectedIsShown(c, w, s, w);
    var at, world := WorldToPlane(c.view, Vec(area.position)), WorldToPlane(c.view, w);
    RectMeansExtent(c, world, at, PlaneDims(area, c.view));
    DimsOfSize(area, c.view, size);
    NearIsHalf(world.u, at.u, PlaneDims(area, c.view).u);
    NearIsHalf(world.v, at.v, PlaneDims(area, c.view).v);
  }

  // ------------------------------------------------------------------
  // The hit test
  // ------------------------------------------------------------------

  /** Within 8 pixels of the passage; a passage without full end points is skipped. */
  predicate HitsPassage(c: Camera, p: Passage, s: Vec2) {
    |p.start| >= 3 && |p.end| >= 3
    && SegmentDistSq(s, Project(c, WorldToPlane(c.view, Vec(p.start))), Project(c, WorldToPlane(c.view, Vec(p.end)))) <= 64.0
  }

  function Middle(p: Passage): Vec3 {
    var a, b := Vec(p.start), Vec(p.end);
    Vec3((a.x + b.x) * 0.5, (a.y + b.y) * 0.5, (a.z + b.z) * 0.5)
  }

  /** The screen point is at most 8 pixels from the point at `t` between `a` and `b`. */
  ghost predicate WithinEight(s: Vec2, a: Vec2, b: Vec2, t: real) {
    var du, dv := s.u - (a.u + (b.u - a.u) * t), s.v - (a.v + (b.v - a.v) * t);
    0.0 <= t <= 1.0 && du * du + dv * dv <= 64.0
  }

  ghost predicate UnderAMillionth(x: real) {
    -0.000001 < x < 0.000001
  }

  /** A passage is hit exactly if both ends have three coordinates and some point between where they show is at
      most 8 pixels away, or the first end if the two show in the same place to within a millionth of a pixel. */
  lemma PassageHit(c: Camera, p: Passage, s: Vec2, a: Vec2, b: Vec2)
    requires |p.start| >= 3 && |p.end| >= 3
    requires ShowsAt(c, Vec3(p.start[0], p.start[1], p.start[2]), a) && ShowsAt(c, Vec3(p.end[0], p.end[1], p.end[2]), b)
    ensures HitsPassage(c, p, s)
            <==> if UnderAMillionth(b.u - a.u) && UnderAMillionth(b.v - a.v) then WithinEight(s, a, b, 0.0)
                 else exists t :: WithinEight(s, a, b, t)
  {
    assert Vec(p.start) == Vec3(p.start[0], p.start[1], p.start[2]) && Vec(p.end) == Vec3(p.end[0], p.end[1], p.end[2]);
    assert Degenerate(a, b) <==> UnderAMillionth(b.u - a.u) && UnderAMillionth(b.v - a.v);
    hide Project, WorldToPlane, ShowsAt, Degenerate, UnderAMillionth, WithinEight, DistSq, Along;
    ProjectedIsShown(c, Vec(p.start), a, Vec(p.start));
    ProjectedIsShown(c, Vec(p.end), b, Vec(p.end));
    WithinEightMeans(s, a, b, 0.0);
    if Degenerate(a, b) {
      assert Along(a, b, 0.0) == a by { AlongStart(a, b); }
    } else {
      var foot := Foot(s, a, b);
      WithinEightMeans(s, a, b, foot);
      if t :| WithinEight(s, a, b, t) {
        WithinEightMeans(s, a, b, t);
        FootIsClosest(s, a, b, t);
      }
    }
  }

  lemma AlongStart(a: Vec2, b: Vec2)
    ensures Along(a, b, 0.0) == a
  {
  }

  lemma WithinEightMeans(s: Vec2, a: Vec2, b: Vec2, t: real)
    ensures WithinEight(s, a, b, t) <==> 0.0 <= t <= 1.0 && DistSq(s, Along(a, b, t)) <= 64.0
  {
  }

  /** A passage with an end of fewer than three coordinates is never hit. */
  lemma ShortPassageIsMissed(c: Camera, p: Passage, s: Vec2)
    requires |p.start| < 3 || |p.end| < 3
    ensures !HitsPassage(c, p, s)
  {
  }

  /** The middle is as far from one end as from the other, on the same line. */
  lemma MiddleIsHalfway(p: Passage)
    requires |p.start| >= 3 && |p.end| >= 3
    ensures var m := Middle(p);
            && m.x - p.start[0] == p.end[0] - m.x
            && m.y - p.start[1] == p.end[1] - m.y
            && m.z - p.start[2] == p.end[2] - m.z
  {
  }

  datatype Hit = Hit(item: Item, world: Vec3)

  /** The last area that contains the point, else the last passage near it, else nothing. */
  method HitTestItem(d: Doc, c: Camera, s: Vec2) returns (hit: Option<Hit>)
    ensures match hit
            case Some(Hit(AreaItem(i), world)) =>
              && 0 <= i < |d.areas| && HitsArea(c, d.areas[i], s) && world == Vec(d.areas[i].position)
              && forall j :: i < j < |d.areas| ==> !HitsArea(c, d.areas[j], s)
            case Some(Hit(PassageItem(i), world)) =>
              && 0 <= i < |d.passages| && HitsPassage(c, d.passages[i], s) && world == Middle(d.passages[i])
              && (forall j :: 0 <= j < |d.areas| ==> !HitsArea(c, d.areas[j], s))
              && forall j :: i < j < |d.passages| ==> !HitsPassage(c, d.passages[j], s)
            case None =>
              && (forall j :: 0 <= j < |d.areas| ==> !HitsArea(c, d.areas[j], s))
              && forall j :: 0 <= j < |d.passages| ==> !HitsPassage(c, d.passages[j], s)
  {
    for i := |d.areas| downto 0
      invariant forall j :: i <= j < |d.areas| ==> !HitsArea(c, d.areas[j], s)
    {
      if HitsArea(c, d.areas[i], s) {
        return Some(Hit(AreaItem(i), Vec(d.areas[i].position)));
      }
    }
    for i := |d.passages| downto 0
      invariant forall j :: i <= j < |d.passages| ==> !HitsPassage(c, d.passages[j], s)
    {
      if HitsPassage(c, d.passages[i], s) {
        return Some(Hit(PassageItem(i), Middle(d.passages[i])));
      }
    }
    hit := None;
  }
}
