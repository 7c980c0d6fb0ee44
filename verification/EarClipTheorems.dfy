/** What ear clipping conserves, and when it completes. */
module EarClipTheorems {
  import opened Common
  import opened Geometry
  import opened EarClip

  // ------------------------------------------------------------------
  // Conservation of every antisymmetric edge weight
  // ------------------------------------------------------------------

  lemma {:induction false} PathSplit(a: seq<nat>, b: seq<nat>, w: Weight)
    requires |a| > 0 && |b| > 0
    ensures PathSum(a + b, w) == PathSum(a, w) + w(a[|a| - 1], b[0]) + PathSum(b, w)
  {
    if |a| == 1 {
      assert (a + b)[1..] == b;
    } else {
      PathSplit(a[1..], b, w);
      assert (a + b)[1..] == a[1..] + b;
    }
  }

  /** Cutting off a corner replaces its two sides by one: with the side reversed, the corner's
      triangle makes up the difference. */
  lemma EarDifference(s: seq<nat>, idx: nat, w: Weight)
    requires idx < |s| && |s| >= 3
    ensures CycleSum(s, w) == CycleSum(Without(s, idx), w)
                              + w(Prev(s, idx), s[idx]) + w(s[idx], Next(s, idx)) - w(Prev(s, idx), Next(s, idx))
  {
    var c := s[idx];
    if idx == 0 {
      var t := s[1..];
      assert s + [s[0]] == [c] + (t + [c]);
      PathSplit([c], t + [c], w);
      PathSplit(t, [c], w);
      PathSplit(t, [t[0]], w);
      assert Without(s, 0) == t;
    } else {
      var a, b := s[..idx], s[idx + 1..] + [s[0]];
      assert s + [s[0]] == a + ([c] + b);
      PathSplit(a, [c] + b, w);
      PathSplit([c], b, w);
      PathSplit(a, b, w);
      assert a[|a| - 1] == Prev(s, idx) && b[0] == Next(s, idx);
      var rest := Without(s, idx);
      assert rest[0] == s[0];
      assert rest + [rest[0]] == a + b;
      hide Prev, Next, Without;
    }
  }

  /** At every stage the clipped ears and the polygon still to be cut together weigh what the polygon
      weighed, for every antisymmetric weighting of directed edges. */
  lemma {:induction false} ClipConserves(points: seq<Point>, positive: bool, s: seq<nat>, w: Weight)
    requires InRange(points, s) && Antisymmetric(w)
    ensures TriangleSum(Clip(points, positive, s).0, w) + CycleSum(Clip(points, positive, s).1, w) == CycleSum(s, w)
    decreases |s|
  {
    var idx := FirstEar(points, positive, s, 0);
    if |s| > 3 && idx < |s| {
      var rest := Without(s, idx);
      ClipConserves(points, positive, rest, w);
      EarDifference(s, idx, w);
      assert w(Next(s, idx), Prev(s, idx)) == -w(Prev(s, idx), Next(s, idx));
      var r := Clip(points, positive, rest);
      assert ([EarAt(s, idx)] + r.0)[1..] == r.0;
    }
  }

  lemma {:induction false} TriangleSumAppend(a: seq<Triangle>, b: seq<Triangle>, w: Weight)
    ensures TriangleSum(a + b, w) == TriangleSum(a, w) + TriangleSum(b, w)
  {
    if a == [] {
      assert a + b == b;
    } else {
      TriangleSumAppend(a[1..], b, w);
      assert (a + b)[1..] == a[1..] + b;
    }
  }

  /** The closing triangle weighs what the last three corners weigh. */
  lemma TripleWeighsItsCycle(s: seq<nat>, w: Weight)
    requires |s| == 3
    ensures TriangleSum(LastTriangle(s), w) == CycleSum(s, w)
  {
    var t := Triangle(s[0], s[1], s[2]);
    assert [t][1..] == [] && TriangleSum([t], w) == w(t.i, t.j) + w(t.j, t.k) + w(t.k, t.i) + TriangleSum([], w);
    var p := s + [s[0]];
    var q := p[1..];
    var r := q[1..];
    assert PathSum(p, w) == w(p[0], p[1]) + PathSum(q, w);
    assert PathSum(q, w) == w(q[0], q[1]) + PathSum(r, w);
    assert PathSum(r, w) == w(r[0], r[1]) + PathSum(r[1..], w);
  }

  /** A run that gets down to three corners conserves every antisymmetric weight; one that stops
      earlier misses exactly the weight of the corners left. */
  lemma TriangulationConserves(points: seq<Point>, w: Weight)
    requires |points| >= 3 && Antisymmetric(w)
    ensures |Left(points)| == 3 ==> TriangleSum(Triangulation(points), w) == CycleSum(Range(|points|), w)
    ensures |Left(points)| != 3 ==>
              TriangleSum(Triangulation(points), w) == CycleSum(Range(|points|), w) - CycleSum(Left(points), w)
  {
    ClipConserves(points, Positive(points), Range(|points|), w);
    TriangleSumAppend(Ears(points), LastTriangle(Left(points)), w);
    if |Left(points)| == 3 {
      TripleWeighsItsCycle(Left(points), w);
    }
  }

  // ------------------------------------------------------------------
  // Area
  // ------------------------------------------------------------------

  function TriangleArea2(points: seq<Point>, ts: seq<Triangle>): real
    requires forall t :: t in ts ==> t.i < |points| && t.j < |points| && t.k < |points|
  {
    if ts == [] then 0.0
    else
      assert ts[0] in ts;
      Cross2(points[ts[0].i], points[ts[0].j], points[ts[0].k]) + TriangleArea2(points, ts[1..])
  }

  lemma CrossIsShoelace(a: Point, b: Point, c: Point)
    ensures Cross2(a, b, c) == (a.x * b.y - b.x * a.y) + (b.x * c.y - c.x * b.y) + (c.x * a.y - a.x * c.y)
  {
  }

  lemma {:induction false} TriangleAreaIsWeight(points: seq<Point>, ts: seq<Triangle>)
    requires forall t :: t in ts ==> t.i < |points| && t.j < |points| && t.k < |points|
    ensures TriangleArea2(points, ts) == TriangleSum(ts, Shoelace(points))
  {
    if ts != [] {
      assert ts[0] in ts;
      CrossIsShoelace(points[ts[0].i], points[ts[0].j], points[ts[0].k]);
      TriangleAreaIsWeight(points, ts[1..]);
    }
  }

  lemma ShoelaceAntisymmetric(points: seq<Point>)
    ensures Antisymmetric(Shoelace(points))
  {
  }

  lemma {:induction false} FanConserves(n: nat, m: nat, w: Weight)
    requires 2 <= m <= n && Antisymmetric(w)
    ensures TriangleSum(Fan(n)[..m - 2], w) == PathSum(Range(n)[..m], w) + w(m - 1, 0)
  {
    if m == 2 {
      var p := Range(n)[..2];
      assert PathSum(p, w) == w(p[0], p[1]) + PathSum(p[1..], w);
    } else {
      FanConserves(n, m - 1, w);
      var fan, p := Fan(n), Range(n);
      assert fan[..m - 2] == fan[..m - 3] + [fan[m - 3]];
      TriangleSumAppend(fan[..m - 3], [fan[m - 3]], w);
      assert TriangleSum([fan[m - 3]], w) == w(0, m - 2) + w(m - 2, m - 1) + w(m - 1, 0) + TriangleSum([], w);
      assert p[..m][..m - 1] == p[..m - 1];
      PathSumSnoc(p[..m], w);
    }
  }

  /** The fan `_add_polygon` falls back to weighs what the polygon weighs. */
  lemma FanWeighsPolygon(n: nat, w: Weight)
    requires n >= 3 && Antisymmetric(w)
    ensures TriangleSum(Fan(n), w) == CycleSum(Range(n), w)
  {
    FanConserves(n, n, w);
    assert Fan(n)[..n - 2] == Fan(n) && Range(n)[..n] == Range(n);
    PathSplit(Range(n), [0], w);
  }

  lemma FanInRange(points: seq<Point>)
    requires |points| >= 3
    ensures forall t :: t in Fan(|points|) ==> t.i < |points| && t.j < |points| && t.k < |points|
  {
  }

  lemma DrawnInRange(points: seq<Point>)
    ensures forall t :: t in DrawnTriangles(points) ==> t.i < |points| && t.j < |points| && t.k < |points|
  {
    TriangulationInRange(points);
    if |points| >= 3 {
      FanInRange(points);
    }
  }

  /** Twice the signed area of the corners left when clipping stopped. */
  function LeftArea2(points: seq<Point>): real {
    CycleSum(Left(points), Shoelace(points))
  }

  /** The drawn triangles' signed areas sum to the polygon's exactly when clipping completed, or found
      no ear at all (so the fan is drawn), or left corners enclosing no net area. */
  lemma DrawnAreaExact(points: seq<Point>)
    requires |points| >= 3
    ensures (forall t :: t in DrawnTriangles(points) ==> t.i < |points| && t.j < |points| && t.k < |points|)
    ensures TriangleArea2(points, DrawnTriangles(points)) == Area2(points)
            <==> |Left(points)| == 3 || Ears(points) == [] || LeftArea2(points) == 0.0
  {
    DrawnInRange(points);
    TriangleAreaIsWeight(points, DrawnTriangles(points));
    ShoelaceAntisymmetric(points);
    TriangulationConserves(points, Shoelace(points));
    FanWeighsPolygon(|points|, Shoelace(points));
    StepsCount(points, Positive(points), Range(|points|));
  }

  // ------------------------------------------------------------------
  // Topology
  // ------------------------------------------------------------------

  lemma WithoutAscends(s: seq<nat>, idx: nat)
    requires idx < |s|
    ensures Ascending(s) ==> Ascending(Without(s, idx))
    ensures forall v :: v in Without(s, idx) ==> v in s
  {
  }

  /** One triangle is emitted per index removed, and never fewer than three indices are left. */
  lemma {:induction false} StepsCount(points: seq<Point>, positive: bool, s: seq<nat>)
    requires InRange(points, s) && |s| >= 3
    ensures |Clip(points, positive, s).0| + |Clip(points, positive, s).1| == |s|
    ensures |Clip(points, positive, s).1| >= 3
    decreases |s|
  {
    var idx := FirstEar(points, positive, s, 0);
    if |s| > 3 && idx < |s| {
      StepsCount(points, positive, Without(s, idx));
    }
  }

  /** The indices left are an ascending subsequence of `0, ..., n - 1`; if more than three are left,
      none of them is an ear. */
  lemma {:induction false} LeftAscends(points: seq<Point>, positive: bool, s: seq<nat>)
    requires InRange(points, s) && Ascending(s)
    ensures Ascending(Clip(points, positive, s).1)
    ensures forall v :: v in Clip(points, positive, s).1 ==> v in s
    decreases |s|
  {
    var idx := FirstEar(points, positive, s, 0);
    if |s| > 3 && idx < |s| {
      WithoutAscends(s, idx);
      LeftAscends(points, positive, Without(s, idx));
    }
  }

  lemma {:induction false} StopsOnlyWithoutEars(points: seq<Point>, positive: bool, s: seq<nat>)
    requires InRange(points, s)
    ensures var left := Clip(points, positive, s).1;
            |left| > 3 ==> forall k :: 0 <= k < |left| ==> !IsEar(points, positive, left, k)
    decreases |s|
  {
    var idx := FirstEar(points, positive, s, 0);
    if |s| > 3 && idx < |s| {
      StopsOnlyWithoutEars(points, positive, Without(s, idx));
    }
  }

  /** A complete run has exactly `n - 2` triangles. */
  lemma CompleteRunCount(points: seq<Point>)
    requires |points| >= 3
    ensures |Left(points)| == 3 <==> |Triangulation(points)| == |points| - 2
  {
    StepsCount(points, Positive(points), Range(|points|));
  }

  /** How often the polygon's boundary runs `u -> v`, less how often it runs `v -> u`. */
  function BoundaryCount(n: nat, u: nat, v: nat): real {
    (if u < n && v < n && v == (u + 1) % n then 1.0 else 0.0) - (if u < n && v < n && u == (v + 1) % n then 1.0 else 0.0)
  }

  lemma {:induction false} RangePathCount(n: nat, m: nat, u: nat, v: nat)
    requires 1 <= m <= n
    ensures PathSum(Range(n)[..m], EdgeCount(u, v))
            == (if v == u + 1 && v < m then 1.0 else 0.0) - (if u == v + 1 && u < m then 1.0 else 0.0)
  {
    var p := Range(n);
    if m > 1 {
      RangePathCount(n, m - 1, u, v);
      assert p[..m][..m - 1] == p[..m - 1];
      PathSumSnoc(p[..m], EdgeCount(u, v));
    }
  }

  lemma CycleCountsBoundary(n: nat, u: nat, v: nat)
    requires n >= 3
    ensures CycleSum(Range(n), EdgeCount(u, v)) == BoundaryCount(n, u, v)
  {
    PathSplit(Range(n), [0], EdgeCount(u, v));
    assert Range(n)[..n] == Range(n);
    RangePathCount(n, n, u, v);
    Successor(n, u, v);
    Successor(n, v, u);
  }

  lemma Successor(n: nat, u: nat, v: nat)
    requires n >= 3
    ensures u < n && v < n && v == (u + 1) % n <==> u < n && v < n && (v == u + 1 || (u == n - 1 && v == 0))
  {
  }

  /** In a complete run every diagonal is traversed equally often both ways, and every side of the
      polygon exactly once more forwards than backwards. */
  lemma DiagonalsCancel(points: seq<Point>, u: nat, v: nat)
    requires |points| >= 3 && |Left(points)| == 3
    ensures TriangleSum(Triangulation(points), EdgeCount(u, v)) == BoundaryCount(|points|, u, v)
  {
    TriangulationConserves(points, EdgeCount(u, v));
    CycleCountsBoundary(|points|, u, v);
  }

  /** Clipping goes on: more than three indices and an ear among them. */
  predicate Clips(points: seq<Point>, positive: bool, s: seq<nat>)
    requires InRange(points, s)
  {
    |s| > 3 && FirstEar(points, positive, s, 0) < |s|
  }

  /** The indices after one more ear, if there is one. */
  function AfterEar(points: seq<Point>, positive: bool, s: seq<nat>): (r: seq<nat>)
    requires InRange(points, s)
    ensures InRange(points, r)
  {
    if Clips(points, positive, s) then Without(s, FirstEar(points, positive, s, 0)) else s
  }

  /** The indices remaining after `k` ears. */
  function Remaining(points: seq<Point>, positive: bool, s: seq<nat>, k: nat): (r: seq<nat>)
    requires InRange(points, s)
    ensures InRange(points, r)
    decreases k
  {
    if k == 0 then s else Remaining(points, positive, AfterEar(points, positive, s), k - 1)
  }

  lemma FirstEarIsSound(points: seq<Point>, positive: bool, s: seq<nat>)
    requires InRange(points, s) && FirstEar(points, positive, s, 0) < |s|
    ensures EmptyEar(points, positive, s, FirstEar(points, positive, s, 0))
  {
    var t := EarAt(s, FirstEar(points, positive, s, 0));
    forall v | v in s && !IsCorner(t, v)
      ensures !PointInTriangle(points[v], points[t.i], points[t.j], points[t.k])
    {
      var k :| 0 <= k < |s| && s[k] == v;
      assert !Blocked(points, s, t);
    }
  }

  /** The corner at `idx` turns with the winding and its triangle contains no other corner of `r`. */
  ghost predicate EmptyEar(points: seq<Point>, positive: bool, r: seq<nat>, idx: nat)
    requires InRange(points, r) && idx < |r|
  {
    var t := EarAt(r, idx);
    TurnsWith(points, positive, t)
    && forall v :: v in r && !IsCorner(t, v) ==> !PointInTriangle(points[v], points[t.i], points[t.j], points[t.k])
  }

  lemma {:induction false} RemainingStep(points: seq<Point>, positive: bool, s: seq<nat>, k: nat)
    requires InRange(points, s)
    ensures Remaining(points, positive, s, k + 1) == AfterEar(points, positive, Remaining(points, positive, s, k))
    decreases k
  {
    hide AfterEar;
    if k > 0 {
      RemainingStep(points, positive, AfterEar(points, positive, s), k - 1);
    }
  }

  lemma ClipHead(points: seq<Point>, positive: bool, s: seq<nat>)
    requires InRange(points, s) && Clip(points, positive, s).0 != []
    ensures Clips(points, positive, s)
    ensures Clip(points, positive, s).0[0] == EarAt(s, FirstEar(points, positive, s, 0))
    ensures Clip(points, positive, s).0[1..] == Clip(points, positive, AfterEar(points, positive, s)).0
  {
  }

  /** The ears from the `k`-th on are those clipped from what remained. */
  lemma {:induction false} LaterEars(points: seq<Point>, positive: bool, s: seq<nat>, k: nat)
    requires InRange(points, s) && k <= |Clip(points, positive, s).0|
    ensures Clip(points, positive, s).0[k..] == Clip(points, positive, Remaining(points, positive, s, k)).0
    decreases k
  {
    if k > 0 {
      ClipHead(points, positive, s);
      var rest := AfterEar(points, positive, s);
      var ears := Clip(points, positive, s).0;
      assert ears[k..] == ears[1..][k - 1..];
      LaterEars(points, positive, rest, k - 1);
    }
  }

  /** Every ear emitted turns with the winding and contains no other corner that remained, and its tip
      is what is removed. */
  lemma EarIsSound(points: seq<Point>, k: nat) returns (idx: nat)
    requires k < |Ears(points)|
    ensures var r := Remaining(points, Positive(points), Range(|points|), k);
            && idx < |r| && Ears(points)[k] == EarAt(r, idx)
            && EmptyEar(points, Positive(points), r, idx)
            && Remaining(points, Positive(points), Range(|points|), k + 1) == Without(r, idx)
  {
    var positive, s := Positive(points), Range(|points|);
    LaterEars(points, positive, s, k);
    RemainingStep(points, positive, s, k);
    var r := Remaining(points, positive, s, k);
    assert Ears(points)[k] == Ears(points)[k..][0];
    ClipHead(points, positive, r);
    idx := FirstEar(points, positive, r, 0);
    FirstEarIsSound(points, positive, r);
  }

  /** On coordinates: an ear turns left by more than a millionth if the polygon's signed area is positive, and right
      by more than a millionth otherwise, so if it is zero too. */
  lemma EarsTurnWithArea(points: seq<Point>, k: nat)
    requires k < |Ears(points)|
    ensures var t := Ears(points)[k];
            && t.i < |points| && t.j < |points| && t.k < |points|
            && var a, b, c := points[t.i], points[t.j], points[t.k];
               var cross := (b.x - a.x) * (c.y - a.y) - (b.y - a.y) * (c.x - a.x);
               if Area2(points) > 0.0 then cross > 0.000001 else cross < -0.000001
  {
    hide Remaining, Ears, Area2, Range;
    var idx := EarIsSound(points, k);
  }

  // ------------------------------------------------------------------
  // What the blocking test means
  // ------------------------------------------------------------------

  /** `p` is the mixture of three points with these weights. */
  ghost predicate IsMixture(p: Point, a: Point, b: Point, c: Point, u: real, v: real, w: real) {
    && u >= 0.0 && v >= 0.0 && w >= 0.0 && u + v + w == 1.0
    && p.x == u * a.x + v * b.x + w * c.x && p.y == u * a.y + v * b.y + w * c.y
  }

  ghost predicate InHull(p: Point, a: Point, b: Point, c: Point) {
    exists u, v, w :: IsMixture(p, a, b, c, u, v, w)
  }

  /** The three crosses add up to the triangle's, and weigh its corners to the point. */
  lemma CrossesAreWeights(p: Point, a: Point, b: Point, c: Point)
    ensures Cross2(b, c, p) + Cross2(c, a, p) + Cross2(a, b, p) == Cross2(a, b, c)
    ensures Cross2(b, c, p) * a.x + Cross2(c, a, p) * b.x + Cross2(a, b, p) * c.x == Cross2(a, b, c) * p.x
    ensures Cross2(b, c, p) * a.y + Cross2(c, a, p) * b.y + Cross2(a, b, p) * c.y == Cross2(a, b, c) * p.y
  {
  }

  lemma CrossOfMixture(p: Point, a: Point, b: Point, c: Point, u: real, v: real, w: real)
    requires IsMixture(p, a, b, c, u, v, w)
    ensures Cross2(b, c, p) == u * Cross2(a, b, c)
    ensures Cross2(c, a, p) == v * Cross2(a, b, c)
    ensures Cross2(a, b, p) == w * Cross2(a, b, c)
  {
    assert u == 1.0 - v - w;
  }

  lemma TestGivesMixture(p: Point, a: Point, b: Point, c: Point)
    requires Cross2(a, b, c) != 0.0 && PointInTriangle(p, a, b, c)
    ensures InHull(p, a, b, c)
  {
    hide Cross2;
    var d, x, y, z := Cross2(a, b, c), Cross2(b, c, p), Cross2(c, a, p), Cross2(a, b, p);
    CrossesAreWeights(p, a, b, c);
    QuotientSigns(d, x, y, z);
    Quotients(d, x, y, z, a.x, b.x, c.x, p.x);
    Quotients(d, x, y, z, a.y, b.y, c.y, p.y);
    assert IsMixture(p, a, b, c, x / d, y / d, z / d);
  }

  lemma MixturePassesTest(p: Point, a: Point, b: Point, c: Point, u: real, v: real, w: real)
    requires IsMixture(p, a, b, c, u, v, w)
    ensures PointInTriangle(p, a, b, c)
  {
    hide Cross2;
    CrossOfMixture(p, a, b, c, u, v, w);
    ProductSign(u, Cross2(a, b, c));
    ProductSign(v, Cross2(a, b, c));
    ProductSign(w, Cross2(a, b, c));
  }

  /** For a triangle that is not flat the test holds exactly of the points of the triangle, its edges and
      corners included: the convex mixtures of its corners. */
  lemma PointInTriangleIsHull(p: Point, a: Point, b: Point, c: Point)
    requires Cross2(a, b, c) != 0.0
    ensures PointInTriangle(p, a, b, c) <==> InHull(p, a, b, c)
  {
    hide Cross2, IsMixture;
    if PointInTriangle(p, a, b, c) {
      TestGivesMixture(p, a, b, c);
    }
    if InHull(p, a, b, c) {
      var u, v, w :| IsMixture(p, a, b, c, u, v, w);
      MixturePassesTest(p, a, b, c, u, v, w);
    }
  }

  lemma ProductSign(u: real, d: real)
    requires u >= 0.0
    ensures d > 0.0 ==> u * d >= 0.0
    ensures d < 0.0 ==> u * d <= 0.0
  {
  }

  lemma QuotientSign(d: real, x: real)
    requires d != 0.0 && (d > 0.0 ==> x >= 0.0) && (d < 0.0 ==> x <= 0.0)
    ensures x / d >= 0.0
  {
  }

  lemma QuotientSigns(d: real, x: real, y: real, z: real)
    requires d != 0.0 && x + y + z == d
    requires (x >= 0.0 && y >= 0.0 && z >= 0.0) || (x <= 0.0 && y <= 0.0 && z <= 0.0)
    ensures x / d >= 0.0 && y / d >= 0.0 && z / d >= 0.0
  {
    QuotientSign(d, x);
    QuotientSign(d, y);
    QuotientSign(d, z);
  }

  lemma Quotients(d: real, x: real, y: real, z: real, a: real, b: real, c: real, p: real)
    requires d != 0.0 && x + y + z == d && x * a + y * b + z * c == d * p
    ensures x / d + y / d + z / d == 1.0
    ensures p == x / d * a + y / d * b + z / d * c
  {
    var u, v, w := x / d, y / d, z / d;
    assert u * d == x && v * d == y && w * d == z;
    Cancel(d, u + v + w, 1.0);
    Cancel(d, u * a + v * b + w * c, p);
  }

  lemma Cancel(d: real, s: real, t: real)
    requires d != 0.0 && s * d == t * d
    ensures s == t
  {
    assert (s * d) / d == s && (t * d) / d == t;
  }

  // ------------------------------------------------------------------
  // Convex polygons always complete
  // ------------------------------------------------------------------

  /** Every three corners in order turn the same way, by more than the tolerance. */
  ghost predicate Convex(points: seq<Point>, positive: bool) {
    forall i, j, k :: 0 <= i < j < k < |points| ==> TurnsWith(points, positive, Triangle(i, j, k))
  }

  lemma CrossRotates(a: Point, b: Point, c: Point)
    ensures Cross2(a, b, c) == Cross2(b, c, a) == -Cross2(b, a, c)
  {
  }

  lemma PositiveFan(points: seq<Point>, m: nat, positive: bool)
    requires Convex(points, positive) && 3 <= m <= |points|
    ensures PathSum(Range(|points|)[..m], Shoelace(points)) + Shoelace(points)(m - 1, 0) != 0.0
    ensures PathSum(Range(|points|)[..m], Shoelace(points)) + Shoelace(points)(m - 1, 0) > 0.0 <==> positive
    decreases m
  {
    var p, w := Range(|points|), Shoelace(points);
    assert p[..m][..m - 1] == p[..m - 1];
    PathSumSnoc(p[..m], w);
    CrossIsShoelace(points[0], points[m - 2], points[m - 1]);
    assert TurnsWith(points, positive, Triangle(0, m - 2, m - 1));
    if m == 3 {
      assert p[..2][..1] == p[..1];
      PathSumSnoc(p[..2], w);
    } else {
      PositiveFan(points, m - 1, positive);
    }
  }

  /** The winding found is the one the corners turn with. */
  lemma ConvexWinding(points: seq<Point>, positive: bool)
    requires Convex(points, positive) && |points| >= 3
    ensures Positive(points) == positive
  {
    PositiveFan(points, |points|, positive);
    assert Range(|points|)[..|points|] == Range(|points|);
    PathSplit(Range(|points|), [0], Shoelace(points));
  }

  /** In a convex polygon the first remaining corner is always an ear. */
  lemma ConvexFirstIsEar(points: seq<Point>, positive: bool, s: seq<nat>)
    requires InRange(points, s) && Ascending(s) && |s| >= 3 && Convex(points, positive)
    ensures IsEar(points, positive, s, 0)
  {
    var last := s[|s| - 1];
    var t := EarAt(s, 0);
    assert TurnsWith(points, positive, Triangle(s[0], s[1], last));
    CrossRotates(points[last], points[s[0]], points[s[1]]);
    forall k | 0 <= k < |s| && !IsCorner(t, s[k])
      ensures !PointInTriangle(points[s[k]], points[t.i], points[t.j], points[t.k])
    {
      var v := s[k];
      assert 1 < k < |s| - 1;
      assert TurnsWith(points, positive, Triangle(s[0], s[1], v));
      assert TurnsWith(points, positive, Triangle(s[1], v, last));
      CrossRotates(points[s[1]], points[last], points[v]);
      CrossRotates(points[last], points[v], points[s[1]]);
      CrossRotates(points[v], points[s[1]], points[last]);
    }
  }

  lemma {:induction false} ConvexClips(points: seq<Point>, positive: bool, s: seq<nat>)
    requires InRange(points, s) && Ascending(s) && |s| >= 3 && Convex(points, positive)
    ensures |Clip(points, positive, s).1| == 3
    decreases |s|
  {
    if |s| > 3 {
      ConvexFirstIsEar(points, positive, s);
      WithoutAscends(s, 0);
      ConvexClips(points, positive, Without(s, 0));
    }
  }

  /** A convex polygon of either winding is cut completely: `n - 2` triangles with its whole area. */
  lemma ConvexCompletes(points: seq<Point>, positive: bool)
    requires |points| >= 3 && Convex(points, positive)
    ensures |Triangulation(points)| == |points| - 2
    ensures forall t :: t in Triangulation(points) ==> t.i < |points| && t.j < |points| && t.k < |points|
    ensures TriangleArea2(points, Triangulation(points)) == Area2(points)
  {
    ConvexWinding(points, positive);
    ConvexClips(points, positive, Range(|points|));
    CompleteRunCount(points);
    TriangulationInRange(points);
    TriangleAreaIsWeight(points, Triangulation(points));
    ShoelaceAntisymmetric(points);
    TriangulationConserves(points, Shoelace(points));
  }

  // ------------------------------------------------------------------
  // Where it does not complete
  // ------------------------------------------------------------------

  /** A convex polygon so small that no corner turns by more than the tolerance has no ear: the fan is
      drawn instead. */
  lemma TinySquareHasNoEar()
    ensures var points := [Point(0.0, 0.0), Point(0.001, 0.0), Point(0.001, 0.001), Point(0.0, 0.001)];
            Triangulation(points) == [] && Area2(points) > 0.0
  {
    var points := [Point(0.0, 0.0), Point(0.001, 0.0), Point(0.001, 0.001), Point(0.0, 0.001)];
    CycleOfFour(Range(4), Shoelace(points));
    var s := Range(4);
    forall k | 0 <= k < 4 ensures !IsEar(points, true, s, k) {}
    assert FirstEar(points, true, s, 0) == 4;
  }

  lemma CycleOfFour(s: seq<nat>, w: Weight)
    requires |s| == 4
    ensures CycleSum(s, w) == w(s[0], s[1]) + w(s[1], s[2]) + w(s[2], s[3]) + w(s[3], s[0])
  {
    var p := s + [s[0]];
    PathSumSnoc(p, w);
    assert p[..4][..3] == p[..3] && p[..3][..2] == p[..2] && p[..2][..1] == p[..1];
    PathSumSnoc(p[..4], w);
    PathSumSnoc(p[..3], w);
    PathSumSnoc(p[..2], w);
  }

  /** A simple polygon: a thousandth-wide square with a spike of length 5 on one side. */
  function Spike(): seq<Point> {
    [Point(0.0, 0.0), Point(0.001, 0.0), Point(0.001, 0.001), Point(0.0, 0.001), Point(-5.0, 0.0005)]
  }

  /** It loses area: its one real ear is clipped, and the tiny square left over is neither clipped nor
      drawn as a fan. */
  lemma SpikeLosesItsFoot()
    ensures DrawnTriangles(Spike()) == [Triangle(3, 4, 0)] && LeftArea2(Spike()) == 0.000002
  {
    var points, s, rest := Spike(), Range(5), Range(4);
    SpikeWinding();
    SpikeFirstEar();
    SpikeStops();
    assert Without(s, 4) == rest;
    assert Clip(points, true, s).0 == [EarAt(s, 4)] + [] && Clip(points, true, s).1 == rest;
    SpikeFoot();
  }

  lemma SpikeWinding()
    ensures Positive(Spike())
  {
    var w, s := Shoelace(Spike()), Range(5);
    EarDifference(s, 4, w);
    assert Without(s, 4) == Range(4);
    SpikeFoot();
  }

  lemma SpikeFoot()
    ensures CycleSum(Range(4), Shoelace(Spike())) == 0.000002
  {
    CycleOfFour(Range(4), Shoelace(Spike()));
  }

  lemma SpikeStops()
    ensures Clip(Spike(), true, Range(4)) == ([], Range(4))
  {
    forall k | 0 <= k < 4 ensures !IsEar(Spike(), true, Range(4), k) {}
    assert FirstEar(Spike(), true, Range(4), 0) == 4;
  }

  lemma SpikeFirstEar()
    ensures FirstEar(Spike(), true, Range(5), 0) == 4
  {
    var s := Range(5);
    assert EarAt(s, 0) == Triangle(4, 0, 1) && EarAt(s, 3) == Triangle(2, 3, 4) && EarAt(s, 4) == Triangle(3, 4, 0);
    assert !IsEar(Spike(), true, s, 1) && !IsEar(Spike(), true, s, 2);
    assert IsEar(Spike(), true, s, 4);
    assert !IsEar(Spike(), true, s, 0);
    assert !IsEar(Spike(), true, s, 3);
  }
}
