/** Ear-clipping triangulation of a polygon given by its corner points. */
module EarClip {
  import opened Geometry

  /** Three indices into the corner list. */
  datatype Triangle = Triangle(i: nat, j: nat, k: nat)

  function Cross2(a: Point, b: Point, c: Point): real {
    (b.x - a.x) * (c.y - a.y) - (b.y - a.y) * (c.x - a.x)
  }

  /** On one side of all three edges, edges included. */
  predicate PointInTriangle(p: Point, a: Point, b: Point, c: Point) {
    var c1, c2, c3 := Cross2(a, b, p), Cross2(b, c, p), Cross2(c, a, p);
    var hasNeg := c1 < 0.0 || c2 < 0.0 || c3 < 0.0;
    var hasPos := c1 > 0.0 || c2 > 0.0 || c3 > 0.0;
    !(hasNeg && hasPos)
  }

  // ------------------------------------------------------------------
  // Sums over directed edges
  // ------------------------------------------------------------------

  /** A weight on directed edges between corner indices. */
  type Weight = (nat, nat) -> real

  /** Reversing an edge negates its weight. */
  ghost predicate Antisymmetric(w: Weight) {
    forall i, j :: w(i, j) == -w(j, i)
  }

  function PathSum(s: seq<nat>, w: Weight): real {
    if |s| < 2 then 0.0 else w(s[0], s[1]) + PathSum(s[1..], w)
  }

  /** The sum around a closed polygon. */
  function CycleSum(s: seq<nat>, w: Weight): real {
    if s == [] then 0.0 else PathSum(s + [s[0]], w)
  }

  function TriangleSum(ts: seq<Triangle>, w: Weight): real {
    if ts == [] then 0.0
    else w(ts[0].i, ts[0].j) + w(ts[0].j, ts[0].k) + w(ts[0].k, ts[0].i) + TriangleSum(ts[1..], w)
  }

  /** The term of the shoelace formula; out-of-range indices weigh nothing. */
  function Shoelace(points: seq<Point>): Weight {
    (i: nat, j: nat) =>
      if i < |points| && j < |points| then points[i].x * points[j].y - points[j].x * points[i].y else 0.0
  }

  /** Counts the directed edge `u -> v`, and its reverse negatively. */
  function EdgeCount(u: nat, v: nat): Weight {
    (i: nat, j: nat) => (if i == u && j == v then 1.0 else 0.0) - (if i == v && j == u then 1.0 else 0.0)
  }

  /** `0, 1, ..., n - 1`. */
  function Range(n: nat): (s: seq<nat>)
    ensures |s| == n && forall i :: 0 <= i < n ==> s[i] == i
  {
    seq(n, i requires 0 <= i < n => i)
  }

  /** Twice the signed area of a polygon. */
  function Area2(points: seq<Point>): real {
    CycleSum(Range(|points|), Shoelace(points))
  }

  // ------------------------------------------------------------------
  // The clipping order
  // ------------------------------------------------------------------

  ghost predicate InRange(points: seq<Point>, s: seq<nat>) {
    forall k :: 0 <= k < |s| ==> s[k] < |points|
  }

  function Prev(s: seq<nat>, idx: nat): nat
    requires idx < |s|
  {
    if idx == 0 then s[|s| - 1] else s[idx - 1]
  }

  function Next(s: seq<nat>, idx: nat): nat
    requires idx < |s|
  {
    if idx + 1 == |s| then s[0] else s[idx + 1]
  }

  function EarAt(s: seq<nat>, idx: nat): Triangle
    requires idx < |s|
  {
    Triangle(Prev(s, idx), s[idx], Next(s, idx))
  }

  function Without(s: seq<nat>, idx: nat): (r: seq<nat>)
    requires idx < |s|
  {
    s[..idx] + s[idx + 1..]
  }

  predicate IsCorner(t: Triangle, v: nat) {
    v == t.i || v == t.j || v == t.k
  }

  /** The corner turns with the winding, by more than the tolerance. */
  predicate TurnsWith(points: seq<Point>, positive: bool, t: Triangle)
    requires t.i < |points| && t.j < |points| && t.k < |points|
  {
    var cross := Cross2(points[t.i], points[t.j], points[t.k]);
    if positive then cross > EPS else cross < -EPS
  }

  /** Some other remaining corner lies in the triangle. */
  predicate Blocked(points: seq<Point>, s: seq<nat>, t: Triangle)
    requires InRange(points, s) && t.i < |points| && t.j < |points| && t.k < |points|
  {
    exists k :: 0 <= k < |s| && !IsCorner(t, s[k])
                && PointInTriangle(points[s[k]], points[t.i], points[t.j], points[t.k])
  }

  predicate IsEar(points: seq<Point>, positive: bool, s: seq<nat>, idx: nat)
    requires InRange(points, s) && idx < |s|
  {
    TurnsWith(points, positive, EarAt(s, idx)) && !Blocked(points, s, EarAt(s, idx))
  }

  /** The position of the first ear at or after `from`, or `|s|` if there is none. */
  function FirstEar(points: seq<Point>, positive: bool, s: seq<nat>, from: nat): (idx: nat)
    requires InRange(points, s) && from <= |s|
    ensures from <= idx <= |s|
    ensures idx < |s| ==> IsEar(points, positive, s, idx)
    ensures forall k :: from <= k < idx ==> !IsEar(points, positive, s, k)
    decreases |s| - from
  {
    if from == |s| || IsEar(points, positive, s, from) then from else FirstEar(points, positive, s, from + 1)
  }

  /** The ears clipped from `s`, always the first one, and the indices left when three remain or no
      ear is found. There is no iteration bound here. */
  function Clip(points: seq<Point>, positive: bool, s: seq<nat>): (r: (seq<Triangle>, seq<nat>))
    requires InRange(points, s)
    ensures InRange(points, r.1)
    decreases |s|
  {
    if |s| <= 3 || FirstEar(points, positive, s, 0) == |s| then ([], s)
    else
      var idx := FirstEar(points, positive, s, 0);
      var rest := Clip(points, positive, Without(s, idx));
      ([EarAt(s, idx)] + rest.0, rest.1)
  }

  predicate Positive(points: seq<Point>) {
    Area2(points) > 0.0
  }

  function Ears(points: seq<Point>): seq<Triangle> {
    Clip(points, Positive(points), Range(|points|)).0
  }

  /** The corner indices left when clipping stops. */
  function Left(points: seq<Point>): seq<nat> {
    Clip(points, Positive(points), Range(|points|)).1
  }

  function LastTriangle(left: seq<nat>): seq<Triangle> {
    if |left| == 3 then [Triangle(left[0], left[1], left[2])] else []
  }

  function Triangulation(points: seq<Point>): seq<Triangle> {
    if |points| < 3 then [] else Ears(points) + LastTriangle(Left(points))
  }

  function Fan(n: nat): seq<Triangle>
    requires n >= 2
  {
    seq(n - 2, i requires 0 <= i < n - 2 => Triangle(0, i + 1, i + 2))
  }

  // ------------------------------------------------------------------
  // The code
  // ------------------------------------------------------------------

  lemma {:induction false} PathSumSnoc(s: seq<nat>, w: Weight)
    requires |s| >= 2
    ensures PathSum(s, w) == PathSum(s[..|s| - 1], w) + w(s[|s| - 2], s[|s| - 1])
  {
    if |s| > 2 {
      PathSumSnoc(s[1..], w);
      assert s[..|s| - 1][1..] == s[1..][..|s| - 2];
    }
  }

  lemma WrapsAround(n: nat, i: nat)
    requires i < n
    ensures (i + 1) % n == if i + 1 == n then 0 else i + 1
  {
  }

  /** One more side of the closed path `0, 1, ..., n - 1, 0`. */
  lemma ClosedPathStep(n: nat, i: nat, w: Weight)
    requires i < n
    ensures var closed := Range(n) + [0];
            PathSum(closed[..i + 2], w) == PathSum(closed[..i + 1], w) + w(i, if i + 1 == n then 0 else i + 1)
  {
    var closed := Range(n) + [0];
    assert closed[..i + 2][..i + 1] == closed[..i + 1];
    PathSumSnoc(closed[..i + 2], w);
  }

  /** Half the shoelace sum (the loop of `_polygon_signed_area`). */
  method PolygonSignedArea(points: seq<Point>) returns (area: real)
    ensures area == Area2(points) * 0.5
  {
    area := 0.0;
    ghost var closed := Range(|points|) + [0];
    for i := 0 to |points|
      invariant area == PathSum(closed[..i + 1], Shoelace(points))
    {
      var p, q := points[i], points[(i + 1) % |points|];
      WrapsAround(|points|, i);
      ClosedPathStep(|points|, i, Shoelace(points));
      area := area + (p.x * q.y - q.x * p.y);
    }
    assert closed[..|closed|] == closed;
    area := area * 0.5;
  }

  /** The search for an ear (the loop over `idx`, and in it the loop over `other`). */
  method FindEar(points: seq<Point>, positive: bool, indices: seq<nat>) returns (found: bool, at: nat)
    requires InRange(points, indices)
    ensures at == FirstEar(points, positive, indices, 0) && found == (at < |indices|)
  {
    hide Cross2, PointInTriangle;
    at := 0;
    while at < |indices|
      invariant at <= |indices|
      invariant FirstEar(points, positive, indices, 0) == FirstEar(points, positive, indices, at)
    {
      var t := EarAt(indices, at);
      var cross := Cross2(points[t.i], points[t.j], points[t.k]);
      if (positive && cross <= EPS) || (!positive && cross >= -EPS) {
        at := at + 1;
        continue;
      }
      var blocked := false;
      var k := 0;
      while k < |indices| && !blocked
        invariant k <= |indices|
        invariant blocked ==> Blocked(points, indices, t)
        invariant !blocked ==> forall l :: 0 <= l < k ==>
            !(!IsCorner(t, indices[l]) && PointInTriangle(points[indices[l]], points[t.i], points[t.j], points[t.k]))
      {
        var other := indices[k];
        if !IsCorner(t, other) && PointInTriangle(points[other], points[t.i], points[t.j], points[t.k]) {
          blocked := true;
        }
        k := k + 1;
      }
      if !blocked {
        return true, at;
      }
      at := at + 1;
    }
    found := false;
  }

  lemma ClipStep(points: seq<Point>, positive: bool, s: seq<nat>, done: seq<Triangle>)
    requires InRange(points, s) && |s| > 3 && FirstEar(points, positive, s, 0) < |s|
    ensures var idx := FirstEar(points, positive, s, 0);
            var rest := Without(s, idx);
            && |rest| == |s| - 1 && InRange(points, rest)
            && done + Clip(points, positive, s).0 == done + [EarAt(s, idx)] + Clip(points, positive, rest).0
            && Clip(points, positive, s).1 == Clip(points, positive, rest).1
  {
    var idx := FirstEar(points, positive, s, 0);
    var rest := Clip(points, positive, Without(s, idx));
    assert Clip(points, positive, s) == ([EarAt(s, idx)] + rest.0, rest.1);
    Associative(done, [EarAt(s, idx)], rest.0);
  }

  lemma Associative<T>(a: seq<T>, b: seq<T>, c: seq<T>)
    ensures a + (b + c) == a + b + c
  {
  }

  lemma SquareIsAmple(n: nat)
    requires n >= 3
    ensures n * n >= 3 * n
  {
  }

  /** Clips ears until three indices remain, no ear is found, or the guard runs out. The result is the
      unguarded specification's, so the guard is never what ends the loop. */
  method TriangulatePolygon(points: seq<Point>) returns (triangles: seq<Triangle>)
    ensures triangles == Triangulation(points)
  {
    if |points| < 3 {
      return [];
    }
    var area := PolygonSignedArea(points);
    var windingPositive := area > 0.0;
    assert windingPositive == Positive(points);
    var indices := Range(|points|);
    triangles := [];
    var guard := 0;
    var limit := |points| * |points|;
    SquareIsAmple(|points|);
    var earFound := true;
    assert [] + Clip(points, windingPositive, indices).0 == Ears(points);
    while |indices| > 3 && guard < limit && earFound
      invariant InRange(points, indices) && 3 <= |indices| <= |points|
      invariant guard <= |points| - |indices| + if earFound then 0 else 1
      invariant !earFound ==> |indices| > 3 && FirstEar(points, windingPositive, indices, 0) == |indices|
      invariant triangles + Clip(points, windingPositive, indices).0 == Ears(points)
      invariant Clip(points, windingPositive, indices).1 == Left(points)
      decreases |indices|, earFound
    {
      guard := guard + 1;
      var idx;
      earFound, idx := FindEar(points, windingPositive, indices);
      if earFound {
        ClipStep(points, windingPositive, indices, triangles);
        triangles := triangles + [EarAt(indices, idx)];
        indices := Without(indices, idx);
      }
    }
    assert Clip(points, windingPositive, indices) == ([], indices);
    assert triangles + [] == triangles;
    if |indices| == 3 {
      triangles := triangles + [Triangle(indices[0], indices[1], indices[2])];
    }
  }

  /** The triangles `_add_polygon` draws: the triangulation, or a fan when it is empty. */
  function DrawnTriangles(points: seq<Point>): seq<Triangle> {
    if |points| < 3 then []
    else if Triangulation(points) == [] then Fan(|points|)
    else Triangulation(points)
  }

  method AddPolygonTriangles(points: seq<Point>) returns (triangles: seq<Triangle>)
    ensures triangles == DrawnTriangles(points)
  {
    if |points| < 3 {
      return [];
    }
    triangles := TriangulatePolygon(points);
    if triangles == [] {
      ghost var fan := Fan(|points|);
      for i := 1 to |points| - 1
        invariant triangles == fan[..i - 1]
      {
        assert fan[..i] == fan[..i - 1] + [fan[i - 1]];
        triangles := triangles + [Triangle(0, i, i + 1)];
      }
    }
  }

  lemma {:induction false} ClipInRange(points: seq<Point>, positive: bool, s: seq<nat>)
    requires InRange(points, s)
    ensures forall t :: t in Clip(points, positive, s).0 ==> t.i < |points| && t.j < |points| && t.k < |points|
    decreases |s|
  {
    if |s| > 3 && FirstEar(points, positive, s, 0) < |s| {
      ClipInRange(points, positive, Without(s, FirstEar(points, positive, s, 0)));
    }
  }

  lemma TriangulationInRange(points: seq<Point>)
    ensures forall t :: t in Triangulation(points) ==> t.i < |points| && t.j < |points| && t.k < |points|
  {
    ClipInRange(points, Positive(points), Range(|points|));
  }
}
