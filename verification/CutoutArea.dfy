/** The rectangles' areas add up to the area of the wall minus the union of its cut-outs, where the
    latter is measured independently, on a grid through all coordinates. */
module CutoutArea {
  import opened Geometry
  import opened CutoutSlabs
  import opened CutoutTheorems

  /** The Riemann sum of `f` over the cells of a coordinate list, sampled at lower ends. */
  ghost function LineSum(xs: seq<real>, f: real -> real): real {
    if |xs| < 2 then 0.0 else (xs[1] - xs[0]) * f(xs[0]) + LineSum(xs[1..], f)
  }

  /** `f` along the row at height `y`. */
  ghost function At(f: (real, real) -> real, y: real): real -> real {
    x => f(x, y)
  }

  /** The sum of each row. */
  ghost function Rows(xs: seq<real>, f: (real, real) -> real): real -> real {
    y => LineSum(xs, At(f, y))
  }

  /** The Riemann sum over the cells of a grid. */
  ghost function GridSum(xs: seq<real>, ys: seq<real>, f: (real, real) -> real): real {
    LineSum(ys, Rows(xs, f))
  }

  ghost function WallAt(outer: Box, holes: seq<Box>): (real, real) -> real {
    (x, y) => if Wall(outer, holes, x, y) then 1.0 else 0.0
  }

  ghost function CountAt(rects: seq<Box>): (real, real) -> real {
    (x, y) => Count(rects, x, y)
  }

  ghost function HitAt(r: Box): (real, real) -> real {
    (x, y) => Hit(r, x, y)
  }

  ghost function Zero(): real -> real {
    x => 0.0
  }

  /** The area of the wall minus the union of the cut-outs: the sum of the grid cells whose lower left
      corner is wall. No slab, span or rectangle of the sweep appears here. */
  ghost function WallArea(xs: seq<real>, ys: seq<real>, outer: Box, holes: seq<Box>): real {
    GridSum(xs, ys, WallAt(outer, holes))
  }

  ghost function TotalArea(rects: seq<Box>): real {
    if rects == [] then 0.0 else rects[0].Area() + TotalArea(rects[1..])
  }

  /** How many of the rectangles contain a point. */
  ghost function Count(rects: seq<Box>, x: real, y: real): real {
    if rects == [] then 0.0 else Hit(rects[0], x, y) + Count(rects[1..], x, y)
  }

  ghost function Hit(r: Box, x: real, y: real): real {
    if r.Contains(x, y) then 1.0 else 0.0
  }

  ghost predicate Agree(xs: seq<real>, f: real -> real, g: real -> real) {
    forall x :: x in xs ==> f(x) == g(x)
  }

  lemma {:induction false} LineSumCongruent(xs: seq<real>, f: real -> real, g: real -> real)
    requires Agree(xs, f, g)
    ensures LineSum(xs, f) == LineSum(xs, g)
  {
    if |xs| >= 2 {
      LineSumCongruent(xs[1..], f, g);
    }
  }

  lemma {:induction false} LineSumAdds(xs: seq<real>, f: real -> real, g: real -> real, h: real -> real)
    requires forall x :: x in xs ==> h(x) == f(x) + g(x)
    ensures LineSum(xs, h) == LineSum(xs, f) + LineSum(xs, g)
  {
    if |xs| >= 2 {
      var w, x := xs[1] - xs[0], xs[0];
      LineSumAdds(xs[1..], f, g, h);
      assert w * h(x) == w * f(x) + w * g(x);
    }
  }

  ghost function Scaled(k: real, g: real -> real): real -> real {
    x => k * g(x)
  }

  lemma {:induction false} LineSumScales(xs: seq<real>, k: real, g: real -> real)
    ensures LineSum(xs, Scaled(k, g)) == k * LineSum(xs, g)
  {
    if |xs| >= 2 {
      var w, x := xs[1] - xs[0], xs[0];
      LineSumScales(xs[1..], k, g);
      assert w * (k * g(x)) == k * (w * g(x));
      assert k * LineSum(xs, g) == k * (w * g(x)) + k * LineSum(xs[1..], g);
    }
  }

  ghost function Inside(a: real, b: real): real -> real {
    x => if a <= x < b then 1.0 else 0.0
  }

  lemma {:induction false} LineSumAbove(xs: seq<real>, a: real, b: real)
    requires Increasing(xs) && xs != [] && b <= xs[0]
    ensures LineSum(xs, Inside(a, b)) == 0.0
  {
    if |xs| >= 2 {
      LineSumAbove(xs[1..], a, b);
    }
  }

  /** The sum of the indicator of everything below `b`. */
  lemma {:induction false} LineSumBelow(xs: seq<real>, a: real, b: real)
    requires Increasing(xs) && b in xs && a <= xs[0]
    ensures LineSum(xs, Inside(a, b)) == b - xs[0]
  {
    if b == xs[0] {
      LineSumAbove(xs, a, b);
    } else {
      assert xs == [xs[0]] + xs[1..];
      assert xs[0] < b by {
        var k :| 0 <= k < |xs| && xs[k] == b;
      }
      LineSumBelow(xs[1..], a, b);
    }
  }

  /** The sum of an interval's indicator is the interval's length. */
  lemma {:induction false} LineSumInterval(xs: seq<real>, a: real, b: real)
    requires Increasing(xs) && a in xs && b in xs && a <= b
    ensures LineSum(xs, Inside(a, b)) == b - a
  {
    if a == xs[0] {
      LineSumBelow(xs, a, b);
    } else {
      var k :| 0 <= k < |xs| && xs[k] == a;
      var l :| 0 <= l < |xs| && xs[l] == b;
      assert xs[0] < a && xs[1..][k - 1] == a;
      assert l > 0 && xs[1..][l - 1] == b;
      LineSumInterval(xs[1..], a, b);
    }
  }

  lemma {:induction false} LineSumZero(xs: seq<real>)
    ensures LineSum(xs, Zero()) == 0.0
  {
    if |xs| >= 2 {
      LineSumZero(xs[1..]);
    }
  }

  /** One row of a rectangle's indicator. */
  lemma RectangleRow(xs: seq<real>, r: Box, y: real)
    requires Increasing(xs) && r.x0 in xs && r.x1 in xs && r.x0 <= r.x1
    ensures Rows(xs, HitAt(r))(y) == Scaled(r.x1 - r.x0, Inside(r.y0, r.y1))(y)
  {
    if r.y0 <= y < r.y1 {
      LineSumCongruent(xs, At(HitAt(r), y), Inside(r.x0, r.x1));
      LineSumInterval(xs, r.x0, r.x1);
    } else {
      LineSumCongruent(xs, At(HitAt(r), y), Zero());
      LineSumZero(xs);
    }
  }

  lemma RectangleRows(xs: seq<real>, ys: seq<real>, r: Box)
    requires Increasing(xs) && r.x0 in xs && r.x1 in xs && r.x0 <= r.x1
    ensures GridSum(xs, ys, HitAt(r)) == LineSum(ys, Scaled(r.x1 - r.x0, Inside(r.y0, r.y1)))
  {
    forall y | y in ys ensures Rows(xs, HitAt(r))(y) == Scaled(r.x1 - r.x0, Inside(r.y0, r.y1))(y) {
      RectangleRow(xs, r, y);
    }
    LineSumCongruent(ys, Rows(xs, HitAt(r)), Scaled(r.x1 - r.x0, Inside(r.y0, r.y1)));
  }

  lemma ScaledInterval(ys: seq<real>, w: real, a: real, b: real)
    requires Increasing(ys) && a in ys && b in ys && a <= b
    ensures LineSum(ys, Scaled(w, Inside(a, b))) == w * (b - a)
  {
    LineSumScales(ys, w, Inside(a, b));
    LineSumInterval(ys, a, b);
  }

  /** The grid sum of one rectangle's indicator is its area. */
  lemma RectangleSum(xs: seq<real>, ys: seq<real>, r: Box)
    requires Increasing(xs) && Increasing(ys)
    requires r.x0 in xs && r.x1 in xs && r.y0 in ys && r.y1 in ys && r.x0 <= r.x1 && r.y0 <= r.y1
    ensures GridSum(xs, ys, HitAt(r)) == r.Area()
  {
    RectangleRows(xs, ys, r);
    ScaledInterval(ys, r.x1 - r.x0, r.y0, r.y1);
  }

  ghost predicate IsSum(f: (real, real) -> real, g: (real, real) -> real, h: (real, real) -> real) {
    forall x, y :: h(x, y) == f(x, y) + g(x, y)
  }

  lemma RowAdds(xs: seq<real>, f: (real, real) -> real, g: (real, real) -> real, h: (real, real) -> real, y: real)
    requires IsSum(f, g, h)
    ensures Rows(xs, h)(y) == Rows(xs, f)(y) + Rows(xs, g)(y)
  {
    LineSumAdds(xs, At(f, y), At(g, y), At(h, y));
  }

  lemma GridSumAdds(xs: seq<real>, ys: seq<real>, f: (real, real) -> real, g: (real, real) -> real, h: (real, real) -> real)
    requires IsSum(f, g, h)
    ensures GridSum(xs, ys, h) == GridSum(xs, ys, f) + GridSum(xs, ys, g)
  {
    forall y | y in ys ensures Rows(xs, h)(y) == Rows(xs, f)(y) + Rows(xs, g)(y) {
      RowAdds(xs, f, g, h, y);
    }
    LineSumAdds(ys, Rows(xs, f), Rows(xs, g), Rows(xs, h));
  }

  lemma GridSumCongruent(xs: seq<real>, ys: seq<real>, f: (real, real) -> real, g: (real, real) -> real)
    requires forall x, y :: f(x, y) == g(x, y)
    ensures GridSum(xs, ys, f) == GridSum(xs, ys, g)
  {
    forall y | y in ys ensures Rows(xs, f)(y) == Rows(xs, g)(y) {
      LineSumCongruent(xs, At(f, y), At(g, y));
    }
    LineSumCongruent(ys, Rows(xs, f), Rows(xs, g));
  }

  ghost predicate CornersOn(xs: seq<real>, ys: seq<real>, rects: seq<Box>) {
    forall r :: r in rects ==> r.x0 in xs && r.x1 in xs && r.y0 in ys && r.y1 in ys && r.x0 <= r.x1 && r.y0 <= r.y1
  }

  /** Summing how often each cell is covered gives the total area, overlaps counted. */
  lemma {:induction false} CountSumsToArea(xs: seq<real>, ys: seq<real>, rects: seq<Box>)
    requires Increasing(xs) && Increasing(ys) && CornersOn(xs, ys, rects)
    ensures GridSum(xs, ys, CountAt(rects)) == TotalArea(rects)
  {
    if rects == [] {
      forall y | y in ys ensures Rows(xs, CountAt(rects))(y) == Zero()(y) {
        LineSumCongruent(xs, At(CountAt(rects), y), Zero());
        LineSumZero(xs);
      }
      LineSumCongruent(ys, Rows(xs, CountAt(rects)), Zero());
      LineSumZero(ys);
    } else {
      var rest := rects[1..];
      assert rects[0] in rects && forall r :: r in rest ==> r in rects;
      CountSumsToArea(xs, ys, rest);
      RectangleSum(xs, ys, rects[0]);
      GridSumAdds(xs, ys, HitAt(rects[0]), CountAt(rest), CountAt(rects));
    }
  }

  /** For disjoint rectangles the count is the indicator of the covered set. */
  lemma {:induction false} CountIsCovered(rects: seq<Box>, x: real, y: real)
    requires Disjoint(rects)
    ensures Count(rects, x, y) == if Covered(rects, x, y) then 1.0 else 0.0
  {
    if rects != [] {
      var rest := rects[1..];
      CountIsCovered(rest, x, y);
      assert rects == [rects[0]] + rest;
      if rects[0].Contains(x, y) {
        assert rects[0] in rects;
        forall j | 0 <= j < |rest| ensures !rest[j].Contains(x, y) {
          assert Apart(rects[0], rects[j + 1]);
        }
      }
    }
  }

  ghost function KeptAt(outer: Box, holes: seq<Box>): (real, real) -> real {
    (x, y) => if Kept(outer, holes, x, y) then 1.0 else 0.0
  }

  /** For any input the rectangles' areas sum to the area of the painted set, measured on any grid that runs
      through every coordinate of the drawing. */
  lemma PaintedArea(outer: Box, holes: seq<Box>, rects: seq<Box>, xs: seq<real>, ys: seq<real>)
    requires Disjoint(rects) && OnGrid(outer, holes, rects)
    requires forall x, y :: Covered(rects, x, y) <==> Kept(outer, holes, x, y)
    requires Increasing(xs) && Increasing(ys)
    requires forall v :: IsX(outer, holes, v) ==> v in xs
    requires forall v :: IsY(outer, holes, v) ==> v in ys
    ensures TotalArea(rects) == GridSum(xs, ys, KeptAt(outer, holes))
  {
    CountSumsToArea(xs, ys, rects);
    forall x, y ensures CountAt(rects)(x, y) == KeptAt(outer, holes)(x, y) {
      CountIsCovered(rects, x, y);
      assert Covered(rects, x, y) <==> Kept(outer, holes, x, y);
    }
    GridSumCongruent(xs, ys, CountAt(rects), KeptAt(outer, holes));
  }

  /** Area conservation: where the slabs are exact, and for any number of overlapping cut-outs, the
      rectangles' areas sum to the area of the wall minus the union of the cut-outs. */
  lemma AreaConserved(outer: Box, holes: seq<Box>, rects: seq<Box>, xs: seq<real>, ys: seq<real>)
    requires outer.y0 <= outer.y1 && Upright(holes) && SlabsExact(outer, holes)
    requires Disjoint(rects) && OnGrid(outer, holes, rects)
    requires forall x, y :: Covered(rects, x, y) <==> Kept(outer, holes, x, y)
    requires Increasing(xs) && Increasing(ys)
    requires forall v :: IsX(outer, holes, v) ==> v in xs
    requires forall v :: IsY(outer, holes, v) ==> v in ys
    ensures TotalArea(rects) == WallArea(xs, ys, outer, holes)
  {
    PaintedArea(outer, holes, rects, xs, ys);
    ExactSlabBySlab(outer, holes);
    forall x, y ensures KeptAt(outer, holes)(x, y) == WallAt(outer, holes)(x, y) {
      assert Kept(outer, holes, x, y) <==> Wall(outer, holes, x, y);
    }
    GridSumCongruent(xs, ys, KeptAt(outer, holes), WallAt(outer, holes));
  }
}
