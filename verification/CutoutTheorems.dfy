/** When the slab sweep's rectangles are exactly the wall minus its cut-outs. */
module CutoutTheorems {
  import opened Geometry
  import opened CutoutSlabs

  /** Distinct coordinates are far enough apart for the tolerances to play no part. */
  ghost predicate Separated(outer: Box, holes: seq<Box>) {
    && (forall u, v :: IsY(outer, holes, u) && IsY(outer, holes, v) && u < v ==> v - u > 2.0 * EPS)
    && (forall u, v :: IsX(outer, holes, u) && IsX(outer, holes, v) && u < v ==> v - u > EPS)
  }

  /** `y` lies between the lowest and the highest y value of the wall and its cut-outs. */
  ghost predicate InYRange(outer: Box, holes: seq<Box>, y: real) {
    exists lo, hi :: IsY(outer, holes, lo) && IsY(outer, holes, hi) && lo <= y < hi
  }

  /** What the sweep leaves: the wall, stretched to the cut-outs' y range, minus the cut-outs. */
  ghost predicate Remains(outer: Box, holes: seq<Box>, x: real, y: real) {
    outer.x0 <= x < outer.x1 && InYRange(outer, holes, y) && !InSomeHole(holes, x, y)
  }

  /** What it should leave. */
  ghost predicate Wall(outer: Box, holes: seq<Box>, x: real, y: real) {
    outer.Contains(x, y) && !InSomeHole(holes, x, y)
  }

  // ------------------------------------------------------------------
  // Nearest coordinates around a point
  // ------------------------------------------------------------------

  /** The highest y value at or below `y`. */
  lemma FloorY(outer: Box, holes: seq<Box>, start: real, y: real) returns (lo: real)
    requires IsY(outer, holes, start) && start <= y
    requires start == outer.y0 || outer.y0 > y || start >= outer.y0
    requires start == outer.y1 || outer.y1 > y || start >= outer.y1
    ensures IsY(outer, holes, lo) && start <= lo <= y
    ensures forall v :: IsY(outer, holes, v) && v <= y ==> v <= lo
  {
    lo := start;
    for k := 0 to |holes|
      invariant IsY(outer, holes, lo) && start <= lo <= y
      invariant forall h :: h in holes[..k] ==> (h.y0 <= y ==> h.y0 <= lo) && (h.y1 <= y ==> h.y1 <= lo)
    {
      var h := holes[k];
      assert holes[..k + 1] == holes[..k] + [h];
      if lo < h.y0 <= y {
        lo := h.y0;
      }
      if lo < h.y1 <= y {
        lo := h.y1;
      }
    }
    assert holes[..|holes|] == holes;
  }

  /** The lowest y value above `y`. */
  lemma CeilingY(outer: Box, holes: seq<Box>, start: real, y: real) returns (hi: real)
    requires IsY(outer, holes, start) && y < start
    requires outer.y0 <= y || start <= outer.y0
    requires outer.y1 <= y || start <= outer.y1
    ensures IsY(outer, holes, hi) && y < hi <= start
    ensures forall v :: IsY(outer, holes, v) && y < v ==> hi <= v
  {
    hi := start;
    for k := 0 to |holes|
      invariant IsY(outer, holes, hi) && y < hi <= start
      invariant forall h :: h in holes[..k] ==> (y < h.y0 ==> hi <= h.y0) && (y < h.y1 ==> hi <= h.y1)
    {
      var h := holes[k];
      assert holes[..k + 1] == holes[..k] + [h];
      if y < h.y0 < hi {
        hi := h.y0;
      }
      if y < h.y1 < hi {
        hi := h.y1;
      }
    }
    assert holes[..|holes|] == holes;
  }

  /** Every y in range lies in a slab. */
  lemma SlabAround(outer: Box, holes: seq<Box>, y: real) returns (lo: real, hi: real)
    requires InYRange(outer, holes, y)
    ensures IsSlab(outer, holes, lo, hi) && lo <= y < hi
  {
    var l, h :| IsY(outer, holes, l) && IsY(outer, holes, h) && l <= y < h;
    if l < outer.y0 <= y { l := outer.y0; }
    if l < outer.y1 <= y { l := outer.y1; }
    if y < outer.y0 < h { h := outer.y0; }
    if y < outer.y1 < h { h := outer.y1; }
    lo := FloorY(outer, holes, l, y);
    hi := CeilingY(outer, holes, h, y);
  }

  /** Every hole either covers a whole slab or misses it, and the code's tolerant middle-line test
      tells the two apart. */
  lemma HoleCoversOrMissesSlab(outer: Box, holes: seq<Box>, lo: real, hi: real, h: Box)
    requires Separated(outer, holes) && IsSlab(outer, holes, lo, hi) && h in holes
    ensures Crosses(h, lo, hi) <==> h.y0 <= lo && hi <= h.y1
    ensures !Crosses(h, lo, hi) ==> h.y1 <= lo || hi <= h.y0
  {
    assert IsY(outer, holes, h.y0) && IsY(outer, holes, h.y1);
    assert IsY(outer, holes, lo) && IsY(outer, holes, hi);
  }

  /** A stretch of wall that no crossing hole enters, and that ends only at the wall's edges or at such
      holes. */
  ghost predicate IsGap(outer: Box, holes: seq<Box>, lo: real, hi: real, a: real, c: real) {
    && outer.x0 <= a < c <= outer.x1 && AllClear(holes, lo, hi, a, c)
    && (a == outer.x0 || exists h :: h in holes && Crosses(h, lo, hi) && h.x1 == a)
    && (c == outer.x1 || exists h :: h in holes && Crosses(h, lo, hi) && h.x0 == c)
  }

  /** The gap around `x`. */
  lemma GapAround(outer: Box, holes: seq<Box>, lo: real, hi: real, x: real) returns (a: real, c: real)
    requires outer.x0 <= x < outer.x1
    requires forall h :: h in holes && Crosses(h, lo, hi) ==> h.x1 <= x || x < h.x0
    ensures IsGap(outer, holes, lo, hi, a, c) && a <= x < c
    ensures IsX(outer, holes, a) && IsX(outer, holes, c)
  {
    a, c := outer.x0, outer.x1;
    for k := 0 to |holes|
      invariant outer.x0 <= a <= x < c <= outer.x1 && AllClear(holes[..k], lo, hi, a, c)
      invariant a == outer.x0 || exists h :: h in holes && Crosses(h, lo, hi) && h.x1 == a
      invariant c == outer.x1 || exists h :: h in holes && Crosses(h, lo, hi) && h.x0 == c
    {
      var h := holes[k];
      assert h in holes;
      assert holes[..k + 1] == holes[..k] + [h];
      if Crosses(h, lo, hi) {
        if h.x1 <= x {
          a := if h.x1 > a then h.x1 else a;
        } else {
          c := if h.x0 < c then h.x0 else c;
        }
      }
    }
    assert holes[..|holes|] == holes;
  }

  /** Any clear stretch that meets a gap lies within it. */
  lemma GapIsWidest(outer: Box, holes: seq<Box>, lo: real, hi: real, a: real, c: real, x: real, a2: real, c2: real)
    requires Upright(holes) && IsGap(outer, holes, lo, hi, a, c) && a <= x < c
    requires outer.x0 <= a2 <= x < c2 <= outer.x1 && AllClear(holes, lo, hi, a2, c2)
    ensures a <= a2 && c2 <= c
  {
  }

  // ------------------------------------------------------------------
  // Main results
  // ------------------------------------------------------------------

  /** With separated coordinates, and cut-outs anywhere, the kept points are exactly the stretched
      wall minus the cut-outs. */
  lemma KeptIsRemains(outer: Box, holes: seq<Box>, x: real, y: real)
    requires Separated(outer, holes)
    ensures Kept(outer, holes, x, y) <==> Remains(outer, holes, x, y)
  {
    if Kept(outer, holes, x, y) {
      var lo, hi :| IsSlab(outer, holes, lo, hi) && lo <= y < hi && hi - lo > EPS
                    && InWideGap(outer, holes, lo, hi, x);
      var a, c :| outer.x0 <= a <= x < c <= outer.x1 && c - a > EPS && AllClear(holes, lo, hi, a, c);
      forall h | h in holes ensures !h.Contains(x, y) {
        HoleCoversOrMissesSlab(outer, holes, lo, hi, h);
      }
    }
    if Remains(outer, holes, x, y) {
      var lo, hi := SlabAround(outer, holes, y);
      forall h | h in holes && Crosses(h, lo, hi) ensures h.x1 <= x || x < h.x0 {
        HoleCoversOrMissesSlab(outer, holes, lo, hi, h);
        assert !h.Contains(x, y);
      }
      var a, c := GapAround(outer, holes, lo, hi, x);
      assert InWideGap(outer, holes, lo, hi, x);
    }
  }

  // ------------------------------------------------------------------
  // Exactness, slab by slab
  // ------------------------------------------------------------------

  /** A slab lies between neighbouring y values, so a hole covers it whole or misses it. */
  predicate Spans(h: Box, lo: real, hi: real) {
    h.y0 <= lo && hi <= h.y1
  }

  /** The hole cuts some wall out of `[a, c)`. */
  predicate CutsInto(h: Box, a: real, c: real) {
    h.x0 < h.x1 && h.x0 < c && a < h.x1
  }

  /** A hole that covers the slab cuts it out at `x`. */
  ghost predicate CutAt(holes: seq<Box>, lo: real, hi: real, x: real) {
    exists h :: h in holes && Spans(h, lo, hi) && h.x0 <= x < h.x1
  }

  /** Every point of the stretch is cut out. */
  ghost predicate Filled(holes: seq<Box>, lo: real, hi: real, a: real, c: real) {
    forall x :: a <= x < c ==> CutAt(holes, lo, hi, x)
  }

  /** The tolerances do no harm in a slab of the wall: if it is too low to be painted, it is all cut out;
      otherwise no hole cuts into a gap that is painted, and a gap too narrow to be painted is all cut out. */
  ghost predicate SlabExact(outer: Box, holes: seq<Box>, lo: real, hi: real) {
    if hi - lo <= EPS then Filled(holes, lo, hi, outer.x0, outer.x1)
    else
      forall a, c :: IsGap(outer, holes, lo, hi, a, c) ==>
        if c - a > EPS then forall h :: h in holes && Spans(h, lo, hi) ==> !CutsInto(h, a, c)
        else Filled(holes, lo, hi, a, c)
  }

  /** Nothing is painted in a slab above or below the wall. */
  ghost predicate SlabBare(outer: Box, holes: seq<Box>, lo: real, hi: real) {
    hi - lo > EPS ==> forall a, c :: IsGap(outer, holes, lo, hi, a, c) ==> c - a <= EPS
  }

  ghost predicate SlabsExact(outer: Box, holes: seq<Box>) {
    forall lo, hi :: IsSlab(outer, holes, lo, hi) ==>
      if outer.y0 <= lo && hi <= outer.y1 then SlabExact(outer, holes, lo, hi) else SlabBare(outer, holes, lo, hi)
  }

  lemma SlabFacts(outer: Box, holes: seq<Box>, lo: real, hi: real, h: Box, y: real)
    requires IsSlab(outer, holes, lo, hi) && h in holes && lo <= y < hi
    ensures Spans(h, lo, hi) <==> h.y0 <= y < h.y1
    ensures Crosses(h, lo, hi) ==> Spans(h, lo, hi)
  {
    assert IsY(outer, holes, h.y0) && IsY(outer, holes, h.y1);
  }

  lemma OneSlab(outer: Box, holes: seq<Box>, lo: real, hi: real, lo2: real, hi2: real, y: real)
    requires IsSlab(outer, holes, lo, hi) && IsSlab(outer, holes, lo2, hi2) && lo <= y < hi && lo2 <= y < hi2
    ensures lo == lo2 && hi == hi2
  {
  }

  lemma InWall(outer: Box, lo: real, hi: real, y: real, holes: seq<Box>)
    requires IsSlab(outer, holes, lo, hi) && lo <= y < hi && outer.y0 <= outer.y1
    ensures outer.y0 <= lo && hi <= outer.y1 <==> outer.y0 <= y < outer.y1
  {
    assert IsY(outer, holes, outer.y0) && IsY(outer, holes, outer.y1);
  }

  lemma ExactKeptIsWall(outer: Box, holes: seq<Box>, x: real, y: real)
    requires outer.y0 <= outer.y1 && Upright(holes) && SlabsExact(outer, holes) && Kept(outer, holes, x, y)
    ensures Wall(outer, holes, x, y)
  {
    var lo, hi :| IsSlab(outer, holes, lo, hi) && lo <= y < hi && hi - lo > EPS && InWideGap(outer, holes, lo, hi, x);
    var a2, c2 :| outer.x0 <= a2 <= x < c2 <= outer.x1 && c2 - a2 > EPS && AllClear(holes, lo, hi, a2, c2);
    var a, c := GapAround(outer, holes, lo, hi, x);
    GapIsWidest(outer, holes, lo, hi, a, c, x, a2, c2);
    InWall(outer, lo, hi, y, holes);
    forall h | h in holes ensures !h.Contains(x, y) {
      SlabFacts(outer, holes, lo, hi, h, y);
      assert Spans(h, lo, hi) ==> !CutsInto(h, a, c);
    }
  }

  lemma ExactWallIsKept(outer: Box, holes: seq<Box>, x: real, y: real)
    requires outer.y0 <= outer.y1 && SlabsExact(outer, holes) && Wall(outer, holes, x, y)
    ensures Kept(outer, holes, x, y)
  {
    assert IsY(outer, holes, outer.y0) && IsY(outer, holes, outer.y1);
    var lo, hi := SlabAround(outer, holes, y);
    InWall(outer, lo, hi, y, holes);
    forall h | h in holes && Spans(h, lo, hi) ensures h.x1 <= x || x < h.x0 {
      SlabFacts(outer, holes, lo, hi, h, y);
      assert !h.Contains(x, y);
    }
    forall h | h in holes && Crosses(h, lo, hi) ensures h.x1 <= x || x < h.x0 {
      SlabFacts(outer, holes, lo, hi, h, y);
    }
    assert !CutAt(holes, lo, hi, x);
    var a, c := GapAround(outer, holes, lo, hi, x);
    assert SlabExact(outer, holes, lo, hi);
    assert hi - lo > EPS && c - a > EPS;
    assert InWideGap(outer, holes, lo, hi, x);
  }

  ghost predicate PaintsWall(outer: Box, holes: seq<Box>) {
    forall x, y :: Kept(outer, holes, x, y) <==> Wall(outer, holes, x, y)
  }

  /** Where the sweep paints exactly the wall, an unpainted stretch of it is all cut out. */
  lemma UnpaintedIsFilled(outer: Box, holes: seq<Box>, lo: real, hi: real, a: real, c: real)
    requires outer.y0 <= outer.y1 && PaintsWall(outer, holes) && IsSlab(outer, holes, lo, hi)
    requires outer.y0 <= lo && hi <= outer.y1 && outer.x0 <= a && c <= outer.x1
    requires forall x :: a <= x < c ==> !(hi - lo > EPS && InWideGap(outer, holes, lo, hi, x))
    ensures Filled(holes, lo, hi, a, c)
  {
    forall x | a <= x < c ensures CutAt(holes, lo, hi, x) {
      if Kept(outer, holes, x, lo) {
        var lo2, hi2 :| IsSlab(outer, holes, lo2, hi2) && lo2 <= lo < hi2 && hi2 - lo2 > EPS
                        && InWideGap(outer, holes, lo2, hi2, x);
        OneSlab(outer, holes, lo, hi, lo2, hi2, lo);
      }
      assert !Wall(outer, holes, x, lo);
      var h :| h in holes && h.Contains(x, lo);
      SlabFacts(outer, holes, lo, hi, h, lo);
    }
  }

  lemma NarrowGap(outer: Box, holes: seq<Box>, lo: real, hi: real, a: real, c: real)
    requires Upright(holes) && IsGap(outer, holes, lo, hi, a, c) && c - a <= EPS
    ensures forall x :: a <= x < c ==> !InWideGap(outer, holes, lo, hi, x)
  {
    forall x | a <= x < c ensures !InWideGap(outer, holes, lo, hi, x) {
      forall a2, c2 | outer.x0 <= a2 <= x < c2 <= outer.x1 && AllClear(holes, lo, hi, a2, c2) ensures c2 - a2 <= EPS {
        GapIsWidest(outer, holes, lo, hi, a, c, x, a2, c2);
      }
    }
  }

  lemma PaintedIsUncut(outer: Box, holes: seq<Box>, lo: real, hi: real, a: real, c: real, h: Box)
    requires PaintsWall(outer, holes) && IsSlab(outer, holes, lo, hi) && hi - lo > EPS
    requires IsGap(outer, holes, lo, hi, a, c) && c - a > EPS && h in holes && Spans(h, lo, hi)
    ensures !CutsInto(h, a, c)
  {
    if CutsInto(h, a, c) {
      var x := if h.x0 > a then h.x0 else a;
      assert InWideGap(outer, holes, lo, hi, x);
      assert Kept(outer, holes, x, lo);
      assert Wall(outer, holes, x, lo) && h.Contains(x, lo);
    }
  }

  lemma PaintedIsInWall(outer: Box, holes: seq<Box>, lo: real, hi: real, a: real, c: real)
    requires outer.y0 <= outer.y1 && PaintsWall(outer, holes) && IsSlab(outer, holes, lo, hi) && hi - lo > EPS
    requires IsGap(outer, holes, lo, hi, a, c) && c - a > EPS
    ensures outer.y0 <= lo && hi <= outer.y1
  {
    assert InWideGap(outer, holes, lo, hi, a);
    assert Kept(outer, holes, a, lo);
    assert Wall(outer, holes, a, lo);
    InWall(outer, lo, hi, lo, holes);
  }

  /** For any outline and any cut-outs at all: the sweep paints exactly the wall minus its cut-outs if and
      only if it does so slab by slab. */
  lemma ExactSlabBySlab(outer: Box, holes: seq<Box>)
    requires outer.y0 <= outer.y1 && Upright(holes)
    ensures PaintsWall(outer, holes) <==> SlabsExact(outer, holes)
  {
    if SlabsExact(outer, holes) {
      forall x, y ensures Kept(outer, holes, x, y) <==> Wall(outer, holes, x, y) {
        if Kept(outer, holes, x, y) {
          ExactKeptIsWall(outer, holes, x, y);
        }
        if Wall(outer, holes, x, y) {
          ExactWallIsKept(outer, holes, x, y);
        }
      }
    }
    if PaintsWall(outer, holes) {
      forall lo, hi | IsSlab(outer, holes, lo, hi)
        ensures if outer.y0 <= lo && hi <= outer.y1 then SlabExact(outer, holes, lo, hi) else SlabBare(outer, holes, lo, hi)
      {
        PaintedSlab(outer, holes, lo, hi);
      }
    }
  }

  lemma PaintedSlab(outer: Box, holes: seq<Box>, lo: real, hi: real)
    requires outer.y0 <= outer.y1 && Upright(holes) && PaintsWall(outer, holes) && IsSlab(outer, holes, lo, hi)
    ensures if outer.y0 <= lo && hi <= outer.y1 then SlabExact(outer, holes, lo, hi) else SlabBare(outer, holes, lo, hi)
  {
    var inside := outer.y0 <= lo && hi <= outer.y1;
    if hi - lo <= EPS {
      if inside {
        UnpaintedIsFilled(outer, holes, lo, hi, outer.x0, outer.x1);
      }
    } else {
      forall a, c | IsGap(outer, holes, lo, hi, a, c)
        ensures c - a > EPS ==> inside && forall h :: h in holes && Spans(h, lo, hi) ==> !CutsInto(h, a, c)
        ensures c - a <= EPS && inside ==> Filled(holes, lo, hi, a, c)
      {
        if c - a > EPS {
          PaintedIsInWall(outer, holes, lo, hi, a, c);
          forall h | h in holes && Spans(h, lo, hi) ensures !CutsInto(h, a, c) {
            PaintedIsUncut(outer, holes, lo, hi, a, c, h);
          }
        } else if inside {
          NarrowGap(outer, holes, lo, hi, a, c);
          UnpaintedIsFilled(outer, holes, lo, hi, a, c);
        }
      }
    }
  }

  // ------------------------------------------------------------------
  // Coordinates far apart
  // ------------------------------------------------------------------

  /** Any part of the stretched wall above or below the real one is covered by cut-outs. */
  ghost predicate OverhangsAreHoles(outer: Box, holes: seq<Box>) {
    forall x, y :: outer.x0 <= x < outer.x1 && InYRange(outer, holes, y) && !(outer.y0 <= y < outer.y1)
                   ==> InSomeHole(holes, x, y)
  }

  /** With separated coordinates the sweep gives the wall minus its cut-outs exactly when the strips by which cut-outs stick
      out above or below the wall are themselves all cut out. */
  lemma ExactIffOverhangsAreHoles(outer: Box, holes: seq<Box>)
    requires Separated(outer, holes) && outer.y0 <= outer.y1
    ensures PaintsWall(outer, holes) <==> OverhangsAreHoles(outer, holes)
  {
    assert IsY(outer, holes, outer.y0) && IsY(outer, holes, outer.y1);
    forall x, y
      ensures Kept(outer, holes, x, y) <==> Remains(outer, holes, x, y)
    {
      KeptIsRemains(outer, holes, x, y);
    }
    assert forall y :: outer.y0 <= y < outer.y1 ==> InYRange(outer, holes, y);
    if PaintsWall(outer, holes) {
      forall x, y | outer.x0 <= x < outer.x1 && InYRange(outer, holes, y) && !(outer.y0 <= y < outer.y1)
        ensures InSomeHole(holes, x, y)
      {
        assert Kept(outer, holes, x, y) <==> Wall(outer, holes, x, y);
      }
    }
  }

  ghost predicate HolesWithinWall(outer: Box, holes: seq<Box>) {
    forall h :: h in holes ==> outer.y0 <= h.y0 && h.y1 <= outer.y1
  }

  /** The simplest case: coordinates far apart and cut-outs within the wall's y range. */
  lemma SeparatedIsExact(outer: Box, holes: seq<Box>)
    requires Separated(outer, holes) && outer.y0 <= outer.y1 && Upright(holes) && HolesWithinWall(outer, holes)
    ensures SlabsExact(outer, holes)
  {
    assert OverhangsAreHoles(outer, holes);
    ExactIffOverhangsAreHoles(outer, holes);
    ExactSlabBySlab(outer, holes);
  }

  // ------------------------------------------------------------------
  // The partition
  // ------------------------------------------------------------------

  /** A point of the wall outside the cut-outs lies in exactly one rectangle, any other point in none. */
  ghost predicate Partitioned(outer: Box, holes: seq<Box>, rects: seq<Box>, x: real, y: real) {
    if Wall(outer, holes, x, y) then
      exists i :: 0 <= i < |rects| && rects[i].Contains(x, y)
                  && forall j :: 0 <= j < |rects| && rects[j].Contains(x, y) ==> j == i
    else forall i :: 0 <= i < |rects| ==> !rects[i].Contains(x, y)
  }

  lemma DisjointPartition(outer: Box, holes: seq<Box>, rects: seq<Box>, x: real, y: real)
    requires Disjoint(rects)
    ensures Partitioned(outer, holes, rects, x, y) <==> (Covered(rects, x, y) <==> Wall(outer, holes, x, y))
  {
    if Covered(rects, x, y) {
      var r :| r in rects && r.Contains(x, y);
      var i :| 0 <= i < |rects| && rects[i] == r;
      forall j | 0 <= j < |rects| && j != i ensures !rects[j].Contains(x, y) {
        assert if j < i then Apart(rects[j], rects[i]) else Apart(rects[i], rects[j]);
      }
    }
  }

  /** The sweep's rectangles partition the wall minus its cut-outs if and only if its slabs are exact.
      Stated of any list with the sweep's postcondition, for any input. */
  lemma SlabPartition(outer: Box, holes: seq<Box>, rects: seq<Box>)
    requires outer.y0 <= outer.y1 && Upright(holes)
    requires Disjoint(rects) && forall x, y :: Covered(rects, x, y) <==> Kept(outer, holes, x, y)
    ensures (forall x, y :: Partitioned(outer, holes, rects, x, y)) <==> SlabsExact(outer, holes)
  {
    ExactSlabBySlab(outer, holes);
    forall x, y
      ensures Partitioned(outer, holes, rects, x, y) <==> (Kept(outer, holes, x, y) <==> Wall(outer, holes, x, y))
    {
      DisjointPartition(outer, holes, rects, x, y);
      assert Covered(rects, x, y) <==> Kept(outer, holes, x, y);
    }
  }

  // ------------------------------------------------------------------
  // The drawing itself
  // ------------------------------------------------------------------

  /** Both coordinates lie between those of two of the points. */
  ghost predicate Between(points: seq<Point>, x: real, y: real) {
    BetweenX(points, x) && BetweenY(points, y)
  }

  ghost predicate BetweenX(points: seq<Point>, x: real) {
    exists p, q :: p in points && q in points && p.x <= x < q.x
  }

  ghost predicate BetweenY(points: seq<Point>, y: real) {
    exists p, q :: p in points && q in points && p.y <= y < q.y
  }

  lemma BoundsAreBetween(points: seq<Point>, x: real, y: real)
    requires points != []
    ensures Bounds(points).Contains(x, y) <==> Between(points, x, y)
  {
    var b := Bounds(points);
    hide Bounds, BetweenX, BetweenY;
    SidesX(points, b, x);
    SidesY(points, b, y);
  }

  lemma SidesX(points: seq<Point>, b: Box, x: real)
    requires forall p :: p in points ==> b.x0 <= p.x <= b.x1
    requires (exists p :: p in points && p.x == b.x0) && exists p :: p in points && p.x == b.x1
    ensures b.x0 <= x < b.x1 <==> BetweenX(points, x)
  {
    var p :| p in points && p.x == b.x0;
    var q :| q in points && q.x == b.x1;
  }

  lemma SidesY(points: seq<Point>, b: Box, y: real)
    requires forall p :: p in points ==> b.y0 <= p.y <= b.y1
    requires (exists p :: p in points && p.y == b.y0) && exists p :: p in points && p.y == b.y1
    ensures b.y0 <= y < b.y1 <==> BetweenY(points, y)
  {
    var p :| p in points && p.y == b.y0;
    var q :| q in points && q.y == b.y1;
  }

  /** Between the outline's points, and not between those of any cut-out. */
  ghost predicate DrawnWall(outerPoints: seq<Point>, groups: seq<seq<Point>>, x: real, y: real) {
    Between(outerPoints, x, y) && forall k :: 0 <= k < |groups| ==> !Between(groups[k], x, y)
  }

  lemma WallOfDrawing(outerPoints: seq<Point>, groups: seq<seq<Point>>, x: real, y: real)
    requires outerPoints != []
    ensures Wall(Bounds(outerPoints), Holes(groups), x, y) <==> DrawnWall(outerPoints, groups, x, y)
  {
    hide Bounds, Between, Holes;
    BoundsAreBetween(outerPoints, x, y);
    var at := HolesInOrder(groups);
    var holes := Holes(groups);
    if k :| 0 <= k < |groups| && Between(groups[k], x, y) {
      NotBetweenNone(groups[k], x, y);
      var i :| 0 <= i < |at| && at[i] == k;
      assert IsBoxOf(holes[i], groups, k);
      BoundsAreBetween(groups[k], x, y);
      assert holes[i] in holes && holes[i].Contains(x, y);
    }
    if h :| h in holes && h.Contains(x, y) {
      var i :| 0 <= i < |holes| && holes[i] == h;
      assert IsBoxOf(h, groups, at[i]);
      BoundsAreBetween(groups[at[i]], x, y);
    }
  }

  lemma NotBetweenNone(points: seq<Point>, x: real, y: real)
    requires Between(points, x, y)
    ensures points != []
  {
  }

  /** From the point lists to the paint: what the sweep covers is what lies between the outline's points and not
      between those of a cut-out, if and only if the slabs are exact. Stated of any list with the sweep's postcondition. */
  lemma DrawingPainted(outerPoints: seq<Point>, groups: seq<seq<Point>>, rects: seq<Box>)
    requires outerPoints != []
    requires forall x, y :: Covered(rects, x, y) <==> Kept(Bounds(outerPoints), Holes(groups), x, y)
    ensures (forall x, y :: Covered(rects, x, y) <==> DrawnWall(outerPoints, groups, x, y))
            <==> SlabsExact(Bounds(outerPoints), Holes(groups))
  {
    var outer, holes := Bounds(outerPoints), Holes(groups);
    hide Bounds, Holes, SlabsExact, Covered, DrawnWall, Kept, Wall;
    ExactSlabBySlab(outer, holes);
    forall x, y ensures DrawnWall(outerPoints, groups, x, y) <==> Wall(outer, holes, x, y) {
      WallOfDrawing(outerPoints, groups, x, y);
    }
    if forall x, y :: Covered(rects, x, y) <==> DrawnWall(outerPoints, groups, x, y) {
      forall x, y ensures Kept(outer, holes, x, y) <==> Wall(outer, holes, x, y) {
        assert Covered(rects, x, y) <==> Kept(outer, holes, x, y);
        assert Covered(rects, x, y) <==> DrawnWall(outerPoints, groups, x, y);
      }
    }
    if PaintsWall(outer, holes) {
      forall x, y ensures Covered(rects, x, y) <==> DrawnWall(outerPoints, groups, x, y) {
        assert Covered(rects, x, y) <==> Kept(outer, holes, x, y);
        assert Kept(outer, holes, x, y) <==> Wall(outer, holes, x, y);
      }
    }
  }

  // ------------------------------------------------------------------
  // The two ways it can fail
  // ------------------------------------------------------------------

  /** A cut-out sticking out above the wall makes the sweep paint beside it, above the wall. */
  lemma OverhangPaintsOutsideWall()
    ensures var outer, holes := Box(0.0, 4.0, 0.0, 4.0), [Box(1.0, 2.0, 3.0, 6.0)];
            Separated(outer, holes) && Kept(outer, holes, 3.0, 5.0) && !outer.Contains(3.0, 5.0)
  {
    var outer, holes := Box(0.0, 4.0, 0.0, 4.0), [Box(1.0, 2.0, 3.0, 6.0)];
    assert holes[0] in holes;
    assert IsY(outer, holes, 4.0) && IsY(outer, holes, 6.0);
    assert InYRange(outer, holes, 5.0);
    KeptIsRemains(outer, holes, 3.0, 5.0);
  }

  /** A cut-out lower than twice the tolerance is not cut: the sweep paints over it. */
  lemma ThinHoleIsPaintedOver()
    ensures var outer, holes := Box(0.0, 1.0, 0.0, 1.0), [Box(0.25, 0.75, 0.5, 0.5000015)];
            Kept(outer, holes, 0.5, 0.500001) && InSomeHole(holes, 0.5, 0.500001)
  {
    var outer, holes := Box(0.0, 1.0, 0.0, 1.0), [Box(0.25, 0.75, 0.5, 0.5000015)];
    assert holes[0] in holes && holes[0].Contains(0.5, 0.500001);
    assert IsSlab(outer, holes, 0.5, 0.5000015);
    assert AllClear(holes, 0.5, 0.5000015, 0.0, 1.0);
    assert InWideGap(outer, holes, 0.5, 0.5000015, 0.5);
  }
}
