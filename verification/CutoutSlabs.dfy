/** The slab sweep that turns a wall with rectangular cut-outs into rectangles. */
module CutoutSlabs {
  import opened Common
  import opened Geometry

  /** A horizontal stretch of wall `[lo, hi)` inside one slab. */
  datatype Span = Span(lo: real, hi: real)

  // ------------------------------------------------------------------
  // What the sweep is meant to compute
  // ------------------------------------------------------------------

  /** The bounding boxes of the non-empty cut-out groups, in order. */
  function Holes(groups: seq<seq<Point>>): (holes: seq<Box>)
    ensures forall h :: h in holes ==> h.x0 <= h.x1 && h.y0 <= h.y1
  {
    if groups == [] then []
    else
      var front, last := groups[..|groups| - 1], groups[|groups| - 1];
      Holes(front) + if last == [] then [] else [Bounds(last)]
  }

  /** One box for each non-empty group and none for an empty one, in the order of the groups: hole `i` is the
      bounding box of group `at[i]`. */
  ghost predicate BoxesInOrder(holes: seq<Box>, groups: seq<seq<Point>>, at: seq<nat>) {
    && |at| == |holes| && Ascending(at)
    && (forall i :: 0 <= i < |at| ==> IsBoxOf(holes[i], groups, at[i]))
    && (forall k :: 0 <= k < |groups| && groups[k] != [] ==> k in at)
  }

  ghost predicate IsBoxOf(h: Box, groups: seq<seq<Point>>, k: nat) {
    k < |groups| && groups[k] != [] && h == Bounds(groups[k])
  }

  lemma {:induction false} HolesInOrder(groups: seq<seq<Point>>) returns (at: seq<nat>)
    ensures BoxesInOrder(Holes(groups), groups, at)
  {
    if groups == [] {
      at := [];
    } else {
      var n := |groups| - 1;
      var front, last := groups[..n], groups[n];
      assert groups == front + [last];
      assert Holes(groups) == Holes(front) + if last == [] then [] else [Bounds(last)];
      hide Bounds, Holes, BoxesInOrder;
      var before := HolesInOrder(front);
      at := if last == [] then before else before + [n];
      assert last == [] ==> Holes(groups) == Holes(front);
      GroupAdds(Holes(front), front, before, last);
    }
  }

  lemma GroupAdds(holes: seq<Box>, groups: seq<seq<Point>>, at: seq<nat>, last: seq<Point>)
    requires BoxesInOrder(holes, groups, at)
    ensures last == [] ==> BoxesInOrder(holes, groups + [last], at)
    ensures last != [] ==> BoxesInOrder(holes + [Bounds(last)], groups + [last], at + [|groups|])
  {
    hide Bounds;
    var groups' := groups + [last];
    forall i | 0 <= i < |at| ensures IsBoxOf(holes[i], groups', at[i]) {
      assert IsBoxOf(holes[i], groups, at[i]);
    }
    if last != [] {
      assert IsBoxOf((holes + [Bounds(last)])[|at|], groups', |groups|);
    }
  }

  predicate Upright(holes: seq<Box>) {
    forall h :: h in holes ==> h.x0 <= h.x1 && h.y0 <= h.y1
  }

  ghost predicate IsY(outer: Box, holes: seq<Box>, v: real) {
    v == outer.y0 || v == outer.y1 || exists h :: h in holes && (v == h.y0 || v == h.y1)
  }

  ghost predicate IsX(outer: Box, holes: seq<Box>, v: real) {
    v == outer.x0 || v == outer.x1 || exists h :: h in holes && (v == h.x0 || v == h.x1)
  }

  /** `[lo, hi)` lies between two neighbouring y values of the drawing. */
  ghost predicate IsSlab(outer: Box, holes: seq<Box>, lo: real, hi: real) {
    lo < hi && IsY(outer, holes, lo) && IsY(outer, holes, hi)
    && forall v :: IsY(outer, holes, v) ==> v <= lo || hi <= v
  }

  /** The code's own test for a hole that cuts the slab: its middle line is inside the hole by
      more than the tolerance. */
  predicate Crosses(h: Box, lo: real, hi: real) {
    var mid := (lo + hi) * 0.5;
    h.y0 + EPS < mid < h.y1 - EPS
  }

  /** In distances: the slab's two edges together lie more than twice the tolerance above the hole's lower edge, and
      more than that below its upper one. */
  lemma CutDepth(h: Box, lo: real, hi: real)
    ensures Crosses(h, lo, hi) <==> (lo - h.y0) + (hi - h.y0) > 0.000002 && (h.y1 - lo) + (h.y1 - hi) > 0.000002
  {
  }

  /** The code's own test for a hole that leaves a stretch alone. */
  predicate Clear(h: Box, a: real, c: real) {
    h.x1 <= a || h.x0 >= c
  }

  ghost predicate AllClear(holes: seq<Box>, lo: real, hi: real, a: real, c: real) {
    forall h :: h in holes && Crosses(h, lo, hi) ==> Clear(h, a, c)
  }

  /** `x` lies in a hole-free stretch of the slab that is wider than the tolerance. */
  ghost predicate InWideGap(outer: Box, holes: seq<Box>, lo: real, hi: real, x: real) {
    exists a, c :: outer.x0 <= a <= x < c <= outer.x1 && c - a > EPS && AllClear(holes, lo, hi, a, c)
  }

  /** The exact point set the sweep paints, for any input at all: a slab taller than the
      tolerance, and in it a free stretch wider than the tolerance. */
  ghost predicate Kept(outer: Box, holes: seq<Box>, x: real, y: real) {
    exists lo, hi :: IsSlab(outer, holes, lo, hi) && lo <= y < hi && hi - lo > EPS
                     && InWideGap(outer, holes, lo, hi, x)
  }

  ghost predicate Covered(rects: seq<Box>, x: real, y: real) {
    exists r :: r in rects && r.Contains(x, y)
  }

  ghost predicate InSomeHole(holes: seq<Box>, x: real, y: real) {
    exists h :: h in holes && h.Contains(x, y)
  }

  /** No point lies in two of the rectangles. */
  ghost predicate Disjoint(rects: seq<Box>) {
    forall i, j :: 0 <= i < j < |rects| ==> Apart(rects[i], rects[j])
  }

  predicate Apart(r: Box, q: Box) {
    r.x1 <= q.x0 || q.x1 <= r.x0 || r.y1 <= q.y0 || q.y1 <= r.y0
  }

  /** Every rectangle has positive width and height and corners on input coordinates. */
  ghost predicate OnGrid(outer: Box, holes: seq<Box>, rects: seq<Box>) {
    forall r :: r in rects ==>
      r.x0 < r.x1 && r.y0 < r.y1
      && IsX(outer, holes, r.x0) && IsX(outer, holes, r.x1)
      && IsY(outer, holes, r.y0) && IsY(outer, holes, r.y1)
  }

  // ------------------------------------------------------------------
  // One slab
  // ------------------------------------------------------------------

  /** The invariant of the inner sweep: the spans are ordered and disjoint, avoid the holes seen
      so far, and contain every free stretch. */
  ghost predicate IsFree(spans: seq<Span>, outer: Box, holes: seq<Box>, lo: real, hi: real) {
    && Ordered(spans)
    && (forall s :: s in spans ==> outer.x0 <= s.lo && s.hi <= outer.x1 && AllClear(holes, lo, hi, s.lo, s.hi))
    && (forall a, c {:trigger Within(spans, a, c)} ::
          outer.x0 <= a < c <= outer.x1 && AllClear(holes, lo, hi, a, c) ==> Within(spans, a, c))
  }

  ghost predicate Within(spans: seq<Span>, a: real, c: real) {
    exists s :: s in spans && s.lo <= a && c <= s.hi
  }

  ghost predicate SpansOnGrid(outer: Box, holes: seq<Box>, spans: seq<Span>) {
    forall s :: s in spans ==> IsX(outer, holes, s.lo) && IsX(outer, holes, s.hi)
  }

  /** What is left of a span: the part left of the hole and the part right of it. */
  function CutOne(s: Span, h: Box): (r: seq<Span>) {
    if Clear(h, s.lo, s.hi) then [s]
    else (if h.x0 > s.lo then [Span(s.lo, h.x0)] else [])
         + (if h.x1 < s.hi then [Span(h.x1, s.hi)] else [])
  }

  function CutAll(spans: seq<Span>, h: Box): (r: seq<Span>) {
    if spans == [] then [] else CutAll(spans[..|spans| - 1], h) + CutOne(spans[|spans| - 1], h)
  }

  /** Cuts one hole out of every span (the loop over `spans`). */
  method CutHole(spans: seq<Span>, h: Box) returns (cut: seq<Span>)
    ensures cut == CutAll(spans, h)
  {
    cut := [];
    for i := 0 to |spans|
      invariant cut == CutAll(spans[..i], h)
    {
      var s := spans[i];
      assert spans[..i + 1][..i] == spans[..i];
      if Clear(h, s.lo, s.hi) {
        cut := cut + [s];
        continue;
      }
      if h.x0 > s.lo {
        cut := cut + [Span(s.lo, h.x0)];
      }
      if h.x1 < s.hi {
        cut := cut + [Span(h.x1, s.hi)];
      }
    }
    assert spans[..|spans|] == spans;
  }

  ghost predicate Ordered(spans: seq<Span>) {
    && (forall s :: s in spans ==> s.lo <= s.hi)
    && (forall i, j :: 0 <= i < j < |spans| ==> spans[i].hi <= spans[j].lo)
  }

  /** The pieces are exactly what `CutOne` leaves of the spans. */
  lemma {:induction false} CutAllPieces(spans: seq<Span>, h: Box)
    ensures forall t :: t in CutAll(spans, h) <==> exists s :: s in spans && t in CutOne(s, h)
  {
    if spans != [] {
      CutAllPieces(spans[..|spans| - 1], h);
      assert spans == spans[..|spans| - 1] + [spans[|spans| - 1]];
    }
  }

  lemma OrderedAppend(a: seq<Span>, b: seq<Span>)
    requires Ordered(a) && Ordered(b)
    requires forall s, t :: s in a && t in b ==> s.hi <= t.lo
    ensures Ordered(a + b)
  {
    forall i, j | 0 <= i < j < |a + b| ensures (a + b)[i].hi <= (a + b)[j].lo {
      if i < |a| <= j {
        assert a[i] in a && b[j - |a|] in b;
      }
    }
  }

  lemma CutOneOrdered(s: Span, h: Box)
    requires h.x0 <= h.x1 && s.lo <= s.hi
    ensures Ordered(CutOne(s, h))
    ensures forall t :: t in CutOne(s, h) ==> s.lo <= t.lo && t.hi <= s.hi
  {
  }

  lemma OrderedFront(spans: seq<Span>, n: nat)
    requires Ordered(spans) && n < |spans|
    ensures Ordered(spans[..n]) && spans[n].lo <= spans[n].hi
    ensures forall s :: s in spans[..n] ==> s.lo <= s.hi <= spans[n].lo
  {
    assert spans[n] in spans;
    forall s | s in spans[..n] ensures s in spans && s.lo <= s.hi <= spans[n].lo {
      var k :| 0 <= k < n && spans[k] == s;
    }
  }

  lemma {:induction false} CutAllOrdered(spans: seq<Span>, h: Box)
    requires h.x0 <= h.x1 && Ordered(spans)
    ensures Ordered(CutAll(spans, h))
  {
    if spans != [] {
      var n := |spans| - 1;
      OrderedFront(spans, n);
      CutAllOrdered(spans[..n], h);
      CutOneOrdered(spans[n], h);
      CutAllPieces(spans[..n], h);
      forall t | t in CutAll(spans[..n], h) ensures t.hi <= spans[n].lo {
        var s :| s in spans[..n] && t in CutOne(s, h);
        CutOneOrdered(s, h);
      }
      OrderedAppend(CutAll(spans[..n], h), CutOne(spans[n], h));
    }
  }

  /** A piece left by a crossing hole lies in its span, and is free of that hole too. */
  lemma PieceIsFree(s: Span, t: Span, h: Box, outer: Box, holes: seq<Box>, seen: seq<Box>, lo: real, hi: real)
    requires t in CutOne(s, h) && h.x0 <= h.x1 && h in holes && s.lo <= s.hi
    requires AllClear(seen, lo, hi, s.lo, s.hi) && IsX(outer, holes, s.lo) && IsX(outer, holes, s.hi)
    ensures s.lo <= t.lo && t.hi <= s.hi
    ensures AllClear(seen + [h], lo, hi, t.lo, t.hi) && IsX(outer, holes, t.lo) && IsX(outer, holes, t.hi)
  {
  }

  /** A free stretch of a span survives in one of its pieces. */
  lemma StretchSurvives(s: Span, h: Box, a: real, c: real)
    requires s.lo <= a < c <= s.hi && Clear(h, a, c) && h.x0 <= h.x1
    ensures exists t :: t in CutOne(s, h) && t.lo <= a && c <= t.hi
  {
    var t := if Clear(h, s.lo, s.hi) then s else if h.x1 <= a then Span(h.x1, s.hi) else Span(s.lo, h.x0);
    assert t in CutOne(s, h);
  }

  /** Cutting a crossing hole keeps the sweep's invariant. */
  lemma CutAllFree(spans: seq<Span>, h: Box, outer: Box, holes: seq<Box>, seen: seq<Box>, lo: real, hi: real)
    requires h.x0 <= h.x1 && h in holes && Crosses(h, lo, hi)
    requires IsFree(spans, outer, seen, lo, hi) && SpansOnGrid(outer, holes, spans)
    ensures IsFree(CutAll(spans, h), outer, seen + [h], lo, hi)
    ensures SpansOnGrid(outer, holes, CutAll(spans, h))
  {
    var cut := CutAll(spans, h);
    CutAllPieces(spans, h);
    CutAllOrdered(spans, h);
    forall t | t in cut
      ensures outer.x0 <= t.lo && t.hi <= outer.x1 && AllClear(seen + [h], lo, hi, t.lo, t.hi)
      ensures IsX(outer, holes, t.lo) && IsX(outer, holes, t.hi)
    {
      var s :| s in spans && t in CutOne(s, h);
      PieceIsFree(s, t, h, outer, holes, seen, lo, hi);
    }
    forall a, c | outer.x0 <= a < c <= outer.x1 && AllClear(seen + [h], lo, hi, a, c)
      ensures Within(cut, a, c)
    {
      assert h in seen + [h];
      assert AllClear(seen, lo, hi, a, c);
      assert Within(spans, a, c);
      var s :| s in spans && s.lo <= a && c <= s.hi;
      StretchSurvives(s, h, a, c);
    }
  }

  lemma UncrossedIsClear(spans: seq<Span>, outer: Box, seen: seq<Box>, h: Box, lo: real, hi: real)
    requires IsFree(spans, outer, seen, lo, hi) && !Crosses(h, lo, hi)
    ensures IsFree(spans, outer, seen + [h], lo, hi)
  {
    forall a, c ensures AllClear(seen + [h], lo, hi, a, c) == AllClear(seen, lo, hi, a, c) {
      assert forall g :: g in seen + [h] <==> g in seen || g == h;
    }
  }

  /** The hole-free spans of one slab (the loop over `holes`). */
  method FreeSpans(outer: Box, holes: seq<Box>, lo: real, hi: real) returns (spans: seq<Span>)
    requires outer.x0 <= outer.x1 && Upright(holes)
    ensures IsFree(spans, outer, holes, lo, hi) && SpansOnGrid(outer, holes, spans)
  {
    spans := [Span(outer.x0, outer.x1)];
    assert forall a, c :: outer.x0 <= a < c <= outer.x1 ==> Within(spans, a, c) by {
      assert spans[0] in spans;
    }
    for k := 0 to |holes|
      invariant IsFree(spans, outer, holes[..k], lo, hi) && SpansOnGrid(outer, holes, spans)
    {
      var h := holes[k];
      assert holes[..k + 1] == holes[..k] + [h];
      if Crosses(h, lo, hi) {
        CutAllFree(spans, h, outer, holes, holes[..k], lo, hi);
        spans := CutHole(spans, h);
      } else {
        UncrossedIsClear(spans, outer, holes[..k], h, lo, hi);
      }
    }
    assert holes[..|holes|] == holes;
  }

  predicate Wide(s: Span) {
    s.hi - s.lo > EPS
  }

  /** The rectangles over the wide spans. */
  function WideBoxes(spans: seq<Span>, lo: real, hi: real): (rects: seq<Box>) {
    if spans == [] then []
    else
      var s := spans[|spans| - 1];
      WideBoxes(spans[..|spans| - 1], lo, hi) + if Wide(s) then [Box(s.lo, s.hi, lo, hi)] else []
  }

  /** The rectangles of one slab. */
  method SlabRects(outer: Box, holes: seq<Box>, lo: real, hi: real) returns (rects: seq<Box>)
    requires outer.x0 <= outer.x1 && Upright(holes)
    requires IsSlab(outer, holes, lo, hi)
    ensures Disjoint(rects) && OnGrid(outer, holes, rects)
    ensures forall r :: r in rects ==> r.y0 == lo && r.y1 == hi
    ensures forall x, y :: Covered(rects, x, y) <==> lo <= y < hi && InWideGap(outer, holes, lo, hi, x)
  {
    var spans := FreeSpans(outer, holes, lo, hi);
    rects := [];
    for i := 0 to |spans|
      invariant rects == WideBoxes(spans[..i], lo, hi)
    {
      assert spans[..i + 1][..i] == spans[..i];
      var s := spans[i];
      if s.hi - s.lo <= EPS {
        continue;
      }
      rects := rects + [Box(s.lo, s.hi, lo, hi)];
    }
    assert spans[..|spans|] == spans;
    WideBoxesMembers(spans, lo, hi);
    WideBoxesDisjoint(spans, lo, hi);
    WideSpansPaint(outer, holes, lo, hi, spans);
  }

  lemma {:induction false} WideBoxesMembers(spans: seq<Span>, lo: real, hi: real)
    ensures forall r :: r in WideBoxes(spans, lo, hi) <==> exists s :: s in spans && Wide(s) && r == Box(s.lo, s.hi, lo, hi)
  {
    if spans != [] {
      WideBoxesMembers(spans[..|spans| - 1], lo, hi);
      assert spans == spans[..|spans| - 1] + [spans[|spans| - 1]];
    }
  }

  lemma {:induction false} WideBoxesDisjoint(spans: seq<Span>, lo: real, hi: real)
    requires Ordered(spans)
    ensures Disjoint(WideBoxes(spans, lo, hi))
  {
    if spans != [] {
      var n := |spans| - 1;
      OrderedFront(spans, n);
      WideBoxesDisjoint(spans[..n], lo, hi);
      WideBoxesMembers(spans[..n], lo, hi);
      var front := WideBoxes(spans[..n], lo, hi);
      forall i | 0 <= i < |front| ensures front[i].x1 <= spans[n].lo {
        assert front[i] in front;
      }
    }
  }

  lemma PaintedIsGap(outer: Box, holes: seq<Box>, lo: real, hi: real, spans: seq<Span>, x: real, y: real)
    requires IsFree(spans, outer, holes, lo, hi) && Covered(WideBoxes(spans, lo, hi), x, y)
    ensures lo <= y < hi && InWideGap(outer, holes, lo, hi, x)
  {
    WideBoxesMembers(spans, lo, hi);
    var r :| r in WideBoxes(spans, lo, hi) && r.Contains(x, y);
    var s :| s in spans && Wide(s) && r == Box(s.lo, s.hi, lo, hi);
    assert AllClear(holes, lo, hi, s.lo, s.hi);
  }

  lemma GapIsPainted(outer: Box, holes: seq<Box>, lo: real, hi: real, spans: seq<Span>, x: real, y: real)
    requires IsFree(spans, outer, holes, lo, hi) && lo <= y < hi && InWideGap(outer, holes, lo, hi, x)
    ensures Covered(WideBoxes(spans, lo, hi), x, y)
  {
    WideBoxesMembers(spans, lo, hi);
    var a, c :| outer.x0 <= a <= x < c <= outer.x1 && c - a > EPS && AllClear(holes, lo, hi, a, c);
    assert Within(spans, a, c);
    var s :| s in spans && s.lo <= a && c <= s.hi;
    assert Box(s.lo, s.hi, lo, hi).Contains(x, y);
  }

  /** The wide spans cover exactly the wide gaps. */
  lemma WideSpansPaint(outer: Box, holes: seq<Box>, lo: real, hi: real, spans: seq<Span>)
    requires IsFree(spans, outer, holes, lo, hi)
    ensures forall x, y :: Covered(WideBoxes(spans, lo, hi), x, y) <==> lo <= y < hi && InWideGap(outer, holes, lo, hi, x)
  {
    var rects := WideBoxes(spans, lo, hi);
    forall x, y | Covered(rects, x, y) ensures lo <= y < hi && InWideGap(outer, holes, lo, hi, x) {
      PaintedIsGap(outer, holes, lo, hi, spans, x, y);
    }
    forall x, y | lo <= y < hi && InWideGap(outer, holes, lo, hi, x) ensures Covered(rects, x, y) {
      GapIsPainted(outer, holes, lo, hi, spans, x, y);
    }
  }

  // ------------------------------------------------------------------
  // The whole sweep
  // ------------------------------------------------------------------

  predicate Increasing(s: seq<real>) {
    forall i, j :: 0 <= i < j < |s| ==> s[i] < s[j]
  }

  /** Puts a value in its place, unless it is there already. */
  method InsertSorted(s: seq<real>, v: real) returns (r: seq<real>)
    requires Increasing(s)
    ensures Increasing(r)
    ensures forall w :: w in r <==> w in s || w == v
  {
    var k := 0;
    while k < |s| && s[k] < v
      invariant 0 <= k <= |s|
      invariant forall j :: 0 <= j < k ==> s[j] < v
    {
      k := k + 1;
    }
    if k < |s| && s[k] == v {
      return s;
    }
    assert s == s[..k] + s[k..];
    r := s[..k] + [v] + s[k..];
  }

  /** The distinct values in increasing order. */
  method Sorted(values: seq<real>) returns (s: seq<real>)
    ensures Increasing(s)
    ensures forall v :: v in s <==> v in values
  {
    s := [];
    for i := 0 to |values|
      invariant Increasing(s)
      invariant forall v :: v in s <==> v in values[..i]
    {
      assert values[..i + 1] == values[..i] + [values[i]];
      s := InsertSorted(s, values[i]);
    }
    assert values[..|values|] == values;
  }

  lemma IsYAppend(outer: Box, holes: seq<Box>, h: Box)
    ensures forall v :: IsY(outer, holes + [h], v) <==> IsY(outer, holes, v) || v == h.y0 || v == h.y1
  {
    assert forall g :: g in holes + [h] <==> g in holes || g == h;
  }

  /** Collects the holes and the y values (the loop over `cutout_groups`). */
  method CollectHoles(outer: Box, groups: seq<seq<Point>>) returns (holes: seq<Box>, ys: seq<real>)
    ensures holes == Holes(groups) && Upright(holes)
    ensures forall v :: v in ys <==> IsY(outer, holes, v)
  {
    holes := [];
    ys := [outer.y0, outer.y1];
    for k := 0 to |groups|
      invariant holes == Holes(groups[..k])
      invariant forall v :: v in ys <==> IsY(outer, holes, v)
    {
      assert groups[..k + 1][..k] == groups[..k];
      if groups[k] != [] {
        var h := Bounds(groups[k]);
        IsYAppend(outer, holes, h);
        holes := holes + [h];
        ys := ys + [h.y0, h.y1];
      }
    }
    assert groups[..|groups|] == groups;
  }

  /** The outer loop's invariant: everything kept below `top` is painted, and nothing else. */
  ghost predicate SweptTo(outer: Box, holes: seq<Box>, rects: seq<Box>, top: real) {
    && Disjoint(rects) && OnGrid(outer, holes, rects)
    && (forall r :: r in rects ==> r.y1 <= top)
    && (forall x, y :: Covered(rects, x, y) <==> y < top && Kept(outer, holes, x, y))
  }

  /** The rectangles that remain of the wall: pairwise disjoint, on input coordinates, and covering
      exactly the kept points. Nothing is assumed about the cut-outs. */
  method AxisRectsFromCutouts(outerPoints: seq<Point>, groups: seq<seq<Point>>) returns (rects: seq<Box>)
    ensures outerPoints == [] ==> rects == []
    ensures outerPoints != [] ==>
              var outer, holes := Bounds(outerPoints), Holes(groups);
              && Disjoint(rects) && OnGrid(outer, holes, rects)
              && forall x, y :: Covered(rects, x, y) <==> Kept(outer, holes, x, y)
  {
    if outerPoints == [] {
      return [];
    }
    var outer := Bounds(outerPoints);
    var holes, yValues := CollectHoles(outer, groups);
    var ys := Sorted(yValues);
    assert IsY(outer, holes, outer.y0) && outer.y0 in ys;
    YRange(outer, holes, ys);
    rects := [];
    for i := 0 to |ys| - 1
      invariant SweptTo(outer, holes, rects, ys[i])
    {
      var y0, y1 := ys[i], ys[i + 1];
      NeighboursAreSlab(outer, holes, ys, i);
      var added: seq<Box> := [];
      if y1 - y0 > EPS {
        added := SlabRects(outer, holes, y0, y1);
      }
      SlabAdds(outer, holes, rects, added, y0, y1);
      rects := rects + added;
    }
  }

  lemma NeighboursAreSlab(outer: Box, holes: seq<Box>, ys: seq<real>, i: nat)
    requires Increasing(ys) && i + 1 < |ys|
    requires forall v :: v in ys <==> IsY(outer, holes, v)
    ensures IsSlab(outer, holes, ys[i], ys[i + 1])
  {
    assert ys[i] in ys && ys[i + 1] in ys;
    forall v | IsY(outer, holes, v) ensures v <= ys[i] || ys[i + 1] <= v {
      assert v in ys;
      var k :| 0 <= k < |ys| && ys[k] == v;
    }
  }

  /** Nothing is kept below the lowest or above the highest y value. */
  lemma YRange(outer: Box, holes: seq<Box>, ys: seq<real>)
    requires Increasing(ys) && |ys| > 0
    requires forall v :: v in ys <==> IsY(outer, holes, v)
    ensures forall x, y :: Kept(outer, holes, x, y) ==> ys[0] <= y < ys[|ys| - 1]
  {
    forall x, y | Kept(outer, holes, x, y) ensures ys[0] <= y < ys[|ys| - 1] {
      var lo, hi :| IsSlab(outer, holes, lo, hi) && lo <= y < hi && hi - lo > EPS
                    && InWideGap(outer, holes, lo, hi, x);
      assert lo in ys && hi in ys;
    }
  }

  /** Within one slab, being kept is having a wide gap in that slab. */
  lemma KeptInSlab(outer: Box, holes: seq<Box>, y0: real, y1: real, x: real, y: real)
    requires IsSlab(outer, holes, y0, y1) && y0 <= y < y1
    ensures Kept(outer, holes, x, y) <==> y1 - y0 > EPS && InWideGap(outer, holes, y0, y1, x)
  {
    if Kept(outer, holes, x, y) {
      var lo, hi :| IsSlab(outer, holes, lo, hi) && lo <= y < hi && hi - lo > EPS
                    && InWideGap(outer, holes, lo, hi, x);
      assert lo == y0 && hi == y1;
    }
  }

  lemma CoveredAppend(before: seq<Box>, added: seq<Box>, x: real, y: real)
    ensures Covered(before + added, x, y) <==> Covered(before, x, y) || Covered(added, x, y)
  {
  }

  /** Adding one slab's rectangles carries the sweep to the slab's top. */
  lemma SlabAdds(outer: Box, holes: seq<Box>, before: seq<Box>, added: seq<Box>, y0: real, y1: real)
    requires IsSlab(outer, holes, y0, y1) && SweptTo(outer, holes, before, y0)
    requires Disjoint(added) && OnGrid(outer, holes, added)
    requires forall r :: r in added ==> r.y0 == y0 && r.y1 == y1
    requires if y1 - y0 > EPS
             then forall x, y :: Covered(added, x, y) <==> y0 <= y < y1 && InWideGap(outer, holes, y0, y1, x)
             else added == []
    ensures SweptTo(outer, holes, before + added, y1)
  {
    forall i, j | 0 <= i < j < |before + added| ensures Apart((before + added)[i], (before + added)[j]) {
      if i < |before| <= j {
        assert before[i] in before && added[j - |before|] in added;
      }
    }
    forall x, y
      ensures Covered(before + added, x, y) <==> y < y1 && Kept(outer, holes, x, y)
    {
      CoveredAppend(before, added, x, y);
      if y0 <= y < y1 {
        KeptInSlab(outer, holes, y0, y1, x, y);
      }
    }
  }
}
