/** Which way three points turn, and which of two points comes first. Every later argument about simple
    polygons uses only the facts about turns and order proved here. Points may lie in line. */
module Orientation {
  import opened Geometry
  import opened EarClip

  predicate Ccw(a: Point, b: Point, c: Point) {
    Cross2(a, b, c) > 0.0
  }

  /** Left of, or straight below. A point infinitely far up sees the points in this order. */
  predicate Before(a: Point, b: Point) {
    a.x < b.x || (a.x == b.x && a.y < b.y)
  }

  // ------------------------------------------------------------------
  // Facts about turns
  // ------------------------------------------------------------------

  /** How the turns of three points relate: left, right, or in line. */
  ghost predicate Turns(a: Point, b: Point, c: Point) {
    && Ccw(a, b, c) == Ccw(b, c, a) == Ccw(c, a, b)
    && Ccw(a, c, b) == Ccw(c, b, a) == Ccw(b, a, c)
    && !(Ccw(a, b, c) && Ccw(a, c, b))
  }

  lemma Three(a: Point, b: Point, c: Point)
    ensures Turns(a, b, c)
    ensures Ccw(a, c, b) <==> Cross2(a, b, c) < 0.0
  {
    assert Cross2(a, b, c) == Cross2(b, c, a) == Cross2(c, a, b);
    assert Cross2(a, c, b) == Cross2(c, b, a) == Cross2(b, a, c) == -Cross2(a, b, c);
  }

  /** A sum that is 0 has a positive term exactly if it has a negative one. */
  ghost predicate Closed4(a: Point, b: Point, c: Point, d: Point) {
    && Turns(a, b, c) && Turns(a, b, d) && Turns(a, c, d) && Turns(b, c, d)
    && (Ccw(b, c, d) || Ccw(a, d, c) || Ccw(a, b, d) || Ccw(a, c, b)
        <==> Ccw(b, d, c) || Ccw(a, c, d) || Ccw(a, d, b) || Ccw(a, b, c))
  }

  lemma Four(a: Point, b: Point, c: Point, d: Point)
    ensures Closed4(a, b, c, d)
  {
    Three(a, b, c);
    Three(a, b, d);
    Three(a, c, d);
    Three(b, c, d);
    assert Cross2(b, c, d) - Cross2(a, c, d) + Cross2(a, b, d) - Cross2(a, b, c) == 0.0;
  }

  /** The product of two turns is positive. */
  ghost predicate Same(t: Point, a: Point, b: Point, c: Point, d: Point) {
    (Ccw(t, a, b) && Ccw(t, c, d)) || (Ccw(t, b, a) && Ccw(t, d, c))
  }

  /** It is negative. */
  ghost predicate Opposite(t: Point, a: Point, b: Point, c: Point, d: Point) {
    (Ccw(t, a, b) && Ccw(t, d, c)) || (Ccw(t, b, a) && Ccw(t, c, d))
  }

  /** Around one point the turns of four others are ordered consistently. */
  ghost predicate Consistent(t: Point, a: Point, b: Point, c: Point, d: Point) {
    Same(t, a, b, c, d) || Opposite(t, a, c, b, d) || Same(t, a, d, b, c)
    <==> Opposite(t, a, b, c, d) || Same(t, a, c, b, d) || Opposite(t, a, d, b, c)
  }

  lemma SignOfProduct(p: real, q: real)
    ensures p * q > 0.0 <==> (p > 0.0 && q > 0.0) || (p < 0.0 && q < 0.0)
    ensures p * q < 0.0 <==> (p > 0.0 && q < 0.0) || (p < 0.0 && q > 0.0)
  {
    if p > 0.0 && q > 0.0 {
      assert p * q > 0.0;
    } else if p < 0.0 && q < 0.0 {
      assert (-p) * (-q) > 0.0;
    } else if p > 0.0 && q < 0.0 {
      assert p * (-q) > 0.0;
    } else if p < 0.0 && q > 0.0 {
      assert (-p) * q > 0.0;
    }
  }

  lemma Around(t: Point, a: Point, b: Point, c: Point, d: Point)
    ensures Consistent(t, a, b, c, d)
  {
    Three(t, a, b);
    Three(t, c, d);
    Three(t, a, c);
    Three(t, b, d);
    Three(t, a, d);
    Three(t, b, c);
    Pluecker(t, a, b, c, d);
    SignOfProduct(Cross2(t, a, b), Cross2(t, c, d));
    SignOfProduct(Cross2(t, a, c), Cross2(t, b, d));
    SignOfProduct(Cross2(t, a, d), Cross2(t, b, c));
    hide Cross2;
  }

  lemma Pluecker(t: Point, a: Point, b: Point, c: Point, d: Point)
    ensures Cross2(t, a, b) * Cross2(t, c, d) - Cross2(t, a, c) * Cross2(t, b, d) + Cross2(t, a, d) * Cross2(t, b, c) == 0.0
  {
    var a1, a2, b1, b2 := a.x - t.x, a.y - t.y, b.x - t.x, b.y - t.y;
    var c1, c2, d1, d2 := c.x - t.x, c.y - t.y, d.x - t.x, d.y - t.y;
    MinorIdentity(a1, a2, b1, b2, c1, c2, d1, d2);
  }

  lemma MinorIdentity(a1: real, a2: real, b1: real, b2: real, c1: real, c2: real, d1: real, d2: real)
    ensures (a1 * b2 - a2 * b1) * (c1 * d2 - c2 * d1) - (a1 * c2 - a2 * c1) * (b1 * d2 - b2 * d1)
            + (a1 * d2 - a2 * d1) * (b1 * c2 - b2 * c1) == 0.0
  {
  }

  // ------------------------------------------------------------------
  // Facts about the order
  // ------------------------------------------------------------------

  /** The turn from `a` to `b` around `t`, times the step from `t` to `c`, goes up. */
  ghost predicate Rises(t: Point, a: Point, b: Point, c: Point) {
    (Ccw(t, a, b) && Before(t, c)) || (Ccw(t, b, a) && Before(c, t))
  }

  /** `Consistent`, with the point infinitely far up for the fourth. */
  ghost predicate ConsistentUp(t: Point, a: Point, b: Point, c: Point) {
    Rises(t, a, b, c) || Rises(t, c, a, b) || Rises(t, b, c, a)
    <==> Rises(t, b, a, c) || Rises(t, a, c, b) || Rises(t, c, b, a)
  }

  lemma AroundUp(t: Point, a: Point, b: Point, c: Point)
    requires t != a && t != b && t != c
    ensures ConsistentUp(t, a, b, c)
  {
    var p, q, r := Cross2(t, a, b), Cross2(t, a, c), Cross2(t, b, c);
    assert p * (c.x - t.x) - q * (b.x - t.x) + r * (a.x - t.x) == 0.0;
    assert p * (c.y - t.y) - q * (b.y - t.y) + r * (a.y - t.y) == 0.0;
    Three(t, a, b);
    Three(t, a, c);
    Three(t, b, c);
    hide Cross2;
    LexSum(p, c.x - t.x, c.y - t.y, q, b.x - t.x, b.y - t.y, r, a.x - t.x, a.y - t.y);
  }

  predicate Up(x: real, y: real) {
    x > 0.0 || (x == 0.0 && y > 0.0)
  }

  /** A number times a step. */
  ghost predicate Lifts(p: real, x: real, y: real) {
    (p > 0.0 && Up(x, y)) || (p < 0.0 && Up(-x, -y))
  }

  lemma LexSum(p: real, px: real, py: real, q: real, qx: real, qy: real, r: real, rx: real, ry: real)
    requires p * px - q * qx + r * rx == 0.0 && p * py - q * qy + r * ry == 0.0
    ensures Lifts(p, px, py) || Lifts(-q, qx, qy) || Lifts(r, rx, ry)
            <==> Lifts(-p, px, py) || Lifts(q, qx, qy) || Lifts(-r, rx, ry)
  {
    LexProduct(p, px, py);
    LexProduct(q, qx, qy);
    LexProduct(r, rx, ry);
    var x1, x2, x3, y1, y2, y3 := p * px, q * qx, r * rx, p * py, q * qy, r * ry;
    hide Lifts;
  }

  lemma LexProduct(p: real, x: real, y: real)
    ensures Lifts(p, x, y) <==> Up(p * x, p * y)
    ensures Lifts(-p, x, y) <==> Up(-(p * x), -(p * y))
  {
    SignOfProduct(p, x);
    SignOfProduct(p, y);
  }

  ghost predicate Ordered3(a: Point, b: Point, c: Point) {
    && Before(a, b) == !Before(b, a) && Before(b, c) == !Before(c, b) && Before(a, c) == !Before(c, a)
    && !(Before(a, b) && Before(b, c) && Before(c, a)) && !(Before(b, a) && Before(c, b) && Before(a, c))
  }

  predicate Distinct3(a: Point, b: Point, c: Point) {
    a != b && b != c && a != c
  }

  predicate Distinct4(a: Point, b: Point, c: Point, d: Point) {
    Distinct3(a, b, c) && d != a && d != b && d != c
  }

  lemma InOrder(a: Point, b: Point, c: Point)
    requires Distinct3(a, b, c)
    ensures Ordered3(a, b, c)
  {
  }

  ghost predicate OrderedTurns4(a: Point, b: Point, c: Point, d: Point) {
    && Ordered3(a, b, c) && Ordered3(a, b, d) && Ordered3(a, c, d) && Ordered3(b, c, d)
    && Closed4(a, b, c, d)
    && ConsistentUp(a, b, c, d) && ConsistentUp(b, a, c, d) && ConsistentUp(c, a, b, d) && ConsistentUp(d, a, b, c)
  }

  /** Everything about the turns and the order of four points. */
  lemma Facts4(a: Point, b: Point, c: Point, d: Point)
    requires Distinct4(a, b, c, d)
    ensures OrderedTurns4(a, b, c, d)
  {
    Four(a, b, c, d);
    InOrder(a, b, c);
    InOrder(a, b, d);
    InOrder(a, c, d);
    InOrder(b, c, d);
    hide Ccw, Before, Ordered3, Closed4, ConsistentUp;
    AroundUp(a, b, c, d);
    AroundUp(b, a, c, d);
    AroundUp(c, a, b, d);
    AroundUp(d, a, b, c);
  }

  // ------------------------------------------------------------------
  // Segments and rays
  // ------------------------------------------------------------------

  predicate InLine(a: Point, b: Point, c: Point) {
    !Ccw(a, b, c) && !Ccw(a, c, b)
  }

  /** `p` lies on the segment, between its ends. */
  predicate On(p: Point, a: Point, b: Point) {
    InLine(a, b, p) && ((Before(a, p) && Before(p, b)) || (Before(b, p) && Before(p, a)))
  }

  /** `c` and `d` lie on different sides of the line through `a` and `b`. */
  predicate Separates(a: Point, b: Point, c: Point, d: Point) {
    (Ccw(a, b, c) && Ccw(a, d, b)) || (Ccw(a, c, b) && Ccw(a, b, d))
  }

  /** Two segments without a common end have a point in common. */
  predicate Meets(a: Point, b: Point, c: Point, d: Point) {
    || (Separates(a, b, c, d) && Separates(c, d, a, b))
    || On(c, a, b) || On(d, a, b) || On(a, c, d) || On(b, c, d)
  }

  /** Seen from `w`, the two points lie in the same direction. */
  predicate SameRay(w: Point, p: Point, q: Point) {
    InLine(w, p, q) && Before(w, p) == Before(w, q)
  }

  function One(b: bool): real {
    if b then 1.0 else 0.0
  }

  /** How the edge from `a` to `b` passes over `x`: 1 from right to left, -1 from left to right, else 0. */
  function Pass(x: Point, a: Point, b: Point): real {
    One(Before(b, x) && Before(x, a) && Ccw(a, b, x)) - One(Before(a, x) && Before(x, b) && Ccw(b, a, x))
  }

  /** Whether `p` is straight above the segment, counted with its direction. */
  function Over(x: Point, y: Point, p: Point): real {
    One(Before(x, p) && Before(p, y) && Ccw(x, y, p)) - One(Before(y, p) && Before(p, x) && Ccw(y, x, p))
  }

  /** Going from `x` to `y` without meeting an edge changes how the edge passes only by its ends. */
  lemma Slide(x: Point, y: Point, a: Point, b: Point)
    requires Distinct4(x, y, a, b) && !Meets(x, y, a, b)
    ensures Pass(x, a, b) - Pass(y, a, b) == Over(x, y, a) - Over(x, y, b)
  {
    hide Ccw, Before;
    Facts4(x, y, a, b);
  }

  /** `x` is seen from corner `b` between the edges to `c` and to `a`, on their left. */
  predicate InCone(a: Point, b: Point, c: Point, x: Point) {
    if Ccw(a, b, c) then Ccw(a, b, x) && Ccw(b, c, x) else Ccw(a, b, x) || Ccw(b, c, x)
  }

  /** The same for the point infinitely far up. */
  predicate UpInCone(a: Point, b: Point, c: Point) {
    if Ccw(a, b, c) then Before(a, b) && Before(b, c) else Before(a, b) || Before(b, c)
  }

  /** Leaving a corner towards `x`. */
  lemma LeaveCorner(a: Point, b: Point, c: Point, x: Point)
    requires Distinct4(a, b, c, x) && !SameRay(b, a, c) && !SameRay(b, a, x) && !SameRay(b, c, x)
    ensures Over(x, b, c) - Over(x, b, a) + Pass(x, a, b) + Pass(x, b, c)
         == One(!UpInCone(a, b, c)) - One(!InCone(a, b, c, x))
  {
    hide Ccw, Before;
    Facts4(a, b, c, x);
  }

  /** Going along the edge from `b` to `c`: what the edge before it contributes. */
  lemma EdgeBefore(a: Point, b: Point, c: Point)
    requires Distinct3(a, b, c) && !SameRay(b, a, c)
    ensures One(!UpInCone(a, b, c)) - Over(b, c, a) - Pass(c, a, b) == One(Before(c, b))
  {
    hide Ccw, Before;
    Three(a, b, c);
    InOrder(a, b, c);
  }

  /** And the edge after it. */
  lemma EdgeAfter(b: Point, c: Point, d: Point)
    requires Distinct3(b, c, d) && !SameRay(c, b, d)
    ensures One(!UpInCone(b, c, d)) - Over(b, c, d) - Pass(b, c, d) == One(Before(c, b))
  {
    hide Ccw, Before;
    Three(b, c, d);
    InOrder(b, c, d);
  }

  // ------------------------------------------------------------------
  // The triangle at a corner
  // ------------------------------------------------------------------

  /** Inside a triangle that turns left at `k`, or on the side that cuts `k` off. */
  predicate InTip(a: Point, k: Point, c: Point, x: Point) {
    Ccw(a, k, x) && Ccw(k, c, x) && !Ccw(a, c, x)
  }

  lemma TriangleWinds(a: Point, k: Point, c: Point, x: Point)
    requires Distinct4(a, k, c, x) && Ccw(a, k, c)
    requires !InTip(a, k, c, x) && !On(x, a, k) && !On(x, k, c)
    ensures Pass(x, a, k) + Pass(x, k, c) + Pass(x, c, a) == 0.0
  {
    hide Ccw, Before;
    Facts4(a, k, c, x);
  }

  /** An inside point splits the cone: neither neighbour lies between it and the other. */
  lemma InsideSplits(a: Point, k: Point, c: Point, z: Point)
    requires Distinct4(a, k, c, z) && Ccw(a, k, c) && InTip(a, k, c, z)
    ensures InCone(a, k, c, z)
    ensures Ccw(z, k, c) && !InCone(z, k, c, a)
    ensures Ccw(a, k, z) && !InCone(a, k, z, c)
    ensures !SameRay(k, z, a) && !SameRay(k, z, c) && !SameRay(k, a, c)
  {
    hide Ccw, Before;
    Four(a, k, c, z);
  }

  lemma MeetsFlips(a: Point, b: Point, c: Point, d: Point)
    ensures Meets(a, b, c, d) == Meets(b, a, c, d) == Meets(a, b, d, c) == Meets(c, d, a, b)
  {
    hide Ccw, Before;
    Four(a, b, c, d);
  }

  lemma SameRayFlips(w: Point, p: Point, q: Point)
    ensures SameRay(w, p, q) == SameRay(w, q, p)
  {
    hide Ccw, Before;
    Three(w, p, q);
  }

  /** An edge that leaves a corner outside its cone does not meet the line that cuts the corner off. */
  lemma OutsideCone(a: Point, k: Point, c: Point, p: Point)
    requires Distinct4(a, k, c, p) && Ccw(a, k, c) && !InCone(a, k, c, p)
    requires !SameRay(k, a, p) && !SameRay(k, c, p)
    ensures !Meets(a, c, k, p)
  {
    hide Ccw, Before;
    Facts4(a, k, c, p);
  }

  /** A side that starts at `a` and does not meet the side from `k` does not run along the line that cuts the
      corner off. */
  lemma OffTheCut(a: Point, k: Point, c: Point, p: Point)
    requires Distinct4(a, k, c, p) && Ccw(a, k, c) && !InTip(a, k, c, p) && !Meets(k, c, a, p)
    ensures !SameRay(a, c, p)
  {
    hide Ccw, Before;
    Facts4(a, k, c, p);
  }

  lemma OffTheCutBack(a: Point, k: Point, c: Point, p: Point)
    requires Distinct4(a, k, c, p) && Ccw(a, k, c) && !InTip(a, k, c, p) && !Meets(a, k, c, p)
    ensures !SameRay(c, a, p)
  {
    hide Ccw, Before;
    Facts4(a, k, c, p);
  }

  // ------------------------------------------------------------------
  // Five and six points
  // ------------------------------------------------------------------

  ghost predicate Turns5(a: Point, b: Point, c: Point, d: Point, e: Point) {
    && Consistent(a, b, c, d, e) && Consistent(b, a, c, d, e) && Consistent(c, a, b, d, e)
    && Consistent(d, a, b, c, e) && Consistent(e, a, b, c, d)
  }

  lemma Facts5(a: Point, b: Point, c: Point, d: Point, e: Point)
    ensures Turns5(a, b, c, d, e)
  {
    hide Consistent;
    Around(a, b, c, d, e);
    Around(b, a, c, d, e);
    Around(c, a, b, d, e);
    Around(d, a, b, c, e);
    Around(e, a, b, c, d);
  }

  predicate Distinct5(a: Point, b: Point, c: Point, d: Point, e: Point) {
    Distinct4(a, b, c, d) && e != a && e != b && e != c && e != d
  }

  /** An edge that has no end in a triangle and does not meet two of its sides does not meet the third. */
  lemma EmptyUncrossed(a: Point, k: Point, c: Point, p: Point, q: Point)
    requires Distinct5(a, k, c, p, q) && Ccw(a, k, c)
    requires !InTip(a, k, c, p) && !InTip(a, k, c, q)
    requires !Meets(a, k, p, q) && !Meets(k, c, p, q)
    ensures !Meets(a, c, p, q)
  {
    hide Ccw, Before;
    Facts4(a, k, c, p);
    Facts4(a, k, c, q);
    Facts4(a, k, p, q);
    Facts4(a, c, p, q);
    Facts4(k, c, p, q);
    Facts5(a, k, c, p, q);
  }

  /** Seen from `a`, points of the triangle are ordered by angle. */
  lemma AngleTransitive(a: Point, k: Point, x: Point, y: Point, z: Point)
    requires Ccw(a, k, x) && Ccw(a, k, y) && Ccw(a, k, z) && Ccw(a, x, y) && Ccw(a, y, z)
    ensures Ccw(a, x, z)
  {
    hide Ccw;
    Around(a, k, x, y, z);
    Three(a, k, x);
    Three(a, k, y);
    Three(a, k, z);
    Three(a, x, y);
    Three(a, x, z);
    Three(a, y, z);
  }

  // ------------------------------------------------------------------
  // What the tip of a triangle sees
  // ------------------------------------------------------------------

  /** `x` is no point of the triangle with a smaller angle at `a` than `z`. */
  predicate NotBefore(a: Point, k: Point, c: Point, z: Point, x: Point) {
    InTip(a, k, c, x) ==> !Ccw(a, x, z)
  }

  /** The edge from `p` to `q` crosses the line from `k` to `z` inside, from left to right. */
  predicate Passes(k: Point, z: Point, p: Point, q: Point) {
    Ccw(k, z, p) && Ccw(k, q, z) && Ccw(p, q, z) && Ccw(p, k, q)
  }

  /** Such an edge, if it does not meet the side from `a` to `k`, starts in the triangle below `z`, or not below
      the line from `a` to `z`. */
  lemma StartsBelow(a: Point, k: Point, z: Point, p: Point, q: Point)
    requires Distinct5(a, k, z, p, q) && Ccw(a, k, z) && Passes(k, z, p, q) && !Meets(a, k, p, q) && Ccw(a, p, z)
    ensures Ccw(a, k, p)
  {
    hide Ccw, Before;
    Facts4(a, k, p, q);
    Four(a, k, z, p);
    Four(a, k, z, q);
    Four(k, z, p, q);
    Four(a, z, p, q);
    Facts5(a, k, z, p, q);
  }

  lemma BelowIsInTip(a: Point, k: Point, c: Point, z: Point, p: Point)
    requires Ccw(a, k, c) && InTip(a, k, c, z) && Ccw(a, k, p) && Ccw(a, p, z) && Ccw(k, z, p)
    ensures InTip(a, k, c, p)
  {
    hide Ccw;
    Four(a, k, c, z);
    Four(a, k, c, p);
    Four(a, k, z, p);
    Four(a, c, z, p);
    Four(k, c, z, p);
    Facts5(a, k, c, z, p);
  }

  /** An edge that starts not below the line from `a` to `z` ends below it. */
  lemma EndsBelow(a: Point, k: Point, z: Point, p: Point, q: Point)
    requires Ccw(a, k, z) && Passes(k, z, p, q) && !Ccw(a, p, z)
    ensures Ccw(a, q, z)
  {
    hide Ccw;
    Four(a, k, z, p);
    Four(a, k, z, q);
    Four(a, k, p, q);
    Four(k, z, p, q);
    Four(a, z, p, q);
    Facts5(a, k, z, p, q);
  }

  /** Seen from such an edge, `c` is on the side of `z`. */
  lemma FarCornerAbove(a: Point, k: Point, c: Point, z: Point, p: Point, q: Point)
    requires Ccw(a, k, c) && InTip(a, k, c, z) && Passes(k, z, p, q) && !Ccw(a, p, z) && Ccw(a, q, z) && !Ccw(k, c, q)
    ensures Ccw(p, q, c)
  {
    hide Ccw;
    Four(a, k, c, z);
    Four(k, z, p, q);
    Four(a, z, p, q);
    Four(c, z, p, q);
    Four(k, c, z, q);
    Four(k, c, z, p);
    Four(a, c, z, q);
    Four(a, c, z, p);
    Facts5(k, c, z, p, q);
    Facts5(a, c, z, p, q);
    Facts5(a, k, z, p, q);
    Facts5(a, k, c, z, q);
    Facts5(a, k, c, z, p);
  }

  /** An edge that passes between `k` and `c` meets the side. */
  lemma PassesSide(k: Point, c: Point, z: Point, p: Point, q: Point)
    requires Ccw(k, c, z) && Passes(k, z, p, q) && Ccw(p, q, c) && !Ccw(k, c, q)
    requires Distinct5(k, c, z, p, q)
    ensures Meets(k, c, p, q)
  {
    hide Ccw, Before;
    Facts4(k, c, p, q);
    Four(k, c, z, p);
    Four(k, c, z, q);
    Four(k, z, p, q);
    Four(c, z, p, q);
    Facts5(k, c, z, p, q);
  }

  lemma EndIsInTip(a: Point, k: Point, c: Point, z: Point, q: Point)
    requires Ccw(a, k, c) && InTip(a, k, c, z) && Ccw(k, q, z) && Ccw(a, q, z) && Ccw(k, c, q)
    ensures InTip(a, k, c, q)
  {
    hide Ccw;
    Four(a, k, c, z);
    Four(a, k, c, q);
    Four(a, k, z, q);
    Four(a, c, z, q);
    Four(k, c, z, q);
    Facts5(a, k, c, z, q);
  }

  lemma NothingPasses(a: Point, k: Point, c: Point, z: Point, p: Point, q: Point)
    requires Distinct5(a, k, c, z, p) && Distinct5(a, k, c, z, q) && p != q
    requires Ccw(a, k, c) && InTip(a, k, c, z) && NotBefore(a, k, c, z, p) && NotBefore(a, k, c, z, q)
    requires !Meets(a, k, p, q) && !Meets(k, c, p, q)
    ensures !Passes(k, z, p, q)
  {
    if Passes(k, z, p, q) {
      hide Ccw, Meets;
      if Ccw(a, p, z) {
        StartsBelow(a, k, z, p, q);
        BelowIsInTip(a, k, c, z, p);
      } else {
        EndsBelow(a, k, z, p, q);
        if Ccw(k, c, q) {
          EndIsInTip(a, k, c, z, q);
        } else {
          FarCornerAbove(a, k, c, z, p, q);
          PassesSide(k, c, z, p, q);
        }
      }
    }
  }

  lemma NotOnTheWay(a: Point, k: Point, c: Point, z: Point, p: Point)
    requires Distinct5(a, k, c, z, p)
    requires Ccw(a, k, c) && InTip(a, k, c, z) && NotBefore(a, k, c, z, p)
    ensures !On(p, k, z)
  {
    hide Ccw, Before;
    Facts4(a, k, c, z);
    Facts4(a, k, c, p);
    Facts4(a, k, z, p);
    Facts4(k, c, z, p);
    Facts4(a, c, z, p);
    Facts5(a, k, c, z, p);
  }

  /** The point with the least angle at `a` in a triangle is seen from the tip: an edge that meets neither
      side at the tip, and has no end in the triangle with a smaller angle, is not in the way. */
  lemma SeenFromTip(a: Point, k: Point, c: Point, z: Point, p: Point, q: Point)
    requires Distinct5(a, k, c, z, p) && Distinct5(a, k, c, z, q) && p != q
    requires Ccw(a, k, c) && InTip(a, k, c, z) && NotBefore(a, k, c, z, p) && NotBefore(a, k, c, z, q)
    requires !Meets(a, k, p, q) && !Meets(k, c, p, q) && !On(z, p, q)
    ensures !Meets(k, z, p, q)
  {
    hide Ccw, Before, InTip;
    MeetsFlips(a, k, p, q);
    MeetsFlips(k, c, p, q);
    NothingPasses(a, k, c, z, p, q);
    NothingPasses(a, k, c, z, q, p);
    NotOnTheWay(a, k, c, z, p);
    NotOnTheWay(a, k, c, z, q);
    Four(k, z, p, q);
  }

  /** The same for an edge from `a`. */
  lemma SeenPastFirst(a: Point, k: Point, c: Point, z: Point, q: Point)
    requires Distinct5(a, k, c, z, q) && Ccw(a, k, c) && InTip(a, k, c, z) && NotBefore(a, k, c, z, q)
    requires !Meets(k, c, a, q) && !SameRay(a, k, q) && !On(z, a, q)
    ensures !Meets(k, z, a, q)
  {
    hide Ccw, Before;
    Facts4(a, k, c, z);
    Facts4(a, k, c, q);
    Facts4(a, k, z, q);
    Facts4(k, c, z, q);
    Facts4(a, c, z, q);
    Facts5(a, k, c, z, q);
  }

  /** And for an edge from `c`. */
  lemma SeenPastLast(a: Point, k: Point, c: Point, z: Point, q: Point)
    requires Distinct5(a, k, c, z, q) && Ccw(a, k, c) && InTip(a, k, c, z) && NotBefore(a, k, c, z, q)
    requires !Meets(a, k, c, q) && !SameRay(c, k, q) && !On(z, c, q)
    ensures !Meets(k, z, c, q)
  {
    hide Ccw, Before;
    Facts4(a, k, c, z);
    Facts4(a, k, c, q);
    Facts4(a, k, z, q);
    Facts4(k, c, z, q);
    Facts4(a, c, z, q);
    Facts5(a, k, c, z, q);
  }

  /** And for the third side itself. */
  lemma SeenPastSide(a: Point, k: Point, c: Point, z: Point)
    requires Distinct4(a, k, c, z) && Ccw(a, k, c) && InTip(a, k, c, z) && !On(z, a, c)
    ensures !Meets(k, z, a, c)
  {
    hide Ccw, Before;
    Facts4(a, k, c, z);
  }

  /** An edge from the point that was found does not run along the line from the tip. */
  lemma SeenFromPoint(a: Point, k: Point, c: Point, z: Point, q: Point)
    requires Distinct5(a, k, c, z, q) && Ccw(a, k, c) && InTip(a, k, c, z) && NotBefore(a, k, c, z, q)
    requires !On(k, z, q)
    ensures !SameRay(z, k, q)
  {
    hide Ccw, Before;
    Facts4(a, k, c, z);
    Facts4(a, k, c, q);
    Facts4(a, k, z, q);
    Facts4(k, c, z, q);
    Facts4(a, c, z, q);
    Facts5(a, k, c, z, q);
  }

  /** Nor does one from the tip. */
  lemma SeenAlongTip(a: Point, k: Point, c: Point, z: Point, q: Point)
    requires Distinct5(a, k, c, z, q) && Ccw(a, k, c) && InTip(a, k, c, z) && NotBefore(a, k, c, z, q)
    requires !On(z, k, q)
    ensures !SameRay(k, z, q)
  {
    hide Ccw, Before;
    Facts4(a, k, c, z);
    Facts4(a, k, c, q);
    Facts4(a, k, z, q);
    Facts4(k, c, z, q);
    Facts4(a, c, z, q);
    Facts5(a, k, c, z, q);
  }

  /** Off the sides, which corner is called the tip does not matter. */
  lemma TipRotates(a: Point, k: Point, c: Point, x: Point)
    requires Distinct4(a, k, c, x) && Ccw(a, k, c) && !On(x, a, k) && !On(x, k, c) && !On(x, c, a)
    ensures InTip(a, k, c, x) == InTip(k, c, a, x)
  {
    hide Ccw, Before;
    Facts4(a, k, c, x);
  }

  lemma ClosedTriangle(a: Point, k: Point, c: Point, x: Point)
    requires Distinct4(a, k, c, x) && Ccw(a, k, c) && !On(x, a, k) && !On(x, k, c)
    ensures PointInTriangle(x, a, k, c) <==> InTip(a, k, c, x)
  {
    hide Cross2, Before;
    Three(a, k, x);
    Three(k, c, x);
    Three(c, a, x);
    Facts4(a, k, c, x);
    hide Ccw;
  }

  lemma OnIsAlong(p: Point, a: Point, b: Point)
    requires On(p, a, b)
    ensures SameRay(a, p, b) && SameRay(b, p, a)
  {
    hide Ccw;
    Three(a, b, p);
  }
}
