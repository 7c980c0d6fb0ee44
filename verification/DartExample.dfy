/** A polygon with a bend and with corners in line, for which clipping completes. */
module DartExample {
  import opened Geometry
  import opened EarClip
  import opened EarClipTheorems
  import opened Orientation
  import opened Winding
  import opened TwoEars

  function X(k: nat): int {
    if k == 1 then 2 else if k == 2 then 4 else if k == 3 then 1 else 0
  }

  function Y(k: nat): int {
    if k == 3 then 1 else if k == 4 then 4 else if k == 5 then 2 else 0
  }

  /** A dart: a triangle with one side bent inwards, a straight corner on each of two other sides, and these two
      in line with the bend: (0, 0), (2, 0), (4, 0), (1, 1), (0, 4), (0, 2). */
  function Dart(): (p: seq<Point>)
    ensures |p| == 6
  {
    seq(6, k requires 0 <= k < 6 => Point(X(k) as real, Y(k) as real))
  }

  lemma DartAt(k: nat)
    requires k < 6
    ensures Dart()[k] == Point(X(k) as real, Y(k) as real)
  {
  }

  /** How three of its corners turn, in whole numbers. */
  function Turn(a: nat, b: nat, c: nat): int {
    (X(b) - X(a)) * (Y(c) - Y(a)) - (Y(b) - Y(a)) * (X(c) - X(a))
  }

  lemma WholeProduct(m: int, n: int)
    ensures (m as real) * (n as real) == (m * n) as real
  {
  }

  lemma DartTurns(a: nat, b: nat, c: nat)
    requires a < 6 && b < 6 && c < 6
    ensures Cross2(Dart()[a], Dart()[b], Dart()[c]) == Turn(a, b, c) as real
  {
    hide X, Y, Dart;
    DartAt(a);
    DartAt(b);
    DartAt(c);
    WholeProduct(X(b) - X(a), Y(c) - Y(a));
    WholeProduct(Y(b) - Y(a), X(c) - X(a));
  }

  lemma DartIsDistinct()
    ensures Distinct(Dart())
  {
  }

  lemma Coordinates()
    ensures X(0) == 0 && X(1) == 2 && X(2) == 4 && X(3) == 1 && X(4) == 0 && X(5) == 0
    ensures Y(0) == 0 && Y(1) == 0 && Y(2) == 0 && Y(3) == 1 && Y(4) == 4 && Y(5) == 2
  {
  }

  /** Two corners on one side of the line through two others. */
  lemma OneSide(a: nat, b: nat, c: nat, d: nat)
    requires a < 6 && b < 6 && c < 6 && d < 6 && Apart(a, b, c) && d != a && d != b && d != c
    requires (Turn(a, b, c) > 0 && Turn(a, b, d) > 0) || (Turn(a, b, c) < 0 && Turn(a, b, d) < 0)
    ensures Clear(Dart(), a, b, c, d) && Clear(Dart(), c, d, a, b)
  {
    hide Dart, Turn, Before, Cross2;
    var p := Dart();
    DartIsDistinct();
    FourDistinct(p, a, b, c, d);
    DartTurns(a, b, c);
    DartTurns(a, b, d);
    Three(p[a], p[b], p[c]);
    Three(p[a], p[b], p[d]);
    BothBeside(p[a], p[b], p[c], p[d]);
  }

  lemma BothBeside(a: Point, b: Point, c: Point, d: Point)
    requires Distinct4(a, b, c, d) && ((Ccw(a, b, c) && Ccw(a, b, d)) || (Ccw(a, c, b) && Ccw(a, d, b)))
    ensures !Meets(a, b, c, d) && !Meets(c, d, a, b)
  {
    hide Ccw, Before;
    Facts4(a, b, c, d);
  }

  /** Two sides that end in a corner where the polygon turns, or goes straight on. */
  lemma Opens(w: nat, y: nat, z: nat)
    requires w < 6 && y < 6 && z < 6 && Apart(w, y, z)
    requires Turn(w, y, z) != 0 || X(y) < X(w) < X(z) || (X(y) == X(w) == X(z) && Y(z) < Y(w) < Y(y))
    ensures Clear(Dart(), y, w, w, z) && Clear(Dart(), w, y, z, w)
  {
    hide Dart, Turn, Cross2;
    var p := Dart();
    DartTurns(w, y, z);
    Three(p[w], p[y], p[z]);
    hide Ccw;
    WholeOrder(w, y);
    WholeOrder(w, z);
    SameRayFlips(p[w], p[y], p[z]);
  }

  lemma WholeOrder(a: nat, b: nat)
    requires a < 6 && b < 6
    ensures Before(Dart()[a], Dart()[b]) <==> X(a) < X(b) || (X(a) == X(b) && Y(a) < Y(b))
  {
    hide X, Y, Dart;
    DartAt(a);
    DartAt(b);
  }

  lemma FarFrom0()
    ensures Clear(Dart(), 0, 1, 2, 3)
    ensures Clear(Dart(), 0, 1, 3, 4)
    ensures Clear(Dart(), 0, 1, 4, 5)
  {
    hide Clear, Dart, X, Y;
    Coordinates();
    OneSide(2, 3, 0, 1);
    OneSide(0, 1, 3, 4);
    OneSide(0, 1, 4, 5);
  }

  lemma FarFrom1()
    ensures Clear(Dart(), 1, 2, 3, 4)
    ensures Clear(Dart(), 1, 2, 4, 5)
    ensures Clear(Dart(), 1, 2, 5, 0)
  {
    hide Clear, Dart, X, Y;
    Coordinates();
    OneSide(1, 2, 3, 4);
    OneSide(1, 2, 4, 5);
    OneSide(5, 0, 1, 2);
  }

  lemma FarFrom2()
    ensures Clear(Dart(), 2, 3, 4, 5)
    ensures Clear(Dart(), 2, 3, 5, 0)
  {
    hide Clear, Dart, X, Y;
    Coordinates();
    OneSide(2, 3, 4, 5);
    OneSide(5, 0, 2, 3);
  }

  lemma FarFrom3()
    ensures Clear(Dart(), 3, 4, 5, 0)
  {
    hide Clear, Dart, X, Y;
    Coordinates();
    OneSide(3, 4, 5, 0);
  }

  lemma FarSides()
    ensures forall i: nat, j: nat :: i + 1 < j < 6 && (i != 0 || j != 5) ==> Clear(Dart(), i, Following(6, i), j, Following(6, j))
  {
    hide Clear, Dart;
    FarFrom0();
    FarFrom1();
    FarFrom2();
    FarFrom3();
  }

  lemma SidesInARow()
    ensures Clear(Dart(), 0, 1, 1, 2)
    ensures Clear(Dart(), 1, 2, 2, 3)
    ensures Clear(Dart(), 2, 3, 3, 4)
    ensures Clear(Dart(), 3, 4, 4, 5)
    ensures Clear(Dart(), 4, 5, 5, 0)
    ensures Clear(Dart(), 0, 1, 5, 0)
  {
    hide Clear, Dart, X, Y;
    Coordinates();
    Opens(1, 0, 2);
    Opens(2, 1, 3);
    Opens(3, 2, 4);
    Opens(4, 3, 5);
    Opens(5, 4, 0);
    Opens(0, 1, 5);
  }

  lemma NearSides()
    ensures forall i: nat :: i < 5 ==> Clear(Dart(), i, Following(6, i), i + 1, Following(6, i + 1))
    ensures Clear(Dart(), 0, 1, 5, 0)
  {
    hide Clear, Dart;
    SidesInARow();
  }

  lemma DartIsSimple()
    ensures Distinct(Dart()) && Simple(Dart(), Range(6))
  {
    hide Clear, Dart, Next, Distinct;
    DartIsDistinct();
    FarSides();
    NearSides();
    var p, s := Dart(), Range(6);
    forall k: nat | k < 6 ensures s[k] == k && Next(s, k) == Following(6, k) {
      RangeSide(6, k);
    }
    forall k: nat, e: nat | k < 6 && e < 6 ensures Clear(p, s[k], Next(s, k), s[e], Next(s, e)) {
      if e < k {
        ClearFlips(p, e, Following(6, e), k, Following(6, k));
      } else if e == k {
        ClearOfItself(p, k, Following(6, k));
      }
    }
    forall k: nat | k < 6 ensures Uncrossed(p, s, s[k], Next(s, k)) {
    }
  }

  /** Whole coordinates give whole turns. */
  lemma DartIsResolved()
    ensures Resolved(Dart())
  {
    hide Dart, Turn, Cross2;
    forall a: nat, b: nat, c: nat | a < 6 && b < 6 && c < 6 ensures TurnResolved(Dart(), a, b, c) {
      DartTurns(a, b, c);
      assert Turn(a, b, c) == 0 || Turn(a, b, c) >= 1 || Turn(a, b, c) <= -1;
    }
  }

  /** The result reaches beyond convex polygons, and beyond corners in general position. */
  lemma DartIsCutToo()
    ensures SimplePolygon(Dart()) && Resolved(Dart())
    ensures !Convex(Dart(), true) && !Convex(Dart(), false)
  {
    hide Dart, SimplePolygon, Simple, Resolved, Cross2, Distinct;
    DartTurns(0, 1, 2);
    assert !TurnsWith(Dart(), true, Triangle(0, 1, 2)) && !TurnsWith(Dart(), false, Triangle(0, 1, 2));
    DartIsSimple();
    SimpleTest(Dart());
    DartIsResolved();
  }
}
