/** Every simple polygon has an ear, and what is left after cutting one off is a simple polygon again; so
    clipping completes wherever the tolerance does not hide a turn. */
module TwoEars {
  import opened Common
  import opened Geometry
  import opened EarClip
  import opened EarClipTheorems
  import opened Orientation
  import opened Segments
  import opened Winding

  // ------------------------------------------------------------------
  // The first corner
  // ------------------------------------------------------------------

  ghost predicate IsFirst(points: seq<Point>, s: seq<nat>, k: nat)
    requires InRange(points, s) && k < |s|
  {
    forall m: nat :: m < |s| ==> !Before(points[s[m]], points[s[k]])
  }

  lemma FirstCorner(points: seq<Point>, s: seq<nat>) returns (k: nat)
    requires InRange(points, s) && s != []
    ensures k < |s| && IsFirst(points, s, k)
  {
    k := 0;
    for n := 1 to |s|
      invariant k < n && forall m: nat :: m < n ==> !Before(points[s[m]], points[s[k]])
    {
      if Before(points[s[n]], points[s[k]]) {
        k := n;
      }
    }
  }

  lemma FirstIsBefore(points: seq<Point>, s: seq<nat>, k: nat, m: nat)
    requires Distinct(points) && Ring(points, s) && k < |s| && IsFirst(points, s, k) && m < |s| && m != k
    ensures Before(points[s[k]], points[s[m]])
  {
    TwoDistinct(points, s[k], s[m]);
  }

  /** Next to its first corner the polygon's left side is its inside exactly if it turns left there. */
  lemma LeftOfFirst(points: seq<Point>, s: seq<nat>, k: nat)
    requires Distinct(points) && Ring(points, s) && k < |s| && IsFirst(points, s, k)
    ensures LeftWinds(points, s, k) == One(TurnsLeft(points, s, k))
  {
    FirstIsOutside(points, s, points[s[k]]);
    FirstIsBefore(points, s, k, NextIdx(s, k));
    assert Before(points[s[k]], points[Next(s, k)]);
    var p: nat := if k == 0 then |s| - 1 else k - 1;
    assert !Before(points[s[p]], points[s[k]]);
  }

  // ------------------------------------------------------------------
  // Corners inside a triangle
  // ------------------------------------------------------------------

  ghost predicate NoneInside(points: seq<Point>, s: seq<nat>, a: nat, k: nat, c: nat)
    requires InRange(points, s) && a < |points| && k < |points| && c < |points|
  {
    forall m: nat :: m < |s| ==> !InTip(points[a], points[k], points[c], points[s[m]])
  }

  /** Of all corners in the triangle none has a smaller angle at `a` than `z`. */
  ghost predicate LeastAngle(points: seq<Point>, s: seq<nat>, a: nat, k: nat, c: nat, z: nat)
    requires InRange(points, s) && a < |points| && k < |points| && c < |points| && z < |points|
  {
    && InTip(points[a], points[k], points[c], points[z])
    && forall m: nat :: m < |s| ==> NotBefore(points[a], points[k], points[c], points[z], points[s[m]])
  }

  lemma CornersNotInside(a: Point, k: Point, c: Point)
    ensures !InTip(a, k, c, a) && !InTip(a, k, c, k) && !InTip(a, k, c, c)
  {
  }

  lemma {:induction false} FindLeastAngle(points: seq<Point>, s: seq<nat>, a: nat, k: nat, c: nat) returns (m: Option<nat>)
    requires InRange(points, s) && a < |points| && k < |points| && c < |points|
    ensures m.None? ==> NoneInside(points, s, a, k, c)
    ensures m.Some? ==> m.value < |s| && LeastAngle(points, s, a, k, c, s[m.value])
  {
    hide InTip, NotBefore;
    if s == [] {
      return None;
    }
    var n := |s| - 1;
    var front, y := s[..n], s[n];
    var m0 := FindLeastAngle(points, front, a, k, c);
    assert forall t: nat :: t < n ==> s[t] == front[t];
    if !InTip(points[a], points[k], points[c], points[y]) {
      m := m0;
      if m.Some? {
        OutsideIsNotBefore(points[a], points[k], points[c], points[s[m.value]], points[y]);
      }
    } else if m0.None? {
      m := Some(n);
      forall t: nat | t < |s| ensures NotBefore(points[a], points[k], points[c], points[y], points[s[t]]) {
        OutsideIsNotBefore(points[a], points[k], points[c], points[y], points[s[t]]);
      }
    } else {
      m := AddLeastAngle(points, s, a, k, c, m0.value);
    }
  }

  lemma OutsideIsNotBefore(a: Point, k: Point, c: Point, z: Point, x: Point)
    ensures !InTip(a, k, c, x) || x == z ==> NotBefore(a, k, c, z, x)
  {
  }

  lemma AddLeastAngle(points: seq<Point>, s: seq<nat>, a: nat, k: nat, c: nat, m0: nat) returns (m: Option<nat>)
    requires InRange(points, s) && a < |points| && k < |points| && c < |points| && s != [] && m0 < |s| - 1
    requires LeastAngle(points, s[..|s| - 1], a, k, c, s[m0])
    requires InTip(points[a], points[k], points[c], points[s[|s| - 1]])
    ensures m.Some? && m.value < |s| && LeastAngle(points, s, a, k, c, s[m.value])
  {
    hide Ccw;
    var n := |s| - 1;
    var y, z, pa, pk, pc := points[s[n]], points[s[m0]], points[a], points[k], points[c];
    assert forall t: nat :: t < n ==> s[t] == s[..n][t];
    if Ccw(pa, y, z) {
      m := Some(n);
      forall t: nat | t < |s| ensures NotBefore(pa, pk, pc, y, points[s[t]]) {
        var x := points[s[t]];
        Three(pa, y, x);
        if InTip(pa, pk, pc, x) && Ccw(pa, x, y) {
          assert t < n ==> NotBefore(pa, pk, pc, z, x);
          AngleTransitive(pa, pk, x, y, z);
        }
      }
    } else {
      m := Some(m0);
    }
  }

  // ------------------------------------------------------------------
  // Sides and triangles
  // ------------------------------------------------------------------

  predicate Apart(a: nat, k: nat, c: nat) {
    a != k && k != c && a != c
  }

  lemma ClearFlips(points: seq<Point>, u: nat, v: nat, p: nat, q: nat)
    requires u < |points| && v < |points| && p < |points| && q < |points|
    requires u != v && p != q && Clear(points, u, v, p, q)
    ensures Clear(points, v, u, p, q) && Clear(points, u, v, q, p) && Clear(points, p, q, u, v)
  {
    hide Meets, SameRay;
    MeetsFlips(points[u], points[v], points[p], points[q]);
    SameRayFlips(points[u], points[v], points[p]);
    SameRayFlips(points[u], points[v], points[q]);
    SameRayFlips(points[v], points[u], points[p]);
    SameRayFlips(points[v], points[u], points[q]);
  }

  lemma UncrossedFlips(points: seq<Point>, s: seq<nat>, u: nat, v: nat)
    requires Distinct(points) && Ring(points, s) && u < |points| && v < |points| && u != v
    requires Uncrossed(points, s, u, v)
    ensures Uncrossed(points, s, v, u)
  {
    forall k: nat | k < |s| ensures Clear(points, v, u, s[k], Next(s, k)) {
      Neighbours(points, s, k);
      ClearFlips(points, u, v, s[k], Next(s, k));
    }
  }

  /** The tip `k` of a triangle, the point `z` with the least angle in it, and a side of which they may be
      ends, but on which they do not lie. */
  ghost predicate BesideSide(points: seq<Point>, a: nat, k: nat, c: nat, z: nat, p: nat, q: nat) {
    && a < |points| && k < |points| && c < |points| && z < |points| && p < |points| && q < |points|
    && p != q && Apart(a, k, c)
    && Ccw(points[a], points[k], points[c]) && InTip(points[a], points[k], points[c], points[z])
    && NotBefore(points[a], points[k], points[c], points[z], points[p])
    && NotBefore(points[a], points[k], points[c], points[z], points[q])
    && Clear(points, a, k, p, q) && Clear(points, k, c, p, q)
    && (p != z && q != z ==> !On(points[z], points[p], points[q]))
    && (p != k && q != k ==> !On(points[k], points[p], points[q]))
  }

  lemma BesideFlips(points: seq<Point>, a: nat, k: nat, c: nat, z: nat, p: nat, q: nat)
    requires BesideSide(points, a, k, c, z, p, q)
    ensures BesideSide(points, a, k, c, z, q, p)
    ensures z != a && z != k && z != c
  {
    hide Ccw, Before, Clear;
    CornersNotInside(points[a], points[k], points[c]);
    ClearFlips(points, a, k, p, q);
    ClearFlips(points, k, c, p, q);
    Three(points[p], points[q], points[z]);
    Three(points[p], points[q], points[k]);
  }

  /** Such a side does not come between the tip and that point. */
  lemma SidePastTip(points: seq<Point>, a: nat, k: nat, c: nat, z: nat, p: nat, q: nat)
    requires Distinct(points) && BesideSide(points, a, k, c, z, p, q)
    ensures Clear(points, k, z, p, q)
  {
    hide Ccw, Before, Meets, SameRay, On, NotBefore, InTip;
    BesideFlips(points, a, k, c, z, p, q);
    if k == p || k == q {
      SideAtTip(points, a, k, c, z, p, q);
    } else if z == p || z == q {
      SideAtPoint(points, a, k, c, z, p, q);
    } else if p == a || p == c {
      SideFromEnd(points, a, k, c, z, p, q);
    } else if q == a || q == c {
      SideFromEnd(points, a, k, c, z, q, p);
      ClearFlips(points, k, z, q, p);
    } else {
      FiveDistinct(points, a, k, c, z, p);
      FiveDistinct(points, a, k, c, z, q);
      TwoDistinct(points, p, q);
      SeenFromTip(points[a], points[k], points[c], points[z], points[p], points[q]);
    }
  }

  lemma SideAtTip(points: seq<Point>, a: nat, k: nat, c: nat, z: nat, p: nat, q: nat)
    requires Distinct(points) && BesideSide(points, a, k, c, z, p, q) && z != a && z != k && z != c && (k == p || k == q)
    ensures Clear(points, k, z, p, q)
  {
    hide Ccw, Before, Meets, On, InTip;
    var v := if k == p then q else p;
    FourDistinct(points, a, k, c, z);
    InsideSplits(points[a], points[k], points[c], points[z]);
    if v != a && v != c && v != z {
      FiveDistinct(points, a, k, c, z, v);
      OnFlips(points[z], points[p], points[q]);
      SeenAlongTip(points[a], points[k], points[c], points[z], points[v]);
    }
    hide SameRay;
  }

  lemma SideAtPoint(points: seq<Point>, a: nat, k: nat, c: nat, z: nat, p: nat, q: nat)
    requires Distinct(points) && BesideSide(points, a, k, c, z, p, q) && z != a && z != k && z != c && (z == p || z == q)
    ensures Clear(points, k, z, p, q)
  {
    hide Ccw, Before, Meets, On, NotBefore;
    var v := if z == p then q else p;
    FourDistinct(points, a, k, c, z);
    Three(points[a], points[k], points[z]);
    Three(points[k], points[c], points[z]);
    if v != a && v != c && v != k {
      FiveDistinct(points, a, k, c, z, v);
      OnFlips(points[k], points[p], points[q]);
      SeenFromPoint(points[a], points[k], points[c], points[z], points[v]);
    }
  }

  lemma OnFlips(x: Point, a: Point, b: Point)
    ensures On(x, a, b) == On(x, b, a)
  {
    hide Ccw, Before;
    Three(a, b, x);
  }

  lemma SideFromEnd(points: seq<Point>, a: nat, k: nat, c: nat, z: nat, p: nat, q: nat)
    requires Distinct(points) && BesideSide(points, a, k, c, z, p, q) && z != a && z != k && z != c
    requires Disjoint2(k, z, p, q) && (p == a || p == c)
    ensures Clear(points, k, z, p, q)
  {
    hide Ccw, Before, Meets, SameRay, On, InTip, NotBefore;
    FourDistinct(points, a, k, c, z);
    if q == a || q == c {
      SeenPastSide2(points[a], points[k], points[c], points[z], points[p], points[q]);
    } else {
      FiveDistinct(points, a, k, c, z, q);
      if p == a {
        SeenPastFirst(points[a], points[k], points[c], points[z], points[q]);
      } else {
        SeenPastLast(points[a], points[k], points[c], points[z], points[q]);
      }
    }
  }

  lemma SeenPastSide2(a: Point, k: Point, c: Point, z: Point, p: Point, q: Point)
    requires Distinct4(a, k, c, z) && Ccw(a, k, c) && InTip(a, k, c, z) && !On(z, p, q)
    requires (p == a && q == c) || (p == c && q == a)
    ensures !Meets(k, z, p, q)
  {
    hide Ccw, Before, Meets, On, InTip;
    OnFlips(z, a, c);
    SeenPastSide(a, k, c, z);
    MeetsFlips(k, z, a, c);
  }

  lemma FiveDistinct(points: seq<Point>, a: nat, b: nat, c: nat, d: nat, e: nat)
    requires Distinct(points)
    requires a < |points| && b < |points| && c < |points| && d < |points| && e < |points|
    requires Apart(a, b, c) && a != d && b != d && c != d && a != e && b != e && c != e && d != e
    ensures Distinct5(points[a], points[b], points[c], points[d], points[e])
  {
    FourDistinct(points, a, b, c, d);
    FourDistinct(points, e, a, b, c);
    TwoDistinct(points, d, e);
  }

  /** Nothing comes between two corners and a side that is clear of the triangle's sides. */
  lemma SideBeside(points: seq<Point>, s: seq<nat>, mk: nat, mz: nat, a: nat, c: nat, p: nat, q: nat)
    requires Ring(points, s) && mk < |s| && mz < |s| && a < |points| && c < |points| && p < |points| && q < |points|
    requires p != q && Apart(a, s[mk], c) && Ccw(points[a], points[s[mk]], points[c])
    requires LeastAngle(points, s, a, s[mk], c, s[mz]) && p in s && q in s
    requires Uncrossed(points, s, p, q) && Clear(points, a, s[mk], p, q) && Clear(points, s[mk], c, p, q)
    ensures BesideSide(points, a, s[mk], c, s[mz], p, q)
  {
    hide Clear, InTip, NotBefore, On, Ccw;
    var i :| 0 <= i < |s| && s[i] == p;
    var j :| 0 <= j < |s| && s[j] == q;
    if p != s[mz] && q != s[mz] {
      CornerOffSegment(points, s, mz, p, q);
    }
    if p != s[mk] && q != s[mk] {
      CornerOffSegment(points, s, mk, p, q);
    }
  }

  /** So the tip sees that point. */
  lemma TipSees(points: seq<Point>, s: seq<nat>, a: nat, mk: nat, c: nat, mz: nat)
    requires Distinct(points) && Ring(points, s) && Simple(points, s) && mk < |s| && mz < |s|
    requires a < |points| && c < |points| && Apart(a, s[mk], c) && Ccw(points[a], points[s[mk]], points[c])
    requires LeastAngle(points, s, a, s[mk], c, s[mz])
    requires Uncrossed(points, s, a, s[mk]) && Uncrossed(points, s, s[mk], c)
    ensures Uncrossed(points, s, s[mk], s[mz])
  {
    hide Clear, LeastAngle, Ccw, BesideSide, Distinct;
    forall e: nat | e < |s| ensures Next(s, e) < |points| && Clear(points, s[mk], s[mz], s[e], Next(s, e)) {
      Neighbours(points, s, e);
      assert s[e] in s;
      assert Clear(points, a, s[mk], s[e], Next(s, e)) && Clear(points, s[mk], c, s[e], Next(s, e));
      SideBeside(points, s, mk, mz, a, c, s[e], Next(s, e));
      SidePastTip(points, a, s[mk], c, s[mz], s[e], Next(s, e));
    }
  }

  // ------------------------------------------------------------------
  // Pieces of a polygon
  // ------------------------------------------------------------------

  /** The corners from position `i` to position `j`, closed by a chord. */
  function Piece(s: seq<nat>, i: nat, j: nat): (q: seq<nat>)
    requires i <= j < |s|
    ensures |q| == j - i + 1 && forall k :: 0 <= k < |q| ==> q[k] == s[i + k]
  {
    s[i..j + 1]
  }

  lemma PieceIsRing(points: seq<Point>, s: seq<nat>, i: nat, j: nat)
    requires Ring(points, s) && i + 2 <= j < |s|
    ensures Ring(points, Piece(s, i, j))
  {
  }

  /** The sides of a piece are sides of the polygon, and the chord. */
  lemma PieceSide(points: seq<Point>, s: seq<nat>, i: nat, j: nat, k: nat)
    requires InRange(points, s) && i < j < |s| && k <= j - i
    ensures var q := Piece(s, i, j);
            && q[k] == s[i + k] && Next(q, k) == (if k < j - i then s[i + k + 1] else s[i])
            && Prev(q, k) == (if k > 0 then s[i + k - 1] else s[j])
            && q[k] < |points| && Next(q, k) < |points| && Prev(q, k) < |points|
    ensures k < j - i ==> Next(s, i + k) == s[i + k + 1]
  {
  }

  lemma PieceUncrossed(points: seq<Point>, s: seq<nat>, i: nat, j: nat, u: nat, v: nat)
    requires Ring(points, s) && i + 2 <= j < |s| && u < |points| && v < |points|
    requires Uncrossed(points, s, u, v) && Clear(points, u, v, s[j], s[i])
    ensures InRange(points, Piece(s, i, j)) && Uncrossed(points, Piece(s, i, j), u, v)
  {
    hide Meets, SameRay, Piece, Next, Prev;
    var q := Piece(s, i, j);
    PieceIsRing(points, s, i, j);
    forall k: nat | k < |q| ensures Next(q, k) < |points| && Clear(points, u, v, q[k], Next(q, k)) {
      PieceSide(points, s, i, j, k);
      if k < j - i {
        assert Clear(points, u, v, s[i + k], Next(s, i + k));
      }
    }
  }

  lemma PieceIsSimple(points: seq<Point>, s: seq<nat>, i: nat, j: nat)
    requires Distinct(points) && Ring(points, s) && Simple(points, s) && i + 2 <= j < |s|
    requires Uncrossed(points, s, s[j], s[i])
    ensures Ring(points, Piece(s, i, j)) && Simple(points, Piece(s, i, j))
  {
    hide Meets, SameRay, Piece, Next, Prev, Distinct;
    PieceIsRing(points, s, i, j);
    var q := Piece(s, i, j);
    forall k: nat | k < |q| ensures Next(q, k) < |points| && Uncrossed(points, q, q[k], Next(q, k)) {
      PieceSide(points, s, i, j, k);
      if k < j - i {
        SideIsUncrossed(points, s, i, j, i + k);
      } else {
        PieceUncrossed(points, s, i, j, s[j], s[i]);
      }
    }
  }

  /** No side of a piece meets a side of the polygon, but in a shared end. */
  lemma SideIsUncrossed(points: seq<Point>, s: seq<nat>, i: nat, j: nat, m: nat)
    requires Distinct(points) && Ring(points, s) && Simple(points, s) && i + 2 <= j < |s| && m < |s|
    requires Uncrossed(points, s, s[j], s[i])
    ensures InRange(points, Piece(s, i, j)) && Uncrossed(points, Piece(s, i, j), s[m], Next(s, m))
  {
    hide Meets, SameRay, Piece, Prev, Clear, Distinct;
    assert Clear(points, s[j], s[i], s[m], Next(s, m));
    Neighbours(points, s, m);
    ClearFlips(points, s[j], s[i], s[m], Next(s, m));
    PieceUncrossed(points, s, i, j, s[m], Next(s, m));
  }

  /** No corner of the polygon outside the piece lies in it. */
  ghost predicate OthersOutside(points: seq<Point>, s: seq<nat>, i: nat, j: nat)
    requires InRange(points, s) && i <= j < |s|
  {
    forall m: nat :: m < |s| && !(i <= m <= j) ==> Winds(points, Piece(s, i, j), points[s[m]]) == 0.0
  }

  /** A piece cut off by a chord that meets no side and runs inside the polygon. */
  ghost predicate IsCut(points: seq<Point>, s: seq<nat>, i: nat, j: nat) {
    && Ring(points, s) && i + 2 <= j < |s| && Uncrossed(points, s, s[j], s[i])
    && LeftWinds(points, Piece(s, i, j), 0) == 1.0 && OthersOutside(points, s, i, j)
  }

  /** The sides of a piece at its corner `k` are clear of the sides of the polygon. */
  lemma CornerUncrossed(points: seq<Point>, s: seq<nat>, i: nat, j: nat, k: nat)
    requires IsCut(points, s, i, j) && Simple(points, s) && k <= j - i
    ensures var q := Piece(s, i, j);
            && Prev(q, k) < |points| && q[k] < |points| && Next(q, k) < |points|
            && Uncrossed(points, s, Prev(q, k), q[k]) && Uncrossed(points, s, q[k], Next(q, k))
  {
    hide Meets, SameRay, Piece, Next, Prev, Clear, Uncrossed, Distinct, LeftWinds, OthersOutside;
    PieceSide(points, s, i, j, k);
    if k > 0 {
      PieceSide(points, s, i, j, k - 1);
      assert Uncrossed(points, s, s[i + k - 1], Next(s, i + k - 1));
    }
    if k < j - i {
      assert Uncrossed(points, s, s[i + k], Next(s, i + k));
    }
  }

  // ------------------------------------------------------------------
  // A point inside the first corner's triangle splits the piece
  // ------------------------------------------------------------------

  /** Such a point belongs to the piece. */
  lemma SeenIsInPiece(points: seq<Point>, s: seq<nat>, i: nat, j: nat, k: nat, m: nat)
    requires Distinct(points) && IsCut(points, s, i, j) && Simple(points, s) && k <= j - i && m < |s|
    requires TurnsLeft(points, Piece(s, i, j), k) && InEar(points, Piece(s, i, j), k, s[m])
    requires LeftWinds(points, Piece(s, i, j), k) == 1.0
    requires Uncrossed(points, Piece(s, i, j), s[m], s[i + k])
    ensures i <= m <= j
  {
    hide Meets, SameRay, Piece, InTip, InCone, Ccw, LeftWinds, Winds;
    var q := Piece(s, i, j);
    PieceIsSimple(points, s, i, j);
    if !(i <= m <= j) {
      PieceSide(points, s, i, j, k);
      NotInPiece(s, i, j, m);
      Neighbours(points, q, k);
      FourDistinct(points, Prev(q, k), q[k], Next(q, k), s[m]);
      InsideSplits(points[Prev(q, k)], points[q[k]], points[Next(q, k)], points[s[m]]);
      LeavesCorner(points, q, k, s[m]);
    }
  }

  /** Walking along the polygon outside a piece does not change how the piece winds. */
  lemma {:induction false} WalkOutside(points: seq<Point>, s: seq<nat>, i: nat, j: nat, u: nat, v: nat)
    requires Distinct(points) && Ring(points, s) && Simple(points, s) && i + 2 <= j < |s|
    requires Uncrossed(points, s, s[j], s[i]) && u <= v < |s| && (v < i || j < u)
    ensures Winds(points, Piece(s, i, j), points[s[u]]) == Winds(points, Piece(s, i, j), points[s[v]])
    decreases v - u
  {
    hide Winds, Piece, Simple, Uncrossed, Distinct;
    if u < v {
      WalkOutside(points, s, i, j, u, v - 1);
      assert NextIdx(s, v - 1) == v;
      hide Winds, Piece, Simple, Uncrossed, Ring, Distinct;
      StepOutside(points, s, i, j, v - 1);
    }
  }

  lemma StepOutside(points: seq<Point>, s: seq<nat>, i: nat, j: nat, m: nat)
    requires Distinct(points) && Ring(points, s) && Simple(points, s) && i + 2 <= j < |s|
    requires Uncrossed(points, s, s[j], s[i]) && m < |s| && !(i <= m <= j) && !(i <= NextIdx(s, m) <= j)
    ensures Winds(points, Piece(s, i, j), points[s[m]]) == Winds(points, Piece(s, i, j), points[Next(s, m)])
  {
    hide Winds, Piece, Uncrossed, Simple, Distinct;
    PieceIsRing(points, s, i, j);
    Neighbours(points, s, m);
    SideIsUncrossed(points, s, i, j, m);
    assert Next(s, m) == s[NextIdx(s, m)];
    WindsSame(points, Piece(s, i, j), s[m], Next(s, m));
  }

  lemma AllOutside(points: seq<Point>, s: seq<nat>, i: nat, j: nat, y: nat)
    requires Distinct(points) && Ring(points, s) && Simple(points, s) && i + 2 <= j < |s|
    requires Uncrossed(points, s, s[j], s[i]) && y < |s| && !(i <= y <= j)
    requires Winds(points, Piece(s, i, j), points[s[y]]) == 0.0
    ensures OthersOutside(points, s, i, j)
  {
    hide Winds, Piece, Simple, Uncrossed, Distinct;
    var n := |s|;
    forall m: nat | m < |s| && !(i <= m <= j) ensures Winds(points, Piece(s, i, j), points[s[m]]) == 0.0 {
      if (m < i) == (y < i) {
        if m <= y {
          WalkOutside(points, s, i, j, m, y);
        } else {
          WalkOutside(points, s, i, j, y, m);
        }
      } else {
        var low, high := if m < i then m else y, if m < i then y else m;
        WalkOutside(points, s, i, j, 0, low);
        WalkOutside(points, s, i, j, high, n - 1);
        StepOutside(points, s, i, j, n - 1);
      }
    }
  }

  // ------------------------------------------------------------------
  // Splitting a piece at a point inside its first corner's triangle
  // ------------------------------------------------------------------

  /** The corner at `k` of the piece is its first, and turns left. */
  ghost predicate IsTip(points: seq<Point>, s: seq<nat>, i: nat, j: nat, k: nat) {
    && IsCut(points, s, i, j) && Simple(points, s) && k <= j - i
    && InRange(points, Piece(s, i, j))
    && Prev(Piece(s, i, j), k) < |points| && Next(Piece(s, i, j), k) < |points|
    && TurnsLeft(points, Piece(s, i, j), k) && IsFirst(points, Piece(s, i, j), k)
    && LeftWinds(points, Piece(s, i, j), k) == 1.0
  }

  lemma FindTip(points: seq<Point>, s: seq<nat>, i: nat, j: nat) returns (k: nat)
    requires Distinct(points) && IsCut(points, s, i, j) && Simple(points, s)
    ensures InRange(points, s) && IsTip(points, s, i, j, k) && Apart(Prev(Piece(s, i, j), k), s[i + k], Next(Piece(s, i, j), k))
  {
    hide Meets, SameRay, Piece, Distinct, LeftWinds, Uncrossed, OthersOutside, TurnsLeft;
    var q := Piece(s, i, j);
    PieceIsSimple(points, s, i, j);
    k := FirstCorner(points, q);
    PieceSide(points, s, i, j, k);
    LeftOfFirst(points, q, k);
    LeftEverywhere(points, q, k);
    Neighbours(points, q, k);
  }

  /** The point `s[m]` has the least angle of those in the triangle at the tip. */
  ghost predicate TipAndPoint(points: seq<Point>, s: seq<nat>, i: nat, j: nat, k: nat, m: nat) {
    && IsTip(points, s, i, j, k) && m < |s|
    && LeastAngle(points, s, Prev(Piece(s, i, j), k), s[i + k], Next(Piece(s, i, j), k), s[m])
  }

  lemma TipSeesPoint(points: seq<Point>, s: seq<nat>, i: nat, j: nat, k: nat, m: nat)
    requires Distinct(points) && TipAndPoint(points, s, i, j, k, m)
    ensures Uncrossed(points, s, s[i + k], s[m]) && Uncrossed(points, s, s[m], s[i + k])
    ensures Uncrossed(points, Piece(s, i, j), s[m], s[i + k])
    ensures s[m] != s[i + k] && s[m] != Prev(Piece(s, i, j), k) && s[m] != Next(Piece(s, i, j), k)
  {
    hide Meets, SameRay, Piece, Next, Prev, Distinct, LeftWinds, OthersOutside, On, InTip, NotBefore, Ccw;
    var q := Piece(s, i, j);
    var a, b, c, z := Prev(q, k), s[i + k], Next(q, k), s[m];
    PieceSide(points, s, i, j, k);
    PieceIsSimple(points, s, i, j);
    Neighbours(points, q, k);
    CornerUncrossed(points, s, i, j, k);
    CornersNotInside(points[a], points[b], points[c]);
    TipSees(points, s, a, i + k, c, m);
    ChordPastTip(points, s, i, j, k, m);
    UncrossedFlips(points, s, b, z);
    ClearFlips(points, b, z, s[j], s[i]);
    PieceUncrossed(points, s, i, j, z, b);
  }

  /** The chord of the piece is not in the way either. */
  lemma ChordPastTip(points: seq<Point>, s: seq<nat>, i: nat, j: nat, k: nat, m: nat)
    requires Distinct(points) && TipAndPoint(points, s, i, j, k, m)
    ensures Clear(points, s[i + k], s[m], s[j], s[i])
  {
    hide Clear, Piece, Next, Prev, Distinct, LeftWinds, OthersOutside, InTip, NotBefore, Ccw;
    var q := Piece(s, i, j);
    var a, b, c := Prev(q, k), s[i + k], Next(q, k);
    PieceSide(points, s, i, j, k);
    PieceSide(points, s, i, j, j - i);
    PieceIsSimple(points, s, i, j);
    Neighbours(points, q, k);
    CornerSides(points, q, k);
    assert Clear(points, a, b, q[j - i], Next(q, j - i)) && Clear(points, b, c, q[j - i], Next(q, j - i));
    SideBeside(points, s, i + k, m, a, c, s[j], s[i]);
    SidePastTip(points, a, b, c, s[m], s[j], s[i]);
  }

  /** A chord from the first corner, seen from a corner `s[y]` next to it that the chord cuts off. */
  lemma ChordCuts(points: seq<Point>, s: seq<nat>, lo: nat, hi: nat, k: nat, y: nat)
    requires Distinct(points) && Ring(points, s) && Simple(points, s) && lo + 2 <= hi < |s|
    requires Uncrossed(points, s, s[hi], s[lo]) && (k == 0 || k == hi - lo) && y < |s| && !(lo <= y <= hi)
    requires InRange(points, Piece(s, lo, hi)) && IsFirst(points, Piece(s, lo, hi), k)
    requires TurnsLeft(points, Piece(s, lo, hi), k) && Uncrossed(points, s, s[y], s[lo + k])
    requires !ConeHas(points, Piece(s, lo, hi), k, s[y]) && Clear(points, s[y], s[lo + k], s[hi], s[lo])
    ensures IsCut(points, s, lo, hi)
  {
    hide Meets, SameRay, Piece, Next, Prev, Distinct, ConeHas, TurnsLeft, Winds;
    var q := Piece(s, lo, hi);
    PieceIsSimple(points, s, lo, hi);
    LeftOfFirst(points, q, k);
    LeftEverywhere(points, q, k);
    PieceUncrossed(points, s, lo, hi, s[y], s[lo + k]);
    NotInPiece(s, lo, hi, y);
    LeavesCorner(points, q, k, s[y]);
    AllOutside(points, s, lo, hi, y);
  }

  lemma NotInPiece(s: seq<nat>, lo: nat, hi: nat, y: nat)
    requires lo <= hi < |s| && y < |s| && !(lo <= y <= hi)
    requires forall i, j :: 0 <= i < j < |s| ==> s[i] != s[j]
    ensures s[y] !in Piece(s, lo, hi)
  {
  }

  lemma ClearShared(points: seq<Point>, u: nat, b: nat, z: nat)
    requires u < |points| && b < |points| && z < |points| && u != b && z != b && u != z
    requires !SameRay(points[b], points[z], points[u])
    ensures Clear(points, u, b, z, b) && Clear(points, u, b, b, z)
  {
    hide SameRay;
    SameRayFlips(points[b], points[z], points[u]);
  }

  /** The chord to a later corner. */
  lemma SplitForward(points: seq<Point>, s: seq<nat>, i: nat, j: nat, k: nat, m: nat)
    requires Distinct(points) && TipAndPoint(points, s, i, j, k, m) && i + k < m <= j
    ensures IsCut(points, s, i + k, m) && m - (i + k) < j - i
  {
    hide Meets, SameRay, Piece, Distinct, LeftWinds, OthersOutside, Uncrossed, Simple;
    var q, lo := Piece(s, i, j), i + k;
    var a, b, c, z := Prev(q, k), s[lo], Next(q, k), s[m];
    PieceSide(points, s, i, j, k);
    PieceIsRing(points, s, i, j);
    Neighbours(points, q, k);
    TipSeesPoint(points, s, i, j, k, m);
    CornerUncrossed(points, s, i, j, k);
    FourDistinct(points, a, b, c, z);
    InsideSplits(points[a], points[b], points[c], points[z]);
    var y := if k > 0 then lo - 1 else j;
    PieceIsRing(points, s, lo, m);
    PieceSide(points, s, lo, m, 0);
    FirstOfPart(points, s, i, j, k, lo, m);
    ClearShared(points, a, b, z);
    ChordCuts(points, s, lo, m, 0, y);
  }

  /** The chord to an earlier corner. */
  lemma SplitBackward(points: seq<Point>, s: seq<nat>, i: nat, j: nat, k: nat, m: nat)
    requires Distinct(points) && TipAndPoint(points, s, i, j, k, m) && i <= m < i + k
    ensures IsCut(points, s, m, i + k) && i + k - m < j - i
  {
    hide Meets, SameRay, Piece, Distinct, LeftWinds, OthersOutside, Uncrossed, Simple;
    var q, hi := Piece(s, i, j), i + k;
    var a, b, c, z := Prev(q, k), s[hi], Next(q, k), s[m];
    PieceSide(points, s, i, j, k);
    PieceIsRing(points, s, i, j);
    Neighbours(points, q, k);
    TipSeesPoint(points, s, i, j, k, m);
    CornerUncrossed(points, s, i, j, k);
    UncrossedFlips(points, s, b, c);
    FourDistinct(points, a, b, c, z);
    InsideSplits(points[a], points[b], points[c], points[z]);
    var y := if k < j - i then hi + 1 else i;
    PieceIsRing(points, s, m, hi);
    PieceSide(points, s, m, hi, hi - m);
    FirstOfPart(points, s, i, j, k, m, hi);
    ClearShared(points, c, b, z);
    ChordCuts(points, s, m, hi, hi - m, y);
  }

  lemma FirstOfPart(points: seq<Point>, s: seq<nat>, i: nat, j: nat, k: nat, lo: nat, hi: nat)
    requires i <= lo <= i + k <= hi <= j < |s| && InRange(points, s)
    requires InRange(points, Piece(s, i, j)) && IsFirst(points, Piece(s, i, j), k)
    ensures InRange(points, Piece(s, lo, hi)) && IsFirst(points, Piece(s, lo, hi), i + k - lo)
  {
    var q, r := Piece(s, i, j), Piece(s, lo, hi);
    forall m: nat | m < |r| ensures !Before(points[r[m]], points[r[i + k - lo]]) {
      assert r[m] == q[lo - i + m];
    }
  }

  // ------------------------------------------------------------------
  // An empty first corner at the chord
  // ------------------------------------------------------------------

  /** Cutting off an empty corner: a side away from the corner is not in the way. */
  lemma SidePastCorner(points: seq<Point>, a: nat, b: nat, c: nat, p: nat, q: nat)
    requires Distinct(points) && a < |points| && b < |points| && c < |points| && p < |points| && q < |points|
    requires Apart(a, b, c) && p != q && p != b && q != b && Ccw(points[a], points[b], points[c])
    requires !InTip(points[a], points[b], points[c], points[p]) && !InTip(points[a], points[b], points[c], points[q])
    requires Clear(points, a, b, p, q) && Clear(points, b, c, p, q)
    ensures Clear(points, a, c, p, q)
  {
    hide Ccw, Before, Meets, SameRay, InTip;
    ClearFlips(points, a, b, p, q);
    ClearFlips(points, b, c, p, q);
    if Disjoint2(a, c, p, q) {
      FiveDistinct(points, a, b, c, p, q);
      EmptyUncrossed(points[a], points[b], points[c], points[p], points[q]);
    } else if p == a || p == c {
      SideFromCorner(points, a, b, c, p, q);
    } else {
      SideFromCorner(points, a, b, c, q, p);
      ClearFlips(points, a, c, q, p);
    }
  }

  lemma SideFromCorner(points: seq<Point>, a: nat, b: nat, c: nat, p: nat, q: nat)
    requires Distinct(points) && a < |points| && b < |points| && c < |points| && p < |points| && q < |points|
    requires Apart(a, b, c) && p != q && q != b && (p == a || p == c) && Ccw(points[a], points[b], points[c])
    requires !InTip(points[a], points[b], points[c], points[q])
    requires Clear(points, a, b, p, q) && Clear(points, b, c, p, q)
    ensures Clear(points, a, c, p, q)
  {
    hide Ccw, Before, Meets, SameRay, InTip;
    if q != a && q != c {
      FourDistinct(points, a, b, c, q);
      if p == a {
        OffTheCut(points[a], points[b], points[c], points[q]);
      } else {
        OffTheCutBack(points[a], points[b], points[c], points[q]);
      }
    }
  }

  /** A side at a corner is clear of the line that cuts the corner off. */
  lemma CornerPastCut(points: seq<Point>, a: nat, b: nat, c: nat, v: nat)
    requires a < |points| && b < |points| && c < |points| && Apart(a, b, c) && Ccw(points[a], points[b], points[c])
    requires v == a || v == c
    ensures Clear(points, a, c, b, v) && Clear(points, a, c, v, b)
  {
    hide Ccw, Before, Meets;
    Three(points[a], points[b], points[c]);
  }

  /** The tip has no point of the polygon inside. */
  ghost predicate EmptyTip(points: seq<Point>, s: seq<nat>, i: nat, j: nat, k: nat) {
    IsTip(points, s, i, j, k)
    && NoneInside(points, s, Prev(Piece(s, i, j), k), s[i + k], Next(Piece(s, i, j), k))
  }

  /** A side of the polygon that ends at the tip and belongs neither to the piece nor ends next to the tip. */
  lemma SideFromTip(points: seq<Point>, s: seq<nat>, i: nat, j: nat, k: nat, e: nat, v: nat)
    requires Distinct(points) && EmptyTip(points, s, i, j, k) && e < |s|
    requires (s[e] == s[i + k] && v == Next(s, e)) || (Next(s, e) == s[i + k] && v == s[e])
    requires v != Prev(Piece(s, i, j), k) && v != Next(Piece(s, i, j), k)
    ensures v < |points|
    ensures Clear(points, Prev(Piece(s, i, j), k), Next(Piece(s, i, j), k), s[i + k], v)
    ensures Clear(points, Prev(Piece(s, i, j), k), Next(Piece(s, i, j), k), v, s[i + k])
  {
    hide Meets, SameRay, Piece, Distinct, LeftWinds, Uncrossed, Simple, Ccw, InCone;
    var q, b := Piece(s, i, j), s[i + k];
    var y := OtherEnd(points, s, i, j, k, e, v);
    PieceSide(points, s, i, j, k);
    PieceIsRing(points, s, i, j);
    Neighbours(points, q, k);
    Neighbours(points, s, e);
    SideIsUncrossed(points, s, i, j, e);
    PieceIsSimple(points, s, i, j);
    UncrossedFlips(points, q, s[e], Next(s, e));
    NotInPiece(s, i, j, y);
    LeavesCorner(points, q, k, v);
    FourDistinct(points, Prev(q, k), b, Next(q, k), v);
    TipBesideSide(points, s, i, j, k, e, v);
    OutsideCone(points[Prev(q, k)], points[b], points[Next(q, k)], points[v]);
    MeetsFlips(points[Prev(q, k)], points[Next(q, k)], points[b], points[v]);
  }

  /** Such a side runs along neither side of the piece at the tip. */
  lemma TipBesideSide(points: seq<Point>, s: seq<nat>, i: nat, j: nat, k: nat, e: nat, v: nat)
    requires Distinct(points) && EmptyTip(points, s, i, j, k) && e < |s| && v < |points|
    requires (s[e] == s[i + k] && v == Next(s, e)) || (Next(s, e) == s[i + k] && v == s[e])
    requires v != Prev(Piece(s, i, j), k) && v != Next(Piece(s, i, j), k)
    ensures !SameRay(points[s[i + k]], points[Prev(Piece(s, i, j), k)], points[v])
    ensures !SameRay(points[s[i + k]], points[Next(Piece(s, i, j), k)], points[v])
  {
    hide Meets, SameRay, Piece, Distinct, LeftWinds, Simple, Ccw, Clear, Prev, Next;
    var q, b := Piece(s, i, j), s[i + k];
    var a, c := Prev(q, k), Next(q, k);
    PieceSide(points, s, i, j, k);
    PieceIsRing(points, s, i, j);
    Neighbours(points, q, k);
    Neighbours(points, s, e);
    CornerUncrossed(points, s, i, j, k);
    assert Clear(points, a, b, s[e], Next(s, e)) && Clear(points, b, c, s[e], Next(s, e));
    ClearFlips(points, b, c, s[e], Next(s, e));
    ClearAtEnd(points, a, b, v);
    ClearAtEnd(points, c, b, v);
  }

  lemma OtherEnd(points: seq<Point>, s: seq<nat>, i: nat, j: nat, k: nat, e: nat, v: nat) returns (y: nat)
    requires Ring(points, s) && i + 2 <= j < |s| && k <= j - i && e < |s|
    requires (s[e] == s[i + k] && v == Next(s, e)) || (Next(s, e) == s[i + k] && v == s[e])
    requires v != Prev(Piece(s, i, j), k) && v != Next(Piece(s, i, j), k)
    ensures y < |s| && s[y] == v && !(i <= y <= j)
  {
    PieceSide(points, s, i, j, k);
    if s[e] == s[i + k] {
      assert e == i + k;
      y := NextIdx(s, e);
    } else {
      y := e;
      assert NextIdx(s, e) == i + k;
    }
  }

  lemma TipCutsOff(points: seq<Point>, s: seq<nat>, i: nat, j: nat, k: nat)
    requires Distinct(points) && EmptyTip(points, s, i, j, k)
    ensures Uncrossed(points, s, Prev(Piece(s, i, j), k), Next(Piece(s, i, j), k))
  {
    hide Clear, Piece, Distinct, LeftWinds, Simple, InTip, Ccw, Prev, Next;
    var q := Piece(s, i, j);
    var a, b, c := Prev(q, k), s[i + k], Next(q, k);
    TipFacts(points, s, i, j, k);
    forall e: nat | e < |s| ensures Next(s, e) < |points| && Clear(points, a, c, s[e], Next(s, e)) {
      Neighbours(points, s, e);
      var p, r := s[e], Next(s, e);
      if p == b || r == b {
        var v := if p == b then r else p;
        if v == a || v == c {
          CornerPastCut(points, a, b, c, v);
        } else {
          SideFromTip(points, s, i, j, k, e, v);
        }
      } else {
        assert r == s[NextIdx(s, e)];
        assert Clear(points, a, b, p, r) && Clear(points, b, c, p, r);
        SidePastCorner(points, a, b, c, p, r);
      }
    }
  }

  lemma TipFacts(points: seq<Point>, s: seq<nat>, i: nat, j: nat, k: nat)
    requires EmptyTip(points, s, i, j, k)
    ensures Ring(points, s) && i + k < |s|
    ensures var a, b, c := Prev(Piece(s, i, j), k), s[i + k], Next(Piece(s, i, j), k);
            && a < |points| && c < |points| && Apart(a, b, c) && Ccw(points[a], points[b], points[c])
            && Uncrossed(points, s, a, b) && Uncrossed(points, s, b, c)
            && forall m: nat :: m < |s| ==> !InTip(points[a], points[b], points[c], points[s[m]])
  {
    hide Clear, Piece, LeftWinds, Ccw, Prev, Next, InTip, Uncrossed;
    PieceSide(points, s, i, j, k);
    PieceIsRing(points, s, i, j);
    Neighbours(points, Piece(s, i, j), k);
    CornerUncrossed(points, s, i, j, k);
  }

  /** The piece without an empty tip that ends its chord. */
  lemma Shrink(points: seq<Point>, s: seq<nat>, i: nat, j: nat, k: nat)
    requires Distinct(points) && EmptyTip(points, s, i, j, k) && i + 3 <= j && (k == 0 || k == j - i)
    ensures if k == 0 then IsCut(points, s, i + 1, j) else IsCut(points, s, i, j - 1)
  {
    var i2, j2 := if k == 0 then i + 1 else i, if k == 0 then j else j - 1;
    hide Piece, Distinct, LeftWinds, Uncrossed, Winds, Simple, TurnsLeft, IsFirst, NoneInside, Without;
    ShrunkPiece(points, s, i, j, k);
    forall m: nat | m < |s| && !(i2 <= m <= j2) ensures Winds(points, Piece(s, i2, j2), points[s[m]]) == 0.0 {
      PieceWithout(s, i, j, k);
      if m == i + k {
        ShrunkTip(points, s, i, j, k);
      } else {
        ShrunkOther(points, s, i, j, k, m);
      }
    }
  }

  lemma ShrunkPiece(points: seq<Point>, s: seq<nat>, i: nat, j: nat, k: nat)
    requires Distinct(points) && EmptyTip(points, s, i, j, k) && i + 3 <= j && (k == 0 || k == j - i)
    ensures InRange(points, s) && Uncrossed(points, s, if k == 0 then s[j] else s[j - 1], if k == 0 then s[i + 1] else s[i])
    ensures var q := if k == 0 then Piece(s, i + 1, j) else Piece(s, i, j - 1);
            InRange(points, q) && LeftWinds(points, q, 0) == 1.0
  {
    hide Piece, Prev, Next, Distinct, LeftWinds, Uncrossed, OthersOutside, Simple, TurnsLeft, IsFirst, NoneInside, Without;
    ShrunkChord(points, s, i, j, k);
    PieceWithout(s, i, j, k);
    PieceIsSimple(points, s, i, j);
    if k == 0 {
      PieceIsSimple(points, s, i + 1, j);
    } else {
      PieceIsSimple(points, s, i, j - 1);
    }
    ShrunkLeft(points, s, i, j, k);
  }

  lemma ShrunkChord(points: seq<Point>, s: seq<nat>, i: nat, j: nat, k: nat)
    requires Distinct(points) && EmptyTip(points, s, i, j, k) && i + 3 <= j && (k == 0 || k == j - i)
    ensures Uncrossed(points, s, if k == 0 then s[j] else s[j - 1], if k == 0 then s[i + 1] else s[i])
  {
    hide Piece, Prev, Next, Distinct, LeftWinds, Uncrossed, Simple;
    TipCutsOff(points, s, i, j, k);
    PieceSide(points, s, i, j, k);
  }

  lemma PieceWithout(s: seq<nat>, i: nat, j: nat, k: nat)
    requires i < j < |s| && (k == 0 || k == j - i)
    ensures Without(Piece(s, i, j), k) == if k == 0 then Piece(s, i + 1, j) else Piece(s, i, j - 1)
  {
  }

  lemma ShrunkLeft(points: seq<Point>, s: seq<nat>, i: nat, j: nat, k: nat)
    requires Distinct(points) && EmptyTip(points, s, i, j, k) && i + 3 <= j && (k == 0 || k == j - i)
    requires Simple(points, Piece(s, i, j))
    requires InRange(points, Without(Piece(s, i, j), k)) && Simple(points, Without(Piece(s, i, j), k))
    ensures LeftWinds(points, Without(Piece(s, i, j), k), 0) == 1.0
  {
    hide Meets, SameRay, Distinct, LeftWinds, Uncrossed, Winds, TurnsLeft, InTip, Simple;
    var q := Piece(s, i, j);
    var m: nat := if k == 0 then 2 else 1;
    PieceIsRing(points, s, i, j);
    WithoutKeeps(points, q, k);
    LeftEverywhere(points, q, m);
    LeftEverywhere(points, q, k);
    assert q[m] == s[i + m];
    LeftWithout(points, q, k, m);
    LeftEverywhere(points, Without(q, k), Shifted(k, m));
  }

  lemma ShrunkTip(points: seq<Point>, s: seq<nat>, i: nat, j: nat, k: nat)
    requires EmptyTip(points, s, i, j, k) && (k == 0 || k == j - i)
    ensures Winds(points, Without(Piece(s, i, j), k), points[s[i + k]]) == 0.0
  {
    var q := Piece(s, i, j);
    var r := Without(q, k);
    WithoutKeeps(points, q, k);
    forall m: nat | m < |r| ensures !Before(points[r[m]], points[s[i + k]]) {
      assert r[m] == q[if m < k then m else m + 1];
    }
    FirstIsOutside(points, r, points[s[i + k]]);
  }

  lemma ShrunkOther(points: seq<Point>, s: seq<nat>, i: nat, j: nat, k: nat, m: nat)
    requires Distinct(points) && EmptyTip(points, s, i, j, k) && (k == 0 || k == j - i)
    requires m < |s| && !(i <= m <= j)
    ensures Winds(points, Without(Piece(s, i, j), k), points[s[m]]) == 0.0
  {
    hide Clear, Distinct, LeftWinds, Uncrossed, Winds, TurnsLeft, InTip, Simple, On, Prev, Next;
    var q := Piece(s, i, j);
    PieceIsRing(points, s, i, j);
    Neighbours(points, q, k);
    NotInPiece(s, i, j, m);
    assert q[k] in q && q[k] == s[i + k];
    TipFacts(points, s, i, j, k);
    CornerOffSegment(points, s, m, Prev(q, k), s[i + k]);
    CornerOffSegment(points, s, m, s[i + k], Next(q, k));
    WindsWithout(points, q, k, s[m]);
  }

  // ------------------------------------------------------------------
  // Ears
  // ------------------------------------------------------------------

  /** The polygon turns left at `idx`, and none of its corners lies in the triangle there. */
  ghost predicate EmptyCorner(points: seq<Point>, s: seq<nat>, idx: nat) {
    && InRange(points, s) && idx < |s|
    && Prev(s, idx) < |points| && Next(s, idx) < |points|
    && TurnsLeft(points, s, idx) && NoneInside(points, s, Prev(s, idx), s[idx], Next(s, idx))
  }

  lemma PointIsInPiece(points: seq<Point>, s: seq<nat>, i: nat, j: nat, k: nat, m: nat)
    requires Distinct(points) && TipAndPoint(points, s, i, j, k, m)
    ensures i <= m <= j && m != i + k && k <= j - i
  {
    hide Piece, Prev, Next, Distinct, LeftWinds, Uncrossed, OthersOutside, TurnsLeft, Simple, Ring, InEar, IsFirst, LeastAngle;
    TipSeesPoint(points, s, i, j, k, m);
    PointInEar(points, s, i, j, k, m);
    SeenIsInPiece(points, s, i, j, k, m);
  }

  /** A point at a tip splits the piece. */
  lemma Split(points: seq<Point>, s: seq<nat>, i: nat, j: nat, k: nat, m: nat) returns (lo: nat, hi: nat)
    requires Distinct(points) && TipAndPoint(points, s, i, j, k, m)
    ensures IsCut(points, s, lo, hi) && i <= lo && hi <= j && hi - lo < j - i
  {
    hide TipAndPoint, IsCut, Distinct;
    PointIsInPiece(points, s, i, j, k, m);
    if i + k < m {
      SplitForward(points, s, i, j, k, m);
      lo, hi := i + k, m;
    } else {
      SplitBackward(points, s, i, j, k, m);
      lo, hi := m, i + k;
    }
  }

  /** Every piece has an ear of the whole polygon, away from its chord. */
  lemma EarOfPiece(points: seq<Point>, s: seq<nat>, i: nat, j: nat) returns (idx: nat)
    requires Distinct(points) && IsCut(points, s, i, j) && Simple(points, s)
    ensures i < idx < j && EmptyCorner(points, s, idx)
    decreases j - i
  {
    hide Piece, Prev, Next, Distinct, LeftWinds, Uncrossed, OthersOutside, EmptyCorner, TurnsLeft, IsFirst;
    hide Simple, Ring, LeastAngle, NoneInside;
    var k := FindTip(points, s, i, j);
    var m := FindLeastAngle(points, s, Prev(Piece(s, i, j), k), s[i + k], Next(Piece(s, i, j), k));
    if m.Some? {
      var lo, hi := Split(points, s, i, j, k, m.value);
      idx := EarOfPiece(points, s, lo, hi);
    } else if 0 < k < j - i {
      idx := i + k;
      CornerOfPiece(points, s, i, j, k);
    } else if j == i + 2 {
      idx := i + 1;
      CornerOfTriangle(points, s, i, k);
    } else {
      Shrink(points, s, i, j, k);
      if k == 0 {
        idx := EarOfPiece(points, s, i + 1, j);
      } else {
        idx := EarOfPiece(points, s, i, j - 1);
      }
    }
  }

  lemma PointInEar(points: seq<Point>, s: seq<nat>, i: nat, j: nat, k: nat, m: nat)
    requires TipAndPoint(points, s, i, j, k, m)
    ensures InEar(points, Piece(s, i, j), k, s[m])
  {
  }

  lemma CornerOfPiece(points: seq<Point>, s: seq<nat>, i: nat, j: nat, k: nat)
    requires EmptyTip(points, s, i, j, k) && 0 < k < j - i
    ensures EmptyCorner(points, s, i + k)
  {
    hide InTip, Ccw;
    PieceSide(points, s, i, j, k);
  }

  /** A piece of three corners is a triangle, whichever corner comes first. */
  lemma CornerOfTriangle(points: seq<Point>, s: seq<nat>, i: nat, k: nat)
    requires Distinct(points) && EmptyTip(points, s, i, i + 2, k)
    ensures EmptyCorner(points, s, i + 1)
  {
    hide Ccw, Distinct, On, InTip, LeftWinds;
    PieceSide(points, s, i, i + 2, k);
    PieceSide(points, s, i, i + 2, 1);
    TipFacts(points, s, i, i + 2, k);
    assert Uncrossed(points, s, s[i], Next(s, i)) && Uncrossed(points, s, s[i + 1], Next(s, i + 1));
    var a, b, c := points[s[i]], points[s[i + 1]], points[s[i + 2]];
    Three(a, b, c);
    forall m: nat | m < |s| ensures !InTip(a, b, c, points[s[m]]) {
      CornersNotInside(a, b, c);
      if m != i && m != i + 1 && m != i + 2 {
        CornerOffSegment(points, s, m, s[i], s[i + 1]);
        CornerOffSegment(points, s, m, s[i + 1], s[i + 2]);
        CornerOffSegment(points, s, m, s[i + 2], s[i]);
        OffSidesRotates(points, s[i], s[i + 1], s[i + 2], s[m]);
      }
    }
  }

  lemma OffSidesRotates(points: seq<Point>, a: nat, b: nat, c: nat, x: nat)
    requires Distinct(points) && a < |points| && b < |points| && c < |points| && x < |points|
    requires Apart(a, b, c) && x != a && x != b && x != c && Ccw(points[a], points[b], points[c])
    requires !On(points[x], points[a], points[b]) && !On(points[x], points[b], points[c]) && !On(points[x], points[c], points[a])
    ensures var p, q, r, y := points[a], points[b], points[c], points[x];
            InTip(p, q, r, y) == InTip(q, r, p, y) == InTip(r, p, q, y)
  {
    hide Ccw, On, InTip;
    FourDistinct(points, a, b, c, x);
    Three(points[a], points[b], points[c]);
    TipRotates(points[a], points[b], points[c], points[x]);
    TipRotates(points[b], points[c], points[a], points[x]);
  }

  /** A simple polygon whose left side is its inside. */
  ghost predicate Solid(points: seq<Point>, s: seq<nat>) {
    Ring(points, s) && Simple(points, s) && LeftWinds(points, s, 0) == 1.0
  }

  /** Such a polygon has an ear. */
  lemma EarExists(points: seq<Point>, s: seq<nat>) returns (idx: nat)
    requires Distinct(points) && Solid(points, s)
    ensures idx < |s| && EmptyCorner(points, s, idx)
  {
    hide Distinct, LeftWinds, Uncrossed, EmptyCorner;
    var n := |s|;
    assert Piece(s, 0, n - 1) == s;
    assert Uncrossed(points, s, s[n - 1], Next(s, n - 1));
    idx := EarOfPiece(points, s, 0, n - 1);
  }

  // ------------------------------------------------------------------
  // Cutting an ear off
  // ------------------------------------------------------------------

  /** A side of the polygon without one corner is one of its sides, or the one that cuts the corner off. */
  lemma WithoutSide(s: seq<nat>, idx: nat, t: nat) returns (m: nat)
    requires idx < |s| && |s| > 3 && t < |s| - 1
    ensures m < |s|
    ensures var r := Without(s, idx);
            || (r[t] == s[m] && Next(r, t) == Next(s, m))
            || (r[t] == Prev(s, idx) && Next(r, t) == Next(s, idx))
  {
    m := if t < idx then t else t + 1;
  }

  lemma EarCutsOff(points: seq<Point>, s: seq<nat>, idx: nat)
    requires Distinct(points) && Ring(points, s) && Simple(points, s) && EmptyCorner(points, s, idx)
    ensures Uncrossed(points, s, Prev(s, idx), Next(s, idx))
  {
    hide Clear, Distinct, InTip, Ccw;
    var a, b, c := Prev(s, idx), s[idx], Next(s, idx);
    Neighbours(points, s, idx);
    CornerSides(points, s, idx);
    forall e: nat | e < |s| ensures Next(s, e) < |points| && Clear(points, a, c, s[e], Next(s, e)) {
      Neighbours(points, s, e);
      var p, q := s[e], Next(s, e);
      if p == b {
        assert e == idx;
        CornerPastCut(points, a, b, c, c);
      } else if q == b {
        assert NextIdx(s, e) == idx;
        assert p == a;
        CornerPastCut(points, a, b, c, a);
      } else {
        assert q == s[NextIdx(s, e)];
        assert Clear(points, a, b, p, q) && Clear(points, b, c, p, q);
        SidePastCorner(points, a, b, c, p, q);
      }
    }
  }

  lemma WithoutUncrossed(points: seq<Point>, s: seq<nat>, idx: nat, u: nat, v: nat)
    requires Ring(points, s) && |s| > 3 && idx < |s| && u < |points| && v < |points|
    requires Prev(s, idx) < |points| && Next(s, idx) < |points|
    requires Uncrossed(points, s, u, v) && Clear(points, u, v, Prev(s, idx), Next(s, idx))
    ensures InRange(points, Without(s, idx)) && Uncrossed(points, Without(s, idx), u, v)
  {
    hide Meets, SameRay, Clear;
    WithoutKeeps(points, s, idx);
    var r := Without(s, idx);
    forall t: nat | t < |r| ensures Next(r, t) < |points| && Clear(points, u, v, r[t], Next(r, t)) {
      Neighbours(points, r, t);
      var m := WithoutSide(s, idx, t);
      assert Clear(points, u, v, s[m], Next(s, m));
    }
  }

  lemma WithoutIsSimple(points: seq<Point>, s: seq<nat>, idx: nat)
    requires Distinct(points) && Ring(points, s) && |s| > 3 && Simple(points, s) && EmptyCorner(points, s, idx)
    ensures Ring(points, Without(s, idx)) && Simple(points, Without(s, idx))
  {
    hide Meets, SameRay, Distinct, Without;
    var a, c := Prev(s, idx), Next(s, idx);
    WithoutKeeps(points, s, idx);
    Neighbours(points, s, idx);
    EarCutsOff(points, s, idx);
    var r := Without(s, idx);
    forall t: nat | t < |r| ensures Next(r, t) < |points| && Uncrossed(points, r, r[t], Next(r, t)) {
      Neighbours(points, r, t);
      var m := WithoutSide(s, idx, t);
      if r[t] == a && Next(r, t) == c {
        WithoutUncrossed(points, s, idx, a, c);
      } else {
        Neighbours(points, s, m);
        assert Clear(points, a, c, s[m], Next(s, m));
        ClearFlips(points, a, c, s[m], Next(s, m));
        WithoutUncrossed(points, s, idx, s[m], Next(s, m));
      }
    }
  }

  /** What is left after cutting off any ear is such a polygon again. */
  lemma WithoutIsSolid(points: seq<Point>, s: seq<nat>, idx: nat)
    requires Distinct(points) && Solid(points, s) && |s| > 3 && EmptyCorner(points, s, idx)
    ensures Solid(points, Without(s, idx))
  {
    hide Distinct, Winding.LeftWinds, TurnsLeft, Simple, Without;
    WithoutIsSimple(points, s, idx);
    WithoutKeeps(points, s, idx);
    var m := FarCorner(points, s, idx);
    assert !InEar(points, s, idx, s[m]);
    LeftWithout(points, s, idx, m);
    LeftEverywhere(points, s, m);
    LeftEverywhere(points, Without(s, idx), Shifted(idx, m));
  }

  lemma FarCorner(points: seq<Point>, s: seq<nat>, idx: nat) returns (m: nat)
    requires Ring(points, s) && |s| > 3 && idx < |s|
    ensures m < |s| && m != idx && s[m] != Prev(s, idx) && s[m] != Next(s, idx)
    ensures Shifted(idx, m) < |s| - 1
  {
    m := if idx + 2 < |s| then idx + 2 else idx + 2 - |s|;
  }

  // ------------------------------------------------------------------
  // The code's ears
  // ------------------------------------------------------------------

  /** Any three points lie in line, or turn by more than the tolerance. */
  ghost predicate Resolved(points: seq<Point>) {
    forall a: nat, b: nat, c: nat :: a < |points| && b < |points| && c < |points| ==> TurnResolved(points, a, b, c)
  }

  predicate TurnResolved(points: seq<Point>, a: nat, b: nat, c: nat)
    requires a < |points| && b < |points| && c < |points|
  {
    var cross := Cross2(points[a], points[b], points[c]);
    cross == 0.0 || cross > EPS || cross < -EPS
  }

  /** In a simple polygon whose turns the tolerance resolves, the code's test for an ear holds exactly of the
      empty corners. */
  lemma EarMeaning(points: seq<Point>, s: seq<nat>, idx: nat)
    requires Distinct(points) && Resolved(points) && Ring(points, s) && Simple(points, s) && idx < |s|
    ensures IsEar(points, true, s, idx) <==> EmptyCorner(points, s, idx)
  {
    hide PointInTriangle, InTip, Clear, Distinct;
    var t := EarAt(s, idx);
    Neighbours(points, s, idx);
    assert TurnResolved(points, t.i, t.j, t.k);
    if TurnsLeft(points, s, idx) {
      forall k: nat | k < |s|
        ensures !IsCorner(t, s[k]) && PointInTriangle(points[s[k]], points[t.i], points[t.j], points[t.k])
                <==> InTip(points[t.i], points[t.j], points[t.k], points[s[k]])
      {
        BlockingMeaning(points, s, idx, k);
      }
    }
  }

  /** A corner blocks an ear exactly if it lies in its triangle, or on the line that would cut it off. */
  lemma BlockingMeaning(points: seq<Point>, s: seq<nat>, idx: nat, m: nat)
    requires Distinct(points) && Ring(points, s) && Simple(points, s) && idx < |s| && m < |s| && TurnsLeft(points, s, idx)
    requires Prev(s, idx) < |points| && Next(s, idx) < |points|
    ensures var t := EarAt(s, idx);
            !IsCorner(t, s[m]) && PointInTriangle(points[s[m]], points[t.i], points[t.j], points[t.k])
            <==> InTip(points[t.i], points[t.j], points[t.k], points[s[m]])
  {
    hide PointInTriangle, InTip, Clear, Distinct, Cross2, On;
    var t := EarAt(s, idx);
    Neighbours(points, s, idx);
    CornerSides(points, s, idx);
    CornersNotInside(points[t.i], points[t.j], points[t.k]);
    if !IsCorner(t, s[m]) {
      FourDistinct(points, t.i, t.j, t.k, s[m]);
      CornerOffSegment(points, s, m, t.i, t.j);
      CornerOffSegment(points, s, m, t.j, t.k);
      ClosedTriangle(points[t.i], points[t.j], points[t.k], points[s[m]]);
    }
  }

  /** Clipping cuts such a polygon completely, and it has positive area. */
  lemma {:induction false} SolidClips(points: seq<Point>, s: seq<nat>)
    requires Distinct(points) && Resolved(points) && Solid(points, s)
    ensures |Clip(points, true, s).1| == 3 && CycleSum(s, Shoelace(points)) > 0.0
    decreases |s|
  {
    hide Distinct, Resolved, LeftWinds, Simple, EmptyCorner, IsEar, CycleSum;
    if |s| == 3 {
      SolidTriangle(points, s);
    } else {
      var e := EarExists(points, s);
      EarMeaning(points, s, e);
      var idx := FirstEar(points, true, s, 0);
      EarMeaning(points, s, idx);
      WithoutIsSolid(points, s, idx);
      SolidClips(points, Without(s, idx));
      EarArea(points, s, idx);
    }
  }

  lemma EarArea(points: seq<Point>, s: seq<nat>, idx: nat)
    requires Ring(points, s) && EmptyCorner(points, s, idx)
    ensures CycleSum(s, Shoelace(points)) > CycleSum(Without(s, idx), Shoelace(points))
  {
    hide CycleSum;
    EarDifference(s, idx, Shoelace(points));
    ShoelaceAntisymmetric(points);
    CrossIsShoelace(points[Prev(s, idx)], points[s[idx]], points[Next(s, idx)]);
  }

  lemma TwoCornerCycle(r: seq<nat>, w: Weight)
    requires |r| == 2 && Antisymmetric(w)
    ensures CycleSum(r, w) == 0.0
  {
    var path := r + [r[0]];
    assert path[1..] == [r[1], r[0]] && path[1..][1..] == [r[0]];
    assert w(r[0], r[1]) == -w(r[1], r[0]);
    assert PathSum(path[1..], w) == w(r[1], r[0]) + PathSum(path[1..][1..], w);
  }

  lemma SolidTriangle(points: seq<Point>, s: seq<nat>)
    requires Distinct(points) && Solid(points, s) && |s| == 3
    ensures CycleSum(s, Shoelace(points)) > 0.0
  {
    hide LeftWinds, Simple, Distinct;
    var k := FirstCorner(points, s);
    LeftOfFirst(points, s, k);
    LeftEverywhere(points, s, k);
    var w, r := Shoelace(points), Without(s, k);
    EarDifference(s, k, w);
    ShoelaceAntisymmetric(points);
    TwoCornerCycle(r, w);
    Neighbours(points, s, k);
    hide CycleSum;
    CrossIsShoelace(points[Prev(s, k)], points[s[k]], points[Next(s, k)]);
  }

  // ------------------------------------------------------------------
  // The other winding
  // ------------------------------------------------------------------

  function Backwards(s: seq<nat>): (r: seq<nat>)
    ensures |r| == |s| && forall k :: 0 <= k < |s| ==> r[k] == s[|s| - 1 - k]
  {
    seq(|s|, k requires 0 <= k < |s| => s[|s| - 1 - k])
  }

  lemma BackwardsCorner(s: seq<nat>, idx: nat)
    requires idx < |s|
    ensures var r, m := Backwards(s), |s| - 1 - idx;
            r[m] == s[idx] && Prev(r, m) == Next(s, idx) && Next(r, m) == Prev(s, idx)
  {
  }

  lemma BackwardsWithout(s: seq<nat>, idx: nat)
    requires idx < |s|
    ensures Without(Backwards(s), |s| - 1 - idx) == Backwards(Without(s, idx))
  {
  }

  lemma BackwardsIsSimple(points: seq<Point>, s: seq<nat>)
    requires Distinct(points) && Ring(points, s) && Simple(points, s)
    ensures Ring(points, Backwards(s)) && Simple(points, Backwards(s))
  {
    hide Meets, SameRay, Distinct;
    var r, n := Backwards(s), |s|;
    forall k: nat | k < n ensures Next(r, k) < |points| && Uncrossed(points, r, r[k], Next(r, k)) {
      BackwardsCorner(s, n - 1 - k);
      var u, v := r[k], Next(r, k);
      CornerSides(points, s, n - 1 - k);
      Neighbours(points, s, n - 1 - k);
      UncrossedFlips(points, s, v, u);
      BackwardsUncrossed(points, s, u, v);
    }
  }

  lemma BackwardsUncrossed(points: seq<Point>, s: seq<nat>, u: nat, v: nat)
    requires Distinct(points) && Ring(points, s) && u < |points| && v < |points| && u != v
    requires Uncrossed(points, s, u, v)
    ensures InRange(points, Backwards(s)) && Uncrossed(points, Backwards(s), u, v)
  {
    hide Distinct, Clear, Backwards, Prev, Next;
    var r := Backwards(s);
    forall e: nat | e < |s| ensures r[e] < |points| && Next(r, e) < |points| && Clear(points, u, v, r[e], Next(r, e)) {
      var d := BackwardsSide(s, e);
      Neighbours(points, s, d);
      ClearFlips(points, u, v, s[d], Next(s, d));
    }
  }

  lemma BackwardsSide(s: seq<nat>, e: nat) returns (d: nat)
    requires e < |s|
    ensures d < |s| && Backwards(s)[e] == Next(s, d) && Next(Backwards(s), e) == s[d]
  {
    var f := |s| - 1 - e;
    BackwardsCorner(s, f);
    d := if f == 0 then |s| - 1 else f - 1;
  }

  lemma {:induction false} BackwardsPath(s: seq<nat>, w: Weight)
    requires Antisymmetric(w)
    ensures PathSum(Backwards(s), w) == -PathSum(s, w)
    decreases |s|
  {
    if |s| >= 2 {
      var r := Backwards(s);
      PathSumSnoc(r, w);
      assert r[..|r| - 1] == Backwards(s[1..]);
      BackwardsPath(s[1..], w);
      assert w(s[1], s[0]) == -w(s[0], s[1]);
    }
  }

  lemma BackwardsCycle(s: seq<nat>, w: Weight)
    requires Antisymmetric(w) && |s| >= 2
    ensures CycleSum(Backwards(s), w) == -CycleSum(s, w)
  {
    var r := Backwards(s);
    assert Backwards(s + [s[0]]) == [s[0]] + r;
    BackwardsPath(s + [s[0]], w);
    PathSplit([s[0]], r, w);
    PathSplit(r, [r[0]], w);
    assert s[0] == r[|r| - 1];
  }

  /** One of the two directions has the polygon's inside on its left. */
  lemma SolidOneWay(points: seq<Point>, s: seq<nat>)
    requires Distinct(points) && Ring(points, s) && Simple(points, s)
    ensures Solid(points, s) || Solid(points, Backwards(s))
  {
    hide Distinct, Uncrossed;
    var r := Backwards(s);
    var k := FirstCorner(points, s);
    var m := |s| - 1 - k;
    BackwardsIsSimple(points, s);
    BackwardsCorner(s, k);
    LeftOfFirst(points, s, k);
    LeftEverywhere(points, s, k);
    LeftOfFirst(points, r, m);
    LeftEverywhere(points, r, m);
    Neighbours(points, s, k);
    FirstTurns(points, s, k);
    hide LeftWinds, Simple;
  }

  /** At its first corner a simple polygon turns one way or the other. */
  lemma FirstTurns(points: seq<Point>, s: seq<nat>, k: nat)
    requires Distinct(points) && Ring(points, s) && Simple(points, s) && k < |s| && IsFirst(points, s, k)
    ensures Prev(s, k) < |points| && Next(s, k) < |points|
    ensures Ccw(points[Prev(s, k)], points[s[k]], points[Next(s, k)]) == !Ccw(points[Next(s, k)], points[s[k]], points[Prev(s, k)])
  {
    hide Ccw, Before, Clear, IsFirst, Distinct;
    Neighbours(points, s, k);
    CornerSides(points, s, k);
    CornerOpens(points, s, k);
    FirstIsBefore(points, s, k, NextIdx(s, k));
    FirstIsBefore(points, s, k, if k == 0 then |s| - 1 else k - 1);
    Three(points[Prev(s, k)], points[s[k]], points[Next(s, k)]);
  }

  /** An ear of one direction and winding is one of the other. */
  lemma BackwardsEar(points: seq<Point>, s: seq<nat>, idx: nat)
    requires Ring(points, s) && idx < |s| && InRange(points, Backwards(s))
    ensures IsEar(points, false, s, idx) <==> IsEar(points, true, Backwards(s), |s| - 1 - idx)
  {
    var r, m := Backwards(s), |s| - 1 - idx;
    BackwardsCorner(s, idx);
    var t, u := EarAt(s, idx), EarAt(r, m);
    Reversed3(points[t.i], points[t.j], points[t.k]);
    hide Cross2, PointInTriangle;
    forall x: Point ensures PointInTriangle(x, points[t.i], points[t.j], points[t.k]) <==> PointInTriangle(x, points[u.i], points[u.j], points[u.k]) {
      ReversedTriangle(x, points[t.i], points[t.j], points[t.k]);
    }
    if Blocked(points, s, t) {
      var k :| 0 <= k < |s| && !IsCorner(t, s[k]) && PointInTriangle(points[s[k]], points[t.i], points[t.j], points[t.k]);
      assert r[|s| - 1 - k] == s[k];
    }
    if Blocked(points, r, u) {
      var k :| 0 <= k < |r| && !IsCorner(u, r[k]) && PointInTriangle(points[r[k]], points[u.i], points[u.j], points[u.k]);
      assert s[|s| - 1 - k] == r[k];
    }
  }

  lemma Reversed3(a: Point, b: Point, c: Point)
    ensures Cross2(c, b, a) == -Cross2(a, b, c)
  {
  }

  lemma ReversedTriangle(x: Point, a: Point, b: Point, c: Point)
    ensures PointInTriangle(x, a, b, c) <==> PointInTriangle(x, c, b, a)
  {
    assert Cross2(b, a, x) == -Cross2(a, b, x) && Cross2(c, b, x) == -Cross2(b, c, x) && Cross2(a, c, x) == -Cross2(c, a, x);
    hide Cross2;
  }

  lemma {:induction false} HollowClips(points: seq<Point>, s: seq<nat>)
    requires Distinct(points) && Resolved(points) && Ring(points, s) && Solid(points, Backwards(s))
    ensures |Clip(points, false, s).1| == 3
    decreases |s|
  {
    hide Distinct, Resolved, LeftWinds, Simple, EmptyCorner, IsEar;
    if |s| > 3 {
      var r, n := Backwards(s), |s|;
      var e := EarExists(points, r);
      EarMeaning(points, r, e);
      BackwardsEar(points, s, n - 1 - e);
      var idx := FirstEar(points, false, s, 0);
      BackwardsEar(points, s, idx);
      EarMeaning(points, r, n - 1 - idx);
      WithoutIsSolid(points, r, n - 1 - idx);
      BackwardsWithout(s, idx);
      WithoutKeeps(points, s, idx);
      HollowClips(points, Without(s, idx));
    }
  }

  // ------------------------------------------------------------------
  // The main result
  // ------------------------------------------------------------------

  /** The corner after `i`. */
  function Following(n: nat, i: nat): (r: nat)
    requires i < n
    ensures r < n
  {
    if i + 1 == n then 0 else i + 1
  }

  /** The corners of a polygon in order: no two coincide, and two sides have no point in common but a corner
      in which both end. */
  ghost predicate SimplePolygon(points: seq<Point>) {
    && |points| >= 3 && Distinct(points)
    && forall i: nat, j: nat :: i < |points| && j < |points| && i != j ==>
         SidesApart(points, i, Following(|points|, i), j, Following(|points|, j))
  }

  lemma RangeSide(n: nat, k: nat)
    requires k < n
    ensures Range(n)[k] == k && Next(Range(n), k) == Following(n, k)
  {
  }

  /** Whether a polygon is simple can be told from turns and order alone. */
  lemma SimpleTest(points: seq<Point>)
    requires |points| >= 3 && Distinct(points)
    ensures Ring(points, Range(|points|))
    ensures SimplePolygon(points) <==> Simple(points, Range(|points|))
  {
    hide Distinct, Clear, SidesApart, Next;
    var n, s := |points|, Range(|points|);
    forall i: nat, j: nat | i < n && j < n
      ensures i != j ==> (Clear(points, i, Following(n, i), j, Following(n, j))
                          <==> SidesApart(points, i, Following(n, i), j, Following(n, j)))
      ensures i == j ==> Clear(points, i, Following(n, i), j, Following(n, j))
    {
      if i != j {
        ClearMeans(points, i, Following(n, i), j, Following(n, j));
      } else {
        ClearOfItself(points, i, Following(n, i));
      }
    }
    forall k: nat | k < n ensures s[k] == k && Next(s, k) == Following(n, k) {
      RangeSide(n, k);
    }
    if SimplePolygon(points) {
      forall k: nat | k < n ensures Uncrossed(points, s, s[k], Next(s, k)) {
        forall e: nat | e < n ensures Clear(points, s[k], Next(s, k), s[e], Next(s, e)) {
        }
      }
    }
    if Simple(points, s) {
      forall i: nat, j: nat | i < n && j < n && i != j
        ensures SidesApart(points, i, Following(n, i), j, Following(n, j))
      {
        assert Uncrossed(points, s, s[i], Next(s, i));
        assert Clear(points, s[i], Next(s, i), s[j], Next(s, j));
      }
    }
  }

  lemma ClearOfItself(points: seq<Point>, u: nat, v: nat)
    requires u < |points| && v < |points| && u != v
    ensures Clear(points, u, v, u, v)
  {
  }

  lemma SimpleLeavesThree(points: seq<Point>)
    requires SimplePolygon(points) && Resolved(points)
    ensures |Clip(points, Positive(points), Range(|points|)).1| == 3
  {
    hide Distinct, Resolved, Simple, CycleSum, Clip, Backwards, Solid, SidesApart;
    var s := Range(|points|);
    SimpleTest(points);
    SolidOneWay(points, s);
    if Solid(points, s) {
      SolidClips(points, s);
    } else {
      BackwardsSolidClips(points, s);
      HollowClips(points, s);
    }
  }

  lemma BackwardsSolidClips(points: seq<Point>, s: seq<nat>)
    requires Distinct(points) && Resolved(points) && Ring(points, s) && Solid(points, Backwards(s))
    ensures CycleSum(s, Shoelace(points)) < 0.0
  {
    SolidClips(points, Backwards(s));
    ShoelaceAntisymmetric(points);
    BackwardsCycle(s, Shoelace(points));
  }

  lemma SimpleSize(points: seq<Point>)
    requires SimplePolygon(points)
    ensures |points| >= 3
  {
  }

  /** Every simple polygon whose turns the tolerance resolves is cut completely, whatever its winding and shape,
      with straight corners too: `n - 2` triangles with its whole area. */
  lemma SimpleCompletes(points: seq<Point>)
    requires SimplePolygon(points) && Resolved(points)
    ensures |Triangulation(points)| == |points| - 2 && DrawnTriangles(points) == Triangulation(points)
    ensures forall t :: t in Triangulation(points) ==> t.i < |points| && t.j < |points| && t.k < |points|
    ensures TriangleArea2(points, Triangulation(points)) == Area2(points)
  {
    hide Resolved, SimplePolygon;
    SimpleSize(points);
    SimpleLeavesThree(points);
    CompleteRunCount(points);
    TriangulationInRange(points);
    TriangleAreaIsWeight(points, Triangulation(points));
    ShoelaceAntisymmetric(points);
    TriangulationConserves(points, Shoelace(points));
  }
}
