/** How often a closed polygon winds around a point, counted by the edges that pass over the point, and which
    side of a simple polygon is its inside. */
module Winding {
  import opened Geometry
  import opened EarClip
  import opened EarClipTheorems
  import opened Orientation

  // ------------------------------------------------------------------
  // Points given by their indices
  // ------------------------------------------------------------------

  /** No two points coincide. */
  ghost predicate Distinct(points: seq<Point>) {
    forall i, j :: 0 <= i < j < |points| ==> points[i] != points[j]
  }

  lemma TwoDistinct(points: seq<Point>, a: nat, b: nat)
    requires Distinct(points) && a < |points| && b < |points| && a != b
    ensures points[a] != points[b]
  {
    assert if a < b then points[a] != points[b] else points[b] != points[a];
  }

  lemma ThreeDistinct(points: seq<Point>, a: nat, b: nat, c: nat)
    requires Distinct(points)
    requires a < |points| && b < |points| && c < |points| && a != b && b != c && a != c
    ensures Distinct3(points[a], points[b], points[c])
  {
    TwoDistinct(points, a, b);
    TwoDistinct(points, a, c);
    TwoDistinct(points, b, c);
  }

  lemma FourDistinct(points: seq<Point>, a: nat, b: nat, c: nat, d: nat)
    requires Distinct(points)
    requires a < |points| && b < |points| && c < |points| && d < |points|
    requires a != b && a != c && a != d && b != c && b != d && c != d
    ensures Distinct4(points[a], points[b], points[c], points[d])
  {
    ThreeDistinct(points, a, b, c);
    TwoDistinct(points, d, a);
    TwoDistinct(points, d, b);
    TwoDistinct(points, d, c);
  }

  /** A closed polygon: distinct corners. */
  ghost predicate Ring(points: seq<Point>, s: seq<nat>) {
    InRange(points, s) && |s| >= 3 && forall i, j :: 0 <= i < j < |s| ==> s[i] != s[j]
  }

  predicate Disjoint2(u: nat, v: nat, p: nat, q: nat) {
    u != p && u != q && v != p && v != q
  }

  /** The segments from `u` to `v` and from `p` to `q` have no point in common but an end they share. */
  predicate Clear(points: seq<Point>, u: nat, v: nat, p: nat, q: nat)
    requires u < |points| && v < |points| && p < |points| && q < |points|
  {
    if Disjoint2(u, v, p, q) then !Meets(points[u], points[v], points[p], points[q])
    else
      && (u == p && v != q ==> !SameRay(points[u], points[v], points[q]))
      && (u == q && v != p ==> !SameRay(points[u], points[v], points[p]))
      && (v == p && u != q ==> !SameRay(points[v], points[u], points[q]))
      && (v == q && u != p ==> !SameRay(points[v], points[u], points[p]))
  }

  /** No side of the polygon meets the segment, but in an end they share. */
  ghost predicate Uncrossed(points: seq<Point>, s: seq<nat>, u: nat, v: nat)
    requires InRange(points, s) && u < |points| && v < |points|
  {
    forall k: nat :: k < |s| ==> Clear(points, u, v, s[k], Next(s, k))
  }

  /** Two sides of the polygon meet in a corner they share, if anywhere. */
  ghost predicate Simple(points: seq<Point>, s: seq<nat>)
    requires InRange(points, s)
  {
    forall k: nat :: k < |s| ==> Uncrossed(points, s, s[k], Next(s, k))
  }

  // ------------------------------------------------------------------
  // The winding number
  // ------------------------------------------------------------------

  function Passing(points: seq<Point>, x: Point): Weight {
    (i: nat, j: nat) => if i < |points| && j < |points| then Pass(x, points[i], points[j]) else 0.0
  }

  function Winds(points: seq<Point>, s: seq<nat>, x: Point): real {
    CycleSum(s, Passing(points, x))
  }

  lemma PassingAntisymmetric(points: seq<Point>, x: Point)
    ensures Antisymmetric(Passing(points, x))
  {
  }

  /** The other corners in order, from the one after `idx` to the one before it. */
  function After(s: seq<nat>, idx: nat): (r: seq<nat>)
    requires idx < |s|
    ensures |r| == |s| - 1
    ensures |s| >= 2 ==> r[0] == Next(s, idx) && r[|r| - 1] == Prev(s, idx)
  {
    s[idx + 1..] + s[..idx]
  }

  /** Where `After(s, idx)[k]` stands in the polygon. */
  function Place(s: seq<nat>, idx: nat, k: nat): (m: nat)
    requires idx < |s| && k + 1 < |s|
    ensures m < |s| && m != idx && After(s, idx)[k] == s[m]
    ensures k + 2 < |s| ==> After(s, idx)[k + 1] == Next(s, m)
  {
    if idx + 1 + k < |s| then idx + 1 + k else idx + 1 + k - |s|
  }

  lemma CycleAt(s: seq<nat>, idx: nat, w: Weight)
    requires idx < |s| && |s| >= 2
    ensures CycleSum(s, w) == w(Prev(s, idx), s[idx]) + w(s[idx], Next(s, idx)) + PathSum(After(s, idx), w)
  {
    var c := s[idx];
    if idx == 0 {
      assert s + [s[0]] == [c] + (s[1..] + [c]);
      PathSplit([c], s[1..] + [c], w);
      PathSplit(s[1..], [c], w);
      assert After(s, 0) == s[1..];
    } else {
      var a, b := s[..idx], s[idx + 1..];
      assert s + [s[0]] == a + ([c] + (b + [s[0]]));
      PathSplit(a, [c] + (b + [s[0]]), w);
      PathSplit([c], b + [s[0]], w);
      if b == [] {
        assert b + [s[0]] == [s[0]];
        assert After(s, idx) == a;
      } else {
        PathSplit(b, [s[0]], w);
        PathSplit(b, a, w);
        assert a[0] == s[0];
      }
    }
  }

  ghost predicate ClearPath(points: seq<Point>, path: seq<nat>, x: nat, y: nat)
    requires InRange(points, path) && x < |points| && y < |points|
  {
    && (forall k: nat :: k < |path| ==> path[k] != x && path[k] != y)
    && (forall k: nat :: k + 1 < |path| ==>
          path[k] != path[k + 1] && !Meets(points[x], points[y], points[path[k]], points[path[k + 1]]))
  }

  /** Moving a point without meeting a path changes how the path passes over it only by its ends. */
  lemma {:induction false} PathSlides(points: seq<Point>, path: seq<nat>, x: nat, y: nat)
    requires Distinct(points) && InRange(points, path) && x < |points| && y < |points| && x != y && path != []
    requires ClearPath(points, path, x, y)
    ensures PathSum(path, Passing(points, points[x])) - PathSum(path, Passing(points, points[y]))
         == Over(points[x], points[y], points[path[0]]) - Over(points[x], points[y], points[path[|path| - 1]])
  {
    if |path| > 1 {
      var rest := path[1..];
      assert path[0 + 1] == rest[0];
      assert !Meets(points[x], points[y], points[path[0]], points[path[0 + 1]]);
      forall k: nat | k + 1 < |rest|
        ensures rest[k] != rest[k + 1] && !Meets(points[x], points[y], points[rest[k]], points[rest[k + 1]])
      {
        assert path[k + 1] == rest[k] && path[k + 1 + 1] == rest[k + 1];
      }
      PathSlides(points, rest, x, y);
      FourDistinct(points, x, y, path[0], path[1]);
      Slide(points[x], points[y], points[path[0]], points[path[1]]);
    }
  }

  /** The rest of a polygon is a clear path for a segment that it does not meet. */
  lemma RestIsClear(points: seq<Point>, s: seq<nat>, idx: nat, from: nat, x: nat, y: nat)
    requires Ring(points, s) && idx < |s| && from < |s| - 1 && x < |points| && y < |points|
    requires Uncrossed(points, s, x, y)
    requires forall k: nat :: from <= k < |s| - 1 ==> After(s, idx)[k] != x && After(s, idx)[k] != y
    ensures InRange(points, After(s, idx)) && InRange(points, After(s, idx)[from..])
    ensures ClearPath(points, After(s, idx)[from..], x, y)
  {
    var path := After(s, idx)[from..];
    forall k: nat | k + 1 < |path|
      ensures path[k] != path[k + 1] && !Meets(points[x], points[y], points[path[k]], points[path[k + 1]])
    {
      assert path[k] == After(s, idx)[from + k] && path[k + 1] == After(s, idx)[from + k + 1];
      var m := Place(s, idx, from + k);
    }
  }

  /** Moving a point off the polygon without meeting it leaves the winding number unchanged. */
  lemma WindsSame(points: seq<Point>, s: seq<nat>, x: nat, y: nat)
    requires Distinct(points) && Ring(points, s) && x < |points| && y < |points| && x != y
    requires x !in s && y !in s && Uncrossed(points, s, x, y)
    ensures Winds(points, s, points[x]) == Winds(points, s, points[y])
  {
    var path := s + [s[0]];
    forall k: nat | k + 1 < |path|
      ensures path[k] != path[k + 1] && !Meets(points[x], points[y], points[path[k]], points[path[k + 1]])
    {
      assert path[k] == s[k] && path[k + 1] == Next(s, k);
    }
    PathSlides(points, path, x, y);
  }

  lemma {:induction false} PathOfZeros(points: seq<Point>, path: seq<nat>, x: Point)
    requires InRange(points, path)
    requires forall k: nat :: k < |path| ==> !Before(points[path[k]], x)
    ensures PathSum(path, Passing(points, x)) == 0.0
  {
    if |path| > 1 {
      PathOfZeros(points, path[1..], x);
    }
  }

  /** No side passes over a point that comes before every corner. */
  lemma FirstIsOutside(points: seq<Point>, s: seq<nat>, x: Point)
    requires InRange(points, s) && forall k: nat :: k < |s| ==> !Before(points[s[k]], x)
    ensures Winds(points, s, x) == 0.0
  {
    if s != [] {
      PathOfZeros(points, s + [s[0]], x);
    }
  }

  // ------------------------------------------------------------------
  // The left side of a polygon
  // ------------------------------------------------------------------

  function ConeUp(points: seq<Point>, s: seq<nat>, idx: nat): bool
    requires InRange(points, s) && idx < |s|
  {
    UpInCone(points[Prev(s, idx)], points[s[idx]], points[Next(s, idx)])
  }

  function ConeHas(points: seq<Point>, s: seq<nat>, idx: nat, x: nat): bool
    requires InRange(points, s) && idx < |s| && x < |points|
  {
    InCone(points[Prev(s, idx)], points[s[idx]], points[Next(s, idx)], points[x])
  }

  /** The winding number of the points next to a corner on the polygon's left. */
  function LeftWinds(points: seq<Point>, s: seq<nat>, idx: nat): real
    requires InRange(points, s) && idx < |s|
  {
    Winds(points, s, points[s[idx]]) + One(!ConeUp(points, s, idx))
  }

  lemma Neighbours(points: seq<Point>, s: seq<nat>, idx: nat)
    requires Ring(points, s) && idx < |s|
    ensures Prev(s, idx) != s[idx] && s[idx] != Next(s, idx) && Prev(s, idx) != Next(s, idx)
    ensures Prev(s, idx) in s && Next(s, idx) in s
    ensures Prev(s, idx) < |points| && Next(s, idx) < |points|
  {
  }

  lemma AfterHasOthers(points: seq<Point>, s: seq<nat>, idx: nat)
    requires Ring(points, s) && idx < |s|
    ensures forall k: nat :: k < |s| - 1 ==> After(s, idx)[k] != s[idx]
    ensures forall k: nat :: 1 <= k < |s| - 1 ==> After(s, idx)[k] != Next(s, idx)
    ensures forall k: nat :: k < |s| - 1 ==> After(s, idx)[k] in s
  {
    forall k: nat | k < |s| - 1
      ensures After(s, idx)[k] != s[idx] && After(s, idx)[k] in s && (1 <= k ==> After(s, idx)[k] != Next(s, idx))
    {
      var m, first := Place(s, idx, k), Place(s, idx, 0);
      assert s[m] in s;
      assert 1 <= k ==> m != first;
    }
  }

  /** The sides at a corner do not fold back on each other. */
  lemma CornerOpens(points: seq<Point>, s: seq<nat>, idx: nat)
    requires Ring(points, s) && idx < |s|
    requires Prev(s, idx) < |points| && Next(s, idx) < |points|
    requires Uncrossed(points, s, Prev(s, idx), s[idx]) || Uncrossed(points, s, s[idx], Next(s, idx))
    ensures !SameRay(points[s[idx]], points[Prev(s, idx)], points[Next(s, idx)])
  {
    hide Meets, SameRay;
    var d: nat := if idx == 0 then |s| - 1 else idx - 1;
    assert s[d] == Prev(s, idx) && Next(s, d) == s[idx];
    Neighbours(points, s, idx);
    SameRayFlips(points[s[idx]], points[Prev(s, idx)], points[Next(s, idx)]);
    if Uncrossed(points, s, Prev(s, idx), s[idx]) {
      assert Clear(points, Prev(s, idx), s[idx], s[idx], Next(s, idx));
    } else {
      assert Clear(points, s[idx], Next(s, idx), s[d], Next(s, d));
    }
  }

  /** No corner lies on a segment that no side meets. */
  lemma CornerOffSegment(points: seq<Point>, s: seq<nat>, m: nat, u: nat, v: nat)
    requires Ring(points, s) && m < |s| && u < |points| && v < |points| && u != v
    requires Uncrossed(points, s, u, v) && s[m] != u && s[m] != v
    ensures !On(points[s[m]], points[u], points[v])
  {
    hide On, SameRay;
    var p, q := s[m], Next(s, m);
    Neighbours(points, s, m);
    assert Clear(points, u, v, p, q);
    if On(points[p], points[u], points[v]) {
      OnIsAlong(points[p], points[u], points[v]);
      SameRayFlips(points[u], points[p], points[v]);
      SameRayFlips(points[v], points[p], points[u]);
    }
  }

  /** A point that sees a corner winds as the corner's left or right side does. */
  lemma LeavesCorner(points: seq<Point>, s: seq<nat>, idx: nat, x: nat)
    requires Distinct(points) && Ring(points, s) && Simple(points, s) && idx < |s| && x < |points| && x !in s
    requires Uncrossed(points, s, x, s[idx])
    ensures Winds(points, s, points[x]) == LeftWinds(points, s, idx) - One(!ConeHas(points, s, idx, x))
  {
    hide Pass, Over, UpInCone, InCone, SameRay, Meets, One, CycleSum, PathSum;
    var a, b, c, path := Prev(s, idx), s[idx], Next(s, idx), After(s, idx);
    Neighbours(points, s, idx);
    AfterHasOthers(points, s, idx);
    CycleAt(s, idx, Passing(points, points[x]));
    CycleAt(s, idx, Passing(points, points[b]));
    RestIsClear(points, s, idx, 0, x, b);
    assert path[0..] == path;
    PathSlides(points, path, x, b);
    FourDistinct(points, a, b, c, x);
    assert Uncrossed(points, s, b, c);
    CornerOpens(points, s, idx);
    SeenBesideSides(points, s, idx, x);
    LeaveCorner(points[a], points[b], points[c], points[x]);
    PassAtEnd(points[b], points[a]);
    PassAtEnd(points[b], points[c]);
  }

  /** The segment to a corner runs along neither of its sides. */
  lemma SeenBesideSides(points: seq<Point>, s: seq<nat>, idx: nat, x: nat)
    requires Ring(points, s) && idx < |s| && x < |points| && x !in s && Uncrossed(points, s, x, s[idx])
    ensures Prev(s, idx) < |points| && Next(s, idx) < |points|
    ensures !SameRay(points[s[idx]], points[Prev(s, idx)], points[x])
    ensures !SameRay(points[s[idx]], points[Next(s, idx)], points[x])
  {
    hide SameRay, Clear;
    var d: nat := if idx == 0 then |s| - 1 else idx - 1;
    assert s[d] == Prev(s, idx) && Next(s, d) == s[idx];
    Neighbours(points, s, idx);
    assert s[idx] in s && Prev(s, idx) in s && Next(s, idx) in s;
    assert Clear(points, x, s[idx], s[d], Next(s, d));
    assert Clear(points, x, s[idx], s[idx], Next(s, idx));
    ClearAtEnd(points, x, s[idx], Prev(s, idx));
    ClearAtEnd(points, x, s[idx], Next(s, idx));
  }

  lemma ClearAtEnd(points: seq<Point>, x: nat, b: nat, a: nat)
    requires x < |points| && b < |points| && a < |points| && x != a && x != b && a != b
    requires Clear(points, x, b, a, b) || Clear(points, x, b, b, a)
    ensures !SameRay(points[b], points[x], points[a]) && !SameRay(points[b], points[a], points[x])
  {
    hide SameRay, Meets;
    SameRayFlips(points[b], points[x], points[a]);
  }

  lemma PassAtEnd(x: Point, a: Point)
    ensures Pass(x, a, x) == 0.0 && Pass(x, x, a) == 0.0
  {
  }

  function NextIdx(s: seq<nat>, idx: nat): (m: nat)
    requires idx < |s|
    ensures m < |s| && s[m] == Next(s, idx) && Prev(s, m) == s[idx]
  {
    if idx + 1 == |s| then 0 else idx + 1
  }

  /** Along a side the left side's winding number stays the same. */
  lemma LeftAlong(points: seq<Point>, s: seq<nat>, idx: nat)
    requires Distinct(points) && Ring(points, s) && idx < |s| && Uncrossed(points, s, s[idx], Next(s, idx))
    ensures LeftWinds(points, s, NextIdx(s, idx)) == LeftWinds(points, s, idx)
  {
    hide Pass, Over, UpInCone, InCone, SameRay, Uncrossed, Distinct, CycleSum;
    var a, b, c, path := Prev(s, idx), s[idx], Next(s, idx), After(s, idx);
    var m := NextIdx(s, idx);
    var d := Next(s, m);
    Neighbours(points, s, idx);
    Neighbours(points, s, m);
    var pb, pc := Passing(points, points[b]), Passing(points, points[c]);
    CycleAt(s, idx, pb);
    CycleAt(s, idx, pc);
    assert path[1] == d by {
      assert Place(s, idx, 0) == m;
    }
    assert PathSum(path, pb) == pb(c, d) + PathSum(path[1..], pb);
    assert PathSum(path, pc) == pc(c, d) + PathSum(path[1..], pc);
    RestSlides(points, s, idx);
    ThreeDistinct(points, a, b, c);
    ThreeDistinct(points, b, c, d);
    CornerOpens(points, s, idx);
    CornerOpens(points, s, m);
    SameRayFlips(points[c], points[b], points[d]);
    EdgeBefore(points[a], points[b], points[c]);
    EdgeAfter(points[b], points[c], points[d]);
    PassAtEnd(points[b], points[a]);
    PassAtEnd(points[b], points[c]);
    PassAtEnd(points[c], points[b]);
    PassAtEnd(points[c], points[d]);
  }

  lemma RestSlides(points: seq<Point>, s: seq<nat>, idx: nat)
    requires Distinct(points) && Ring(points, s) && idx < |s|
    requires Next(s, idx) < |points| && Uncrossed(points, s, s[idx], Next(s, idx))
    ensures Prev(s, idx) < |points| && Next(s, NextIdx(s, idx)) < |points|
    ensures var rest, b, c := After(s, idx)[1..], points[s[idx]], points[Next(s, idx)];
            PathSum(rest, Passing(points, b)) - PathSum(rest, Passing(points, c))
            == Over(b, c, points[Next(s, NextIdx(s, idx))]) - Over(b, c, points[Prev(s, idx)])
  {
    hide Pass, Over, Uncrossed, Distinct, PathSum;
    Neighbours(points, s, idx);
    Neighbours(points, s, NextIdx(s, idx));
    AfterHasOthers(points, s, idx);
    assert After(s, idx)[1] == Next(s, NextIdx(s, idx)) by {
      assert Place(s, idx, 0) == NextIdx(s, idx);
    }
    RestIsClear(points, s, idx, 1, s[idx], Next(s, idx));
    PathSlides(points, After(s, idx)[1..], s[idx], Next(s, idx));
  }

  /** In a simple polygon the left side's winding number is the same everywhere. */
  lemma {:induction false} LeftEverywhere(points: seq<Point>, s: seq<nat>, idx: nat)
    requires Distinct(points) && Ring(points, s) && Simple(points, s) && idx < |s|
    ensures LeftWinds(points, s, idx) == LeftWinds(points, s, 0)
    decreases idx
  {
    hide LeftWinds, Uncrossed, Distinct;
    if idx > 0 {
      LeftEverywhere(points, s, idx - 1);
      LeftAlong(points, s, idx - 1);
    }
  }

  // ------------------------------------------------------------------
  // Cutting off a corner
  // ------------------------------------------------------------------

  ghost predicate InEar(points: seq<Point>, s: seq<nat>, idx: nat, x: nat)
    requires InRange(points, s) && idx < |s| && x < |points|
  {
    InTip(points[Prev(s, idx)], points[s[idx]], points[Next(s, idx)], points[x])
  }

  predicate TurnsLeft(points: seq<Point>, s: seq<nat>, idx: nat)
    requires InRange(points, s) && idx < |s|
  {
    Ccw(points[Prev(s, idx)], points[s[idx]], points[Next(s, idx)])
  }

  /** A point off the triangle that is cut off is wound around as before. */
  lemma WindsWithout(points: seq<Point>, s: seq<nat>, idx: nat, x: nat)
    requires Distinct(points) && Ring(points, s) && idx < |s| && TurnsLeft(points, s, idx)
    requires x < |points| && x != Prev(s, idx) && x != s[idx] && x != Next(s, idx) && !InEar(points, s, idx, x)
    requires !On(points[x], points[Prev(s, idx)], points[s[idx]]) && !On(points[x], points[s[idx]], points[Next(s, idx)])
    ensures Winds(points, s, points[x]) == Winds(points, Without(s, idx), points[x])
  {
    hide Pass, InTip, On, Ccw, CycleSum, Antisymmetric;
    var w := Passing(points, points[x]);
    Neighbours(points, s, idx);
    EarDifference(s, idx, w);
    PassingAntisymmetric(points, points[x]);
    FourDistinct(points, Prev(s, idx), s[idx], Next(s, idx), x);
    TriangleWinds(points[Prev(s, idx)], points[s[idx]], points[Next(s, idx)], points[x]);
    Antisymmetry(w, Next(s, idx), Prev(s, idx));
  }

  lemma Antisymmetry(w: Weight, i: nat, j: nat)
    requires Antisymmetric(w)
    ensures w(i, j) == -w(j, i)
  {
  }

  /** The position of a corner after the one at `idx` is cut off. */
  function Shifted(idx: nat, m: nat): nat
    requires m != idx
  {
    if m < idx then m else m - 1
  }

  lemma WithoutKeeps(points: seq<Point>, s: seq<nat>, idx: nat)
    requires InRange(points, s) && idx < |s|
    ensures |Without(s, idx)| == |s| - 1 && InRange(points, Without(s, idx))
    ensures Ring(points, s) && |s| > 3 ==> Ring(points, Without(s, idx))
  {
  }

  /** The sides at a corner, as segments that no side meets. */
  lemma CornerSides(points: seq<Point>, s: seq<nat>, k: nat)
    requires Ring(points, s) && Simple(points, s) && k < |s|
    ensures Prev(s, k) < |points| && Next(s, k) < |points|
    ensures Uncrossed(points, s, Prev(s, k), s[k]) && Uncrossed(points, s, s[k], Next(s, k))
  {
    Neighbours(points, s, k);
    if k == 0 {
      assert Uncrossed(points, s, s[|s| - 1], Next(s, |s| - 1));
    } else {
      assert Uncrossed(points, s, s[k - 1], Next(s, k - 1));
    }
  }

  /** A corner that is not cut off and none of whose neighbours is. */
  lemma LeftWithout(points: seq<Point>, s: seq<nat>, idx: nat, m: nat)
    requires Distinct(points) && Ring(points, s) && Simple(points, s) && |s| > 3 && idx < |s| && TurnsLeft(points, s, idx)
    requires m < |s| && m != idx && s[m] != Prev(s, idx) && s[m] != Next(s, idx) && !InEar(points, s, idx, s[m])
    ensures InRange(points, Without(s, idx))
    ensures LeftWinds(points, Without(s, idx), Shifted(idx, m)) == LeftWinds(points, s, m)
  {
    hide Simple, Uncrossed, InEar, TurnsLeft, Winds, On, UpInCone;
    WithoutKeeps(points, s, idx);
    Neighbours(points, s, idx);
    CornerSides(points, s, idx);
    CornerOffSegment(points, s, m, Prev(s, idx), s[idx]);
    CornerOffSegment(points, s, m, s[idx], Next(s, idx));
    var r, m2 := Without(s, idx), Shifted(idx, m);
    assert r[m2] == s[m] && Prev(r, m2) == Prev(s, m) && Next(r, m2) == Next(s, m);
    WindsWithout(points, s, idx, s[m]);
  }
}
