/** The level-path editor: plane projection, dragging items, and hit tests. Coordinates are reals. */
module LevelPath {
  import opened Common

  const WIDTH: real := 1180.0
  const HEIGHT: real := 820.0

  datatype View = Top | Bottom | Front | Back | Left | Right

  datatype Vec3 = Vec3(x: real, y: real, z: real)

  /** A point in the plane of the view, or on the screen. */
  datatype Vec2 = Vec2(u: real, v: real)

  /** The camera: view, zoom, and plane coordinates of the centre. */
  datatype Camera = Camera(view: View, zoom: real, center: Vec2)

  /** The zoom in force: a zoom of 0 counts as unset and gives the default. */
  function Scale(c: Camera): (s: real)
    ensures s != 0.0
  {
    if c.zoom == 0.0 then 52.0 else c.zoom
  }

  function WorldToPlane(view: View, w: Vec3): Vec2 {
    match view
    case Front => Vec2(w.x, w.y)
    case Back => Vec2(w.x, w.y)
    case Left => Vec2(w.z, w.y)
    case Right => Vec2(w.z, w.y)
    case Bottom => Vec2(w.x, w.z)
    case Top => Vec2(w.x, w.z)
  }

  function PlaneToWorld(view: View, p: Vec2, anchor: Vec3): Vec3 {
    match view
    case Front => Vec3(p.u, p.v, anchor.z)
    case Back => Vec3(p.u, p.v, anchor.z)
    case Left => Vec3(anchor.x, p.v, p.u)
    case Right => Vec3(anchor.x, p.v, p.u)
    case Bottom => Vec3(p.u, anchor.y, p.v)
    case Top => Vec3(p.u, anchor.y, p.v)
  }

  /** The coordinate that does not lie in the plane of the view. */
  function OffPlane(view: View, w: Vec3): real {
    match view
    case Front => w.z
    case Back => w.z
    case Left => w.x
    case Right => w.x
    case Bottom => w.y
    case Top => w.y
  }

  function Project(c: Camera, p: Vec2): Vec2 {
    Vec2(WIDTH * 0.5 + (p.u - c.center.u) * Scale(c), HEIGHT * 0.55 - (p.v - c.center.v) * Scale(c))
  }

  function Unproject(c: Camera, s: Vec2): Vec2 {
    Vec2((s.u - WIDTH * 0.5) / Scale(c) + c.center.u, -(s.v - HEIGHT * 0.55) / Scale(c) + c.center.v)
  }

  function ScreenToWorld(c: Camera, s: Vec2, anchor: Vec3): Vec3 {
    PlaneToWorld(c.view, Unproject(c, s), anchor)
  }

  /** One turn of the wheel; one of at most a thousandth is ignored. */
  function Wheel(zoom: real, delta: real): real {
    if -0.001 <= delta <= 0.001 then zoom
    else
      var z := (if zoom == 0.0 then 52.0 else zoom) * (if delta > 0.0 then 0.92 else 1.08);
      if z < 12.0 then 12.0 else if z > 220.0 then 220.0 else z
  }

  // ------------------------------------------------------------------
  // Projection
  // ------------------------------------------------------------------

  lemma DivideBack(a: real, s: real)
    requires s != 0.0
    ensures (a / s) * s == a
  {
  }

  lemma UnprojectProject(c: Camera, s: Vec2)
    ensures Project(c, Unproject(c, s)) == s
  {
    DivideBack(s.u - WIDTH * 0.5, Scale(c));
    DivideBack(-(s.v - HEIGHT * 0.55), Scale(c));
  }

  /** In all six views, at any zoom and with any anchor, projecting the world point under a screen point
      gives the screen point back, and the world point keeps the anchor's off-plane coordinate. */
  lemma ScreenRoundTrip(c: Camera, s: Vec2, anchor: Vec3)
    ensures Project(c, WorldToPlane(c.view, ScreenToWorld(c, s, anchor))) == s
    ensures OffPlane(c.view, ScreenToWorld(c, s, anchor)) == OffPlane(c.view, anchor)
  {
    UnprojectProject(c, s);
  }

  /** Where a world point shows, written out: the plane axes of the six views, 590 and 451 pixels for the centre of
      the camera, and the zoom in pixels a unit, the second screen axis pointing down. */
  ghost predicate ShowsAt(c: Camera, w: Vec3, s: Vec2) {
    var k := if c.zoom == 0.0 then 52.0 else c.zoom;
    var across := if c.view.Left? || c.view.Right? then w.z else w.x;
    var up := if c.view.Top? || c.view.Bottom? then w.z else w.y;
    s.u - 590.0 == (across - c.center.u) * k && 451.0 - s.v == (up - c.center.v) * k
  }

  /** A world point shows where it is projected and nowhere else, and the world point found under a screen
      point shows there. */
  lemma ProjectedIsShown(c: Camera, w: Vec3, s: Vec2, anchor: Vec3)
    ensures ShowsAt(c, w, s) <==> s == Project(c, WorldToPlane(c.view, w))
    ensures ShowsAt(c, ScreenToWorld(c, s, anchor), s)
  {
    ScreenRoundTrip(c, s, anchor);
    SameProjection(c, w, s);
    SameProjection(c, ScreenToWorld(c, s, anchor), s);
  }

  lemma SameProjection(c: Camera, w: Vec3, s: Vec2)
    ensures ShowsAt(c, w, s) <==> s == Project(c, WorldToPlane(c.view, w))
  {
    var p := Project(c, WorldToPlane(c.view, w));
    assert ShowsAt(c, w, p);
    if ShowsAt(c, w, s) {
      assert s.u == p.u && s.v == p.v;
    }
  }

  // ------------------------------------------------------------------
  // Moving items
  // ------------------------------------------------------------------

  /** What `round(x, 3)` may return: some nearest multiple of a thousandth. */
  ghost predicate RoundsToThousandths(rnd: real -> real) {
    forall x :: NearThousandth(x, rnd(x))
  }

  ghost predicate NearThousandth(x: real, r: real) {
    IsThousandth(r) && -0.0005 <= r - x <= 0.0005
  }

  ghost predicate IsThousandth(r: real) {
    exists k: int :: r == Thousandths(k)
  }

  function Thousandths(k: int): real {
    k as real * 0.001
  }

  function At(pos: seq<real>, i: nat): real {
    if i < |pos| then pos[i] else 0.0
  }

  /** The position read from a list of any length, missing coordinates being 0. */
  function Vec(pos: seq<real>): Vec3 {
    Vec3(At(pos, 0), At(pos, 1), At(pos, 2))
  }

  function List(w: Vec3): (l: seq<real>)
    ensures |l| == 3 && Vec(l) == w
  {
    [w.x, w.y, w.z]
  }

  function Plus(a: Vec3, b: Vec3): Vec3 {
    Vec3(a.x + b.x, a.y + b.y, a.z + b.z)
  }

  function Minus(a: Vec3, b: Vec3): Vec3 {
    Vec3(a.x - b.x, a.y - b.y, a.z - b.z)
  }

  function Round(rnd: real -> real, a: Vec3): Vec3 {
    Vec3(rnd(a.x), rnd(a.y), rnd(a.z))
  }

  function Moved(rnd: real -> real, pos: Vec3, delta: Vec3): Vec3 {
    Round(rnd, Plus(pos, delta))
  }

  datatype Shape = Square | Cube | Other

  datatype Area = Area(shape: Shape, position: seq<real>, size: seq<real>)

  datatype Passage = Passage(start: seq<real>, end: seq<real>)

  datatype Item = AreaItem(index: int) | PassageItem(index: int)

  datatype Doc = Doc(areas: seq<Area>, passages: seq<Passage>)

  /** The document after `move_item`; an item that is not there moves nothing. */
  function MovedDoc(rnd: real -> real, d: Doc, item: Item, delta: Vec3): Doc {
    match item
    case AreaItem(i) =>
      if 0 <= i < |d.areas| then d.(areas := d.areas[i := d.areas[i].(position := List(Moved(rnd, Vec(d.areas[i].position), delta)))]) else d
    case PassageItem(i) =>
      if 0 <= i < |d.passages| then
        var p := d.passages[i];
        d.(passages := d.passages[i := Passage(List(Moved(rnd, Vec(p.start), delta)), List(Moved(rnd, Vec(p.end), delta)))])
      else d
  }

  /** Coordinate `i` of a stored position moved along its axis and rounded; a missing one counts as 0. */
  ghost predicate MovedAlong(rnd: real -> real, before: seq<real>, after: seq<real>, delta: Vec3) {
    && |after| == 3
    && after[0] == rnd((if |before| > 0 then before[0] else 0.0) + delta.x)
    && after[1] == rnd((if |before| > 1 then before[1] else 0.0) + delta.y)
    && after[2] == rnd((if |before| > 2 then before[2] else 0.0) + delta.z)
  }

  /** Moving an item moves the position of an area, or both ends of a passage, axis by axis, and nothing else; an index
      out of range moves nothing. */
  lemma MovedByDelta(rnd: real -> real, d: Doc, item: Item, delta: Vec3)
    ensures var after, i := MovedDoc(rnd, d, item, delta), item.index;
            && |after.areas| == |d.areas| && |after.passages| == |d.passages|
            && (forall k :: 0 <= k < |d.areas| && item != AreaItem(k) ==> after.areas[k] == d.areas[k])
            && (forall k :: 0 <= k < |d.passages| && item != PassageItem(k) ==> after.passages[k] == d.passages[k])
            && (item.AreaItem? && 0 <= i < |d.areas| ==>
                  && after.areas[i].shape == d.areas[i].shape && after.areas[i].size == d.areas[i].size
                  && MovedAlong(rnd, d.areas[i].position, after.areas[i].position, delta))
            && (item.PassageItem? && 0 <= i < |d.passages| ==>
                  && MovedAlong(rnd, d.passages[i].start, after.passages[i].start, delta)
                  && MovedAlong(rnd, d.passages[i].end, after.passages[i].end, delta))
  {
  }

  /** The points of the item in the document. */
  function PointsOf(d: Doc, item: Item): seq<Vec3> {
    match item
    case AreaItem(i) => if 0 <= i < |d.areas| then [Vec(d.areas[i].position)] else []
    case PassageItem(i) => if 0 <= i < |d.passages| then [Vec(d.passages[i].start), Vec(d.passages[i].end)] else []
  }

  /** A drag in progress: the item, the world point last seen under the mouse, and where the item was. */
  datatype Drag = Drag(item: Item, anchor: Vec3, initial: Vec3)

  class Viewer {
    const rnd: real -> real
    var areas: seq<Area>
    var passages: seq<Passage>
    var drag: Option<Drag>

    ghost function View(): Doc
      reads this
    {
      Doc(areas, passages)
    }

    constructor (rnd: real -> real, d: Doc)
      ensures View() == d && drag == None && this.rnd == rnd
    {
      this.rnd := rnd;
      areas, passages, drag := d.areas, d.passages, None;
    }

    method MoveItem(item: Item, delta: Vec3)
      modifies this`areas, this`passages
      ensures View() == MovedDoc(rnd, old(View()), item, delta)
    {
      match item {
        case AreaItem(i) =>
          if 0 <= i < |areas| {
            areas := areas[i := areas[i].(position := List(Moved(rnd, Vec(areas[i].position), delta)))];
          }
        case PassageItem(i) =>
          if 0 <= i < |passages| {
            var start := List(Moved(rnd, Vec(passages[i].start), delta));
            var end := List(Moved(rnd, Vec(passages[i].end), delta));
            passages := passages[i := Passage(start, end)];
          }
      }
    }

    /** `mouseDown` on an item that shows at `world`. */
    method BeginDrag(c: Camera, s: Vec2, item: Item, world: Vec3)
      modifies this`drag
      ensures drag == Some(Drag(item, ScreenToWorld(c, s, world), world))
    {
      drag := Some(Drag(item, ScreenToWorld(c, s, world), world));
    }

    /** `mouseMove` during a drag. */
    method DragTo(c: Camera, s: Vec2)
      modifies this
      ensures old(drag) == None ==> View() == old(View()) && drag == None
      ensures old(drag).Some? ==>
                var g := old(drag).value;
                var current := ScreenToWorld(c, s, g.initial);
                View() == MovedDoc(rnd, old(View()), g.item, Minus(current, g.anchor)) && drag == Some(g.(anchor := current))
    {
      if drag == None {
        return;
      }
      var g := drag.value;
      var current := ScreenToWorld(c, s, g.initial);
      MoveItem(g.item, Minus(current, g.anchor));
      drag := Some(g.(anchor := current));
    }
  }

  // ------------------------------------------------------------------
  // A whole drag
  // ------------------------------------------------------------------

  /** A mouse position with the camera of that moment. */
  datatype Mouse = Mouse(camera: Camera, at: Vec2)

  function Under(m: Mouse, initial: Vec3): Vec3 {
    ScreenToWorld(m.camera, m.at, initial)
  }

  /** The document and the anchor after a list of mouse moves. */
  function AfterMoves(rnd: real -> real, d: Doc, g: Drag, moves: seq<Mouse>): (Doc, Drag) {
    if moves == [] then (d, g)
    else
      var (d', g') := AfterMoves(rnd, d, g, moves[..|moves| - 1]);
      var current := Under(moves[|moves| - 1], g.initial);
      (MovedDoc(rnd, d', g'.item, Minus(current, g'.anchor)), g'.(anchor := current))
  }

  predicate Within(a: real, b: real, bound: real) {
    -bound <= a - b <= bound
  }

  predicate AllWithin(a: Vec3, b: Vec3, bound: real) {
    Within(a.x, b.x, bound) && Within(a.y, b.y, bound) && Within(a.z, b.z, bound)
  }

  /** Where a point would be without rounding. */
  function Target(start: Vec3, g: Drag, moves: seq<Mouse>): Vec3 {
    Plus(start, Minus(Last(g, moves), g.anchor))
  }

  function Last(g: Drag, moves: seq<Mouse>): Vec3 {
    if moves == [] then g.anchor else Under(moves[|moves| - 1], g.initial)
  }

  lemma MovePoint(rnd: real -> real, pos: Vec3, delta: Vec3, target: Vec3, bound: real)
    requires RoundsToThousandths(rnd) && AllWithin(pos, target, bound)
    ensures AllWithin(Moved(rnd, pos, delta), Plus(target, delta), bound + 0.0005)
  {
    assert NearThousandth(pos.x + delta.x, rnd(pos.x + delta.x));
    assert NearThousandth(pos.y + delta.y, rnd(pos.y + delta.y));
    assert NearThousandth(pos.z + delta.z, rnd(pos.z + delta.z));
  }

  lemma MovedPoints(rnd: real -> real, d: Doc, item: Item, delta: Vec3, k: nat)
    requires k < |PointsOf(d, item)|
    ensures |PointsOf(MovedDoc(rnd, d, item, delta), item)| == |PointsOf(d, item)|
    ensures PointsOf(MovedDoc(rnd, d, item, delta), item)[k] == Moved(rnd, PointsOf(d, item)[k], delta)
  {
  }

  lemma {:induction false} DragKeepsItem(rnd: real -> real, d: Doc, g: Drag, moves: seq<Mouse>)
    ensures var r := AfterMoves(rnd, d, g, moves);
            r.1 == Drag(g.item, Last(g, moves), g.initial) && |PointsOf(r.0, g.item)| == |PointsOf(d, g.item)|
  {
    if moves != [] {
      DragKeepsItem(rnd, d, g, moves[..|moves| - 1]);
    }
  }

  /** After `k` moves of one drag, whatever views and zooms it went through, each point of the item is
      within k half-thousandths, on every axis, of its start plus the way the mouse went in the world. */
  lemma {:induction false} DragErrorBound(rnd: real -> real, d: Doc, g: Drag, moves: seq<Mouse>, k: nat)
    requires RoundsToThousandths(rnd) && k < |PointsOf(d, g.item)|
    ensures |PointsOf(AfterMoves(rnd, d, g, moves).0, g.item)| == |PointsOf(d, g.item)|
    ensures AllWithin(PointsOf(AfterMoves(rnd, d, g, moves).0, g.item)[k],
                      Target(PointsOf(d, g.item)[k], g, moves), |moves| as real * 0.0005)
  {
    DragKeepsItem(rnd, d, g, moves);
    if moves != [] {
      var front := moves[..|moves| - 1];
      DragKeepsItem(rnd, d, g, front);
      DragErrorBound(rnd, d, g, front, k);
      var r := AfterMoves(rnd, d, g, front);
      var start, delta := PointsOf(d, g.item)[k], Minus(Last(g, moves), Last(g, front));
      MovedPoints(rnd, r.0, g.item, delta, k);
      MovePoint(rnd, PointsOf(r.0, g.item)[k], delta, Target(start, g, front), |front| as real * 0.0005);
      assert Plus(Target(start, g, front), delta) == Target(start, g, moves);
    }
  }

  /** The three coordinates of a stored position are those of `start` moved from `from` to `to`, to within `bound`. */
  ghost predicate Follows(start: seq<real>, now: seq<real>, from: Vec3, to: Vec3, bound: real) {
    && |start| >= 3 && |now| >= 3
    && -bound <= now[0] - (start[0] + to.x - from.x) <= bound
    && -bound <= now[1] - (start[1] + to.y - from.y) <= bound
    && -bound <= now[2] - (start[2] + to.z - from.z) <= bound
  }

  /** A drag makes its item follow the mouse: with `w` the point that shows under the last mouse position, in the
      plane through where the item was, what is stored for an area or a passage is what was stored, moved by the way from
      the anchor to `w`, to within a half-thousandth a move. */
  lemma DragFollowsMouse(rnd: real -> real, d: Doc, g: Drag, moves: seq<Mouse>) returns (w: Vec3)
    requires RoundsToThousandths(rnd) && moves != []
    ensures var last := moves[|moves| - 1];
            ShowsAt(last.camera, w, last.at) && OffPlane(last.camera.view, w) == OffPlane(last.camera.view, g.initial)
    ensures var after, i, bound := AfterMoves(rnd, d, g, moves).0, g.item.index, |moves| as real * 0.0005;
            && |after.areas| == |d.areas| && |after.passages| == |d.passages|
            && (g.item.AreaItem? && 0 <= i < |d.areas| && |d.areas[i].position| >= 3 ==>
                  Follows(d.areas[i].position, after.areas[i].position, g.anchor, w, bound))
            && (g.item.PassageItem? && 0 <= i < |d.passages| && |d.passages[i].start| >= 3 && |d.passages[i].end| >= 3 ==>
                  Follows(d.passages[i].start, after.passages[i].start, g.anchor, w, bound)
                  && Follows(d.passages[i].end, after.passages[i].end, g.anchor, w, bound))
  {
    var last, i := moves[|moves| - 1], g.item.index;
    w := Under(last, g.initial);
    ScreenRoundTrip(last.camera, last.at, g.initial);
    ProjectedIsShown(last.camera, w, last.at, g.initial);
    DragKeepsShape(rnd, d, g, moves);
    hide ShowsAt, AfterMoves, RoundsToThousandths, ScreenToWorld;
    if PointsOf(d, g.item) != [] {
      DragErrorBound(rnd, d, g, moves, 0);
      if g.item.PassageItem? {
        DragErrorBound(rnd, d, g, moves, 1);
      }
    }
  }

  /** After a move the dragged item has three coordinates to a position, and no list gets longer or shorter. */
  lemma {:induction false} DragKeepsShape(rnd: real -> real, d: Doc, g: Drag, moves: seq<Mouse>)
    ensures var after, i := AfterMoves(rnd, d, g, moves).0, g.item.index;
            && |after.areas| == |d.areas| && |after.passages| == |d.passages|
            && (moves != [] && g.item.AreaItem? && 0 <= i < |d.areas| ==> |after.areas[i].position| == 3)
            && (moves != [] && g.item.PassageItem? && 0 <= i < |d.passages| ==>
                  |after.passages[i].start| == 3 && |after.passages[i].end| == 3)
  {
    if moves != [] {
      DragKeepsItem(rnd, d, g, moves[..|moves| - 1]);
      DragKeepsShape(rnd, d, g, moves[..|moves| - 1]);
    }
  }

  /** Roundings as assumed exist. */
  lemma RoundingExists() returns (rnd: real -> real)
    ensures RoundsToThousandths(rnd)
  {
    rnd := x => Thousandths((x * 1000.0 + 0.5).Floor);
    forall x: real ensures NearThousandth(x, rnd(x)) {
      var k := (x * 1000.0 + 0.5).Floor;
      assert k as real <= x * 1000.0 + 0.5 < k as real + 1.0;
      assert rnd(x) == Thousandths(k);
    }
  }

  /** A drag moves no other item, and changes no shape or size. */
  lemma {:induction false} DragMovesOnlyItem(rnd: real -> real, d: Doc, g: Drag, moves: seq<Mouse>, other: Item)
    requires other != g.item
    ensures var after := AfterMoves(rnd, d, g, moves).0;
            && PointsOf(after, other) == PointsOf(d, other)
            && |after.areas| == |d.areas| && |after.passages| == |d.passages|
            && forall i :: 0 <= i < |d.areas| ==> after.areas[i].shape == d.areas[i].shape && after.areas[i].size == d.areas[i].size
  {
    DragKeepsItem(rnd, d, g, moves);
    if moves != [] {
      DragKeepsItem(rnd, d, g, moves[..|moves| - 1]);
      DragMovesOnlyItem(rnd, d, g, moves[..|moves| - 1], other);
    }
  }

  /** A multiple of a thousandth rounds to itself. */
  lemma ThousandthIsFixed(rnd: real -> real, r: real)
    requires RoundsToThousandths(rnd) && IsThousandth(r)
    ensures rnd(r) == r
  {
    assert NearThousandth(r, rnd(r));
    var j: int :| r == Thousandths(j);
    var k: int :| rnd(r) == Thousandths(k);
    assert -1 < k - j < 1 by {
      assert (k - j) as real == k as real - j as real;
    }
  }

  /** A drag that stays in one view and starts from an anchor in the item's own plane. */
  ghost predicate OneView(view: View, g: Drag, moves: seq<Mouse>) {
    OffPlane(view, g.anchor) == OffPlane(view, g.initial)
    && forall i :: 0 <= i < |moves| ==> moves[i].camera.view == view
  }

  /** In one view the off-plane coordinate is rounded once, however many moves there are, so in total it
      changes by at most half a thousandth. */
  lemma {:induction false} OffPlaneBound(rnd: real -> real, view: View, d: Doc, g: Drag, moves: seq<Mouse>, k: nat)
    requires RoundsToThousandths(rnd) && k < |PointsOf(d, g.item)| && OneView(view, g, moves)
    ensures |PointsOf(AfterMoves(rnd, d, g, moves).0, g.item)| == |PointsOf(d, g.item)|
    ensures var start, now := PointsOf(d, g.item)[k], PointsOf(AfterMoves(rnd, d, g, moves).0, g.item)[k];
            && OffPlane(view, now) == (if moves == [] then OffPlane(view, start) else rnd(OffPlane(view, start)))
            && Within(OffPlane(view, now), OffPlane(view, start), 0.0005)
  {
    DragKeepsItem(rnd, d, g, moves);
    if moves != [] {
      var front := moves[..|moves| - 1];
      DragKeepsItem(rnd, d, g, front);
      OffPlaneBound(rnd, view, d, g, front, k);
      var r := AfterMoves(rnd, d, g, front);
      var delta := Minus(Last(g, moves), Last(g, front));
      MovedPoints(rnd, r.0, g.item, delta, k);
      SameOffPlane(view, g, moves);
      SameOffPlane(view, g, front);
      OffPlaneStep(rnd, view, PointsOf(r.0, g.item)[k], delta);
      var start := OffPlane(view, PointsOf(d, g.item)[k]);
      assert NearThousandth(start, rnd(start));
      ThousandthIsFixed(rnd, rnd(start));
    }
  }

  lemma OffPlaneStep(rnd: real -> real, view: View, pos: Vec3, delta: Vec3)
    requires OffPlane(view, delta) == 0.0
    ensures OffPlane(view, Moved(rnd, pos, delta)) == rnd(OffPlane(view, pos))
  {
  }

  lemma SameOffPlane(view: View, g: Drag, moves: seq<Mouse>)
    requires OneView(view, g, moves)
    ensures OffPlane(view, Last(g, moves)) == OffPlane(view, g.initial)
  {
    if moves != [] {
      ScreenRoundTrip(moves[|moves| - 1].camera, moves[|moves| - 1].at, g.initial);
    }
  }

  /** A turn of the wheel: nothing below a thousandth, else 8 per cent in or out, a zoom of 0 counting as 52, as far
      as that stays between 12 and 220; so the zoom never gets to 0. */
  lemma WheelRange(zoom: real, delta: real)
    ensures -0.001 <= delta <= 0.001 ==> Wheel(zoom, delta) == zoom
    ensures 12.0 <= zoom <= 220.0 || delta > 0.001 || delta < -0.001 ==> 12.0 <= Wheel(zoom, delta) <= 220.0
    ensures 12.0 <= zoom <= 220.0 && delta < -0.001 && zoom < 203.0 ==> Wheel(zoom, delta) > zoom
    ensures 12.0 <= zoom <= 220.0 && delta > 0.001 && zoom > 14.0 ==> Wheel(zoom, delta) < zoom
    ensures 12.0 < Wheel(zoom, delta) < 220.0 && zoom != 0.0 && delta > 0.001 ==> 100.0 * Wheel(zoom, delta) == 92.0 * zoom
    ensures 12.0 < Wheel(zoom, delta) < 220.0 && zoom != 0.0 && delta < -0.001 ==> 100.0 * Wheel(zoom, delta) == 108.0 * zoom
    ensures delta > 0.001 || delta < -0.001 ==> Wheel(0.0, delta) == Wheel(52.0, delta)
  {
  }
}
