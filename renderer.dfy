/**
 The control-point state of `PathStrokeRenderer`: the points and their
 velocities, the animation tick `updatePoints`, the mouse handlers, and the
 touch-id to point-index bindings maintained by `event`.
 */
module Renderer {
  import opened Geometry
  import opened PathBuilder

  /** Number of points `initializePoints` lays out. */
  const PointCount: nat := 7
  /** Margin between the widget border and the animation bounds. */
  const Pad: real := 10.0
  /** Mouse capture radius, in units of the point size. */
  const MouseCaptureFactor: int := 8
  /** Touch capture radius, in units of the point size. */
  const TouchCaptureFactor: int := 12
  /** Manhattan distance beyond which a mouse move counts as a drag. */
  const DragThreshold: nat := 25

  datatype Rect = Rect(left: real, right: real, top: real, bottom: real)

  /** The rectangle `updatePoints` keeps the points in, for a widget of the
      given size. */
  function PaddedBounds(width: int, height: int): (b: Rect)
    ensures b.left == b.top == Pad
    ensures b.right - b.left == width as real - 2.0 * Pad
    ensures b.bottom - b.top == height as real - 2.0 * Pad
    ensures b.left <= b.right <==> width as real >= 2.0 * Pad
  {
    Rect(Pad, width as real - Pad, Pad, height as real - Pad)
  }

  predicate Inside(p: Point, b: Rect)
  {
    b.left <= p.x <= b.right && b.top <= p.y <= b.bottom
  }

  /** One coordinate and its velocity component. */
  datatype Axis = Axis(pos: real, vel: real)

  /** One coordinate of one point in one animation tick: move, and if the
      new coordinate leaves [lo, hi], reverse the velocity component and put
      the coordinate on the boundary it crossed. */
  function StepAxis(pos: real, vel: real, lo: real, hi: real): (r: Axis)
    ensures lo <= pos + vel <= hi ==> r == Axis(pos + vel, vel)
    ensures pos + vel < lo ==> r == Axis(lo, -vel)
    ensures lo <= pos + vel && hi < pos + vel ==> r == Axis(hi, -vel)
    ensures lo <= hi ==> lo <= r.pos <= hi
  {
    var p := pos + vel;
    if p < lo || p > hi then Axis(if p < lo then lo else hi, -vel)
    else Axis(p, vel)
  }

  /** A point together with its velocity. */
  datatype Particle = Particle(pos: Point, vel: Point)

  /** One point in one animation tick; x and y are handled independently. */
  function Step(pos: Point, vel: Point, b: Rect): (r: Particle)
    ensures b.left <= b.right && b.top <= b.bottom ==> Inside(r.pos, b)
    ensures Inside(Point(pos.x + vel.x, pos.y + vel.y), b) ==>
      r == Particle(Point(pos.x + vel.x, pos.y + vel.y), vel)
    ensures r.vel.x == vel.x || r.vel.x == -vel.x
    ensures r.vel.y == vel.y || r.vel.y == -vel.y
  {
    var ax := StepAxis(pos.x, vel.x, b.left, b.right);
    var ay := StepAxis(pos.y, vel.y, b.top, b.bottom);
    Particle(Point(ax.pos, ay.pos), Point(ax.vel, ay.vel))
  }

  /** The new x coordinate and x velocity depend on the old x data only, and
      likewise for y. */
  lemma StepAxesIndependent(p: Point, v: Point, q: Point, w: Point, b: Rect)
    ensures p.x == q.x && v.x == w.x ==>
      Step(p, v, b).pos.x == Step(q, w, b).pos.x && Step(p, v, b).vel.x == Step(q, w, b).vel.x
    ensures p.y == q.y && v.y == w.y ==>
      Step(p, v, b).pos.y == Step(q, w, b).pos.y && Step(p, v, b).vel.y == Step(q, w, b).vel.y
  {
  }

  /** k is what the nearest-point search over indices below n returns: -1
      when no index outside `excluded` is closer than the radius (given
      squared, r2), and otherwise the lowest index among the eligible points
      at minimum distance, that distance lying below the radius. */
  ghost predicate IsPickAmong(points: seq<Point>, n: nat, pos: Point, r2: real, excluded: set<int>, k: int)
    requires n <= |points|
  {
    if k == -1 then
      forall i :: 0 <= i < n && i !in excluded ==> SqDist(pos, points[i]) >= r2
    else
      && 0 <= k < n && k !in excluded
      && SqDist(pos, points[k]) < r2
      && (forall i :: 0 <= i < n && i !in excluded ==> SqDist(pos, points[k]) <= SqDist(pos, points[i]))
      && (forall i :: 0 <= i < k && i !in excluded ==> SqDist(pos, points[k]) < SqDist(pos, points[i]))
  }

  ghost predicate IsPick(points: seq<Point>, pos: Point, r2: real, excluded: set<int>, k: int)
  {
    IsPickAmong(points, |points|, pos, r2, excluded, k)
  }

  /** The specification of the search determines its result. */
  lemma PickIsUnique(points: seq<Point>, pos: Point, r2: real, excluded: set<int>, k1: int, k2: int)
    requires IsPick(points, pos, r2, excluded, k1)
    requires IsPick(points, pos, r2, excluded, k2)
    ensures k1 == k2
  {
  }

  /** A point strictly closer than another eligible point is never passed
      over for it. */
  lemma PickPrefersCloser(points: seq<Point>, pos: Point, r2: real, excluded: set<int>, k: int, j: int)
    requires IsPick(points, pos, r2, excluded, k)
    requires 0 <= j < |points| && j !in excluded
    requires SqDist(pos, points[j]) < r2
    ensures k != -1
    ensures SqDist(pos, points[k]) <= SqDist(pos, points[j])
  {
  }

  /** The nearest-point loop shared by `mousePressEvent` and the touch-press
      case of `event`. The source compares lengths `d` with the radius and
      with the best length so far; here both sides are squared. */
  method PickPoint(points: seq<Point>, pos: Point, radius: real, excluded: set<int>) returns (k: int)
    requires radius >= 0.0
    ensures IsPick(points, pos, radius * radius, excluded, k)
  {
    var r2 := radius * radius;
    k := -1;
    var distance: real := -1.0;
    var i := 0;
    while i < |points|
      invariant 0 <= i <= |points|
      invariant IsPickAmong(points, i, pos, r2, excluded, k)
      invariant distance == if k == -1 then -1.0 else SqDist(pos, points[k])
    {
      if i !in excluded {
        var d := SqDist(pos, points[i]);
        if (distance < 0.0 && d < r2) || d < distance {
          distance := d;
          k := i;
        }
      }
      i := i + 1;
    }
  }

  /** No point index is bound to two touch ids. */
  ghost predicate Injective(m: map<int, int>)
  {
    forall a, b :: a in m && b in m && a != b ==> m[a] != m[b]
  }

  /** An injective binding of ids to indices below n binds at most n ids. */
  lemma {:induction false} InjectiveBounded(m: map<int, int>, n: nat)
    requires Injective(m)
    requires forall id :: id in m ==> 0 <= m[id] < n
    ensures |m| <= n
    decreases n
  {
    if n == 0 {
      assert forall id :: id !in m.Keys;
      assert m.Keys == {};
    } else {
      var top := set id | id in m && m[id] == n - 1;
      var rest := map id | id in m && m[id] != n - 1 :: m[id];
      assert Injective(rest);
      InjectiveBounded(rest, n - 1);
      assert rest.Keys == m.Keys - top;
      if t :| t in m && m[t] == n - 1 {
        forall u | u in top
          ensures u == t
        {
          assert m[u] == m[t];
        }
        assert top == {t};
      } else {
        assert forall u :: u !in top;
        assert top == {};
      }
      assert |top| <= 1;
    }
  }

  /** Binding an id to an index no id is bound to keeps the bindings
      injective, whether or not the id was bound before. */
  lemma BindKeepsInjective(m: map<int, int>, id: int, k: int)
    requires Injective(m)
    requires k !in m.Values
    ensures Injective(m[id := k])
  {
    var m' := m[id := k];
    forall a, b | a in m' && b in m' && a != b
      ensures m'[a] != m'[b]
    {
      if a == id {
        assert m'[b] == m[b] && m[b] in m.Values;
      } else if b == id {
        assert m'[a] == m[a] && m[a] in m.Values;
      }
    }
  }

  datatype TouchPointState = TouchPointPressed | TouchPointMoved | TouchPointStationary | TouchPointReleased

  /** A `QTouchEvent::TouchPoint`: its id, its state and its position. */
  datatype TouchPoint = TouchPoint(id: int, state: TouchPointState, pos: Point)

  /** The event types `event` handles itself. */
  datatype TouchEventType = TouchBegin | TouchUpdate | TouchEnd

  class PathStrokeRenderer {
    const pointSize: int
    var activePoint: int
    var points: seq<Point>
    var vectors: seq<Point>
    var mousePress: IntPoint
    var mouseDrag: bool
    var fingerPointMapping: map<int, int>

    /** The class invariant: as many velocities as points (the `Q_ASSERT`
        of `updatePoints`), no points or the full layout, every binding in
        range, and no point held by two fingers. */
    ghost predicate Valid()
      reads this
    {
      && pointSize >= 0
      && |points| == |vectors|
      && (|points| == 0 || |points| == PointCount)
      && (forall id :: id in fingerPointMapping ==> 0 <= fingerPointMapping[id] < |points|)
      && Injective(fingerPointMapping)
    }

    /** Hence there are never more bound fingers than points. */
    lemma BindingsFitPoints()
      requires Valid()
      ensures |fingerPointMapping| <= |points| <= PointCount
    {
      InjectiveBounded(fingerPointMapping, |points|);
    }

    /** `m_mouseDrag` has no initializer in the source, so its first value
        is a parameter here. */
    constructor (initialMouseDrag: bool)
      ensures Valid()
      ensures pointSize == 10 && activePoint == -1
      ensures points == [] && vectors == []
      ensures mousePress == IntPoint(0, 0) && mouseDrag == initialMouseDrag
      ensures fingerPointMapping == map[]
    {
      pointSize := 10;
      activePoint := -1;
      points, vectors := [], [];
      mousePress := IntPoint(0, 0);
      mouseDrag := initialMouseDrag;
      fingerPointMapping := map[];
    }

    /** `initializePoints`: replaces the points and velocities by a fresh
        layout of `PointCount` each. The rotated and sheared layout itself
        is computed by the caller. */
    method InitializePoints(layout: seq<Point>, velocities: seq<Point>)
      requires Valid()
      requires |layout| == PointCount && |velocities| == PointCount
      modifies this`points, this`vectors
      ensures Valid()
      ensures points == layout && vectors == velocities
    {
      points, vectors := layout, velocities;
    }

    /** The path-building part of `paint`: lay the points out if there are
        none yet, then build the path from them. */
    method Paint(layout: seq<Point>, velocities: seq<Point>) returns (path: seq<Segment>)
      requires Valid()
      requires |layout| == PointCount && |velocities| == PointCount
      modifies this`points, this`vectors
      ensures Valid()
      ensures old(points) == [] ==> points == layout && vectors == velocities
      ensures old(points) != [] ==> points == old(points) && vectors == old(vectors)
      ensures |points| >= 1
      ensures path == PathOf(points)
      ensures Flatten(path) == points
    {
      if |points| == 0 {
        InitializePoints(layout, velocities);
      }
      path := BuildPath(points);
    }

    /** `updatePoints`: one animation tick over every point. */
    method UpdatePoints(width: int, height: int)
      requires Valid()
      modifies this`points, this`vectors
      ensures Valid()
      ensures |points| == |old(points)|
      ensures forall i :: 0 <= i < |points| ==>
        Particle(points[i], vectors[i]) == Step(old(points)[i], old(vectors)[i], PaddedBounds(width, height))
      ensures var b := PaddedBounds(width, height);
        b.left <= b.right && b.top <= b.bottom ==> forall i :: 0 <= i < |points| ==> Inside(points[i], b)
    {
      var b := PaddedBounds(width, height);
      var i := 0;
      while i < |points|
        invariant 0 <= i <= |points|
        invariant |points| == |old(points)| && |vectors| == |old(vectors)|
        invariant forall j :: 0 <= j < i ==>
          Particle(points[j], vectors[j]) == Step(old(points)[j], old(vectors)[j], b)
        invariant forall j :: i <= j < |points| ==>
          points[j] == old(points)[j] && vectors[j] == old(vectors)[j]
      {
        var s := Step(points[i], vectors[i], b);
        points := points[i := s.pos];
        vectors := vectors[i := s.vel];
        i := i + 1;
      }
    }

    /** `mouseMoveEvent`. */
    method MouseMove(pos: IntPoint)
      requires Valid()
      modifies this`mouseDrag, this`points
      ensures Valid()
      ensures old(fingerPointMapping) != map[] ==> mouseDrag == old(mouseDrag) && points == old(points)
      ensures old(fingerPointMapping) == map[] ==>
        && mouseDrag == (old(mouseDrag) || ManhattanDistance(mousePress, pos) > DragThreshold)
        && points == if mouseDrag && 0 <= activePoint < |old(points)|
                     then old(points)[activePoint := ToPointF(pos)] else old(points)
    {
      if fingerPointMapping != map[] {
        return;
      }
      if !mouseDrag && ManhattanDistance(mousePress, pos) > DragThreshold {
        mouseDrag := true;
      }
      if mouseDrag && 0 <= activePoint < |points| {
        points := points[activePoint := ToPointF(pos)];
      }
    }

    /** `mousePressEvent`. */
    method MousePress(pos: IntPoint)
      requires Valid()
      modifies this`activePoint, this`mouseDrag, this`mousePress, this`points
      ensures Valid()
      ensures old(fingerPointMapping) != map[] ==>
        && activePoint == old(activePoint) && mouseDrag == old(mouseDrag)
        && mousePress == old(mousePress) && points == old(points)
      ensures old(fingerPointMapping) == map[] ==>
        && IsPick(old(points), ToPointF(pos), ((MouseCaptureFactor * pointSize) as real) * ((MouseCaptureFactor * pointSize) as real), {}, activePoint)
        && mouseDrag && mousePress == pos
        && points == if activePoint != -1 && (old(mouseDrag) || ManhattanDistance(old(mousePress), pos) > DragThreshold)
                     then old(points)[activePoint := ToPointF(pos)] else old(points)
    {
      if fingerPointMapping != map[] {
        return;
      }
      activePoint := PickPoint(points, ToPointF(pos), (MouseCaptureFactor * pointSize) as real, {});
      if activePoint != -1 {
        MouseMove(pos);
      }
      mouseDrag := true;
      mousePress := pos;
    }

    /** `mouseReleaseEvent`; `clicked` tells whether the signal is emitted. */
    method MouseRelease() returns (clicked: bool)
      requires Valid()
      modifies this`activePoint
      ensures Valid()
      ensures old(fingerPointMapping) != map[] ==> activePoint == old(activePoint) && !clicked
      ensures old(fingerPointMapping) == map[] ==> activePoint == -1 && clicked == !mouseDrag
    {
      clicked := false;
      if fingerPointMapping != map[] {
        return;
      }
      activePoint := -1;
      if !mouseDrag {
        clicked := true;
      }
    }

    /** A press always leaves `mouseDrag` set, so the release that follows
        it never emits `clicked`. */
    method PressThenRelease(pos: IntPoint) returns (clicked: bool)
      requires Valid()
      modifies this`activePoint, this`mouseDrag, this`mousePress, this`points
      ensures Valid()
      ensures !clicked
    {
      MousePress(pos);
      clicked := MouseRelease();
    }

    /** The `TouchPointPressed` case of `event`: bind the id to the nearest
        point not bound yet and move that point under the finger. `picked`
        is the index chosen, -1 when none is close enough. */
    method TouchPressed(id: int, pos: Point) returns (ghost picked: int)
      requires Valid()
      modifies this`fingerPointMapping, this`points
      ensures Valid()
      ensures IsPick(old(points), pos, ((TouchCaptureFactor * pointSize) as real) * ((TouchCaptureFactor * pointSize) as real), old(fingerPointMapping).Values, picked)
      ensures picked == -1 ==> fingerPointMapping == old(fingerPointMapping) && points == old(points)
      ensures picked != -1 ==>
        && fingerPointMapping == old(fingerPointMapping)[id := picked]
        && points == old(points)[picked := pos]
    {
      var activePoints := fingerPointMapping.Values;
      var activePoint := PickPoint(points, pos, (TouchCaptureFactor * pointSize) as real, activePoints);
      if activePoint != -1 {
        BindKeepsInjective(fingerPointMapping, id, activePoint);
        fingerPointMapping := fingerPointMapping[id := activePoint];
        points := points[activePoint := pos];
      }
      picked := activePoint;
    }

    /** The `TouchPointMoved` case of `event`: a bound id moves its point,
        an unbound one changes nothing. */
    method TouchMoved(id: int, pos: Point)
      requires Valid()
      modifies this`points
      ensures Valid()
      ensures id in fingerPointMapping ==> points == old(points)[fingerPointMapping[id] := pos]
      ensures id !in fingerPointMapping ==> points == old(points)
    {
      var pointIdx := if id in fingerPointMapping then fingerPointMapping[id] else -1;
      if pointIdx >= 0 {
        points := points[pointIdx := pos];
      }
    }

    /** The `TouchPointReleased` case of `event` as written: the id's
        binding is looked up without a check, so the id must be bound. */
    method TouchReleased(id: int, pos: Point)
      requires Valid()
      requires id in fingerPointMapping
      modifies this`points, this`fingerPointMapping
      ensures Valid()
      ensures points == old(points)[old(fingerPointMapping)[id] := pos]
      ensures fingerPointMapping == old(fingerPointMapping) - {id}
    {
      var pointIdx := fingerPointMapping[id];
      points := points[pointIdx := pos];
      fingerPointMapping := fingerPointMapping - {id};
    }

    /** The release case with the missing check added: an id that was never
        bound (its press found no free point close enough) is ignored. */
    method TouchReleasedChecked(id: int, pos: Point)
      requires Valid()
      modifies this`points, this`fingerPointMapping
      ensures Valid()
      ensures id in old(fingerPointMapping) ==> points == old(points)[old(fingerPointMapping)[id] := pos]
      ensures id !in old(fingerPointMapping) ==> points == old(points)
      ensures fingerPointMapping == old(fingerPointMapping) - {id}
    {
      if id in fingerPointMapping {
        TouchReleased(id, pos);
      }
    }

    /** The touch cases of `event`: `TouchBegin` and `TouchUpdate` handle
        each touch point by its state; `TouchEnd` drops every binding. */
    method TouchEvent(kind: TouchEventType, touchPoints: seq<TouchPoint>)
      requires Valid()
      modifies this`points, this`fingerPointMapping
      ensures Valid()
      ensures |points| == |old(points)|
      ensures kind == TouchEnd ==> fingerPointMapping == map[] && points == old(points)
    {
      match kind
      case TouchEnd =>
        if fingerPointMapping != map[] {
          fingerPointMapping := map[];
        }
      case _ =>
        var n := 0;
        while n < |touchPoints|
          invariant 0 <= n <= |touchPoints|
          invariant Valid()
          invariant |points| == |old(points)|
        {
          var touchPoint := touchPoints[n];
          match touchPoint.state {
            case TouchPointPressed =>
              ghost var _ := TouchPressed(touchPoint.id, touchPoint.pos);
            case TouchPointReleased =>
              TouchReleasedChecked(touchPoint.id, touchPoint.pos);
            case TouchPointMoved =>
              TouchMoved(touchPoint.id, touchPoint.pos);
            case TouchPointStationary =>
          }
          n := n + 1;
        }
    }
  }

  /** A point 600 or more to the right of and below another is outside any
      touch capture radius of 120. */
  lemma FarFromLowerQuadrant(far: Point, p: Point)
    requires far.x - p.x >= 600.0 && far.y - p.y >= 600.0
    ensures SqDist(far, p) >= 14400.0
  {
    var dx, dy := far.x - p.x, far.y - p.y;
    assert dx * dx >= 600.0 * dx;
    assert dy * dy >= 600.0 * dy;
    assert 600.0 * dx >= 360000.0 && 600.0 * dy >= 360000.0;
    assert SqDist(far, p) == dx * dx + dy * dy;
  }

  /** A reachable state in which the next release names an unbound id: one
      finger holds a point, a second finger lands far from every point and is
      bound to nothing, so releasing it reaches the unchecked lookup. */
  method UnboundReleaseScenario() returns (r: PathStrokeRenderer)
    ensures r.Valid()
    ensures r.fingerPointMapping != map[] && 2 !in r.fingerPointMapping
  {
    r := new PathStrokeRenderer(false);
    // seven distinct points near a circle of radius 100 around (250, 250)
    var layout := [Point(250.0, 350.0), Point(172.0, 312.0), Point(152.0, 228.0),
      Point(207.0, 160.0), Point(293.0, 160.0), Point(348.0, 228.0), Point(328.0, 312.0)];
    var still := [Point(0.0, 0.0), Point(0.0, 0.0), Point(0.0, 0.0), Point(0.0, 0.0),
      Point(0.0, 0.0), Point(0.0, 0.0), Point(0.0, 0.0)];
    r.InitializePoints(layout, still);
    ghost var first := r.TouchPressed(1, layout[0]);
    assert SqDist(layout[0], r.points[0]) == 0.0;
    assert first != -1;
    assert r.fingerPointMapping == map[1 := first];
    var far := Point(1000.0, 1000.0);
    ghost var before := r.points;
    assert forall i :: 0 <= i < |before| ==> before[i].x <= 400.0 && before[i].y <= 400.0;
    forall i | 0 <= i < |before|
      ensures SqDist(far, before[i]) >= 14400.0
    {
      FarFromLowerQuadrant(far, before[i]);
    }
    assert r.pointSize == 10;
    ghost var r2 := ((TouchCaptureFactor * r.pointSize) as real) * ((TouchCaptureFactor * r.pointSize) as real);
    assert r2 == 14400.0;
    ghost var second := r.TouchPressed(2, far);
    assert IsPick(before, far, r2, map[1 := first].Values, second);
    assert second == -1;
    assert r.fingerPointMapping == map[1 := first];
    assert 1 in r.fingerPointMapping;
  }
}
