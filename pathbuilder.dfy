/**
 The path built from the control points at the start of
 `PathStrokeRenderer::paint`: a move to the first point, then one cubic
 segment per full stride of three points, then a straight line to each of
 the (at most two) points left over.
 */
module PathBuilder {
  import opened Geometry

  /** The `QPainterPath` elements appended by the builder. */
  datatype Segment =
    | MoveTo(p: Point)
    | CubicTo(c1: Point, c2: Point, end: Point)
    | LineTo(p: Point)

  /** Reference definition of the path of `points`. */
  function PathOf(points: seq<Point>): seq<Segment>
    requires |points| >= 1
  {
    [MoveTo(points[0])] + Strides(points[1..])
  }

  /** The segments following the move, for the points after the first. */
  function Strides(rest: seq<Point>): seq<Segment>
    decreases |rest|
  {
    if |rest| >= 3 then [CubicTo(rest[0], rest[1], rest[2])] + Strides(rest[3..])
    else Lines(rest)
  }

  function Lines(rest: seq<Point>): seq<Segment>
    decreases |rest|
  {
    if rest == [] then [] else [LineTo(rest[0])] + Lines(rest[1..])
  }

  /** The points a segment passes to `QPainterPath`, in order. */
  function SegmentPoints(s: Segment): seq<Point>
  {
    match s
    case MoveTo(p) => [p]
    case CubicTo(c1, c2, e) => [c1, c2, e]
    case LineTo(p) => [p]
  }

  /** All points of a path, segment after segment. */
  function Flatten(path: seq<Segment>): seq<Point>
    decreases |path|
  {
    if path == [] then [] else SegmentPoints(path[0]) + Flatten(path[1..])
  }

  lemma {:induction false} FlattenAppend(a: seq<Segment>, b: seq<Segment>)
    ensures Flatten(a + b) == Flatten(a) + Flatten(b)
    decreases |a|
  {
    if a != [] {
      assert (a + b)[1..] == a[1..] + b;
      FlattenAppend(a[1..], b);
    } else {
      assert a + b == b;
    }
  }

  lemma {:induction false} LinesRoundTrip(rest: seq<Point>)
    ensures Flatten(Lines(rest)) == rest
    decreases |rest|
  {
    if rest != [] {
      FlattenAppend([LineTo(rest[0])], Lines(rest[1..]));
      LinesRoundTrip(rest[1..]);
      assert Flatten([LineTo(rest[0])]) == [rest[0]];
    }
  }

  lemma {:induction false} StridesRoundTrip(rest: seq<Point>)
    ensures Flatten(Strides(rest)) == rest
    decreases |rest|
  {
    if |rest| >= 3 {
      var c := CubicTo(rest[0], rest[1], rest[2]);
      FlattenAppend([c], Strides(rest[3..]));
      StridesRoundTrip(rest[3..]);
      assert Flatten([c]) == rest[..3];
      assert rest[..3] + rest[3..] == rest;
    } else {
      LinesRoundTrip(rest);
    }
  }

  /** Reading the points back out of the path gives exactly the control
      points: none dropped, duplicated or reordered. */
  lemma PathRoundTrip(points: seq<Point>)
    requires |points| >= 1
    ensures Flatten(PathOf(points)) == points
  {
    FlattenAppend([MoveTo(points[0])], Strides(points[1..]));
    StridesRoundTrip(points[1..]);
    assert Flatten([MoveTo(points[0])]) == [points[0]];
    assert [points[0]] + points[1..] == points;
  }

  lemma {:induction false} LinesShape(rest: seq<Point>)
    ensures |Lines(rest)| == |rest|
    ensures forall j :: 0 <= j < |rest| ==> Lines(rest)[j] == LineTo(rest[j])
    decreases |rest|
  {
    if rest != [] {
      LinesShape(rest[1..]);
    }
  }

  /** Segment j of `Strides(rest)` is the cubic through rest[3j..3j+2] for
      the |rest|/3 full strides, and then a line to each remaining point. */
  lemma {:induction false} StridesShape(rest: seq<Point>)
    ensures |Strides(rest)| == |rest| / 3 + |rest| % 3
    ensures forall j :: 0 <= j < |rest| / 3 ==>
      Strides(rest)[j] == CubicTo(rest[3 * j], rest[3 * j + 1], rest[3 * j + 2])
    ensures forall j :: |rest| / 3 <= j < |rest| / 3 + |rest| % 3 ==>
      Strides(rest)[j] == LineTo(rest[2 * (|rest| / 3) + j])
    decreases |rest|
  {
    var s := Strides(rest);
    if |rest| >= 3 {
      var tail := rest[3..];
      StridesShape(tail);
      var t := Strides(tail);
      assert s == [CubicTo(rest[0], rest[1], rest[2])] + t;
      assert |rest| / 3 == |tail| / 3 + 1 && |rest| % 3 == |tail| % 3;
      forall j | 1 <= j < |rest| / 3
        ensures s[j] == CubicTo(rest[3 * j], rest[3 * j + 1], rest[3 * j + 2])
      {
        assert s[j] == t[j - 1];
        assert tail[3 * (j - 1)] == rest[3 * j];
      }
      forall j | |rest| / 3 <= j < |rest| / 3 + |rest| % 3
        ensures s[j] == LineTo(rest[2 * (|rest| / 3) + j])
      {
        assert s[j] == t[j - 1];
        assert tail[2 * (|tail| / 3) + (j - 1)] == rest[2 * (|rest| / 3) + j];
      }
    } else {
      LinesShape(rest);
    }
  }

  /** Counting and placement for the whole path of k points: the move, then
      (k-1)/3 cubic segments through points 3j-2, 3j-1, 3j, then (k-1)%3
      lines, the j-th of which goes to point 2*((k-1)/3) + j. */
  lemma PathShape(points: seq<Point>)
    requires |points| >= 1
    ensures var path, cubics, lines := PathOf(points), (|points| - 1) / 3, (|points| - 1) % 3;
      && |path| == 1 + cubics + lines
      && path[0] == MoveTo(points[0])
      && (forall j :: 1 <= j <= cubics ==>
            path[j] == CubicTo(points[3 * j - 2], points[3 * j - 1], points[3 * j]))
      && (forall j :: cubics < j <= cubics + lines ==>
            path[j] == LineTo(points[2 * cubics + j]))
  {
    var rest := points[1..];
    StridesShape(rest);
    var path, t := PathOf(points), Strides(rest);
    var cubics := (|points| - 1) / 3;
    assert path == [MoveTo(points[0])] + t;
    forall j | 1 <= j <= cubics
      ensures path[j] == CubicTo(points[3 * j - 2], points[3 * j - 1], points[3 * j])
    {
      assert path[j] == t[j - 1];
      assert rest[3 * (j - 1)] == points[3 * j - 2];
    }
    forall j | cubics < j <= cubics + (|points| - 1) % 3
      ensures path[j] == LineTo(points[2 * cubics + j])
    {
      assert path[j] == t[j - 1];
      assert rest[2 * cubics + (j - 1)] == points[2 * cubics + j];
    }
  }

  /** Paths of 1, 4 and 5 points: a move only, one cubic, one cubic and a line. */
  lemma SmallPaths(points: seq<Point>)
    requires |points| >= 1
    ensures |points| == 1 ==> PathOf(points) == [MoveTo(points[0])]
    ensures |points| == 4 ==>
      PathOf(points) == [MoveTo(points[0]), CubicTo(points[1], points[2], points[3])]
    ensures |points| == 5 ==>
      PathOf(points) == [MoveTo(points[0]), CubicTo(points[1], points[2], points[3]), LineTo(points[4])]
  {
    PathShape(points);
  }

  /** The two loops of `paint` that fill the `QPainterPath`. */
  method BuildPath(points: seq<Point>) returns (path: seq<Segment>)
    requires |points| >= 1
    ensures path == PathOf(points)
    ensures path[0] == MoveTo(points[0])
    ensures |path| == 1 + (|points| - 1) / 3 + (|points| - 1) % 3
    ensures Flatten(path) == points
  {
    path := [MoveTo(points[0])];
    var i := 1;
    while i + 2 < |points|
      invariant 1 <= i <= |points|
      invariant (i - 1) % 3 == 0
      invariant path + Strides(points[i..]) == PathOf(points)
    {
      path := path + [CubicTo(points[i], points[i + 1], points[i + 2])];
      assert points[i..][3..] == points[i + 3..];
      i := i + 3;
    }
    assert Strides(points[i..]) == Lines(points[i..]);
    while i < |points|
      invariant 1 <= i <= |points|
      invariant path + Lines(points[i..]) == PathOf(points)
    {
      path := path + [LineTo(points[i])];
      assert points[i..][1..] == points[i + 1..];
      i := i + 1;
    }
    assert points[i..] == [];
    PathShape(points);
    PathRoundTrip(points);
  }
}
