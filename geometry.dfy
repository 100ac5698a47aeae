/**
 Plane points of the demo: `QPointF` (real coordinates, used for the control
 points, velocities and touch positions) and `QPoint` (integer coordinates,
 the position of a mouse event).
 */
module Geometry {

  datatype Point = Point(x: real, y: real)

  datatype IntPoint = IntPoint(x: int, y: int)

  /** `QPointF(QPoint)`: the implicit conversion used when a mouse position
      is stored into a control point. */
  function ToPointF(p: IntPoint): (r: Point)
    ensures r.x.Floor == p.x && r.y.Floor == p.y
    ensures r.x == r.x.Floor as real && r.y == r.y.Floor as real
  {
    Point(p.x as real, p.y as real)
  }

  /** The square of `QLineF(a, b).length()`. Comparing squares of
      non-negative lengths orders them as the lengths themselves. */
  function SqDist(a: Point, b: Point): (r: real)
    ensures r >= 0.0
    ensures a == b ==> r == 0.0
  {
    var dx, dy := a.x - b.x, a.y - b.y;
    dx * dx + dy * dy
  }

  function Abs(v: int): (r: nat)
    ensures r == v || r == -v
  {
    if v < 0 then -v else v
  }

  /** `QPoint(a - b).manhattanLength()`. */
  function ManhattanDistance(a: IntPoint, b: IntPoint): (r: nat)
    ensures r == 0 <==> a == b
  {
    Abs(a.x - b.x) + Abs(a.y - b.y)
  }
}
