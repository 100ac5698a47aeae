# Path stroking demo: control points, path building and factorials

This project models the core of the path-stroking demo. In the demo a user
drags (or touches) a handful of control points, and a cubic Bezier path
through them is stroked with Qt's pen or path stroker. The model covers
three parts of `src/pathstroke.cpp`:

- `Curves` (`curves.dfy`): the class `Curves::BezierCurve`. It holds the
  33-entry factorial lookup table, the guarded `factorial` accessor, which
  throws outside [0, 32], and the binomial coefficient `Ni(n, i)`. The
  values are exact natural numbers. The model proves that the table holds
  k!, that `Ni` is Pascal's binomial coefficient (including its symmetry
  and its ends), and which exception is raised for every argument outside
  the domain.
- `PathBuilder` (`pathbuilder.dfy`): the two loops at the start of `paint`.
  They turn the point list into one `moveTo`, then one `cubicTo` per full
  stride of three points, then a `lineTo` for each leftover point. The
  model proves the exact segment counts, where every segment sits, and that
  the segments' points read back in order are the point list
  (`Flatten(PathOf(points)) == points`).
- `Renderer` (`renderer.dfy`): the state of `PathStrokeRenderer` (points,
  velocities, active point, mouse press and drag flag, finger-to-point
  bindings) as a class, with methods for:
  - the animation tick `updatePoints`: reflect and clamp each coordinate;
  - the mouse press, move and release handlers: nearest point within
    8 × point size, lowest index on ties;
  - the touch cases of `event`: nearest unbound point within 12 × point
    size, then move, release and end.

  The class invariant `Valid()` keeps the points and velocities the same
  length, keeps every bound index within the point list, and keeps the
  bindings injective: no point is bound to two touch ids.
- `Geometry` (`geometry.dfy`): points with real coordinates (`QPointF`),
  points with integer coordinates (`QPoint`), squared distance and
  Manhattan length.

Distances are compared squared. The source compares `QLineF::length()`
with the capture radius and with the best distance so far. Both sides are
non-negative and the square root is monotone, so comparing the squares
picks the same point.

## Behaviour as coded

The model follows the code:

- A release signals `clicked` only if `m_mouseDrag` is false. A mouse
  press with no touch binding present sets `m_mouseDrag` to true
  (`MousePress`). A move only ever sets it to true (`MouseMove`: the new
  flag is the old flag or a move of more than 25). Apart from the
  constructor, no other method's `modifies` clause names it, except
  `PressThenRelease`, which only calls `MousePress` and `MouseRelease`.
  So after the first press, `clicked` is never emitted, however short the
  mouse motion. `PathStrokeRenderer.PressThenRelease` proves the direct
  case: a release right after a press.
- A press outside every capture radius still sets the drag flag and the
  press position. Only the active point becomes -1.
- The path builder is never given an empty list. `paint` lays the points
  out first when there are none (src/pathstroke.cpp:164-165). So
  `BuildPath` requires at least one point, and there is no empty-path
  error.
- `mousePressEvent` calls `mouseMoveEvent` when a point was picked. So
  whether the picked point jumps to the pointer depends on the drag flag
  from before the press, or on a move of more than 25 from the previous
  press position.

## Model

| member | source | states |
|---|---|---|
| Curves.Fact | src/pathstroke.cpp:28-62 | the factorial the table is meant to hold; it is at least 1, so `Ni` never divides by zero |
| Curves.FactorialTableHoldsFactorials | src/pathstroke.cpp:26-64 | a 33-entry table with t[0] = 1 and t[k] = k · t[k-1] holds exactly k! at every index |
| Curves.BezierCurve.CreateFactorialTable | src/pathstroke.cpp:26-64 | the table assigned to `FactorialLookup` has 33 entries, satisfies the recurrence, and entry k equals k! |
| Curves.BezierCurve.constructor | src/pathstroke.cpp:12-15 | a new curve object carries the complete factorial table |
| Curves.BezierCurve.Factorial | src/pathstroke.cpp:18-24 | n < 0 gives the "less than 0" error, n > 32 gives the "greater than 32" error, and otherwise the result is n! |
| Curves.BinomialTimesFactorials | src/pathstroke.cpp:66-74 | for k ≤ n, Pascal's coefficient times k!(n-k)! is n! |
| Curves.FactorialQuotientIsBinomial | src/pathstroke.cpp:72 | the quotient n! / (k!(n-k)!) that `Ni` computes is exactly the binomial coefficient |
| Curves.BezierCurve.Ni | src/pathstroke.cpp:66-74 | succeeds iff 0 ≤ i ≤ n ≤ 32, and then returns the binomial coefficient; otherwise returns the error of the first of factorial(n), factorial(i), factorial(n-i) that throws |
| Curves.BinomialSymmetric | src/pathstroke.cpp:66-74 | C(n, k) = C(n, n-k) |
| Curves.BinomialDiagonal | src/pathstroke.cpp:66-74 | C(n, n) = 1 |
| Curves.BezierCurve.NiSymmetric | src/pathstroke.cpp:66-74 | Ni(n, i) = Ni(n, n-i) on the whole domain |
| Curves.BezierCurve.NiAtEnds | src/pathstroke.cpp:66-74 | Ni(n, 0) = Ni(n, n) = 1 for 0 ≤ n ≤ 32 |
| Geometry.SqDist | src/pathstroke.cpp:285 | the squared length of `QLineF(a, b)`: never negative, and zero from a point to itself |
| Geometry.ManhattanDistance | src/pathstroke.cpp:306 | `manhattanLength` of the difference: zero exactly when the points coincide |
| Geometry.ToPointF | src/pathstroke.cpp:310 | converting a mouse position to a control point keeps its integer coordinates exactly, with no fractional part |
| PathBuilder.PathRoundTrip | src/pathstroke.cpp:173-184 | the points of the path's segments, read in order, are exactly the control points |
| PathBuilder.PathShape | src/pathstroke.cpp:173-184 | k points give one move to point 0, then (k-1)/3 cubics through points 3j-2, 3j-1, 3j, then (k-1)%3 lines to the remaining points |
| PathBuilder.SmallPaths | src/pathstroke.cpp:173-184 | 1 point gives only a move; 4 give a move and a cubic; 5 give a move, a cubic and a line |
| PathBuilder.BuildPath | src/pathstroke.cpp:173-184 | the two loops build `PathOf(points)`: it starts with the move, has 1 + (k-1)/3 + (k-1)%3 segments, and flattens back to the points |
| Renderer.PaddedBounds | src/pathstroke.cpp:254-258 | the bounds start 10 from the left and top edges, are 20 narrower and 20 shorter than the widget, and are non-empty horizontally iff the widget is at least 20 wide |
| Renderer.StepAxis | src/pathstroke.cpp:264-271 | inside [lo, hi] a coordinate just moves; below lo it lands on lo, above hi on hi, with the velocity negated; when lo ≤ hi the result is always within [lo, hi] |
| Renderer.Step | src/pathstroke.cpp:262-273 | a moved point that stays in the rectangle keeps its velocity; every velocity component is kept or negated; when the rectangle is non-empty the new point lies inside it |
| Renderer.StepAxesIndependent | src/pathstroke.cpp:265-271 | the new x data depend only on the old x data, and the same for y |
| Renderer.PathStrokeRenderer.UpdatePoints | src/pathstroke.cpp:252-276 | each point and velocity becomes `Step` of its old value in the padded bounds; the count is unchanged; with non-empty bounds every point ends inside |
| Renderer.PickPoint | src/pathstroke.cpp:282-290 | the search loop returns -1 when no eligible point is within the radius; otherwise it returns the lowest-index eligible point at minimum distance |
| Renderer.PickIsUnique | src/pathstroke.cpp:346-355 | the search specification admits exactly one result |
| Renderer.PickPrefersCloser | src/pathstroke.cpp:286 | if some eligible point is within the radius, a point is picked, and no eligible point is strictly closer to the press than it |
| Renderer.InjectiveBounded | src/pathstroke.cpp:342-357 | an injective binding of ids to indices below n has at most n ids |
| Renderer.PathStrokeRenderer.Valid | src/pathstroke.cpp:260 | the class invariant every method keeps: as many velocities as points (the `Q_ASSERT`), 0 or 7 points, every bound index within the points, and no point bound to two ids |
| Renderer.PathStrokeRenderer.BindingsFitPoints | src/pathstroke.cpp:342-357 | under the invariant, there are never more bound ids than points, so never more than 7 |
| Renderer.PathStrokeRenderer.constructor | src/pathstroke.cpp:149-160 | point size 10, no active point, no points, no bindings; the drag flag is whatever the caller supplies (it has no initializer) |
| Renderer.PathStrokeRenderer.InitializePoints | src/pathstroke.cpp:232-250 | the points and velocities are replaced by a layout of 7 each |
| Renderer.PathStrokeRenderer.Paint | src/pathstroke.cpp:162-184 | lays points out only when there are none, then builds the path from at least one point |
| Renderer.PathStrokeRenderer.MouseMove | src/pathstroke.cpp:301-313 | with a binding present nothing changes; otherwise the drag flag is set by a move of more than 25 from the press, and only the active point is moved, when dragging and the index is in range |
| Renderer.PathStrokeRenderer.MousePress | src/pathstroke.cpp:278-299 | with a binding present nothing changes; otherwise the active point is the pick within 8 × point size, the drag flag is set, the press is recorded, and the picked point follows the pointer as `mouseMoveEvent` decides |
| Renderer.PathStrokeRenderer.MouseRelease | src/pathstroke.cpp:315-323 | with a binding present nothing changes and nothing is emitted; otherwise the active point is cleared and `clicked` is emitted iff the drag flag is false |
| Renderer.PathStrokeRenderer.PressThenRelease | src/pathstroke.cpp:278-323 | a release right after a press never emits `clicked` |
| Renderer.BindKeepsInjective | src/pathstroke.cpp:342-357 | binding an id to an index no id holds keeps the bindings injective, even when the id was bound before (`QHash::insert` replaces) |
| Renderer.PathStrokeRenderer.TouchPressed | src/pathstroke.cpp:339-361 | picks the nearest point not bound to any id, within 12 × point size; binds the id to it and moves it to the touch; with no candidate nothing changes |
| Renderer.PathStrokeRenderer.TouchMoved | src/pathstroke.cpp:370-377 | a bound id moves only its own point; an unbound id changes nothing |
| Renderer.PathStrokeRenderer.TouchReleased | src/pathstroke.cpp:362-369 | for a bound id: moves its point to the touch and removes exactly that binding |
| Renderer.PathStrokeRenderer.TouchReleasedChecked | src/pathstroke.cpp:362-369 | the release with the missing check: a bound id behaves as above, and an unbound id changes nothing |
| Renderer.PathStrokeRenderer.TouchEvent | src/pathstroke.cpp:325-403 | handles each touch point by its state, keeping the invariant (bindings injective and in range) and the point count; `TouchEnd` clears all bindings and leaves the points alone |
| Renderer.UnboundReleaseScenario | src/pathstroke.cpp:339-369 | a reachable state with a binding present in which id 2 is unbound, so a release of id 2 reaches the unchecked lookup |

## Findings

| source | as written | input that shows it | evidently intended | confidence | as-written member | corrected member |
|---|---|---|---|---|---|---|
| src/pathstroke.cpp:365-367 | the release case dereferences and erases the iterator from `m_fingerPointMapping.find(id)` without comparing it to `end()` | finger 1 presses on a point and is bound; finger 2 presses more than 12 × point size from every point and stays unbound; finger 2 is released in a `TouchUpdate`, so `find(2)` is `end()` and is dereferenced (undefined behaviour) | a release of an id with no binding is ignored | medium, not executed | Renderer.PathStrokeRenderer.TouchReleased, Renderer.UnboundReleaseScenario | Renderer.PathStrokeRenderer.TouchReleasedChecked |

## Left out

- `Bernstein` and `Bezier2D` (src/pathstroke.cpp:77-131): floating-point `std::pow` evaluation and the 5e-6 clamp of the parameter. `Bezier2D` also takes its output vector by value, so it has no observable result.
- Stroking, dash patterns, caps, joins and drawing (src/pathstroke.cpp:187-229): these are calls into `QPainterPathStroker`, `QPen` and `QPainter`. Their code is not part of this model. The pen width, cap, join and pen style fields go with them.
- The layout geometry of `initializePoints` (src/pathstroke.cpp:238-249): `QMatrix` rotation, shear and scale, and the widget size. `InitializePoints` takes the 7 points and 7 velocities it would compute as parameters.
- Widget sizes: `width()` and `height()` are parameters of `UpdatePoints`.
- `update()`, `e->ignore()`, the boolean results of `event`, and the fall-through to `QWidget::event`: these are event plumbing. `clicked` is modelled as a boolean result.
- `ArthurFrame` (src/arthurwidgets.cpp), `src/main.cpp` and the `PathStrokeWidget` constructor: painting, styling and layout. `timerEvent` is empty in the source. `m_pointCount` is never used.
- Floating point: the factorials and `Ni` are exact natural numbers, where the source computes with `double`. From 23! onward the `double` table entries are rounded, and so is the quotient in `Ni`. Point coordinates are exact reals. Comparing squared distances picks the same point as comparing rounded `sqrt` lengths, except when rounding makes two different distances equal.
- Integer overflow of the `int` arithmetic in the Manhattan length and in 8 × / 12 × point size: it cannot occur with the point size of 10 and on-screen positions, and the model uses unbounded integers.
- Renderer.PathStrokeRenderer.TouchEvent: for `TouchBegin` and `TouchUpdate` its contract states only the invariant and the unchanged point count. The effect of each touch point is stated by `TouchPressed`, `TouchMoved` and `TouchReleasedChecked`, which it calls in list order. It uses the checked release (see Findings), because the release as written has undefined behaviour for an unbound id.
