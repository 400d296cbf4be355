/**
 * Values of the game: the three ball colours, 1-based board points and balls.
 * A ball is compared by colour and position only (Ball.is_equal), which is
 * exactly datatype equality here.
 */
module Geometry {

  datatype Color = R | G | B

  /** x is the column, y the row counted from the bottom (row 1 is the bottom row). */
  datatype Point = Point(x: int, y: int)

  datatype Ball = Ball(point: Point, color: Color)

  function Abs(n: int): nat
  {
    if n < 0 then -n else n
  }

  /** Point.is_equal: both coordinates agree. */
  predicate PointIsEqual(p: Point, q: Point)
    ensures PointIsEqual(p, q) <==> p == q
  {
    p.x == q.x && p.y == q.y
  }

  /** Ball.is_equal: same colour and same position. */
  predicate BallIsEqual(a: Ball, b: Ball)
    ensures BallIsEqual(a, b) <==> a == b
  {
    if a.color != b.color then false else PointIsEqual(a.point, b.point)
  }

  /**
   * Ball.is_priority: `a` is more prioritized than `b` when it lies in a
   * column further left, or in the same column and lower.
   */
  predicate IsPriority(a: Ball, b: Ball)
  {
    if a.point.x > b.point.x then false
    else if a.point.x < b.point.x then true
    else a.point.y < b.point.y
  }

  /** Ball.is_nearby: the two balls share a side of a cell (4-adjacency). */
  predicate IsNearby(a: Ball, b: Ball)
    ensures IsNearby(a, b) <==> Abs(a.point.x - b.point.x) + Abs(a.point.y - b.point.y) == 1
  {
    if a.point.x == b.point.x && Abs(a.point.y - b.point.y) == 1 then true
    else a.point.y == b.point.y && Abs(a.point.x - b.point.x) == 1
  }

  /** Ball.shift_left_horizontally: the same ball `offset` columns further left. */
  function ShiftLeftHorizontally(b: Ball, offset: int): Ball
  {
    Ball(Point(b.point.x - offset, b.point.y), b.color)
  }

  /** Ball.shift_bottom_vertically: the same ball `offset` rows lower. */
  function ShiftBottomVertically(b: Ball, offset: int): Ball
  {
    Ball(Point(b.point.x, b.point.y - offset), b.color)
  }

  /** The priority order is a strict total order on the positions of balls. */
  lemma PriorityIsStrictOrder(a: Ball, b: Ball, c: Ball)
    ensures !IsPriority(a, a)
    ensures IsPriority(a, b) ==> !IsPriority(b, a)
    ensures IsPriority(a, b) && IsPriority(b, c) ==> IsPriority(a, c)
    ensures a.point != b.point ==> IsPriority(a, b) || IsPriority(b, a)
    ensures !IsPriority(a, b) && !IsPriority(b, a) ==> a.point == b.point
  {
  }

  /** Being nearby is symmetric, never holds for a ball and itself, and never holds diagonally. */
  lemma NearbyIsSymmetricAndOrthogonal(a: Ball, b: Ball)
    ensures IsNearby(a, b) <==> IsNearby(b, a)
    ensures IsNearby(a, b) ==> a.point != b.point
    ensures Abs(a.point.x - b.point.x) == 1 && Abs(a.point.y - b.point.y) == 1 ==> !IsNearby(a, b)
  {
  }
}
