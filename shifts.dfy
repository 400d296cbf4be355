/**
 * The skeleton the two compressors share (a walk along one axis with the
 * other coordinate fixed), the border searches that bound a shift range, and
 * pure descriptions of what each pass does to the board.
 */
module Shifts {
  import opened Wrappers
  import opened Geometry
  import opened Grids

  /** Which compressor: the vertical one moves balls down, the horizontal one moves them left. */
  datatype Axis = Vertical | Horizontal

  /** The coordinate the compressor walks along: y vertically, x horizontally. */
  function ParametricCoordinate(axis: Axis, p: Point): int
  {
    if axis == Vertical then p.y else p.x
  }

  /** The coordinate that stays fixed during one walk: x vertically, y horizontally. */
  function FixedCoordinate(axis: Axis, p: Point): int
  {
    if axis == Vertical then p.x else p.y
  }

  /** _build_parametric_point: the point at `parametric` on the line `fixed`. */
  function ParametricPoint(axis: Axis, parametric: int, fixed: int): (p: Point)
    ensures ParametricCoordinate(axis, p) == parametric && FixedCoordinate(axis, p) == fixed
  {
    if axis == Vertical then Point(fixed, parametric) else Point(parametric, fixed)
  }

  /** Splitting a point into its two coordinates and joining them again gives the point back. */
  lemma ParametricPointOfCoordinates(axis: Axis, p: Point)
    ensures ParametricPoint(axis, ParametricCoordinate(axis, p), FixedCoordinate(axis, p)) == p
  {
  }

  /** _get_max_parametric_coordinate: the row count vertically, the column count horizontally. */
  function MaxParametricCoordinate(axis: Axis, countRows: int, countColumns: int): int
  {
    if axis == Vertical then countRows else countColumns
  }

  /** _shift_in_direction_ball: down by `offset` vertically, left by `offset` horizontally. */
  function ShiftInDirection(axis: Axis, b: Ball, offset: int): (r: Ball)
    ensures r.color == b.color
    ensures ParametricCoordinate(axis, r.point) == ParametricCoordinate(axis, b.point) - offset
    ensures FixedCoordinate(axis, r.point) == FixedCoordinate(axis, b.point)
  {
    if axis == Vertical then ShiftBottomVertically(b, offset) else ShiftLeftHorizontally(b, offset)
  }

  /** Board.is_located_ball at the point `parametric` of the line `fixed`. */
  predicate Occupied(g: Grid, axis: Axis, fixed: int, parametric: int)
  {
    var p := ParametricPoint(axis, parametric, fixed);
    Holds(g, p) && At(g, p).Some?
  }

  /** A vertical line of the matrix is one of its columns. */
  lemma OccupiedInColumn(g: Grid, x: int, y: int)
    requires 1 <= y <= |g| && 1 <= x <= |g[y - 1]|
    ensures Occupied(g, Vertical, x, y) <==> Column(g, x)[y - 1].Some?
  {
  }

  // ---------------------------------------------------------------------------
  // Borders of a shift range.

  /**
   * Compressor._calc_left_border_shift_range as written: the walk from
   * `start` stops with nothing once it reaches `max`, so the last cell of
   * the line is never inspected.
   */
  function LeftBorderOf(g: Grid, axis: Axis, fixed: int, start: int, max: int): Option<int>
    decreases max - start
  {
    if start >= max then None
    else if Occupied(g, axis, fixed, start) then Some(start)
    else LeftBorderOf(g, axis, fixed, start + 1, max)
  }

  /** The left border is the first occupied cell in [start, max), and there is none when those cells are all empty. */
  lemma {:induction false} LeftBorderOfFacts(g: Grid, axis: Axis, fixed: int, start: int, max: int)
    ensures var r := LeftBorderOf(g, axis, fixed, start, max);
      && (r.None? <==> forall a :: start <= a < max ==> !Occupied(g, axis, fixed, a))
      && (r.Some? ==> start <= r.value < max && Occupied(g, axis, fixed, r.value)
                      && forall a :: start <= a < r.value ==> !Occupied(g, axis, fixed, a))
    decreases max - start
  {
    if start < max && !Occupied(g, axis, fixed, start) {
      LeftBorderOfFacts(g, axis, fixed, start + 1, max);
    }
  }

  /** The walk of _calc_right_border_shift_range from `p` on. */
  function RightBorderFrom(g: Grid, axis: Axis, fixed: int, p: int, max: int): int
    requires p <= max
    decreases max - p
  {
    if !Occupied(g, axis, fixed, p) then p - 1
    else if p == max then p
    else RightBorderFrom(g, axis, fixed, p + 1, max)
  }

  /** Compressor._calc_right_border_shift_range: nothing when no cell follows `start`. */
  function RightBorderOf(g: Grid, axis: Axis, fixed: int, start: int, max: int): Option<int>
  {
    if start + 1 > max then None else Some(RightBorderFrom(g, axis, fixed, start + 1, max))
  }

  lemma {:induction false} RightBorderFromFacts(g: Grid, axis: Axis, fixed: int, p: int, max: int)
    requires p <= max
    ensures var r := RightBorderFrom(g, axis, fixed, p, max);
      && p - 1 <= r <= max
      && (forall a :: p <= a <= r ==> Occupied(g, axis, fixed, a))
      && (r < max ==> !Occupied(g, axis, fixed, r + 1))
    decreases max - p
  {
    if Occupied(g, axis, fixed, p) && p < max {
      RightBorderFromFacts(g, axis, fixed, p + 1, max);
    }
  }

  /**
   * The right border is the last cell of the occupied run that follows
   * `start`, or `max` when the run reaches the end of the line; there is
   * none only when `start` is already at `max`.
   */
  lemma RightBorderOfFacts(g: Grid, axis: Axis, fixed: int, start: int, max: int)
    ensures var r := RightBorderOf(g, axis, fixed, start, max);
      && (r.None? <==> start >= max)
      && (r.Some? ==> start <= r.value <= max
                      && (forall a :: start < a <= r.value ==> Occupied(g, axis, fixed, a))
                      && (r.value < max ==> !Occupied(g, axis, fixed, r.value + 1)))
  {
    if start + 1 <= max {
      RightBorderFromFacts(g, axis, fixed, start + 1, max);
    }
  }

  /** ShiftRange: the occupied run to move and how far the first of it is from the start point. */
  datatype ShiftRange = ShiftRange(leftBorder: int, rightBorder: int, offset: int)

  /** Compressor._build_shift_range on the matrix `g`. */
  function ShiftRangeOf(g: Grid, axis: Axis, start: Point, max: int): Option<ShiftRange>
  {
    var s := ParametricCoordinate(axis, start);
    var fixed := FixedCoordinate(axis, start);
    match LeftBorderOf(g, axis, fixed, s, max)
    case None => None
    case Some(left) =>
      match RightBorderOf(g, axis, fixed, left, max)
      case None => None
      case Some(right) => Some(ShiftRange(left, right, left - s))
  }

  /**
   * A shift range exists exactly when some cell in [start, max) of the
   * start point's line is occupied; it then runs from the first such cell to
   * the end of the occupied run that cell begins, and its offset is the
   * distance from the start point to its left border.
   */
  lemma ShiftRangeOfFacts(g: Grid, axis: Axis, start: Point, max: int)
    ensures var s := ParametricCoordinate(axis, start);
      var fixed := FixedCoordinate(axis, start);
      var r := ShiftRangeOf(g, axis, start, max);
      && (r.None? <==> forall a :: s <= a < max ==> !Occupied(g, axis, fixed, a))
      && (r.Some? ==>
            && s <= r.value.leftBorder < max
            && Occupied(g, axis, fixed, r.value.leftBorder)
            && (forall a :: s <= a < r.value.leftBorder ==> !Occupied(g, axis, fixed, a))
            && r.value.leftBorder <= r.value.rightBorder <= max
            && (forall a :: r.value.leftBorder < a <= r.value.rightBorder ==> Occupied(g, axis, fixed, a))
            && (r.value.rightBorder < max ==> !Occupied(g, axis, fixed, r.value.rightBorder + 1))
            && r.value.offset == r.value.leftBorder - s)
  {
    var s := ParametricCoordinate(axis, start);
    var fixed := FixedCoordinate(axis, start);
    LeftBorderOfFacts(g, axis, fixed, s, max);
    var left := LeftBorderOf(g, axis, fixed, s, max);
    if left.Some? {
      RightBorderOfFacts(g, axis, fixed, left.value, max);
    }
  }

  /** The bounds of a shift range alone. */
  lemma ShiftRangeBounds(g: Grid, axis: Axis, start: Point, max: int)
    requires ShiftRangeOf(g, axis, start, max).Some?
    ensures var s := ParametricCoordinate(axis, start);
      var r := ShiftRangeOf(g, axis, start, max).value;
      s <= r.leftBorder <= r.rightBorder <= max && r.offset == r.leftBorder - s
  {
    ShiftRangeOfFacts(g, axis, start, max);
  }

  /**
   * The walk that also inspects the top cell: the last cell of the line is
   * inspected too, so a ball standing there is a left border.
   */
  function LeftBorderReachingMax(g: Grid, axis: Axis, fixed: int, start: int, max: int): Option<int>
    decreases max - start
  {
    if start > max then None
    else if Occupied(g, axis, fixed, start) then Some(start)
    else LeftBorderReachingMax(g, axis, fixed, start + 1, max)
  }

  /** The walk that also inspects the top cell finds a left border exactly when some cell in [start, max] holds a ball. */
  lemma {:induction false} LeftBorderReachingMaxFacts(g: Grid, axis: Axis, fixed: int, start: int, max: int)
    ensures var r := LeftBorderReachingMax(g, axis, fixed, start, max);
      && (r.None? <==> forall a :: start <= a <= max ==> !Occupied(g, axis, fixed, a))
      && (r.Some? ==> start <= r.value <= max && Occupied(g, axis, fixed, r.value)
                      && forall a :: start <= a < r.value ==> !Occupied(g, axis, fixed, a))
    decreases max - start
  {
    if start <= max && !Occupied(g, axis, fixed, start) {
      LeftBorderReachingMaxFacts(g, axis, fixed, start + 1, max);
    }
  }

  /**
   * A ball alone in the top row above an emptied cell is missed by the
   * left-border walk as written, though the walk that also inspects the top
   * cell finds it: on a
   * one-column board of two rows, with the bottom cell empty and a green
   * ball on top, no shift range is built and the ball stays in the air.
   */
  lemma TopBallIsNeverLeftBorder()
    ensures var g: Grid := [[None], [Some(Ball(Point(1, 2), G))]];
      && Occupied(g, Vertical, 1, 2)
      && LeftBorderOf(g, Vertical, 1, 1, 2).None?
      && ShiftRangeOf(g, Vertical, Point(1, 1), 2).None?
      && LeftBorderReachingMax(g, Vertical, 1, 1, 2) == Some(2)
      && !Settled(Column(g, 1))
  {
    var g: Grid := [[None], [Some(Ball(Point(1, 2), G))]];
    assert !Occupied(g, Vertical, 1, 1);
    assert Column(g, 1)[0].None? && Column(g, 1)[1].Some?;
  }

  // ---------------------------------------------------------------------------
  // The vertical pass, column by column.

  /** Some cell with index in [lo, hi) of the column holds a ball. */
  predicate HasBallIn(col: seq<Option<Color>>, lo: int, hi: int)
  {
    exists i :: lo <= i < hi && 0 <= i < |col| && col[i].Some?
  }

  /**
   * What the vertical pass leaves in a column whose lowest removed cell is
   * row `s` (0 when no removed ball stood in the column): when some cell in
   * rows [s, rows) holds a ball, everything from row `s` up falls to the
   * bottom of that part, keeping its order; otherwise, and in particular
   * when the only balls above sit in the top row, nothing moves.
   */
  function Settle(col: seq<Option<Color>>, s: int): (r: seq<Option<Color>>)
    ensures |r| == |col|
  {
    if 1 <= s <= |col| && HasBallIn(col, s - 1, |col| - 1) then col[..s - 1] + Gravity(col[s - 1..]) else col
  }

  /** Gravity applied from row `s` up keeps what lies below and every ball in its order, and settles the rest. */
  lemma GravityFrom(col: seq<Option<Color>>, s: int)
    requires 1 <= s <= |col|
    ensures var r := col[..s - 1] + Gravity(col[s - 1..]);
      && |r| == |col| && r[..s - 1] == col[..s - 1] && Settled(r[s - 1..]) && Somes(r) == Somes(col)
  {
    var pre, post := col[..s - 1], col[s - 1..];
    assert col == pre + post;
    GravityKeepsBalls(post);
    GravityIsSettled(post);
    SomesAppend(pre, post);
    SomesAppend(pre, Gravity(post));
    assert (pre + Gravity(post))[s - 1..] == Gravity(post);
    assert (pre + Gravity(post))[..s - 1] == pre;
  }

  /**
   * The vertical pass keeps the cells below row `s` and every ball of the
   * column in its order, and leaves the column settled from row `s` up
   * whenever rows [s, rows) hold a ball; otherwise it changes nothing.
   */
  lemma SettleFacts(col: seq<Option<Color>>, s: int)
    ensures Somes(Settle(col, s)) == Somes(col)
    ensures 1 <= s <= |col| ==> Settle(col, s)[..s - 1] == col[..s - 1]
    ensures 1 <= s <= |col| && HasBallIn(col, s - 1, |col| - 1) ==> Settled(Settle(col, s)[s - 1..])
    ensures !(1 <= s <= |col| && HasBallIn(col, s - 1, |col| - 1)) ==> Settle(col, s) == col
  {
    if 1 <= s <= |col| {
      GravityFrom(col, s);
    }
  }

  /**
   * The vertical pass with the walk that also inspects the top cell: every column
   * holding a removed ball settles from its lowest removed cell up, top row
   * included.
   */
  function SettleReachingMax(col: seq<Option<Color>>, s: int): (r: seq<Option<Color>>)
    ensures |r| == |col|
  {
    if 1 <= s <= |col| && HasBallIn(col, s - 1, |col|) then col[..s - 1] + Gravity(col[s - 1..]) else col
  }

  /** With the walk that also inspects the top cell no ball is left above an empty cell from row `s` up, and no ball is lost. */
  lemma SettleReachingMaxSettles(col: seq<Option<Color>>, s: int)
    requires 1 <= s <= |col|
    ensures Settled(SettleReachingMax(col, s)[s - 1..])
    ensures SettleReachingMax(col, s)[..s - 1] == col[..s - 1]
    ensures Somes(SettleReachingMax(col, s)) == Somes(col)
  {
    if HasBallIn(col, s - 1, |col|) {
      GravityFrom(col, s);
    } else {
      assert Settled(col[s - 1..]);
    }
  }

  /**
   * The column partway through the vertical walk at row `y`, from the
   * lowest removed row t + 1: the balls met so far lie settled from row
   * t + 1, then `acc` empty cells, then the part not walked yet.
   */
  function Falling(col: seq<Option<Color>>, t: int, y: int, acc: nat): seq<Option<Color>>
    requires 0 <= t < y <= |col| + 1
  {
    col[..t] + Somes(col[t..y - 1]) + Nones(acc) + col[y - 1..]
  }

  /** The cells below the left border are empty: the walk starts there with the column as it is. */
  lemma FallingStart(col: seq<Option<Color>>, t: int, left: int)
    requires 0 <= t < left <= |col| && forall i :: t <= i < left - 1 ==> col[i].None?
    ensures Somes(col[t..left - 1]) == []
    ensures Falling(col, t, left, left - 1 - t) == col
  {
    SomesFacts(col[t..left - 1]);
    assert col[t..left - 1] == Nones(left - 1 - t);
    assert col == col[..t] + col[t..left - 1] + col[left - 1..];
  }

  /** A ball met at row y drops onto the settled part; the empty cells now lie above it. */
  lemma FallingDrop(col: seq<Option<Color>>, t: int, y: int, acc: nat)
    requires 0 <= t < y <= |col| && col[y - 1].Some?
    requires acc == (y - 1 - t) - |Somes(col[t..y - 1])|
    ensures Somes(col[t..y]) == Somes(col[t..y - 1]) + [col[y - 1]]
    ensures Falling(col, t, y, acc)[y - 1 := None][y - 1 - acc := col[y - 1]] == Falling(col, t, y + 1, acc)
  {
    assert col[t..y][..y - 1 - t] == col[t..y - 1];
    var settled := Somes(col[t..y - 1]);
    assert col[y - 1..] == [col[y - 1]] + col[y..];
    var before := col[..t] + settled + Nones(acc) + [col[y - 1]] + col[y..];
    assert Falling(col, t, y, acc) == before;
    var after := col[..t] + (settled + [col[y - 1]]) + Nones(acc) + col[y..];
    assert before[y - 1 := None][y - 1 - acc := col[y - 1]] == after;
  }

  /** An empty cell met at row y adds one to the offset. */
  lemma FallingSkip(col: seq<Option<Color>>, t: int, y: int, acc: nat)
    requires 0 <= t < y <= |col| && col[y - 1].None?
    ensures Somes(col[t..y]) == Somes(col[t..y - 1])
    ensures Falling(col, t, y, acc) == Falling(col, t, y + 1, acc + 1)
  {
    assert col[t..y][..y - 1 - t] == col[t..y - 1];
    assert col[y - 1..] == [None] + col[y..];
    assert Nones(acc) + [None] == Nones(acc + 1);
  }

  /** The cell the walk stands on is still the column's own. */
  lemma FallingAhead(col: seq<Option<Color>>, t: int, y: int, acc: nat)
    requires 0 <= t < y <= |col| && acc == (y - 1 - t) - |Somes(col[t..y - 1])|
    ensures |Falling(col, t, y, acc)| == |col| && Falling(col, t, y, acc)[y - 1] == col[y - 1]
  {
    SomesFacts(col[t..y - 1]);
  }

  /** On the board: the ball at (x, y) dropping by `acc` rows is one step of the walk. */
  lemma FallingDropOnBoard(before: Grid, col: seq<Option<Color>>, t: int, x: int, y: int, acc: nat, b: Ball, shifted: Ball)
    requires 0 <= t < y <= |col| && acc == (y - 1 - t) - |Somes(col[t..y - 1])|
    requires Column(before, x) == Falling(col, t, y, acc)
    requires Holds(before, Point(x, y)) && At(before, Point(x, y)) == Some(b)
    requires shifted.point == Point(x, y - acc) && shifted.color == b.color && Holds(before, shifted.point)
    ensures var after := Update(Update(before, Point(x, y), None), shifted.point, Some(shifted));
      && Column(after, x) == Falling(col, t, y + 1, acc)
      && (forall x' :: x' != x ==> Column(after, x') == Column(before, x'))
    ensures acc == (y - t) - |Somes(col[t..y])|
  {
    FallingAhead(col, t, y, acc);
    ColumnAt(before, Point(x, y));
    FallingDrop(col, t, y, acc);
    ColumnsAfterMove(before, Point(x, y), shifted.point, shifted);
  }

  /** On the board: an empty cell at (x, y) is one step of the walk that changes nothing. */
  lemma FallingSkipOnBoard(g: Grid, col: seq<Option<Color>>, t: int, x: int, y: int, acc: nat)
    requires 0 <= t < y <= |col| && acc == (y - 1 - t) - |Somes(col[t..y - 1])|
    requires Column(g, x) == Falling(col, t, y, acc)
    requires Holds(g, Point(x, y)) && At(g, Point(x, y)).None?
    ensures Column(g, x) == Falling(col, t, y + 1, acc + 1)
    ensures acc + 1 == (y - t) - |Somes(col[t..y])|
  {
    FallingAhead(col, t, y, acc);
    ColumnAt(g, Point(x, y));
    FallingSkip(col, t, y, acc);
  }

  /** At the top the walked part is the column settled from row t + 1. */
  lemma FallingEnd(col: seq<Option<Color>>, t: int, acc: nat)
    requires 0 <= t < |col| && HasBallIn(col, t, |col| - 1)
    requires acc == (|col| - t) - |Somes(col[t..|col|])|
    ensures Falling(col, t, |col| + 1, acc) == Settle(col, t + 1)
  {
    assert col[t..|col|] == col[t..];
    assert col[|col|..] == [];
  }

  /**
   * The board `g` partway through the vertical walk of column x of `g0`
   * from row t + 1, standing at row y with offset `acc`; the other columns
   * are those of `g0`.
   */
  ghost predicate Walking(g: Grid, g0: Grid, x: int, t: int, y: int, acc: int)
  {
    && 0 <= t < y <= |g0| + 1 && 0 <= acc
    && acc == (y - 1 - t) - |Somes(Column(g0, x)[t..y - 1])|
    && Column(g, x) == Falling(Column(g0, x), t, y, acc)
    && forall x' :: x' != x ==> Column(g, x') == Column(g0, x')
  }

  /** The walk starts at the left border with the board as it is. */
  lemma WalkingStart(g0: Grid, start: Point, countColumns: int, r: ShiftRange)
    requires Shaped(g0, |g0|, countColumns) && 1 <= start.x <= countColumns && 1 <= start.y <= |g0|
    requires ShiftRangeOf(g0, Vertical, start, |g0|) == Some(r)
    ensures start.y <= r.leftBorder < |g0| && r.offset == r.leftBorder - start.y
    ensures Walking(g0, g0, start.x, start.y - 1, r.leftBorder, r.offset)
    ensures HasBallIn(Column(g0, start.x), start.y - 1, |g0| - 1)
  {
    RangeInColumn(g0, start, countColumns, r);
    FallingStart(Column(g0, start.x), start.y - 1, r.leftBorder);
  }

  lemma WalkingSkip(g: Grid, g0: Grid, x: int, t: int, y: int, acc: int)
    requires Walking(g, g0, x, t, y, acc) && y <= |g0|
    requires Holds(g, Point(x, y)) && At(g, Point(x, y)).None?
    ensures Walking(g, g0, x, t, y + 1, acc + 1)
  {
    FallingSkipOnBoard(g, Column(g0, x), t, x, y, acc);
  }

  lemma WalkingDrop(g: Grid, g0: Grid, x: int, t: int, y: int, acc: int, b: Ball, shifted: Ball)
    requires Walking(g, g0, x, t, y, acc) && y <= |g0|
    requires Holds(g, Point(x, y)) && At(g, Point(x, y)) == Some(b)
    requires shifted.point == Point(x, y - acc) && shifted.color == b.color && Holds(g, shifted.point)
    ensures Walking(Update(Update(g, Point(x, y), None), shifted.point, Some(shifted)), g0, x, t, y + 1, acc)
  {
    FallingDropOnBoard(g, Column(g0, x), t, x, y, acc, b, shifted);
  }

  lemma WalkingEnd(g: Grid, g0: Grid, x: int, t: int, y: int, acc: int)
    requires y == |g0| + 1 && Walking(g, g0, x, t, y, acc) && HasBallIn(Column(g0, x), t, |g0| - 1)
    ensures Column(g, x) == Settle(Column(g0, x), t + 1)
    ensures forall x' :: x' != x ==> Column(g, x') == Column(g0, x')
  {
    FallingEnd(Column(g0, x), t, acc);
  }

  /**
   * VerticallyCompressor._shift_balls on the matrix, from row y of column x
   * up: an empty cell adds one to the offset, a ball drops by the offset.
   * Yields the matrix and the final offset.
   */
  function WalkUp(g: Grid, x: int, y: int, acc: int): (Grid, int)
    decreases |g| + 1 - y
  {
    if y < 1 || y > |g| || !Holds(g, Point(x, y)) then (g, acc)
    else match At(g, Point(x, y))
      case None => WalkUp(g, x, y + 1, acc + 1)
      case Some(b) => WalkUp(Moved(g, b, ShiftInDirection(Vertical, b, acc)), x, y + 1, acc)
  }

  /** One cell of the walk: the matrix and offset after row y. */
  function WalkUpOne(g: Grid, x: int, y: int, acc: int): (Grid, int)
    requires Holds(g, Point(x, y))
  {
    match At(g, Point(x, y))
    case None => (g, acc + 1)
    case Some(b) => (Moved(g, b, ShiftInDirection(Vertical, b, acc)), acc)
  }

  /** The walk is one cell and then the walk from the next row. */
  lemma WalkUpStep(g: Grid, x: int, y: int, acc: int)
    requires 1 <= y <= |g| && Holds(g, Point(x, y))
    ensures var r := WalkUpOne(g, x, y, acc); WalkUp(g, x, y, acc) == WalkUp(r.0, x, y + 1, r.1)
  {
  }

  /** One cell of the walk keeps the matrix's shape, every ball at its own point, and gains no ball. */
  lemma WalkUpOneKeepsShape(g: Grid, x: int, y: int, acc: int, countColumns: int)
    requires Shaped(g, |g|, countColumns) && Placed(g) && 1 <= x <= countColumns && 0 <= acc < y <= |g|
    ensures var r := WalkUpOne(g, x, y, acc);
      && Shaped(r.0, |g|, countColumns) && Placed(r.0) && 0 <= r.1 < y + 1
      && BallCount(r.0) <= BallCount(g)
  {
    var p := Point(x, y);
    assert Holds(g, p);
    match At(g, p)
    case None =>
    case Some(b) =>
      var shifted := ShiftInDirection(Vertical, b, acc);
      assert b.point == p;
      assert Holds(g, shifted.point);
      UpdatePlaced(g, p, None);
      UpdatePlaced(Update(g, p, None), shifted.point, Some(shifted));
      MoveKeepsCount(g, b, shifted);
  }

  /** One cell of the walk moves the partial state of Walking one row up. */
  lemma WalkUpOneWalks(g: Grid, g0: Grid, x: int, t: int, y: int, acc: int, countColumns: int)
    requires Shaped(g, |g|, countColumns) && Placed(g) && 1 <= x <= countColumns && 1 <= y <= |g|
    requires Walking(g, g0, x, t, y, acc) && |g| == |g0|
    ensures var r := WalkUpOne(g, x, y, acc);
      && Shaped(r.0, |g|, countColumns) && Placed(r.0) && Walking(r.0, g0, x, t, y + 1, r.1)
  {
    var p := Point(x, y);
    assert Holds(g, p);
    match At(g, p)
    case None =>
      WalkingSkip(g, g0, x, t, y, acc);
    case Some(b) =>
      var shifted := ShiftInDirection(Vertical, b, acc);
      assert b.point == p;
      SomesFacts(Column(g0, x)[t..y - 1]);
      assert Holds(g, shifted.point);
      WalkingDrop(g, g0, x, t, y, acc, b, shifted);
      UpdatePlaced(g, p, None);
      UpdatePlaced(Update(g, p, None), shifted.point, Some(shifted));
  }

  /** The walk settles column x of `g0` from row t + 1 and leaves the other columns alone. */
  lemma {:induction false} WalkUpSettles(g: Grid, g0: Grid, x: int, t: int, y: int, acc: int, countColumns: int)
    requires Shaped(g, |g|, countColumns) && Placed(g) && 1 <= x <= countColumns && 1 <= y
    requires Walking(g, g0, x, t, y, acc) && HasBallIn(Column(g0, x), t, |g0| - 1)
    ensures Column(WalkUp(g, x, y, acc).0, x) == Settle(Column(g0, x), t + 1)
    ensures forall x' :: x' != x ==> Column(WalkUp(g, x, y, acc).0, x') == Column(g0, x')
    decreases |g| + 1 - y
  {
    assert |g| == |g0| by { assert |Column(g, x)| == |Falling(Column(g0, x), t, y, acc)|; }
    if y > |g| {
      assert WalkUp(g, x, y, acc).0 == g;
      WalkingEnd(g, g0, x, t, y, acc);
    } else {
      assert Holds(g, Point(x, y));
      WalkUpStep(g, x, y, acc);
      var r := WalkUpOne(g, x, y, acc);
      WalkUpOneWalks(g, g0, x, t, y, acc, countColumns);
      WalkUpSettles(r.0, g0, x, t, y + 1, r.1, countColumns);
    }
  }

  /** The walk keeps the matrix's shape and every ball at its own point. */
  lemma {:induction false} WalkUpKeepsShape(g: Grid, x: int, y: int, acc: int, countColumns: int)
    requires Shaped(g, |g|, countColumns) && Placed(g) && 1 <= x <= countColumns && 0 <= acc < y
    ensures Shaped(WalkUp(g, x, y, acc).0, |g|, countColumns) && Placed(WalkUp(g, x, y, acc).0)
    decreases |g| + 1 - y
  {
    if y <= |g| {
      assert Holds(g, Point(x, y));
      WalkUpStep(g, x, y, acc);
      var r := WalkUpOne(g, x, y, acc);
      WalkUpOneKeepsShape(g, x, y, acc, countColumns);
      WalkUpKeepsShape(r.0, x, y + 1, r.1, countColumns);
    }
  }

  /** The walk gains no ball. */
  lemma {:induction false} WalkUpKeepsCount(g: Grid, x: int, y: int, acc: int, countColumns: int)
    requires Shaped(g, |g|, countColumns) && Placed(g) && 1 <= x <= countColumns && 0 <= acc < y
    ensures BallCount(WalkUp(g, x, y, acc).0) <= BallCount(g)
    decreases |g| + 1 - y
  {
    if y <= |g| {
      assert Holds(g, Point(x, y));
      WalkUpStep(g, x, y, acc);
      var r := WalkUpOne(g, x, y, acc);
      WalkUpOneKeepsShape(g, x, y, acc, countColumns);
      WalkUpKeepsCount(r.0, x, y + 1, r.1, countColumns);
    }
  }

  /** Without a shift range the vertical pass leaves the start point's column as it is. */
  lemma NoRangeKeepsColumn(g: Grid, start: Point, countColumns: int)
    requires Shaped(g, |g|, countColumns) && 1 <= start.x <= countColumns && 1 <= start.y <= |g|
    requires ShiftRangeOf(g, Vertical, start, |g|).None?
    ensures Settle(Column(g, start.x), start.y) == Column(g, start.x)
  {
    ShiftRangeOfFacts(g, Vertical, start, |g|);
    var col := Column(g, start.x);
    forall i | start.y - 1 <= i < |col| - 1 ensures col[i].None? {
      OccupiedInColumn(g, start.x, i + 1);
    }
  }

  /** With a shift range the left border lies in rows [start, rows) and the cells below it are empty. */
  lemma RangeInColumn(g: Grid, start: Point, countColumns: int, r: ShiftRange)
    requires Shaped(g, |g|, countColumns) && 1 <= start.x <= countColumns && 1 <= start.y <= |g|
    requires ShiftRangeOf(g, Vertical, start, |g|) == Some(r)
    ensures start.y <= r.leftBorder < |g| && r.offset == r.leftBorder - start.y
    ensures forall i :: start.y - 1 <= i < r.leftBorder - 1 ==> Column(g, start.x)[i].None?
    ensures HasBallIn(Column(g, start.x), start.y - 1, |g| - 1)
  {
    ShiftRangeOfFacts(g, Vertical, start, |g|);
    var col := Column(g, start.x);
    forall i | start.y - 1 <= i < r.leftBorder - 1 ensures col[i].None? {
      OccupiedInColumn(g, start.x, i + 1);
    }
    OccupiedInColumn(g, start.x, r.leftBorder);
  }

  /** The lowest removed row of column `x`, or 0 when no point of `pts` lies in it. */
  function LowestRow(pts: seq<Point>, x: int): int
  {
    if pts == [] then 0
    else
      var r := LowestRow(pts[..|pts| - 1], x);
      var p := pts[|pts| - 1];
      if p.x != x then r else if r == 0 || p.y < r then p.y else r
  }

  /** The row of the start point of column `x`, or 0 when the list has none in that column. */
  function StartRowIn(ps: seq<Point>, x: int): int
  {
    if ps == [] then 0
    else if ps[|ps| - 1].x == x then ps[|ps| - 1].y
    else StartRowIn(ps[..|ps| - 1], x)
  }

  /** The points of the balls, in order. */
  function PointsOf(bs: seq<Ball>): (ps: seq<Point>)
    ensures |ps| == |bs| && forall k :: 0 <= k < |bs| ==> ps[k] == bs[k].point
  {
    seq(|bs|, k requires 0 <= k < |bs| => bs[k].point)
  }

  /** No two points of the list share a column. */
  ghost predicate OnePerColumn(ps: seq<Point>)
  {
    forall i, j :: 0 <= i < j < |ps| ==> ps[i].x != ps[j].x
  }

  /** In a list with one point per column, StartRowIn finds the row of the column's point, or 0. */
  lemma {:induction false} StartRowInIs(ps: seq<Point>, x: int)
    requires OnePerColumn(ps)
    ensures (forall k :: 0 <= k < |ps| ==> ps[k].x != x) ==> StartRowIn(ps, x) == 0
    ensures forall k :: 0 <= k < |ps| && ps[k].x == x ==> StartRowIn(ps, x) == ps[k].y
  {
    if ps != [] {
      var n := |ps| - 1;
      assert OnePerColumn(ps[..n]);
      StartRowInIs(ps[..n], x);
      forall k | 0 <= k < n && ps[k].x == x ensures StartRowIn(ps, x) == ps[k].y {
        assert ps[..n][k] == ps[k];
      }
      if forall k :: 0 <= k < |ps| ==> ps[k].x != x {
        assert forall k :: 0 <= k < n ==> ps[..n][k].x != x;
      }
    }
  }

  /** Appending a point of a new column to the start points. */
  lemma StartRowInAppend(ps: seq<Point>, p: Point, x: int)
    ensures StartRowIn(ps + [p], x) == if p.x == x then p.y else StartRowIn(ps, x)
  {
    assert (ps + [p])[..|ps|] == ps;
  }

  /**
   * When the removed points of the list are all distinct, the start points
   * that the vertical compressor keeps are one per column, the lowest
   * removed point of that column.
   */
  ghost predicate LowestPerColumn(ps: seq<Point>, pts: seq<Point>)
  {
    && OnePerColumn(ps)
    && (forall i :: 0 <= i < |ps| ==> ps[i] in pts && ps[i].y == LowestRow(pts, ps[i].x))
    && (forall x :: LowestRow(pts, x) != 0 ==> Point(x, LowestRow(pts, x)) in ps)
  }

  /** The lowest points of the columns, looked up by column, are the lowest rows. */
  lemma LowestPerColumnRows(ps: seq<Point>, pts: seq<Point>, x: int)
    requires LowestPerColumn(ps, pts) && forall k :: 0 <= k < |pts| ==> pts[k].y >= 1
    ensures StartRowIn(ps, x) == LowestRow(pts, x)
  {
    StartRowInIs(ps, x);
    LowestRowFacts(pts, x);
  }

  lemma {:induction false} LowestRowFacts(pts: seq<Point>, x: int)
    requires forall k :: 0 <= k < |pts| ==> pts[k].y >= 1
    ensures LowestRow(pts, x) == 0 <==> forall k :: 0 <= k < |pts| ==> pts[k].x != x
    ensures LowestRow(pts, x) != 0 ==> Point(x, LowestRow(pts, x)) in pts
    ensures forall k :: 0 <= k < |pts| && pts[k].x == x ==> LowestRow(pts, x) <= pts[k].y
  {
    if pts != [] {
      var n := |pts| - 1;
      LowestRowFacts(pts[..n], x);
      assert forall k :: 0 <= k < n ==> pts[..n][k] == pts[k];
    }
  }

  /** The start points handled so far hold none of the next one's column; handling it settles that column alone. */
  lemma StartRowStep(ps: seq<Point>, k: int, x: int)
    requires OnePerColumn(ps) && 0 <= k < |ps|
    ensures StartRowIn(ps[..k], ps[k].x) == 0
    ensures StartRowIn(ps[..k + 1], x) == if x == ps[k].x then ps[k].y else StartRowIn(ps[..k], x)
  {
    assert OnePerColumn(ps[..k]);
    StartRowInIs(ps[..k], ps[k].x);
    assert ps[..k + 1] == ps[..k] + [ps[k]];
    StartRowInAppend(ps[..k], ps[k], x);
  }

  /** One more removed point: only its own column's lowest row can change. */
  lemma LowestRowAppend(pts: seq<Point>, p: Point, x: int)
    ensures LowestRow(pts + [p], x) ==
      var r := LowestRow(pts, x);
      if p.x != x then r else if r == 0 || p.y < r then p.y else r
  {
    assert (pts + [p])[..|pts|] == pts;
  }

  /** The points of a removed cluster: all distinct and on rows from 1 up. */
  ghost predicate RemovedPoints(pts: seq<Point>)
  {
    && (forall k :: 0 <= k < |pts| ==> pts[k].y >= 1)
    && forall i, j :: 0 <= i < j < |pts| ==> pts[i] != pts[j]
  }

  /** The next removed point is new to the start points built from the ones before it. */
  lemma StartGroundNext(ps: seq<Point>, pts: seq<Point>, k: int)
    requires RemovedPoints(pts) && 0 <= k < |pts| && LowestPerColumn(ps, pts[..k])
    ensures StartGround(ps, pts[..k], pts[k])
    ensures pts[..k + 1] == pts[..k] + [pts[k]]
  {
    assert forall i :: 0 <= i < k ==> pts[..k][i] == pts[i];
  }

  /** The ground the start points of the vertical compressor keep: removed points, all distinct and on rows from 1 up. */
  ghost predicate StartGround(ps: seq<Point>, pts: seq<Point>, p: Point)
  {
    && LowestPerColumn(ps, pts)
    && (forall k :: 0 <= k < |pts| ==> pts[k].y >= 1)
    && p.y >= 1 && p !in pts
  }

  /** A removed point in a column with no start point yet becomes that column's start point. */
  lemma AddStartPointNew(ps: seq<Point>, pts: seq<Point>, p: Point)
    requires StartGround(ps, pts, p)
    requires forall i :: 0 <= i < |ps| ==> ps[i].x != p.x
    ensures LowestPerColumn(ps + [p], pts + [p])
  {
    var ps', pts' := ps + [p], pts + [p];
    assert forall q :: q in ps ==> q.x != p.x;
    LowestRowAppend(pts, p, p.x);
    forall i | 0 <= i < |ps'|
      ensures ps'[i] in pts' && ps'[i].y == LowestRow(pts', ps'[i].x)
    {
      LowestRowAppend(pts, p, ps'[i].x);
    }
    forall x | LowestRow(pts', x) != 0 ensures Point(x, LowestRow(pts', x)) in ps' {
      LowestRowAppend(pts, p, x);
    }
  }

  /** A removed point below the start point `j` of its column replaces it, at the end of the list. */
  lemma AddStartPointLower(ps: seq<Point>, pts: seq<Point>, p: Point, j: int)
    requires StartGround(ps, pts, p)
    requires 0 <= j < |ps| && ps[j].x == p.x && p.y < ps[j].y
    ensures LowestPerColumn(ps[..j] + ps[j + 1..] + [p], pts + [p])
  {
    var ps', pts' := ps[..j] + ps[j + 1..] + [p], pts + [p];
    assert forall i :: 0 <= i < j ==> ps'[i] == ps[i];
    assert forall i :: j <= i < |ps| - 1 ==> ps'[i] == ps[i + 1];
    LowestRowAppend(pts, p, p.x);
    forall i | 0 <= i < |ps'|
      ensures ps'[i] in pts' && ps'[i].y == LowestRow(pts', ps'[i].x)
    {
      LowestRowAppend(pts, p, ps'[i].x);
    }
    forall x | LowestRow(pts', x) != 0 ensures Point(x, LowestRow(pts', x)) in ps' {
      LowestRowAppend(pts, p, x);
      if x != p.x {
        var k :| 0 <= k < |ps| && ps[k] == Point(x, LowestRow(pts, x));
        assert k != j;
        if k < j { assert ps'[k] == ps[k]; } else { assert ps'[k - 1] == ps[k]; }
      }
    }
  }

  /** A removed point above the start point `j` of its column changes nothing. */
  lemma AddStartPointHigher(ps: seq<Point>, pts: seq<Point>, p: Point, j: int)
    requires StartGround(ps, pts, p)
    requires 0 <= j < |ps| && ps[j].x == p.x && p.y >= ps[j].y
    ensures LowestPerColumn(ps, pts + [p])
  {
    var pts' := pts + [p];
    LowestRowAppend(pts, p, p.x);
    forall i | 0 <= i < |ps|
      ensures ps[i] in pts' && ps[i].y == LowestRow(pts', ps[i].x)
    {
      LowestRowAppend(pts, p, ps[i].x);
    }
    forall x | LowestRow(pts', x) != 0 ensures Point(x, LowestRow(pts', x)) in ps {
      LowestRowAppend(pts, p, x);
    }
  }

  // ---------------------------------------------------------------------------
  // The horizontal pass.

  /** The number of balls stacked from the bottom of a column up to its first empty cell. */
  function RunLength(s: seq<Option<Color>>): (n: nat)
    ensures n <= |s|
  {
    if s == [] || s[0].None? then 0 else 1 + RunLength(s[1..])
  }

  lemma {:induction false} RunLengthFacts(s: seq<Option<Color>>)
    ensures forall i :: 0 <= i < RunLength(s) ==> s[i].Some?
    ensures RunLength(s) < |s| ==> s[RunLength(s)].None?
  {
    if s != [] && s[0].Some? {
      RunLengthFacts(s[1..]);
    }
  }

  lemma {:induction false} RunLengthIs(s: seq<Option<Color>>, k: int)
    requires 0 <= k <= |s| && forall i :: 0 <= i < k ==> s[i].Some?
    requires k < |s| ==> s[k].None?
    ensures RunLength(s) == k
  {
    if k > 0 {
      RunLengthIs(s[1..], k - 1);
    }
  }

  /** The height of the bottom run of column `x`. */
  function RunHeight(g: Grid, x: int): nat
  {
    RunLength(Column(g, x))
  }

  /**
   * While the horizontal pass works on column `c`, row `yy`: the cell in
   * column `col`, row `y` has been picked up, because its column came
   * earlier in the range and it lies in that column's bottom run, or it is
   * below row `yy` of column `c`.
   */
  predicate Lifted(g: Grid, left: int, c: int, yy: int, col: int, y: int)
  {
    (left <= col < c && y <= RunHeight(g, col)) || (col == c && y < yy)
  }

  /** A ball of the cell `v` carried to the point (x, y). */
  function Carried(v: Option<Ball>, x: int, y: int): Option<Ball>
  {
    if v.Some? then Some(Ball(Point(x, y), v.value.color)) else None
  }

  /**
   * The cell (x, y) partway through the horizontal pass: it holds the ball
   * carried from `acc` columns further right when that one has been picked
   * up, is empty when its own ball has been picked up and nothing came in,
   * and is untouched otherwise.
   */
  function MidCell(g: Grid, left: int, c: int, yy: int, acc: int, x: int, y: int): Option<Ball>
    requires 1 <= y <= |g| && 1 <= x <= |g[y - 1]|
  {
    var src := x + acc;
    if 1 <= src <= |g[y - 1]| && Lifted(g, left, c, yy, src, y) then Carried(g[y - 1][src - 1], x, y)
    else if Lifted(g, left, c, yy, x, y) then None
    else g[y - 1][x - 1]
  }

  function Mid(g: Grid, left: int, c: int, yy: int, acc: int): (r: Grid)
    ensures |r| == |g| && forall i :: 0 <= i < |g| ==> |r[i]| == |g[i]|
  {
    seq(|g|, i requires 0 <= i < |g| => MidRow(g, left, c, yy, acc, i))
  }

  /** Row `i` of Mid. */
  function MidRow(g: Grid, left: int, c: int, yy: int, acc: int, i: int): (r: seq<Option<Ball>>)
    requires 0 <= i < |g|
    ensures |r| == |g[i]|
  {
    seq(|g[i]|, j requires 0 <= j < |g[i]| => MidCell(g, left, c, yy, acc, j + 1, i + 1))
  }

  /**
   * HorizontallyCompressor._shift_balls over the range [left, right] with
   * the accumulated offset `acc`: the bottom run of every column of the
   * range (its balls up to the first empty cell) stands `acc` columns
   * further left, in the same rows, overwriting what stood there; a cell it
   * left is empty unless another run came into it; everything else is
   * unchanged.
   */
  function Slid(g: Grid, left: int, right: int, acc: int): (r: Grid)
    ensures |r| == |g| && forall i :: 0 <= i < |g| ==> |r[i]| == |g[i]|
  {
    Mid(g, left, right + 1, 1, acc)
  }

  lemma GridExtensionality(a: Grid, b: Grid)
    requires |a| == |b| && forall i :: 0 <= i < |a| ==> |a[i]| == |b[i]|
    requires forall i, j :: 0 <= i < |a| && 0 <= j < |a[i]| ==> a[i][j] == b[i][j]
    ensures a == b
  {
    forall i | 0 <= i < |a| ensures a[i] == b[i] {
    }
  }

  /** Before the first column of the range nothing has been picked up. */
  lemma MidStart(g: Grid, left: int, acc: int)
    requires 0 <= acc
    ensures Mid(g, left, left, 1, acc) == g
  {
    GridExtensionality(Mid(g, left, left, 1, acc), g);
  }

  /** One more cell of column `c` picked up: only (c, yy) and the cell `acc` columns left of it change. */
  lemma MidCellCarry(g: Grid, left: int, c: int, yy: int, acc: int, x: int, y: int)
    requires 1 <= y <= |g| && 1 <= x <= |g[y - 1]| && 0 <= acc
    requires 1 <= yy <= |g| && 1 <= c <= |g[yy - 1]|
    ensures MidCell(g, left, c, yy + 1, acc, x, y) ==
      if x == c - acc && y == yy then Carried(g[yy - 1][c - 1], x, y)
      else if x == c && y == yy then None
      else MidCell(g, left, c, yy, acc, x, y)
  {
  }

  /** Picking up the ball at (c, yy) and setting it down `acc` columns further left. */
  lemma MidCarry(g: Grid, left: int, c: int, yy: int, acc: int, b: Ball)
    requires 1 <= yy <= |g| && 1 <= c <= |g[yy - 1]| && 0 <= acc < c
    requires g[yy - 1][c - 1] == Some(b) && b.point == Point(c, yy)
    ensures At(Mid(g, left, c, yy, acc), b.point) == Some(b)
    ensures var m := Update(Mid(g, left, c, yy, acc), b.point, None);
      Update(m, Point(c - acc, yy), Some(ShiftLeftHorizontally(b, acc))) == Mid(g, left, c, yy + 1, acc)
  {
    var m0 := Mid(g, left, c, yy, acc);
    var m1 := Update(m0, b.point, None);
    var target := Point(c - acc, yy);
    var m2 := Update(m1, target, Some(ShiftLeftHorizontally(b, acc)));
    var m3 := Mid(g, left, c, yy + 1, acc);
    forall i, j | 0 <= i < |m2| && 0 <= j < |m2[i]|
      ensures m2[i][j] == m3[i][j]
    {
      var p := Point(j + 1, i + 1);
      assert Holds(m1, p) && Holds(m0, p);
      assert m2[i][j] == At(m2, p) && m3[i][j] == MidCell(g, left, c, yy + 1, acc, j + 1, i + 1);
      MidCellCarry(g, left, c, yy, acc, j + 1, i + 1);
      if p == target {
      } else if p == b.point {
      } else {
        assert At(m2, p) == At(m1, p) == At(m0, p);
      }
    }
    GridExtensionality(m2, m3);
  }

  /** The walk up column `c` stopped where its bottom run ends: the state of the next column's start. */
  lemma MidCellNextColumn(g: Grid, left: int, c: int, yy: int, acc: int, x: int, y: int)
    requires 1 <= y <= |g| && 1 <= x <= |g[y - 1]| && 0 <= acc && left <= c
    requires RunHeight(g, c) == yy - 1
    ensures MidCell(g, left, c, yy, acc, x, y) == MidCell(g, left, c + 1, 1, acc, x, y)
  {
  }

  /** The walk up column `c` stops at its first empty cell, or at the top. */
  lemma MidNextColumn(g: Grid, left: int, c: int, yy: int, acc: int)
    requires 1 <= yy <= |g| + 1 && 0 <= acc && left <= c
    requires forall i :: 0 <= i < yy - 1 ==> Column(g, c)[i].Some?
    requires yy <= |g| ==> Column(g, c)[yy - 1].None?
    ensures Mid(g, left, c, yy, acc) == Mid(g, left, c + 1, 1, acc)
  {
    RunLengthIs(Column(g, c), yy - 1);
    var m0 := Mid(g, left, c, yy, acc);
    var m1 := Mid(g, left, c + 1, 1, acc);
    forall i, j | 0 <= i < |m0| && 0 <= j < |m0[i]|
      ensures m0[i][j] == m1[i][j]
    {
      MidCellNextColumn(g, left, c, yy, acc, j + 1, i + 1);
    }
    GridExtensionality(m0, m1);
  }

  /** The cell (c, yy) is untouched until the walk reaches it. */
  lemma MidAhead(g: Grid, left: int, c: int, yy: int, acc: int)
    requires 1 <= yy <= |g| && 1 <= c <= |g[yy - 1]| && 0 <= acc
    ensures Mid(g, left, c, yy, acc)[yy - 1][c - 1] == g[yy - 1][c - 1]
  {
  }

  /** A shift leaves every column right of its range as it was. */
  lemma SlidKeepsRight(g: Grid, left: int, right: int, acc: int)
    requires 0 <= acc
    ensures var r := Slid(g, left, right, acc);
      forall i, j :: 0 <= i < |g| && 0 <= j < |g[i]| && right <= j ==> r[i][j] == g[i][j]
  {
    var r := Slid(g, left, right, acc);
    forall i, j | 0 <= i < |g| && 0 <= j < |g[i]| && right <= j
      ensures r[i][j] == g[i][j]
    {
      assert r[i][j] == MidCell(g, left, right + 1, 1, acc, j + 1, i + 1);
    }
  }

  /**
   * The inner loop of HorizontallyCompressor._shift_balls, ball by ball:
   * column `c` walked up from row `y` until its first empty cell, each ball
   * moving `acc` columns left.
   */
  function SlideColumn(g: Grid, c: int, y: int, acc: int): Grid
    decreases |g| + 1 - y
  {
    if y < 1 || y > |g| || !Holds(g, Point(c, y)) then g
    else match At(g, Point(c, y))
      case None => g
      case Some(b) => SlideColumn(Moved(g, b, ShiftInDirection(Horizontal, b, acc)), c, y + 1, acc)
  }

  /** The outer loop of HorizontallyCompressor._shift_balls: columns `c` to `right`, one after the other. */
  function SlideColumns(g: Grid, c: int, right: int, acc: int): Grid
    decreases right + 1 - c
  {
    if c > right then g else SlideColumns(SlideColumn(g, c, 1, acc), c + 1, right, acc)
  }

  /** The columns are walked one after the other. */
  lemma SlideColumnsStep(g: Grid, c: int, right: int, acc: int)
    requires c <= right
    ensures SlideColumns(g, c, right, acc) == SlideColumns(SlideColumn(g, c, 1, acc), c + 1, right, acc)
  {
  }

  /** A ball at row `y` of column `c`: the walk moves it and goes on from the next row. */
  lemma SlideColumnStep(g: Grid, c: int, y: int, acc: int, b: Ball)
    requires 1 <= y <= |g| && Holds(g, Point(c, y)) && At(g, Point(c, y)) == Some(b)
    ensures SlideColumn(g, c, y, acc) == SlideColumn(Moved(g, b, ShiftInDirection(Horizontal, b, acc)), c, y + 1, acc)
  {
  }

  /** A ball at row `yy` of column `c` extends the occupied run below it by one row. */
  lemma OccupiedRunGrows(g: Grid, c: int, yy: int)
    requires 1 <= yy <= |g| && Holds(g, Point(c, yy)) && At(g, Point(c, yy)).Some?
    requires forall i :: 0 <= i < yy - 1 ==> Column(g, c)[i].Some?
    ensures forall i :: 0 <= i < yy ==> Column(g, c)[i].Some?
  {
    ColumnAt(g, Point(c, yy));
  }

  /**
   * Walking column `c` from row `yy`, once the rows below have been picked
   * up, gives the state where column `c` is done.
   */
  lemma {:induction false} SlideColumnIsMid(g: Grid, left: int, c: int, yy: int, acc: int, countColumns: int)
    requires Shaped(g, |g|, countColumns) && Placed(g)
    requires 1 <= yy <= |g| + 1 && left <= c && 1 <= c <= countColumns && 0 <= acc < c
    requires forall i :: 0 <= i < yy - 1 ==> Column(g, c)[i].Some?
    ensures SlideColumn(Mid(g, left, c, yy, acc), c, yy, acc) == Mid(g, left, c + 1, 1, acc)
    decreases |g| + 1 - yy
  {
    var m := Mid(g, left, c, yy, acc);
    if yy > |g| {
      MidNextColumn(g, left, c, yy, acc);
    } else {
      var p := Point(c, yy);
      assert |g[yy - 1]| == countColumns;
      MidAhead(g, left, c, yy, acc);
      assert At(m, p) == At(g, p);
      ColumnAt(g, p);
      if At(g, p).None? {
        assert SlideColumn(m, c, yy, acc) == m;
        MidNextColumn(g, left, c, yy, acc);
      } else {
        var b := At(g, p).value;
        assert b.point == p && g[yy - 1][c - 1] == Some(b);
        SlideColumnStep(m, c, yy, acc, b);
        MidCarry(g, left, c, yy, acc, b);
        OccupiedRunGrows(g, c, yy);
        SlideColumnIsMid(g, left, c, yy + 1, acc, countColumns);
      }
    }
  }

  /** Walking the columns `c` to `right` in turn finishes the shift begun at `left`. */
  lemma {:induction false} SlideColumnsIsSlid(g: Grid, left: int, c: int, right: int, acc: int, countColumns: int)
    requires Shaped(g, |g|, countColumns) && Placed(g)
    requires 1 <= left <= c <= right + 1 && right <= countColumns && 0 <= acc < left
    ensures SlideColumns(Mid(g, left, c, 1, acc), c, right, acc) == Slid(g, left, right, acc)
    decreases right + 1 - c
  {
    if c <= right {
      SlideColumnIsMid(g, left, c, 1, acc, countColumns);
      SlideColumnsIsSlid(g, left, c + 1, right, acc, countColumns);
    }
  }

  /**
   * The ball-by-ball walk of HorizontallyCompressor._shift_balls over the
   * range [left, right] does what Slid describes.
   */
  lemma SlideColumnsSlides(g: Grid, left: int, right: int, acc: int, countColumns: int)
    requires Shaped(g, |g|, countColumns) && Placed(g)
    requires 1 <= left <= right <= countColumns && 0 <= acc < left
    ensures SlideColumns(g, left, right, acc) == Slid(g, left, right, acc)
  {
    MidStart(g, left, acc);
    SlideColumnsIsSlid(g, left, left, right, acc, countColumns);
  }

  /** _get_start_points_in_empty_ranges of the horizontal compressor, for columns [lo, hi). */
  function StartsBetween(g: Grid, lo: int, hi: int): seq<Point>
    decreases hi - lo
  {
    if hi <= lo then []
    else
      var tail := if IsStartColumn(g, hi - 1) then [Point(hi - 1, 1)] else [];
      StartsBetween(g, lo, hi - 1) + tail
  }

  /**
   * HorizontallyCompressor._get_start_points_in_empty_ranges: the bottom-row
   * cells from column `minX` (the removed priority ball's column) to
   * `countColumns - 1` that are empty with a ball to their left, after (1, 1)
   * when the removed cluster reached column 1 and (1, 1) is empty.
   */
  function HorizontalStartPoints(g: Grid, minX: int, countColumns: int): seq<Point>
  {
    if minX == 1 then
      (if Occupied(g, Horizontal, 1, 1) then [] else [Point(1, 1)]) + StartsBetween(g, 2, countColumns)
    else StartsBetween(g, minX, countColumns)
  }

  /** A bottom-row cell that is empty with a ball to its left. */
  predicate IsStartColumn(g: Grid, x: int)
  {
    Occupied(g, Horizontal, 1, x - 1) && !Occupied(g, Horizontal, 1, x)
  }

  lemma {:induction false} StartsBetweenFacts(g: Grid, lo: int, hi: int)
    ensures var ps := StartsBetween(g, lo, hi);
      && (forall i, j :: 0 <= i < j < |ps| ==> ps[i].x < ps[j].x)
      && (forall i :: 0 <= i < |ps| ==> lo <= ps[i].x < hi)
      && (forall p :: p in ps <==> p.y == 1 && lo <= p.x < hi && IsStartColumn(g, p.x))
    decreases hi - lo
  {
    if lo < hi {
      StartsBetweenFacts(g, lo, hi - 1);
      var ps := StartsBetween(g, lo, hi - 1);
      var tail: seq<Point> := if IsStartColumn(g, hi - 1) then [Point(hi - 1, 1)] else [];
      var all := ps + tail;
      assert StartsBetween(g, lo, hi) == all;
      forall i, j | 0 <= i < j < |all| ensures all[i].x < all[j].x {
        if j >= |ps| {
          assert all[j] == Point(hi - 1, 1);
          assert all[i] == ps[i];
        }
      }
      forall p: Point ensures p in all <==> p.y == 1 && lo <= p.x < hi && IsStartColumn(g, p.x) {
        assert p in all <==> p in ps || p in tail;
      }
    }
  }

  /**
   * The horizontal start points lie in the bottom row, strictly left to
   * right; each is empty, and from column 2 on has a ball to its left and
   * lies before the last column. (1, 1) is one of them exactly when the
   * removed cluster reached column 1 and (1, 1) is empty.
   */
  lemma HorizontalStartPointsFacts(g: Grid, minX: int, countColumns: int)
    requires 1 <= minX
    ensures var ps := HorizontalStartPoints(g, minX, countColumns);
      && (forall i, j :: 0 <= i < j < |ps| ==> ps[i].x < ps[j].x)
      && (forall p :: p in ps <==>
            && p.y == 1 && !Occupied(g, Horizontal, 1, p.x)
            && ((p.x == 1 && minX == 1) || (2 <= p.x && minX <= p.x < countColumns && IsStartColumn(g, p.x))))
  {
    var lo := if minX == 1 then 2 else minX;
    StartsBetweenFacts(g, lo, countColumns);
  }

  /** The two matrices have the same shape and agree from column `x` on. */
  ghost predicate SameFrom(g: Grid, h: Grid, x: int)
  {
    && |g| == |h| && (forall i :: 0 <= i < |g| ==> |g[i]| == |h[i]|)
    && forall i, j :: 0 <= i < |g| && 0 <= j < |g[i]| && x - 1 <= j ==> g[i][j] == h[i][j]
  }

  /** One round of Compressor.run on the horizontal axis: the board and the accumulated offset after it. */
  function HorizontalStep(g: Grid, countColumns: int, acc: int, start: Point): (Grid, int)
  {
    match ShiftRangeOf(g, Horizontal, start, countColumns)
    case None => (g, acc)
    case Some(r) => (Slid(g, r.leftBorder, r.rightBorder, acc + r.offset), acc + r.offset)
  }

  /** Compressor.run on the horizontal axis over the start points `ps`, from the offset `acc`. */
  function HorizontalPass(g: Grid, countColumns: int, ps: seq<Point>, acc: int): (Grid, int)
  {
    if ps == [] then (g, acc)
    else
      var before := HorizontalPass(g, countColumns, ps[..|ps| - 1], acc);
      HorizontalStep(before.0, countColumns, before.1, ps[|ps| - 1])
  }

  /** The pass over one more start point is one more step. */
  lemma HorizontalPassStep(g: Grid, countColumns: int, ps: seq<Point>, k: int, acc: int)
    requires 0 <= k < |ps|
    ensures var before := HorizontalPass(g, countColumns, ps[..k], acc);
      HorizontalPass(g, countColumns, ps[..k + 1], acc) == HorizontalStep(before.0, countColumns, before.1, ps[k])
  {
    assert ps[..k + 1][..k] == ps[..k];
  }

  /**
   * The order the horizontal start points come in: left to right along the
   * bottom row, each after the first a start column short of the last column.
   */
  ghost predicate StartsAhead(g: Grid, countColumns: int, ps: seq<Point>)
  {
    && (forall i, j :: 0 <= i < j < |ps| ==> ps[i].x < ps[j].x)
    && (forall i :: 0 <= i < |ps| ==> ps[i].y == 1 && 1 <= ps[i].x <= countColumns)
    && (forall i :: 0 < i < |ps| ==> ps[i].x < countColumns && IsStartColumn(g, ps[i].x))
  }

  lemma HorizontalStartPointsAhead(g: Grid, minX: int, countColumns: int)
    requires 1 <= minX && 1 <= countColumns
    ensures StartsAhead(g, countColumns, HorizontalStartPoints(g, minX, countColumns))
  {
    var ps := HorizontalStartPoints(g, minX, countColumns);
    HorizontalStartPointsFacts(g, minX, countColumns);
    forall i | 0 <= i < |ps| ensures ps[i].y == 1 && 1 <= ps[i].x <= countColumns {
      assert ps[i] in ps;
    }
    forall i | 0 < i < |ps| ensures ps[i].x < countColumns && IsStartColumn(g, ps[i].x) {
      assert ps[i] in ps && ps[0] in ps;
    }
  }

  /**
   * Along the start points of the pass the offset stays below the next
   * start point, and nothing from that start point on has moved yet.
   */
  lemma {:induction false} HorizontalPassStaysAhead(g: Grid, countColumns: int, ps: seq<Point>, k: int)
    requires StartsAhead(g, countColumns, ps) && |g| >= 1 && |g[0]| == countColumns
    requires 0 <= k < |ps|
    ensures var st := HorizontalPass(g, countColumns, ps[..k], 0);
      0 <= st.1 < ps[k].x && SameFrom(st.0, g, ps[k].x)
  {
    if k > 0 {
      HorizontalPassStaysAhead(g, countColumns, ps, k - 1);
      HorizontalPassStep(g, countColumns, ps, k - 1, 0);
      var st := HorizontalPass(g, countColumns, ps[..k - 1], 0);
      NextStartStaysAhead(st.0, g, countColumns, ps[k - 1].x, ps[k].x, st.1);
    } else {
      assert ps[..0] == [];
    }
  }

  /** A shift whose range ends before column `s2` keeps a matrix's agreement with `g0` from column `s2` on. */
  lemma SlidKeepsFrom(cur: Grid, g0: Grid, left: int, right: int, acc: int, s: int, s2: int)
    requires SameFrom(cur, g0, s) && s <= s2 && right < s2 && 0 <= acc
    ensures SameFrom(Slid(cur, left, right, acc), g0, s2)
  {
    var r := Slid(cur, left, right, acc);
    SlidKeepsRight(cur, left, right, acc);
    forall i, j | 0 <= i < |r| && 0 <= j < |r[i]| && s2 - 1 <= j
      ensures r[i][j] == g0[i][j]
    {
      assert r[i][j] == cur[i][j];
    }
  }

  /**
   * The start points of the horizontal pass stay ahead of it: when the
   * board still agrees with the pass's starting board from start point `s`
   * on and the offset so far is below `s`, one round leaves an offset below
   * the next start point `s2` and touches nothing from `s2` on.
   */
  lemma NextStartStaysAhead(cur: Grid, g0: Grid, countColumns: int, s: int, s2: int, acc: int)
    requires 1 <= s < s2 < countColumns && 0 <= acc < s
    requires |g0| >= 1 && |g0[0]| == countColumns
    requires SameFrom(cur, g0, s) && IsStartColumn(g0, s2)
    ensures var st := HorizontalStep(cur, countColumns, acc, Point(s, 1));
      0 <= st.1 < s2 && SameFrom(st.0, g0, s2)
  {
    var start := Point(s, 1);
    assert Occupied(cur, Horizontal, 1, s2 - 1) && !Occupied(cur, Horizontal, 1, s2) by {
      assert |cur[0]| == countColumns;
      assert cur[0][s2 - 2] == g0[0][s2 - 2] && cur[0][s2 - 1] == g0[0][s2 - 1];
    }
    ShiftRangeBefore(cur, start, countColumns, s2 - 1);
    var r := ShiftRangeOf(cur, Horizontal, start, countColumns).value;
    SlidKeepsFrom(cur, g0, r.leftBorder, r.rightBorder, acc + r.offset, s, s2);
  }

  /** A horizontal range starting before an occupied cell `b` whose right neighbour is empty ends by `b`. */
  lemma ShiftRangeBefore(g: Grid, start: Point, max: int, b: int)
    requires start.x <= b < max
    requires Occupied(g, Horizontal, start.y, b) && !Occupied(g, Horizontal, start.y, b + 1)
    ensures var r := ShiftRangeOf(g, Horizontal, start, max);
      && r.Some? && start.x <= r.value.leftBorder <= r.value.rightBorder <= b
      && r.value.offset == r.value.leftBorder - start.x
  {
    ShiftRangeOfFacts(g, Horizontal, start, max);
  }

  /**
   * CompressionAlgorithm.run: `r` is `g` after the vertical compression for
   * the removed points `pts` (each column settles from its lowest removed
   * row), followed by the horizontal pass from column `minX`.
   */
  ghost predicate Compressed(g: Grid, r: Grid, pts: seq<Point>, minX: int, countColumns: int)
  {
    exists v: Grid ::
      && Shaped(v, |g|, countColumns) && Placed(v)
      && (forall x :: Column(v, x) == Settle(Column(g, x), LowestRow(pts, x)))
      && r == HorizontalPass(v, countColumns, HorizontalStartPoints(v, minX, countColumns), 0).0
  }
}
