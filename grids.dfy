/**
 * Pure views of the board's cell matrix `_balls`, where `_balls[y-1][x-1]`
 * holds the ball at point (x, y) or nothing.
 */
module Grids {
  import opened Wrappers
  import opened Geometry

  type Grid = seq<seq<Option<Ball>>>

  /** Every one of the `rows` rows holds exactly `cols` cells. */
  ghost predicate Shaped(g: Grid, rows: int, cols: int)
  {
    |g| == rows && forall i :: 0 <= i < |g| ==> |g[i]| == cols
  }

  /** The point names a cell of the matrix. */
  predicate Holds(g: Grid, p: Point)
  {
    1 <= p.y <= |g| && 1 <= p.x <= |g[p.y - 1]|
  }

  function At(g: Grid, p: Point): Option<Ball>
    requires Holds(g, p)
  {
    g[p.y - 1][p.x - 1]
  }

  /** The matrix with the cell at `p` replaced by `v`; a point outside the matrix changes nothing. */
  function Update(g: Grid, p: Point, v: Option<Ball>): (r: Grid)
    ensures |r| == |g| && forall i :: 0 <= i < |g| ==> |r[i]| == |g[i]|
    ensures Holds(g, p) ==> At(r, p) == v
    ensures forall q :: Holds(g, q) && q != p ==> At(r, q) == At(g, q)
  {
    if Holds(g, p) then g[p.y - 1 := g[p.y - 1][p.x - 1 := v]] else g
  }

  /** Every ball records the point of the cell that holds it. */
  ghost predicate Placed(g: Grid)
  {
    forall i, j :: 0 <= i < |g| && 0 <= j < |g[i]| && g[i][j].Some? ==> g[i][j].value.point == Point(j + 1, i + 1)
  }

  lemma UpdatePlaced(g: Grid, p: Point, v: Option<Ball>)
    requires Placed(g)
    requires v.Some? ==> v.value.point == p
    ensures Placed(Update(g, p, v))
  {
    var r: Grid := Update(g, p, v);
    forall i, j | 0 <= i < |r| && 0 <= j < |r[i]| && r[i][j].Some?
      ensures r[i][j].value.point == Point(j + 1, i + 1)
    {
      var q := Point(j + 1, i + 1);
      assert Holds(g, q) && At(r, q) == r[i][j];
    }
  }

  // ---------------------------------------------------------------------------
  // The balls of the matrix as a multiset, gathered in scan order: bottom row
  // first, each row left to right.

  /** The ball of one cell, if any. */
  function OptionBalls(v: Option<Ball>): multiset<Ball>
  {
    if v.Some? then multiset{v.value} else multiset{}
  }

  ghost function RowBalls(r: seq<Option<Ball>>): multiset<Ball>
  {
    if r == [] then multiset{} else RowBalls(r[..|r| - 1]) + OptionBalls(r[|r| - 1])
  }

  /** Every ball standing on the matrix. */
  ghost function GridBalls(g: Grid): multiset<Ball>
  {
    if g == [] then multiset{} else GridBalls(g[..|g| - 1]) + RowBalls(g[|g| - 1])
  }

  /** The balls of the rows below `y` and of the first `x` cells of row `y`. */
  ghost function Scanned(g: Grid, y: int, x: int): multiset<Ball>
    requires 1 <= y <= |g| && 0 <= x <= |g[y - 1]|
    decreases y, x
  {
    if x == 0 then (if y == 1 then multiset{} else Scanned(g, y - 1, |g[y - 2]|))
    else Scanned(g, y, x - 1) + OptionBalls(g[y - 1][x - 1])
  }

  /** No ball occurs twice. */
  ghost predicate Distinct(m: multiset<Ball>)
  {
    forall b :: m[b] <= 1
  }

  lemma MultisetShift(a': multiset<Ball>, a: multiset<Ball>, x: multiset<Ball>, y: multiset<Ball>, z: multiset<Ball>)
    requires a' + x == a + y
    ensures a' + z + x == a + z + y
  {
    forall e ensures (a' + z + x)[e] == (a + z + y)[e] {
      assert (a' + x)[e] == (a + y)[e];
    }
  }

  lemma MultisetTrade(s': multiset<Ball>, s: multiset<Ball>, x: multiset<Ball>, y: multiset<Ball>, c: multiset<Ball>, d: multiset<Ball>)
    requires s' + x == s + y && y + c == x + d
    ensures s' + c == s + d
  {
    forall e ensures (s' + c)[e] == (s + d)[e] {
      assert (s' + x)[e] == (s + y)[e];
      assert (y + c)[e] == (x + d)[e];
    }
  }

  lemma Associate(a: multiset<Ball>, b: multiset<Ball>, c: multiset<Ball>)
    ensures a + b + c == a + (b + c)
  {
    forall e ensures (a + b + c)[e] == (a + (b + c))[e] {
    }
  }

  /** Writing the last cell of a row. */
  lemma RowBallsLast(r: seq<Option<Ball>>, v: Option<Ball>)
    requires r != []
    ensures RowBalls(r[|r| - 1 := v]) + OptionBalls(r[|r| - 1]) == RowBalls(r) + OptionBalls(v)
  {
    var n := |r| - 1;
    var r' := r[n := v];
    assert r'[..n] == r[..n];
    var a := RowBalls(r[..n]);
    var x, y := OptionBalls(r[n]), OptionBalls(v);
    assert RowBalls(r') == a + y;
    assert RowBalls(r) == a + x;
    MultisetSwap(a, x, y);
  }

  lemma MultisetSwap(a: multiset<Ball>, x: multiset<Ball>, y: multiset<Ball>)
    ensures a + y + x == a + x + y
  {
    forall e ensures (a + y + x)[e] == (a + x + y)[e] {
    }
  }

  /** Writing a cell before the last one of a row. */
  lemma {:induction false} RowBallsInner(r: seq<Option<Ball>>, j: int, v: Option<Ball>)
    requires 0 <= j < |r| - 1
    ensures RowBalls(r[j := v]) + OptionBalls(r[j]) == RowBalls(r) + OptionBalls(v)
  {
    var n := |r| - 1;
    var r' := r[j := v];
    assert r'[..n] == r[..n][j := v];
    assert r[..n][j] == r[j];
    assert r'[n] == r[n];
    var a, a' := RowBalls(r[..n]), RowBalls(r'[..n]);
    var x, y, t := OptionBalls(r[j]), OptionBalls(v), OptionBalls(r[n]);
    assert RowBalls(r') == a' + t;
    assert RowBalls(r) == a + t;
    if j < n - 1 {
      RowBallsInner(r[..n], j, v);
    } else {
      RowBallsLast(r[..n], v);
    }
    MultisetShift(a', a, x, y, t);
  }
  /** Writing `v` into cell `j` of a row trades the ball that was there for `v`. */
  lemma RowBallsUpdate(r: seq<Option<Ball>>, j: int, v: Option<Ball>)
    requires 0 <= j < |r|
    ensures RowBalls(r[j := v]) + OptionBalls(r[j]) == RowBalls(r) + OptionBalls(v)
  {
    if j == |r| - 1 {
      RowBallsLast(r, v);
    } else {
      RowBallsInner(r, j, v);
    }
  }

  lemma {:induction false} GridBallsUpdateRow(g: Grid, i: int, row: seq<Option<Ball>>)
    requires 0 <= i < |g|
    ensures GridBalls(g[i := row]) + RowBalls(g[i]) == GridBalls(g) + RowBalls(row)
  {
    var n := |g| - 1;
    var g' := g[i := row];
    GridBallsLast(g);
    GridBallsLast(g');
    if i == n {
      UpdateLastRow(g, row);
      MultisetSwap(GridBalls(g[..n]), RowBalls(g[i]), RowBalls(row));
    } else {
      UpdateInnerRow(g, i, row);
      GridBallsUpdateRow(g[..n], i, row);
      MultisetShift(GridBalls(g'[..n]), GridBalls(g[..n]), RowBalls(g[i]), RowBalls(row), RowBalls(g[n]));
    }
  }

  lemma GridBallsLast(g: Grid)
    requires g != []
    ensures GridBalls(g) == GridBalls(g[..|g| - 1]) + RowBalls(g[|g| - 1])
  {
  }

  lemma UpdateLastRow(g: Grid, row: seq<Option<Ball>>)
    requires g != []
    ensures g[|g| - 1 := row][..|g| - 1] == g[..|g| - 1] && g[|g| - 1 := row][|g| - 1] == row
  {
  }

  lemma UpdateInnerRow(g: Grid, i: int, row: seq<Option<Ball>>)
    requires 0 <= i < |g| - 1
    ensures g[i := row][..|g| - 1] == g[..|g| - 1][i := row]
    ensures g[..|g| - 1][i] == g[i] && g[i := row][|g| - 1] == g[|g| - 1]
  {
    assert g[i := row][..|g| - 1] == g[..|g| - 1][i := row];
  }

  /** Writing `v` into the cell at `p` trades the ball that was there for `v`. */
  lemma GridBallsUpdate(g: Grid, p: Point, v: Option<Ball>)
    requires Holds(g, p)
    ensures GridBalls(Update(g, p, v)) + OptionBalls(At(g, p)) == GridBalls(g) + OptionBalls(v)
  {
    UpdateCell(g, p, v);
    GridBallsUpdateCell(g, p.y - 1, p.x - 1, v);
  }

  lemma UpdateCell(g: Grid, p: Point, v: Option<Ball>)
    requires Holds(g, p)
    ensures Update(g, p, v) == g[p.y - 1 := g[p.y - 1][p.x - 1 := v]] && At(g, p) == g[p.y - 1][p.x - 1]
  {
  }

  lemma GridBallsUpdateCell(g: Grid, i: int, j: int, v: Option<Ball>)
    requires 0 <= i < |g| && 0 <= j < |g[i]|
    ensures GridBalls(g[i := g[i][j := v]]) + OptionBalls(g[i][j]) == GridBalls(g) + OptionBalls(v)
  {
    GridBallsUpdateRow(g, i, g[i][j := v]);
    RowBallsUpdate(g[i], j, v);
    MultisetTrade(GridBalls(g[i := g[i][j := v]]), GridBalls(g), RowBalls(g[i]), RowBalls(g[i][j := v]), OptionBalls(g[i][j]), OptionBalls(v));
  }

  lemma {:induction false} RowBallsPlaced(r: seq<Option<Ball>>, y: int)
    requires forall j :: 0 <= j < |r| && r[j].Some? ==> r[j].value.point == Point(j + 1, y)
    ensures Distinct(RowBalls(r))
    ensures forall b :: b in RowBalls(r) ==> b.point.y == y && 1 <= b.point.x <= |r| && r[b.point.x - 1] == Some(b)
  {
    if r != [] {
      var n := |r| - 1;
      RowBallsPlaced(r[..n], y);
      var tail := OptionBalls(r[n]);
      forall b ensures RowBalls(r)[b] <= 1 {
        if b in tail {
          assert b.point.x == n + 1;
          assert b !in RowBalls(r[..n]);
        }
      }
    }
  }

  /** In a placed matrix every ball occurs once and is found again at its own point. */
  lemma {:induction false} GridBallsPlaced(g: Grid)
    requires Placed(g)
    ensures Distinct(GridBalls(g))
    ensures forall b :: b in GridBalls(g) ==> Holds(g, b.point) && At(g, b.point) == Some(b)
  {
    if g != [] {
      var n := |g| - 1;
      assert Placed(g[..n]);
      GridBallsPlaced(g[..n]);
      RowBallsPlaced(g[n], n + 1);
      forall b | b in GridBalls(g[..n])
        ensures b.point.y <= n && Holds(g, b.point) && At(g, b.point) == Some(b)
      {
        assert Holds(g[..n], b.point);
      }
      forall b ensures GridBalls(g)[b] <= 1 {
        if b in RowBalls(g[n]) {
          assert b !in GridBalls(g[..n]);
        }
      }
    }
  }

  lemma {:induction false} RowBallsHas(r: seq<Option<Ball>>, j: int)
    requires 0 <= j < |r| && r[j].Some?
    ensures r[j].value in RowBalls(r)
  {
    if j < |r| - 1 {
      RowBallsHas(r[..|r| - 1], j);
    }
  }

  /** Every ball standing in a cell is a ball of the matrix. */
  lemma {:induction false} GridBallsHas(g: Grid, p: Point)
    requires Holds(g, p) && At(g, p).Some?
    ensures At(g, p).value in GridBalls(g)
  {
    var n := |g| - 1;
    if p.y - 1 == n {
      RowBallsHas(g[n], p.x - 1);
    } else {
      assert Holds(g[..n], p) && At(g[..n], p) == At(g, p);
      GridBallsHas(g[..n], p);
    }
  }

  /** The scan up to the start of row `y` holds exactly the balls of the rows below it. */
  lemma {:induction false} ScannedRows(g: Grid, y: int)
    requires 1 <= y <= |g|
    ensures Scanned(g, y, 0) == GridBalls(g[..y - 1])
  {
    if y > 1 {
      ScannedRows(g, y - 1);
      ScannedThrough(g, y - 1);
    }
  }

  /** The scan up to the end of row `y` holds the balls of the rows up to `y`. */
  lemma ScannedThroughRow(g: Grid, y: int)
    requires 1 <= y <= |g|
    ensures Scanned(g, y, |g[y - 1]|) == GridBalls(g[..y])
  {
    ScannedRows(g, y);
    ScannedThrough(g, y);
  }

  /** Scanning all of row `y` adds its balls to those of the rows below it. */
  lemma ScannedThrough(g: Grid, y: int)
    requires 1 <= y <= |g|
    ensures Scanned(g, y, |g[y - 1]|) == Scanned(g, y, 0) + RowBalls(g[y - 1])
    ensures GridBalls(g[..y]) == GridBalls(g[..y - 1]) + RowBalls(g[y - 1])
  {
    ScannedRow(g, y, |g[y - 1]|);
    TakeAll(g[y - 1]);
    GridBallsTake(g, y);
  }

  lemma TakeAll(r: seq<Option<Ball>>)
    ensures r[..|r|] == r
  {
  }

  lemma GridBallsTake(g: Grid, y: int)
    requires 1 <= y <= |g|
    ensures GridBalls(g[..y]) == GridBalls(g[..y - 1]) + RowBalls(g[y - 1])
  {
    assert g[..y][..y - 1] == g[..y - 1];
  }

  /** Within row `y` the scan adds the balls of its first `x` cells. */
  lemma {:induction false} ScannedRow(g: Grid, y: int, x: int)
    requires 1 <= y <= |g| && 0 <= x <= |g[y - 1]|
    ensures Scanned(g, y, x) == Scanned(g, y, 0) + RowBalls(g[y - 1][..x])
  {
    if x > 0 {
      ScannedRow(g, y, x - 1);
      ScannedStep(g, y, x);
      RowBallsSnoc(g[y - 1], x);
      Associate(Scanned(g, y, 0), RowBalls(g[y - 1][..x - 1]), OptionBalls(g[y - 1][x - 1]));
    }
  }

  lemma ScannedStep(g: Grid, y: int, x: int)
    requires 1 <= y <= |g| && 0 < x <= |g[y - 1]|
    ensures Scanned(g, y, x) == Scanned(g, y, x - 1) + OptionBalls(g[y - 1][x - 1])
  {
  }

  lemma RowBallsSnoc(r: seq<Option<Ball>>, x: int)
    requires 0 < x <= |r|
    ensures RowBalls(r[..x]) == RowBalls(r[..x - 1]) + OptionBalls(r[x - 1])
  {
    assert r[..x][..x - 1] == r[..x - 1];
  }

  lemma {:induction false} RowBallsPrefix(r: seq<Option<Ball>>, j: int)
    requires 0 <= j <= |r|
    ensures RowBalls(r[..j]) <= RowBalls(r)
  {
    if j < |r| {
      var n := |r| - 1;
      RowBallsPrefix(r[..n], j);
      assert r[..n][..j] == r[..j];
    } else {
      assert r[..j] == r;
    }
  }

  lemma {:induction false} GridBallsPrefix(g: Grid, i: int)
    requires 0 <= i <= |g|
    ensures GridBalls(g[..i]) <= GridBalls(g)
  {
    if i < |g| {
      var n := |g| - 1;
      GridBallsPrefix(g[..n], i);
      assert g[..n][..i] == g[..i];
    } else {
      assert g[..i] == g;
    }
  }

  /** The balls met before cell (x + 1, y) in scan order are balls of the matrix. */
  lemma ScannedWithin(g: Grid, y: int, x: int)
    requires 1 <= y <= |g| && 0 <= x <= |g[y - 1]|
    ensures Scanned(g, y, x) <= GridBalls(g)
  {
    ScannedRows(g, y);
    ScannedRow(g, y, x);
    RowBallsPrefix(g[y - 1], x);
    GridBallsPrefix(g, y);
    assert g[..y][..y - 1] == g[..y - 1];
    assert GridBalls(g[..y]) == GridBalls(g[..y - 1]) + RowBalls(g[y - 1]);
  }

  /** The balls of the rows below row `y`. */
  ghost function Below(g: Grid, y: int): multiset<Ball>
    requires 1 <= y <= |g| + 1
  {
    if y == 1 then multiset{} else Scanned(g, y - 1, |g[y - 2]|)
  }

  /** The scan of row `y` starts from the balls below it and ends at those below row `y + 1`. */
  lemma BelowScanned(g: Grid, y: int)
    requires 1 <= y <= |g|
    ensures Scanned(g, y, 0) == Below(g, y) && Scanned(g, y, |g[y - 1]|) == Below(g, y + 1)
  {
  }

  /** Below the row past the top lie all the balls of the matrix. */
  lemma BelowAll(g: Grid, y: int)
    requires y == |g| + 1
    ensures Below(g, y) == GridBalls(g)
  {
    if y > 1 {
      ScannedThroughRow(g, y - 1);
      assert g[..y - 1] == g;
    }
  }

  /** In a placed matrix no ball is met twice by the scan. */
  lemma ScannedDistinct(g: Grid, y: int, x: int)
    requires Placed(g) && 1 <= y <= |g| && 0 <= x <= |g[y - 1]|
    ensures Distinct(Scanned(g, y, x))
  {
    GridBallsPlaced(g);
    ScannedWithin(g, y, x);
  }

  /** One cell further in the scan: the ball of cell (x, y), if any, joins the scanned balls, which stay distinct. */
  lemma ScannedNext(g: Grid, y: int, x: int, done: int)
    requires Placed(g) && 1 <= y <= |g| && 1 <= x <= |g[y - 1]| && done == x - 1
    ensures Holds(g, Point(x, y))
    ensures Distinct(Scanned(g, y, done + 1))
    ensures At(g, Point(x, y)).None? ==> Scanned(g, y, done + 1) == Scanned(g, y, done)
    ensures At(g, Point(x, y)).Some? ==> Scanned(g, y, done + 1) == Scanned(g, y, done) + multiset{At(g, Point(x, y)).value}
  {
    assert done + 1 == x && At(g, Point(x, y)) == g[y - 1][x - 1];
    ScannedDistinct(g, y, x);
    ScannedStep(g, y, x);
  }

  /** A row holds at most one ball per cell. */
  lemma {:induction false} RowBallsCount(r: seq<Option<Ball>>)
    ensures |RowBalls(r)| <= |r|
  {
    if r != [] {
      RowBallsCount(r[..|r| - 1]);
    }
  }

  // ---------------------------------------------------------------------------
  // Columns of colours, and the settled ("gravity") form of a column.

  function ColorOf(v: Option<Ball>): Option<Color>
  {
    if v.Some? then Some(v.value.color) else None
  }

  /** Column x seen from the bottom: element y-1 is the colour at (x, y). */
  function Column(g: Grid, x: int): (c: seq<Option<Color>>)
    ensures |c| == |g|
  {
    seq(|g|, i requires 0 <= i < |g| => if 1 <= x <= |g[i]| then ColorOf(g[i][x - 1]) else None)
  }

  lemma ColumnUpdate(g: Grid, p: Point, v: Option<Ball>, x: int)
    requires Holds(g, p)
    ensures Column(Update(g, p, v), x) == if x == p.x then Column(g, x)[p.y - 1 := ColorOf(v)] else Column(g, x)
  {
  }

  /** The column entry of a cell is the colour of the cell's ball. */
  lemma ColumnAt(g: Grid, p: Point)
    requires Holds(g, p)
    ensures Column(g, p.x)[p.y - 1] == ColorOf(At(g, p))
  {
  }

  /** Compressor._shift_ball on the matrix: `b` leaves its cell and `to` is set into its own. */
  function Moved(g: Grid, b: Ball, to: Ball): Grid
  {
    Update(Update(g, b.point, None), to.point, Some(to))
  }

  /** The number of occupied cells of a row. */
  function RowCount(r: seq<Option<Ball>>): nat
  {
    if r == [] then 0 else RowCount(r[..|r| - 1]) + (if r[|r| - 1].Some? then 1 else 0)
  }

  /** The number of balls standing on the matrix. */
  function BallCount(g: Grid): nat
  {
    if g == [] then 0 else BallCount(g[..|g| - 1]) + RowCount(g[|g| - 1])
  }

  lemma {:induction false} RowCountIsSize(r: seq<Option<Ball>>)
    ensures RowCount(r) == |RowBalls(r)|
  {
    if r != [] {
      RowCountIsSize(r[..|r| - 1]);
    }
  }

  /** Counting the occupied cells counts the balls of the matrix. */
  lemma {:induction false} BallCountIsSize(g: Grid)
    ensures BallCount(g) == |GridBalls(g)|
  {
    if g != [] {
      BallCountIsSize(g[..|g| - 1]);
      RowCountIsSize(g[|g| - 1]);
    }
  }

  /** Taking a ball out of its cell and setting a ball into another cell gains no ball. */
  lemma MoveKeepsCount(g: Grid, b: Ball, to: Ball)
    requires Holds(g, b.point) && Holds(g, to.point) && At(g, b.point) == Some(b)
    ensures BallCount(Moved(g, b, to)) <= BallCount(g)
  {
    var m := Update(g, b.point, None);
    GridBallsUpdate(g, b.point, None);
    GridBallsUpdate(m, to.point, Some(to));
    assert OptionBalls(At(g, b.point)) == multiset{b} && OptionBalls(None) == multiset{};
    assert GridBalls(m) + multiset{b} == GridBalls(g);
    var r := Update(m, to.point, Some(to));
    assert GridBalls(r) + OptionBalls(At(m, to.point)) == GridBalls(m) + multiset{to};
    assert |GridBalls(r) + OptionBalls(At(m, to.point))| == |GridBalls(r)| + |OptionBalls(At(m, to.point))|;
    BallCountIsSize(g);
    BallCountIsSize(r);
  }

  /** Moving a ball within column p.x changes that column in two cells and no other column. */
  lemma ColumnsAfterMove(g: Grid, p: Point, q: Point, b: Ball)
    requires Holds(g, p) && Holds(g, q) && p.x == q.x
    ensures var r := Update(Update(g, p, None), q, Some(b));
      && Column(r, p.x) == Column(g, p.x)[p.y - 1 := None][q.y - 1 := Some(b.color)]
      && forall x :: x != p.x ==> Column(r, x) == Column(g, x)
  {
    var m := Update(g, p, None);
    ColumnUpdate(g, p, None, p.x);
    ColumnUpdate(m, q, Some(b), p.x);
    forall x | x != p.x ensures Column(Update(m, q, Some(b)), x) == Column(g, x) {
      ColumnUpdate(g, p, None, x);
      ColumnUpdate(m, q, Some(b), x);
    }
  }

  /** The occupied entries of a column, in order. */
  function Somes(s: seq<Option<Color>>): (r: seq<Option<Color>>)
    ensures |r| <= |s|
  {
    if s == [] then []
    else Somes(s[..|s| - 1]) + (if s[|s| - 1].Some? then [s[|s| - 1]] else [])
  }

  function Nones(n: nat): (r: seq<Option<Color>>)
    ensures |r| == n
  {
    seq(n, _ => None)
  }

  /** The column once every ball has dropped as low as it can, keeping its order. */
  function Gravity(s: seq<Option<Color>>): seq<Option<Color>>
  {
    Somes(s) + Nones(|s| - |Somes(s)|)
  }

  /** No empty entry lies below an occupied one. */
  ghost predicate Settled(s: seq<Option<Color>>)
  {
    forall i, j :: 0 <= i < j < |s| && s[i].None? ==> s[j].None?
  }

  lemma {:induction false} SomesAppend(a: seq<Option<Color>>, b: seq<Option<Color>>)
    ensures Somes(a + b) == Somes(a) + Somes(b)
  {
    if b != [] {
      var n := |b| - 1;
      var ab := a + b;
      assert ab[..|ab| - 1] == a + b[..n];
      assert ab[|ab| - 1] == b[n];
      SomesAppend(a, b[..n]);
    } else {
      assert a + b == a;
    }
  }

  lemma {:induction false} SomesFacts(s: seq<Option<Color>>)
    ensures forall i :: 0 <= i < |Somes(s)| ==> Somes(s)[i].Some?
    ensures (forall i :: 0 <= i < |s| ==> s[i].None?) <==> Somes(s) == []
  {
    if s != [] {
      SomesFacts(s[..|s| - 1]);
      if Somes(s) == [] {
        forall i | 0 <= i < |s| ensures s[i].None? {
          if i < |s| - 1 {
            assert s[..|s| - 1][i] == s[i];
          }
        }
      }
    }
  }

  lemma {:induction false} SomesOfSettled(s: seq<Option<Color>>)
    requires Settled(s)
    ensures s == Somes(s) + Nones(|s| - |Somes(s)|)
  {
    if s != [] {
      var n := |s| - 1;
      assert s == s[..n] + [s[n]];
      assert Settled(s[..n]);
      SomesOfSettled(s[..n]);
      if s[n].Some? {
        assert forall i :: 0 <= i < n ==> s[..n][i].Some?;
        SomesAllOccupied(s[..n]);
        assert Somes(s) == s[..n] + [s[n]];
        assert Nones(0) == [];
      } else {
        assert Somes(s) == Somes(s[..n]);
        NonesSnoc(n - |Somes(s[..n])|);
      }
    }
  }

  lemma NonesSnoc(m: nat)
    ensures Nones(m) + [None] == Nones(m + 1)
  {
    assert forall i :: 0 <= i < m + 1 ==> (Nones(m) + [None])[i] == None;
  }

  lemma {:induction false} SomesAllOccupied(s: seq<Option<Color>>)
    requires forall i :: 0 <= i < |s| ==> s[i].Some?
    ensures Somes(s) == s
  {
    if s != [] {
      SomesAllOccupied(s[..|s| - 1]);
    }
  }

  /** Gravity keeps the balls of the column in their order. */
  lemma GravityKeepsBalls(s: seq<Option<Color>>)
    ensures |Gravity(s)| == |s|
    ensures Somes(Gravity(s)) == Somes(s)
  {
    var k := |Somes(s)|;
    SomesFacts(s);
    SomesAllOccupied(Somes(s));
    SomesAppend(Somes(s), Nones(|s| - k));
    SomesFacts(Nones(|s| - k));
  }

  /** No empty cell lies below a ball once gravity has acted. */
  lemma GravityIsSettled(s: seq<Option<Color>>)
    ensures Settled(Gravity(s))
  {
    SomesFacts(s);
  }

  /** Gravity changes nothing in a column that is settled already. */
  lemma GravityOfSettled(s: seq<Option<Color>>)
    requires Settled(s)
    ensures Gravity(s) == s
  {
    SomesOfSettled(s);
  }

  // ---------------------------------------------------------------------------
  // Board._remove_cluster_on_board on the matrix.

  /** The matrix with the cell of each ball of `bs` emptied, in the order of `bs`. */
  function Cleared(g: Grid, bs: seq<Ball>): (r: Grid)
    ensures |r| == |g| && forall i :: 0 <= i < |g| ==> |r[i]| == |g[i]|
  {
    if bs == [] then g else Update(Cleared(g, bs[..|bs| - 1]), bs[|bs| - 1].point, None)
  }

  /** Exactly the cells of the removed balls are emptied; every other cell keeps its content. */
  lemma {:induction false} ClearedCells(g: Grid, bs: seq<Ball>, q: Point)
    requires Holds(g, q)
    ensures At(Cleared(g, bs), q) == if exists k :: 0 <= k < |bs| && bs[k].point == q then None else At(g, q)
  {
    if bs != [] {
      var n := |bs| - 1;
      ClearedCells(g, bs[..n], q);
      if exists k :: 0 <= k < n && bs[..n][k].point == q {
        var k :| 0 <= k < n && bs[..n][k].point == q;
        assert bs[k].point == q;
      }
      if exists k :: 0 <= k < |bs| && bs[k].point == q {
        var k :| 0 <= k < |bs| && bs[k].point == q;
        if k < n {
          assert bs[..n][k].point == q;
        }
      }
    }
  }

  /** Emptying cells keeps every remaining ball at its own point. */
  lemma {:induction false} ClearedPlaced(g: Grid, bs: seq<Ball>)
    requires Placed(g)
    ensures Placed(Cleared(g, bs))
  {
    if bs != [] {
      ClearedPlaced(g, bs[..|bs| - 1]);
      UpdatePlaced(Cleared(g, bs[..|bs| - 1]), bs[|bs| - 1].point, None);
    }
  }

  /**
   * When the balls removed are balls of the matrix, the matrix loses exactly
   * those balls: each one once, and nothing else.
   */
  lemma {:induction false} ClearedBalls(g: Grid, bs: seq<Ball>)
    requires Placed(g) && multiset(bs) <= GridBalls(g)
    ensures GridBalls(Cleared(g, bs)) + multiset(bs) == GridBalls(g)
  {
    if bs != [] {
      var n := |bs| - 1;
      var b := bs[n];
      assert bs == bs[..n] + [b];
      assert multiset(bs) == multiset(bs[..n]) + multiset{b};
      ClearedBalls(g, bs[..n]);
      var before := Cleared(g, bs[..n]);
      ClearedPlaced(g, bs[..n]);
      ClearedOne(before, GridBalls(g), multiset(bs[..n]), b);
    }
  }

  /** One more removal: the ball left in the matrix is taken out of it. */
  lemma ClearedOne(before: Grid, total: multiset<Ball>, gone: multiset<Ball>, b: Ball)
    requires Placed(before) && GridBalls(before) + gone == total && gone + multiset{b} <= total
    ensures GridBalls(Update(before, b.point, None)) + (gone + multiset{b}) == total
  {
    assert b in GridBalls(before) by {
      assert total[b] >= gone[b] + 1;
      assert (GridBalls(before) + gone)[b] == total[b];
    }
    GridBallsPlaced(before);
    GridBallsUpdate(before, b.point, None);
    assert OptionBalls(At(before, b.point)) == multiset{b};
    assert OptionBalls(None) == multiset{};
    var after := GridBalls(Update(before, b.point, None));
    assert after + multiset{b} == GridBalls(before);
    assert after + (gone + multiset{b}) == (after + multiset{b}) + gone;
  }

  /** The matrix loses one ball per removed ball. */
  lemma ClearedCount(g: Grid, bs: seq<Ball>)
    requires Placed(g) && multiset(bs) <= GridBalls(g)
    ensures BallCount(Cleared(g, bs)) == BallCount(g) - |bs|
  {
    ClearedBalls(g, bs);
    BallCountIsSize(g);
    BallCountIsSize(Cleared(g, bs));
  }
}
