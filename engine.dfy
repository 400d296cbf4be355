/**
 * The board, the clusterization algorithm that groups its balls into
 * maximal clusters, and the compressors that close the gaps a removed
 * cluster leaves.
 */
module Engine {
  import opened Wrappers
  import opened Geometry
  import opened Grids
  import opened Clusters
  import opened Partitions
  import opened Shifts

  /** The two size errors Board._check_size raises. */
  datatype SizeError =
    | InvalidCountBoardRows(countRows: int, necessaryCountRows: int)
    | InvalidCountBoardColumns(countColumns: int, necessaryCountColumns: int)

  /** The values of a list of clusters. */
  ghost function Groups(cs: seq<Cluster>): (gs: seq<Group>)
    reads cs
    ensures |gs| == |cs| && forall k :: 0 <= k < |cs| ==> gs[k] == cs[k].Value()
  {
    seq(|cs|, k requires 0 <= k < |cs| reads cs => cs[k].Value())
  }

  /** No cluster object occurs twice in the list. */
  ghost predicate Independent(cs: seq<Cluster>)
  {
    forall i, j :: 0 <= i < j < |cs| ==> cs[i] != cs[j]
  }

  /** Valid, non-empty clusters. */
  ghost predicate Pool(cs: seq<Cluster>)
    reads cs
  {
    forall k :: 0 <= k < |cs| ==> cs[k].Valid() && cs[k].balls != []
  }

  /**
   * The clusters split the balls `m` between them, each ball in exactly one
   * cluster; the balls of each cluster are connected through nearby pairs,
   * and no two clusters could be merged any further: the clusters are the
   * same-colour connected components of `m` (see SameComponent). The scan of
   * build_clusters states it as `ClustersOf(..) == true`, which the verifier
   * keeps as one fact rather than re-proving each of its parts at each step.
   */
  ghost predicate ClustersOf(cs: seq<Cluster>, m: multiset<Ball>)
    reads cs
  {
    Pool(cs) && Independent(cs) && Sum(Groups(cs)) == m && Linked(Groups(cs)) && Separated(Groups(cs))
  }

  /** The indices below `n` not listed as merged. */
  ghost function Unmerged(n: int, merged: seq<int>): set<int>
  {
    set k | 0 <= k < n && k !in merged
  }

  lemma PrefixKeepsMembers(a: seq<int>, b: seq<int>)
    requires a <= b
    ensures forall k :: k in a ==> k in b
  {
    forall k | k in a ensures k in b {
      var i :| 0 <= i < |a| && a[i] == k;
      assert b[i] == k;
    }
  }

  lemma UnmergedMark(n: int, merged: seq<int>, j: int)
    requires 0 <= j < n && j !in merged
    ensures Unmerged(n, merged + [j]) < Unmerged(n, merged)
  {
    assert j in Unmerged(n, merged) && j !in Unmerged(n, merged + [j]);
  }

  lemma GroupsAppend(cs: seq<Cluster>, c: Cluster)
    ensures Groups(cs + [c]) == Groups(cs) + [c.Value()]
  {
    assert (cs + [c])[..|cs|] == cs;
  }

  /**
   * The clusters kept so far by a union pass over `cs`: each is the
   * cluster of `cs` at an index below `n`, taken in increasing index order,
   * valid, non-empty and with the value recorded in `us`.
   */
  ghost predicate Kept(cs: seq<Cluster>, kept: seq<Cluster>, indices: seq<int>, us: seq<Group>, n: int)
    reads kept
  {
    && |indices| == |kept| && KeptValues(kept, us)
    && (forall t :: 0 <= t < |indices| ==> 0 <= indices[t] < n && indices[t] < |cs| && kept[t] == cs[indices[t]])
    && (forall s, t :: 0 <= s < t < |indices| ==> indices[s] < indices[t])
  }

  /** The kept clusters are valid, non-empty and have the values `us`. */
  ghost predicate KeptValues(kept: seq<Cluster>, us: seq<Group>)
    reads kept
  {
    Pool(kept) && Groups(kept) == us
  }

  lemma KeptExcludes(cs: seq<Cluster>, kept: seq<Cluster>, indices: seq<int>, us: seq<Group>, n: int)
    requires Kept(cs, kept, indices, us, n) && Independent(cs) && 0 <= n <= |cs|
    ensures n < |cs| ==> cs[n] !in kept
    ensures Independent(kept)
  {
    forall t | 0 <= t < |kept| && n < |cs| ensures kept[t] != cs[n] {
      assert indices[t] < n;
    }
    forall s, t | 0 <= s < t < |kept| ensures kept[s] != kept[t] {
      assert indices[s] < indices[t];
    }
  }

  lemma KeptSkip(cs: seq<Cluster>, kept: seq<Cluster>, indices: seq<int>, us: seq<Group>, n: int)
    requires Kept(cs, kept, indices, us, n)
    ensures Kept(cs, kept, indices, us, n + 1)
  {
  }

  lemma KeptTake(cs: seq<Cluster>, kept: seq<Cluster>, indices: seq<int>, us: seq<Group>, n: int)
    requires Kept(cs, kept, indices, us, n) && 0 <= n < |cs|
    requires cs[n].Valid() && cs[n].balls != []
    ensures Kept(cs, kept + [cs[n]], indices + [n], us + [cs[n].Value()], n + 1)
  {
    GroupsAppend(kept, cs[n]);
  }

  /** At the end of a union pass the kept clusters split `total` and no two adjoin. */
  lemma KeptPartition(cs: seq<Cluster>, kept: seq<Cluster>, indices: seq<int>, us: seq<Group>, n: int, total: multiset<Ball>)
    requires Kept(cs, kept, indices, us, n) && Independent(cs) && 0 <= n <= |cs|
    requires Sum(us) == total && Linked(us) && Separated(us)
    ensures ClustersOf(kept, total)
    ensures forall t :: 0 <= t < |kept| ==> kept[t] in cs
  {
    KeptExcludes(cs, kept, indices, us, n);
  }

  /** Every index below `n` is listed. */
  ghost predicate Covered(merged: seq<int>, n: int)
  {
    forall k :: 0 <= k < n ==> k in merged
  }

  lemma CoveredStep(merged: seq<int>, n: int)
    requires Covered(merged, n) && n in merged
    ensures Covered(merged, n + 1)
  {
  }

  lemma CoveredGrows(merged: seq<int>, merged': seq<int>, n: int)
    requires Covered(merged, n) && merged <= merged' && n in merged'
    ensures Covered(merged', n + 1)
  {
    PrefixKeepsMembers(merged, merged');
  }

  /** A new valid cluster holding just `b`, appended to a partition of `m`, keeps it a pool whose balls grow by `b`. */
  lemma ClustersAppend(cs: seq<Cluster>, c: Cluster, b: Ball, m: multiset<Ball>, m': multiset<Ball>)
    requires ClustersOf(cs, m) && c !in cs && c.Valid() && c.balls == [b] && m' == m + multiset{b}
    ensures Pool(cs + [c]) && Independent(cs + [c])
    ensures Sum(Groups(cs + [c])) == m' && Linked(Groups(cs + [c]))
  {
    GroupsAppend(cs, c);
    SumAppend(Groups(cs), c.Value());
    assert multiset(c.balls) == multiset{b};
    SingleIsConnected(b);
    assert c.Value() == Group(b.color, [b]);
  }

  /** The same partition, of a multiset given by another expression. */
  lemma ClustersOfMoved(cs: seq<Cluster>, m: multiset<Ball>, m': multiset<Ball>)
    requires ClustersOf(cs, m) && m' == m
    ensures ClustersOf(cs, m')
  {
  }

  /**
   * Two nearby balls of one colour among the balls of a partition lie in
   * the same cluster. With every cluster connected, the clusters are
   * exactly the same-colour connected components of the balls.
   */
  lemma SameComponent(cs: seq<Cluster>, m: multiset<Ball>, b1: Ball, b2: Ball)
    requires ClustersOf(cs, m) && b1 in m && b2 in m
    requires b1.color == b2.color && IsNearby(b1, b2)
    ensures exists k :: 0 <= k < |cs| && b1 in cs[k].balls && b2 in cs[k].balls
    ensures forall k :: 0 <= k < |cs| ==> Connected(cs[k].Value())
  {
    var gs := Groups(cs);
    var a := SumFind(gs, b1);
    var b := SumFind(gs, b2);
    var i :| 0 <= i < |gs[a].balls| && gs[a].balls[i] == b1;
    var j :| 0 <= j < |gs[b].balls| && gs[b].balls[j] == b2;
    assert cs[a].Valid() && cs[b].Valid();
    assert gs[a].color == b1.color && gs[b].color == b2.color;
    NearbyShareGroup(gs, a, b, i, j);
  }

  /** The number of cells of the matrix (the source's sum of the row lengths). */
  function SumOfLengths(g: Grid): (n: nat)
  {
    if g == [] then 0 else SumOfLengths(g[..|g| - 1]) + |g[|g| - 1]|
  }

  /** Every cell holds at most one ball. */
  lemma {:induction false} SumOfLengthsBounds(g: Grid)
    ensures |GridBalls(g)| <= SumOfLengths(g)
  {
    if g != [] {
      SumOfLengthsBounds(g[..|g| - 1]);
      RowBallsCount(g[|g| - 1]);
    }
  }

  lemma {:induction false} SumOfLengthsShaped(g: Grid, rows: int, cols: int)
    requires Shaped(g, rows, cols)
    ensures SumOfLengths(g) == rows * cols
  {
    if g != [] {
      SumOfLengthsShaped(g[..|g| - 1], rows - 1, cols);
      assert (rows - 1) * cols + cols == rows * cols;
    }
  }

  /**
   * A cluster the board can remove and compress after: valid, non-empty,
   * and its balls at distinct cells of the board.
   */
  ghost predicate Removable(board: Board, cluster: Cluster)
    reads cluster
  {
    && cluster.Valid() && cluster.balls != []
    && (forall k :: 0 <= k < |cluster.balls| ==> board.Inside(cluster.balls[k].point))
    && (forall i, j :: 0 <= i < j < |cluster.balls| ==> cluster.balls[i].point != cluster.balls[j].point)
  }

  /** The points of a removable cluster are removed points: distinct and on rows from 1 up. */
  lemma RemovablePoints(board: Board, cluster: Cluster)
    requires Removable(board, cluster)
    ensures RemovedPoints(PointsOf(cluster.balls))
  {
    var pts := PointsOf(cluster.balls);
    assert forall k :: 0 <= k < |pts| ==> board.Inside(cluster.balls[k].point);
  }

  /** A cluster of a pool that splits the board's balls can be removed from the board. */
  lemma PooledIsRemovable(board: Board, cs: seq<Cluster>, g: Grid, k: int)
    requires Shaped(g, board.countRows, board.countColumns) && Placed(g)
    requires Pool(cs) && Sum(Groups(cs)) == GridBalls(g) && 0 <= k < |cs|
    ensures multiset(cs[k].balls) <= GridBalls(g)
    ensures Removable(board, cs[k])
  {
    assert cs[k].Valid() && cs[k].balls != [];
    SumHas(Groups(cs), k);
    BoardBallsApart(g, cs[k].balls, board.countRows, board.countColumns);
  }

  /** Balls taken from the board stand inside it, each in its own cell, no two at one point. */
  lemma BoardBallsApart(g: Grid, bs: seq<Ball>, rows: int, cols: int)
    requires Shaped(g, rows, cols) && Placed(g) && multiset(bs) <= GridBalls(g)
    ensures forall i :: 0 <= i < |bs| ==> 1 <= bs[i].point.x <= cols && 1 <= bs[i].point.y <= rows
    ensures forall i, j :: 0 <= i < j < |bs| ==> bs[i].point != bs[j].point
  {
    GridBallsPlaced(g);
    forall i | 0 <= i < |bs| ensures Holds(g, bs[i].point) && At(g, bs[i].point) == Some(bs[i]) {
      assert bs[i] in multiset(bs);
    }
    forall i, j | 0 <= i < j < |bs| ensures bs[i].point != bs[j].point {
      if bs[i].point == bs[j].point {
        assert bs[i] == bs[j];
        OccursTwice(bs, i, j);
        assert false;
      }
    }
  }

  /** A value listed twice in a sequence occurs at least twice in its multiset. */
  lemma OccursTwice<T>(s: seq<T>, i: int, j: int)
    requires 0 <= i < j < |s| && s[i] == s[j]
    ensures multiset(s)[s[i]] >= 2
  {
    assert s == s[..j] + s[j..];
    assert s[i] in s[..j] && s[j] in s[j..];
    assert multiset(s) == multiset(s[..j]) + multiset(s[j..]);
  }

  /** In a separated list of one-ball groups, two balls of one colour never touch. */
  lemma SingletonsDoNotTouch(gs: seq<Group>, a: Ball, b: Ball)
    requires Separated(gs) && a in Sum(gs) && b in Sum(gs) && a.color == b.color
    requires forall k :: 0 <= k < |gs| ==> |gs[k].balls| == 1 && gs[k].balls[0].color == gs[k].color
    ensures !IsNearby(a, b)
  {
    var i := SumFind(gs, a);
    var j := SumFind(gs, b);
    assert gs[i].balls[0] == a && gs[j].balls[0] == b;
    NearbyIsSymmetricAndOrthogonal(a, b);
    if i != j && IsNearby(a, b) {
      if i < j {
        assert Adjoins(gs[i], gs[j]) by {
          assert IsNearby(gs[j].balls[0], gs[i].balls[0]);
        }
      } else {
        assert Adjoins(gs[j], gs[i]) by {
          assert IsNearby(gs[i].balls[0], gs[j].balls[0]);
        }
      }
      assert false;
    }
  }

  class Board {
    var balls: Grid
    const countRows: int
    const countColumns: int
    var ballsRemaining: int
    var clusters: seq<Cluster>

    /** The matrix has the board's size and every ball stands at its own point. */
    ghost predicate Shape()
      reads this
    {
      Shaped(balls, countRows, countColumns) && Placed(balls)
    }

    /**
     * The counter bounds the balls on the board (it can exceed them, see
     * README), and the clusters partition those balls maximally.
     */
    ghost predicate Valid()
      reads this, clusters
    {
      && Shape()
      && |GridBalls(balls)| <= ballsRemaining
      && ClustersOf(clusters, GridBalls(balls))
    }

    /** The point names a cell of the board. */
    predicate Inside(p: Point)
    {
      1 <= p.x <= countColumns && 1 <= p.y <= countRows
    }

    lemma InsideHolds(p: Point)
      requires Shape() && Inside(p)
      ensures Holds(balls, p)
    {
      assert |balls[p.y - 1]| == countColumns;
    }

    /**
     * Board._check_size: the row count is checked first, then the rows in
     * order; the first row of the wrong length is reported.
     */
    static method CheckSize(balls: Grid, necessaryCountRows: int, necessaryCountColumns: int)
      returns (r: Outcome<SizeError>)
      ensures r.Pass? <==> Shaped(balls, necessaryCountRows, necessaryCountColumns)
      ensures |balls| != necessaryCountRows ==> r == Fail(InvalidCountBoardRows(|balls|, necessaryCountRows))
      ensures |balls| == necessaryCountRows && r.Fail? ==>
        exists i :: 0 <= i < |balls| && |balls[i]| != necessaryCountColumns
          && (forall k :: 0 <= k < i ==> |balls[k]| == necessaryCountColumns)
          && r.error == InvalidCountBoardColumns(|balls[i]|, necessaryCountColumns)
    {
      var countRows := |balls|;
      if countRows != necessaryCountRows {
        return Fail(InvalidCountBoardRows(countRows, necessaryCountRows));
      }
      var index := 0;
      while index < |balls|
        invariant 0 <= index <= |balls|
        invariant forall k :: 0 <= k < index ==> |balls[k]| == necessaryCountColumns
      {
        var countColumns := |balls[index]|;
        if countColumns != necessaryCountColumns {
          return Fail(InvalidCountBoardColumns(countColumns, necessaryCountColumns));
        }
        index := index + 1;
      }
      r := Pass;
    }

    /** The board after its size check: the counter starts at the number of cells. */
    constructor (balls: Grid, countRows: int, countColumns: int)
      requires Shaped(balls, countRows, countColumns) && Placed(balls)
      ensures Valid()
      ensures this.balls == balls && this.countRows == countRows && this.countColumns == countColumns
      ensures ballsRemaining == countRows * countColumns
      ensures forall k :: 0 <= k < |clusters| ==> fresh(clusters[k])
    {
      this.balls := balls;
      this.countRows := countRows;
      this.countColumns := countColumns;
      ballsRemaining := SumOfLengths(balls);
      clusters := [];
      new;
      SumOfLengthsShaped(balls, countRows, countColumns);
      SumOfLengthsBounds(balls);
      InitClusters();
    }

    /**
     * Board.__init__ with its size check: either the size error and no
     * board, or a valid board over exactly the given matrix.
     */
    static method Create(balls: Grid, countRows: int, countColumns: int)
      returns (r: Result<Board, SizeError>)
      requires Placed(balls)
      ensures r.Failure? <==> !Shaped(balls, countRows, countColumns)
      ensures |balls| != countRows ==> r == Failure(InvalidCountBoardRows(|balls|, countRows))
      ensures |balls| == countRows && r.Failure? ==>
        exists i :: 0 <= i < |balls| && |balls[i]| != countColumns
          && (forall k :: 0 <= k < i ==> |balls[k]| == countColumns)
          && r.error == InvalidCountBoardColumns(|balls[i]|, countColumns)
      ensures r.Success? ==> (fresh(r.value) && r.value.Valid() && r.value.balls == balls
        && r.value.countRows == countRows && r.value.countColumns == countColumns
        && r.value.ballsRemaining == countRows * countColumns)
    {
      var check := CheckSize(balls, countRows, countColumns);
      if check.Fail? {
        return Failure(check.error);
      }
      var board := new Board(balls, countRows, countColumns);
      r := Success(board);
    }

    /** Board._init_clusters: the clusters are rebuilt from the matrix. */
    method InitClusters()
      requires Shape() && |GridBalls(balls)| <= ballsRemaining
      modifies this`clusters
      ensures Valid()
      ensures forall k :: 0 <= k < |clusters| ==> fresh(clusters[k])
    {
      var algorithm := new ClusterizationAlgorithm(this);
      var result := algorithm.BuildClusters();
      SetClusters(result);
    }

    /** The board takes a partition of its balls as its clusters. */
    method SetClusters(result: seq<Cluster>)
      requires Shape() && |GridBalls(balls)| <= ballsRemaining && ClustersOf(result, GridBalls(balls))
      modifies this`clusters
      ensures Valid() && clusters == result
    {
      label Before:
      clusters := result;
      assert Groups(result) == old@Before(Groups(result));
      assert Pool(result) == old@Before(Pool(result));
    }

    /**
     * Board.remove_cluster: the cluster's balls leave the board and the
     * counter drops by their number, the gaps are compressed, and the
     * clusters are rebuilt from what remains.
     */
    method RemoveCluster(cluster: Cluster)
      requires Valid() && cluster in clusters
      modifies this`balls, this`ballsRemaining, this`clusters
      ensures Valid()
      ensures ballsRemaining == old(ballsRemaining) - |cluster.balls|
      ensures BallCount(balls) <= BallCount(old(balls)) - |cluster.balls|
      ensures Compressed(Cleared(old(balls), cluster.balls), balls, PointsOf(cluster.balls),
        cluster.PriorityBall().point.x, countColumns)
      ensures forall k :: 0 <= k < |clusters| ==> fresh(clusters[k])
    {
      ClusterIsRemovable(cluster);
      ClearAndCompress(cluster);
      InitClusters();
    }

    /**
     * The first two steps of Board.remove_cluster: the cluster's cells are
     * emptied, the counter drops by its count, and the gaps are compressed.
     */
    method ClearAndCompress(cluster: Cluster)
      requires Shape() && |GridBalls(balls)| <= ballsRemaining
      requires Removable(this, cluster) && multiset(cluster.balls) <= GridBalls(balls)
      modifies this`balls, this`ballsRemaining
      ensures Shape() && |GridBalls(balls)| <= ballsRemaining
      ensures ballsRemaining == old(ballsRemaining) - |cluster.balls|
      ensures BallCount(balls) <= BallCount(old(balls)) - |cluster.balls|
      ensures Compressed(Cleared(old(balls), cluster.balls), balls, PointsOf(cluster.balls),
        cluster.PriorityBall().point.x, countColumns)
    {
      ghost var g0 := balls;
      RemoveClusterOnBoard(cluster);
      ClearedPlaced(g0, cluster.balls);
      ClearedCount(g0, cluster.balls);
      BallCountIsSize(g0);
      Compress(cluster);
      BallCountIsSize(balls);
    }

    /** A cluster of the board holds balls of the board, standing at distinct cells inside it. */
    lemma ClusterIsRemovable(cluster: Cluster)
      requires Valid() && cluster in clusters
      ensures multiset(cluster.balls) <= GridBalls(balls)
      ensures Removable(this, cluster)
    {
      var k :| 0 <= k < |clusters| && clusters[k] == cluster;
      PooledIsRemovable(this, clusters, balls, k);
    }

    /** The board has no cluster left exactly when no ball is left on it. */
    lemma NoClusterIffEmpty()
      requires Valid()
      ensures clusters == [] <==> BallCount(balls) == 0
    {
      BallCountIsSize(balls);
      if clusters != [] {
        SumHas(Groups(clusters), 0);
        assert clusters[0].balls[0] in multiset(clusters[0].balls);
      }
    }

    /**
     * When every cluster is a single ball, no two balls of one colour touch:
     * no cluster of two or more balls can be formed any more.
     */
    lemma NoMoveLeft()
      requires Valid() && forall k :: 0 <= k < |clusters| ==> clusters[k].countBalls < 2
      ensures forall a, b :: a in GridBalls(balls) && b in GridBalls(balls) && a.color == b.color ==> !IsNearby(a, b)
    {
      var gs := Groups(clusters);
      forall k | 0 <= k < |gs| ensures |gs[k].balls| == 1 && gs[k].balls[0].color == gs[k].color {
        assert clusters[k].Valid() && clusters[k].balls != [];
      }
      forall a, b | a in GridBalls(balls) && b in GridBalls(balls) && a.color == b.color
        ensures !IsNearby(a, b)
      {
        SingletonsDoNotTouch(gs, a, b);
      }
    }

    /**
     * Board._remove_cluster_on_board: the cell of every ball of the cluster
     * is emptied and the counter drops by the cluster's count.
     */
    method RemoveClusterOnBoard(cluster: Cluster)
      requires cluster.Valid() && forall k :: 0 <= k < |cluster.balls| ==> Holds(balls, cluster.balls[k].point)
      modifies this`balls, this`ballsRemaining
      ensures balls == Cleared(old(balls), cluster.balls)
      ensures ballsRemaining == old(ballsRemaining) - |cluster.balls|
    {
      var countBalls := cluster.countBalls;
      var indexBall := 0;
      while indexBall < countBalls
        invariant 0 <= indexBall <= countBalls
        invariant balls == Cleared(old(balls), cluster.balls[..indexBall])
        invariant ballsRemaining == old(ballsRemaining)
      {
        var ball := cluster.balls[indexBall];
        assert cluster.balls[..indexBall + 1][..indexBall] == cluster.balls[..indexBall];
        RemoveBallOnBoard(ball);
        indexBall := indexBall + 1;
      }
      assert cluster.balls[..indexBall] == cluster.balls;
      ballsRemaining := ballsRemaining - countBalls;
    }

    /** Board._compress: the compression algorithm for the removed cluster runs on this board. */
    method Compress(cluster: Cluster)
      requires Shape() && Removable(this, cluster)
      modifies this`balls
      ensures Shape() && BallCount(balls) <= BallCount(old(balls))
      ensures Compressed(old(balls), balls, PointsOf(cluster.balls), cluster.PriorityBall().point.x, countColumns)
    {
      var algorithm := new CompressionAlgorithm(this, cluster);
      algorithm.Run();
    }

    /** Board.is_located_ball: the cell at the point is not empty. */
    predicate IsLocatedBall(point: Point)
      requires Holds(balls, point)
      reads this
    {
      At(balls, point).Some?
    }

    /** A cell is occupied exactly when some ball of the board stands at its point. */
    lemma IsLocatedBallFinds(point: Point)
      requires Shape() && Holds(balls, point)
      ensures IsLocatedBall(point) <==> exists b :: b in GridBalls(balls) && b.point == point
    {
      GridBallsPlaced(balls);
      if At(balls, point).Some? {
        GridBallsHas(balls, point);
      }
    }

    /** Board.get_ball_by_point: the ball of the board standing at the point, if any. */
    function GetBallByPoint(point: Point): (r: Option<Ball>)
      requires Shape() && Holds(balls, point)
      reads this
      ensures r == At(balls, point)
      ensures r.Some? ==> r.value.point == point
    {
      At(balls, point)
    }

    /** Board.set_ball_on_board: the cell at the point holds the ball, nothing else changes. */
    method SetBallOnBoard(ball: Ball, point: Point)
      requires Holds(balls, point)
      modifies this`balls
      ensures balls == Update(old(balls), point, Some(ball))
    {
      balls := balls[point.y - 1 := balls[point.y - 1][point.x - 1 := Some(ball)]];
    }

    /** Board.remove_ball_on_board: the cell at the ball's point is emptied, nothing else changes. */
    method RemoveBallOnBoard(ball: Ball)
      requires Holds(balls, ball.point)
      modifies this`balls
      ensures balls == Update(old(balls), ball.point, None)
    {
      var point := ball.point;
      balls := balls[point.y - 1 := balls[point.y - 1][point.x - 1 := None]];
    }
  }

  class ClusterizationAlgorithm {
    const board: Board
    var clusters: seq<Cluster>
    var indexMergedAtLeastOnceClusters: seq<int>

    constructor (board: Board)
      ensures this.board == board && clusters == [] && indexMergedAtLeastOnceClusters == []
    {
      this.board := board;
      clusters := [];
      indexMergedAtLeastOnceClusters := [];
    }

    /**
     * ClusterizationAlgorithm.build_clusters: every ball, in scan order,
     * starts a cluster of its own and the list is united again. The result
     * partitions the balls of the board into clusters no two of which adjoin.
     */
    method BuildClusters() returns (result: seq<Cluster>)
      requires board.Shape()
      modifies this
      ensures ClustersOf(result, GridBalls(board.balls))
      ensures forall k :: 0 <= k < |result| ==> fresh(result[k])
    {
      ghost var g := board.balls;
      clusters := [];
      var y := 1;
      while y <= board.countRows
        invariant 1 <= y <= board.countRows + 1
        invariant ClustersOf(clusters, Below(g, y)) == true
        invariant forall k :: 0 <= k < |clusters| ==> fresh(clusters[k])
      {
        ScanRow(y, g);
        y := y + 1;
      }
      BelowAll(g, y);
      result := clusters;
    }

    /** The inner loop of build_clusters: every cell of row `y`, left to right. */
    method ScanRow(y: int, ghost g: Grid)
      requires board.Shape() && g == board.balls && 1 <= y <= board.countRows
      requires ClustersOf(clusters, Below(g, y)) == true
      modifies this, clusters
      ensures ClustersOf(clusters, Below(g, y + 1)) == true
      ensures forall k :: 0 <= k < |clusters| ==> clusters[k] in old(clusters) || fresh(clusters[k])
    {
      BelowScanned(g, y);
      ScanCells(y, g, |g[y - 1]|);
    }

    /** The cells of row `y` from the first to the `width`-th. */
    method ScanCells(y: int, ghost g: Grid, ghost width: int)
      requires board.Shape() && g == board.balls && 1 <= y <= board.countRows
      requires width == |g[y - 1]| == board.countColumns
      requires ClustersOf(clusters, Scanned(g, y, 0)) == true
      modifies this, clusters
      ensures ClustersOf(clusters, Scanned(g, y, width)) == true
      ensures forall k :: 0 <= k < |clusters| ==> clusters[k] in old(clusters) || fresh(clusters[k])
    {
      var x := 1;
      ghost var done := 0;
      while x <= board.countColumns
        invariant 1 <= x <= board.countColumns + 1 && done == x - 1
        invariant ClustersOf(clusters, Scanned(g, y, done)) == true
        invariant forall k :: 0 <= k < |clusters| ==> clusters[k] in old(clusters) || fresh(clusters[k])
      {
        AddCell(x, y, g, done);
        done := done + 1;
        x := x + 1;
      }
      assert done == width;
    }

    /**
     * One step of the scan of build_clusters at (x, y): a ball there gets a
     * cluster of its own, appended to the list, and the list is united.
     */
    method AddCell(x: int, y: int, ghost g: Grid, ghost done: int)
      requires board.Shape() && g == board.balls
      requires 1 <= y <= board.countRows && 1 <= x <= board.countColumns && done == x - 1
      requires ClustersOf(clusters, Scanned(g, y, done))
      modifies this, clusters
      ensures ClustersOf(clusters, Scanned(g, y, done + 1))
      ensures forall k :: 0 <= k < |clusters| ==> clusters[k] in old(clusters) || fresh(clusters[k])
    {
      var point := Point(x, y);
      var ball := board.GetBallByPoint(point);
      ScannedNext(g, y, x, done);
      if ball.Some? {
        AppendCluster(ball.value, Scanned(g, y, done), Scanned(g, y, done + 1));
      } else {
        ClustersOfMoved(clusters, Scanned(g, y, done), Scanned(g, y, done + 1));
      }
    }

    /** A new cluster for `ball` is appended and the list is united; its balls grow by `ball`. */
    method AppendCluster(ball: Ball, ghost m: multiset<Ball>, ghost m': multiset<Ball>)
      requires ClustersOf(clusters, m) && m' == m + multiset{ball} && Distinct(m')
      modifies this, clusters
      ensures ClustersOf(clusters, m')
      ensures forall k :: 0 <= k < |clusters| ==> clusters[k] in old(clusters) || fresh(clusters[k])
    {
      PushCluster(ball, m, m');
      UnionClusters(m');
    }

    /** A new cluster holding just `ball` is appended to the list. */
    method PushCluster(ball: Ball, ghost m: multiset<Ball>, ghost m': multiset<Ball>)
      requires ClustersOf(clusters, m) && m' == m + multiset{ball}
      modifies this`clusters
      ensures Pool(clusters) && Independent(clusters) && Sum(Groups(clusters)) == m' && Linked(Groups(clusters))
      ensures |clusters| == |old(clusters)| + 1 && clusters[..|old(clusters)|] == old(clusters)
      ensures fresh(clusters[|old(clusters)|])
    {
      ghost var cs := clusters;
      var cluster := BuildClusterForBall(ball);
      clusters := clusters + [cluster];
      ClustersAppend(cs, cluster, ball, m, m');
    }

    /** ClusterizationAlgorithm._build_cluster_for_ball: a new cluster holding just the ball. */
    method BuildClusterForBall(ball: Ball) returns (cluster: Cluster)
      ensures fresh(cluster) && cluster.Valid()
      ensures cluster.color == ball.color && cluster.balls == [ball]
    {
      cluster := new Cluster(ball.color);
      var outcome := cluster.AddBall(ball);
    }

    /**
     * ClusterizationAlgorithm._union_clusters: each cluster not yet absorbed
     * absorbs every cluster it can reach; the survivors hold the same balls
     * and no two of them adjoin any more.
     */
    method UnionClusters(ghost total: multiset<Ball>)
      requires Pool(clusters) && Independent(clusters) && Sum(Groups(clusters)) == total && Distinct(total)
      requires Linked(Groups(clusters))
      modifies this, clusters
      ensures ClustersOf(clusters, total)
      ensures forall k :: 0 <= k < |clusters| ==> clusters[k] in old(clusters)
    {
      var unionClusters := UnionLoop(total);
      label United:
      clusters := unionClusters;
      assert Groups(unionClusters) == old@United(Groups(unionClusters));
      assert Pool(unionClusters) == old@United(Pool(unionClusters));
    }

    /**
     * The loop of _union_clusters: the clusters not absorbed by an earlier
     * one are kept, in order, after absorbing all they can reach.
     */
    method UnionLoop(ghost total: multiset<Ball>) returns (unionClusters: seq<Cluster>)
      requires Pool(clusters) && Independent(clusters) && Sum(Groups(clusters)) == total && Distinct(total)
      requires Linked(Groups(clusters))
      modifies this`indexMergedAtLeastOnceClusters, clusters
      ensures ClustersOf(unionClusters, total)
      ensures forall k :: 0 <= k < |unionClusters| ==> unionClusters[k] in clusters
    {
      ghost var cs := clusters;
      ghost var gs := Groups(clusters);
      indexMergedAtLeastOnceClusters := [];
      UnionPassStarts(gs, total);
      unionClusters := [];
      ghost var unionIndices: seq<int> := [];
      ghost var us: seq<Group> := [];
      var indexCluster := 0;
      while indexCluster < |clusters|
        invariant 0 <= indexCluster <= |cs|
        invariant UnionPass(cs, gs, total, unionClusters, unionIndices, us, indexCluster)
      {
        unionClusters, unionIndices, us := UnionStep(indexCluster, cs, gs, total, unionClusters, unionIndices, us);
        indexCluster := indexCluster + 1;
      }
      GatheredAtEnd(gs, us, indexMergedAtLeastOnceClusters, total);
      KeptPartition(cs, unionClusters, unionIndices, us, indexCluster, total);
    }

    /** The state of a union pass over the clusters `cs` of values `gs` before index `n`. */
    ghost predicate UnionPass(cs: seq<Cluster>, gs: seq<Group>, total: multiset<Ball>,
                              kept: seq<Cluster>, indices: seq<int>, us: seq<Group>, n: int)
      reads this, clusters, kept
    {
      && clusters == cs && 0 <= n <= |cs| && Distinct(total) && Independent(cs)
      && (forall k :: 0 <= k < |gs| ==> gs[k].balls != [])
      && Covered(indexMergedAtLeastOnceClusters, n)
      && Untouched(gs, null)
      && Kept(cs, kept, indices, us, n)
      && Gathered(gs, us, indexMergedAtLeastOnceClusters, total)
    }

    /** Before the loop of _union_clusters nothing is merged or kept. */
    lemma UnionPassStarts(gs: seq<Group>, total: multiset<Ball>)
      requires indexMergedAtLeastOnceClusters == [] && gs == Groups(clusters)
      requires Pool(clusters) && Independent(clusters) && Sum(gs) == total && Distinct(total) && Linked(gs)
      ensures UnionPass(clusters, gs, total, [], [], [], 0)
    {
      GatheredAtStart(gs);
    }

    /** One iteration of the loop of _union_clusters, at `indexCluster`. */
    method UnionStep(indexCluster: int, ghost cs: seq<Cluster>, ghost gs: seq<Group>, ghost total: multiset<Ball>,
                     kept: seq<Cluster>, ghost indices: seq<int>, ghost us: seq<Group>)
      returns (kept': seq<Cluster>, ghost indices': seq<int>, ghost us': seq<Group>)
      requires indexCluster < |clusters| && UnionPass(cs, gs, total, kept, indices, us, indexCluster)
      modifies this`indexMergedAtLeastOnceClusters, clusters[indexCluster]
      ensures UnionPass(cs, gs, total, kept', indices', us', indexCluster + 1)
    {
      var cluster := clusters[indexCluster];
      kept', indices', us' := kept, indices, us;
      if indexCluster !in indexMergedAtLeastOnceClusters {
        KeepCluster(indexCluster, gs, us, total, kept, indices);
        kept' := kept + [cluster];
        indices' := indices + [indexCluster];
        us' := us + [cluster.Value()];
      } else {
        CoveredStep(indexMergedAtLeastOnceClusters, indexCluster);
        KeptSkip(cs, kept, indices, us, indexCluster);
      }
    }

    /**
     * One step of _union_clusters on a cluster not merged yet: it absorbs
     * all it can reach and joins the kept clusters.
     */
    method KeepCluster(indexCluster: int, ghost gs: seq<Group>, ghost us: seq<Group>, ghost total: multiset<Ball>,
                       ghost kept: seq<Cluster>, ghost indices: seq<int>)
      requires 0 <= indexCluster < |clusters| && indexCluster !in indexMergedAtLeastOnceClusters
      requires Untouched(gs, null) && Independent(clusters) && Distinct(total)
      requires Covered(indexMergedAtLeastOnceClusters, indexCluster)
      requires Gathered(gs, us, indexMergedAtLeastOnceClusters, total)
      requires Kept(clusters, kept, indices, us, indexCluster) && gs[indexCluster].balls != []
      modifies this`indexMergedAtLeastOnceClusters, clusters[indexCluster]
      ensures Untouched(gs, null)
      ensures Covered(indexMergedAtLeastOnceClusters, indexCluster + 1)
      ensures Gathered(gs, us + [clusters[indexCluster].Value()], indexMergedAtLeastOnceClusters, total)
      ensures Kept(clusters, kept + [clusters[indexCluster]], indices + [indexCluster], us + [clusters[indexCluster].Value()], indexCluster + 1)
    {
      KeptExcludes(clusters, kept, indices, us, indexCluster);
      AbsorbReachable(indexCluster, gs, us, total);
      KeptTake(clusters, kept, indices, us, indexCluster);
    }

    /**
     * The cluster at `indexCluster`, not merged yet, is marked merged and
     * absorbs every cluster it can reach; it is then apart from every
     * cluster still unmerged.
     */
    method AbsorbReachable(indexCluster: int, ghost gs: seq<Group>, ghost us: seq<Group>, ghost total: multiset<Ball>)
      requires 0 <= indexCluster < |clusters| && indexCluster !in indexMergedAtLeastOnceClusters
      requires Untouched(gs, null) && Independent(clusters) && Distinct(total)
      requires Covered(indexMergedAtLeastOnceClusters, indexCluster)
      requires Gathered(gs, us, indexMergedAtLeastOnceClusters, total) && gs[indexCluster].balls != []
      modifies this`indexMergedAtLeastOnceClusters, clusters[indexCluster]
      ensures Untouched(gs, null)
      ensures Covered(indexMergedAtLeastOnceClusters, indexCluster + 1)
      ensures clusters[indexCluster].Valid() && clusters[indexCluster].balls != []
      ensures Gathered(gs, us + [clusters[indexCluster].Value()], indexMergedAtLeastOnceClusters, total)
    {
      var cluster := clusters[indexCluster];
      StartAbsorbing(gs, us, indexMergedAtLeastOnceClusters, total, indexCluster);
      ghost var merged := indexMergedAtLeastOnceClusters;
      indexMergedAtLeastOnceClusters := indexMergedAtLeastOnceClusters + [indexCluster];
      MergeClusterWithAllPossible(cluster, gs, us, total);
      CoveredGrows(merged, indexMergedAtLeastOnceClusters, indexCluster);
      FinishAbsorbing(gs, us, cluster.Value(), indexMergedAtLeastOnceClusters, total);
    }

    /**
     * The clusters not yet merged are valid, differ from `cluster` and still
     * hold the values `gs` they had when the union pass started.
     */
    ghost predicate Untouched(gs: seq<Group>, cluster: Cluster?)
      reads this, clusters
    {
      && |gs| == |clusters|
      && (forall k :: k in indexMergedAtLeastOnceClusters ==> 0 <= k < |clusters|)
      && forall k :: 0 <= k < |clusters| && k !in indexMergedAtLeastOnceClusters ==>
           clusters[k] != cluster && clusters[k].Valid() && clusters[k].Value() == gs[k]
    }

    /**
     * ClusterizationAlgorithm._merge_cluster_with_all_possible: passes over
     * the list are repeated while one of them merged something. Afterwards
     * no unmerged cluster adjoins `cluster`, no ball was lost or duplicated,
     * and it still adjoins none of the clusters kept earlier.
     */
    method MergeClusterWithAllPossible(cluster: Cluster, ghost gs: seq<Group>, ghost us: seq<Group>, ghost total: multiset<Ball>)
      requires Untouched(gs, cluster) && cluster.Valid() && cluster.balls != []
      requires Distinct(total) && Absorbing(gs, us, cluster.Value(), indexMergedAtLeastOnceClusters, total)
      modifies this`indexMergedAtLeastOnceClusters, cluster
      ensures Untouched(gs, cluster) && cluster.Valid() && cluster.balls != []
      ensures old(indexMergedAtLeastOnceClusters) <= indexMergedAtLeastOnceClusters
      ensures Absorbing(gs, us, cluster.Value(), indexMergedAtLeastOnceClusters, total)
      ensures forall j :: 0 <= j < |gs| && j !in indexMergedAtLeastOnceClusters ==> !Adjoins(gs[j], cluster.Value())
    {
      var isMergedAtLeastOnceClusters := false;
      var isFirstStep := true;
      while isFirstStep || isMergedAtLeastOnceClusters
        invariant Untouched(gs, cluster) && cluster.Valid() && cluster.balls != []
        invariant old(indexMergedAtLeastOnceClusters) <= indexMergedAtLeastOnceClusters
        invariant Absorbing(gs, us, cluster.Value(), indexMergedAtLeastOnceClusters, total)
        invariant !isFirstStep && !isMergedAtLeastOnceClusters ==>
          forall j :: 0 <= j < |gs| && j !in indexMergedAtLeastOnceClusters ==> !Adjoins(gs[j], cluster.Value())
        decreases Unmerged(|gs|, indexMergedAtLeastOnceClusters), if isFirstStep || isMergedAtLeastOnceClusters then 1 else 0
      {
        isFirstStep := false;
        isMergedAtLeastOnceClusters := MergePass(cluster, gs, us, total);
      }
    }

    /**
     * One pass of the do-while loop of _merge_cluster_with_all_possible:
     * `cluster` absorbs every unmerged cluster that can belong to it, in
     * list order, marking each merged. A pass that merges nothing leaves
     * every unmerged cluster apart from `cluster`.
     */
    method MergePass(cluster: Cluster, ghost gs: seq<Group>, ghost us: seq<Group>, ghost total: multiset<Ball>)
      returns (isMergedAtLeastOnceClusters: bool)
      requires Untouched(gs, cluster) && cluster.Valid() && cluster.balls != []
      requires Distinct(total) && Absorbing(gs, us, cluster.Value(), indexMergedAtLeastOnceClusters, total)
      modifies this`indexMergedAtLeastOnceClusters, cluster
      ensures Untouched(gs, cluster) && cluster.Valid() && cluster.balls != []
      ensures old(indexMergedAtLeastOnceClusters) <= indexMergedAtLeastOnceClusters
      ensures Absorbing(gs, us, cluster.Value(), indexMergedAtLeastOnceClusters, total)
      ensures isMergedAtLeastOnceClusters ==>
        Unmerged(|gs|, indexMergedAtLeastOnceClusters) < old(Unmerged(|gs|, indexMergedAtLeastOnceClusters))
      ensures !isMergedAtLeastOnceClusters ==> indexMergedAtLeastOnceClusters == old(indexMergedAtLeastOnceClusters)
      ensures !isMergedAtLeastOnceClusters ==>
        forall j :: 0 <= j < |gs| && j !in indexMergedAtLeastOnceClusters ==> !Adjoins(gs[j], cluster.Value())
    {
      ghost var before := Unmerged(|gs|, indexMergedAtLeastOnceClusters);
      isMergedAtLeastOnceClusters := false;
      var indexOtherCluster := 0;
      while indexOtherCluster < |clusters|
        invariant 0 <= indexOtherCluster <= |gs|
        invariant Untouched(gs, cluster) && cluster.Valid() && cluster.balls != []
        invariant old(indexMergedAtLeastOnceClusters) <= indexMergedAtLeastOnceClusters
        invariant Absorbing(gs, us, cluster.Value(), indexMergedAtLeastOnceClusters, total)
        invariant Unmerged(|gs|, indexMergedAtLeastOnceClusters) <= before
        invariant isMergedAtLeastOnceClusters ==> Unmerged(|gs|, indexMergedAtLeastOnceClusters) < before
        invariant !isMergedAtLeastOnceClusters ==> indexMergedAtLeastOnceClusters == old(indexMergedAtLeastOnceClusters)
        invariant !isMergedAtLeastOnceClusters ==>
          forall j :: 0 <= j < indexOtherCluster && j !in indexMergedAtLeastOnceClusters ==> !Adjoins(gs[j], cluster.Value())
      {
        var otherCluster := clusters[indexOtherCluster];
        if indexOtherCluster !in indexMergedAtLeastOnceClusters {
          if otherCluster.CanBelong(cluster) {
            Absorb(cluster, otherCluster, indexOtherCluster, gs, us, total);
            isMergedAtLeastOnceClusters := true;
          }
        }
        indexOtherCluster := indexOtherCluster + 1;
      }
    }

    /**
     * The merging step of _merge_cluster_with_all_possible: `cluster`
     * absorbs the unmerged cluster at index `indexOtherCluster`, which can
     * belong to it, and that index is marked merged.
     */
    method Absorb(cluster: Cluster, otherCluster: Cluster, indexOtherCluster: int,
                  ghost gs: seq<Group>, ghost us: seq<Group>, ghost total: multiset<Ball>)
      requires Untouched(gs, cluster) && cluster.Valid() && cluster.balls != []
      requires 0 <= indexOtherCluster < |gs| && indexOtherCluster !in indexMergedAtLeastOnceClusters
      requires otherCluster == clusters[indexOtherCluster] && otherCluster.CanBelong(cluster)
      requires Distinct(total) && Absorbing(gs, us, cluster.Value(), indexMergedAtLeastOnceClusters, total)
      modifies this`indexMergedAtLeastOnceClusters, cluster
      ensures Untouched(gs, cluster) && cluster.Valid() && cluster.balls != []
      ensures indexMergedAtLeastOnceClusters == old(indexMergedAtLeastOnceClusters) + [indexOtherCluster]
      ensures Absorbing(gs, us, cluster.Value(), indexMergedAtLeastOnceClusters, total)
      ensures Unmerged(|gs|, indexMergedAtLeastOnceClusters) < Unmerged(|gs|, old(indexMergedAtLeastOnceClusters))
    {
      ghost var merged := indexMergedAtLeastOnceClusters;
      ghost var cv := cluster.Value();
      ghost var absorbed := Group(cv.color, AppendNew(cv.balls, gs[indexOtherCluster].balls));
      AbsorbOne(gs, us, cv, merged, total, indexOtherCluster);
      UnmergedMark(|gs|, merged, indexOtherCluster);
      var outcome := cluster.Merge(otherCluster);
      assert cluster.Value() == absorbed;
      indexMergedAtLeastOnceClusters := indexMergedAtLeastOnceClusters + [indexOtherCluster];
    }
  }

  /**
   * Compressor with VerticallyCompressor and HorizontallyCompressor: the
   * two subclasses differ only in the axis they walk, so one class carries
   * the axis and the shared methods branch on it where a subclass would
   * override them.
   */
  class Compressor {
    const board: Board
    const cluster: Cluster
    const axis: Axis
    var accumulativeOffset: int

    constructor (board: Board, cluster: Cluster, axis: Axis)
      ensures this.board == board && this.cluster == cluster && this.axis == axis
      ensures accumulativeOffset == 0
    {
      this.board := board;
      this.cluster := cluster;
      this.axis := axis;
      accumulativeOffset := 0;
    }

    /** _get_max_parametric_coordinate. */
    function MaxParametric(): int
    {
      MaxParametricCoordinate(axis, board.countRows, board.countColumns)
    }

    /**
     * Compressor._calc_left_border_shift_range: the first occupied cell
     * from the start point on, short of the last cell of the line.
     */
    method CalcLeftBorderShiftRange(startPoint: Point) returns (r: Option<int>)
      requires board.Shape() && board.Inside(startPoint)
      ensures r == LeftBorderOf(board.balls, axis, FixedCoordinate(axis, startPoint),
                                ParametricCoordinate(axis, startPoint), MaxParametric())
    {
      var startParametricCoordinate := ParametricCoordinate(axis, startPoint);
      var fixedCoordinate := FixedCoordinate(axis, startPoint);
      var maxParametricCoordinate := MaxParametric();
      var parametricCoordinate := startParametricCoordinate;
      while parametricCoordinate <= maxParametricCoordinate
        invariant startParametricCoordinate <= parametricCoordinate
        invariant LeftBorderOf(board.balls, axis, fixedCoordinate, parametricCoordinate, maxParametricCoordinate)
               == LeftBorderOf(board.balls, axis, fixedCoordinate, startParametricCoordinate, maxParametricCoordinate)
        decreases maxParametricCoordinate - parametricCoordinate
      {
        if parametricCoordinate == maxParametricCoordinate {
          return None;
        }
        var parametricPoint := ParametricPoint(axis, parametricCoordinate, fixedCoordinate);
        board.InsideHolds(parametricPoint);
        if board.IsLocatedBall(parametricPoint) {
          return Some(parametricCoordinate);
        }
        parametricCoordinate := parametricCoordinate + 1;
      }
      return None;
    }

    /**
     * Compressor._calc_right_border_shift_range: the last cell of the
     * occupied run that follows the start point.
     */
    method CalcRightBorderShiftRange(startPoint: Point) returns (r: Option<int>)
      requires board.Shape() && board.Inside(startPoint)
      ensures r == RightBorderOf(board.balls, axis, FixedCoordinate(axis, startPoint),
                                 ParametricCoordinate(axis, startPoint), MaxParametric())
    {
      var startParametricCoordinate := ParametricCoordinate(axis, startPoint);
      var fixedCoordinate := FixedCoordinate(axis, startPoint);
      var maxParametricCoordinate := MaxParametric();
      var parametricCoordinate := startParametricCoordinate + 1;
      while parametricCoordinate <= maxParametricCoordinate
        invariant startParametricCoordinate + 1 <= parametricCoordinate
        invariant startParametricCoordinate + 1 <= maxParametricCoordinate ==>
          && parametricCoordinate <= maxParametricCoordinate
          && RightBorderFrom(board.balls, axis, fixedCoordinate, parametricCoordinate, maxParametricCoordinate)
             == RightBorderFrom(board.balls, axis, fixedCoordinate, startParametricCoordinate + 1, maxParametricCoordinate)
        decreases maxParametricCoordinate - parametricCoordinate
      {
        var parametricPoint := ParametricPoint(axis, parametricCoordinate, fixedCoordinate);
        board.InsideHolds(parametricPoint);
        if !board.IsLocatedBall(parametricPoint) {
          return Some(parametricCoordinate - 1);
        }
        if parametricCoordinate == maxParametricCoordinate {
          return Some(parametricCoordinate);
        }
        parametricCoordinate := parametricCoordinate + 1;
      }
      return None;
    }

    /** Compressor._build_shift_range. */
    method BuildShiftRange(startPoint: Point) returns (r: Option<ShiftRange>)
      requires board.Shape() && board.Inside(startPoint)
      ensures r == ShiftRangeOf(board.balls, axis, startPoint, MaxParametric())
    {
      var leftBorder := CalcLeftBorderShiftRange(startPoint);
      if leftBorder.None? {
        return None;
      }
      LeftBorderOfFacts(board.balls, axis, FixedCoordinate(axis, startPoint),
                        ParametricCoordinate(axis, startPoint), MaxParametric());
      var fixedCoordinate := FixedCoordinate(axis, startPoint);
      var startPointForRightBorder := ParametricPoint(axis, leftBorder.value, fixedCoordinate);
      var rightBorder := CalcRightBorderShiftRange(startPointForRightBorder);
      if rightBorder.None? {
        return None;
      }
      var offset := leftBorder.value - ParametricCoordinate(axis, startPoint);
      return Some(ShiftRange(leftBorder.value, rightBorder.value, offset));
    }

    /**
     * Compressor._shift_ball: the ball leaves its cell and is set
     * `accumulativeOffset` cells back along the axis; no ball is gained.
     */
    method ShiftBall(ball: Ball)
      requires board.Shape() && Holds(board.balls, ball.point) && At(board.balls, ball.point) == Some(ball)
      requires board.Inside(ShiftInDirection(axis, ball, accumulativeOffset).point)
      modifies board`balls
      ensures board.Shape()
      ensures board.balls == Moved(old(board.balls), ball, ShiftInDirection(axis, ball, accumulativeOffset))
      ensures BallCount(board.balls) <= BallCount(old(board.balls))
    {
      ghost var g := board.balls;
      board.RemoveBallOnBoard(ball);
      var shifted := ShiftInDirection(axis, ball, accumulativeOffset);
      board.InsideHolds(shifted.point);
      board.SetBallOnBoard(shifted, shifted.point);
      ghost var m := Update(g, ball.point, None);
      UpdatePlaced(g, ball.point, None);
      UpdatePlaced(m, shifted.point, Some(shifted));
      MoveKeepsCount(g, ball, shifted);
    }

    /**
     * VerticallyCompressor._shift_balls: walking up from the left border,
     * every empty cell adds one to the offset and every ball drops by the
     * offset, so the column settles from the start point up when a ball
     * stands below its top row. No other column changes and no ball is gained.
     */
    method ShiftBallsVertically(shiftRange: ShiftRange, startPoint: Point)
      requires axis == Vertical && board.Shape() && board.Inside(startPoint)
      requires ShiftRangeOf(board.balls, Vertical, startPoint, board.countRows) == Some(shiftRange)
      modifies this`accumulativeOffset, board`balls
      ensures board.Shape() && BallCount(board.balls) <= BallCount(old(board.balls))
      ensures Column(board.balls, startPoint.x) == Settle(Column(old(board.balls), startPoint.x), startPoint.y)
      ensures forall x :: x != startPoint.x ==> Column(board.balls, x) == Column(old(board.balls), x)
    {
      ghost var g0 := board.balls;
      WalkingStart(g0, startPoint, board.countColumns, shiftRange);
      var fixedCoordinate := FixedCoordinate(axis, startPoint);
      accumulativeOffset := shiftRange.offset;
      var startCoordinate := shiftRange.leftBorder;
      ghost var walked := WalkUp(g0, fixedCoordinate, startCoordinate, accumulativeOffset).0;
      ghost var offset0 := accumulativeOffset;
      var offsetCoordinate := startCoordinate;
      while offsetCoordinate <= MaxParametric()
        invariant 1 <= offsetCoordinate <= board.countRows + 1 && 0 <= accumulativeOffset < offsetCoordinate
        invariant board.Shape()
        invariant WalkUp(board.balls, fixedCoordinate, offsetCoordinate, accumulativeOffset).0 == walked
        decreases board.countRows - offsetCoordinate
      {
        WalkUpStep(board.balls, fixedCoordinate, offsetCoordinate, accumulativeOffset);
        ShiftAtVertically(offsetCoordinate, fixedCoordinate);
        offsetCoordinate := offsetCoordinate + 1;
      }
      assert board.balls == walked;
      WalkUpSettles(g0, g0, fixedCoordinate, startPoint.y - 1, startCoordinate, offset0, board.countColumns);
      WalkUpKeepsCount(g0, fixedCoordinate, startCoordinate, offset0, board.countColumns);
    }

    /**
     * One pass of the loop of VerticallyCompressor._shift_balls, at row
     * `offsetCoordinate` of column `fixedCoordinate`.
     */
    method ShiftAtVertically(offsetCoordinate: int, fixedCoordinate: int)
      requires axis == Vertical && board.Shape() && board.Inside(Point(fixedCoordinate, offsetCoordinate))
      requires 0 <= accumulativeOffset < offsetCoordinate
      modifies this`accumulativeOffset, board`balls
      ensures board.Shape() && 0 <= accumulativeOffset < offsetCoordinate + 1
      ensures (board.balls, accumulativeOffset) == WalkUpOne(old(board.balls), fixedCoordinate, offsetCoordinate, old(accumulativeOffset))
    {
      var point := ParametricPoint(axis, offsetCoordinate, fixedCoordinate);
      board.InsideHolds(point);
      var ball := board.GetBallByPoint(point);
      if ball.None? {
        accumulativeOffset := accumulativeOffset + 1;
      } else {
        ShiftBall(ball.value);
      }
    }

    /**
     * HorizontallyCompressor._shift_balls: the offset grows by the range's
     * offset, then the bottom run of every column of the range moves that
     * many columns left.
     */
    method ShiftBallsHorizontally(shiftRange: ShiftRange, startPoint: Point)
      requires axis == Horizontal && board.Shape() && board.Inside(startPoint)
      requires ShiftRangeOf(board.balls, Horizontal, startPoint, board.countColumns) == Some(shiftRange)
      requires 0 <= accumulativeOffset < startPoint.x
      modifies this`accumulativeOffset, board`balls
      ensures board.Shape() && BallCount(board.balls) <= BallCount(old(board.balls))
      ensures accumulativeOffset == old(accumulativeOffset) + shiftRange.offset
      ensures board.balls == Slid(old(board.balls), shiftRange.leftBorder, shiftRange.rightBorder, accumulativeOffset)
    {
      ShiftRangeBounds(board.balls, Horizontal, startPoint, board.countColumns);
      accumulativeOffset := accumulativeOffset + shiftRange.offset;
      var startCoordinate := shiftRange.leftBorder;
      var finishCoordinate := shiftRange.rightBorder;
      ShiftColumnsHorizontally(startCoordinate, finishCoordinate);
    }

    /** The outer loop of HorizontallyCompressor._shift_balls, over the columns [startCoordinate, finishCoordinate]. */
    method ShiftColumnsHorizontally(startCoordinate: int, finishCoordinate: int)
      requires axis == Horizontal && board.Shape()
      requires 1 <= startCoordinate <= finishCoordinate <= board.countColumns
      requires 0 <= accumulativeOffset < startCoordinate
      modifies board`balls
      ensures board.Shape() && BallCount(board.balls) <= BallCount(old(board.balls))
      ensures board.balls == Slid(old(board.balls), startCoordinate, finishCoordinate, accumulativeOffset)
    {
      ghost var g0 := board.balls;
      ghost var slid := SlideColumns(g0, startCoordinate, finishCoordinate, accumulativeOffset);
      var offsetCoordinate := startCoordinate;
      while offsetCoordinate <= finishCoordinate
        invariant startCoordinate <= offsetCoordinate <= finishCoordinate + 1
        invariant board.Shape() && BallCount(board.balls) <= BallCount(g0)
        invariant SlideColumns(board.balls, offsetCoordinate, finishCoordinate, accumulativeOffset) == slid
      {
        SlideColumnsStep(board.balls, offsetCoordinate, finishCoordinate, accumulativeOffset);
        ShiftColumnHorizontally(offsetCoordinate);
        offsetCoordinate := offsetCoordinate + 1;
      }
      assert board.balls == slid;
      SlideColumnsSlides(g0, startCoordinate, finishCoordinate, accumulativeOffset, board.countColumns);
    }

    /**
     * One pass of the outer loop of HorizontallyCompressor._shift_balls:
     * column `offsetCoordinate` is walked up from row 1 until its first
     * empty cell, each ball moving `accumulativeOffset` columns left.
     */
    method ShiftColumnHorizontally(offsetCoordinate: int)
      requires axis == Horizontal && board.Shape()
      requires 1 <= offsetCoordinate <= board.countColumns && 0 <= accumulativeOffset < offsetCoordinate
      modifies board`balls
      ensures board.Shape() && BallCount(board.balls) <= BallCount(old(board.balls))
      ensures board.balls == SlideColumn(old(board.balls), offsetCoordinate, 1, accumulativeOffset)
    {
      ghost var walked := SlideColumn(board.balls, offsetCoordinate, 1, accumulativeOffset);
      var coordinateY := 1;
      while coordinateY <= board.countRows
        invariant 1 <= coordinateY <= board.countRows + 1
        invariant board.Shape() && BallCount(board.balls) <= BallCount(old(board.balls))
        invariant SlideColumn(board.balls, offsetCoordinate, coordinateY, accumulativeOffset) == walked
      {
        var point := ParametricPoint(axis, offsetCoordinate, coordinateY);
        board.InsideHolds(point);
        var ball := board.GetBallByPoint(point);
        if ball.None? {
          break;
        }
        SlideColumnStep(board.balls, offsetCoordinate, coordinateY, accumulativeOffset, ball.value);
        ShiftBall(ball.value);
        coordinateY := coordinateY + 1;
      }
    }

    /**
     * VerticallyCompressor._get_start_points_in_empty_ranges: one start
     * point per column that held a removed ball, the lowest of them.
     */
    method GetStartPointsVertically() returns (startPoints: seq<Point>)
      requires Removable(board, cluster)
      ensures LowestPerColumn(startPoints, PointsOf(cluster.balls))
    {
      ghost var pts := PointsOf(cluster.balls);
      RemovablePoints(board, cluster);
      startPoints := [cluster.balls[0].point];
      assert LowestPerColumn([], pts[..0]) by {
        assert pts[..0] == [];
        assert forall x :: LowestRow([], x) == 0;
      }
      StartGroundNext([], pts, 0);
      AddStartPointNew([], [], cluster.balls[0].point);
      var indexBall := 1;
      while indexBall < cluster.countBalls
        invariant 1 <= indexBall <= |cluster.balls|
        invariant LowestPerColumn(startPoints, pts[..indexBall])
      {
        var point := cluster.balls[indexBall].point;
        StartGroundNext(startPoints, pts, indexBall);
        startPoints := AddStartPoint(startPoints, point, pts[..indexBall]);
        indexBall := indexBall + 1;
      }
      assert pts[..indexBall] == pts;
    }

    /**
     * The inner loop of VerticallyCompressor._get_start_points_in_empty_ranges:
     * the point is appended; then the first start point of its column, if
     * any, is dropped when the new point lies lower, and otherwise the new
     * point is dropped again.
     */
    static method AddStartPoint(startPoints: seq<Point>, point: Point, ghost pts: seq<Point>) returns (r: seq<Point>)
      requires StartGround(startPoints, pts, point)
      ensures LowestPerColumn(r, pts + [point])
    {
      r := startPoints + [point];
      var indexStartPoint := 0;
      while indexStartPoint < |r|
        invariant 0 <= indexStartPoint <= |startPoints| + 1 && r == startPoints + [point]
        invariant forall i :: 0 <= i < indexStartPoint && i < |startPoints| ==> startPoints[i].x != point.x
      {
        var startPoint := r[indexStartPoint];
        if startPoint != point && startPoint.x == point.x {
          if point.y < startPoint.y {
            AddStartPointLower(startPoints, pts, point, indexStartPoint);
            assert r[..indexStartPoint] + r[indexStartPoint + 1..]
                == startPoints[..indexStartPoint] + startPoints[indexStartPoint + 1..] + [point];
            r := r[..indexStartPoint] + r[indexStartPoint + 1..];
          } else {
            AddStartPointHigher(startPoints, pts, point, indexStartPoint);
            assert r[..|r| - 1] == startPoints;
            r := r[..|r| - 1];
          }
          return;
        }
        indexStartPoint := indexStartPoint + 1;
      }
      AddStartPointNew(startPoints, pts, point);
    }

    /**
     * HorizontallyCompressor._get_start_points_in_empty_ranges, from the
     * column of the removed cluster's priority ball.
     */
    method GetStartPointsHorizontally() returns (startPoints: seq<Point>)
      requires board.Shape() && Removable(board, cluster)
      ensures startPoints == HorizontalStartPoints(board.balls, cluster.PriorityBall().point.x, board.countColumns)
    {
      var minCoordinateX := cluster.PriorityBall().point.x;
      assert board.Inside(cluster.PriorityBall().point);
      startPoints := StartPointsFrom(minCoordinateX);
    }

    /** The scan of the bottom row behind GetStartPointsHorizontally, from column `minCoordinateX`. */
    method StartPointsFrom(minCoordinateX: int) returns (startPoints: seq<Point>)
      requires board.Shape() && 1 <= minCoordinateX <= board.countColumns && 1 <= board.countRows
      ensures startPoints == HorizontalStartPoints(board.balls, minCoordinateX, board.countColumns)
    {
      startPoints := [];
      var coordinateY := 1;
      var fromX := minCoordinateX;
      if fromX == 1 {
        var point := Point(1, coordinateY);
        board.InsideHolds(point);
        if !board.IsLocatedBall(point) {
          startPoints := startPoints + [point];
        }
        fromX := 2;
      }
      ghost var head := startPoints;
      var coordinateX := fromX;
      while coordinateX < board.countColumns
        invariant fromX <= coordinateX && (coordinateX <= board.countColumns || coordinateX == fromX)
        invariant startPoints == head + StartsBetween(board.balls, fromX, coordinateX)
      {
        var point := Point(coordinateX, coordinateY);
        var leftPoint := Point(coordinateX - 1, coordinateY);
        board.InsideHolds(point);
        board.InsideHolds(leftPoint);
        ghost var found := StartsBetween(board.balls, fromX, coordinateX);
        ghost var tail := if IsStartColumn(board.balls, coordinateX) then [point] else [];
        assert StartsBetween(board.balls, fromX, coordinateX + 1) == found + tail;
        if board.IsLocatedBall(leftPoint) && !board.IsLocatedBall(point) {
          startPoints := startPoints + [point];
        }
        assert startPoints == head + found + tail == head + (found + tail);
        coordinateX := coordinateX + 1;
      }
    }

    /**
     * Compressor.run on the vertical axis: every column that held a removed
     * ball settles from its lowest removed cell up; the others are untouched.
     */
    method RunVertically()
      requires axis == Vertical && board.Shape() && Removable(board, cluster)
      modifies this`accumulativeOffset, board`balls
      ensures board.Shape() && BallCount(board.balls) <= BallCount(old(board.balls))
      ensures forall x :: Column(board.balls, x) == Settle(Column(old(board.balls), x), LowestRow(PointsOf(cluster.balls), x))
    {
      var startPoints := GetStartPointsVertically();
      ghost var g0 := board.balls;
      ghost var pts := PointsOf(cluster.balls);
      var index := 0;
      while index < |startPoints|
        invariant 0 <= index <= |startPoints|
        invariant board.Shape() && BallCount(board.balls) <= BallCount(g0)
        invariant forall x :: Column(board.balls, x) == Settle(Column(g0, x), StartRowIn(startPoints[..index], x))
      {
        var startPoint := startPoints[index];
        assert board.Inside(startPoint) by {
          var k :| 0 <= k < |pts| && pts[k] == startPoint;
          assert cluster.balls[k].point == startPoint;
        }
        StartRowStep(startPoints, index, startPoint.x);
        CompressAtVertically(startPoint);
        forall x ensures Column(board.balls, x) == Settle(Column(g0, x), StartRowIn(startPoints[..index + 1], x)) {
          StartRowStep(startPoints, index, x);
        }
        index := index + 1;
      }
      assert forall k :: 0 <= k < |pts| ==> pts[k].y >= 1 by {
        assert forall k :: 0 <= k < |pts| ==> board.Inside(cluster.balls[k].point);
      }
      forall x ensures StartRowIn(startPoints, x) == LowestRow(pts, x) {
        LowestPerColumnRows(startPoints, pts, x);
      }
      assert startPoints[..index] == startPoints;
    }

    /** One round of Compressor.run on the vertical axis: the start point's column settles from it up. */
    method CompressAtVertically(startPoint: Point)
      requires axis == Vertical && board.Shape() && board.Inside(startPoint)
      modifies this`accumulativeOffset, board`balls
      ensures board.Shape() && BallCount(board.balls) <= BallCount(old(board.balls))
      ensures Column(board.balls, startPoint.x) == Settle(Column(old(board.balls), startPoint.x), startPoint.y)
      ensures forall x :: x != startPoint.x ==> Column(board.balls, x) == Column(old(board.balls), x)
    {
      var shiftRange := BuildShiftRange(startPoint);
      if shiftRange.None? {
        NoRangeKeepsColumn(board.balls, startPoint, board.countColumns);
        return;
      }
      ShiftBallsVertically(shiftRange.value, startPoint);
    }

    /**
     * Compressor.run on the horizontal axis, from a fresh offset: the pass
     * HorizontalPass describes, over the start points of the bottom row.
     */
    method RunHorizontally()
      requires axis == Horizontal && board.Shape() && Removable(board, cluster) && accumulativeOffset == 0
      modifies this`accumulativeOffset, board`balls
      ensures board.Shape() && BallCount(board.balls) <= BallCount(old(board.balls))
      ensures (board.balls, accumulativeOffset) == HorizontalPass(old(board.balls), board.countColumns,
        HorizontalStartPoints(old(board.balls), cluster.PriorityBall().point.x, board.countColumns), 0)
    {
      var startPoints := GetStartPointsHorizontally();
      assert board.Inside(cluster.PriorityBall().point);
      HorizontalStartPointsAhead(board.balls, cluster.PriorityBall().point.x, board.countColumns);
      CompressAllHorizontally(startPoints);
    }

    /** The loop of Compressor.run on the horizontal axis, over start points that stay ahead of the pass. */
    method CompressAllHorizontally(startPoints: seq<Point>)
      requires axis == Horizontal && board.Shape() && accumulativeOffset == 0 && 1 <= board.countRows
      requires StartsAhead(board.balls, board.countColumns, startPoints)
      modifies this`accumulativeOffset, board`balls
      ensures board.Shape() && BallCount(board.balls) <= BallCount(old(board.balls))
      ensures (board.balls, accumulativeOffset) == HorizontalPass(old(board.balls), board.countColumns, startPoints, 0)
    {
      ghost var g0 := board.balls;
      assert |g0[0]| == board.countColumns;
      var index := 0;
      while index < |startPoints|
        invariant 0 <= index <= |startPoints|
        invariant board.Shape() && BallCount(board.balls) <= BallCount(g0)
        invariant (board.balls, accumulativeOffset) == HorizontalPass(g0, board.countColumns, startPoints[..index], 0)
      {
        var startPoint := startPoints[index];
        HorizontalPassStaysAhead(g0, board.countColumns, startPoints, index);
        HorizontalPassStep(g0, board.countColumns, startPoints, index, 0);
        CompressAtHorizontally(startPoint);
        index := index + 1;
      }
      assert startPoints[..index] == startPoints;
    }

    /** One round of Compressor.run on the horizontal axis: the step HorizontalStep describes. */
    method CompressAtHorizontally(startPoint: Point)
      requires axis == Horizontal && board.Shape() && board.Inside(startPoint)
      requires 0 <= accumulativeOffset < startPoint.x
      modifies this`accumulativeOffset, board`balls
      ensures board.Shape() && BallCount(board.balls) <= BallCount(old(board.balls))
      ensures (board.balls, accumulativeOffset)
        == HorizontalStep(old(board.balls), board.countColumns, old(accumulativeOffset), startPoint)
    {
      var shiftRange := BuildShiftRange(startPoint);
      if shiftRange.None? {
        return;
      }
      ShiftBallsHorizontally(shiftRange.value, startPoint);
    }
  }

  /**
   * CompressionAlgorithm: after a cluster has left the board, the vertical
   * compressor and then the horizontal one close the gaps.
   */
  class CompressionAlgorithm {
    const board: Board
    const cluster: Cluster

    constructor (board: Board, cluster: Cluster)
      ensures this.board == board && this.cluster == cluster
    {
      this.board := board;
      this.cluster := cluster;
    }

    /** CompressionAlgorithm.run: the vertical compression, then the horizontal one. */
    method Run()
      requires board.Shape() && Removable(board, cluster)
      modifies board`balls
      ensures board.Shape() && BallCount(board.balls) <= BallCount(old(board.balls))
      ensures Compressed(old(board.balls), board.balls, PointsOf(cluster.balls),
        cluster.PriorityBall().point.x, board.countColumns)
    {
      ghost var g0 := board.balls;
      CompressVertically();
      ghost var v := board.balls;
      CompressHorizontally();
      assert Shaped(v, |g0|, board.countColumns) && Placed(v);
    }

    /** CompressionAlgorithm._compress_vertically: every column settles from its lowest removed cell up. */
    method CompressVertically()
      requires board.Shape() && Removable(board, cluster)
      modifies board`balls
      ensures board.Shape() && BallCount(board.balls) <= BallCount(old(board.balls))
      ensures forall x :: Column(board.balls, x) == Settle(Column(old(board.balls), x), LowestRow(PointsOf(cluster.balls), x))
    {
      var compressor := new Compressor(board, cluster, Vertical);
      compressor.RunVertically();
    }

    /** CompressionAlgorithm._compress_horizontally: the horizontal pass from the removed cluster's column. */
    method CompressHorizontally()
      requires board.Shape() && Removable(board, cluster)
      modifies board`balls
      ensures board.Shape() && BallCount(board.balls) <= BallCount(old(board.balls))
      ensures board.balls == HorizontalPass(old(board.balls), board.countColumns,
        HorizontalStartPoints(old(board.balls), cluster.PriorityBall().point.x, board.countColumns), 0).0
    {
      var compressor := new Compressor(board, cluster, Horizontal);
      compressor.RunHorizontally();
    }
  }
}
