# rgb-game in Dafny

A model of the simulation engine of rgb-game (`src/entities.py`). The game
is a single-player puzzle played on a board of `count_rows × count_columns`
cells. Each cell is empty or holds a red, green or blue ball. Points are
1-based, and row 1 is the bottom row. Each turn:

- the board's balls are grouped into maximal same-colour clusters;
- a greedy strategy picks the largest cluster, breaking ties by the
  priority ball (leftmost, then lowest);
- the cluster's balls leave the board;
- the survivors are compressed, first down each affected column, then left
  along the bottom row;
- the move is recorded and scored `(n-2)^2` for its `n` balls.

The game stops in one of two ways:

- when no cluster is left, with a bonus of 1000;
- when the best cluster is a single ball, with no bonus.

Modules, in dependency order:

- `Wrappers` (wrappers.dfy): `Option`, `Outcome` and `Result`, for values that may be missing and for error paths.
- `Geometry` (geometry.dfy): colours, points and balls, ball equality, the priority order and 4-adjacency.
- `Grids` (grids.dfy): pure views of the cell matrix `_balls[y-1][x-1]`:
  - cell reads and writes;
  - the multiset of balls on the board;
  - columns, and gravity on a column;
  - the matrix once a cluster's cells are cleared.
- `Clusters` (clusters.dfy): the `Cluster` class, with `add_ball`, `merge` and the priority index, and the value-level merge `AppendNew`.
- `Partitions` (partitions.dfy): bookkeeping for the union pass of the clusterization. It tracks which balls the kept and the unmerged clusters hold, and the invariant that no two kept clusters could still merge.
- `Shifts` (shifts.dfy): reference definitions of the compressor. These cover the border walks, shift ranges, the per-column settling of the vertical pass, the start points, and the column-by-column slide of the horizontal pass. It also holds the lemmas that say what these definitions mean.
- `Engine` (engine.dfy):
  - the classes `Board`, `ClusterizationAlgorithm`, `Compressor` and `CompressionAlgorithm`;
  - their methods keep the source's loops and in-place updates;
  - each method is proved against the `Shifts`/`Grids` definitions.
- `Game` (game.dfy): `Player`, `Move`, scoring, `SimpleStrategy` and the turn loop `RGBGame`.

The two compressor subclasses differ only in the axis they walk. They are
one `Compressor` class with an `axis` constant. `Compressor.run` appears
once per axis, as `RunVertically` and `RunHorizontally`, because the
vertical pass resets its offset for each range while the horizontal pass
accumulates it.

### Where the model departs from the prose description of the game

The code is followed in every case below.

- **The top cell is never a left border.** The left-border walk
  (`src/entities.py:501-503`) stops before the last cell of a line. So a
  column whose only balls above the gap sit in the top row does not fall.
  A later horizontal shift can write over such a floating ball.
  - `Shifts.TopBallIsNeverLeftBorder` exhibits the floating ball.
  - `Shifts.LeftBorderReachingMax` and `Shifts.SettleReachingMax` describe
    the walk that also inspects the top cell, so the two can be compared.
  - The game uses the walk as written.
- **`balls_remaining` can exceed the balls on the board.** Because a
  floating ball can be overwritten, the counter is only an upper bound on
  the balls actually on the board (`Engine.Board.Valid`). It still drops by
  exactly the size of each removed cluster, and it starts at the number of
  cells.
- **(1, 1) is a horizontal start point only in one case.** It is a start
  point only when the removed cluster's priority ball stood in column 1
  and (1, 1) is empty. The scan of the other columns stops before the last
  column.

## Model

| member | source | states |
|---|---|---|
| Geometry.PointIsEqual | src/entities.py:422-423 | two points are equal exactly when they are the same point |
| Geometry.BallIsEqual | src/entities.py:369-376 | two balls are equal exactly when colour and position agree (datatype equality) |
| Geometry.IsNearby | src/entities.py:388-401 | two balls are nearby exactly when their positions are at Manhattan distance 1 |
| Geometry.NearbyIsSymmetricAndOrthogonal | src/entities.py:388-401 | nearness is symmetric, never holds for a ball and itself, and never holds for diagonal neighbours |
| Geometry.PriorityIsStrictOrder | src/entities.py:357-367 | the priority order is irreflexive, asymmetric, transitive and total on distinct positions |
| Grids.Update | src/entities.py:181-185 | writing a cell changes that cell and no other, and keeps the matrix's shape |
| Grids.UpdatePlaced | src/entities.py:545-550 | a ball set into the cell of its own point keeps every ball at its own cell |
| Grids.GravityKeepsBalls | src/entities.py:586-603 | gravity on a column keeps its length and its balls in order |
| Grids.GravityIsSettled | src/entities.py:586-603 | after gravity no empty cell lies below a ball |
| Grids.GravityOfSettled | src/entities.py:586-603 | gravity leaves an already settled column unchanged |
| Grids.ClearedCells | src/entities.py:148-162 | after clearing a cluster, exactly the cells of its balls are empty and every other cell is unchanged |
| Grids.ClearedBalls | src/entities.py:148-162 | clearing a cluster whose balls stand on the board removes exactly those balls from the board's multiset |
| Grids.ClearedCount | src/entities.py:148-162 | clearing a cluster of n distinct board balls lowers the number of occupied cells by n |
| Grids.BallCountIsSize | src/entities.py:197-215 | the number of occupied cells is the number of balls on the board |
| Grids.MoveKeepsCount | src/entities.py:545-550 | taking a ball out of its cell and setting a ball into some cell never adds a ball |
| Clusters.AdjoinsIsSymmetric | src/entities.py:310-321 | can_belong holds in one direction exactly when it holds in the other |
| Clusters.AdjoinsConcat | src/entities.py:310-333 | a merged cluster can belong with another exactly when one of its two parts can |
| Clusters.AppendNewFacts | src/entities.py:326-342 | merging keeps the old balls as a prefix, holds exactly the balls of both clusters, and never creates a duplicate |
| Clusters.AppendNewDisjoint | src/entities.py:326-342 | merging clusters that share no ball adds their multisets |
| Clusters.AppendNewPresent | src/entities.py:326-342 | merging a cluster whose balls are all present changes nothing |
| Clusters.Cluster.constructor | src/entities.py:265-271 | a new cluster has the given colour, no balls and no priority index |
| Clusters.Cluster.PriorityBall | src/entities.py:304-305 | the priority ball is a ball of the cluster, and no other ball is further left, or as far left and lower |
| Clusters.Cluster.AddBall | src/entities.py:279-290 | a ball of another colour fails with the colour error and changes nothing; otherwise it is appended, the counter grows by one, and the priority index moves to it exactly when it is more prioritized |
| Clusters.Cluster.SetIndexPriorityBallIfNeeded | src/entities.py:292-302 | the first ball becomes the priority ball; a later one replaces it exactly when it is strictly more prioritized, so the index always names a minimal ball |
| Clusters.Cluster.IsExistBall | src/entities.py:335-342 | a ball exists in the cluster exactly when it is one of its balls |
| Clusters.SingleIsConnected | src/entities.py:217-221 | a cluster built for one ball is connected |
| Clusters.ConnectedSameBalls | src/entities.py:326-333 | whether a cluster is connected depends only on which balls it holds, not their order or repeats |
| Clusters.ConnectedJoin | src/entities.py:255-260 | merging a connected cluster into a connected cluster it can belong to gives a connected cluster |
| Clusters.ApartIsNotConnected | src/entities.py:310-321 | two balls of one colour that are not nearby do not form a connected cluster, so grouping by colour alone is not a clustering |
| Clusters.Cluster.Merge | src/entities.py:326-333 | the old balls stay a prefix and no foreign ball enters; the merge succeeds exactly when every ball of the other cluster has this colour, and then adds exactly the balls not already present, in order |
| Partitions.GatheredAtStart | src/entities.py:223-230 | a union pass over connected clusters starts with every ball in an unmerged cluster |
| Partitions.StartAbsorbing | src/entities.py:228-234 | taking an unmerged cluster as the absorbing one loses and duplicates no ball |
| Partitions.AbsorbOne | src/entities.py:249-260 | an absorbed cluster shares no ball with the absorbing one; the merged cluster stays connected, and the pass still loses and duplicates no ball |
| Partitions.NearbyShareGroup | src/entities.py:228-260 | in clusters no two of which can belong together, two nearby balls of one colour lie in the same cluster |
| Partitions.FinishAbsorbing | src/entities.py:232-236 | a cluster that can absorb nothing more is kept, and no two kept clusters can belong together |
| Partitions.GatheredAtEnd | src/entities.py:228-238 | when every cluster is merged, the kept clusters hold exactly the balls the pass started with, each is connected, and no two can belong together |
| Shifts.ParametricPoint | src/entities.py:608-615 | the point built from a parametric and a fixed coordinate has those coordinates on its axis |
| Shifts.ParametricPointOfCoordinates | src/entities.py:669-676 | splitting a point into its coordinates and building it again gives the same point |
| Shifts.ShiftInDirection | src/entities.py:378-386 | a shift moves a ball back by the offset along the axis, keeping its colour and its other coordinate |
| Shifts.LeftBorderOfFacts | src/entities.py:495-510 | the left border is the first occupied cell in [start, max), and there is none exactly when those cells are all empty |
| Shifts.RightBorderOfFacts | src/entities.py:512-527 | the right border ends the occupied run after the start, at its last ball or at max; there is none exactly when the start is max |
| Shifts.ShiftRangeOfFacts | src/entities.py:476-493 | a shift range exists exactly when a cell in [start, max) is occupied; it spans the first such cell to the end of its run, and its offset is left border minus start |
| Shifts.ShiftRangeBounds | src/entities.py:476-493 | start <= left border <= right border <= max, and the offset is left border minus start |
| Shifts.TopBallIsNeverLeftBorder | src/entities.py:501-503 | on a one-column board with an empty bottom cell and a ball on top, no shift range is built and the ball is left above the gap; the walk that also inspects the top cell finds it |
| Shifts.LeftBorderReachingMaxFacts | src/entities.py:495-510 | the walk that also inspects the top cell finds the first occupied cell in [start, max], and finds none exactly when all are empty |
| Shifts.SettleFacts | src/entities.py:586-603 | the vertical pass on a column keeps its balls in order and the cells below the start; it settles the column from the start up when a ball stands below the top row, and otherwise changes nothing |
| Shifts.SettleReachingMaxSettles | src/entities.py:501-503 | with the walk that also inspects the top cell, the column always settles from the start up |
| Shifts.WalkUpSettles | src/entities.py:593-603 | walking up a column, adding 1 to the offset at each empty cell and dropping each ball by the offset, settles that column from the gap and leaves the others alone |
| Shifts.WalkUpOneWalks | src/entities.py:593-603 | one cell of the walk extends the settled part of the column by that cell |
| Shifts.WalkUpOneKeepsShape | src/entities.py:545-550 | one cell of the walk keeps the board's shape and never adds a ball |
| Shifts.WalkUpKeepsShape | src/entities.py:545-550 | the walk keeps the board's shape and every ball at its own cell |
| Shifts.WalkUpKeepsCount | src/entities.py:545-550 | the walk never adds a ball |
| Shifts.NoRangeKeepsColumn | src/entities.py:460-466 | a start point without a shift range leaves its column as it was |
| Shifts.RangeInColumn | src/entities.py:476-493 | a vertical shift range starts at or above the start point, below the top row, with only empty cells between |
| Shifts.LowestRowFacts | src/entities.py:562-584 | the lowest removed row of a column is 0 exactly when no removed ball stood in it, and is otherwise the row of its lowest removed ball |
| Shifts.StartRowInIs | src/entities.py:562-584 | with one start point per column, looking up a column finds that point's row, or 0 |
| Shifts.AddStartPointNew | src/entities.py:566-568 | a removed point in a column with no start point yet becomes its start point |
| Shifts.AddStartPointLower | src/entities.py:577-578 | a removed point below its column's start point replaces it |
| Shifts.AddStartPointHigher | src/entities.py:579-580 | a removed point at or above its column's start point is dropped |
| Shifts.LowestPerColumnRows | src/entities.py:562-584 | the kept start points give each column's lowest removed row |
| Shifts.StartsBetweenFacts | src/entities.py:640-647 | the start points found in [lo, hi) are bottom-row points, strictly left to right, exactly at the empty cells with a ball to their left |
| Shifts.HorizontalStartPointsFacts | src/entities.py:626-647 | the horizontal start points are, left to right, (1, 1) exactly when the removed cluster reached column 1 and (1, 1) is empty, then every empty bottom cell from the cluster's column to the second-last column whose left neighbour holds a ball |
| Shifts.HorizontalStartPointsAhead | src/entities.py:626-647 | the horizontal start points come in the order the pass needs: left to right, and after the first each one a start column short of the last column |
| Shifts.SlideColumnsSlides | src/entities.py:655-664 | the ball-by-ball walk over the columns of a range moves the bottom run of each column the offset to the left, emptying the cells it leaves unless another run came in |
| Shifts.SlidKeepsRight | src/entities.py:649-664 | a horizontal shift leaves every column right of its range as it was |
| Shifts.HorizontalPassStaysAhead | src/entities.py:457-466 | during the horizontal pass the accumulated offset stays below the next start point's column, and nothing from there on has moved yet |
| Shifts.ShiftRangeBefore | src/entities.py:476-493 | with an occupied cell followed by an empty one before the limit, the shift range ends at or before that cell |
| Shifts.SlidKeepsFrom | src/entities.py:649-664 | sliding a run that ends before a column leaves every column from there on as it was |
| Shifts.NextStartStaysAhead | src/entities.py:649-664 | one horizontal round leaves the offset below the next start column and touches nothing from it on |
| Engine.SumOfLengthsShaped | src/entities.py:106 | the sum of the row lengths of a well-sized matrix is rows × columns |
| Engine.SumOfLengthsBounds | src/entities.py:106 | the initial counter is at least the number of balls on the board |
| Engine.Board.CheckSize | src/entities.py:112-122 | the check passes exactly when the matrix has the required size; a wrong row count is reported first, otherwise the first row of the wrong length |
| Engine.Board.constructor | src/entities.py:99-110 | a well-sized board holds the given matrix, its counter is rows × columns, and its clusters are the same-colour connected components of its balls: they partition the balls, each is connected and no two can belong together |
| Engine.Board.Create | src/entities.py:99-122 | construction fails exactly when the matrix has the wrong size: the row error when the row count is wrong, else the column error for the first row of the wrong length; otherwise the board is valid over exactly that matrix |
| Engine.Board.InitClusters | src/entities.py:136-139 | the clusters are rebuilt as the same-colour connected components of the board's balls: a partition into connected clusters no two of which can belong together |
| Engine.SameComponent | src/entities.py:197-260 | in the clusters build_clusters returns, two nearby balls of one colour lie in the same cluster and every cluster is connected: the clusters are the same-colour connected components |
| Engine.Board.RemoveCluster | src/entities.py:141-146 | the counter drops by the cluster's count; the matrix becomes the cleared board compressed for the removed cluster; no ball is gained; the board stays valid |
| Engine.Board.ClearAndCompress | src/entities.py:142-144 | clearing the cluster's cells and compressing for it drops the counter by the cluster's count, removes at least that many balls and keeps the board's shape |
| Engine.PooledIsRemovable | src/entities.py:197-215 | a cluster of a pool that splits the board's balls holds balls of the board, each at a distinct cell inside it |
| Engine.BoardBallsApart | src/entities.py:148-156 | balls taken from the board lie inside it, no two at one point |
| Engine.Board.ClusterIsRemovable | src/entities.py:197-215 | every cluster of the board holds balls of the board, each at a distinct cell inside it |
| Engine.Board.NoClusterIffEmpty | src/entities.py:197-215 | the board has no cluster exactly when no ball is on it |
| Engine.Board.NoMoveLeft | src/entities.py:43-44 | when every cluster is a single ball, no two balls of the same colour are nearby |
| Engine.Board.RemoveClusterOnBoard | src/entities.py:148-156 | the matrix becomes the matrix with each of the cluster's cells cleared, and the counter drops by the cluster's count |
| Engine.Board.Compress | src/entities.py:164-167 | the matrix becomes the vertical then the horizontal compression of the old one for the removed cluster |
| Engine.Board.IsLocatedBallFinds | src/entities.py:169-173 | a cell is occupied exactly when some ball of the board stands at its point |
| Engine.Board.GetBallByPoint | src/entities.py:175-179 | returns the cell's content, a ball that stands at that point |
| Engine.Board.SetBallOnBoard | src/entities.py:181-185 | the cell holds the ball and nothing else changes |
| Engine.Board.RemoveBallOnBoard | src/entities.py:158-162 | the ball's cell is empty and nothing else changes |
| Engine.ClusterizationAlgorithm.constructor | src/entities.py:190-195 | the algorithm starts with no clusters and nothing merged |
| Engine.ClusterizationAlgorithm.BuildClusters | src/entities.py:197-215 | the result splits the board's balls between its clusters, each ball in exactly one; each cluster is connected and no two clusters can belong together |
| Engine.ClusterizationAlgorithm.ScanRow | src/entities.py:201-213 | after row y the clusters partition the balls of rows 1..y |
| Engine.ClusterizationAlgorithm.ScanCells | src/entities.py:201-213 | after the cells of row y the clusters partition every ball scanned so far |
| Engine.ClusterizationAlgorithm.AddCell | src/entities.py:202-213 | one cell later the clusters partition the balls scanned, including that cell's ball |
| Engine.ClusterizationAlgorithm.AppendCluster | src/entities.py:209-213 | after a singleton is appended and the list united, the clusters partition the old balls plus the new one |
| Engine.ClusterizationAlgorithm.PushCluster | src/entities.py:209-211 | a new singleton cluster is appended after the old list, every cluster stays connected, and the balls grow by its ball |
| Engine.ClusterizationAlgorithm.BuildClusterForBall | src/entities.py:217-221 | a new cluster of the ball's colour holding just the ball |
| Engine.ClusterizationAlgorithm.UnionClusters | src/entities.py:223-238 | the surviving clusters hold the same balls, each is connected, and no two can belong together |
| Engine.ClusterizationAlgorithm.UnionLoop | src/entities.py:228-238 | the kept clusters are old ones, hold the same balls, each is connected, and no two can belong together |
| Engine.ClusterizationAlgorithm.UnionStep | src/entities.py:229-236 | one iteration skips a merged cluster or keeps an unmerged one after it absorbs what it can reach; the union-pass invariant holds at the next index |
| Engine.ClusterizationAlgorithm.KeepCluster | src/entities.py:232-236 | an unmerged cluster is marked, absorbs what it can reach, and joins the kept clusters, with no ball lost |
| Engine.ClusterizationAlgorithm.AbsorbReachable | src/entities.py:232-234 | the marked cluster stays valid and non-empty and can then belong with no kept cluster, with no ball lost |
| Engine.ClusterizationAlgorithm.MergeClusterWithAllPossible | src/entities.py:240-260 | after the do-while loop no unmerged cluster can belong to the cluster, and no ball was lost or duplicated |
| Engine.ClusterizationAlgorithm.MergePass | src/entities.py:247-260 | one pass absorbs the unmerged clusters that can belong, marks them merged, and loses no ball; a pass that merged nothing leaves every unmerged cluster apart |
| Engine.ClusterizationAlgorithm.Absorb | src/entities.py:256-260 | the other cluster's balls join the cluster, its index is marked merged, and the set of unmerged indices shrinks |
| Engine.Compressor.constructor | src/entities.py:451-455 | a new compressor on the given board, cluster and axis, with offset 0 |
| Engine.Compressor.CalcLeftBorderShiftRange | src/entities.py:495-510 | returns the first occupied cell in [start, max) of the start point's line, or nothing |
| Engine.Compressor.CalcRightBorderShiftRange | src/entities.py:512-527 | returns the end of the occupied run after the start, or nothing when the start is max |
| Engine.Compressor.BuildShiftRange | src/entities.py:476-493 | returns the shift range the two border walks give for the start point |
| Engine.Compressor.ShiftBall | src/entities.py:545-550 | the ball leaves its cell and is set at its point moved back by the offset; no ball is gained |
| Engine.Compressor.ShiftBallsVertically | src/entities.py:586-603 | the start point's column settles from the start point up as the vertical pass defines; no other column changes and no ball is gained |
| Engine.Compressor.ShiftAtVertically | src/entities.py:593-603 | one row of the walk: an empty cell raises the offset by 1, a ball drops by the offset |
| Engine.Compressor.ShiftBallsHorizontally | src/entities.py:649-664 | the offset grows by the range's offset, then the bottom run of every column of the range moves that many columns left |
| Engine.Compressor.ShiftColumnsHorizontally | src/entities.py:655-664 | the columns of the range slide left by the offset, column after column |
| Engine.Compressor.ShiftColumnHorizontally | src/entities.py:656-664 | column c is walked up from row 1 to its first empty cell, each ball moving left by the offset |
| Shifts.StartGroundNext | src/entities.py:562-584 | the next removed point is a candidate start point relative to the ones already scanned |
| Engine.RemovablePoints | src/entities.py:562-584 | the points of a removable cluster are distinct and lie on rows from 1 up |
| Engine.Compressor.GetStartPointsVertically | src/entities.py:562-584 | the start points are one per column that held a removed ball, the lowest removed point of that column |
| Engine.Compressor.AddStartPoint | src/entities.py:566-582 | after one more removed point the list still holds, per column, the lowest removed point |
| Engine.Compressor.GetStartPointsHorizontally | src/entities.py:626-647 | returns the horizontal start points from the removed priority ball's column |
| Engine.Compressor.StartPointsFrom | src/entities.py:640-647 | returns the empty bottom cells with a ball to their left, from the given column to the second-last one |
| Engine.Compressor.RunVertically | src/entities.py:457-466 | every column settles from its lowest removed row up, as the vertical pass defines; columns without a removed ball are untouched |
| Engine.Compressor.CompressAtVertically | src/entities.py:460-466 | one start point: its column settles from it up and no other column changes |
| Engine.Compressor.RunHorizontally | src/entities.py:457-466 | the board becomes the horizontal pass over the start points, from offset 0 |
| Engine.Compressor.CompressAllHorizontally | src/entities.py:460-466 | the loop over the start points performs the horizontal pass over them |
| Engine.Compressor.CompressAtHorizontally | src/entities.py:460-466 | one start point performs one horizontal round on the board and the offset |
| Engine.CompressionAlgorithm.constructor | src/entities.py:428-430 | the algorithm holds the board and the removed cluster |
| Engine.CompressionAlgorithm.Run | src/entities.py:432-434 | the board becomes the vertical compression followed by the horizontal pass, keeping its shape and gaining no ball |
| Engine.CompressionAlgorithm.CompressVertically | src/entities.py:436-439 | every column settles from its lowest removed row up |
| Engine.CompressionAlgorithm.CompressHorizontally | src/entities.py:441-444 | the board becomes the horizontal pass from the removed cluster's priority column |
| Game.Player.constructor | src/entities.py:87-88 | a new player has score 0 |
| Game.Player.AddScore | src/entities.py:93-94 | the score grows by exactly the amount given |
| Game.LetterIsInjective | src/entities.py:7-11 | the colours are written R, G and B, different colours with different letters |
| Game.ScorePerMove | src/entities.py:78-79 | the score of a move is never negative, and is zero exactly for a cluster of two |
| Game.ScoreGrowsWithCluster | src/entities.py:78-79 | removing more balls at once scores strictly more |
| Game.TotalScoreBounds | src/entities.py:59-68 | played moves never lower the score, and they remove at least two balls each |
| Game.TotalsSplit | src/entities.py:64-68 | the totals of a move list are the totals of its two halves |
| Game.PlayedAppend | src/entities.py:59-68 | a move numbered next, of two or more balls and scored by the rule, extends the played moves |
| Game.BeatsIsStrictWeakOrder | src/entities.py:725-732 | the strategy's ranking is irreflexive, asymmetric and transitive against incomparability |
| Game.SimpleStrategy.constructor | src/entities.py:713-714 | the strategy looks at the given board |
| Game.SimpleStrategy.GetBestCluster | src/entities.py:716-734 | returns nothing exactly when there is no cluster; otherwise a cluster that beats every earlier one and is beaten by no later one, and so has the largest count |
| Game.BuildMove | src/entities.py:70-76 | the move has the next number and the cluster's count, records its priority ball (no ball of the cluster is more prioritized), and scores (n-2)^2 |
| Game.RGBGame.constructor | src/entities.py:16-23 | a new game has no moves and move counter 0 |
| Game.RGBGame.Run | src/entities.py:34-48 | the moves made are appended to the old ones; the score grows by their scores, plus 1000 exactly when no cluster is left; the counter drops by the balls they removed; the game ends with no cluster or with only single-ball clusters |
| Game.RGBGame.Turn | src/entities.py:35-48 | one pass of the loop picks the cluster that beats every earlier one and is beaten by no later one. With no cluster the game is over with the 1000 bonus; with a best cluster of one ball it is over and nothing changes. Otherwise the move for that cluster, numbered next, is appended, the score grows by (n-2)^2, the counter drops by n, and the new board is the old one cleared of the cluster and compressed |
| Game.RGBGame.Finish | src/entities.py:38-44 | at the two exits only the score changes, by 1000 exactly when no cluster is left, and no cluster of two balls or more is left |
| Game.RGBGame.MoveAndRemove | src/entities.py:46-48 | one turn appends the move for the cluster, numbered next, adds (n-2)^2 to the score, lowers the counter by n, and leaves the old board cleared of the cluster and compressed, with strictly fewer balls |
| Game.RGBGame.GetBestCluster | src/entities.py:50-51 | returns nothing exactly when there is no cluster; otherwise the cluster of the board that beats every earlier one and is beaten by no later one: the largest count, ties broken by the priority ball |
| Game.RGBGame.AddPlayerBonus | src/entities.py:53-57 | the player gains exactly 1000 |
| Game.RGBGame.PlayMove | src/entities.py:59-68 | the move counter grows by one, the move for the cluster with that number is appended, and the player gains its score |
| Game.RGBGame.RemoveCluster | src/entities.py:81-82 | the board removes the cluster: the counter drops by its count, the new board is the old one cleared of the cluster and compressed from the cluster's priority column, the balls on the board strictly decrease, and the board stays valid |

## Left out

- `main.py` is not part of this model. Reading boards from standard input and printing moves and scores are left out. The model starts from a matrix of optional balls.
- `src/exceptions.py` is not part of this model. The three exceptions are modelled as error values:
  - `InvalidCountBoardRows` and `InvalidCountBoardColumns` from `Board.CheckSize` and `Board.Create`;
  - `InvalidBallColorCluster` from `Cluster.AddBall` and `Cluster.Merge`.
- The abstract base classes `Compressor` (as an abstract class) and `Strategy` are left out. They hold no behaviour of their own: one `Compressor` class carries the axis, and `SimpleStrategy` stands alone.
- Python object identity and mutable `Point` objects are not modelled. A shifted ball is replaced by a ball with its new point.
  - `Move` records the ball as it stood when its cluster was removed. The source reads the coordinates lazily, but removed balls are never shifted again, so the two agree.
- The getters (`get_moves`, `get_player_score`, `get_balls_remaining`, `get_count_rows`, `get_clusters` and the others) are read as fields. `Cluster.__getitem__` is sequence indexing. The `Move` getters are the functions `Row`, `Column` and `ColorLetter`.
- Engine.Board.constructor, Engine.Board.Create: require every ball to record the point of its own cell. The source does not check this; `main.py` always builds boards that way.
- Engine.Board.GetBallByPoint, Engine.Board.SetBallOnBoard, Engine.Board.RemoveBallOnBoard: require a point inside the matrix. The source would silently wrap around for coordinate 0 through Python's negative indexing. Every caller is proved to pass a point inside the board.
- Engine.Board.Valid: bounds the balls on the board from above by the counter; it does not equate them. A ball left floating in the top row can be overwritten by the horizontal pass.
- Game.RGBGame.Run: requires the strategy to look at the game's own board, as `main.py` builds it. Termination is proved on the number of balls on the board.
- Game.RGBGame.Turn, Game.RGBGame.Finish, Game.RGBGame.MoveAndRemove: take ghost baselines (the moves, score and counter when `run` started), which only carry the proof.
