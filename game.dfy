/**
 * The turn loop: the player and the score, the record of a move, the
 * greedy strategy that picks the cluster to remove, and the game that
 * removes the best cluster until none is worth a move.
 */
module Game {
  import opened Wrappers
  import opened Geometry
  import opened Grids
  import opened Clusters
  import opened Partitions
  import opened Engine
  import opened Shifts

  class Player {
    var score: int

    constructor ()
      ensures score == 0
    {
      score := 0;
    }

    /** Player.add_score: the score grows by exactly the amount given. */
    method AddScore(score: int)
      modifies this`score
      ensures this.score == old(this.score) + score
    {
      this.score := this.score + score;
    }
  }

  /** Color.value: the letter that names the colour. */
  function Letter(c: Color): char
  {
    match c
    case R => 'R'
    case G => 'G'
    case B => 'B'
  }

  /** Different colours are written with different letters. */
  lemma LetterIsInjective(c: Color, d: Color)
    ensures Letter(c) == Letter(d) <==> c == d
    ensures Letter(c) in "RGB"
  {
  }

  /**
   * A move: its number, the priority ball of the cluster removed, how many
   * balls it removed and what it scored. The ball is recorded as it stood
   * when the cluster was removed.
   */
  datatype Move = Move(number: int, ball: Ball, countBallsRemoved: int, score: int)
  {
    function Row(): int
    {
      ball.point.y
    }

    function Column(): int
    {
      ball.point.x
    }

    function ColorLetter(): char
    {
      Letter(ball.color)
    }
  }

  /**
   * RGBGame._calc_score_per_move: the square of the number of balls beyond
   * two. It is never negative and is zero only for a cluster of two.
   */
  function ScorePerMove(countBallsRemoved: int): (score: int)
    ensures score >= 0
    ensures score == 0 <==> countBallsRemoved == 2
  {
    var beyond := countBallsRemoved - 2;
    SquareIsPositive(beyond);
    beyond * beyond
  }

  lemma SquareIsPositive(n: int)
    ensures n * n >= 0 && (n * n == 0 <==> n == 0)
  {
    if n > 0 {
      assert n * n >= n;
    } else if n < 0 {
      assert n * n == (-n) * (-n) >= -n;
    }
  }

  /** Removing more balls at once scores strictly more. */
  lemma ScoreGrowsWithCluster(m: int, n: int)
    requires 2 <= m < n
    ensures ScorePerMove(m) < ScorePerMove(n)
  {
    var a, b := m - 2, n - 2;
    assert a * a <= a * b < b * b by {
      assert a * b - a * a == a * (b - a) >= 0;
      assert b * b - a * b == b * (b - a) > 0;
    }
  }

  /** The points scored by the moves, added up. */
  function TotalScore(ms: seq<Move>): int
  {
    if ms == [] then 0 else TotalScore(ms[..|ms| - 1]) + ms[|ms| - 1].score
  }

  /** The balls removed by the moves, added up. */
  function TotalRemoved(ms: seq<Move>): int
  {
    if ms == [] then 0 else TotalRemoved(ms[..|ms| - 1]) + ms[|ms| - 1].countBallsRemoved
  }

  /**
   * The moves are numbered one after another from `first`; each removed at
   * least two balls and scored (n-2)^2 for its n balls.
   */
  ghost predicate Played(ms: seq<Move>, first: int)
  {
    forall k :: 0 <= k < |ms| ==>
      && ms[k].number == first + k
      && ms[k].countBallsRemoved >= 2
      && ms[k].score == ScorePerMove(ms[k].countBallsRemoved)
  }

  /** A prefix of a list stays a prefix when the list grows by one. */
  lemma PrefixAppend(a: seq<Move>, b: seq<Move>, m: Move)
    requires a <= b
    ensures a <= b + [m]
  {
    assert (b + [m])[..|a|] == b[..|a|];
  }

  /** The totals of a list are the totals of its two halves. */
  lemma {:induction false} TotalsSplit(ms: seq<Move>, k: int)
    requires 0 <= k <= |ms|
    ensures TotalScore(ms) == TotalScore(ms[..k]) + TotalScore(ms[k..])
    ensures TotalRemoved(ms) == TotalRemoved(ms[..k]) + TotalRemoved(ms[k..])
  {
    if k < |ms| {
      var n := |ms| - 1;
      TotalsSplit(ms[..n], k);
      assert ms[..n][..k] == ms[..k];
      assert ms[k..][..|ms[k..]| - 1] == ms[..n][k..];
    } else {
      assert ms[..k] == ms;
    }
  }

  /** A move numbered next, of two or more balls and scored by the rule, extends the played moves. */
  lemma PlayedAppend(ms: seq<Move>, m: Move, first: int)
    requires Played(ms, first)
    requires m.number == first + |ms| && m.countBallsRemoved >= 2 && m.score == ScorePerMove(m.countBallsRemoved)
    ensures Played(ms + [m], first)
  {
  }

  lemma TotalsAppend(ms: seq<Move>, m: Move)
    ensures TotalScore(ms + [m]) == TotalScore(ms) + m.score
    ensures TotalRemoved(ms + [m]) == TotalRemoved(ms) + m.countBallsRemoved
  {
    assert (ms + [m])[..|ms|] == ms;
  }

  /** Every move of two or more balls scores at least zero: the score of a game never drops. */
  lemma {:induction false} TotalScoreBounds(ms: seq<Move>, first: int)
    requires Played(ms, first)
    ensures TotalScore(ms) >= 0
    ensures TotalRemoved(ms) >= 2 * |ms|
  {
    if ms != [] {
      var n := |ms| - 1;
      assert Played(ms[..n], first);
      TotalScoreBounds(ms[..n], first);
    }
  }

  /**
   * The order SimpleStrategy ranks clusters by: `c` beats `d` when it has
   * more balls, or as many and a strictly more prioritized priority ball.
   */
  predicate Beats(c: Cluster, d: Cluster)
    requires c.Valid() && c.balls != [] && d.Valid() && d.balls != []
    reads c, d
  {
    c.countBalls > d.countBalls || (c.countBalls == d.countBalls && IsPriority(c.PriorityBall(), d.PriorityBall()))
  }

  /**
   * `c` is the cluster SimpleStrategy picks from `cs`: it beats every
   * cluster before it and no cluster after it beats it.
   */
  ghost predicate IsBest(cs: seq<Cluster>, c: Cluster)
    requires forall k :: 0 <= k < |cs| ==> cs[k].Valid() && cs[k].balls != []
    reads cs
  {
    exists i :: 0 <= i < |cs| && cs[i] == c
      && (forall k :: 0 <= k < i ==> Beats(c, cs[k]))
      && (forall k :: i < k < |cs| ==> !Beats(cs[k], c))
  }

  /** Beats is a strict weak order: irreflexive, and `c` beats `e` whenever `c` beats `d` and `e` does not beat `d`. */
  lemma BeatsIsStrictWeakOrder(c: Cluster, d: Cluster, e: Cluster)
    requires c.Valid() && c.balls != [] && d.Valid() && d.balls != [] && e.Valid() && e.balls != []
    ensures !Beats(c, c)
    ensures Beats(c, d) && !Beats(e, d) ==> Beats(c, e)
    ensures Beats(c, d) ==> !Beats(d, c)
  {
    PriorityIsStrictOrder(c.PriorityBall(), d.PriorityBall(), e.PriorityBall());
    PriorityIsStrictOrder(e.PriorityBall(), d.PriorityBall(), c.PriorityBall());
    PriorityIsStrictOrder(c.PriorityBall(), e.PriorityBall(), d.PriorityBall());
    PriorityIsStrictOrder(d.PriorityBall(), c.PriorityBall(), e.PriorityBall());
  }

  class SimpleStrategy {
    const board: Board

    constructor (board: Board)
      ensures this.board == board
    {
      this.board := board;
    }

    /**
     * SimpleStrategy.get_best_cluster: nothing exactly when the board has
     * no cluster; otherwise the cluster that beats every earlier one and is
     * beaten by no later one, which has the largest count of all.
     */
    method GetBestCluster() returns (r: Option<Cluster>)
      requires Pool(board.clusters)
      ensures r.None? <==> board.clusters == []
      ensures r.Some? ==> IsBest(board.clusters, r.value)
      ensures r.Some? ==> forall k :: 0 <= k < |board.clusters| ==> board.clusters[k].countBalls <= r.value.countBalls
    {
      var clusters := board.clusters;
      if clusters == [] {
        return None;
      }
      var best := 0;
      var index := 1;
      while index < |clusters|
        invariant 1 <= index <= |clusters| && 0 <= best < index
        invariant forall k :: 0 <= k < best ==> Beats(clusters[best], clusters[k])
        invariant forall k :: best < k < index ==> !Beats(clusters[k], clusters[best])
        invariant forall k :: 0 <= k < index ==> clusters[k].countBalls <= clusters[best].countBalls
      {
        var cluster := clusters[index];
        var bestCluster := clusters[best];
        var replace := false;
        if cluster.countBalls == bestCluster.countBalls {
          var bestClusterPriorityBall := bestCluster.PriorityBall();
          var clusterPriorityBall := cluster.PriorityBall();
          if IsPriority(clusterPriorityBall, bestClusterPriorityBall) {
            replace := true;
          }
        } else if cluster.countBalls > bestCluster.countBalls {
          replace := true;
        }
        assert replace <==> Beats(cluster, bestCluster);
        if replace {
          forall k | 0 <= k < index ensures Beats(cluster, clusters[k]) {
            BeatsIsStrictWeakOrder(cluster, bestCluster, clusters[k]);
          }
          best := index;
        }
        index := index + 1;
      }
      r := Some(clusters[best]);
    }
  }

  class RGBGame {
    const player: Player
    const board: Board
    const strategy: SimpleStrategy
    var moves: seq<Move>
    var numberMove: int

    /** The board is consistent and the moves are recorded as Recorded says. */
    ghost predicate Valid()
      reads this, board, board.clusters, strategy
    {
      board.Valid() && Recorded()
    }

    /** The strategy looks at this game's board, and the moves so far are numbered 1, 2, ... up to the move counter. */
    ghost predicate Recorded()
      reads this, strategy
    {
      strategy.board == board && numberMove == |moves| && Played(moves, 1)
    }

    constructor (player: Player, board: Board, strategy: SimpleStrategy)
      ensures this.player == player && this.board == board && this.strategy == strategy
      ensures moves == [] && numberMove == 0
    {
      this.player := player;
      this.board := board;
      this.strategy := strategy;
      moves := [];
      numberMove := 0;
    }

    /**
     * RGBGame.run: while the best cluster has two balls or more, it is
     * recorded as a move, scored and removed. The game ends with the 1000
     * bonus when no cluster is left, and without it when every cluster left
     * is a single ball.
     */
    method Run()
      requires Valid()
      modifies this`moves, this`numberMove, player`score, board`balls, board`ballsRemaining, board`clusters
      ensures Valid()
      ensures |moves| >= |old(moves)| && moves[..|old(moves)|] == old(moves)
      ensures player.score == old(player.score) + TotalScore(moves[|old(moves)|..]) + (if board.clusters == [] then 1000 else 0)
      ensures board.ballsRemaining == old(board.ballsRemaining) - TotalRemoved(moves[|old(moves)|..])
      ensures board.clusters == [] || forall k :: 0 <= k < |board.clusters| ==> board.clusters[k].countBalls < 2
    {
      while true
        invariant Valid() && Since(old(moves), old(player.score), old(board.ballsRemaining))
        decreases BallCount(board.balls)
      {
        var over, best := Turn(old(moves), old(player.score), old(board.ballsRemaining));
        if over {
          break;
        }
      }
      TotalsSplit(moves, |old(moves)|);
    }

    /**
     * One pass of the loop of RGBGame.run, on the strategy's choice `best`:
     * with no cluster left the bonus is added and the game is over; with a
     * best cluster of a single ball it is over and nothing changes;
     * otherwise the best cluster is recorded as the next move, scored and
     * removed, and the board becomes the old one cleared of it and compressed.
     */
    method Turn(ghost moves0: seq<Move>, ghost score0: int, ghost remaining0: int)
      returns (over: bool, ghost best: Option<Cluster>)
      requires Valid() && Since(moves0, score0, remaining0)
      modifies this`moves, this`numberMove, player`score, board`balls, board`ballsRemaining, board`clusters
      ensures Valid()
      ensures best.None? <==> old(board.clusters) == []
      ensures best.Some? ==> best.value in old(board.clusters) && old(IsBest(board.clusters, best.value))
      ensures over <==> best.None? || best.value.countBalls < 2
      ensures over ==> moves == old(moves) && numberMove == old(numberMove)
      ensures over ==> player.score == old(player.score) + (if best.None? then 1000 else 0)
      ensures over ==> board.balls == old(board.balls) && board.ballsRemaining == old(board.ballsRemaining)
      ensures over ==> board.clusters == old(board.clusters)
      ensures !over ==> best.Some? && best.value.Valid() && best.value.balls != []
      ensures !over ==> numberMove == old(numberMove) + 1 && moves == old(moves) + [BuildMove(best.value, numberMove)]
      ensures !over ==> player.score == old(player.score) + ScorePerMove(|best.value.balls|)
      ensures !over ==> board.ballsRemaining == old(board.ballsRemaining) - |best.value.balls|
      ensures !over ==> Compressed(Cleared(old(board.balls), best.value.balls), board.balls, PointsOf(best.value.balls),
        best.value.PriorityBall().point.x, board.countColumns)
      ensures !over ==> Since(moves0, score0, remaining0) && BallCount(board.balls) < old(BallCount(board.balls))
      ensures over ==> Since(moves0, score0 + (if board.clusters == [] then 1000 else 0), remaining0)
      ensures over ==> board.clusters == [] || forall k :: 0 <= k < |board.clusters| ==> board.clusters[k].countBalls < 2
    {
      var bestCluster := GetBestCluster();
      best := bestCluster;
      over := bestCluster.None? || bestCluster.value.countBalls < 2;
      if over {
        Finish(bestCluster, moves0, score0, remaining0);
      } else {
        MoveAndRemove(bestCluster.value, moves0, score0, remaining0);
      }
    }

    /**
     * The two exits of RGBGame.run: with no cluster left the player gains
     * the bonus, with a best cluster of a single ball nothing changes; in
     * both cases no cluster of two balls or more is left.
     */
    method Finish(best: Option<Cluster>, ghost moves0: seq<Move>, ghost score0: int, ghost remaining0: int)
      requires Valid() && Since(moves0, score0, remaining0)
      requires best.None? <==> board.clusters == []
      requires best.Some? ==> best.value.countBalls < 2
      requires best.Some? ==> forall k :: 0 <= k < |board.clusters| ==> board.clusters[k].countBalls <= best.value.countBalls
      modifies player`score
      ensures Valid()
      ensures player.score == old(player.score) + (if best.None? then 1000 else 0)
      ensures Since(moves0, score0 + (if board.clusters == [] then 1000 else 0), remaining0)
      ensures board.clusters == [] || forall k :: 0 <= k < |board.clusters| ==> board.clusters[k].countBalls < 2
    {
      if best.None? {
        AddPlayerBonus();
      }
    }

    /**
     * Against the moves, score and counter of an earlier state: the moves
     * then are a prefix of the moves now, the score has grown by the scores
     * of the moves since, and the counter has dropped by the balls they removed.
     */
    ghost predicate Since(moves0: seq<Move>, score0: int, remaining0: int)
      reads this, player, board
    {
      && moves0 <= moves
      && player.score - TotalScore(moves) == score0 - TotalScore(moves0)
      && board.ballsRemaining + TotalRemoved(moves) == remaining0 + TotalRemoved(moves0)
    }

    /** One turn of RGBGame.run past its two exits: the cluster is recorded as a move, then removed. */
    method MoveAndRemove(cluster: Cluster, ghost moves0: seq<Move>, ghost score0: int, ghost remaining0: int)
      requires Valid() && cluster in board.clusters && cluster.countBalls >= 2
      requires Since(moves0, score0, remaining0)
      modifies this`moves, this`numberMove, player`score, board`balls, board`ballsRemaining, board`clusters
      ensures Valid() && Since(moves0, score0, remaining0)
      ensures numberMove == old(numberMove) + 1 && moves == old(moves) + [BuildMove(cluster, numberMove)]
      ensures player.score == old(player.score) + ScorePerMove(|cluster.balls|)
      ensures board.ballsRemaining == old(board.ballsRemaining) - |cluster.balls|
      ensures BallCount(board.balls) < BallCount(old(board.balls))
      ensures cluster.Valid() && cluster.balls != []
      ensures Compressed(Cleared(old(board.balls), cluster.balls), board.balls, PointsOf(cluster.balls),
        cluster.PriorityBall().point.x, board.countColumns)
    {
      assert cluster.Valid() && cluster.balls != [];
      ghost var before := moves;
      ghost var move := BuildMove(cluster, numberMove + 1);
      PlayMove(cluster);
      RemoveCluster(cluster);
      TotalsAppend(before, move);
      PrefixAppend(moves0, before, move);
    }

    /**
     * RGBGame._get_best_cluster: the strategy's choice, the cluster with the
     * most balls, ties broken by the priority ball (leftmost, then lowest).
     */
    method GetBestCluster() returns (r: Option<Cluster>)
      requires Valid()
      ensures r.None? <==> board.clusters == []
      ensures r.Some? ==> IsBest(board.clusters, r.value)
      ensures r.Some? ==> r.value in board.clusters
      ensures r.Some? ==> forall k :: 0 <= k < |board.clusters| ==> board.clusters[k].countBalls <= r.value.countBalls
    {
      r := strategy.GetBestCluster();
    }

    /** RGBGame._add_player_bonus: the player gains 1000. */
    method AddPlayerBonus()
      requires Valid()
      modifies player`score
      ensures Valid()
      ensures player.score == old(player.score) + 1000
    {
      player.AddScore(1000);
    }

    /**
     * RGBGame._move: the move counter grows by one, the move built for the
     * cluster is appended, and the player gains its score.
     */
    method PlayMove(cluster: Cluster)
      requires Recorded() && cluster.Valid() && cluster.balls != [] && cluster.countBalls >= 2
      modifies this`moves, this`numberMove, player`score
      ensures Recorded()
      ensures numberMove == old(numberMove) + 1
      ensures moves == old(moves) + [BuildMove(cluster, numberMove)]
      ensures player.score == old(player.score) + ScorePerMove(|cluster.balls|)
    {
      numberMove := numberMove + 1;
      var move := BuildMove(cluster, numberMove);
      PlayedAppend(moves, move, 1);
      moves := moves + [move];
      var scorePerMove := move.score;
      player.AddScore(scorePerMove);
    }

    /** RGBGame._remove_cluster: the board removes the cluster, counting its balls off. */
    method RemoveCluster(cluster: Cluster)
      requires Valid() && cluster in board.clusters && cluster.countBalls >= 2
      modifies board`balls, board`ballsRemaining, board`clusters
      ensures Valid()
      ensures board.ballsRemaining == old(board.ballsRemaining) - |cluster.balls|
      ensures BallCount(board.balls) < BallCount(old(board.balls))
      ensures cluster.Valid() && cluster.balls != []
      ensures Compressed(Cleared(old(board.balls), cluster.balls), board.balls, PointsOf(cluster.balls),
        cluster.PriorityBall().point.x, board.countColumns)
    {
      assert cluster.Valid();
      board.RemoveCluster(cluster);
    }
  }

  /**
   * RGBGame._build_move: the move records the cluster's priority ball (the
   * leftmost, then lowest, of its balls), its count and the score for it.
   */
  function BuildMove(cluster: Cluster, number: int): (m: Move)
    requires cluster.Valid() && cluster.balls != []
    reads cluster
    ensures m.number == number && m.countBallsRemoved == |cluster.balls|
    ensures m.ball in cluster.balls && forall b :: b in cluster.balls ==> !IsPriority(b, m.ball)
    ensures m.score == ScorePerMove(|cluster.balls|)
  {
    var countBallsRemoved := cluster.countBalls;
    var priorityBall := cluster.PriorityBall();
    Move(number, priorityBall, countBallsRemoved, ScorePerMove(countBallsRemoved))
  }
}
