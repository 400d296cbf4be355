/**
 * Clusters: colour-homogeneous groups of balls with a tracked priority ball
 * (the one furthest left, then lowest).
 */
module Clusters {
  import opened Wrappers
  import opened Geometry

  /** The colour-mismatch error raised by Cluster.add_ball. */
  datatype ClusterError = InvalidBallColorCluster(color: Color, necessaryColor: Color)

  /** The value of a cluster: its colour and its balls in insertion order. */
  datatype Group = Group(color: Color, balls: seq<Ball>)

  /**
   * Cluster.can_belong seen from `self`: the same colour, and some ball of
   * `other` is nearby some ball of `self`.
   */
  predicate Adjoins(self: Group, other: Group)
  {
    self.color == other.color &&
    exists i, j :: 0 <= i < |other.balls| && 0 <= j < |self.balls| && IsNearby(other.balls[i], self.balls[j])
  }

  lemma AdjoinsIsSymmetric(a: Group, b: Group)
    ensures Adjoins(a, b) <==> Adjoins(b, a)
  {
    if Adjoins(a, b) {
      var i, j :| 0 <= i < |b.balls| && 0 <= j < |a.balls| && IsNearby(b.balls[i], a.balls[j]);
      NearbyIsSymmetricAndOrthogonal(b.balls[i], a.balls[j]);
    }
    if Adjoins(b, a) {
      var i, j :| 0 <= i < |a.balls| && 0 <= j < |b.balls| && IsNearby(a.balls[i], b.balls[j]);
      NearbyIsSymmetricAndOrthogonal(a.balls[i], b.balls[j]);
    }
  }

  /** A group adjoins `other` exactly when one of its two parts does. */
  lemma AdjoinsConcat(a: Group, b: Group, other: Group)
    requires a.color == b.color
    ensures Adjoins(Group(a.color, a.balls + b.balls), other) <==> Adjoins(a, other) || Adjoins(b, other)
  {
    var ab := a.balls + b.balls;
    if Adjoins(Group(a.color, ab), other) {
      var i, j :| 0 <= i < |other.balls| && 0 <= j < |ab| && IsNearby(other.balls[i], ab[j]);
      if j >= |a.balls| {
        assert IsNearby(other.balls[i], b.balls[j - |a.balls|]);
      }
    }
    if Adjoins(b, other) {
      var i, j :| 0 <= i < |other.balls| && 0 <= j < |b.balls| && IsNearby(other.balls[i], b.balls[j]);
      assert ab[|a.balls| + j] == b.balls[j];
    }
    if Adjoins(a, other) {
      var i, j :| 0 <= i < |other.balls| && 0 <= j < |a.balls| && IsNearby(other.balls[i], a.balls[j]);
      assert ab[j] == a.balls[j];
    }
  }

  /** Adjacency only depends on which balls a group holds. */
  lemma AdjoinsSameBalls(a: Group, b: Group, other: Group)
    requires a.color == b.color
    requires forall x :: x in a.balls <==> x in b.balls
    ensures Adjoins(a, other) <==> Adjoins(b, other)
  {
    if Adjoins(a, other) {
      var i, j :| 0 <= i < |other.balls| && 0 <= j < |a.balls| && IsNearby(other.balls[i], a.balls[j]);
      assert a.balls[j] in b.balls;
      var j' :| 0 <= j' < |b.balls| && b.balls[j'] == a.balls[j];
    }
    if Adjoins(b, other) {
      var i, j :| 0 <= i < |other.balls| && 0 <= j < |b.balls| && IsNearby(other.balls[i], b.balls[j]);
      assert b.balls[j] in a.balls;
      var j' :| 0 <= j' < |a.balls| && a.balls[j'] == b.balls[j];
    }
  }

  /** Some ball of `bs` lies in `part` and some ball of `bs` lies outside it. */
  ghost predicate Splits(part: set<Ball>, bs: seq<Ball>)
  {
    (exists i :: 0 <= i < |bs| && bs[i] in part) && (exists j :: 0 <= j < |bs| && bs[j] !in part)
  }

  /** A ball of `bs` in `part` is nearby a ball of `bs` outside it. */
  ghost predicate Bridged(part: set<Ball>, bs: seq<Ball>)
  {
    exists i, j :: 0 <= i < |bs| && 0 <= j < |bs| && bs[i] in part && bs[j] !in part && IsNearby(bs[i], bs[j])
  }

  /**
   * The balls of the group are connected through nearby pairs: however they
   * are split into two non-empty parts, a ball of one part is nearby a ball
   * of the other.
   */
  ghost predicate Connected(g: Group)
  {
    forall part :: Splits(part, g.balls) ==> Bridged(part, g.balls)
  }

  /** Every group of the list is connected. */
  ghost predicate Linked(gs: seq<Group>)
  {
    forall k :: 0 <= k < |gs| ==> Connected(gs[k])
  }

  /** A group of one ball is connected. */
  lemma SingleIsConnected(b: Ball)
    ensures Connected(Group(b.color, [b]))
  {
    forall part ensures !Splits(part, [b]) {
      assert forall i :: 0 <= i < 1 ==> [b][i] == b;
    }
  }

  /** Connectivity only depends on which balls a group holds. */
  lemma ConnectedSameBalls(a: Group, b: Group)
    requires forall x :: x in a.balls <==> x in b.balls
    requires Connected(a)
    ensures Connected(b)
  {
    forall part | Splits(part, b.balls) ensures Bridged(part, b.balls) {
      var i :| 0 <= i < |b.balls| && b.balls[i] in part;
      var j :| 0 <= j < |b.balls| && b.balls[j] !in part;
      assert b.balls[i] in a.balls && b.balls[j] in a.balls;
      var i' :| 0 <= i' < |a.balls| && a.balls[i'] == b.balls[i];
      var j' :| 0 <= j' < |a.balls| && a.balls[j'] == b.balls[j];
      assert Splits(part, a.balls);
      var p, q :| 0 <= p < |a.balls| && 0 <= q < |a.balls| && a.balls[p] in part && a.balls[q] !in part && IsNearby(a.balls[p], a.balls[q]);
      assert a.balls[p] in b.balls && a.balls[q] in b.balls;
      var p' :| 0 <= p' < |b.balls| && b.balls[p'] == a.balls[p];
      var q' :| 0 <= q' < |b.balls| && b.balls[q'] == a.balls[q];
    }
  }

  /** Two connected groups that adjoin form a connected group together. */
  lemma ConnectedJoin(a: Group, b: Group)
    requires Connected(a) && Connected(b) && Adjoins(b, a)
    ensures Connected(Group(a.color, a.balls + b.balls))
  {
    var ab := a.balls + b.balls;
    var n := |a.balls|;
    forall part | Splits(part, ab) ensures Bridged(part, ab) {
      if Splits(part, a.balls) {
        var p, q :| 0 <= p < n && 0 <= q < n && a.balls[p] in part && a.balls[q] !in part && IsNearby(a.balls[p], a.balls[q]);
        assert ab[p] == a.balls[p] && ab[q] == a.balls[q];
      } else if Splits(part, b.balls) {
        var p, q :| 0 <= p < |b.balls| && 0 <= q < |b.balls| && b.balls[p] in part && b.balls[q] !in part && IsNearby(b.balls[p], b.balls[q]);
        assert ab[n + p] == b.balls[p] && ab[n + q] == b.balls[q];
      } else {
        var i, j :| 0 <= i < n && 0 <= j < |b.balls| && IsNearby(a.balls[i], b.balls[j]);
        assert ab[i] == a.balls[i] && ab[n + j] == b.balls[j];
        var k :| 0 <= k < |ab| && ab[k] in part;
        var l :| 0 <= l < |ab| && ab[l] !in part;
        if a.balls[i] in part {
          assert forall m :: 0 <= m < n ==> ab[m] == a.balls[m] && a.balls[m] in part;
          assert n <= l && ab[l] == b.balls[l - n];
          assert b.balls[j] !in part;
        } else {
          assert forall m :: 0 <= m < n ==> ab[m] == a.balls[m] && a.balls[m] !in part;
          assert n <= k && ab[k] == b.balls[k - n];
          assert b.balls[j] in part;
          NearbyIsSymmetricAndOrthogonal(a.balls[i], b.balls[j]);
        }
      }
    }
  }

  /** Of two balls of the same colour that are not nearby, neither can reach the other alone. */
  lemma ApartIsNotConnected(a: Ball, b: Ball)
    requires a.color == b.color && a != b && !IsNearby(a, b)
    ensures !Connected(Group(a.color, [a, b]))
  {
    NearbyIsSymmetricAndOrthogonal(a, b);
    assert Splits({a}, [a, b]) by {
      assert [a, b][0] in {a} && [a, b][1] !in {a};
    }
  }

  /**
   * The balls after Cluster.merge: every ball of `bs`, in order, is appended
   * unless an equal ball (same colour and position) is already there.
   */
  function AppendNew(acc: seq<Ball>, bs: seq<Ball>): seq<Ball>
  {
    if bs == [] then acc
    else
      var prev := AppendNew(acc, bs[..|bs| - 1]);
      if bs[|bs| - 1] in prev then prev else prev + [bs[|bs| - 1]]
  }

  ghost predicate NoDuplicates(s: seq<Ball>)
  {
    forall i, j :: 0 <= i < j < |s| ==> s[i] != s[j]
  }

  /**
   * Merging keeps the old balls as a prefix, holds exactly the balls of both
   * sides, and never creates a duplicate.
   */
  lemma {:induction false} AppendNewFacts(acc: seq<Ball>, bs: seq<Ball>)
    ensures acc <= AppendNew(acc, bs)
    ensures forall b :: b in AppendNew(acc, bs) <==> b in acc || b in bs
    ensures NoDuplicates(acc) ==> NoDuplicates(AppendNew(acc, bs))
  {
    if bs != [] {
      var n := |bs| - 1;
      AppendNewFacts(acc, bs[..n]);
      assert bs == bs[..n] + [bs[n]];
    }
  }

  /** When no ball is shared or repeated, merging simply concatenates (as multisets). */
  lemma {:induction false} AppendNewDisjoint(acc: seq<Ball>, bs: seq<Ball>)
    requires forall e :: multiset(acc)[e] + multiset(bs)[e] <= 1
    ensures multiset(AppendNew(acc, bs)) == multiset(acc) + multiset(bs)
  {
    if bs != [] {
      var n := |bs| - 1;
      assert bs == bs[..n] + [bs[n]];
      forall e ensures multiset(acc)[e] + multiset(bs[..n])[e] <= 1 {
        assert multiset(bs)[e] == multiset(bs[..n])[e] + multiset([bs[n]])[e];
      }
      AppendNewDisjoint(acc, bs[..n]);
      AppendNewFacts(acc, bs[..n]);
      var prev := AppendNew(acc, bs[..n]);
      assert multiset(bs)[bs[n]] >= 1;
      assert multiset(acc)[bs[n]] == 0;
      assert multiset(bs[..n])[bs[n]] == 0;
      assert bs[n] !in prev;
    }
  }

  /** When every ball of `bs` is already present, merging changes nothing. */
  lemma {:induction false} AppendNewPresent(acc: seq<Ball>, bs: seq<Ball>)
    requires forall b :: b in bs ==> b in acc
    ensures AppendNew(acc, bs) == acc
  {
    if bs != [] {
      AppendNewPresent(acc, bs[..|bs| - 1]);
    }
  }

  class Cluster {
    const color: Color
    var balls: seq<Ball>
    var countBalls: int
    var indexPriorityBall: int

    /**
     * The counter equals the number of balls, every ball has the cluster's
     * colour, and the priority index (-1 while empty) names a ball no other
     * ball is more prioritized than.
     */
    ghost predicate Valid()
      reads this
    {
      && countBalls == |balls|
      && (forall k :: 0 <= k < |balls| ==> balls[k].color == color)
      && (balls == [] ==> indexPriorityBall == -1)
      && (balls != [] ==>
            && 0 <= indexPriorityBall < |balls|
            && forall k :: 0 <= k < |balls| ==> !IsPriority(balls[k], balls[indexPriorityBall]))
    }

    ghost function Value(): Group
      reads this
    {
      Group(color, balls)
    }

    constructor (color: Color)
      ensures Valid() && this.color == color && balls == []
    {
      this.color := color;
      balls := [];
      countBalls := 0;
      indexPriorityBall := -1;
    }

    /** Cluster.get_priority_ball: the ball furthest left, and lowest among those. */
    function PriorityBall(): (b: Ball)
      requires Valid() && balls != []
      reads this
      ensures b in balls
      ensures forall c :: c in balls ==> b.point.x < c.point.x || (b.point.x == c.point.x && b.point.y <= c.point.y)
    {
      balls[indexPriorityBall]
    }

    /**
     * Cluster.add_ball: a ball of another colour is refused and nothing
     * changes; otherwise it is appended, the counter grows by one and it
     * becomes the priority ball when it is strictly more prioritized.
     */
    method AddBall(ball: Ball) returns (r: Outcome<ClusterError>)
      requires Valid()
      modifies this
      ensures Valid()
      ensures r.Pass? <==> ball.color == color
      ensures r.Fail? ==> r.error == InvalidBallColorCluster(ball.color, color) && unchanged(this)
      ensures r.Pass? ==> balls == old(balls) + [ball] && countBalls == old(countBalls) + 1
      ensures r.Pass? ==> (indexPriorityBall ==
        if old(balls) == [] || IsPriority(ball, old(balls)[old(indexPriorityBall)]) then |old(balls)| else old(indexPriorityBall))
    {
      if ball.color != color {
        return Fail(InvalidBallColorCluster(ball.color, color));
      }
      balls := balls + [ball];
      countBalls := countBalls + 1;
      SetIndexPriorityBallIfNeeded(countBalls - 1);
      r := Pass;
    }

    /** Cluster._if_need_set_index_priority_ball, for the ball just appended. */
    method SetIndexPriorityBallIfNeeded(index: int)
      requires |balls| > 0 && index == |balls| - 1 && countBalls == |balls|
      requires forall k :: 0 <= k < |balls| ==> balls[k].color == color
      requires index == 0 <==> indexPriorityBall == -1
      requires index > 0 ==> (0 <= indexPriorityBall < index &&
        forall k :: 0 <= k < index ==> !IsPriority(balls[k], balls[indexPriorityBall]))
      modifies this`indexPriorityBall
      ensures Valid()
      ensures indexPriorityBall ==
        if old(indexPriorityBall) == -1 || IsPriority(balls[index], balls[old(indexPriorityBall)]) then index else old(indexPriorityBall)
    {
      if indexPriorityBall == -1 {
        indexPriorityBall := index;
        return;
      }
      var priorityBall := balls[indexPriorityBall];
      var ball := balls[index];
      if IsPriority(ball, priorityBall) {
        forall k | 0 <= k < |balls| ensures !IsPriority(balls[k], ball) {
          PriorityIsStrictOrder(balls[k], ball, priorityBall);
        }
        indexPriorityBall := index;
      }
    }

    /** Cluster.can_belong: same colour and some ball of `other` is nearby some ball of this cluster. */
    predicate CanBelong(other: Cluster)
      reads this, other
    {
      Adjoins(Group(color, balls), Group(other.color, other.balls))
    }

    /** Cluster.is_exist_ball: an equal ball (same colour and position) is already in the cluster. */
    predicate IsExistBall(ball: Ball)
      reads this
      ensures IsExistBall(ball) <==> ball in balls
    {
      exists k :: 0 <= k < |balls| && BallIsEqual(ball, balls[k])
    }

    /**
     * Cluster.merge: appends, in order, every ball of `other` not already
     * present. A ball of another colour raises the colour error midway; the
     * balls appended before it stay.
     */
    method Merge(other: Cluster) returns (r: Outcome<ClusterError>)
      requires Valid() && other.Valid()
      modifies this
      ensures Valid()
      ensures old(balls) <= balls
      ensures forall b :: b in balls ==> b in old(balls) || b in old(other.balls)
      ensures r.Pass? <==> forall b :: b in old(other.balls) ==> b.color == color
      ensures r.Pass? ==> balls == AppendNew(old(balls), old(other.balls))
    {
      ghost var acc := balls;
      ghost var bs := other.balls;
      var count := other.countBalls;
      var index := 0;
      while index < count
        invariant 0 <= index <= count == |bs|
        invariant Valid()
        invariant other == this ==> balls == acc
        invariant other != this ==> other.balls == bs
        invariant balls == AppendNew(acc, bs[..index])
        invariant forall k :: 0 <= k < index ==> bs[k].color == color
      {
        var otherBall := other.balls[index];
        assert otherBall == bs[index];
        assert bs[..index + 1] == bs[..index] + [otherBall];
        if !IsExistBall(otherBall) {
          if other == this {
            assert false;
          }
          r := AddBall(otherBall);
          if r.Fail? {
            AppendNewFacts(acc, bs[..index]);
            return;
          }
        } else {
          assert otherBall.color == color;
        }
        index := index + 1;
      }
      assert bs[..index] == bs;
      AppendNewFacts(acc, bs);
      r := Pass;
    }
  }
}
