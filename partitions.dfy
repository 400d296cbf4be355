/**
 * Bookkeeping for the clusterization: the balls held by a list of cluster
 * values, the balls of the clusters not yet merged into another, and the
 * "no two clusters could still be merged" condition.
 */
module Partitions {
  import opened Geometry
  import opened Clusters
  import opened Grids

  /** All balls of all groups, counted with multiplicity. */
  ghost function Sum(gs: seq<Group>): multiset<Ball>
  {
    if gs == [] then multiset{} else Sum(gs[..|gs| - 1]) + multiset(gs[|gs| - 1].balls)
  }

  /** The balls of the groups with index below `n` that `merged` does not list. */
  ghost function UnmergedSum(gs: seq<Group>, merged: seq<int>, n: nat): multiset<Ball>
    requires n <= |gs|
  {
    if n == 0 then multiset{}
    else UnmergedSum(gs, merged, n - 1) + (if n - 1 in merged then multiset{} else multiset(gs[n - 1].balls))
  }

  /** No two groups of the list adjoin: no further merge is possible. */
  ghost predicate Separated(gs: seq<Group>)
  {
    forall a, b {:trigger Adjoins(gs[a], gs[b])} :: 0 <= a < b < |gs| ==> !Adjoins(gs[a], gs[b])
  }

  /** A ball of `other` nearby a ball of `self`, both groups of one colour, makes them adjoin. */
  lemma NearbyAdjoins(self: Group, other: Group, i: int, j: int)
    requires self.color == other.color && 0 <= i < |other.balls| && 0 <= j < |self.balls|
    requires IsNearby(other.balls[i], self.balls[j])
    ensures Adjoins(self, other)
  {
  }

  /** In a separated list, nearby balls of groups of one colour belong to the same group. */
  lemma NearbyShareGroup(gs: seq<Group>, a: int, b: int, i: int, j: int)
    requires Separated(gs) && 0 <= a < |gs| && 0 <= b < |gs|
    requires 0 <= i < |gs[a].balls| && 0 <= j < |gs[b].balls|
    requires gs[a].color == gs[b].color && IsNearby(gs[a].balls[i], gs[b].balls[j])
    ensures a == b
  {
    NearbyIsSymmetricAndOrthogonal(gs[a].balls[i], gs[b].balls[j]);
    if a < b {
      NearbyAdjoins(gs[a], gs[b], j, i);
      assert false;
    } else if b < a {
      NearbyAdjoins(gs[b], gs[a], i, j);
      assert false;
    }
  }

  lemma SumAppend(gs: seq<Group>, g: Group)
    ensures Sum(gs + [g]) == Sum(gs) + multiset(g.balls)
  {
    assert (gs + [g])[..|gs|] == gs;
  }

  /** A group's balls are among the balls of the list. */
  lemma {:induction false} SumHas(gs: seq<Group>, k: int)
    requires 0 <= k < |gs|
    ensures multiset(gs[k].balls) <= Sum(gs)
  {
    if k < |gs| - 1 {
      SumHas(gs[..|gs| - 1], k);
    }
  }

  /** Every ball of the list belongs to one of its groups. */
  lemma {:induction false} SumFind(gs: seq<Group>, b: Ball) returns (k: int)
    requires b in Sum(gs)
    ensures 0 <= k < |gs| && b in gs[k].balls
  {
    var n := |gs| - 1;
    if b in multiset(gs[n].balls) {
      k := n;
    } else {
      k := SumFind(gs[..n], b);
    }
  }

  lemma {:induction false} UnmergedSumOfNone(gs: seq<Group>, n: nat)
    requires n <= |gs|
    ensures UnmergedSum(gs, [], n) == Sum(gs[..n])
  {
    if n > 0 {
      UnmergedSumOfNone(gs, n - 1);
      assert gs[..n][..n - 1] == gs[..n - 1];
    }
  }

  lemma {:induction false} UnmergedSumOfAll(gs: seq<Group>, merged: seq<int>, n: nat)
    requires n <= |gs|
    requires forall k :: 0 <= k < n ==> k in merged
    ensures UnmergedSum(gs, merged, n) == multiset{}
  {
    if n > 0 {
      UnmergedSumOfAll(gs, merged, n - 1);
    }
  }

  /** Marking group `j` as merged takes exactly its balls out of the unmerged sum. */
  lemma {:induction false} UnmergedSumMark(gs: seq<Group>, merged: seq<int>, n: nat, j: int)
    requires n <= |gs| && 0 <= j < n && j !in merged
    ensures UnmergedSum(gs, merged, n) == UnmergedSum(gs, merged + [j], n) + multiset(gs[j].balls)
  {
    if j < n - 1 {
      UnmergedSumMark(gs, merged, n - 1, j);
      var a := UnmergedSum(gs, merged, n - 1);
      var a' := UnmergedSum(gs, merged + [j], n - 1);
      var x := if n - 1 in merged then multiset{} else multiset(gs[n - 1].balls);
      assert (if n - 1 in merged + [j] then multiset{} else multiset(gs[n - 1].balls)) == x;
      assert a + x == a' + x + multiset(gs[j].balls);
    } else {
      UnmergedSumFrame(gs, gs, merged, merged + [j], n - 1);
    }
  }

  /** The unmerged sum only looks at unmerged groups below `n`. */
  lemma {:induction false} UnmergedSumFrame(gs: seq<Group>, gs': seq<Group>, merged: seq<int>, merged': seq<int>, n: nat)
    requires n <= |gs| && n <= |gs'|
    requires forall k :: 0 <= k < n ==> (k in merged <==> k in merged')
    requires forall k :: 0 <= k < n && k !in merged ==> gs[k].balls == gs'[k].balls
    ensures UnmergedSum(gs, merged, n) == UnmergedSum(gs', merged', n)
  {
    if n > 0 {
      UnmergedSumFrame(gs, gs', merged, merged', n - 1);
    }
  }

  // ---------------------------------------------------------------------------
  // One union pass over the groups `gs` (their values when the pass starts).
  // `us` are the groups kept so far, `merged` the indices already taken.

  /**
   * Between two groups of the pass: no ball lost or duplicated, the kept
   * groups are final, and every group, kept or not, is connected.
   */
  ghost predicate Gathered(gs: seq<Group>, us: seq<Group>, merged: seq<int>, total: multiset<Ball>)
  {
    && Sum(us) + UnmergedSum(gs, merged, |gs|) == total
    && Linked(gs) && Linked(us)
    && Separated(us)
    && forall t, j {:trigger Adjoins(gs[j], us[t])} :: 0 <= t < |us| && 0 <= j < |gs| && j !in merged ==> !Adjoins(gs[j], us[t])
  }

  /**
   * While the group `cv` absorbs others: no ball lost or duplicated, `cv`
   * stays apart from the kept groups, and every group, `cv` included, is connected.
   */
  ghost predicate Absorbing(gs: seq<Group>, us: seq<Group>, cv: Group, merged: seq<int>, total: multiset<Ball>)
  {
    && Sum(us) + multiset(cv.balls) + UnmergedSum(gs, merged, |gs|) == total
    && Linked(gs) && Linked(us) && Connected(cv)
    && Separated(us)
    && (forall t :: 0 <= t < |us| ==> !Adjoins(cv, us[t]))
    && forall t, j {:trigger Adjoins(gs[j], us[t])} :: 0 <= t < |us| && 0 <= j < |gs| && j !in merged ==> !Adjoins(gs[j], us[t])
  }

  /** A pass over connected groups starts with nothing kept and nothing merged. */
  lemma GatheredAtStart(gs: seq<Group>)
    requires Linked(gs)
    ensures Gathered(gs, [], [], Sum(gs))
  {
    UnmergedSumOfNone(gs, |gs|);
    assert gs[..|gs|] == gs;
  }

  /** Taking the unmerged group `i` as the one that absorbs the others. */
  lemma StartAbsorbing(gs: seq<Group>, us: seq<Group>, merged: seq<int>, total: multiset<Ball>, i: int)
    requires Gathered(gs, us, merged, total)
    requires 0 <= i < |gs| && i !in merged
    ensures Absorbing(gs, us, gs[i], merged + [i], total)
  {
    UnmergedSumMark(gs, merged, |gs|, i);
    var a := Sum(us);
    var u := UnmergedSum(gs, merged, |gs|);
    var u' := UnmergedSum(gs, merged + [i], |gs|);
    assert a + u == total;
    assert u == u' + multiset(gs[i].balls);
    assert a + multiset(gs[i].balls) + u' == total;
  }

  /**
   * `cv` absorbs the unmerged group `j` it adjoins: the two share no ball,
   * so merging concatenates their balls, the merged group is connected, and
   * the pass stays consistent.
   */
  lemma AbsorbOne(gs: seq<Group>, us: seq<Group>, cv: Group, merged: seq<int>, total: multiset<Ball>, j: int)
    requires Absorbing(gs, us, cv, merged, total) && Distinct(total)
    requires 0 <= j < |gs| && j !in merged && Adjoins(gs[j], cv)
    ensures forall e :: multiset(cv.balls)[e] + multiset(gs[j].balls)[e] <= 1
    ensures Absorbing(gs, us, Group(cv.color, AppendNew(cv.balls, gs[j].balls)), merged + [j], total)
  {
    var su := Sum(us);
    var cb := multiset(cv.balls);
    var ob := multiset(gs[j].balls);
    var rest := UnmergedSum(gs, merged + [j], |gs|);
    UnmergedSumMark(gs, merged, |gs|, j);
    forall e ensures cb[e] + ob[e] <= 1 {
      assert (su + cb + (rest + ob))[e] == total[e];
    }
    AppendNewDisjoint(cv.balls, gs[j].balls);
    AppendNewFacts(cv.balls, gs[j].balls);
    var cv' := Group(cv.color, AppendNew(cv.balls, gs[j].balls));
    assert su + multiset(cv'.balls) + rest == total;
    ConnectedJoin(cv, gs[j]);
    ConnectedSameBalls(Group(cv.color, cv.balls + gs[j].balls), cv');
    forall t | 0 <= t < |us| ensures !Adjoins(cv', us[t]) {
      AdjoinsConcat(cv, gs[j], us[t]);
      AdjoinsSameBalls(cv', Group(cv.color, cv.balls + gs[j].balls), us[t]);
    }
  }

  /** When no unmerged group adjoins `cv` any more, it is kept. */
  lemma FinishAbsorbing(gs: seq<Group>, us: seq<Group>, cv: Group, merged: seq<int>, total: multiset<Ball>)
    requires Absorbing(gs, us, cv, merged, total)
    requires forall j :: 0 <= j < |gs| && j !in merged ==> !Adjoins(gs[j], cv)
    ensures Gathered(gs, us + [cv], merged, total)
  {
    SumAppend(us, cv);
    var us' := us + [cv];
    assert forall t :: 0 <= t < |us| ==> us'[t] == us[t];
    forall a, b | 0 <= a < b < |us'| ensures !Adjoins(us'[a], us'[b]) {
      if b == |us| {
        AdjoinsIsSymmetric(us[a], cv);
        assert us'[a] == us[a] && us'[b] == cv;
      } else {
        assert us'[a] == us[a] && us'[b] == us[b];
      }
    }
  }

  /**
   * Once every group is merged, the kept groups hold exactly the balls of
   * the pass, each is connected and no two adjoin.
   */
  lemma GatheredAtEnd(gs: seq<Group>, us: seq<Group>, merged: seq<int>, total: multiset<Ball>)
    requires Gathered(gs, us, merged, total)
    requires forall k :: 0 <= k < |gs| ==> k in merged
    ensures Sum(us) == total && Linked(us) && Separated(us)
  {
    UnmergedSumOfAll(gs, merged, |gs|);
  }
}
