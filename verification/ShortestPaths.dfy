/**
 All-pairs shortest paths over the switch graph of a Ruby network
 (gem5/src/mem/ruby/network/Topology.cc).

 A weight matrix has INFINITE_LATENCY where there is no link, so the algorithm
 works on a complete graph in which a missing link is a very expensive one.
 */
module ShortestPaths {

  type Matrix = seq<seq<int>>

  const INFINITE_LATENCY := 10000

  predicate Square(m: Matrix) {
    forall i :: 0 <= i < |m| ==> |m[i]| == |m|
  }

  predicate NonNegative(m: Matrix)
    requires Square(m)
  {
    forall i, j :: 0 <= i < |m| && 0 <= j < |m| ==> 0 <= m[i][j]
  }

  predicate ZeroDiagonal(m: Matrix)
    requires Square(m)
  {
    forall i :: 0 <= i < |m| ==> m[i][i] == 0
  }

  /** The matrices `createLinks` hands to `shortest_path`. */
  predicate WeightMatrix(m: Matrix) {
    Square(m) && NonNegative(m) && ZeroDiagonal(m)
  }

  // ----- the reference: walks and their weights

  /** p visits switches of an n-switch graph, starting in i and ending in j. */
  ghost predicate Walk(n: nat, i: nat, j: nat, p: seq<nat>) {
    && |p| > 0 && p[0] == i && p[|p| - 1] == j
    && forall k :: 0 <= k < |p| ==> p[k] < n
  }

  ghost function Weight(m: Matrix, p: seq<nat>): int
    requires Square(m)
    requires forall k :: 0 <= k < |p| ==> p[k] < |m|
  {
    if |p| < 2 then 0 else m[p[0]][p[1]] + Weight(m, p[1..])
  }

  /** Some walk from i to j has weight d. */
  ghost predicate Attains(m: Matrix, i: nat, j: nat, d: int)
    requires Square(m)
  {
    exists p :: Walk(|m|, i, j, p) && Weight(m, p) == d
  }

  /** d is the least weight of any walk from i to j, and some walk has it. */
  ghost predicate LeastWeight(m: Matrix, i: nat, j: nat, d: int)
    requires Square(m)
  {
    && Attains(m, i, j, d)
    && (forall p :: Walk(|m|, i, j, p) ==> d <= Weight(m, p))
  }

  ghost predicate AllLeastWeights(m: Matrix, dist: Matrix)
    requires Square(m)
  {
    && Square(dist) && |dist| == |m|
    && forall i: nat, j: nat {:trigger LeastWeight(m, i, j, dist[i][j])} ::
      i < |m| && j < |m| ==> LeastWeight(m, i, j, dist[i][j])
  }

  lemma {:induction false} JoinWalks(m: Matrix, i: nat, k: nat, j: nat, p: seq<nat>, q: seq<nat>)
    requires Square(m)
    requires Walk(|m|, i, k, p) && Walk(|m|, k, j, q)
    ensures Walk(|m|, i, j, p + q[1..])
    ensures Weight(m, p + q[1..]) == Weight(m, p) + Weight(m, q)
    decreases |p|
  {
    if |p| == 1 {
      assert p + q[1..] == q;
    } else {
      JoinWalks(m, p[1], k, j, p[1..], q);
      assert (p + q[1..])[1..] == p[1..] + q[1..];
    }
  }

  // ----- what the sweep keeps: every entry is the weight of some walk

  ghost predicate Attained(m: Matrix, dist: Matrix)
    requires Square(m)
  {
    && Square(dist) && |dist| == |m|
    && forall i: nat, j: nat :: i < |m| && j < |m| ==> Attains(m, i, j, dist[i][j])
  }

  ghost predicate Below(dist: Matrix, m: Matrix)
    requires Square(m) && Square(dist) && |dist| == |m|
  {
    forall i, j :: 0 <= i < |m| && 0 <= j < |m| ==> dist[i][j] <= m[i][j]
  }

  /** No detour through any k improves entry (i, j). */
  predicate Settled(dist: Matrix, i: nat, j: nat)
    requires Square(dist) && i < |dist| && j < |dist|
  {
    forall k :: 0 <= k < |dist| ==> dist[i][j] <= dist[i][k] + dist[k][j]
  }

  lemma WeightsAreAttained(m: Matrix)
    requires WeightMatrix(m)
    ensures Attained(m, m)
  {
    forall i: nat, j: nat | i < |m| && j < |m|
      ensures Attains(m, i, j, m[i][j])
    {
      assert Weight(m, [i, j]) == m[i][j] + Weight(m, [i, j][1..]);
      assert Walk(|m|, i, j, [i, j]);
    }
  }

  lemma DetourIsAttained(m: Matrix, dist: Matrix, i: nat, k: nat, j: nat) returns (p: seq<nat>)
    requires Square(m) && Attained(m, dist)
    requires i < |m| && k < |m| && j < |m|
    ensures Walk(|m|, i, j, p) && Weight(m, p) == dist[i][k] + dist[k][j]
  {
    assert Attains(m, i, k, dist[i][k]) && Attains(m, k, j, dist[k][j]);
    var a :| Walk(|m|, i, k, a) && Weight(m, a) == dist[i][k];
    var b :| Walk(|m|, k, j, b) && Weight(m, b) == dist[k][j];
    JoinWalks(m, i, k, j, a, b);
    p := a + b[1..];
  }

  lemma {:induction false} WalksAreNonNegative(m: Matrix, p: seq<nat>)
    requires WeightMatrix(m)
    requires forall k :: 0 <= k < |p| ==> p[k] < |m|
    ensures 0 <= Weight(m, p)
  {
    if |p| >= 2 {
      WalksAreNonNegative(m, p[1..]);
    }
  }

  /** A settled matrix below the weights is below every walk. */
  lemma {:induction false} SettledIsBelowWalks(m: Matrix, dist: Matrix, i: nat, j: nat, p: seq<nat>)
    requires WeightMatrix(m)
    requires Square(dist) && |dist| == |m| && Below(dist, m)
    requires forall a: nat, b: nat :: a < |m| && b < |m| ==> Settled(dist, a, b)
    requires Walk(|m|, i, j, p)
    ensures dist[i][j] <= Weight(m, p)
    decreases |p|
  {
    if |p| > 1 {
      SettledIsBelowWalks(m, dist, p[1], j, p[1..]);
      assert Settled(dist, i, j);
      assert dist[i][j] <= dist[i][p[1]] + dist[p[1]][j];
      assert dist[i][p[1]] <= m[i][p[1]];
    } else {
      assert dist[i][i] <= m[i][i] == 0;
    }
  }

  // ----- termination measure: the sum of all entries

  ghost function RowSum(r: seq<int>): int {
    if r == [] then 0 else r[0] + RowSum(r[1..])
  }

  ghost function Sum(m: Matrix): int {
    if m == [] then 0 else RowSum(m[0]) + Sum(m[1..])
  }

  lemma {:induction false} RowSumUpdate(r: seq<int>, j: nat, x: int)
    requires j < |r|
    ensures RowSum(r[j := x]) == RowSum(r) - r[j] + x
  {
    if j == 0 {
      assert r[j := x][1..] == r[1..];
    } else {
      RowSumUpdate(r[1..], j - 1, x);
      assert r[j := x][1..] == r[1..][j - 1 := x];
    }
  }

  lemma {:induction false} SumUpdate(m: Matrix, i: nat, row: seq<int>)
    requires i < |m|
    ensures Sum(m[i := row]) == Sum(m) - RowSum(m[i]) + RowSum(row)
  {
    if i == 0 {
      assert m[i := row][1..] == m[1..];
    } else {
      SumUpdate(m[1..], i - 1, row);
      assert m[i := row][1..] == m[1..][i - 1 := row];
    }
  }

  lemma {:induction false} RowSumNonNegative(r: seq<int>)
    requires forall k :: 0 <= k < |r| ==> 0 <= r[k]
    ensures 0 <= RowSum(r)
  {
    if r != [] {
      RowSumNonNegative(r[1..]);
    }
  }

  lemma {:induction false} SumNonNegative(m: Matrix)
    requires forall i, j :: 0 <= i < |m| && 0 <= j < |m[i]| ==> 0 <= m[i][j]
    ensures 0 <= Sum(m)
  {
    if m != [] {
      RowSumNonNegative(m[0]);
      SumNonNegative(m[1..]);
    }
  }

  lemma AttainedIsNonNegative(m: Matrix, dist: Matrix)
    requires WeightMatrix(m) && Attained(m, dist)
    ensures NonNegative(dist) && 0 <= Sum(dist)
  {
    forall i: nat, j: nat | i < |m| && j < |m|
      ensures 0 <= dist[i][j]
    {
      assert Attains(m, i, j, dist[i][j]);
      var p :| Walk(|m|, i, j, p) && Weight(m, p) == dist[i][j];
      WalksAreNonNegative(m, p);
    }
    SumNonNegative(dist);
  }

  /** The invariant of the sweep over a weight matrix m. */
  ghost predicate Inv(m: Matrix, dist: Matrix)
    requires Square(m)
  {
    Attained(m, dist) && Below(dist, m)
  }

  function Set(dist: Matrix, i: nat, j: nat, x: int): (r: Matrix)
    requires Square(dist) && i < |dist| && j < |dist|
    ensures Square(r) && |r| == |dist|
    ensures forall a, b :: 0 <= a < |dist| && 0 <= b < |dist| ==>
      r[a][b] == if a == i && b == j then x else dist[a][b]
  {
    dist[i := dist[i][j := x]]
  }

  lemma Improve(m: Matrix, dist: Matrix, i: nat, k: nat, j: nat, x: int)
    requires WeightMatrix(m) && Inv(m, dist)
    requires i < |m| && k < |m| && j < |m|
    requires x == dist[i][k] + dist[k][j] < dist[i][j]
    ensures Inv(m, Set(dist, i, j, x))
    ensures Sum(Set(dist, i, j, x)) < Sum(dist)
  {
    var r := Set(dist, i, j, x);
    var p := DetourIsAttained(m, dist, i, k, j);
    forall a: nat, b: nat | a < |m| && b < |m|
      ensures Attains(m, a, b, r[a][b])
    {
      if a == i && b == j {
        assert Walk(|m|, a, b, p) && Weight(m, p) == r[a][b];
      } else {
        assert Attains(m, a, b, dist[a][b]);
      }
    }
    RowSumUpdate(dist[i], j, x);
    SumUpdate(dist, i, dist[i][j := x]);
  }

  /** The inner loop over k: the best detour for (i, j), and a switch that gives it. */
  method BestDetour(dist: Matrix, i: nat, j: nat) returns (minimum: int, via: int)
    requires Square(dist) && i < |dist| && j < |dist|
    ensures minimum <= dist[i][j]
    ensures forall k :: 0 <= k < |dist| ==> minimum <= dist[i][k] + dist[k][j]
    ensures minimum == dist[i][j] <==> via == -1
    ensures via != -1 ==> 0 <= via < |dist| && minimum == dist[i][via] + dist[via][j] < dist[i][j]
  {
    minimum := dist[i][j];
    via := -1;
    for k := 0 to |dist|
      invariant minimum <= dist[i][j]
      invariant forall k' :: 0 <= k' < k ==> minimum <= dist[i][k'] + dist[k'][j]
      invariant minimum == dist[i][j] <==> via == -1
      invariant via != -1 ==> 0 <= via < k && minimum == dist[i][via] + dist[via][j] < dist[i][j]
    {
      var previous := minimum;
      var detour := dist[i][k] + dist[k][j];
      if detour < minimum {
        minimum := detour;
      }
      if previous != minimum {
        via := k;
      }
    }
  }

  /** Every entry before (i, j) in row-major order is settled. */
  ghost predicate SettledUpTo(dist: Matrix, i: nat, j: nat)
    requires Square(dist)
  {
    forall a: nat, b: nat :: a < |dist| && b < |dist| && (a < i || (a == i && b < j)) ==> Settled(dist, a, b)
  }

  lemma OneMoreSettled(dist: Matrix, i: nat, j: nat)
    requires Square(dist) && i < |dist| && j < |dist| && SettledUpTo(dist, i, j) && Settled(dist, i, j)
    ensures SettledUpTo(dist, i, j + 1)
  {
  }

  lemma RowSettled(dist: Matrix, i: nat)
    requires Square(dist) && i < |dist| && SettledUpTo(dist, i, |dist|)
    ensures SettledUpTo(dist, i + 1, 0)
  {
  }

  /** One entry of the sweep, in place. */
  method SweepEntry(ghost weights: Matrix, dist0: Matrix, i: nat, j: nat) returns (dist: Matrix, changed: bool)
    requires WeightMatrix(weights) && Inv(weights, dist0) && i < |dist0| && j < |dist0|
    ensures Inv(weights, dist)
    ensures if changed then dist != dist0 && Sum(dist) < Sum(dist0) else dist == dist0 && Settled(dist, i, j)
  {
    var minimum, via := BestDetour(dist0, i, j);
    if dist0[i][j] != minimum {
      Improve(weights, dist0, i, via, j, minimum);
      dist, changed := Set(dist0, i, j, minimum), true;
    } else {
      dist, changed := dist0, false;
    }
  }

  /** One in-place row of the sweep; `change` is the flag of the outer loop. */
  method SweepRow(ghost weights: Matrix, dist0: Matrix, i: nat, change0: bool)
    returns (dist: Matrix, change: bool)
    requires WeightMatrix(weights) && Inv(weights, dist0) && i < |weights|
    requires !change0 ==> SettledUpTo(dist0, i, 0)
    ensures Inv(weights, dist)
    ensures change0 ==> change
    ensures if dist == dist0 then change == change0 else change && Sum(dist) < Sum(dist0)
    ensures !change ==> SettledUpTo(dist, i + 1, 0)
  {
    dist, change := dist0, change0;
    for j := 0 to |dist0|
      invariant Inv(weights, dist)
      invariant change0 ==> change
      invariant if dist == dist0 then change == change0 else change && Sum(dist) < Sum(dist0)
      invariant !change ==> SettledUpTo(dist, i, j)
    {
      var changed;
      dist, changed := SweepEntry(weights, dist, i, j);
      change := change || changed;
      if !change {
        OneMoreSettled(dist, i, j);
      }
    }
    if !change {
      RowSettled(dist, i);
    }
  }

  lemma SettledGivesLeast(weights: Matrix, dist: Matrix)
    requires WeightMatrix(weights) && Inv(weights, dist)
    requires SettledUpTo(dist, |dist|, 0)
    ensures AllLeastWeights(weights, dist)
  {
    forall i: nat, j: nat | i < |weights| && j < |weights|
      ensures LeastWeight(weights, i, j, dist[i][j])
    {
      assert Attains(weights, i, j, dist[i][j]);
      forall p | Walk(|weights|, i, j, p)
        ensures dist[i][j] <= Weight(weights, p)
      {
        SettledIsBelowWalks(weights, dist, i, j, p);
      }
    }
  }

  /** `shortest_path`: repeat in-place sweeps until one changes nothing. */
  method ShortestPath(weights: Matrix) returns (dist: Matrix)
    requires WeightMatrix(weights)
    ensures AllLeastWeights(weights, dist)
  {
    dist := weights;
    WeightsAreAttained(weights);
    var change := true;
    while change
      invariant Inv(weights, dist)
      invariant !change ==> SettledUpTo(dist, |dist|, 0)
      decreases Sum(dist), change
    {
      AttainedIsNonNegative(weights, dist);
      ghost var before := dist;
      change := false;
      for i := 0 to |dist|
        invariant |dist| == |weights| && Inv(weights, dist)
        invariant if dist == before then !change else change && Sum(dist) < Sum(before)
        invariant !change ==> SettledUpTo(dist, i, 0)
      {
        dist, change := SweepRow(weights, dist, i, change);
      }
    }
    SettledGivesLeast(weights, dist);
  }

  // ----- bounding least weights from outside

  /** phi is a potential: no link lowers it by more than its weight. */
  predicate Potential(m: Matrix, phi: seq<int>)
    requires Square(m) && |phi| == |m|
  {
    forall a, k :: 0 <= a < |m| && 0 <= k < |m| ==> phi[a] <= m[a][k] + phi[k]
  }

  lemma {:induction false} PotentialBoundsWalk(m: Matrix, phi: seq<int>, p: seq<nat>)
    requires Square(m) && |phi| == |m| && Potential(m, phi)
    requires |p| > 0 && forall k :: 0 <= k < |p| ==> p[k] < |m|
    ensures phi[p[0]] <= Weight(m, p) + phi[p[|p| - 1]]
  {
    if |p| > 1 {
      PotentialBoundsWalk(m, phi, p[1..]);
      assert phi[p[0]] <= m[p[0]][p[1]] + phi[p[1]];
    }
  }

  lemma LeastWeightTriangle(m: Matrix, dist: Matrix, i: nat, k: nat, j: nat)
    requires Square(m) && AllLeastWeights(m, dist)
    requires i < |m| && k < |m| && j < |m|
    ensures dist[i][j] <= m[i][k] + dist[k][j]
  {
    assert LeastWeight(m, k, j, dist[k][j]) && LeastWeight(m, i, j, dist[i][j]);
    var q :| Walk(|m|, k, j, q) && Weight(m, q) == dist[k][j];
    assert Walk(|m|, i, k, [i, k]);
    assert Weight(m, [i, k]) == m[i][k] + Weight(m, [i, k][1..]);
    JoinWalks(m, i, k, j, [i, k], q);
  }
}
