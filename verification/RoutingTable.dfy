/**
 The routing table of a router, derived from shortest paths
 (gem5/src/mem/ruby/network/Topology.cc), and its lookup
 (gem5/src/mem/ruby/network/garnet2.0/RoutingUnit.cc).
 */
module RoutingTable {
  import opened Options
  import opened ShortestPaths

  /** The weight at which the lookup's running minimum starts. */
  const INFINITE_ := 10000

  /** An output port: the switch it leads to, the controllers it is on a shortest path
      to, and the weight of its link. */
  datatype Port = Port(next: nat, dests: set<nat>, weight: int)

  // ----- building the table of switch i in a network of n controllers

  predicate IsLinkWeight(x: int) {
    x > 0 && x != INFINITE_LATENCY
  }

  /** `link_is_shortest_path_to_node`, for the switch at which controller d receives. */
  predicate OnShortestPath(w: Matrix, dist: Matrix, n: nat, src: nat, next: nat, d: nat)
    requires Square(w) && Square(dist) && |w| == |dist| && 2 * n <= |w|
    requires src < |w| && next < |w| && d < n
  {
    w[src][next] + dist[next][n + d] == dist[src][n + d]
  }

  /** `shortest_path_to_node`. */
  method ShortestPathToNode(w: Matrix, dist: Matrix, n: nat, src: nat, next: nat) returns (dests: set<nat>)
    requires Square(w) && Square(dist) && |w| == |dist| && 2 * n <= |w|
    requires src < |w| && next < |w|
    ensures forall d: nat :: d in dests <==> d < n && OnShortestPath(w, dist, n, src, next, d)
  {
    dests := {};
    for d := 0 to n
      invariant forall e: nat :: e in dests <==> e < d && OnShortestPath(w, dist, n, src, next, e)
    {
      if OnShortestPath(w, dist, n, src, next, d) {
        dests := dests + {d};
      }
    }
  }

  /** table holds exactly the ports of switch i towards switches below j, in order. */
  ghost predicate TableUpTo(w: Matrix, dist: Matrix, n: nat, i: nat, j: nat, table: seq<Port>)
    requires Square(w) && Square(dist) && |w| == |dist| && 2 * n <= |w|
    requires i < |w| && j <= |w|
  {
    && (forall k :: 0 <= k < |table| ==>
      && table[k].next < j && IsLinkWeight(w[i][table[k].next]) && table[k].weight == w[i][table[k].next]
      && forall d: nat :: d in table[k].dests <==> d < n && OnShortestPath(w, dist, n, i, table[k].next, d))
    && (forall x: nat :: x < j && IsLinkWeight(w[i][x]) ==> exists k :: 0 <= k < |table| && table[k].next == x)
    && (forall k, k' :: 0 <= k < k' < |table| ==> table[k].next < table[k'].next)
  }

  ghost predicate IsTable(w: Matrix, dist: Matrix, n: nat, i: nat, table: seq<Port>)
    requires Square(w) && Square(dist) && |w| == |dist| && 2 * n <= |w|
    requires i < |w|
  {
    TableUpTo(w, dist, n, i, |w|, table)
  }

  /** The second half of `createLinks`, for one source switch: every link adds an
      output port with its route entry and weight. */
  method BuildTable(w: Matrix, dist: Matrix, n: nat, i: nat) returns (table: seq<Port>)
    requires Square(w) && Square(dist) && |w| == |dist| && 2 * n <= |w|
    requires i < |w|
    ensures IsTable(w, dist, n, i, table)
  {
    table := [];
    for j := 0 to |w|
      invariant TableUpTo(w, dist, n, i, j, table)
    {
      var weight := w[i][j];
      if weight > 0 && weight != INFINITE_LATENCY {
        var dests := ShortestPathToNode(w, dist, n, i, j);
        ghost var before := table;
        table := table + [Port(j, dests, weight)];
        forall x: nat | x < j + 1 && IsLinkWeight(w[i][x])
          ensures exists k :: 0 <= k < |table| && table[k].next == x
        {
          if x == j {
            assert table[|before|].next == x;
          } else {
            var k :| 0 <= k < |before| && before[k].next == x;
            assert table[k].next == x;
          }
        }
      }
    }
  }

  // ----- looking a destination set up

  predicate Offers(p: Port, dest: set<nat>) {
    p.dests * dest != {}
  }

  /** Port k leads towards some destination, no port that does is lighter, and it is
      no heavier than the starting minimum. */
  predicate IsCandidate(table: seq<Port>, dest: set<nat>, k: nat) {
    && k < |table| && Offers(table[k], dest) && table[k].weight <= INFINITE_
    && forall k' :: 0 <= k' < |table| && Offers(table[k'], dest) ==> table[k].weight <= table[k'].weight
  }

  /** `lookupRoutingTable`: None is the fatal "No Route exists". An ordered virtual
      network takes the first candidate, any other a random one. */
  method Lookup(table: seq<Port>, dest: set<nat>, ordered: bool, rand: nat) returns (r: Option<nat>, ghost candidates: seq<nat>)
    ensures r.None? <==> forall k: nat :: !IsCandidate(table, dest, k)
    ensures r.Some? ==> IsCandidate(table, dest, r.value)
    ensures r.Some? && ordered ==> forall k: nat :: IsCandidate(table, dest, k) ==> r.value <= k
    ensures forall k: nat :: k in candidates <==> IsCandidate(table, dest, k)
    ensures forall j, k :: 0 <= j < k < |candidates| ==> candidates[j] < candidates[k]
    ensures r == if candidates == [] then None else Some(candidates[if ordered then 0 else rand % |candidates|])
  {
    var minWeight := INFINITE_;
    for link := 0 to |table|
      invariant minWeight <= INFINITE_
      invariant forall k :: 0 <= k < link && Offers(table[k], dest) ==> minWeight <= table[k].weight
      invariant minWeight == INFINITE_ || exists k :: 0 <= k < link && Offers(table[k], dest) && table[k].weight == minWeight
    {
      if Offers(table[link], dest) {
        if table[link].weight <= minWeight {
          minWeight := table[link].weight;
        }
      }
    }
    var found: seq<nat> := [];
    for link := 0 to |table|
      invariant forall k: nat :: k in found <==> k < link && Offers(table[k], dest) && table[k].weight == minWeight
      invariant forall j :: 0 <= j < |found| ==> found[j] < link
      invariant forall j, k :: 0 <= j < k < |found| ==> found[j] < found[k]
    {
      if Offers(table[link], dest) {
        if table[link].weight == minWeight {
          found := found + [link];
        }
      }
    }
    candidates := found;
    assert forall k: nat :: k in found <==> IsCandidate(table, dest, k);
    if |found| == 0 {
      return None, candidates;
    }
    var candidate := 0;
    if !ordered {
      candidate := rand % |found|;
    }
    r := Some(found[candidate]);
    assert found[candidate] in found;
    forall k: nat | IsCandidate(table, dest, k)
      ensures found[0] <= k
    {
      var j :| 0 <= j < |found| && found[j] == k;
    }
  }

  /** Every candidate is the answer to some random draw, and in an unordered virtual
      network only candidates are. */
  lemma EveryCandidateCanBeDrawn(candidates: seq<nat>, k: nat)
    requires k in candidates
    ensures exists rand: nat :: candidates[rand % |candidates|] == k
  {
    var i :| 0 <= i < |candidates| && candidates[i] == k;
    assert i % |candidates| == i;
    assert candidates[i % |candidates|] == k;
  }

  /** The switches a router may forward a packet for controller d to. */
  ghost predicate MayForward(table: seq<Port>, d: nat, next: nat) {
    exists k: nat :: IsCandidate(table, {d}, k) && table[k].next == next
  }

  /** In terms of the matrices: a link on a shortest path, and no lighter one. */
  ghost predicate LightestShortest(w: Matrix, dist: Matrix, n: nat, i: nat, d: nat, next: nat)
    requires Square(w) && Square(dist) && |w| == |dist| && 2 * n <= |w|
    requires i < |w| && d < n
  {
    && next < |w| && IsLinkWeight(w[i][next]) && w[i][next] <= INFINITE_ && OnShortestPath(w, dist, n, i, next, d)
    && forall x: nat :: x < |w| && IsLinkWeight(w[i][x]) && OnShortestPath(w, dist, n, i, x, d) ==> w[i][next] <= w[i][x]
  }

  lemma ForwardsToLightestShortest(w: Matrix, dist: Matrix, n: nat, i: nat, table: seq<Port>, d: nat, next: nat)
    requires Square(w) && Square(dist) && |w| == |dist| && 2 * n <= |w|
    requires i < |w| && d < n && IsTable(w, dist, n, i, table)
    ensures MayForward(table, d, next) <==> LightestShortest(w, dist, n, i, d, next)
  {
    forall k | 0 <= k < |table|
      ensures Offers(table[k], {d}) <==> OnShortestPath(w, dist, n, i, table[k].next, d)
    {
      if d in table[k].dests {
        assert d in table[k].dests * {d};
      } else {
        assert table[k].dests * {d} == {};
      }
    }
    if MayForward(table, d, next) {
      var k: nat :| IsCandidate(table, {d}, k) && table[k].next == next;
      forall x: nat | x < |w| && IsLinkWeight(w[i][x]) && OnShortestPath(w, dist, n, i, x, d)
        ensures w[i][next] <= w[i][x]
      {
        var k' :| 0 <= k' < |table| && table[k'].next == x;
      }
    }
    if LightestShortest(w, dist, n, i, d, next) {
      var k :| 0 <= k < |table| && table[k].next == next;
      assert IsCandidate(table, {d}, k);
    }
  }
}
