/**
 West-first routing: what the routing tables of a west-first mesh say, and the
 direction-based algorithms of
 gem5/src/mem/ruby/network/garnet2.0/RoutingUnit.cc.
 */
module WestFirst {
  import opened Grid
  import opened MeshTopology
  import opened ShortestPaths
  import opened SwitchGraph
  import opened RoutingTable

  function Abs(x: int): nat {
    if x < 0 then -x else x
  }

  function Min(x: int, y: int): int {
    if x < y then x else y
  }

  /** Hops between two routers. */
  function Hops(m: Mesh, a: nat, t: nat): nat
    requires m.Valid()
  {
    Abs(m.Col(t) - m.Col(a)) + Abs(m.Row(t) - m.Row(a))
  }

  /** Weight of a shortest route from router a to router t: a hop West costs 1, any
      other hop 2. */
  function Cost(m: Mesh, a: nat, t: nat): nat
    requires m.Valid()
  {
    (if m.Col(t) < m.Col(a) then m.Col(a) - m.Col(t) else 2 * (m.Col(t) - m.Col(a)))
    + 2 * Abs(m.Row(t) - m.Row(a))
  }

  /** Direction d brings a packet at router a one hop closer to router t. */
  predicate Productive(m: Mesh, a: nat, t: nat, d: Direction)
    requires m.Valid()
  {
    match d
    case East => m.Col(a) < m.Col(t)
    case West => m.Col(t) < m.Col(a)
    case North => m.Row(a) < m.Row(t)
    case South => m.Row(t) < m.Row(a)
  }

  /** The west-first rule: West while the target lies West, then any productive
      direction. */
  predicate Allowed(m: Mesh, a: nat, t: nat, d: Direction)
    requires m.Valid()
  {
    Productive(m, a, t, d) && (d == West || !Productive(m, a, t, West))
  }

  lemma ProductiveHas(m: Mesh, a: nat, t: nat, d: Direction)
    requires m.Valid() && a < m.Size() && t < m.Size() && Productive(m, a, t, d)
    ensures m.Has(a, d)
  {
    Encode(m, a);
    Encode(m, t);
  }

  lemma StepChangesHops(m: Mesh, a: nat, t: nat, d: Direction)
    requires m.Valid() && t < m.Size() && m.Has(a, d)
    ensures 0 <= m.Step(a, d) < m.Size()
    ensures Hops(m, m.Step(a, d), t) == Hops(m, a, t) + (if Productive(m, a, t, d) then -1 else 1)
  {
    StepCoordinates(m, a, d);
  }

  /** No step lowers the cost by more than its link's weight, and exactly the
      productive ones lower it by that much. */
  lemma StepChangesCost(m: Mesh, a: nat, t: nat, d: Direction)
    requires m.Valid() && t < m.Size() && m.Has(a, d)
    ensures 0 <= m.Step(a, d) < m.Size()
    ensures Cost(m, a, t) <= LinkWeight(d) + Cost(m, m.Step(a, d), t)
    ensures Cost(m, a, t) == LinkWeight(d) + Cost(m, m.Step(a, d), t) <==> Productive(m, a, t, d)
  {
    StepCoordinates(m, a, d);
  }

  lemma SomeDirectionIsAllowed(m: Mesh, a: nat, t: nat) returns (d: Direction)
    requires m.Valid() && a < m.Size() && t < m.Size() && a != t
    ensures Allowed(m, a, t, d)
  {
    if m.Col(a) == m.Col(t) && m.Row(a) == m.Row(t) {
      SameCoordinates(m, a, t);
    }
    d := if m.Col(t) < m.Col(a) then West
         else if m.Col(a) < m.Col(t) then East
         else if m.Row(a) < m.Row(t) then North
         else South;
  }

  lemma AtTarget(m: Mesh, a: nat, t: nat)
    requires m.Valid() && a < m.Size() && t < m.Size()
    ensures Hops(m, a, t) == 0 <==> a == t
    ensures Cost(m, a, t) == 0 <==> a == t
  {
    if m.Col(a) == m.Col(t) && m.Row(a) == m.Row(t) {
      SameCoordinates(m, a, t);
    }
  }

  // ----- hop counts over the generated links

  ghost predicate Joined(links: seq<IntLink>, a: nat, b: nat) {
    exists k :: 0 <= k < |links| && links[k].src == a && links[k].dst == b
  }

  /** A sequence of routers, each linked to the next. */
  ghost predicate LinkPath(m: Mesh, links: seq<IntLink>, p: seq<nat>) {
    && |p| > 0 && (forall i :: 0 <= i < |p| ==> p[i] < m.Size())
    && forall i :: 0 <= i < |p| - 1 ==> Joined(links, p[i], p[i + 1])
  }

  lemma {:induction false} NoPathBeatsManhattan(m: Mesh, base: nat, links: seq<IntLink>, p: seq<nat>)
    requires m.Valid() && MeshLinks(m, base, links) && LinkPath(m, links, p)
    ensures Hops(m, p[0], p[|p| - 1]) <= |p| - 1
  {
    if |p| > 1 {
      NoPathBeatsManhattan(m, base, links, p[1..]);
      assert Joined(links, p[0], p[1]);
      var k :| 0 <= k < |links| && links[k].src == p[0] && links[k].dst == p[1];
      assert Directed(m, {East, West, North, South}, links[k]);
      var d :| IsLink(m, d, links[k]);
      StepChangesHops(m, p[0], p[|p| - 1], d);
    }
  }

  /** Some path over the generated links has exactly the Manhattan distance as length. */
  lemma {:induction false} ManhattanPath(m: Mesh, base: nat, links: seq<IntLink>, a: nat, t: nat) returns (p: seq<nat>)
    requires m.Valid() && MeshLinks(m, base, links) && a < m.Size() && t < m.Size()
    ensures LinkPath(m, links, p) && p[0] == a && p[|p| - 1] == t && |p| - 1 == Hops(m, a, t)
    decreases Hops(m, a, t)
  {
    if a == t {
      p := [a];
    } else {
      var d := SomeDirectionIsAllowed(m, a, t);
      ProductiveHas(m, a, t, d);
      StepChangesHops(m, a, t, d);
      assert Leaves(m, links, a, d);
      var rest := ManhattanPath(m, base, links, m.Step(a, d), t);
      p := [a] + rest;
      assert Joined(links, p[0], p[1]);
      forall i | 0 < i < |p| - 1 ensures Joined(links, p[i], p[i + 1]) {
        assert Joined(links, rest[i - 1], rest[i]);
      }
    }
  }

  // ----- least weights towards controller d

  /** Lower bounds for the distance from every switch to where controller d receives. */
  function Bound(m: Mesh, attach: seq<nat>, d: nat, x: nat): int
    requires m.Valid() && d < |attach|
  {
    var n := |attach|;
    if x < n then 0
    else if x < 2 * n then (if x == n + d then 0 else INFINITE_LATENCY)
    else Min(INFINITE_LATENCY, 1 + Cost(m, x - 2 * n, attach[d]))
  }

  function Bounds(m: Mesh, attach: seq<nat>, d: nat): (s: seq<int>)
    requires m.Valid() && d < |attach|
    ensures |s| == 2 * |attach| + m.Size()
    ensures forall x :: 0 <= x < |s| ==> s[x] == Bound(m, attach, d, x)
  {
    seq(2 * |attach| + m.Size(), x requires 0 <= x => Bound(m, attach, d, x))
  }

  lemma BoundAcrossLink(m: Mesh, attach: seq<nat>, d: nat, a: nat, dir: Direction)
    requires OnMesh(m, attach) && d < |attach| && m.Has(a, dir)
    ensures 0 <= m.Step(a, dir) < m.Size()
    ensures var n := |attach|;
      Bound(m, attach, d, 2 * n + a) <= LinkWeight(dir) + Bound(m, attach, d, 2 * n + m.Step(a, dir))
  {
    StepChangesCost(m, a, attach[d], dir);
  }

  lemma BoundRange(m: Mesh, attach: seq<nat>, d: nat, x: nat)
    requires m.Valid() && d < |attach|
    ensures 0 <= Bound(m, attach, d, x) <= INFINITE_LATENCY
  {
  }

  /** The links to and from controllers. */
  lemma BoundAcrossExtLink(m: Mesh, attach: seq<nat>, d: nat, a: nat, b: nat)
    requires OnMesh(m, attach) && d < |attach| && Link(m, attach, a, b).Some?
    requires a < 2 * |attach| || b < 2 * |attach|
    ensures Bound(m, attach, d, a) <= EXT_WEIGHT + Bound(m, attach, d, b)
  {
    BoundRange(m, attach, d, a);
    BoundRange(m, attach, d, b);
    if b == |attach| + d {
      AtTarget(m, attach[d], attach[d]);
    }
  }

  /** A link between routers. */
  lemma BoundAcrossIntLink(m: Mesh, attach: seq<nat>, d: nat, x: nat, y: nat)
    requires OnMesh(m, attach) && d < |attach| && DirectionTo(m, x, y).Some?
    ensures var n := |attach|;
      Bound(m, attach, d, 2 * n + x) <= LinkWeight(DirectionTo(m, x, y).value) + Bound(m, attach, d, 2 * n + y)
  {
    BoundAcrossLink(m, attach, d, x, DirectionTo(m, x, y).value);
  }

  lemma LinkedBound(m: Mesh, attach: seq<nat>, d: nat, a: nat, b: nat)
    requires OnMesh(m, attach) && d < |attach| && Link(m, attach, a, b).Some?
    ensures Bound(m, attach, d, a) <= Link(m, attach, a, b).value + Bound(m, attach, d, b)
  {
    var n := |attach|;
    if 2 * n <= a && 2 * n <= b {
      BoundAcrossIntLink(m, attach, d, a - 2 * n, b - 2 * n);
    } else {
      BoundAcrossExtLink(m, attach, d, a, b);
    }
  }

  lemma BoundAcrossEntry(m: Mesh, attach: seq<nat>, d: nat, a: nat, b: nat)
    requires OnMesh(m, attach) && d < |attach|
    requires a < 2 * |attach| + m.Size() && b < 2 * |attach| + m.Size()
    ensures Bound(m, attach, d, a) <= Entry(m, attach, a, b) + Bound(m, attach, d, b)
  {
    BoundRange(m, attach, d, a);
    BoundRange(m, attach, d, b);
    if Link(m, attach, a, b).Some? {
      LinkedBound(m, attach, d, a, b);
    }
  }

  lemma BoundsArePotential(m: Mesh, attach: seq<nat>, w: Matrix, d: nat)
    requires OnMesh(m, attach) && d < |attach| && MeshMatrix(m, attach, w)
    ensures Potential(w, Bounds(m, attach, d))
  {
    var phi := Bounds(m, attach, d);
    forall a: nat, b: nat | a < |w| && b < |w|
      ensures phi[a] <= w[a][b] + phi[b]
    {
      BoundAcrossEntry(m, attach, d, a, b);
    }
  }

  lemma DistanceAtLeast(m: Mesh, attach: seq<nat>, w: Matrix, dist: Matrix, d: nat, x: nat)
    requires OnMesh(m, attach) && d < |attach| && MeshMatrix(m, attach, w)
    requires AllLeastWeights(w, dist) && x < |w|
    ensures Bound(m, attach, d, x) <= dist[x][|attach| + d]
  {
    var y := |attach| + d;
    assert LeastWeight(w, x, y, dist[x][y]) && Attains(w, x, y, dist[x][y]);
    var p :| Walk(|w|, x, y, p) && Weight(w, p) == dist[x][y];
    BoundsArePotential(m, attach, w, d);
    PotentialBoundsWalk(w, Bounds(m, attach, d), p);
  }

  lemma DistanceAtReceiver(m: Mesh, attach: seq<nat>, w: Matrix, dist: Matrix, y: nat)
    requires OnMesh(m, attach) && MeshMatrix(m, attach, w) && AllLeastWeights(w, dist) && y < |w|
    ensures dist[y][y] <= 0
  {
    assert LeastWeight(w, y, y, dist[y][y]);
    assert Walk(|w|, y, y, [y]) && Weight(w, [y]) == 0;
  }

  lemma RouterEntry(m: Mesh, attach: seq<nat>, w: Matrix, a: nat, dir: Direction)
    requires OnMesh(m, attach) && MeshMatrix(m, attach, w) && m.Has(a, dir)
    ensures 0 <= m.Step(a, dir) < m.Size()
    ensures w[2 * |attach| + a][2 * |attach| + m.Step(a, dir)] == LinkWeight(dir)
  {
    StepCoordinates(m, a, dir);
    DirectionToIs(m, a, dir);
    var i, j := 2 * |attach| + a, 2 * |attach| + m.Step(a, dir);
    assert w[i][j] == Entry(m, attach, i, j);
  }

  lemma DistanceOneHopOut(m: Mesh, attach: seq<nat>, w: Matrix, dist: Matrix, d: nat)
    requires OnMesh(m, attach) && d < |attach| && MeshMatrix(m, attach, w) && AllLeastWeights(w, dist)
    ensures dist[2 * |attach| + attach[d]][|attach| + d] <= 1
  {
    var i, y := 2 * |attach| + attach[d], |attach| + d;
    DistanceAtReceiver(m, attach, w, dist, y);
    LeastWeightTriangle(w, dist, i, y, y);
    assert w[i][y] == Entry(m, attach, i, y) == 1;
  }

  /** Going on from a neighbour. */
  lemma DistanceAcrossLink(m: Mesh, attach: seq<nat>, w: Matrix, dist: Matrix, d: nat, a: nat, dir: Direction)
    requires OnMesh(m, attach) && d < |attach| && MeshMatrix(m, attach, w) && AllLeastWeights(w, dist) && m.Has(a, dir)
    ensures 0 <= m.Step(a, dir) < m.Size()
    ensures var n := |attach|;
      dist[2 * n + a][n + d] <= LinkWeight(dir) + dist[2 * n + m.Step(a, dir)][n + d]
  {
    RouterEntry(m, attach, w, a, dir);
    LeastWeightTriangle(w, dist, 2 * |attach| + a, 2 * |attach| + m.Step(a, dir), |attach| + d);
  }

  lemma {:induction false} DistanceAtMost(m: Mesh, attach: seq<nat>, w: Matrix, dist: Matrix, d: nat, a: nat)
    requires OnMesh(m, attach) && d < |attach| && MeshMatrix(m, attach, w)
    requires AllLeastWeights(w, dist) && a < m.Size()
    ensures dist[2 * |attach| + a][|attach| + d] <= 1 + Cost(m, a, attach[d])
    decreases Cost(m, a, attach[d])
  {
    var t := attach[d];
    if a == t {
      DistanceOneHopOut(m, attach, w, dist, d);
    } else {
      var dir := SomeDirectionIsAllowed(m, a, t);
      ProductiveHas(m, a, t, dir);
      StepChangesCost(m, a, t, dir);
      DistanceAtMost(m, attach, w, dist, d, m.Step(a, dir));
      DistanceAcrossLink(m, attach, w, dist, d, a, dir);
    }
  }

  lemma DistanceCapped(m: Mesh, attach: seq<nat>, w: Matrix, dist: Matrix, x: nat, y: nat)
    requires OnMesh(m, attach) && MeshMatrix(m, attach, w) && AllLeastWeights(w, dist)
    requires x < |w| && y < |w|
    ensures dist[x][y] <= INFINITE_LATENCY
  {
    MeshMatrixIsWeightMatrix(m, attach, w);
    LeastWeightTriangle(w, dist, x, y, y);
    DistanceAtReceiver(m, attach, w, dist, y);
  }

  /** The computed distance from a router to a controller: the route's weight plus one
      for the last link, capped at INFINITE_LATENCY. */
  lemma DistanceOfRouter(m: Mesh, attach: seq<nat>, w: Matrix, dist: Matrix, d: nat, a: nat)
    requires OnMesh(m, attach) && d < |attach| && MeshMatrix(m, attach, w)
    requires AllLeastWeights(w, dist) && a < m.Size()
    ensures dist[2 * |attach| + a][|attach| + d] == Min(INFINITE_LATENCY, 1 + Cost(m, a, attach[d]))
  {
    DistanceAtLeast(m, attach, w, dist, d, 2 * |attach| + a);
    DistanceAtMost(m, attach, w, dist, d, a);
    DistanceCapped(m, attach, w, dist, 2 * |attach| + a, |attach| + d);
  }

  // ----- the routing table is west-first routing

  /** The condition under which the cap does not interfere. */
  predicate InRange(m: Mesh, a: nat, t: nat)
    requires m.Valid()
  {
    1 + Cost(m, a, t) <= INFINITE_LATENCY
  }

  /** Where west-first routing sends a packet for controller d from router a: out of the
      mesh at its router, otherwise one hop in an allowed direction. */
  predicate WestFirstNext(m: Mesh, attach: seq<nat>, d: nat, a: nat, next: nat)
    requires OnMesh(m, attach) && d < |attach|
  {
    var n := |attach|;
    if a == attach[d] then next == n + d
    else next >= 2 * n &&
         match DirectionTo(m, a, next - 2 * n)
         case Some(dir) => Allowed(m, a, attach[d], dir)
         case None => false
  }

  /** Where the links of a router lead: out to a controller of its own, or along the mesh. */
  lemma LinkLeads(m: Mesh, attach: seq<nat>, w: Matrix, a: nat, x: nat)
    requires OnMesh(m, attach) && MeshMatrix(m, attach, w) && a < m.Size() && x < |w|
    requires IsLinkWeight(w[2 * |attach| + a][x])
    ensures var n := |attach|;
      if x < 2 * n then n <= x && attach[x - n] == a && w[2 * n + a][x] == 1
      else DirectionTo(m, a, x - 2 * n).Some? && w[2 * n + a][x] == LinkWeight(DirectionTo(m, a, x - 2 * n).value)
  {
    var i := 2 * |attach| + a;
    assert w[i][x] == Entry(m, attach, i, x);
  }

  /** A link out of the mesh lies on shortest paths to its own controller only. */
  lemma ShortestLinkOut(m: Mesh, attach: seq<nat>, w: Matrix, dist: Matrix, d: nat, a: nat, x: nat)
    requires OnMesh(m, attach) && d < |attach| && MeshMatrix(m, attach, w)
    requires AllLeastWeights(w, dist) && a < m.Size() && x < 2 * |attach|
    requires IsLinkWeight(w[2 * |attach| + a][x])
    ensures OnShortestPath(w, dist, |attach|, 2 * |attach| + a, x, d) <==> InRange(m, a, attach[d]) && x == |attach| + d
  {
    LinkLeads(m, attach, w, a, x);
    DistanceOfRouter(m, attach, w, dist, d, a);
    DistanceAtLeast(m, attach, w, dist, d, x);
    if x == |attach| + d {
      DistanceAtReceiver(m, attach, w, dist, x);
      AtTarget(m, a, attach[d]);
    }
  }

  /** A mesh link lies on those that it brings closer. */
  lemma ShortestMeshLink(m: Mesh, attach: seq<nat>, w: Matrix, dist: Matrix, d: nat, a: nat, dir: Direction)
    requires OnMesh(m, attach) && d < |attach| && MeshMatrix(m, attach, w)
    requires AllLeastWeights(w, dist) && m.Has(a, dir)
    ensures 0 <= m.Step(a, dir) < m.Size()
    ensures OnShortestPath(w, dist, |attach|, 2 * |attach| + a, 2 * |attach| + m.Step(a, dir), d) <==>
      InRange(m, a, attach[d]) && Productive(m, a, attach[d], dir)
  {
    StepChangesCost(m, a, attach[d], dir);
    RouterEntry(m, attach, w, a, dir);
    DistanceOfRouter(m, attach, w, dist, d, a);
    DistanceOfRouter(m, attach, w, dist, d, m.Step(a, dir));
  }

  /** Which links of router a lie on shortest paths to controller d. */
  lemma ShortestLinks(m: Mesh, attach: seq<nat>, w: Matrix, dist: Matrix, d: nat, a: nat, x: nat)
    requires OnMesh(m, attach) && d < |attach| && MeshMatrix(m, attach, w)
    requires AllLeastWeights(w, dist) && a < m.Size() && x < |w|
    requires IsLinkWeight(w[2 * |attach| + a][x])
    ensures var n, t := |attach|, attach[d];
      OnShortestPath(w, dist, n, 2 * n + a, x, d) <==>
        InRange(m, a, t) && (x == n + d ||
          (x >= 2 * n && DirectionTo(m, a, x - 2 * n).Some? && Productive(m, a, t, DirectionTo(m, a, x - 2 * n).value)))
  {
    var n := |attach|;
    if x < 2 * n {
      ShortestLinkOut(m, attach, w, dist, d, a, x);
    } else {
      LinkLeads(m, attach, w, a, x);
      var dir := DirectionTo(m, a, x - 2 * n).value;
      assert x - 2 * n == m.Step(a, dir);
      ShortestMeshLink(m, attach, w, dist, d, a, dir);
    }
  }

  /** Main result about the tables: the lookup for controller d at router a may answer
      exactly the west-first next hops if the route is in range, and nothing at all (the
      fatal "No Route exists") if it is not. */
  lemma TableIsWestFirst(m: Mesh, attach: seq<nat>, w: Matrix, dist: Matrix, table: seq<Port>, d: nat, a: nat, next: nat)
    requires OnMesh(m, attach) && d < |attach| && MeshMatrix(m, attach, w)
    requires AllLeastWeights(w, dist) && a < m.Size()
    requires IsTable(w, dist, |attach|, 2 * |attach| + a, table)
    ensures MayForward(table, d, next) <==>
      InRange(m, a, attach[d]) && WestFirstNext(m, attach, d, a, next)
  {
    var n := |attach|;
    ForwardsToLightestShortest(w, dist, n, 2 * n + a, table, d, next);
    if LightestShortest(w, dist, n, 2 * n + a, d, next) {
      LightestIsAllowed(m, attach, w, dist, d, a, next);
    }
    if InRange(m, a, attach[d]) && WestFirstNext(m, attach, d, a, next) {
      AllowedIsLightest(m, attach, w, dist, d, a, next);
    }
  }

  lemma LightestIsAllowed(m: Mesh, attach: seq<nat>, w: Matrix, dist: Matrix, d: nat, a: nat, next: nat)
    requires OnMesh(m, attach) && d < |attach| && MeshMatrix(m, attach, w)
    requires AllLeastWeights(w, dist) && a < m.Size()
    requires LightestShortest(w, dist, |attach|, 2 * |attach| + a, d, next)
    ensures InRange(m, a, attach[d]) && WestFirstNext(m, attach, d, a, next)
  {
    var n, t := |attach|, attach[d];
    ShortestLinks(m, attach, w, dist, d, a, next);
    assert w[2 * n + a][next] == Entry(m, attach, 2 * n + a, next);
    if next >= 2 * n {
      if Productive(m, a, t, West) {
        ProductiveHas(m, a, t, West);
        RouterEntry(m, attach, w, a, West);
        DirectionToIs(m, a, West);
        ShortestLinks(m, attach, w, dist, d, a, 2 * n + m.Step(a, West));
      }
    }
  }

  /** The weight of a west-first next hop. */
  lemma WeightOfNext(m: Mesh, attach: seq<nat>, w: Matrix, d: nat, a: nat, next: nat)
    requires OnMesh(m, attach) && d < |attach| && MeshMatrix(m, attach, w) && a < m.Size()
    requires WestFirstNext(m, attach, d, a, next)
    ensures next < |w|
    ensures w[2 * |attach| + a][next] == if a == attach[d] || Productive(m, a, attach[d], West) then 1 else 2
  {
    var n := |attach|;
    if a == attach[d] {
      assert w[2 * n + a][next] == Entry(m, attach, 2 * n + a, next) == 1;
    } else {
      RouterEntry(m, attach, w, a, DirectionTo(m, a, next - 2 * n).value);
    }
  }

  /** No link on a shortest path is lighter than that. */
  lemma WeightOfShortest(m: Mesh, attach: seq<nat>, w: Matrix, dist: Matrix, d: nat, a: nat, x: nat)
    requires OnMesh(m, attach) && d < |attach| && MeshMatrix(m, attach, w)
    requires AllLeastWeights(w, dist) && a < m.Size() && x < |w|
    requires IsLinkWeight(w[2 * |attach| + a][x]) && OnShortestPath(w, dist, |attach|, 2 * |attach| + a, x, d)
    ensures w[2 * |attach| + a][x] >= if a == attach[d] || Productive(m, a, attach[d], West) then 1 else 2
  {
    var n := |attach|;
    ShortestLinks(m, attach, w, dist, d, a, x);
    assert w[2 * n + a][x] == Entry(m, attach, 2 * n + a, x);
  }

  lemma AllowedIsLightest(m: Mesh, attach: seq<nat>, w: Matrix, dist: Matrix, d: nat, a: nat, next: nat)
    requires OnMesh(m, attach) && d < |attach| && MeshMatrix(m, attach, w)
    requires AllLeastWeights(w, dist) && a < m.Size()
    requires InRange(m, a, attach[d]) && WestFirstNext(m, attach, d, a, next)
    ensures LightestShortest(w, dist, |attach|, 2 * |attach| + a, d, next)
  {
    var n, i := |attach|, 2 * |attach| + a;
    WeightOfNext(m, attach, w, d, a, next);
    ShortestLinks(m, attach, w, dist, d, a, next);
    forall x: nat | x < |w| && IsLinkWeight(w[i][x]) && OnShortestPath(w, dist, n, i, x, d)
      ensures w[i][next] <= w[i][x]
    {
      WeightOfShortest(m, attach, w, dist, d, a, x);
    }
  }
}
