/**
 The routers of a west-first mesh, put together: from the command-line options to one
 routing table per router; and the direction-based alternatives in
 gem5/src/mem/ruby/network/garnet2.0/RoutingUnit.cc.
 */
module RoutingUnit {
  import opened Grid
  import opened MeshTopology
  import opened ShortestPaths
  import opened SwitchGraph
  import opened RoutingTable
  import opened WestFirst

  // ----- end to end

  /** Controller ids are 0 .. n - 1, each used once. */
  ghost predicate WellNumbered(nodes: seq<Controller>) {
    && (forall k :: 0 <= k < |nodes| ==> nodes[k].id < |nodes|)
    && (forall j, k :: 0 <= j < k < |nodes| ==> nodes[j].id != nodes[k].id)
    && (forall i: nat {:trigger Numbered(nodes, i)} :: i < |nodes| ==> Numbered(nodes, i))
  }

  ghost predicate Numbered(nodes: seq<Controller>, i: nat) {
    exists k :: 0 <= k < |nodes| && nodes[k].id == i
  }

  /** The router of the controller with id i. */
  ghost function RouterOf(nodes: seq<Controller>, routers: nat, i: nat): nat
    requires WellNumbered(nodes) && routers > 0 && i < |nodes|
  {
    assert Numbered(nodes, i);
    var k :| 0 <= k < |nodes| && nodes[k].id == i;
    AttachedTo(|nodes|, routers, k)
  }

  ghost function Attach(nodes: seq<Controller>, routers: nat): (attach: seq<nat>)
    requires WellNumbered(nodes) && routers > 0
    ensures |attach| == |nodes|
    ensures forall i :: 0 <= i < |attach| ==> attach[i] == RouterOf(nodes, routers, i)
  {
    seq(|nodes|, i requires 0 <= i < |nodes| => RouterOf(nodes, routers, i))
  }

  lemma RouterOfNode(nodes: seq<Controller>, routers: nat, k: nat)
    requires WellNumbered(nodes) && routers > 0 && k < |nodes|
    ensures RouterOf(nodes, routers, nodes[k].id) == AttachedTo(|nodes|, routers, k)
  {
    assert Numbered(nodes, nodes[k].id);
  }

  lemma BuiltIsAttached(nodes: seq<Controller>, m: Mesh, t: Topology)
    requires m.Valid() && m.Size() > 0 && Built(nodes, m, t) && WellNumbered(nodes)
    ensures Attached(t, Attach(nodes, m.Size()))
    ensures OnMesh(m, Attach(nodes, m.Size()))
  {
    var attach := Attach(nodes, m.Size());
    forall k | 0 <= k < |t.extLinks|
      ensures t.extLinks[k].node.id < |attach| && t.extLinks[k].router == attach[t.extLinks[k].node.id]
    {
      RouterOfNode(nodes, m.Size(), k);
    }
    forall i | 0 <= i < |attach|
      ensures attach[i] < m.Size() && Linked(t.extLinks, i)
    {
      assert Numbered(nodes, i);
      var k :| 0 <= k < |nodes| && nodes[k].id == i;
      assert t.extLinks[k].node.id == i;
    }
  }

  /** tables[a] forwards west-first wherever the route is in range, and nowhere else. */
  ghost predicate WestFirstTables(m: Mesh, attach: seq<nat>, tables: seq<seq<Port>>)
    requires OnMesh(m, attach)
  {
    && |tables| == m.Size()
    && forall a: nat, d: nat, next: nat :: a < m.Size() && d < |attach| ==>
      (MayForward(tables[a], d, next) <==> InRange(m, a, attach[d]) && WestFirstNext(m, attach, d, a, next))
  }

  datatype Setup = Ready(mesh: Mesh, tables: seq<seq<Port>>) | Rejected(error: Error)

  /** Build the topology, its weight matrix, all shortest paths and every router's
      table. `Topology` insists on at least two controllers. */
  method SetUpRouting(nodes: seq<Controller>, numRouters: int, numRows: int) returns (r: Setup)
    requires WellNumbered(nodes) && |nodes| > 1
    ensures r.Ready? <==> Accepted(nodes, numRouters, numRows)
    ensures r.Ready? ==>
      && r.mesh == Mesh(numRows, numRouters / numRows) && r.mesh.Valid() && r.mesh.Size() == numRouters
      && OnMesh(r.mesh, Attach(nodes, numRouters))
      && WestFirstTables(r.mesh, Attach(nodes, numRouters), r.tables)
      && ((forall a: nat, d: nat :: a < numRouters && d < |nodes| ==> HasRoute(r.tables, a, d)) <==>
          SmallEnough(|nodes|, r.mesh))
  {
    var built := MakeTopology(nodes, numRouters, numRows);
    if built.Failure? {
      return Rejected(built.error);
    }
    var t := built.topology;
    var m := t.mesh;
    BuiltIsAttached(nodes, m, t);
    var tables := TablesOf(t, |nodes|, Attach(nodes, numRouters));
    BuiltInRangeIff(nodes, m);
    AllRoutesExistIff(m, Attach(nodes, numRouters), tables);
    r := Ready(m, tables);
  }

  method TablesOf(t: Topology, n: nat, ghost attach: seq<nat>) returns (tables: seq<seq<Port>>)
    requires Attached(t, attach) && OnMesh(t.mesh, attach) && n == |attach| > 0
    requires MeshLinks(t.mesh, |t.extLinks|, t.intLinks)
    ensures WestFirstTables(t.mesh, attach, tables)
  {
    var w := WeightsOf(t, n, attach);
    MeshMatrixIsWeightMatrix(t.mesh, attach, w);
    var dist := ShortestPath(w);
    tables := AllTables(w, dist, n, t.mesh.Size());
    TablesAreWestFirst(t.mesh, attach, w, dist, tables);
  }

  method WeightsOf(t: Topology, n: nat, ghost attach: seq<nat>) returns (w: Matrix)
    requires Attached(t, attach) && OnMesh(t.mesh, attach) && n == |attach| > 0
    requires MeshLinks(t.mesh, |t.extLinks|, t.intLinks)
    ensures MeshMatrix(t.mesh, attach, w)
  {
    var lm := CollectLinks(t, n, attach);
    ghost var a, b := LastRouterIsLinked(t.mesh, attach);
    assert (a, b) in lm.Keys;
    w := FillWeights(lm);
    MatrixOfMesh(t.mesh, attach, lm, w);
  }

  method AllTables(w: Matrix, dist: Matrix, n: nat, routers: nat) returns (tables: seq<seq<Port>>)
    requires Square(w) && Square(dist) && |w| == |dist| == 2 * n + routers
    ensures |tables| == routers
    ensures forall a :: 0 <= a < routers ==> IsTable(w, dist, n, 2 * n + a, tables[a])
  {
    tables := [];
    for r := 0 to routers
      invariant |tables| == r
      invariant forall a :: 0 <= a < r ==> IsTable(w, dist, n, 2 * n + a, tables[a])
    {
      var table := BuildTable(w, dist, n, 2 * n + r);
      tables := tables + [table];
    }
  }

  lemma TablesAreWestFirst(m: Mesh, attach: seq<nat>, w: Matrix, dist: Matrix, tables: seq<seq<Port>>)
    requires OnMesh(m, attach) && MeshMatrix(m, attach, w) && AllLeastWeights(w, dist)
    requires |tables| == m.Size()
    requires forall a :: 0 <= a < |tables| ==> IsTable(w, dist, |attach|, 2 * |attach| + a, tables[a])
    ensures WestFirstTables(m, attach, tables)
  {
    forall a: nat, d: nat, next: nat | a < m.Size() && d < |attach|
      ensures MayForward(tables[a], d, next) <==> InRange(m, a, attach[d]) && WestFirstNext(m, attach, d, a, next)
    {
      TableIsWestFirst(m, attach, w, dist, tables[a], d, a, next);
    }
  }

  // ----- when the cap matters

  /** The dearest route of a mesh runs from router 0 to the opposite corner. */
  lemma DearestRoute(m: Mesh, a: nat, t: nat)
    requires m.Valid() && a < m.Size() && t < m.Size()
    ensures Cost(m, a, t) <= 2 * (m.cols - 1) + 2 * (m.rows - 1)
  {
    Encode(m, a);
    Encode(m, t);
  }

  lemma CornerCost(m: Mesh)
    requires m.Valid()
    ensures 0 < m.Size()
    ensures m.Id(m.rows - 1, m.cols - 1) < m.Size()
    ensures Cost(m, 0, m.Id(m.rows - 1, m.cols - 1)) == 2 * (m.cols - 1) + 2 * (m.rows - 1)
  {
    Decode(m, 0, 0);
    Decode(m, m.rows - 1, m.cols - 1);
  }

  /** The lookup at router a for controller d has an answer. */
  ghost predicate HasRoute(tables: seq<seq<Port>>, a: nat, d: nat)
    requires a < |tables|
  {
    exists next: nat :: MayForward(tables[a], d, next)
  }

  lemma HasRouteIff(m: Mesh, attach: seq<nat>, tables: seq<seq<Port>>, a: nat, d: nat)
    requires OnMesh(m, attach) && WestFirstTables(m, attach, tables)
    requires a < m.Size() && d < |attach|
    ensures HasRoute(tables, a, d) <==> InRange(m, a, attach[d])
  {
    var next := NextHopExists(m, attach, d, a);
    assert MayForward(tables[a], d, next) <==> InRange(m, a, attach[d]);
  }

  /** No route to a controller is too dear for INFINITE_LATENCY. */
  predicate AllInRange(m: Mesh, attach: seq<nat>)
    requires m.Valid()
  {
    forall a: nat, d: nat :: a < m.Size() && d < |attach| ==> InRange(m, a, attach[d])
  }

  /** All routes exist if and only if none is too dear. */
  lemma AllRoutesExistIff(m: Mesh, attach: seq<nat>, tables: seq<seq<Port>>)
    requires OnMesh(m, attach) && WestFirstTables(m, attach, tables)
    ensures (forall a: nat, d: nat :: a < m.Size() && d < |attach| ==> HasRoute(tables, a, d))
       <==> AllInRange(m, attach)
  {
    forall a: nat, d: nat | a < m.Size() && d < |attach|
      ensures HasRoute(tables, a, d) <==> InRange(m, a, attach[d])
    {
      HasRouteIff(m, attach, tables, a, d);
    }
  }

  /** With a controller at every router, the dearest route is that between two corners. */
  lemma InRangeIffSpread(m: Mesh, attach: seq<nat>)
    requires OnMesh(m, attach) && forall r: nat :: r < m.Size() ==> r in attach
    ensures AllInRange(m, attach) <==> m.rows + m.cols <= 5001
  {
    forall a: nat, d: nat | a < m.Size() && d < |attach|
      ensures m.rows + m.cols <= 5001 ==> InRange(m, a, attach[d])
    {
      DearestRoute(m, a, attach[d]);
    }
    CornerCost(m);
    var t := m.Id(m.rows - 1, m.cols - 1);
    assert t in attach;
    var d :| 0 <= d < |attach| && attach[d] == t;
    assert AllInRange(m, attach) ==> InRange(m, 0, attach[d]);
  }

  /** With all controllers at router 0, it is that from the opposite corner. */
  lemma InRangeIffAtRouter0(m: Mesh, attach: seq<nat>)
    requires m.Valid() && |attach| > 0 && forall i :: 0 <= i < |attach| ==> attach[i] == 0
    ensures AllInRange(m, attach) <==> m.cols + 2 * m.rows <= 10002
  {
    Decode(m, 0, 0);
    forall a: nat, d: nat | a < m.Size() && d < |attach|
      ensures m.cols + 2 * m.rows <= 10002 ==> InRange(m, a, attach[d])
    {
      Encode(m, a);
    }
    var corner := m.Id(m.rows - 1, m.cols - 1);
    Decode(m, m.rows - 1, m.cols - 1);
    assert AllInRange(m, attach) ==> InRange(m, corner, attach[0]);
  }

  /** The script gives every router a controller when there are enough, and puts all at
      router 0 when there are not. */
  lemma AttachCovers(nodes: seq<Controller>, routers: nat)
    requires WellNumbered(nodes) && routers > 0
    ensures var attach := Attach(nodes, routers);
      if routers <= |nodes| then forall r: nat :: r < routers ==> r in attach
      else forall i :: 0 <= i < |attach| ==> attach[i] == 0
  {
    var attach := Attach(nodes, routers);
    if routers <= |nodes| {
      forall r: nat | r < routers
        ensures r in attach
      {
        EnoughControllers(|nodes|, routers, r);
        RouterOfNode(nodes, routers, r);
        assert attach[nodes[r].id] == r;
      }
    } else {
      forall i | 0 <= i < |attach|
        ensures attach[i] == 0
      {
        assert Numbered(nodes, i);
        var k :| 0 <= k < |nodes| && nodes[k].id == i;
        RouterOfNode(nodes, routers, k);
        TooFewControllers(|nodes|, routers, k);
      }
    }
  }

  lemma EnoughControllers(nodes: nat, routers: nat, r: nat)
    requires r < routers <= nodes
    ensures AttachedTo(nodes, routers, r) == r
  {
    Arithmetic(nodes, routers);
    Arithmetic(nodes - routers, routers);
    Euclid(nodes - routers, routers);
    Arithmetic(r, routers);
  }

  lemma TooFewControllers(nodes: nat, routers: nat, k: nat)
    requires k < nodes < routers
    ensures AttachedTo(nodes, routers, k) == 0
  {
    Arithmetic(nodes, routers);
  }

  /** The size of mesh the generated tables can serve. */
  predicate SmallEnough(nodes: nat, m: Mesh) {
    if m.Size() <= nodes then m.rows + m.cols <= 5001 else m.cols + 2 * m.rows <= 10002
  }

  /** What the script builds: no route is too dear if and only if the mesh is small enough. */
  lemma BuiltInRangeIff(nodes: seq<Controller>, m: Mesh)
    requires WellNumbered(nodes) && |nodes| > 0 && m.Valid() && m.Size() > 0
    requires OnMesh(m, Attach(nodes, m.Size()))
    ensures AllInRange(m, Attach(nodes, m.Size())) <==> SmallEnough(|nodes|, m)
  {
    AttachCovers(nodes, m.Size());
    if m.Size() <= |nodes| {
      InRangeIffSpread(m, Attach(nodes, m.Size()));
    } else {
      InRangeIffAtRouter0(m, Attach(nodes, m.Size()));
    }
  }

  lemma NextHopExists(m: Mesh, attach: seq<nat>, d: nat, a: nat) returns (next: nat)
    requires OnMesh(m, attach) && d < |attach| && a < m.Size()
    ensures WestFirstNext(m, attach, d, a, next)
  {
    if a == attach[d] {
      next := |attach| + d;
    } else {
      var dir := SomeDirectionIsAllowed(m, a, attach[d]);
      ProductiveHas(m, a, attach[d], dir);
      DirectionToIs(m, a, dir);
      next := 2 * |attach| + m.Step(a, dir);
    }
  }

  /** A single row of 5001 routers already has a pair without a route. */
  lemma LongRowHasNoRoute(attach: seq<nat>, tables: seq<seq<Port>>, d: nat, next: nat)
    requires OnMesh(Mesh(1, 5001), attach) && WestFirstTables(Mesh(1, 5001), attach, tables)
    requires d < |attach| && attach[d] == 5000
    ensures !MayForward(tables[0], d, next)
  {
    CornerCost(Mesh(1, 5001));
  }

  // ----- direction-based routing

  /** `outportComputeWestFirst`; coin is the random bit. */
  function OutportWestFirst(m: Mesh, my: nat, dest: nat, coin: bool): Direction
    requires m.Valid()
  {
    var xHops, yHops := Abs(m.Col(dest) - m.Col(my)), Abs(m.Row(dest) - m.Row(my));
    var xDirn, yDirn := m.Col(dest) >= m.Col(my), m.Row(dest) >= m.Row(my);
    if xHops == 0 then
      if yDirn then North else South
    else if yHops == 0 then
      if xDirn then East else West
    else if !xDirn then West
    else if yDirn then
      if coin then East else North
    else
      if coin then East else South
  }

  /** Free virtual channels at the routers East, North and South of this one. */
  datatype FreeVcs = FreeVcs(east: nat, north: nat, south: nat)

  /** `outportComputeAdaptWestFirst`. */
  function OutportAdaptWestFirst(m: Mesh, my: nat, dest: nat, coin: bool, free: FreeVcs): Direction
    requires m.Valid()
  {
    var xHops, yHops := Abs(m.Col(dest) - m.Col(my)), Abs(m.Row(dest) - m.Row(my));
    var xDirn, yDirn := m.Col(dest) >= m.Col(my), m.Row(dest) >= m.Row(my);
    if xHops == 0 then
      if yDirn then North else South
    else if yHops == 0 then
      if xDirn then East else West
    else if !xDirn then West
    else if yDirn then
      if free.east > free.north then East
      else if free.north > free.east then North
      else if coin then East else North
    else
      if free.south > free.east then South
      else if free.east > free.south then East
      else if coin then East else South
  }

  /** `outportComputeXY`. */
  function OutportXY(m: Mesh, my: nat, dest: nat): Direction
    requires m.Valid()
  {
    var xHops := Abs(m.Col(dest) - m.Col(my));
    var xDirn, yDirn := m.Col(dest) >= m.Col(my), m.Row(dest) >= m.Row(my);
    if xHops > 0 then
      if xDirn then East else West
    else
      if yDirn then North else South
  }

  /** `outportComputeRandom`. */
  function OutportRandom(m: Mesh, my: nat, dest: nat, coin: bool): Direction
    requires m.Valid()
  {
    var xHops, yHops := Abs(m.Col(dest) - m.Col(my)), Abs(m.Row(dest) - m.Row(my));
    var xDirn, yDirn := m.Col(dest) >= m.Col(my), m.Row(dest) >= m.Row(my);
    if xHops == 0 then
      if yDirn then North else South
    else if yHops == 0 then
      if xDirn then East else West
    else if xDirn && yDirn then
      if coin then East else North
    else if !xDirn && yDirn then
      if coin then West else North
    else if !xDirn && !yDirn then
      if coin then West else South
    else
      if coin then East else South
  }

  /** The direction-based west-first algorithm makes exactly the choices the table
      makes, and so do its adaptive form over all congestion states; XY routing makes
      some of them; random routing makes exactly the productive ones. */
  lemma AlgorithmsAgainstRule(m: Mesh, my: nat, dest: nat, d: Direction)
    requires m.Valid() && my < m.Size() && dest < m.Size() && my != dest
    ensures Allowed(m, my, dest, d) <==> exists coin :: OutportWestFirst(m, my, dest, coin) == d
    ensures Allowed(m, my, dest, d) <==>
      exists coin, free :: OutportAdaptWestFirst(m, my, dest, coin, free) == d
    ensures OutportXY(m, my, dest) == d ==> Allowed(m, my, dest, d)
    ensures Productive(m, my, dest, d) <==> exists coin :: OutportRandom(m, my, dest, coin) == d
  {
    if m.Col(my) == m.Col(dest) && m.Row(my) == m.Row(dest) {
      SameCoordinates(m, my, dest);
    }
    var even := FreeVcs(0, 0, 0);
    assert OutportWestFirst(m, my, dest, true) == OutportAdaptWestFirst(m, my, dest, true, even);
    assert OutportWestFirst(m, my, dest, false) == OutportAdaptWestFirst(m, my, dest, false, even);
    assert OutportRandom(m, my, dest, true) == d || OutportRandom(m, my, dest, false) == d <==> Productive(m, my, dest, d);
  }

  /** Free virtual channels at all four neighbours. */
  datatype FreeAround = FreeAround(east: nat, west: nat, north: nat, south: nat)

  /** `outportComputeAdaptRand`. */
  function OutportAdaptRandom(m: Mesh, my: nat, dest: nat, coin: bool, free: FreeAround): Direction
    requires m.Valid()
  {
    var xHops, yHops := Abs(m.Col(dest) - m.Col(my)), Abs(m.Row(dest) - m.Row(my));
    var xDirn, yDirn := m.Col(dest) >= m.Col(my), m.Row(dest) >= m.Row(my);
    if xHops == 0 then
      if yDirn then North else South
    else if yHops == 0 then
      if xDirn then East else West
    else
      var (x, freeX) := if xDirn then (East, free.east) else (West, free.west);
      var (y, freeY) := if yDirn then (North, free.north) else (South, free.south);
      if freeX > freeY then x
      else if freeY > freeX then y
      else if coin then x else y
  }

  /** Adaptive random routing makes exactly the productive choices as well, over all
      congestion states. */
  lemma AdaptiveRandomIsMinimal(m: Mesh, my: nat, dest: nat, d: Direction)
    requires m.Valid() && my < m.Size() && dest < m.Size() && my != dest
    ensures Productive(m, my, dest, d) <==>
      exists coin, free :: OutportAdaptRandom(m, my, dest, coin, free) == d
  {
    if m.Col(my) == m.Col(dest) && m.Row(my) == m.Row(dest) {
      SameCoordinates(m, my, dest);
    }
    if Productive(m, my, dest, d) {
      assert OutportAdaptRandom(m, my, dest, d == East || d == West, FreeAround(0, 0, 0, 0)) == d;
    }
  }

  // ----- exactly which direction is chosen

  predicate Horizontal(d: Direction) {
    d == East || d == West
  }

  /** Free virtual channels behind a direction; West is never compared under west-first. */
  function FreeToward(free: FreeVcs, d: Direction): nat {
    match d
    case East => free.east
    case West => 0
    case North => free.north
    case South => free.south
  }

  function FreeAhead(free: FreeAround, d: Direction): nat {
    match d
    case East => free.east
    case West => free.west
    case North => free.north
    case South => free.south
  }

  /** Two different routers differ in a coordinate, and no two productive directions are both
      horizontal or both vertical. */
  lemma ProductiveDirections(m: Mesh, my: nat, dest: nat)
    requires m.Valid() && my < m.Size() && dest < m.Size() && my != dest
    ensures m.Col(my) != m.Col(dest) || m.Row(my) != m.Row(dest)
    ensures forall d, e :: Productive(m, my, dest, d) && Productive(m, my, dest, e) && d != e ==>
      Horizontal(d) != Horizontal(e)
  {
    if m.Col(my) == m.Col(dest) && m.Row(my) == m.Row(dest) {
      SameCoordinates(m, my, dest);
    }
  }

  /** XY routing goes to the right column first. */
  lemma XYChoosesIff(m: Mesh, my: nat, dest: nat, d: Direction)
    requires m.Valid() && my < m.Size() && dest < m.Size() && my != dest
    ensures OutportXY(m, my, dest) == d <==>
      Productive(m, my, dest, d) && (Horizontal(d) || m.Col(my) == m.Col(dest))
  {
    ProductiveDirections(m, my, dest);
  }

  /** Where there are two productive directions, random routing takes the horizontal one if the
      coin says so. */
  lemma RandomChoosesIff(m: Mesh, my: nat, dest: nat, coin: bool, d: Direction)
    requires m.Valid() && my < m.Size() && dest < m.Size() && my != dest
    ensures OutportRandom(m, my, dest, coin) == d <==>
      Productive(m, my, dest, d) && forall e :: Productive(m, my, dest, e) && e != d ==> Horizontal(d) == coin
  {
    ProductiveDirections(m, my, dest);
    assert Productive(m, my, dest, OutportRandom(m, my, dest, coin));
  }

  /** West-first routing likewise, among the directions the rule allows. */
  lemma WestFirstChoosesIff(m: Mesh, my: nat, dest: nat, coin: bool, d: Direction)
    requires m.Valid() && my < m.Size() && dest < m.Size() && my != dest
    ensures OutportWestFirst(m, my, dest, coin) == d <==>
      Allowed(m, my, dest, d) && forall e :: Allowed(m, my, dest, e) && e != d ==> Horizontal(d) == coin
  {
    ProductiveDirections(m, my, dest);
    assert Allowed(m, my, dest, OutportWestFirst(m, my, dest, coin));
  }

  /** Adaptive west-first routing takes, of the directions the rule allows, the one with more
      free virtual channels behind it; between equals the coin decides. */
  lemma AdaptWestFirstChoosesIff(m: Mesh, my: nat, dest: nat, coin: bool, free: FreeVcs, d: Direction)
    requires m.Valid() && my < m.Size() && dest < m.Size() && my != dest
    ensures OutportAdaptWestFirst(m, my, dest, coin, free) == d <==>
      && Allowed(m, my, dest, d)
      && forall e :: Allowed(m, my, dest, e) && e != d ==>
        || FreeToward(free, e) < FreeToward(free, d)
        || (FreeToward(free, e) == FreeToward(free, d) && Horizontal(d) == coin)
  {
    ProductiveDirections(m, my, dest);
    assert Allowed(m, my, dest, OutportAdaptWestFirst(m, my, dest, coin, free));
  }

  /** Adaptive random routing likewise, of all productive directions. */
  lemma AdaptRandomChoosesIff(m: Mesh, my: nat, dest: nat, coin: bool, free: FreeAround, d: Direction)
    requires m.Valid() && my < m.Size() && dest < m.Size() && my != dest
    ensures OutportAdaptRandom(m, my, dest, coin, free) == d <==>
      && Productive(m, my, dest, d)
      && forall e :: Productive(m, my, dest, e) && e != d ==>
        || FreeAhead(free, e) < FreeAhead(free, d)
        || (FreeAhead(free, e) == FreeAhead(free, d) && Horizontal(d) == coin)
  {
    ProductiveDirections(m, my, dest);
    assert Productive(m, my, dest, OutportAdaptRandom(m, my, dest, coin, free));
  }
}
