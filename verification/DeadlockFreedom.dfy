/**
 West-first routing never deadlocks and delivers every packet.
 (gem5/configs/topologies/Mesh_westfirst.py promises it of its link weights.)
 */
module DeadlockFreedom {
  import opened Options
  import opened Grid
  import opened SwitchGraph
  import opened RoutingTable
  import opened WestFirst
  import opened RoutingUnit
  import opened MeshNetwork

  // ----- channel ranks

  /** West channels come first, from east to west; then the columns from west to east,
      each with its vertical channels in travel order before its East channels. */
  function HopRank(m: Mesh, src: nat, d: Direction): int
    requires m.Valid()
  {
    match d
    case West => m.cols - m.Col(src)
    case North => m.cols + Times(m.Col(src), m.rows + 1) + m.Row(src)
    case South => m.cols + Times(m.Col(src), m.rows + 1) + (m.rows - 1 - m.Row(src))
    case East => m.cols + Times(m.Col(src), m.rows + 1) + m.rows
  }

  /** Injection ports rank below every link. */
  function Rank(m: Mesh, c: Channel): int
    requires m.Valid()
  {
    match c
    case Inject(_) => 0
    case Hop(src, dst) =>
      match DirectionTo(m, src, dst)
      case Some(d) => HopRank(m, src, d)
      case None => 0
  }

  /** The turns west-first routing takes: after hop d out of router a, the next hop e
      ranks higher, and is West only if d was. */
  lemma TurnRaisesRank(m: Mesh, a: nat, t: nat, d: Direction, e: Direction)
    requires m.Valid() && t < m.Size() && m.Has(a, d) && Allowed(m, a, t, d)
    requires m.Step(a, d) >= 0 && Allowed(m, m.Step(a, d), t, e)
    ensures HopRank(m, a, d) < HopRank(m, m.Step(a, d), e)
    ensures e == West ==> d == West
  {
    StepCoordinates(m, a, d);
    Encode(m, a);
    Encode(m, t);
    Encode(m, m.Step(a, d));
    if d == East {
      assert Times(m.Col(a) + 1, m.rows + 1) == Times(m.Col(a), m.rows + 1) + (m.rows + 1);
    }
  }

  lemma LinksRankAboveInjection(m: Mesh, a: nat, b: nat)
    requires m.Valid() && DirectionTo(m, a, b).Some?
    ensures Rank(m, Hop(a, b)) > 0
  {
    Encode(m, a);
  }

  /** Two links in a row, the second leaving the router the first leads to. */
  lemma LinkTurnRaisesRank(m: Mesh, src: nat, a: nat, b: nat, t: nat)
    requires m.Valid() && t < m.Size()
    requires DirectionTo(m, src, a).Some? && Allowed(m, src, t, DirectionTo(m, src, a).value)
    requires DirectionTo(m, a, b).Some? && Allowed(m, a, t, DirectionTo(m, a, b).value)
    ensures Rank(m, Hop(src, a)) < Rank(m, Hop(a, b))
  {
    TurnRaisesRank(m, src, t, DirectionTo(m, src, a).value, DirectionTo(m, a, b).value);
  }

  /** Every channel a well-routed flit waits for ranks above the one it holds. */
  lemma DependencyRaisesRank(net: Network, f: Flit)
    requires net.Valid() && net.RoutesWestFirst() && WellRouted(net, f)
    requires f.next >= 2 * |net.attach|
    ensures var c := Hop(At(net, f.at), f.next - 2 * |net.attach|);
      DirectionTo(net.mesh, c.src, c.dst).Some? && Rank(net.mesh, f.at) < Rank(net.mesh, c)
  {
    RouterOfFlit(net, f);
    OutputOfFlit(net, f);
    var m, a, b := net.mesh, At(net, f.at), f.next - 2 * |net.attach|;
    match f.at {
      case Inject(_) => LinksRankAboveInjection(m, a, b);
      case Hop(src, _) => LinkTurnRaisesRank(m, src, a, b, net.attach[f.packet.dest]);
    }
  }

  /** On no route does a West hop follow a hop in another direction. */
  lemma NoTurnIntoWest(net: Network, s: State, k: nat, f: Flit)
    requires net.Valid() && net.RoutesWestFirst() && Inv(net, s) && CanMove(net, s, k, f)
    ensures f.at.Hop? && DirectionTo(net.mesh, f.at.src, f.at.dst).Some?
    ensures s.flits[k].at.Hop? && DirectionTo(net.mesh, f.at.src, f.at.dst) == Some(West) ==>
      DirectionTo(net.mesh, s.flits[k].at.src, s.flits[k].at.dst) == Some(West)
  {
    var g := s.flits[k];
    assert WellRouted(net, g);
    OutputOfFlit(net, g);
    if g.at.Hop? {
      var m := net.mesh;
      TurnRaisesRank(m, g.at.src, net.attach[g.packet.dest], DirectionTo(m, g.at.src, g.at.dst).value,
                     DirectionTo(m, f.at.src, f.at.dst).value);
    }
  }

  // ----- progress

  lemma {:induction false} HighestRanked(net: Network, flits: seq<Flit>) returns (k: nat)
    requires net.Valid() && |flits| > 0
    requires forall j :: 0 <= j < |flits| ==> WellRouted(net, flits[j])
    ensures k < |flits|
    ensures forall j :: 0 <= j < |flits| ==> Rank(net.mesh, flits[j].at) <= Rank(net.mesh, flits[k].at)
  {
    k := 0;
    for i := 1 to |flits|
      invariant k < i
      invariant forall j :: 0 <= j < i ==> Rank(net.mesh, flits[j].at) <= Rank(net.mesh, flits[k].at)
    {
      if Rank(net.mesh, flits[k].at) < Rank(net.mesh, flits[i].at) {
        k := i;
      }
    }
  }

  /** A flit whose next buffer has its virtual channel free can move there. */
  lemma CanMoveWhenFree(net: Network, s: State, k: nat)
    requires net.Valid() && net.RoutesWestFirst() && Inv(net, s) && k < |s.flits|
    requires s.flits[k].next >= 2 * |net.attach|
    requires Free(s.flits, Hop(At(net, s.flits[k].at), s.flits[k].next - 2 * |net.attach|), s.flits[k].vc)
    ensures exists s' :: Drains(net, s, s')
  {
    var g := s.flits[k];
    RouterOfFlit(net, g);
    OutputOfFlit(net, g);
    var c := Hop(At(net, g.at), g.next - 2 * |net.attach|);
    StepCoordinates(net.mesh, c.src, DirectionTo(net.mesh, c.src, c.dst).value);
    assert net.Forwards(c.dst, g.packet.dest);
    var next: nat :| net.forward(c.dst, g.packet.dest, next);
    var f := Flit(g.packet, c, g.vc, next);
    assert CanMove(net, s, k, f);
    assert Drains(net, s, AfterMove(s, k, f));
  }

  /** Deadlock freedom: whenever a packet is in the network, some packet can move on or
      be delivered. */
  lemma NeverStuck(net: Network, s: State)
    requires net.Valid() && net.RoutesWestFirst() && Inv(net, s) && s.flits != []
    ensures exists s' :: Drains(net, s, s')
  {
    var k := HighestRanked(net, s.flits);
    var g := s.flits[k];
    OutputOfFlit(net, g);
    if g.next < 2 * |net.attach| {
      assert CanDeliver(net, s, k);
      assert Drains(net, s, AfterDeliver(net, s, k));
    } else {
      DependencyRaisesRank(net, g);
      CanMoveWhenFree(net, s, k);
    }
  }

  // ----- work left, and what every step does to it

  /** Hops a flit still has to make, plus one for its delivery. */
  ghost function FlitWork(net: Network, f: Flit): nat
    requires net.Valid() && WellRouted(net, f)
  {
    1 + Hops(net.mesh, At(net, f.at), net.attach[f.packet.dest])
  }

  ghost function Work(net: Network, flits: seq<Flit>): nat
    requires net.Valid()
    requires forall k :: 0 <= k < |flits| ==> WellRouted(net, flits[k])
  {
    if flits == [] then 0 else FlitWork(net, flits[0]) + Work(net, flits[1..])
  }

  lemma {:induction false} WorkOfUpdate(net: Network, flits: seq<Flit>, k: nat, f: Flit)
    requires net.Valid() && k < |flits| && WellRouted(net, f)
    requires forall j :: 0 <= j < |flits| ==> WellRouted(net, flits[j])
    ensures Work(net, flits[k := f]) == Work(net, flits) - FlitWork(net, flits[k]) + FlitWork(net, f)
  {
    if k == 0 {
      assert flits[k := f][1..] == flits[1..];
    } else {
      WorkOfUpdate(net, flits[1..], k - 1, f);
      assert flits[k := f][1..] == flits[1..][k - 1 := f];
    }
  }

  lemma {:induction false} WorkOfRemoval(net: Network, flits: seq<Flit>, k: nat)
    requires net.Valid() && k < |flits|
    requires forall j :: 0 <= j < |flits| ==> WellRouted(net, flits[j])
    ensures Work(net, flits[..k] + flits[k + 1..]) == Work(net, flits) - FlitWork(net, flits[k])
  {
    if k == 0 {
      assert flits[..k] + flits[k + 1..] == flits[1..];
    } else {
      WorkOfRemoval(net, flits[1..], k - 1);
      assert (flits[..k] + flits[k + 1..])[1..] == flits[1..][..k - 1] + flits[1..][k..];
    }
  }

  lemma HopLowersFlitWork(net: Network, g: Flit, f: Flit)
    requires net.Valid() && net.RoutesWestFirst() && WellRouted(net, g) && WellRouted(net, f)
    requires g.next >= 2 * |net.attach| && f.packet == g.packet
    requires f.at == Hop(At(net, g.at), g.next - 2 * |net.attach|)
    ensures FlitWork(net, f) == FlitWork(net, g) - 1
  {
    OutputOfFlit(net, g);
    RouterOfFlit(net, g);
    StepChangesHops(net.mesh, f.at.src, net.attach[f.packet.dest], DirectionTo(net.mesh, f.at.src, f.at.dst).value);
  }

  lemma MoveLowersWork(net: Network, s: State, k: nat, f: Flit)
    requires net.Valid() && net.RoutesWestFirst() && Inv(net, s) && CanMove(net, s, k, f)
    ensures Inv(net, AfterMove(s, k, f))
    ensures Work(net, AfterMove(s, k, f).flits) == Work(net, s.flits) - 1
  {
    MovePreservesInv(net, s, k, f);
    var g := s.flits[k];
    assert WellRouted(net, g) && WellRouted(net, AfterMove(s, k, f).flits[k]);
    HopLowersFlitWork(net, g, f);
    WorkOfUpdate(net, s.flits, k, f);
  }

  lemma DeliverLowersWork(net: Network, s: State, k: nat)
    requires net.Valid() && net.RoutesWestFirst() && Inv(net, s) && CanDeliver(net, s, k)
    ensures Inv(net, AfterDeliver(net, s, k))
    ensures Work(net, AfterDeliver(net, s, k).flits) == Work(net, s.flits) - 1
  {
    DeliverPreservesInv(net, s, k);
    OutputOfFlit(net, s.flits[k]);
    WorkOfRemoval(net, s.flits, k);
  }

  lemma DrainingLowersWork(net: Network, s: State, s': State)
    requires net.Valid() && net.RoutesWestFirst() && Inv(net, s) && Drains(net, s, s')
    ensures Inv(net, s') && Work(net, s'.flits) == Work(net, s.flits) - 1
  {
    if k: nat, f: Flit :| CanMove(net, s, k, f) && s' == AfterMove(s, k, f) {
      MoveLowersWork(net, s, k, f);
    } else {
      var k: nat :| CanDeliver(net, s, k) && s' == AfterDeliver(net, s, k);
      DeliverLowersWork(net, s, k);
    }
  }

  // ----- conservation

  function InFlight(flits: seq<Flit>): (r: seq<Packet>)
    ensures |r| == |flits| && forall k :: 0 <= k < |flits| ==> r[k] == flits[k].packet
  {
    seq(|flits|, k requires 0 <= k < |flits| => flits[k].packet)
  }

  function Arrived(delivered: seq<Delivery>): (r: seq<Packet>)
    ensures |r| == |delivered| && forall k :: 0 <= k < |delivered| ==> r[k] == delivered[k].packet
  {
    seq(|delivered|, k requires 0 <= k < |delivered| => delivered[k].packet)
  }

  /** All packets of a state, in flight or delivered. */
  function Packets(s: State): multiset<Packet> {
    multiset(InFlight(s.flits)) + multiset(Arrived(s.delivered))
  }

  lemma RemoveFromMultiset(p: seq<Packet>, k: nat)
    requires k < |p|
    ensures multiset(p[..k] + p[k + 1..]) + multiset{p[k]} == multiset(p)
  {
    assert p == p[..k] + [p[k]] + p[k + 1..];
  }

  lemma MovingKeepsPackets(net: Network, s: State, k: nat, f: Flit)
    requires net.Valid() && CanMove(net, s, k, f)
    ensures Packets(AfterMove(s, k, f)) == Packets(s)
  {
    assert InFlight(AfterMove(s, k, f).flits) == InFlight(s.flits);
  }

  lemma DeliveringKeepsPackets(net: Network, s: State, k: nat)
    requires net.Valid() && CanDeliver(net, s, k)
    ensures Packets(AfterDeliver(net, s, k)) == Packets(s)
  {
    var p, s' := InFlight(s.flits), AfterDeliver(net, s, k);
    RemoveFromMultiset(p, k);
    assert InFlight(s'.flits) == p[..k] + p[k + 1..];
    assert Arrived(s'.delivered) == Arrived(s.delivered) + [p[k]];
  }

  /** Draining neither loses, duplicates nor alters a packet. */
  lemma DrainingKeepsPackets(net: Network, s: State, s': State)
    requires net.Valid() && Drains(net, s, s')
    ensures Packets(s') == Packets(s)
  {
    if k: nat, f: Flit :| CanMove(net, s, k, f) && s' == AfterMove(s, k, f) {
      MovingKeepsPackets(net, s, k, f);
    } else {
      var k: nat :| CanDeliver(net, s, k) && s' == AfterDeliver(net, s, k);
      DeliveringKeepsPackets(net, s, k);
    }
  }

  // ----- runs

  /** States of a run in which every step satisfies Steps, or Drains. */
  ghost predicate Run(net: Network, run: seq<State>)
    requires net.Valid()
  {
    |run| > 0 && forall i :: 0 <= i < |run| - 1 ==> Steps(net, run[i], run[i + 1])
  }

  ghost predicate DrainingRun(net: Network, run: seq<State>)
    requires net.Valid()
  {
    |run| > 0 && forall i :: 0 <= i < |run| - 1 ==> Drains(net, run[i], run[i + 1])
  }

  /** Every state the network can reach from the empty one. */
  ghost predicate Reachable(net: Network, s: State)
    requires net.Valid()
  {
    exists run :: Run(net, run) && run[0] == State([], []) && run[|run| - 1] == s
  }

  lemma {:induction false} RunKeepsInv(net: Network, run: seq<State>)
    requires net.Valid() && net.RoutesWestFirst() && Run(net, run) && run[0] == State([], [])
    ensures Inv(net, run[|run| - 1])
  {
    if |run| > 1 {
      RunKeepsInv(net, run[..|run| - 1]);
      StepPreservesInv(net, run[|run| - 2], run[|run| - 1]);
    }
  }

  lemma ReachableInv(net: Network, s: State)
    requires net.Valid() && net.RoutesWestFirst() && Reachable(net, s)
    ensures Inv(net, s)
  {
    var run :| Run(net, run) && run[0] == State([], []) && run[|run| - 1] == s;
    RunKeepsInv(net, run);
  }

  lemma {:induction false} DrainingRunWork(net: Network, run: seq<State>)
    requires net.Valid() && net.RoutesWestFirst() && DrainingRun(net, run) && Inv(net, run[0])
    ensures Inv(net, run[|run| - 1])
    ensures Work(net, run[|run| - 1].flits) + |run| - 1 == Work(net, run[0].flits)
    ensures Packets(run[|run| - 1]) == Packets(run[0])
    decreases |run|
  {
    if |run| > 1 {
      DrainingLowersWork(net, run[0], run[1]);
      DrainingKeepsPackets(net, run[0], run[1]);
      var rest := run[1..];
      DrainingRunWork(net, rest);
    }
  }

  /** The packets of s are exactly those delivered in last, each at its own controller. */
  predicate AllDelivered(s: State, last: State) {
    && last.flits == []
    && multiset(Arrived(last.delivered)) == Packets(s)
    && forall k :: 0 <= k < |last.delivered| ==> last.delivered[k].node == last.delivered[k].packet.dest
  }

  /** Main result. From any reachable state, a run without new injections takes at most
      Work steps; if it cannot be continued it took exactly that many, the network is
      empty, and the packets delivered are exactly those present, each at its own
      controller. */
  lemma EveryPacketIsDelivered(net: Network, run: seq<State>)
    requires net.Valid() && net.RoutesWestFirst() && DrainingRun(net, run) && Reachable(net, run[0])
    ensures Inv(net, run[0]) && |run| - 1 <= Work(net, run[0].flits)
    ensures var last := run[|run| - 1];
      (forall s' :: !Drains(net, last, s')) ==>
        |run| - 1 == Work(net, run[0].flits) && AllDelivered(run[0], last)
  {
    ReachableInv(net, run[0]);
    DrainingRunWork(net, run);
    var last := run[|run| - 1];
    if (forall s' :: !Drains(net, last, s')) && last.flits != [] {
      NeverStuck(net, last);
    }
  }

  // ----- the networks of the repository

  /** Routing by table, as set up by RoutingUnit.SetUpRouting. */
  ghost function TableNetwork(m: Mesh, attach: seq<nat>, vcsPerVnet: nat, tables: seq<seq<Port>>): Network {
    Network(m, attach, vcsPerVnet, (a: nat, d: nat, next: nat) => a < |tables| && MayForward(tables[a], d, next))
  }

  lemma TableForwards(m: Mesh, attach: seq<nat>, vcsPerVnet: nat, tables: seq<seq<Port>>, a: nat, d: nat)
    requires OnMesh(m, attach) && vcsPerVnet > 0 && |tables| == m.Size() && a < m.Size()
    ensures TableNetwork(m, attach, vcsPerVnet, tables).Forwards(a, d) <==> HasRoute(tables, a, d)
  {
    var net := TableNetwork(m, attach, vcsPerVnet, tables);
    if HasRoute(tables, a, d) {
      var next: nat :| MayForward(tables[a], d, next);
      assert net.forward(a, d, next);
    }
  }

  /** Routing by table is west-first routing if and only if no route is too dear for the
      table, which RoutingUnit.BuiltInRangeIff decides by the size of the mesh. */
  lemma TablesRouteWestFirstIff(m: Mesh, attach: seq<nat>, vcsPerVnet: nat, tables: seq<seq<Port>>)
    requires OnMesh(m, attach) && vcsPerVnet > 0 && WestFirstTables(m, attach, tables)
    ensures TableNetwork(m, attach, vcsPerVnet, tables).RoutesWestFirst() <==> AllInRange(m, attach)
  {
    var net := TableNetwork(m, attach, vcsPerVnet, tables);
    AllRoutesExistIff(m, attach, tables);
    forall a: nat, d: nat | a < m.Size() && d < |attach|
      ensures net.Forwards(a, d) <==> HasRoute(tables, a, d)
    {
      TableForwards(m, attach, vcsPerVnet, tables, a, d);
    }
  }

  /** Table-routed west-first meshes in range: every run without new injections that cannot
      be continued has delivered everything where it belongs. */
  lemma TableRoutingDelivers(m: Mesh, attach: seq<nat>, vcsPerVnet: nat, tables: seq<seq<Port>>, run: seq<State>)
    requires OnMesh(m, attach) && vcsPerVnet > 0 && WestFirstTables(m, attach, tables) && AllInRange(m, attach)
    requires var net := TableNetwork(m, attach, vcsPerVnet, tables); DrainingRun(net, run) && Reachable(net, run[0])
    ensures var last := run[|run| - 1];
      (forall s' :: !Drains(TableNetwork(m, attach, vcsPerVnet, tables), last, s')) ==> AllDelivered(run[0], last)
  {
    TablesRouteWestFirstIff(m, attach, vcsPerVnet, tables);
    EveryPacketIsDelivered(TableNetwork(m, attach, vcsPerVnet, tables), run);
  }

  /** Routing by direction: choose(a, t, dir) says that router a may send a packet for router
      t in direction dir. */
  ghost function DirectedNetwork(m: Mesh, attach: seq<nat>, vcsPerVnet: nat,
                                 choose: (nat, nat, Direction) -> bool): Network
    requires OnMesh(m, attach)
  {
    Network(m, attach, vcsPerVnet, (a: nat, d: nat, next: nat) => DirectedForward(m, attach, choose, a, d, next))
  }

  predicate DirectedForward(m: Mesh, attach: seq<nat>, choose: (nat, nat, Direction) -> bool, a: nat, d: nat, next: nat)
    requires OnMesh(m, attach)
  {
    d < |attach| &&
    if a == attach[d] then next == |attach| + d
    else exists dir :: choose(a, attach[d], dir) && next == 2 * |attach| + m.Step(a, dir)
  }

  /** choose makes only choices the rule allows, and always one. */
  ghost predicate FollowsRule(m: Mesh, choose: (nat, nat, Direction) -> bool)
    requires m.Valid()
  {
    forall a: nat, t: nat :: a < m.Size() && t < m.Size() && a != t ==> FollowsRuleAt(m, choose, a, t)
  }

  ghost predicate FollowsRuleAt(m: Mesh, choose: (nat, nat, Direction) -> bool, a: nat, t: nat)
    requires m.Valid()
  {
    (exists dir :: choose(a, t, dir)) && forall dir :: choose(a, t, dir) ==> Allowed(m, a, t, dir)
  }

  lemma DirectedNextHop(m: Mesh, attach: seq<nat>, choose: (nat, nat, Direction) -> bool, a: nat, d: nat)
      returns (next: nat)
    requires OnMesh(m, attach) && FollowsRule(m, choose) && a < m.Size() && d < |attach|
    ensures DirectedForward(m, attach, choose, a, d, next)
  {
    if a == attach[d] {
      next := |attach| + d;
    } else {
      assert FollowsRuleAt(m, choose, a, attach[d]);
      var dir :| choose(a, attach[d], dir);
      ProductiveHas(m, a, attach[d], dir);
      StepCoordinates(m, a, dir);
      next := 2 * |attach| + m.Step(a, dir);
    }
  }

  lemma DirectedIsWestFirst(m: Mesh, attach: seq<nat>, choose: (nat, nat, Direction) -> bool, a: nat, d: nat, next: nat)
    requires OnMesh(m, attach) && FollowsRule(m, choose) && a < m.Size() && d < |attach|
    requires DirectedForward(m, attach, choose, a, d, next)
    ensures WestFirstNext(m, attach, d, a, next)
  {
    if a != attach[d] {
      assert FollowsRuleAt(m, choose, a, attach[d]);
      var dir :| choose(a, attach[d], dir) && next == 2 * |attach| + m.Step(a, dir);
      ProductiveHas(m, a, attach[d], dir);
      DirectionToIs(m, a, dir);
    }
  }

  /** Whatever follows the rule routes west-first, on meshes of any size. */
  lemma DirectedRoutesWestFirst(m: Mesh, attach: seq<nat>, vcsPerVnet: nat, choose: (nat, nat, Direction) -> bool)
    requires OnMesh(m, attach) && vcsPerVnet > 0 && FollowsRule(m, choose)
    ensures DirectedNetwork(m, attach, vcsPerVnet, choose).RoutesWestFirst()
  {
    var net := DirectedNetwork(m, attach, vcsPerVnet, choose);
    forall a: nat, d: nat | a < m.Size() && d < |attach|
      ensures net.Forwards(a, d)
    {
      var next := DirectedNextHop(m, attach, choose, a, d);
      assert net.forward(a, d, next);
    }
    forall a: nat, d: nat, x: nat | a < m.Size() && d < |attach| && net.forward(a, d, x)
      ensures WestFirstNext(m, attach, d, a, x)
    {
      DirectedIsWestFirst(m, attach, choose, a, d, x);
    }
  }

  /** The algorithms of the routing unit, over all coins and all congestion states. */
  ghost function XYChoice(m: Mesh): (nat, nat, Direction) -> bool
    requires m.Valid()
  {
    (a: nat, t: nat, dir: Direction) => OutportXY(m, a, t) == dir
  }

  ghost function WestFirstChoice(m: Mesh): (nat, nat, Direction) -> bool
    requires m.Valid()
  {
    (a: nat, t: nat, dir: Direction) => exists coin :: OutportWestFirst(m, a, t, coin) == dir
  }

  ghost function AdaptiveChoice(m: Mesh): (nat, nat, Direction) -> bool
    requires m.Valid()
  {
    (a: nat, t: nat, dir: Direction) => exists coin, free :: OutportAdaptWestFirst(m, a, t, coin, free) == dir
  }

  lemma XYFollowsRuleAt(m: Mesh, a: nat, t: nat)
    requires m.Valid() && a < m.Size() && t < m.Size() && a != t
    ensures FollowsRuleAt(m, XYChoice(m), a, t)
  {
    assert XYChoice(m)(a, t, OutportXY(m, a, t));
    AlgorithmsAgainstRule(m, a, t, OutportXY(m, a, t));
  }

  lemma WestFirstFollowsRuleAt(m: Mesh, a: nat, t: nat)
    requires m.Valid() && a < m.Size() && t < m.Size() && a != t
    ensures FollowsRuleAt(m, WestFirstChoice(m), a, t)
  {
    forall dir
      ensures WestFirstChoice(m)(a, t, dir) <==> Allowed(m, a, t, dir)
    {
      AlgorithmsAgainstRule(m, a, t, dir);
    }
    var dir := SomeDirectionIsAllowed(m, a, t);
    assert WestFirstChoice(m)(a, t, dir);
  }

  lemma AdaptiveFollowsRuleAt(m: Mesh, a: nat, t: nat)
    requires m.Valid() && a < m.Size() && t < m.Size() && a != t
    ensures FollowsRuleAt(m, AdaptiveChoice(m), a, t)
  {
    forall dir
      ensures AdaptiveChoice(m)(a, t, dir) <==> Allowed(m, a, t, dir)
    {
      AlgorithmsAgainstRule(m, a, t, dir);
    }
    var dir := SomeDirectionIsAllowed(m, a, t);
    assert AdaptiveChoice(m)(a, t, dir);
  }

  lemma AlgorithmsFollowRule(m: Mesh)
    requires m.Valid()
    ensures FollowsRule(m, XYChoice(m)) && FollowsRule(m, WestFirstChoice(m)) && FollowsRule(m, AdaptiveChoice(m))
  {
    forall a: nat, t: nat | a < m.Size() && t < m.Size() && a != t
      ensures FollowsRuleAt(m, XYChoice(m), a, t)
      ensures FollowsRuleAt(m, WestFirstChoice(m), a, t)
      ensures FollowsRuleAt(m, AdaptiveChoice(m), a, t)
    {
      XYFollowsRuleAt(m, a, t);
      WestFirstFollowsRuleAt(m, a, t);
      AdaptiveFollowsRuleAt(m, a, t);
    }
  }

  /** Whatever follows the rule: every run without new injections that cannot be continued has
      delivered everything where it belongs. By AlgorithmsFollowRule that covers XY routing
      and both direction-based west-first algorithms. */
  lemma RuleDelivers(m: Mesh, attach: seq<nat>, vcsPerVnet: nat, choose: (nat, nat, Direction) -> bool,
                     run: seq<State>)
    requires OnMesh(m, attach) && vcsPerVnet > 0 && FollowsRule(m, choose)
    requires var net := DirectedNetwork(m, attach, vcsPerVnet, choose); DrainingRun(net, run) && Reachable(net, run[0])
    ensures var last := run[|run| - 1];
      (forall s' :: !Drains(DirectedNetwork(m, attach, vcsPerVnet, choose), last, s')) ==> AllDelivered(run[0], last)
  {
    DirectedRoutesWestFirst(m, attach, vcsPerVnet, choose);
    EveryPacketIsDelivered(DirectedNetwork(m, attach, vcsPerVnet, choose), run);
  }
}
