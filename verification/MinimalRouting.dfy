/**
 Minimal routing without the west-first rule: when it deadlocks.
 (`outportComputeRandom` of gem5/src/mem/ruby/network/garnet2.0/RoutingUnit.cc.)
 */
module MinimalRouting {
  import opened Options
  import opened Grid
  import opened MeshTopology
  import opened SwitchGraph
  import opened WestFirst
  import opened RoutingUnit
  import opened MeshNetwork
  import opened DeadlockFreedom

  /** Any productive direction may be chosen, and out of the mesh at the destination. */
  predicate MinimalNext(m: Mesh, attach: seq<nat>, d: nat, a: nat, next: nat)
    requires OnMesh(m, attach) && d < |attach|
  {
    var n := |attach|;
    if a == attach[d] then next == n + d
    else next >= 2 * n &&
         match DirectionTo(m, a, next - 2 * n)
         case Some(dir) => Productive(m, a, attach[d], dir)
         case None => false
  }

  /** Routing is minimal, with no further restriction, and never without a choice. */
  ghost predicate RoutesMinimally(net: Network)
    requires net.Valid()
  {
    && (forall a: nat, d: nat, next: nat :: a < net.mesh.Size() && d < |net.attach| && net.forward(a, d, next) ==>
      MinimalNext(net.mesh, net.attach, d, a, next))
    && (forall a: nat, d: nat :: a < net.mesh.Size() && d < |net.attach| ==> net.Forwards(a, d))
  }

  /** Every minimal choice may be made. */
  ghost predicate RoutesFreely(net: Network)
    requires net.Valid()
  {
    forall a: nat, d: nat, next: nat :: a < net.mesh.Size() && d < |net.attach| ==>
      (net.forward(a, d, next) <==> MinimalNext(net.mesh, net.attach, d, a, next))
  }

  lemma WestFirstIsMinimal(m: Mesh, attach: seq<nat>, d: nat, a: nat, next: nat)
    requires OnMesh(m, attach) && d < |attach| && WestFirstNext(m, attach, d, a, next)
    ensures MinimalNext(m, attach, d, a, next)
  {
  }

  lemma FreelyIsMinimally(net: Network)
    requires net.Valid() && RoutesFreely(net)
    ensures RoutesMinimally(net)
  {
    forall a: nat, d: nat | a < net.mesh.Size() && d < |net.attach|
      ensures net.Forwards(a, d)
    {
      var next := NextHopExists(net.mesh, net.attach, d, a);
      WestFirstIsMinimal(net.mesh, net.attach, d, a, next);
      assert net.forward(a, d, next);
    }
  }

  // ----- random routing

  /** The directions `outportComputeRandom` may give. */
  ghost function RandomChoice(m: Mesh): (nat, nat, Direction) -> bool
    requires m.Valid()
  {
    (a: nat, t: nat, dir: Direction) => exists coin :: OutportRandom(m, a, t, coin) == dir
  }

  ghost function RandomNetwork(m: Mesh, attach: seq<nat>, vcsPerVnet: nat): Network
    requires OnMesh(m, attach)
  {
    DirectedNetwork(m, attach, vcsPerVnet, RandomChoice(m))
  }

  lemma RandomIsMinimal(m: Mesh, attach: seq<nat>, a: nat, d: nat, next: nat)
    requires OnMesh(m, attach) && a < m.Size() && d < |attach|
    ensures DirectedForward(m, attach, RandomChoice(m), a, d, next) <==> MinimalNext(m, attach, d, a, next)
  {
    var t, n := attach[d], |attach|;
    if a != t {
      if dir :| RandomChoice(m)(a, t, dir) && next == 2 * n + m.Step(a, dir) {
        AlgorithmsAgainstRule(m, a, t, dir);
        ProductiveHas(m, a, t, dir);
        DirectionToIs(m, a, dir);
      } else if next >= 2 * n && DirectionTo(m, a, next - 2 * n).Some? {
        var dir := DirectionTo(m, a, next - 2 * n).value;
        AlgorithmsAgainstRule(m, a, t, dir);
        assert next == 2 * n + m.Step(a, dir);
      }
    }
  }

  /** Random routing makes all minimal choices, and no others. */
  lemma RandomRoutesFreely(m: Mesh, attach: seq<nat>, vcsPerVnet: nat)
    requires OnMesh(m, attach) && vcsPerVnet > 0
    ensures RoutesFreely(RandomNetwork(m, attach, vcsPerVnet))
  {
    forall a: nat, d: nat, next: nat | a < m.Size() && d < |attach|
      ensures RandomNetwork(m, attach, vcsPerVnet).forward(a, d, next) <==> MinimalNext(m, attach, d, a, next)
    {
      RandomIsMinimal(m, attach, a, d, next);
    }
  }

  // ----- the square at the south-west corner

  /** The corners 0, 1, 2, 3 of a cycle round the square, and the sides between them. */
  function Corner(m: Mesh, t: nat): nat {
    if t == 0 then m.Id(0, 0) else if t == 1 then m.Id(0, 1) else if t == 2 then m.Id(1, 1) else m.Id(1, 0)
  }

  function Side(t: nat): Direction {
    if t == 0 then East else if t == 1 then North else if t == 2 then West else South
  }

  function Next(t: nat): nat {
    if t == 3 then 0 else t + 1
  }

  lemma CornerAt(m: Mesh, t: nat)
    requires m.rows > 1 && m.cols > 1 && t < 4
    ensures Corner(m, t) < m.Size()
    ensures m.Row(Corner(m, t)) == (if t < 2 then 0 else 1)
    ensures m.Col(Corner(m, t)) == (if t == 0 || t == 3 then 0 else 1)
  {
    Decode(m, if t < 2 then 0 else 1, if t == 0 || t == 3 then 0 else 1);
  }

  lemma SideLeads(m: Mesh, t: nat)
    requires m.rows > 1 && m.cols > 1 && t < 4
    ensures DirectionTo(m, Corner(m, t), Corner(m, Next(t))) == Some(Side(t))
  {
    CornerAt(m, t);
    CornerAt(m, Next(t));
    DirectionToIs(m, Corner(m, t), Side(t));
    StepCoordinates(m, Corner(m, t), Side(t));
    SameCoordinates(m, m.Step(Corner(m, t), Side(t)), Corner(m, Next(t)));
  }

  /** ds[t] is a controller at corner t. */
  predicate AtCorners(net: Network, ds: seq<nat>) {
    |ds| == 4 && forall t :: 0 <= t < 4 ==> ds[t] < |net.attach| && net.attach[ds[t]] == Corner(net.mesh, t)
  }

  /** A packet for the corner after next may take the two sides that lead there. */
  lemma RoundTheSquare(net: Network, ds: seq<nat>, t: nat)
    requires net.Valid() && RoutesFreely(net) && net.mesh.rows > 1 && net.mesh.cols > 1 && AtCorners(net, ds) && t < 4
    ensures var m, n := net.mesh, |net.attach|;
      && net.forward(Corner(m, t), ds[Next(Next(t))], 2 * n + Corner(m, Next(t)))
      && net.forward(Corner(m, Next(t)), ds[Next(Next(t))], 2 * n + Corner(m, Next(Next(t))))
  {
    var m := net.mesh;
    CornerAt(m, t);
    CornerAt(m, Next(t));
    CornerAt(m, Next(Next(t)));
    SideLeads(m, t);
    SideLeads(m, Next(t));
  }

  // ----- packets that chase one another

  /** Packet i is the one numbered Remainder(i, 4) of round Quotient(i, 4). It comes from
      the corner of that number, has made one hop, and is bound for the corner after next. */
  function Chaser(net: Network, ds: seq<nat>, i: nat): Flit
    requires |ds| == 4
  {
    Euclid(i, 4);
    var m, t := net.mesh, Remainder(i, 4);
    Flit(Packet(i, ds[Next(Next(t))]), Hop(Corner(m, t), Corner(m, Next(t))), Quotient(i, 4),
         2 * |net.attach| + Corner(m, Next(Next(t))))
  }

  function Chasers(net: Network, ds: seq<nat>, k: nat): (flits: seq<Flit>)
    requires |ds| == 4
    ensures |flits| == k && forall i :: 0 <= i < k ==> flits[i] == Chaser(net, ds, i)
  {
    seq(k, i requires 0 <= i < k => Chaser(net, ds, i))
  }

  /** Different sides are different channels. */
  lemma SidesDiffer(m: Mesh, t: nat, u: nat)
    requires m.rows > 1 && m.cols > 1 && t < 4 && u < 4 && Corner(m, t) == Corner(m, u)
    ensures t == u
  {
    CornerAt(m, t);
    CornerAt(m, u);
  }

  lemma ChaserIsAlone(net: Network, ds: seq<nat>, k: nat)
    requires net.mesh.rows > 1 && net.mesh.cols > 1 && |ds| == 4
    ensures var f := Chaser(net, ds, k); Free(Chasers(net, ds, k), f.at, f.vc)
  {
    forall i: nat | i < k
      ensures Chaser(net, ds, i).at != Chaser(net, ds, k).at || Chaser(net, ds, i).vc != Chaser(net, ds, k).vc
    {
      Euclid(i, 4);
      Euclid(k, 4);
      if Chaser(net, ds, i).at == Chaser(net, ds, k).at {
        SidesDiffer(net.mesh, Remainder(i, 4), Remainder(k, 4));
      }
    }
  }

  lemma ReachableStep(net: Network, s: State, s': State)
    requires net.Valid() && Reachable(net, s) && Steps(net, s, s')
    ensures Reachable(net, s')
  {
    var run :| Run(net, run) && run[0] == State([], []) && run[|run| - 1] == s;
    var longer := run + [s'];
    forall i | 0 <= i < |longer| - 1
      ensures Steps(net, longer[i], longer[i + 1])
    {
      if i < |run| - 1 {
        assert longer[i] == run[i] && longer[i + 1] == run[i + 1];
      }
    }
    assert Run(net, longer);
  }

  lemma NothingYet(net: Network)
    requires net.Valid()
    ensures Reachable(net, State([], []))
  {
    assert Run(net, [State([], [])]);
  }

  /** Rounds below vcsPerVnet stay in virtual network 0. */
  lemma RoundsShareVnet(net: Network, i: nat)
    requires net.vcsPerVnet > 0 && i < 4 * net.vcsPerVnet
    ensures Quotient(i, 4) < net.vcsPerVnet && net.Vnet(Quotient(i, 4)) == net.Vnet(0) == 0
  {
    Arithmetic(i, 4);
  }

  /** Packet k before its first hop. */
  function Waiting(net: Network, ds: seq<nat>, k: nat): Flit
    requires |ds| == 4
  {
    Euclid(k, 4);
    var t := Remainder(k, 4);
    Flit(Packet(k, ds[Next(Next(t))]), Inject(ds[t]), 0, 2 * |net.attach| + Corner(net.mesh, Next(t)))
  }

  lemma ChaserEnters(net: Network, ds: seq<nat>, k: nat)
    requires net.Valid() && RoutesFreely(net) && net.mesh.rows > 1 && net.mesh.cols > 1 && AtCorners(net, ds)
    ensures CanInject(net, State(Chasers(net, ds, k), []), Waiting(net, ds, k))
  {
    Euclid(k, 4);
    RoundTheSquare(net, ds, Remainder(k, 4));
  }

  lemma ChaserMoves(net: Network, ds: seq<nat>, k: nat)
    requires net.Valid() && RoutesFreely(net) && net.mesh.rows > 1 && net.mesh.cols > 1 && AtCorners(net, ds)
    requires k < 4 * net.vcsPerVnet
    ensures CanMove(net, State(Chasers(net, ds, k) + [Waiting(net, ds, k)], []), k, Chaser(net, ds, k))
  {
    Euclid(k, 4);
    RoundTheSquare(net, ds, Remainder(k, 4));
    ChaserIsAlone(net, ds, k);
    RoundsShareVnet(net, k);
  }

  /** It takes the lowest free virtual channel, as the allocator does. */
  lemma ChaserTakesLowest(net: Network, ds: seq<nat>, k: nat, vc: nat)
    requires |ds| == 4 && vc < Chaser(net, ds, k).vc
    ensures !Free(Chasers(net, ds, k), Chaser(net, ds, k).at, vc)
  {
    Euclid(k, 4);
    var t := Remainder(k, 4);
    QuotientOf(vc, 4, t);
    TimesMono(vc + 1, Quotient(k, 4), 4);
    var j := t + Times(vc, 4);
    assert Chasers(net, ds, k)[j] == Chaser(net, ds, j);
  }

  /** One more packet: it is injected and makes its first hop. */
  lemma OneMoreChaser(net: Network, ds: seq<nat>, k: nat)
    requires net.Valid() && RoutesFreely(net) && net.mesh.rows > 1 && net.mesh.cols > 1 && AtCorners(net, ds)
    requires k < 4 * net.vcsPerVnet && Reachable(net, State(Chasers(net, ds, k), []))
    ensures Reachable(net, State(Chasers(net, ds, k + 1), []))
  {
    var s := State(Chasers(net, ds, k), []);
    ChaserEnters(net, ds, k);
    var s1 := AfterInject(s, Waiting(net, ds, k));
    ReachableStep(net, s, s1);
    ChaserMoves(net, ds, k);
    var s2 := AfterMove(s1, k, Chaser(net, ds, k));
    assert s2.flits == Chasers(net, ds, k + 1);
    ReachableStep(net, s1, s2);
  }

  lemma {:induction false} ChasersReachable(net: Network, ds: seq<nat>, k: nat)
    requires net.Valid() && RoutesFreely(net) && net.mesh.rows > 1 && net.mesh.cols > 1 && AtCorners(net, ds)
    requires k <= 4 * net.vcsPerVnet
    ensures Reachable(net, State(Chasers(net, ds, k), []))
  {
    if k == 0 {
      NothingYet(net);
      assert Chasers(net, ds, 0) == [];
    } else {
      ChasersReachable(net, ds, k - 1);
      OneMoreChaser(net, ds, k - 1);
    }
  }

  /** Once there are enough packets, each waits for the next: whatever virtual channel of its
      virtual network it could take, a packet of the next corner holds it. */
  lemma EachWaitsForTheNext(net: Network, ds: seq<nat>, k: nat, vc: nat) returns (j: nat)
    requires net.Valid() && AtCorners(net, ds) && k < 4 * net.vcsPerVnet
    requires net.Vnet(vc) == net.Vnet(Chaser(net, ds, k).vc)
    ensures j < 4 * net.vcsPerVnet && Remainder(j, 4) == Next(Remainder(k, 4))
    ensures var f := Chaser(net, ds, k);
      f.next >= 2 * |net.attach| && Chaser(net, ds, j).at == Hop(f.at.dst, f.next - 2 * |net.attach|)
    ensures Chaser(net, ds, j).vc == vc
  {
    RoundsShareVnet(net, k);
    Arithmetic(vc, net.vcsPerVnet);
    Euclid(k, 4);
    var t := Next(Remainder(k, 4));
    QuotientOf(vc, 4, t);
    TimesIsProduct(vc, 4);
    j := t + Times(vc, 4);
  }

  lemma ChasersAreStuck(net: Network, ds: seq<nat>, s': State)
    requires net.Valid() && AtCorners(net, ds)
    ensures !Drains(net, State(Chasers(net, ds, 4 * net.vcsPerVnet), []), s')
  {
    var s := State(Chasers(net, ds, 4 * net.vcsPerVnet), []);
    forall k: nat, f: Flit | k < |s.flits|
      ensures !CanMove(net, s, k, f)
    {
      if net.Vnet(f.vc) == net.Vnet(s.flits[k].vc) {
        var j := EachWaitsForTheNext(net, ds, k, f.vc);
        assert s.flits[j].vc == f.vc;
      }
    }
  }

  // ----- when minimal routing deadlocks

  /** The network can get into a state with packets in it that can neither move nor be
      delivered. */
  ghost predicate CanDeadlock(net: Network)
    requires net.Valid()
  {
    exists s :: Reachable(net, s) && s.flits != [] && forall s' :: !Drains(net, s, s')
  }

  lemma ControllerAtCorner(net: Network, t: nat) returns (d: nat)
    requires net.Valid() && net.mesh.rows > 1 && net.mesh.cols > 1 && t < 4
    requires forall r: nat :: r < net.mesh.Size() ==> r in net.attach
    ensures d < |net.attach| && net.attach[d] == Corner(net.mesh, t)
  {
    CornerAt(net.mesh, t);
    assert Corner(net.mesh, t) in net.attach;
    d :| 0 <= d < |net.attach| && net.attach[d] == Corner(net.mesh, t);
  }

  lemma SquareDeadlocks(net: Network)
    requires net.Valid() && RoutesFreely(net) && net.mesh.rows > 1 && net.mesh.cols > 1
    requires forall r: nat :: r < net.mesh.Size() ==> r in net.attach
    ensures CanDeadlock(net)
  {
    var d0 := ControllerAtCorner(net, 0);
    var d1 := ControllerAtCorner(net, 1);
    var d2 := ControllerAtCorner(net, 2);
    var d3 := ControllerAtCorner(net, 3);
    var ds := [d0, d1, d2, d3];
    var s := State(Chasers(net, ds, 4 * net.vcsPerVnet), []);
    ChasersReachable(net, ds, 4 * net.vcsPerVnet);
    forall s'
      ensures !Drains(net, s, s')
    {
      ChasersAreStuck(net, ds, s');
    }
  }

  /** In a single row or column every minimal choice is a west-first choice. */
  lemma LineRoutesWestFirst(net: Network)
    requires net.Valid() && RoutesFreely(net) && (net.mesh.rows == 1 || net.mesh.cols == 1)
    ensures net.RoutesWestFirst()
  {
    FreelyIsMinimally(net);
    forall a: nat, d: nat, next: nat | a < net.mesh.Size() && d < |net.attach| && net.forward(a, d, next)
      ensures WestFirstNext(net.mesh, net.attach, d, a, next)
    {
      Encode(net.mesh, a);
      Encode(net.mesh, net.attach[d]);
      assert MinimalNext(net.mesh, net.attach, d, a, next);
    }
  }

  lemma WestFirstCannotDeadlock(net: Network)
    requires net.Valid() && net.RoutesWestFirst()
    ensures !CanDeadlock(net)
  {
    forall s | Reachable(net, s) && s.flits != []
      ensures exists s' :: Drains(net, s, s')
    {
      ReachableInv(net, s);
      NeverStuck(net, s);
    }
  }

  /** Main result: with a controller at every router, and however many virtual channels,
      unrestricted minimal routing can deadlock if and only if the mesh has more than one row
      and more than one column. */
  lemma MinimalDeadlocksIff(net: Network)
    requires net.Valid() && RoutesFreely(net)
    requires forall r: nat :: r < net.mesh.Size() ==> r in net.attach
    ensures CanDeadlock(net) <==> net.mesh.rows > 1 && net.mesh.cols > 1
  {
    if net.mesh.rows > 1 && net.mesh.cols > 1 {
      SquareDeadlocks(net);
    } else {
      LineRoutesWestFirst(net);
      WestFirstCannotDeadlock(net);
    }
  }

  lemma RandomRoutingDeadlocksIff(m: Mesh, attach: seq<nat>, vcsPerVnet: nat)
    requires OnMesh(m, attach) && vcsPerVnet > 0
    requires forall r: nat :: r < m.Size() ==> r in attach
    ensures CanDeadlock(RandomNetwork(m, attach, vcsPerVnet)) <==> m.rows > 1 && m.cols > 1
  {
    RandomRoutesFreely(m, attach, vcsPerVnet);
    MinimalDeadlocksIff(RandomNetwork(m, attach, vcsPerVnet));
  }

  /** When all controllers sit at one router, every packet has arrived where it is injected. */
  ghost predicate AllArrived(net: Network, s: State)
    requires net.Valid()
  {
    forall k :: 0 <= k < |s.flits| ==> |net.attach| <= s.flits[k].next < 2 * |net.attach|
  }

  lemma {:induction false} RunKeepsArrived(net: Network, run: seq<State>)
    requires net.Valid() && RoutesFreely(net) && Run(net, run) && run[0] == State([], [])
    requires forall i, j :: 0 <= i < j < |net.attach| ==> net.attach[i] == net.attach[j]
    ensures AllArrived(net, run[|run| - 1])
  {
    if |run| > 1 {
      RunKeepsArrived(net, run[..|run| - 1]);
      StepKeepsArrived(net, run[|run| - 2], run[|run| - 1]);
    }
  }

  lemma StepKeepsArrived(net: Network, s: State, s': State)
    requires net.Valid() && RoutesFreely(net) && AllArrived(net, s) && Steps(net, s, s')
    requires forall i, j :: 0 <= i < j < |net.attach| ==> net.attach[i] == net.attach[j]
    ensures AllArrived(net, s')
  {
    if k: nat :| CanDeliver(net, s, k) && s' == AfterDeliver(net, s, k) {
      assert forall j :: 0 <= j < |s'.flits| ==> s'.flits[j] == s.flits[if j < k then j else j + 1];
    } else if f: Flit :| CanInject(net, s, f) && s' == AfterInject(s, f) {
      assert MinimalNext(net.mesh, net.attach, f.packet.dest, At(net, f.at), f.next);
    }
  }

  lemma OneRouterCannotDeadlock(net: Network)
    requires net.Valid() && RoutesFreely(net)
    requires forall i, j :: 0 <= i < j < |net.attach| ==> net.attach[i] == net.attach[j]
    ensures !CanDeadlock(net)
  {
    forall s | Reachable(net, s) && s.flits != []
      ensures exists s' :: Drains(net, s, s')
    {
      var run :| Run(net, run) && run[0] == State([], []) && run[|run| - 1] == s;
      RunKeepsArrived(net, run);
      assert CanDeliver(net, s, 0);
      assert Drains(net, s, AfterDeliver(net, s, 0));
    }
  }

  /** Controllers attached as the mesh scripts do, under random routing: it can deadlock if and
      only if there is a controller for every router, and more than one row and column. Of these
      scripts Mesh_XY.py names the directions of its links, which routing by direction looks up;
      Mesh_westfirst.py does not. */
  lemma BuiltDeadlocksIff(nodes: seq<Controller>, m: Mesh, vcsPerVnet: nat)
    requires WellNumbered(nodes) && m.Valid() && m.Size() > 0 && vcsPerVnet > 0
    requires OnMesh(m, Attach(nodes, m.Size()))
    ensures CanDeadlock(RandomNetwork(m, Attach(nodes, m.Size()), vcsPerVnet)) <==>
      m.Size() <= |nodes| && m.rows > 1 && m.cols > 1
  {
    var attach := Attach(nodes, m.Size());
    AttachCovers(nodes, m.Size());
    if m.Size() <= |nodes| {
      RandomRoutingDeadlocksIff(m, attach, vcsPerVnet);
    } else {
      RandomRoutesFreely(m, attach, vcsPerVnet);
      OneRouterCannotDeadlock(RandomNetwork(m, attach, vcsPerVnet));
    }
  }

  /** The smallest case: four packets on a 2 x 2 mesh with one virtual channel. */
  const FOUR_PACKETS := [
    Flit(Packet(0, 3), Hop(0, 1), 0, 11), Flit(Packet(1, 2), Hop(1, 3), 0, 10),
    Flit(Packet(2, 0), Hop(3, 2), 0, 8), Flit(Packet(3, 1), Hop(2, 0), 0, 9)]

  lemma CornerIds(m: Mesh, t: nat)
    requires t < 4
    ensures Corner(m, t) == if t == 0 then 0 else if t == 1 then 1 else if t == 2 then m.cols + 1 else m.cols
  {
    var one: nat := 1;
    assert Times(one, m.cols) == Times(one - 1, m.cols) + m.cols;
  }

  lemma ChaserOfFour(net: Network, i: nat)
    requires net.mesh.cols == 2 && |net.attach| == 4 && i < 4
    ensures Chaser(net, [0, 1, 3, 2], i) == FOUR_PACKETS[i]
  {
    CornerIds(net.mesh, i);
    CornerIds(net.mesh, Next(i));
    CornerIds(net.mesh, Next(Next(i)));
  }

  lemma FourChasers(net: Network)
    requires net.mesh.cols == 2 && |net.attach| == 4
    ensures Chasers(net, [0, 1, 3, 2], 4) == FOUR_PACKETS
  {
    forall i | 0 <= i < 4
      ensures Chasers(net, [0, 1, 3, 2], 4)[i] == FOUR_PACKETS[i]
    {
      ChaserOfFour(net, i);
    }
  }

  lemma FourPacketsDeadlock(net: Network)
    requires net.mesh.rows == net.mesh.cols == 2 && net.attach == [0, 1, 2, 3] && net.vcsPerVnet == 1
    requires net.Valid() && RoutesFreely(net)
    ensures Reachable(net, State(FOUR_PACKETS, [])) && forall s' :: !Drains(net, State(FOUR_PACKETS, []), s')
  {
    var ds := [0, 1, 3, 2];
    FourChasers(net);
    ChasersReachable(net, ds, 4);
    forall s'
      ensures !Drains(net, State(FOUR_PACKETS, []), s')
    {
      ChasersAreStuck(net, ds, s');
    }
  }
}
