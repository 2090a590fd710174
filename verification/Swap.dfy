/**
 SWAP: two packets in adjacent routers exchange places
 (gem5/src/mem/ruby/network/garnet2.0/Router.cc and GarnetNetwork.cc, with `no_is_swap`
 set and local ports disabled, as in the repository's sample command line).

 When and at which buffer a router starts a swap is decided by its time slot and its
 swap pointer, which SwapPointer models. Here any occupied mesh buffer may be the one where
 something is proved of all runs, and only base channels where a run is shown to exist.
 */
module Swap {
  import opened Grid
  import opened SwitchGraph
  import opened WestFirst
  import opened MeshNetwork
  import opened DeadlockFreedom
  import opened MinimalRouting

  // ----- the swap step

  /** Flit j, in a mesh buffer and bound for another router, trades places with flit k,
      which holds the same virtual channel of the buffer flit j waits for and is not about
      to leave the mesh. Both get their outputs chosen anew. */
  ghost predicate CanSwap(net: Network, s: State, j: nat, k: nat, g: Flit, h: Flit)
    requires net.Valid()
  {
    && j < |s.flits| && k < |s.flits| && j != k
    && var (u, d) := (s.flits[j], s.flits[k]);
       && u.at.Hop? && u.next >= 2 * |net.attach|
       && d.at == Hop(u.at.dst, u.next - 2 * |net.attach|) && d.vc == u.vc && d.next >= 2 * |net.attach|
       && g.packet == u.packet && g.at == d.at && g.vc == u.vc
       && net.forward(d.at.dst, u.packet.dest, g.next)
       && h.packet == d.packet && h.at == u.at && h.vc == u.vc
       && net.forward(u.at.dst, d.packet.dest, h.next)
  }

  function AfterSwap(s: State, j: nat, k: nat, g: Flit, h: Flit): State
    requires j < |s.flits| && k < |s.flits|
  {
    s.(flits := s.flits[j := g][k := h])
  }

  ghost predicate Swaps(net: Network, s: State, s': State)
    requires net.Valid()
  {
    exists j: nat, k: nat, g: Flit, h: Flit :: CanSwap(net, s, j, k, g, h) && s' == AfterSwap(s, j, k, g, h)
  }

  /** The base channel of the virtual network of a channel. */
  function Base(net: Network, vc: nat): nat
    requires net.vcsPerVnet > 0
  {
    Times(net.Vnet(vc), net.vcsPerVnet)
  }

  lemma BaseSharesVnet(net: Network, vc: nat)
    requires net.vcsPerVnet > 0
    ensures net.Vnet(Base(net, vc)) == net.Vnet(vc) && Base(net, Base(net, vc)) == Base(net, vc)
  {
    QuotientOf(net.Vnet(vc), net.vcsPerVnet, 0);
  }

  /** Flit j is in a base channel, and no packet in the mesh is in a lower virtual network.
      With one virtual network: it is in channel 0. */
  ghost predicate InLowestBase(net: Network, s: State, j: nat)
    requires net.Valid()
  {
    && j < |s.flits| && s.flits[j].vc == Base(net, s.flits[j].vc)
    && forall k :: 0 <= k < |s.flits| && s.flits[k].at.Hop? ==> net.Vnet(s.flits[j].vc) <= net.Vnet(s.flits[k].vc)
  }

  /** A swap started from there. While such a channel is full at every mesh port in use the
      swap pointer offers no other (SwapPointer.HigherVcsPassedOver). */
  ghost predicate BaseSwaps(net: Network, s: State, s': State)
    requires net.Valid()
  {
    exists j: nat, k: nat, g: Flit, h: Flit ::
      CanSwap(net, s, j, k, g, h) && InLowestBase(net, s, j) && s' == AfterSwap(s, j, k, g, h)
  }

  /** One step of a network with SWAP, without new injections, that swaps no other packets. */
  ghost predicate DrainsOrSwaps(net: Network, s: State, s': State)
    requires net.Valid()
  {
    Drains(net, s, s') || BaseSwaps(net, s, s')
  }

  // ----- the invariant

  ghost predicate WellPlaced(net: Network, f: Flit)
    requires net.Valid()
  {
    && f.packet.dest < |net.attach|
    && (match f.at
        case Inject(node) => node < |net.attach|
        case Hop(src, dst) => src < net.mesh.Size() && DirectionTo(net.mesh, src, dst).Some?)
    && net.forward(At(net, f.at), f.packet.dest, f.next)
  }

  ghost predicate Placed(net: Network, s: State)
    requires net.Valid()
  {
    && (forall k :: 0 <= k < |s.flits| ==> WellPlaced(net, s.flits[k]))
    && DistinctSlots(s.flits)
    && (forall k :: 0 <= k < |s.delivered| ==> s.delivered[k].node == s.delivered[k].packet.dest)
  }

  lemma RouterOfPlaced(net: Network, f: Flit)
    requires net.Valid() && WellPlaced(net, f)
    ensures At(net, f.at) < net.mesh.Size()
  {
    if f.at.Hop? {
      StepCoordinates(net.mesh, f.at.src, DirectionTo(net.mesh, f.at.src, f.at.dst).value);
    }
  }

  lemma OutputOfPlaced(net: Network, f: Flit)
    requires net.Valid() && RoutesMinimally(net) && WellPlaced(net, f)
    ensures var n, a := |net.attach|, At(net, f.at);
      && a < net.mesh.Size()
      && if f.next < 2 * n then f.next == n + f.packet.dest && a == net.attach[f.packet.dest]
         else DirectionTo(net.mesh, a, f.next - 2 * n).Some?
              && Productive(net.mesh, a, net.attach[f.packet.dest], DirectionTo(net.mesh, a, f.next - 2 * n).value)
  {
    RouterOfPlaced(net, f);
    assert MinimalNext(net.mesh, net.attach, f.packet.dest, At(net, f.at), f.next);
  }

  lemma MoveKeepsPlaced(net: Network, s: State, k: nat, f: Flit)
    requires net.Valid() && RoutesMinimally(net) && Placed(net, s) && CanMove(net, s, k, f)
    ensures Placed(net, AfterMove(s, k, f))
  {
    OutputOfPlaced(net, s.flits[k]);
    assert WellPlaced(net, f);
    UpdateKeepsSlotsDistinct(s.flits, k, f);
  }

  lemma DeliverKeepsPlaced(net: Network, s: State, k: nat)
    requires net.Valid() && RoutesMinimally(net) && Placed(net, s) && CanDeliver(net, s, k)
    ensures Placed(net, AfterDeliver(net, s, k))
  {
    OutputOfPlaced(net, s.flits[k]);
    var s' := AfterDeliver(net, s, k);
    assert forall j :: 0 <= j < |s'.flits| ==> s'.flits[j] == s.flits[if j < k then j else j + 1];
  }

  lemma SwapKeepsPlaced(net: Network, s: State, j: nat, k: nat, g: Flit, h: Flit)
    requires net.Valid() && RoutesMinimally(net) && Placed(net, s) && CanSwap(net, s, j, k, g, h)
    ensures Placed(net, AfterSwap(s, j, k, g, h))
  {
    assert WellPlaced(net, s.flits[j]) && WellPlaced(net, s.flits[k]);
    assert WellPlaced(net, g) && WellPlaced(net, h);
    TradeKeepsSlotsDistinct(s.flits, j, k, g, h);
  }

  lemma TradeKeepsSlotsDistinct(flits: seq<Flit>, j: nat, k: nat, g: Flit, h: Flit)
    requires DistinctSlots(flits) && j < |flits| && k < |flits| && j != k
    requires g.at == flits[k].at && g.vc == flits[k].vc && h.at == flits[j].at && h.vc == flits[j].vc
    ensures DistinctSlots(flits[j := g][k := h])
  {
  }

  lemma InjectKeepsPlaced(net: Network, s: State, f: Flit)
    requires net.Valid() && Placed(net, s) && CanInject(net, s, f)
    ensures Placed(net, AfterInject(s, f))
  {
    assert WellPlaced(net, f);
  }

  /** A swap keeps every packet. */
  lemma SwapKeepsPackets(net: Network, s: State, j: nat, k: nat, g: Flit, h: Flit)
    requires net.Valid() && CanSwap(net, s, j, k, g, h)
    ensures Packets(AfterSwap(s, j, k, g, h)) == Packets(s)
  {
    assert InFlight(AfterSwap(s, j, k, g, h).flits) == InFlight(s.flits);
  }

  // ----- which swaps there are

  /** The packet is at the router of its destination. */
  ghost predicate HasArrived(net: Network, f: Flit)
    requires net.Valid() && WellPlaced(net, f)
  {
    At(net, f.at) == net.attach[f.packet.dest]
  }

  lemma ArrivedIffLeaving(net: Network, f: Flit)
    requires net.Valid() && RoutesMinimally(net) && WellPlaced(net, f)
    ensures HasArrived(net, f) <==> f.next < 2 * |net.attach|
  {
    RouterOfPlaced(net, f);
    assert MinimalNext(net.mesh, net.attach, f.packet.dest, At(net, f.at), f.next);
  }

  /** Flit j waits for the buffer that flit k is in, in the same virtual channel. */
  ghost predicate WaitsFor(net: Network, s: State, j: nat, k: nat) {
    && j < |s.flits| && k < |s.flits|
    && var (u, d) := (s.flits[j], s.flits[k]);
       u.at.Hop? && d.at.Hop? && d.at.src == u.at.dst && u.next == 2 * |net.attach| + d.at.dst && d.vc == u.vc
  }

  ghost predicate CanTrade(net: Network, s: State, j: nat, k: nat)
    requires net.Valid()
  {
    exists g: Flit, h: Flit :: CanSwap(net, s, j, k, g, h)
  }

  /** Main result: two packets can trade places if and only if the first waits for the buffer of
      the second, in the same channel, and neither is at the router of its destination. */
  lemma CanTradeIff(net: Network, s: State, j: nat, k: nat)
    requires net.Valid() && RoutesMinimally(net) && Placed(net, s)
    ensures CanTrade(net, s, j, k) <==>
      WaitsFor(net, s, j, k) && !HasArrived(net, s.flits[j]) && !HasArrived(net, s.flits[k])
  {
    if j < |s.flits| && k < |s.flits| {
      ArrivedIffLeaving(net, s.flits[j]);
      ArrivedIffLeaving(net, s.flits[k]);
      if WaitsFor(net, s, j, k) && !HasArrived(net, s.flits[k]) {
        SomeSwap(net, s, j, k);
      }
    }
  }

  lemma SomeSwap(net: Network, s: State, j: nat, k: nat)
    requires net.Valid() && RoutesMinimally(net) && Placed(net, s) && WaitsFor(net, s, j, k)
    requires s.flits[k].next >= 2 * |net.attach|
    ensures CanTrade(net, s, j, k)
  {
    var u, d := s.flits[j], s.flits[k];
    assert WellPlaced(net, u) && WellPlaced(net, d);
    RouterOfPlaced(net, u);
    RouterOfPlaced(net, d);
    StepCoordinates(net.mesh, d.at.src, DirectionTo(net.mesh, d.at.src, d.at.dst).value);
    assert net.Forwards(d.at.dst, u.packet.dest) && net.Forwards(u.at.dst, d.packet.dest);
    var x: nat :| net.forward(d.at.dst, u.packet.dest, x);
    var y: nat :| net.forward(u.at.dst, d.packet.dest, y);
    assert CanSwap(net, s, j, k, Flit(u.packet, d.at, u.vc, x), Flit(d.packet, u.at, u.vc, y));
  }

  /** A packet can be injected into a channel of a controller's port if and only if that channel
      is free; ... */
  lemma CanInjectIff(net: Network, s: State, p: Packet, node: nat, vc: nat)
    requires net.Valid() && RoutesMinimally(net) && p.dest < |net.attach| && node < |net.attach|
    ensures (exists f: Flit :: CanInject(net, s, f) && f.packet == p && f.at == Inject(node) && f.vc == vc) <==>
      forall x :: 0 <= x < |s.flits| ==> s.flits[x].at != Inject(node) || s.flits[x].vc != vc
  {
    if Free(s.flits, Inject(node), vc) {
      assert net.Forwards(net.attach[node], p.dest);
      var next: nat :| net.forward(net.attach[node], p.dest, next);
      assert CanInject(net, s, Flit(p, Inject(node), vc, next));
    }
  }

  /** ... it can move into a channel behind its output if and only if it has not arrived and that
      channel is free and of the same virtual network; ... */
  lemma CanMoveIff(net: Network, s: State, k: nat, vc: nat)
    requires net.Valid() && RoutesMinimally(net) && Placed(net, s) && k < |s.flits|
    ensures var f, n := s.flits[k], |net.attach|;
      (exists g: Flit :: CanMove(net, s, k, g) && g.vc == vc) <==>
        && !HasArrived(net, f) && net.Vnet(vc) == net.Vnet(f.vc)
        && forall x :: 0 <= x < |s.flits| && s.flits[x].vc == vc && s.flits[x].at.Hop? ==>
          s.flits[x].at.src != At(net, f.at) || 2 * n + s.flits[x].at.dst != f.next
  {
    var f := s.flits[k];
    ArrivedIffLeaving(net, f);
    if !HasArrived(net, f) {
      var g := NextHop(net, s, k, vc);
      if Free(s.flits, g.at, vc) && net.Vnet(vc) == net.Vnet(f.vc) {
        assert CanMove(net, s, k, g);
      }
      if g' :| CanMove(net, s, k, g') && g'.vc == vc {
        assert g'.at == g.at;
      }
    }
  }

  /** ... and it can be delivered if and only if it has. */
  lemma CanDeliverIff(net: Network, s: State, k: nat)
    requires net.Valid() && RoutesMinimally(net) && Placed(net, s) && k < |s.flits|
    ensures CanDeliver(net, s, k) <==> HasArrived(net, s.flits[k])
  {
    ArrivedIffLeaving(net, s.flits[k]);
    OutputOfPlaced(net, s.flits[k]);
  }

  /** A swap exchanges the buffers of its two packets, touches no other, and never moves a packet
      that has arrived. */
  lemma SwapTrades(net: Network, s: State, j: nat, k: nat, g: Flit, h: Flit)
    requires net.Valid() && RoutesMinimally(net) && Placed(net, s) && CanSwap(net, s, j, k, g, h)
    ensures var t := AfterSwap(s, j, k, g, h);
      && |t.flits| == |s.flits| && t.delivered == s.delivered
      && t.flits[j].packet == s.flits[j].packet && t.flits[j].at == s.flits[k].at && t.flits[j].vc == s.flits[k].vc
      && t.flits[k].packet == s.flits[k].packet && t.flits[k].at == s.flits[j].at && t.flits[k].vc == s.flits[j].vc
      && (forall x :: 0 <= x < |s.flits| && x != j && x != k ==> t.flits[x] == s.flits[x])
      && forall x :: 0 <= x < |s.flits| && HasArrived(net, s.flits[x]) ==> t.flits[x] == s.flits[x]
  {
    assert CanTrade(net, s, j, k);
    CanTradeIff(net, s, j, k);
  }

  /** The packet that asks for a move or a swap gets one hop closer by it. */
  lemma HopBringsCloser(net: Network, f: Flit, b: nat)
    requires net.Valid() && RoutesMinimally(net) && WellPlaced(net, f) && f.next == 2 * |net.attach| + b
    ensures b < net.mesh.Size()
    ensures Hops(net.mesh, b, net.attach[f.packet.dest]) == Hops(net.mesh, At(net, f.at), net.attach[f.packet.dest]) - 1
  {
    OutputOfPlaced(net, f);
    StepChangesHops(net.mesh, At(net, f.at), net.attach[f.packet.dest], DirectionTo(net.mesh, At(net, f.at), b).value);
  }

  // ----- no state is a dead end

  ghost predicate SwapRun(net: Network, run: seq<State>)
    requires net.Valid()
  {
    |run| > 0 && forall i :: 0 <= i < |run| - 1 ==> DrainsOrSwaps(net, run[i], run[i + 1])
  }

  /** A run from s to s', losing nothing. */
  ghost predicate Leads(net: Network, s: State, s': State, run: seq<State>)
    requires net.Valid()
  {
    && SwapRun(net, run) && run[0] == s && run[|run| - 1] == s'
    && Placed(net, s') && Packets(s') == Packets(s)
  }

  lemma Prepend(net: Network, s: State, t: State, s': State, run: seq<State>)
    requires net.Valid() && DrainsOrSwaps(net, s, t) && Packets(t) == Packets(s) && Leads(net, t, s', run)
    ensures Leads(net, s, s', [s] + run)
  {
    var longer := [s] + run;
    assert forall i :: 0 < i < |longer| ==> longer[i] == run[i - 1];
  }

  lemma Join(net: Network, s: State, t: State, s': State, run: seq<State>, rest: seq<State>)
    requires net.Valid() && Leads(net, s, t, run) && Leads(net, t, s', rest)
    ensures Leads(net, s, s', run[..|run| - 1] + rest)
    decreases |run|
  {
    var all := run[..|run| - 1] + rest;
    forall i | 0 <= i < |all| - 1
      ensures DrainsOrSwaps(net, all[i], all[i + 1])
    {
      if i < |run| - 1 {
        assert all[i] == run[i] && all[i + 1] == run[i + 1];
      }
    }
  }

  /** Every packet waiting at a controller's port, other than f0, still waits there. */
  ghost predicate StillWaiting(s: State, f0: Flit, t: State) {
    forall f :: f in s.flits && f.at.Inject? && f != f0 ==> f in t.flits
  }

  /** Flit k holds the virtual channel that flit j, in the mesh, would be flit g in. */
  ghost predicate InTheWay(net: Network, s: State, j: nat, k: nat, g: Flit)
    requires j < |s.flits| && k < |s.flits|
  {
    var u, d := s.flits[j], s.flits[k];
    && u.at.Hop? && u.next >= 2 * |net.attach|
    && d.at == Hop(u.at.dst, u.next - 2 * |net.attach|) && d.vc == u.vc
    && g.packet == u.packet && g.at == d.at && g.vc == u.vc && net.forward(d.at.dst, u.packet.dest, g.next)
  }

  lemma SwapNow(net: Network, s: State, j: nat, k: nat, g: Flit) returns (t: State)
    requires net.Valid() && RoutesMinimally(net) && Placed(net, s) && j < |s.flits| && k < |s.flits|
    requires InTheWay(net, s, j, k, g) && s.flits[k].next >= 2 * |net.attach|
    requires InLowestBase(net, s, j)
    ensures DrainsOrSwaps(net, s, t) && Placed(net, t) && Packets(t) == Packets(s)
    ensures j != k && |t.flits| == |s.flits| && t.flits == s.flits[j := g][k := t.flits[k]]
    ensures t.flits[k].packet == s.flits[k].packet && t.flits[k].vc == g.vc
  {
    var u, d := s.flits[j], s.flits[k];
    assert WellPlaced(net, u) && WellPlaced(net, d);
    RouterOfPlaced(net, u);
    assert j != k by {
      StepCoordinates(net.mesh, u.at.src, DirectionTo(net.mesh, u.at.src, u.at.dst).value);
    }
    assert net.Forwards(u.at.dst, d.packet.dest);
    var y: nat :| net.forward(u.at.dst, d.packet.dest, y);
    var h := Flit(d.packet, u.at, u.vc, y);
    assert CanSwap(net, s, j, k, g, h);
    t := AfterSwap(s, j, k, g, h);
    SwapKeepsPlaced(net, s, j, k, g, h);
    SwapKeepsPackets(net, s, j, k, g, h);
  }

  /** One step from s to t. The packet at position gone of s, if that is one, is delivered;
      the others keep their order. */
  ghost predicate Passes(net: Network, s: State, t: State, gone: int)
    requires net.Valid()
  {
    && DrainsOrSwaps(net, s, t) && Placed(net, t) && Packets(t) == Packets(s)
    && if 0 <= gone < |s.flits| then
         && |t.flits| == |s.flits| - 1
         && (forall x :: 0 <= x < |t.flits| ==> t.flits[x].packet == s.flits[if x < gone then x else x + 1].packet)
         && t.delivered == s.delivered + [Delivery(s.flits[gone].packet, s.flits[gone].packet.dest)]
       else
         && |t.flits| == |s.flits|
         && forall x :: 0 <= x < |t.flits| ==> t.flits[x].packet == s.flits[x].packet
  }

  /** Where the packet at position x is then. */
  function Shifted(x: nat, gone: int): nat {
    if 0 <= gone < x then x - 1 else x
  }

  /** Packet j of s is packet i of t, closer to its destination by a hop, or with one packet
      less in the network. */
  ghost predicate Advanced(net: Network, s: State, j: nat, t: State, i: nat)
    requires net.Valid() && Placed(net, s) && Placed(net, t) && j < |s.flits| && i < |t.flits|
  {
    var f, g := s.flits[j], t.flits[i];
    var to := net.attach[f.packet.dest];
    && g.packet == f.packet && g.at.Hop?
    && if |t.flits| == |s.flits| then Hops(net.mesh, At(net, g.at), to) < Hops(net.mesh, At(net, f.at), to)
       else |t.flits| < |s.flits| && g.at == f.at
  }

  lemma RemovalKeeps(flits: seq<Flit>, k: nat, f: Flit)
    requires k < |flits| && f in flits && f != flits[k]
    ensures f in flits[..k] + flits[k + 1..]
  {
    var x :| 0 <= x < |flits| && flits[x] == f;
    assert (flits[..k] + flits[k + 1..])[if x < k then x else x - 1] == f;
  }

  lemma UpdateKeeps(flits: seq<Flit>, k: nat, g: Flit, f: Flit)
    requires k < |flits| && f in flits && f != flits[k]
    ensures f in flits[k := g]
  {
    var x :| 0 <= x < |flits| && flits[x] == f;
    assert flits[k := g][x] == f;
  }

  lemma DeliveryLeavesWaiting(net: Network, s: State, k: nat, f0: Flit)
    requires net.Valid() && CanDeliver(net, s, k) && (s.flits[k].at.Hop? || s.flits[k] == f0)
    ensures StillWaiting(s, f0, AfterDeliver(net, s, k))
  {
    forall f | f in s.flits && f.at.Inject? && f != f0
      ensures f in AfterDeliver(net, s, k).flits
    {
      RemovalKeeps(s.flits, k, f);
    }
  }

  lemma DeliverTakesOne(net: Network, s: State, k: nat)
    requires net.Valid() && CanDeliver(net, s, k)
    ensures var t := AfterDeliver(net, s, k);
      && |t.flits| == |s.flits| - 1
      && forall x :: 0 <= x < |t.flits| ==> t.flits[x].packet == s.flits[if x < k then x else x + 1].packet
  {
  }

  /** One delivery. */
  lemma DeliveryStep(net: Network, s: State, k: nat) returns (t: State)
    requires net.Valid() && RoutesMinimally(net) && Placed(net, s) && k < |s.flits|
    requires s.flits[k].next < 2 * |net.attach|
    ensures CanDeliver(net, s, k) && t == AfterDeliver(net, s, k) && Passes(net, s, t, k)
  {
    OutputOfPlaced(net, s.flits[k]);
    t := AfterDeliver(net, s, k);
    assert Drains(net, s, t);
    DeliverKeepsPlaced(net, s, k);
    DrainingKeepsPackets(net, s, t);
    DeliverTakesOne(net, s, k);
  }

  /** One move. */
  lemma MoveOn(net: Network, s: State, j: nat, g: Flit) returns (t: State)
    requires net.Valid() && RoutesMinimally(net) && Placed(net, s) && CanMove(net, s, j, g)
    ensures t == AfterMove(s, j, g) && Passes(net, s, t, -1)
    ensures Advanced(net, s, j, t, j) && StillWaiting(s, s.flits[j], t)
  {
    t := AfterMove(s, j, g);
    assert Drains(net, s, t);
    MoveKeepsPlaced(net, s, j, g);
    DrainingKeepsPackets(net, s, t);
    HopBringsCloser(net, s.flits[j], g.at.dst);
    forall f | f in s.flits && f.at.Inject? && f != s.flits[j]
      ensures f in t.flits
    {
      UpdateKeeps(s.flits, j, g, f);
    }
  }

  /** One swap. */
  lemma SwapOn(net: Network, s: State, j: nat, k: nat, g: Flit) returns (t: State)
    requires net.Valid() && RoutesMinimally(net) && Placed(net, s) && j < |s.flits| && k < |s.flits|
    requires InTheWay(net, s, j, k, g) && s.flits[k].next >= 2 * |net.attach|
    requires InLowestBase(net, s, j)
    ensures Passes(net, s, t, -1) && InLowestBase(net, t, j)
    ensures Advanced(net, s, j, t, j) && StillWaiting(s, s.flits[j], t)
  {
    t := SwapNow(net, s, j, k, g);
    TradeKeepsLowest(net, s, t, j, k, g);
    HopBringsCloser(net, s.flits[j], g.at.dst);
    TradeLeavesWaiting(s, t, j, k, g);
  }

  lemma TradeLeavesWaiting(s: State, t: State, j: nat, k: nat, g: Flit)
    requires j < |s.flits| && k < |s.flits| && j != k && s.flits[k].at.Hop? && |t.flits| == |s.flits|
    requires t.flits == s.flits[j := g][k := t.flits[k]]
    ensures StillWaiting(s, s.flits[j], t)
  {
    forall f | f in s.flits && f.at.Inject? && f != s.flits[j]
      ensures f in t.flits
    {
      UpdateKeeps(s.flits, j, g, f);
      UpdateKeeps(s.flits[j := g], k, t.flits[k], f);
    }
  }

  /** The two flits of a swap keep their channel number, and all others stay. */
  lemma TradeKeepsLowest(net: Network, s: State, t: State, j: nat, k: nat, g: Flit)
    requires net.Valid() && InLowestBase(net, s, j) && k < |s.flits| && j != k && |t.flits| == |s.flits|
    requires t.flits == s.flits[j := g][k := t.flits[k]] && g.packet == s.flits[j].packet
    requires g.vc == s.flits[j].vc == t.flits[k].vc && t.flits[k].packet == s.flits[k].packet
    ensures InLowestBase(net, t, j)
    ensures forall x :: 0 <= x < |t.flits| ==> t.flits[x].packet == s.flits[x].packet
  {
    forall x | 0 <= x < |t.flits|
      ensures t.flits[x].packet == s.flits[x].packet
      ensures t.flits[x].at.Hop? ==> net.Vnet(g.vc) <= net.Vnet(t.flits[x].vc)
    {
      assert t.flits[x] == if x == k then t.flits[k] else if x == j then g else s.flits[x];
    }
  }

  /** A packet in the way that has arrived is delivered. */
  lemma DeliverFromTheWay(net: Network, s: State, j: nat, k: nat, g: Flit) returns (t: State)
    requires net.Valid() && RoutesMinimally(net) && Placed(net, s) && j < |s.flits| && k < |s.flits|
    requires InTheWay(net, s, j, k, g) && s.flits[k].next < 2 * |net.attach| <= s.flits[j].next
    requires InLowestBase(net, s, j)
    ensures Passes(net, s, t, k) && InLowestBase(net, t, Shifted(j, k))
    ensures Advanced(net, s, j, t, Shifted(j, k)) && StillWaiting(s, s.flits[j], t)
  {
    t := DeliveryStep(net, s, k);
    DeliveryLeavesWaiting(net, s, k, s.flits[j]);
    RemovalKeepsLowest(net, s, j, k);
  }

  lemma RemovalKeepsLowest(net: Network, s: State, j: nat, k: nat)
    requires net.Valid() && CanDeliver(net, s, k) && InLowestBase(net, s, j) && j != k
    ensures InLowestBase(net, AfterDeliver(net, s, k), Shifted(j, k))
    ensures AfterDeliver(net, s, k).flits[Shifted(j, k)] == s.flits[j]
  {
    var t := AfterDeliver(net, s, k);
    assert forall x :: 0 <= x < |t.flits| ==> t.flits[x] == s.flits[if x < k then x else x + 1];
  }

  /** Where the packet at position j goes next, and with which output. */
  lemma NextHop(net: Network, s: State, j: nat, vc: nat) returns (g: Flit)
    requires net.Valid() && RoutesMinimally(net) && Placed(net, s) && j < |s.flits|
    requires s.flits[j].next >= 2 * |net.attach|
    ensures g.packet == s.flits[j].packet && g.vc == vc
    ensures g.at == Hop(At(net, s.flits[j].at), s.flits[j].next - 2 * |net.attach|)
    ensures net.forward(g.at.dst, g.packet.dest, g.next)
  {
    var f := s.flits[j];
    RouterOfPlaced(net, f);
    var c := Hop(At(net, f.at), f.next - 2 * |net.attach|);
    HopBringsCloser(net, f, c.dst);
    assert net.Forwards(c.dst, f.packet.dest);
    var x: nat :| net.forward(c.dst, f.packet.dest, x);
    g := Flit(f.packet, c, vc, x);
  }

  /** A packet in the lowest base channel that has not arrived gets on: it moves where there is
      room, swaps where there is not, and a packet in its way that has arrived is delivered
      first. */
  lemma PushOn(net: Network, s: State, j: nat) returns (t: State, gone: int)
    requires net.Valid() && RoutesMinimally(net) && Placed(net, s) && InLowestBase(net, s, j)
    requires s.flits[j].at.Hop? && s.flits[j].next >= 2 * |net.attach|
    ensures gone != j && Passes(net, s, t, gone) && InLowestBase(net, t, Shifted(j, gone))
    ensures Advanced(net, s, j, t, Shifted(j, gone)) && StillWaiting(s, s.flits[j], t)
  {
    var f := s.flits[j];
    var g := NextHop(net, s, j, f.vc);
    gone := -1;
    if Free(s.flits, g.at, f.vc) {
      t := MoveOn(net, s, j, g);
    } else {
      var k :| 0 <= k < |s.flits| && s.flits[k].at == g.at && s.flits[k].vc == f.vc;
      if s.flits[k].next < 2 * |net.attach| {
        t := DeliverFromTheWay(net, s, j, k, g);
        gone := k;
      } else {
        t := SwapOn(net, s, j, k, g);
      }
    }
  }

  /** No packet in the mesh is in a lower virtual network than the one at position j, nor in
      the base channel of that one. */
  ghost predicate Enters(net: Network, s: State, j: nat)
    requires net.Valid() && j < |s.flits|
  {
    forall k :: 0 <= k < |s.flits| && s.flits[k].at.Hop? ==>
      net.Vnet(s.flits[j].vc) <= net.Vnet(s.flits[k].vc) && s.flits[k].vc != Base(net, s.flits[j].vc)
  }

  /** Then it moves into that channel. */
  lemma EnterBase(net: Network, s: State, j: nat) returns (t: State)
    requires net.Valid() && RoutesMinimally(net) && Placed(net, s) && j < |s.flits|
    requires s.flits[j].next >= 2 * |net.attach|
    requires Enters(net, s, j)
    ensures Passes(net, s, t, -1) && InLowestBase(net, t, j)
    ensures Advanced(net, s, j, t, j) && StillWaiting(s, s.flits[j], t)
  {
    BaseSharesVnet(net, s.flits[j].vc);
    var g := NextHop(net, s, j, Base(net, s.flits[j].vc));
    assert CanMove(net, s, j, g);
    t := MoveOn(net, s, j, g);
  }

  /** s' follows from s and ends with the delivery of packet p. */
  ghost predicate Delivers(net: Network, s: State, s': State, run: seq<State>, p: Packet)
    requires net.Valid()
  {
    Leads(net, s, s', run) && |s'.flits| < |s.flits| && s'.delivered != [] &&
    s'.delivered[|s'.delivered| - 1] == Delivery(p, p.dest)
  }

  lemma DeliverNow(net: Network, s: State, k: nat) returns (run: seq<State>, s': State)
    requires net.Valid() && RoutesMinimally(net) && Placed(net, s) && k < |s.flits|
    requires s.flits[k].next < 2 * |net.attach|
    ensures Delivers(net, s, s', run, s.flits[k].packet) && StillWaiting(s, s.flits[k], s')
  {
    s' := DeliveryStep(net, s, k);
    run := [s, s'];
    DeliveryLeavesWaiting(net, s, k, s.flits[k]);
  }

  /** A chosen packet in the lowest base channel can be brought to its destination, and so can
      any once the mesh is empty. The others wait where they are or are swapped out of its
      way. */
  lemma {:induction false} DeliverOne(net: Network, s: State, j: nat) returns (s': State, run: seq<State>)
    requires net.Valid() && RoutesMinimally(net) && Placed(net, s) && j < |s.flits|
    requires
      if s.flits[j].at.Hop? then InLowestBase(net, s, j) else forall k :: 0 <= k < |s.flits| ==> s.flits[k].at.Inject?
    ensures Delivers(net, s, s', run, s.flits[j].packet) && StillWaiting(s, s.flits[j], s')
    decreases var f := s.flits[j]; |s.flits| + Hops(net.mesh, At(net, f.at), net.attach[f.packet.dest])
  {
    if s.flits[j].next < 2 * |net.attach| {
      run, s' := DeliverNow(net, s, j);
    } else {
      var t, gone: int;
      if s.flits[j].at.Hop? {
        t, gone := PushOn(net, s, j);
      } else {
        t := EnterBase(net, s, j);
        gone := -1;
      }
      s', run := DeliverOne(net, t, Shifted(j, gone));
      Prepend(net, s, t, s', run);
      run := [s] + run;
    }
  }

  /** The packet of the lowest virtual network in the mesh, if the mesh is not empty. */
  lemma {:induction false} LowestInMesh(net: Network, flits: seq<Flit>) returns (a: int)
    requires net.Valid()
    ensures a == -1 <==> forall k :: 0 <= k < |flits| ==> flits[k].at.Inject?
    ensures a != -1 ==> 0 <= a < |flits| && flits[a].at.Hop?
    ensures a != -1 ==>
      forall k :: 0 <= k < |flits| && flits[k].at.Hop? ==> net.Vnet(flits[a].vc) <= net.Vnet(flits[k].vc)
  {
    a := -1;
    for i := 0 to |flits|
      invariant a == -1 <==> forall k :: 0 <= k < i ==> flits[k].at.Inject?
      invariant a != -1 ==> 0 <= a < i && flits[a].at.Hop?
      invariant a != -1 ==>
        forall k :: 0 <= k < i && flits[k].at.Hop? ==> net.Vnet(flits[a].vc) <= net.Vnet(flits[k].vc)
    {
      if flits[i].at.Hop? && (a == -1 || net.Vnet(flits[i].vc) < net.Vnet(flits[a].vc)) {
        a := i;
      }
    }
  }

  /** The packet to push on, or to bring into its base channel first. */
  lemma ChooseNext(net: Network, s: State) returns (a: nat)
    requires net.Valid() && s.flits != []
    ensures a < |s.flits|
    ensures (s.flits[a].at.Hop? && InLowestBase(net, s, a)) || Enters(net, s, a)
  {
    var low := LowestInMesh(net, s.flits);
    if low == -1 {
      a := 0;
    } else if k :| 0 <= k < |s.flits| && s.flits[k].at.Hop? && s.flits[k].vc == Base(net, s.flits[low].vc) {
      BaseSharesVnet(net, s.flits[low].vc);
      a := k;
    } else {
      a := low;
    }
  }

  lemma PacketStays(net: Network, s: State, t: State, gone: int, j: nat)
    requires net.Valid() && Passes(net, s, t, gone) && j < |s.flits| && gone != j
    ensures Shifted(j, gone) < |t.flits| <= |s.flits| && t.flits[Shifted(j, gone)].packet == s.flits[j].packet
  {
  }

  lemma PacketLeaves(net: Network, s: State, t: State, j: nat)
    requires net.Valid() && Passes(net, s, t, j) && j < |s.flits|
    ensures Delivers(net, s, t, [s, t], s.flits[j].packet)
  {
  }

  lemma PacketLeavesLater(net: Network, s: State, t: State, gone: int, p: Packet, s': State, run: seq<State>)
    requires net.Valid() && Passes(net, s, t, gone) && Delivers(net, t, s', run, p)
    ensures Delivers(net, s, s', [s] + run, p)
  {
    Prepend(net, s, t, s', run);
  }

  /** A step that delivers packet a or pushes it on. */
  lemma DeliverOrPush(net: Network, s: State, a: nat) returns (t: State, gone: int)
    requires net.Valid() && RoutesMinimally(net) && Placed(net, s)
    requires InLowestBase(net, s, a) && s.flits[a].at.Hop?
    ensures Passes(net, s, t, gone)
    ensures gone == a ==> |t.flits| < |s.flits|
    ensures gone != a ==> InLowestBase(net, t, Shifted(a, gone)) && Advanced(net, s, a, t, Shifted(a, gone))
  {
    if s.flits[a].next < 2 * |net.attach| {
      t := DeliveryStep(net, s, a);
      gone := a;
    } else {
      t, gone := PushOn(net, s, a);
    }
  }

  /** Packet j can be brought to its destination while packet a is pushed on. */
  lemma {:induction false} DeliverWith(net: Network, s: State, a: nat, j: nat) returns (s': State, run: seq<State>)
    requires net.Valid() && RoutesMinimally(net) && Placed(net, s) && j < |s.flits|
    requires InLowestBase(net, s, a) && s.flits[a].at.Hop?
    ensures Delivers(net, s, s', run, s.flits[j].packet)
    decreases |s.flits|, 0, var f := s.flits[a]; Hops(net.mesh, At(net, f.at), net.attach[f.packet.dest])
  {
    var t, gone := DeliverOrPush(net, s, a);
    if gone == j {
      PacketLeaves(net, s, t, j);
      return t, [s, t];
    }
    PacketStays(net, s, t, gone, j);
    var rest;
    if gone == a {
      s', rest := DeliverAny(net, t, Shifted(j, gone));
    } else {
      s', rest := DeliverWith(net, t, Shifted(a, gone), Shifted(j, gone));
    }
    PacketLeavesLater(net, s, t, gone, s.flits[j].packet, s', rest);
    run := [s] + rest;
  }

  /** Any packet can be brought to its destination. */
  lemma {:induction false} DeliverAny(net: Network, s: State, j: nat) returns (s': State, run: seq<State>)
    requires net.Valid() && RoutesMinimally(net) && Placed(net, s) && j < |s.flits|
    ensures Delivers(net, s, s', run, s.flits[j].packet)
    decreases |s.flits|, 1, 0
  {
    var a := ChooseNext(net, s);
    if s.flits[a].at.Hop? && InLowestBase(net, s, a) {
      s', run := DeliverWith(net, s, a, j);
    } else if s.flits[a].next < 2 * |net.attach| {
      var t := DeliveryStep(net, s, a);
      if a == j {
        PacketLeaves(net, s, t, j);
        return t, [s, t];
      }
      PacketStays(net, s, t, a, j);
      var rest;
      s', rest := DeliverAny(net, t, Shifted(j, a));
      PacketLeavesLater(net, s, t, a, s.flits[j].packet, s', rest);
      run := [s] + rest;
    } else {
      var t := EnterBase(net, s, a);
      PacketStays(net, s, t, -1, j);
      var rest;
      s', rest := DeliverWith(net, t, a, j);
      PacketLeavesLater(net, s, t, -1, s.flits[j].packet, s', rest);
      run := [s] + rest;
    }
  }

  /** Main result: with SWAP, minimal routing needs no restriction. From every state the
      network can be in, it can still deliver every packet it holds, with no swaps but from the
      lowest base channel. */
  lemma {:induction false} SwapLeavesNoDeadEnd(net: Network, s: State) returns (last: State, run: seq<State>)
    requires net.Valid() && RoutesMinimally(net) && Placed(net, s)
    ensures Leads(net, s, last, run) && AllDelivered(s, last)
    decreases |s.flits|
  {
    if s.flits == [] {
      last, run := s, [s];
    } else {
      var t, first := DeliverAny(net, s, 0);
      var rest;
      last, rest := SwapLeavesNoDeadEnd(net, t);
      Join(net, s, t, last, first, rest);
      run := first[..|first| - 1] + rest;
    }
  }

  // ----- all runs of a network with SWAP

  ghost predicate StepsOrSwaps(net: Network, s: State, s': State)
    requires net.Valid()
  {
    Steps(net, s, s') || Swaps(net, s, s')
  }

  ghost predicate FullRun(net: Network, run: seq<State>)
    requires net.Valid()
  {
    |run| > 0 && run[0] == State([], []) && forall i :: 0 <= i < |run| - 1 ==> StepsOrSwaps(net, run[i], run[i + 1])
  }

  lemma StepKeepsPlaced(net: Network, s: State, s': State)
    requires net.Valid() && RoutesMinimally(net) && Placed(net, s) && StepsOrSwaps(net, s, s')
    ensures Placed(net, s')
  {
    if j: nat, k: nat, g: Flit, h: Flit :| CanSwap(net, s, j, k, g, h) && s' == AfterSwap(s, j, k, g, h) {
      SwapKeepsPlaced(net, s, j, k, g, h);
    } else if k: nat, f: Flit :| CanMove(net, s, k, f) && s' == AfterMove(s, k, f) {
      MoveKeepsPlaced(net, s, k, f);
    } else if k: nat :| CanDeliver(net, s, k) && s' == AfterDeliver(net, s, k) {
      DeliverKeepsPlaced(net, s, k);
    } else {
      var f: Flit :| CanInject(net, s, f) && s' == AfterInject(s, f);
      InjectKeepsPlaced(net, s, f);
    }
  }

  /** Every state of every run, with injections and swaps, is one the main result is
      about. */
  lemma {:induction false} RunsStayPlaced(net: Network, run: seq<State>)
    requires net.Valid() && RoutesMinimally(net) && FullRun(net, run)
    ensures Placed(net, run[|run| - 1])
  {
    if |run| > 1 {
      RunsStayPlaced(net, run[..|run| - 1]);
      StepKeepsPlaced(net, run[|run| - 2], run[|run| - 1]);
    }
  }

  /** The deadlocks of random routing are none with SWAP: on every mesh with more than one row
      and column, a state reached without SWAP from which nothing moves, and from which swaps
      from the lowest base channel deliver everything. */
  lemma SwapResolvesDeadlock(m: Mesh, attach: seq<nat>, vcsPerVnet: nat)
    returns (s: State, last: State, run: seq<State>)
    requires OnMesh(m, attach) && vcsPerVnet > 0 && m.rows > 1 && m.cols > 1
    requires forall r: nat :: r < m.Size() ==> r in attach
    ensures var net := RandomNetwork(m, attach, vcsPerVnet);
      && Reachable(net, s) && s.flits != [] && (forall s' :: !Drains(net, s, s'))
      && Leads(net, s, last, run) && AllDelivered(s, last)
  {
    var net := RandomNetwork(m, attach, vcsPerVnet);
    RandomRoutingDeadlocksIff(m, attach, vcsPerVnet);
    s :| Reachable(net, s) && s.flits != [] && forall s' :: !Drains(net, s, s');
    RandomRoutesFreely(m, attach, vcsPerVnet);
    FreelyIsMinimally(net);
    var history :| Run(net, history) && history[0] == State([], []) && history[|history| - 1] == s;
    assert FullRun(net, history);
    RunsStayPlaced(net, history);
    last, run := SwapLeavesNoDeadEnd(net, s);
  }
}
