/**
 Packets moving through a mesh. A single-flit packet sits in a virtual channel of an
 input port, has an output chosen for it on arrival, and waits for a free virtual
 channel of its virtual network behind that output. Which outputs may be chosen is a
 parameter: a routing table, or one of the direction-based algorithms.
 (gem5/configs/topologies/Mesh_westfirst.py, with the input buffering of
 gem5/src/mem/ruby/network/garnet2.0/InputUnit.cc and the output allocation of
 gem5/src/mem/ruby/network/garnet2.0/SwitchAllocator.cc.)
 */
module MeshNetwork {
  import opened Grid
  import opened SwitchGraph
  import opened WestFirst

  /** An input port: the port of a controller, or the far end of a mesh link. */
  datatype Channel = Inject(node: nat) | Hop(src: nat, dst: nat)

  datatype Packet = Packet(id: nat, dest: nat)

  /** next is the switch behind the chosen output port. */
  datatype Flit = Flit(packet: Packet, at: Channel, vc: nat, next: nat)

  datatype Delivery = Delivery(packet: Packet, node: nat)

  datatype State = State(flits: seq<Flit>, delivered: seq<Delivery>)

  /** forward(a, d, next): router a may send a packet for controller d to switch next. */
  datatype Network = Network(mesh: Mesh, attach: seq<nat>, vcsPerVnet: nat, forward: (nat, nat, nat) -> bool) {
    ghost predicate Valid() {
      OnMesh(mesh, attach) && vcsPerVnet > 0
    }

    /** Every choice the routers make is a west-first choice, and there always is one. */
    ghost predicate RoutesWestFirst()
      requires Valid()
    {
      && (forall a: nat, d: nat, next: nat :: a < mesh.Size() && d < |attach| && forward(a, d, next) ==>
        WestFirstNext(mesh, attach, d, a, next))
      && (forall a: nat, d: nat :: a < mesh.Size() && d < |attach| ==> Forwards(a, d))
    }

    ghost predicate Forwards(a: nat, d: nat) {
      exists next: nat :: forward(a, d, next)
    }

    /** The virtual network of a virtual channel. */
    function Vnet(vc: nat): nat
      requires vcsPerVnet > 0
    {
      Quotient(vc, vcsPerVnet)
    }
  }

  function At(net: Network, c: Channel): nat
    requires c.Inject? ==> c.node < |net.attach|
  {
    match c
    case Inject(node) => net.attach[node]
    case Hop(_, dst) => dst
  }

  predicate Free(flits: seq<Flit>, c: Channel, vc: nat) {
    forall k :: 0 <= k < |flits| ==> flits[k].at != c || flits[k].vc != vc
  }

  // ----- steps

  ghost predicate CanInject(net: Network, s: State, f: Flit)
    requires net.Valid()
  {
    && f.at.Inject? && f.at.node < |net.attach| && f.packet.dest < |net.attach|
    && Free(s.flits, f.at, f.vc)
    && net.forward(At(net, f.at), f.packet.dest, f.next)
  }

  function AfterInject(s: State, f: Flit): State {
    s.(flits := s.flits + [f])
  }

  /** f is flit k of s, after crossing the link behind its output. */
  ghost predicate CanMove(net: Network, s: State, k: nat, f: Flit)
    requires net.Valid()
  {
    && k < |s.flits|
    && var g := s.flits[k];
       && (g.at.Inject? ==> g.at.node < |net.attach|)
       && g.next >= 2 * |net.attach|
       && f.packet == g.packet
       && f.at == Hop(At(net, g.at), g.next - 2 * |net.attach|)
       && net.Vnet(f.vc) == net.Vnet(g.vc)
       && Free(s.flits, f.at, f.vc)
       && net.forward(f.at.dst, f.packet.dest, f.next)
  }

  function AfterMove(s: State, k: nat, f: Flit): State
    requires k < |s.flits|
  {
    s.(flits := s.flits[k := f])
  }

  ghost predicate CanDeliver(net: Network, s: State, k: nat)
    requires net.Valid()
  {
    k < |s.flits| && |net.attach| <= s.flits[k].next < 2 * |net.attach|
  }

  function AfterDeliver(net: Network, s: State, k: nat): State
    requires k < |s.flits| && |net.attach| <= s.flits[k].next
  {
    State(s.flits[..k] + s.flits[k + 1..],
          s.delivered + [Delivery(s.flits[k].packet, s.flits[k].next - |net.attach|)])
  }

  /** A step that moves or delivers a packet already in the network. */
  ghost predicate Drains(net: Network, s: State, s': State)
    requires net.Valid()
  {
    || (exists k: nat, f: Flit :: CanMove(net, s, k, f) && s' == AfterMove(s, k, f))
    || (exists k: nat :: CanDeliver(net, s, k) && s' == AfterDeliver(net, s, k))
  }

  ghost predicate Steps(net: Network, s: State, s': State)
    requires net.Valid()
  {
    Drains(net, s, s') || exists f: Flit :: CanInject(net, s, f) && s' == AfterInject(s, f)
  }

  // ----- the invariant

  /** f got where it is by west-first hops, and its output is a choice of its router. */
  ghost predicate WellRouted(net: Network, f: Flit)
    requires net.Valid()
  {
    && f.packet.dest < |net.attach|
    && (match f.at
        case Inject(node) => node < |net.attach|
        case Hop(src, dst) =>
          && src < net.mesh.Size() && DirectionTo(net.mesh, src, dst).Some?
          && Allowed(net.mesh, src, net.attach[f.packet.dest], DirectionTo(net.mesh, src, dst).value))
    && net.forward(At(net, f.at), f.packet.dest, f.next)
  }

  ghost predicate DistinctSlots(flits: seq<Flit>) {
    forall j, k :: 0 <= j < k < |flits| ==> flits[j].at != flits[k].at || flits[j].vc != flits[k].vc
  }

  ghost predicate Inv(net: Network, s: State)
    requires net.Valid()
  {
    && (forall k :: 0 <= k < |s.flits| ==> WellRouted(net, s.flits[k]))
    && DistinctSlots(s.flits)
    && (forall k :: 0 <= k < |s.delivered| ==> s.delivered[k].node == s.delivered[k].packet.dest)
  }

  lemma RouterOfFlit(net: Network, f: Flit)
    requires net.Valid() && WellRouted(net, f)
    ensures At(net, f.at) < net.mesh.Size()
  {
    if f.at.Hop? {
      StepCoordinates(net.mesh, f.at.src, DirectionTo(net.mesh, f.at.src, f.at.dst).value);
    }
  }

  /** Where the chosen output of a well-routed flit leads. */
  lemma OutputOfFlit(net: Network, f: Flit)
    requires net.Valid() && net.RoutesWestFirst() && WellRouted(net, f)
    ensures var n, a := |net.attach|, At(net, f.at);
      if f.next < 2 * n then f.next == n + f.packet.dest && a == net.attach[f.packet.dest]
      else a != net.attach[f.packet.dest] && DirectionTo(net.mesh, a, f.next - 2 * n).Some?
           && Allowed(net.mesh, a, net.attach[f.packet.dest], DirectionTo(net.mesh, a, f.next - 2 * n).value)
  {
    RouterOfFlit(net, f);
    assert WestFirstNext(net.mesh, net.attach, f.packet.dest, At(net, f.at), f.next);
  }

  lemma MovedIsWellRouted(net: Network, s: State, k: nat, f: Flit)
    requires net.Valid() && net.RoutesWestFirst() && CanMove(net, s, k, f) && WellRouted(net, s.flits[k])
    ensures WellRouted(net, f)
  {
    RouterOfFlit(net, s.flits[k]);
    OutputOfFlit(net, s.flits[k]);
  }

  lemma UpdateKeepsSlotsDistinct(flits: seq<Flit>, k: nat, f: Flit)
    requires DistinctSlots(flits) && k < |flits| && Free(flits, f.at, f.vc)
    ensures DistinctSlots(flits[k := f])
  {
  }

  lemma MovePreservesInv(net: Network, s: State, k: nat, f: Flit)
    requires net.Valid() && net.RoutesWestFirst() && Inv(net, s) && CanMove(net, s, k, f)
    ensures Inv(net, AfterMove(s, k, f))
  {
    MovedIsWellRouted(net, s, k, f);
    UpdateKeepsSlotsDistinct(s.flits, k, f);
  }

  lemma DeliverPreservesInv(net: Network, s: State, k: nat)
    requires net.Valid() && net.RoutesWestFirst() && Inv(net, s) && CanDeliver(net, s, k)
    ensures Inv(net, AfterDeliver(net, s, k))
  {
    OutputOfFlit(net, s.flits[k]);
    var s' := AfterDeliver(net, s, k);
    assert forall j :: 0 <= j < |s'.flits| ==> s'.flits[j] == s.flits[if j < k then j else j + 1];
  }

  lemma StepPreservesInv(net: Network, s: State, s': State)
    requires net.Valid() && net.RoutesWestFirst() && Inv(net, s) && Steps(net, s, s')
    ensures Inv(net, s')
  {
    if k: nat, f: Flit :| CanMove(net, s, k, f) && s' == AfterMove(s, k, f) {
      MovePreservesInv(net, s, k, f);
    } else if k: nat :| CanDeliver(net, s, k) && s' == AfterDeliver(net, s, k) {
      DeliverPreservesInv(net, s, k);
    } else {
      var f: Flit :| CanInject(net, s, f) && s' == AfterInject(s, f);
      assert WellRouted(net, f);
    }
  }
}
