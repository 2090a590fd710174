/**
 The swap pointer of a router in a state of the whole network: the scan of SwapPointer over the
 router's input ports against the packets of Swap.
 */
module SwapOffers {
  import opened Grid
  import opened MeshNetwork
  import opened MinimalRouting
  import opened Swap
  import SwapPointer

  ghost predicate IsIn(s: State, j: nat, port: Channel, vc: nat) {
    j < |s.flits| && s.flits[j].at == port && s.flits[j].vc == vc
  }

  /** A slot holds what is in a channel of a port; a packet at the router of its destination is
      about to leave the mesh. */
  ghost predicate SlotShows(net: Network, s: State, port: Channel, vc: nat, slot: SwapPointer.Slot)
    requires net.Valid() && Placed(net, s)
  {
    match slot
    case Empty => forall j: nat :: !IsIn(s, j, port, vc)
    case Holds(leaving) => exists j: nat :: IsIn(s, j, port, vc) && (leaving <==> HasArrived(net, s.flits[j]))
  }

  /** What a router sees at its ports: controllers' ports are local. */
  ghost predicate Shows(net: Network, s: State, ports: seq<Channel>, inputs: seq<SwapPointer.Input>, vnets: nat)
    requires net.Valid() && Placed(net, s)
  {
    && SwapPointer.Wired(inputs, Times(vnets, net.vcsPerVnet)) && |inputs| == |ports|
    && (forall i :: 0 <= i < |ports| ==> (inputs[i].local <==> ports[i].Inject?))
    && forall i, vc :: 0 <= i < |ports| && 0 <= vc < |inputs[i].vcs| ==>
      SlotShows(net, s, ports[i], vc, inputs[i].vcs[vc])
  }

  /** The packet offered is in a base channel of a mesh port and not at the router of its
      destination. */
  lemma OfferedPacket(net: Network, s: State, ports: seq<Channel>, inputs: seq<SwapPointer.Input>, vnets: nat,
                      i: nat, vc: nat)
      returns (j: nat)
    requires net.Valid() && Placed(net, s) && Shows(net, s, ports, inputs, vnets)
    requires SwapPointer.Scan(inputs, vnets, net.vcsPerVnet, 0) == SwapPointer.At(i, vc)
    ensures i < |ports| && ports[i].Hop? && IsIn(s, j, ports[i], vc)
    ensures !HasArrived(net, s.flits[j]) && vc == Base(net, vc) && net.Vnet(vc) < vnets
  {
    SwapPointer.ScanIff(inputs, vnets, net.vcsPerVnet, 0, i, vc);
    var vnet: nat :| vc == Times(vnet, net.vcsPerVnet) &&
      SwapPointer.HoldsBaseOf(inputs, net.vcsPerVnet, vnets, i, vnet);
    QuotientOf(vnet, net.vcsPerVnet, 0);
    assert SlotShows(net, s, ports[i], vc, inputs[i].vcs[vc]);
    j :| IsIn(s, j, ports[i], vc) && !HasArrived(net, s.flits[j]);
  }

  /** Main result: with one virtual network, whatever the scan makes the pointer offer, and waits
      for a packet that has not arrived, can trade places with that by a swap of the kind that
      the delivery of all packets needs. */
  lemma OfferedCanSwap(net: Network, s: State, ports: seq<Channel>, inputs: seq<SwapPointer.Input>, i: nat, vc: nat)
      returns (j: nat)
    requires net.Valid() && RoutesMinimally(net) && Placed(net, s) && Shows(net, s, ports, inputs, 1)
    requires SwapPointer.Scan(inputs, 1, net.vcsPerVnet, 0) == SwapPointer.At(i, vc)
    ensures i < |ports| && IsIn(s, j, ports[i], vc) && InLowestBase(net, s, j)
    ensures forall k: nat :: WaitsFor(net, s, j, k) && !HasArrived(net, s.flits[k]) ==>
      exists g: Flit, h: Flit :: CanSwap(net, s, j, k, g, h) && BaseSwaps(net, s, AfterSwap(s, j, k, g, h))
  {
    j := OfferedPacket(net, s, ports, inputs, 1, i, vc);
    forall k: nat | WaitsFor(net, s, j, k) && !HasArrived(net, s.flits[k])
      ensures exists g: Flit, h: Flit ::
        CanSwap(net, s, j, k, g, h) && BaseSwaps(net, s, AfterSwap(s, j, k, g, h))
    {
      CanTradeIff(net, s, j, k);
      var g: Flit, h: Flit :| CanSwap(net, s, j, k, g, h);
      assert BaseSwaps(net, s, AfterSwap(s, j, k, g, h));
    }
  }

  /** No packet is in a base channel of the mesh ports before port i. */
  ghost predicate NoneBefore(net: Network, s: State, ports: seq<Channel>, i: nat)
    requires net.Valid()
  {
    forall i', j: nat, vc: nat :: 0 <= i' < i && i' < |ports| && ports[i'].Hop? && vc == Base(net, vc) ==>
      !IsIn(s, j, ports[i'], vc)
  }

  lemma HeldIsIn(net: Network, s: State, ports: seq<Channel>, inputs: seq<SwapPointer.Input>, vnets: nat,
                 i: nat, w: nat)
      returns (j: nat)
    requires net.Valid() && Placed(net, s) && Shows(net, s, ports, inputs, vnets)
    requires SwapPointer.HoldsBaseOf(inputs, net.vcsPerVnet, vnets, i, w)
    ensures i < |ports| && ports[i].Hop? && IsIn(s, j, ports[i], Times(w, net.vcsPerVnet))
    ensures net.Vnet(Times(w, net.vcsPerVnet)) == w && Base(net, Times(w, net.vcsPerVnet)) == Times(w, net.vcsPerVnet)
  {
    TimesMono(w + 1, vnets, net.vcsPerVnet);
    var vc := Times(w, net.vcsPerVnet);
    QuotientOf(w, net.vcsPerVnet, 0);
    assert SlotShows(net, s, ports[i], vc, inputs[i].vcs[vc]);
    j :| IsIn(s, j, ports[i], vc);
  }

  lemma LowestOfItsPort(net: Network, s: State, ports: seq<Channel>, inputs: seq<SwapPointer.Input>, vnets: nat,
                        i: nat, j: nat, w: nat)
    requires net.Valid() && Placed(net, s) && Shows(net, s, ports, inputs, vnets)
    requires InLowestBase(net, s, j) && w < net.Vnet(s.flits[j].vc)
    ensures !SwapPointer.HoldsBaseOf(inputs, net.vcsPerVnet, vnets, i, w)
  {
    if SwapPointer.HoldsBaseOf(inputs, net.vcsPerVnet, vnets, i, w) {
      var k := HeldIsIn(net, s, ports, inputs, vnets, i, w);
    }
  }

  lemma SlotOf(net: Network, s: State, ports: seq<Channel>, inputs: seq<SwapPointer.Input>, vnets: nat,
               i: nat, j: nat, vc: nat)
    requires net.Valid() && Placed(net, s) && Shows(net, s, ports, inputs, vnets)
    requires i < |ports| && IsIn(s, j, ports[i], vc) && vc == Base(net, vc) && net.Vnet(vc) < vnets
    ensures vc < |inputs[i].vcs| && inputs[i].vcs[vc] == SwapPointer.Holds(HasArrived(net, s.flits[j]))
  {
    TimesMono(net.Vnet(vc) + 1, vnets, net.vcsPerVnet);
    assert SlotShows(net, s, ports[i], vc, inputs[i].vcs[vc]);
    assert inputs[i].vcs[vc].Holds?;
    var k: nat :| IsIn(s, k, ports[i], vc) && (inputs[i].vcs[vc].leaving <==> HasArrived(net, s.flits[k]));
    assert k == j;
  }

  /** The other way round, with any number of virtual networks: of the packets that such swaps may
      start from, the scan offers the one at the first of the router's ports in use. */
  lemma LowestIsOffered(net: Network, s: State, ports: seq<Channel>, inputs: seq<SwapPointer.Input>, vnets: nat,
                        i: nat, j: nat)
    requires net.Valid() && Placed(net, s) && Shows(net, s, ports, inputs, vnets)
    requires i < |ports| && ports[i].Hop? && NoneBefore(net, s, ports, i)
    requires InLowestBase(net, s, j) && s.flits[j].at == ports[i] && net.Vnet(s.flits[j].vc) < vnets
    requires !HasArrived(net, s.flits[j])
    ensures SwapPointer.Scan(inputs, vnets, net.vcsPerVnet, 0) == SwapPointer.At(i, s.flits[j].vc)
  {
    var vc := s.flits[j].vc;
    forall i': nat, w: nat | i' < i
      ensures !SwapPointer.HoldsBaseOf(inputs, net.vcsPerVnet, vnets, i', w)
    {
      if SwapPointer.HoldsBaseOf(inputs, net.vcsPerVnet, vnets, i', w) {
        var k := HeldIsIn(net, s, ports, inputs, vnets, i', w);
      }
    }
    forall w: nat | w < net.Vnet(vc)
      ensures !SwapPointer.HoldsBaseOf(inputs, net.vcsPerVnet, vnets, i, w)
    {
      LowestOfItsPort(net, s, ports, inputs, vnets, i, j, w);
    }
    SlotOf(net, s, ports, inputs, vnets, i, j, vc);
    assert SwapPointer.HoldsBaseOf(inputs, net.vcsPerVnet, vnets, i, net.Vnet(vc));
    SwapPointer.ScanIff(inputs, vnets, net.vcsPerVnet, 0, i, vc);
  }
}
