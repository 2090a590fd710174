/**
 When a router may send a packet on: `send_allowed` and `vc_allocate`
 (gem5/src/mem/ruby/network/garnet2.0/SwitchAllocator.cc, with the channel state of
 gem5/src/mem/ruby/network/garnet2.0/VirtualChannel.cc and InputUnit.cc).
 */
module SwitchAllocation {

  /** A virtual channel of an input port. Its packet, if ready, wants output wants; outPort is
      the output recorded in the channel itself, -1 for none. */
  datatype VirtualChannel = VirtualChannel(active: bool, ready: bool, enqueued: int, wants: nat, outPort: int)

  const INFINITE := 10000

  /** Some output channel of a virtual network, which starts at base, is idle. */
  predicate HasFree(idle: seq<bool>, base: nat, count: nat)
    requires base + count <= |idle|
  {
    exists vc :: base <= vc < base + count && idle[vc]
  }

  /** `select_free_vc`: the lowest idle channel. */
  method SelectFreeVc(idle: seq<bool>, base: nat, count: nat) returns (vc: int)
    requires base + count <= |idle|
    ensures vc == -1 <==> !HasFree(idle, base, count)
    ensures vc != -1 ==> base <= vc < base + count && idle[vc] && forall u :: base <= u < vc ==> !idle[u]
  {
    for u := base to base + count
      invariant forall t :: base <= t < u ==> !idle[t]
    {
      if idle[u] {
        return u;
      }
    }
    vc := -1;
  }

  /** What the check of ordered virtual networks looks for: a ready packet that arrived before
      the one in channel invc, in a channel with the same output recorded. */
  predicate RefusesFor(vcs: seq<VirtualChannel>, invc: nat, outport: nat, base: nat, end: nat)
    requires invc < |vcs| && base <= end <= |vcs|
  {
    exists vc ::
      base <= vc < end && vcs[vc].ready && vcs[vc].outPort == outport && vcs[vc].enqueued < vcs[invc].enqueued
  }

  predicate Refuses(vcs: seq<VirtualChannel>, invc: nat, outport: nat, base: nat, count: nat)
    requires invc < |vcs| && base + count <= |vcs|
  {
    RefusesFor(vcs, invc, outport, base, base + count)
  }

  /** What it is meant to look for: such a packet that wants the same output. */
  predicate Overtakes(vcs: seq<VirtualChannel>, invc: nat, base: nat, count: nat)
    requires invc < |vcs| && base + count <= |vcs|
  {
    exists vc ::
      base <= vc < base + count && vcs[vc].ready && vcs[vc].wants == vcs[invc].wants &&
      vcs[vc].enqueued < vcs[invc].enqueued
  }

  /** The answer of `send_allowed` for the packet in channel invc. */
  predicate MaySend(vcs: seq<VirtualChannel>, invc: nat, outport: nat, idle: seq<bool>, base: nat, count: nat,
                    ordered: bool)
    requires invc < |vcs| == |idle| && base + count <= |vcs|
  {
    HasFree(idle, base, count) && !(ordered && Refuses(vcs, invc, outport, base, count))
  }

  // ----- the channels of an input port over time

  datatype Event = Arrives(vc: nat, now: nat, wants: nat) | Leaves(vc: nat)

  /** A packet arrives in an idle channel, or the packet of a channel leaves. No output is
      recorded in the channel: the call that would, in `InputUnit::wakeup`, is commented out. */
  function After(vcs: seq<VirtualChannel>, e: Event): seq<VirtualChannel>
    requires e.vc < |vcs|
  {
    match e
    case Arrives(vc, now, wants) => vcs[vc := vcs[vc].(active := true, ready := true, enqueued := now, wants := wants)]
    case Leaves(vc) => vcs[vc := vcs[vc].(active := false, ready := false, enqueued := INFINITE, outPort := -1)]
  }

  predicate Happens(vcs: seq<VirtualChannel>, e: Event) {
    e.vc < |vcs| && (e.Arrives? <==> !vcs[e.vc].active)
  }

  function Fresh(n: nat): seq<VirtualChannel> {
    seq(n, _ => VirtualChannel(false, false, INFINITE, 0, -1))
  }

  /** The events lead from a new input port with n channels to vcs. */
  ghost predicate Leads(n: nat, events: seq<Event>, vcs: seq<VirtualChannel>)
    decreases |events|
  {
    if events == [] then vcs == Fresh(n)
    else exists before :: LeadsOn(n, events, before, vcs)
  }

  ghost predicate LeadsOn(n: nat, events: seq<Event>, before: seq<VirtualChannel>, vcs: seq<VirtualChannel>)
    requires events != []
    decreases |events|, 0
  {
    var e := events[|events| - 1];
    Leads(n, events[..|events| - 1], before) && Happens(before, e) && vcs == After(before, e)
  }

  /** What an input port with n channels can look like. */
  ghost predicate Reachable(n: nat, vcs: seq<VirtualChannel>) {
    exists events :: Leads(n, events, vcs)
  }

  predicate NoneRecorded(vcs: seq<VirtualChannel>) {
    forall i :: 0 <= i < |vcs| ==> vcs[i].outPort == -1
  }

  /** No channel ever has an output recorded. */
  lemma {:induction false} NeverRecorded(n: nat, events: seq<Event>, vcs: seq<VirtualChannel>)
    requires Leads(n, events, vcs)
    ensures |vcs| == n && NoneRecorded(vcs)
  {
    if events != [] {
      var before :| LeadsOn(n, events, before, vcs);
      NeverRecorded(n, events[..|events| - 1], before);
    }
  }

  /** The packet that arrived with event k is in channel vc: no event on it came after. */
  predicate HoldsFrom(events: seq<Event>, k: nat, vc: nat) {
    && k < |events| && events[k].Arrives? && events[k].vc == vc
    && forall j :: k < j < |events| ==> events[j].vc != vc
  }

  /** A channel is that of its last event: it holds the packet that arrived with it, or is
      idle. */
  ghost predicate IsLast(events: seq<Event>, vc: nat, c: VirtualChannel) {
    && (forall k: nat :: HoldsFrom(events, k, vc) ==>
      c == VirtualChannel(true, true, events[k].now, events[k].wants, -1))
    && ((forall k: nat :: !HoldsFrom(events, k, vc)) ==>
      c == VirtualChannel(false, false, INFINITE, c.wants, -1))
  }

  lemma LastStep(events: seq<Event>, e: Event, vc: nat, c: VirtualChannel)
    requires IsLast(events, vc, c) && e.vc != vc
    ensures IsLast(events + [e], vc, c)
  {
    var all := events + [e];
    forall k: nat
      ensures HoldsFrom(all, k, vc) <==> HoldsFrom(events, k, vc)
    {
      assert forall j :: 0 <= j < |events| ==> all[j] == events[j];
      if HoldsFrom(all, k, vc) {
        assert forall j :: k < j < |events| ==> all[j].vc != vc;
      }
    }
  }

  lemma LastEvent(events: seq<Event>, e: Event, c: VirtualChannel)
    requires c == match e
                  case Arrives(_, now, wants) => VirtualChannel(true, true, now, wants, -1)
                  case Leaves(_) => VirtualChannel(false, false, INFINITE, c.wants, -1)
    ensures IsLast(events + [e], e.vc, c)
  {
    var all := events + [e];
    assert all[|events|] == e;
    assert forall k: nat :: HoldsFrom(all, k, e.vc) ==> k == |events|;
    if e.Arrives? {
      assert HoldsFrom(all, |events|, e.vc);
    }
  }

  /** What every channel of a reachable input port holds. */
  lemma {:induction false} ChannelIsLast(n: nat, events: seq<Event>, vcs: seq<VirtualChannel>, vc: nat)
    requires Leads(n, events, vcs) && vc < n
    ensures |vcs| == n && IsLast(events, vc, vcs[vc])
  {
    NeverRecorded(n, events, vcs);
    if events != [] {
      var before :| LeadsOn(n, events, before, vcs);
      var rest, e := events[..|events| - 1], events[|events| - 1];
      ChannelIsLast(n, rest, before, vc);
      assert events == rest + [e];
      if e.vc == vc {
        LastEvent(rest, e, vcs[vc]);
      } else {
        LastStep(rest, e, vc, vcs[vc]);
      }
    }
  }

  /** So the check refuses nothing, ... */
  lemma RefusesNothing(n: nat, vcs: seq<VirtualChannel>, invc: nat, outport: nat, base: nat, count: nat)
    requires Reachable(n, vcs) && invc < |vcs| && base + count <= |vcs|
    ensures !Refuses(vcs, invc, outport, base, count)
  {
    var events :| Leads(n, events, vcs);
    NeverRecorded(n, events, vcs);
  }

  /** ... and a packet may be sent, on an ordered virtual network as on any other, if and only
      if some channel is idle, ... */
  lemma MaySendIff(n: nat, vcs: seq<VirtualChannel>, invc: nat, outport: nat, idle: seq<bool>, base: nat, count: nat,
                   ordered: bool)
    requires Reachable(n, vcs) && invc < |vcs| == |idle| && base + count <= |vcs|
    ensures MaySend(vcs, invc, outport, idle, base, count, ordered) <==>
      exists vc :: base <= vc < base + count && idle[vc]
  {
    RefusesNothing(n, vcs, invc, outport, base, count);
  }

  /** ... where with the outputs recorded it would refuse exactly the packets that overtake. */
  lemma RecordedRefusesOvertakers(vcs: seq<VirtualChannel>, invc: nat, base: nat, count: nat)
    requires invc < |vcs| && base + count <= |vcs|
    requires forall i :: 0 <= i < |vcs| ==> vcs[i].outPort == vcs[i].wants
    ensures Refuses(vcs, invc, vcs[invc].wants, base, count) <==> Overtakes(vcs, invc, base, count)
  {
    if Overtakes(vcs, invc, base, count) {
      var vc :| base <= vc < base + count && vcs[vc].ready && vcs[vc].wants == vcs[invc].wants &&
        vcs[vc].enqueued < vcs[invc].enqueued;
      assert vcs[vc].outPort == vcs[invc].wants;
    }
  }

  // ----- when order is kept

  /** A packet of the ordered virtual network with the channels base .. base + count - 1 is sent
      before an earlier one for the same output. */
  ghost predicate SendsOvertaker(vcs: seq<VirtualChannel>, idle: seq<bool>, invc: nat, base: nat, count: nat) {
    && base <= invc < base + count <= |vcs| == |idle| && vcs[invc].ready
    && MaySend(vcs, invc, vcs[invc].wants, idle, base, count, true) && Overtakes(vcs, invc, base, count)
  }

  /** The promise: that never happens on an input port with n channels. */
  ghost predicate KeepsOrder(n: nat, base: nat, count: nat) {
    forall vcs, idle, invc :: Reachable(n, vcs) ==> !SendsOvertaker(vcs, idle, invc, base, count)
  }

  /** Two packets for one output in neighbouring channels: the later may be sent at once. */
  lemma LaterMayGoFirst(n: nat, base: nat, count: nat) returns (vcs: seq<VirtualChannel>, idle: seq<bool>)
    requires count > 1 && base + count <= n
    ensures Reachable(n, vcs) && SendsOvertaker(vcs, idle, base + 1, base, count)
  {
    var first, second := Arrives(base, 1, 0), Arrives(base + 1, 2, 0);
    var one := After(Fresh(n), first);
    vcs := After(one, second);
    assert [first][..0] == [] && [first, second][..1] == [first];
    assert LeadsOn(n, [first], Fresh(n), one);
    assert LeadsOn(n, [first, second], one, vcs);
    assert Leads(n, [first, second], vcs);
    idle := seq(n, _ => true);
    assert idle[base];
    RefusesNothing(n, vcs, base + 1, 0, base, count);
    assert vcs[base].ready && vcs[base].enqueued < vcs[base + 1].enqueued;
  }

  /** Main result: order is kept if and only if the virtual network has no more than one
      channel. */
  lemma KeepsOrderIff(n: nat, base: nat, count: nat)
    requires base + count <= n
    ensures KeepsOrder(n, base, count) <==> count <= 1
  {
    if count > 1 {
      var vcs, idle := LaterMayGoFirst(n, base, count);
    }
  }

  // ----- the input unit

  class InputUnit {
    var vcs: seq<VirtualChannel>

    constructor (count: nat)
      ensures vcs == Fresh(count) && Reachable(count, vcs)
    {
      vcs := Fresh(count);
      new;
      assert Leads(count, [], vcs);
    }

    /** A packet arrives: the channel becomes active, and the packet knows its output. */
    method Arrive(vc: nat, now: nat, wants: nat)
      requires Happens(vcs, Arrives(vc, now, wants))
      modifies this
      ensures vcs == After(old(vcs), Arrives(vc, now, wants))
    {
      vcs := vcs[vc := vcs[vc].(active := true, enqueued := now)];
      vcs := vcs[vc := vcs[vc].(ready := true, wants := wants)];
    }

    /** The packet has left: the channel becomes idle. */
    method SetIdle(vc: nat)
      requires Happens(vcs, Leaves(vc))
      modifies this
      ensures vcs == After(old(vcs), Leaves(vc))
    {
      vcs := vcs[vc := vcs[vc].(active := false, ready := false, enqueued := INFINITE, outPort := -1)];
    }

    /** `send_allowed` for the packet in channel invc. */
    method SendAllowed(invc: nat, outport: nat, idle: seq<bool>, base: nat, count: nat, ordered: bool)
        returns (ok: bool)
      requires invc < |vcs| == |idle| && base + count <= |vcs|
      ensures ok <==> MaySend(vcs, invc, outport, idle, base, count, ordered)
    {
      var free := SelectFreeVc(idle, base, count);
      if free == -1 {
        return false;
      }
      if ordered {
        for vc := base to base + count
          invariant !RefusesFor(vcs, invc, outport, base, vc)
        {
          if vcs[vc].ready && vcs[vc].outPort == outport && vcs[vc].enqueued < vcs[invc].enqueued {
            return false;
          }
        }
      }
      ok := true;
    }
  }

  lemma OneMoreEvent(n: nat, events: seq<Event>, vcs: seq<VirtualChannel>, e: Event)
    requires Leads(n, events, vcs) && Happens(vcs, e)
    ensures Leads(n, events + [e], After(vcs, e))
  {
    assert (events + [e])[..|events|] == events;
    assert LeadsOn(n, events + [e], vcs, After(vcs, e));
  }

  /** An input unit through any events that can happen: its channels stay within reach. */
  method Replay(n: nat, events: seq<Event>) returns (unit: InputUnit, done: nat)
    ensures done <= |events| && Leads(n, events[..done], unit.vcs)
    ensures done < |events| ==> !Happens(unit.vcs, events[done])
  {
    unit := new InputUnit(n);
    done := 0;
    while done < |events| && Happens(unit.vcs, events[done])
      invariant done <= |events| && fresh(unit) && Leads(n, events[..done], unit.vcs)
    {
      OneMoreEvent(n, events[..done], unit.vcs, events[done]);
      assert events[..done + 1] == events[..done] + [events[done]];
      match events[done] {
        case Arrives(vc, now, wants) => unit.Arrive(vc, now, wants);
        case Leaves(vc) => unit.SetIdle(vc);
      }
      done := done + 1;
    }
  }
}
