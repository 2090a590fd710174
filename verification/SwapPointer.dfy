/**
 Which buffer a router offers for a swap: the swap pointer
 (gem5/src/mem/ruby/network/garnet2.0/Router.cc, `movSwapPtr` and the scan in `wakeup`,
 with local ports disabled).
 */
module SwapPointer {
  import opened Grid
  import opened Options

  /** What a virtual channel holds: nothing, or a packet, which may be about to leave the mesh. */
  datatype Slot = Empty | Holds(leaving: bool)

  datatype Input = Input(local: bool, vcs: seq<Slot>)

  datatype Pointer = Nowhere | At(inport: nat, vc: nat)

  /** Every input port has n virtual channels. */
  predicate Wired(inputs: seq<Input>, n: nat) {
    n > 0 && forall i :: 0 <= i < |inputs| ==> |inputs[i].vcs| == n
  }

  /** The i-th of the ports behind port p, in a circle. */
  function Ahead(inputs: seq<Input>, p: nat, i: nat): (q: nat)
    requires p < |inputs| && i <= |inputs|
    ensures q < |inputs|
  {
    if p + i < |inputs| then p + i else p + i - |inputs|
  }

  // ----- the search

  /** The channel the inner loop stops at: tests consecutive ones from c, and 0 past the end. */
  function FirstVc(vcs: seq<Slot>, c: nat, tests: nat): Option<nat>
    requires |vcs| > 0
    decreases tests
  {
    if tests == 0 then None
    else
      var vc := if c >= |vcs| then 0 else c;
      if vcs[vc].Holds? then Some(vc) else FirstVc(vcs, c + 1, tests - 1)
  }

  /** The slot the outer loop stops at, from the i-th port behind p on. The counter c runs on
      from port to port. */
  function Search(inputs: seq<Input>, n: nat, p: nat, i: nat, c: nat): (r: Pointer)
    requires Wired(inputs, n) && p < |inputs| && 0 < i
    ensures r.At? ==> r.inport < |inputs| && r.vc < n && !inputs[r.inport].local && inputs[r.inport].vcs[r.vc].Holds?
    decreases |inputs| - i
  {
    if i > |inputs| then Nowhere
    else
      var q := Ahead(inputs, p, i);
      if inputs[q].local then Search(inputs, n, p, i + 1, c)
      else
        var found := FirstVc(inputs[q].vcs, c, n);
        FirstVcHolds(inputs[q].vcs, c, n);
        if found.Some? then At(q, found.value) else Search(inputs, n, p, i + 1, c + n)
  }

  lemma {:induction false} FirstVcHolds(vcs: seq<Slot>, c: nat, tests: nat)
    requires |vcs| > 0
    ensures var r := FirstVc(vcs, c, tests); r.Some? ==> r.value < |vcs| && vcs[r.value].Holds?
    decreases tests
  {
    if tests > 0 {
      FirstVcHolds(vcs, c + 1, tests - 1);
    }
  }

  /** Where the pointer goes from channel v of port p. */
  function Moved(inputs: seq<Input>, n: nat, p: nat, v: nat): (r: Pointer)
    requires Wired(inputs, n) && p < |inputs|
  {
    Search(inputs, n, p, 1, v)
  }

  /** The inner loop: all channels of a port, with the counter starting at start. */
  method TestVcs(vcs: seq<Slot>, start: nat) returns (found: bool, invc: nat, vcid: nat)
    requires |vcs| > 0
    ensures invc < |vcs| && found == vcs[invc].Holds?
    ensures FirstVc(vcs, start, |vcs|) == if found then Some(invc) else None
    ensures !found ==> vcid == start + |vcs|
  {
    vcid := start;
    var itr := 0;
    found := false;
    invc := 0;
    while itr < |vcs| && !found
      invariant 0 <= itr <= |vcs| && invc < |vcs|
      invariant itr > 0 ==> found == vcs[invc].Holds?
      invariant FirstVc(vcs, start, |vcs|) == if found then Some(invc) else FirstVc(vcs, vcid, |vcs| - itr)
      invariant itr == 0 ==> !found
      invariant !found ==> vcid == start + itr
    {
      invc, vcid := vcid, vcid + 1;
      if invc >= |vcs| {
        invc := 0;
      }
      found := vcs[invc].Holds?;
      itr := itr + 1;
    }
  }

  /** The first virtual network, from vnet on, whose base channel holds a packet. */
  function BaseHeld(vcs: seq<Slot>, vnets: nat, vcsPerVnet: nat, vnet: nat): (r: Option<nat>)
    requires |vcs| == Times(vnets, vcsPerVnet) && vcsPerVnet > 0
    ensures r.Some? ==> r.value < |vcs| && vcs[r.value].Holds?
    decreases vnets - vnet
  {
    if vnet >= vnets then None
    else
      TimesMono(vnet + 1, vnets, vcsPerVnet);
      if vcs[Times(vnet, vcsPerVnet)].Holds? then Some(Times(vnet, vcsPerVnet))
      else BaseHeld(vcs, vnets, vcsPerVnet, vnet + 1)
  }

  /** Where the scan leaves the pointer, from port i on. */
  function Scan(inputs: seq<Input>, vnets: nat, vcsPerVnet: nat, i: nat): Pointer
    requires Wired(inputs, Times(vnets, vcsPerVnet)) && vcsPerVnet > 0
    decreases |inputs| - i
  {
    if i >= |inputs| then Nowhere
    else
      var held := if inputs[i].local then None else BaseHeld(inputs[i].vcs, vnets, vcsPerVnet, 0);
      if held.None? then Scan(inputs, vnets, vcsPerVnet, i + 1)
      else if inputs[i].vcs[held.value].leaving then Nowhere
      else At(i, held.value)
  }

  /** Mesh port i holds a packet in the base channel of a virtual network. */
  predicate HoldsBaseOf(inputs: seq<Input>, vcsPerVnet: nat, vnets: nat, i: nat, vnet: nat)
    requires Wired(inputs, Times(vnets, vcsPerVnet)) && vcsPerVnet > 0
  {
    i < |inputs| && !inputs[i].local && vnet < vnets &&
    (TimesMono(vnet + 1, vnets, vcsPerVnet); inputs[i].vcs[Times(vnet, vcsPerVnet)].Holds?)
  }

  /** The pointer is to be valid at channel vc of port i: the lowest occupied base channel of the
      first mesh port with one, whose packet is not leaving the mesh. */
  ghost predicate Offers(inputs: seq<Input>, vnets: nat, vcsPerVnet: nat, i: nat, vc: nat)
    requires Wired(inputs, Times(vnets, vcsPerVnet)) && vcsPerVnet > 0
  {
    && (forall i': nat, w: nat :: i' < i ==> !HoldsBaseOf(inputs, vcsPerVnet, vnets, i', w))
    && exists vnet: nat ::
      && vc == Times(vnet, vcsPerVnet) && HoldsBaseOf(inputs, vcsPerVnet, vnets, i, vnet)
      && (forall w: nat :: w < vnet ==> !HoldsBaseOf(inputs, vcsPerVnet, vnets, i, w))
      && vc < |inputs[i].vcs| && inputs[i].vcs[vc] == Holds(false)
  }

  // ----- the router

  class Router {
    const numVcs: nat
    var inputs: seq<Input>
    var inport: int
    var vcid: int
    var valid: bool

    ghost predicate Valid()
      reads this
    {
      Wired(inputs, numVcs) &&
      (valid ==> 0 <= inport < |inputs| && !inputs[inport].local && 0 <= vcid < numVcs)
    }

    function Position(): Pointer
      requires Valid()
      reads this
    {
      if valid then At(inport, vcid) else Nowhere
    }

    constructor (inputs: seq<Input>, numVcs: nat)
      requires Wired(inputs, numVcs)
      ensures Valid() && Position() == Nowhere && this.inputs == inputs && this.numVcs == numVcs
    {
      this.inputs, this.numVcs := inputs, numVcs;
      inport, vcid, valid := -1, -1, false;
    }

    /** `movSwapPtr`. */
    method MovSwapPtr()
      requires Valid() && valid
      modifies this`inport, this`vcid, this`valid
      ensures Valid() && Position() == old(Moved(inputs, numVcs, inport, vcid))
    {
      ghost var p, target := inport, Moved(inputs, numVcs, inport, vcid);
      var invc, found, i := 0, false, 0;
      while i < |inputs| && !found
        invariant 0 <= i <= |inputs| && inport == Ahead(inputs, p, i) && vcid >= 0
        invariant 0 <= invc < numVcs
        invariant target == if found then At(inport, invc) else Search(inputs, numVcs, p, i + 1, vcid)
        invariant found ==> inputs[inport].vcs[invc].Holds?
        invariant !found && i > 0 && !inputs[inport].local ==> inputs[inport].vcs[invc].Empty?
        decreases |inputs| - i, !found
      {
        inport := inport + 1;
        if inport == |inputs| {
          inport := 0;
        }
        i := i + 1;
        if !inputs[inport].local {
          found, invc, vcid := TestVcs(inputs[inport].vcs, vcid);
        }
      }
      if inputs[inport].vcs[invc].Holds? {
        vcid, valid := invc, true;
      } else {
        inport, vcid, valid := -1, -1, false;
      }
    }

    /** The scan of `wakeup` that makes an invalid pointer valid again. It stops at the first
        packet in the base channel of a virtual network, even if that packet is leaving. */
    method Revalidate(vnets: nat, vcsPerVnet: nat)
      requires Valid() && !valid && Times(vnets, vcsPerVnet) == numVcs && vcsPerVnet > 0
      modifies this`inport, this`vcid, this`valid
      ensures Valid() && Position() == Scan(inputs, vnets, vcsPerVnet, 0)
      ensures forall i: nat, vc: nat :: Position() == At(i, vc) <==> Offers(inputs, vnets, vcsPerVnet, i, vc)
    {
      forall i: nat, vc: nat {
        ScanIff(inputs, vnets, vcsPerVnet, 0, i, vc);
      }
      for i := 0 to |inputs|
        invariant Valid() && !valid
        invariant Scan(inputs, vnets, vcsPerVnet, i) == Scan(inputs, vnets, vcsPerVnet, 0)
      {
        if !inputs[i].local {
          for vnet := 0 to vnets
            invariant Valid() && !valid
            invariant BaseHeld(inputs[i].vcs, vnets, vcsPerVnet, vnet) == BaseHeld(inputs[i].vcs, vnets, vcsPerVnet, 0)
          {
            TimesMono(vnet + 1, vnets, vcsPerVnet);
            var invc := Times(vnet, vcsPerVnet);
            if inputs[i].vcs[invc].Holds? {
              if !inputs[i].vcs[invc].leaving {
                inport, vcid, valid := i, invc, true;
              }
              return;
            }
          }
        }
      }
    }
  }

  // ----- what the scan finds

  lemma {:induction false} BaseHeldIs(inputs: seq<Input>, vnets: nat, vcsPerVnet: nat, i: nat, vnet: nat)
    requires Wired(inputs, Times(vnets, vcsPerVnet)) && vcsPerVnet > 0 && i < |inputs| && !inputs[i].local
    ensures match BaseHeld(inputs[i].vcs, vnets, vcsPerVnet, vnet)
      case None => forall w: nat :: vnet <= w ==> !HoldsBaseOf(inputs, vcsPerVnet, vnets, i, w)
      case Some(vc) => exists v: nat ::
        && vnet <= v && vc == Times(v, vcsPerVnet) && HoldsBaseOf(inputs, vcsPerVnet, vnets, i, v)
        && forall w: nat :: vnet <= w < v ==> !HoldsBaseOf(inputs, vcsPerVnet, vnets, i, w)
    decreases vnets - vnet
  {
    if vnet < vnets && !HoldsBaseOf(inputs, vcsPerVnet, vnets, i, vnet) {
      BaseHeldIs(inputs, vnets, vcsPerVnet, i, vnet + 1);
    }
  }

  /** Main result: the scan leaves the pointer at a channel if and only if that is the lowest
      occupied base channel of the first mesh port with one and its packet is not leaving;
      otherwise it leaves it invalid. */
  lemma {:induction false} ScanIff(inputs: seq<Input>, vnets: nat, vcsPerVnet: nat, k: nat, i: nat, vc: nat)
    requires Wired(inputs, Times(vnets, vcsPerVnet)) && vcsPerVnet > 0
    requires forall i': nat, w: nat :: i' < k ==> !HoldsBaseOf(inputs, vcsPerVnet, vnets, i', w)
    ensures Scan(inputs, vnets, vcsPerVnet, k) == At(i, vc) <==> Offers(inputs, vnets, vcsPerVnet, i, vc)
    decreases |inputs| - k
  {
    if k < |inputs| {
      if !inputs[k].local {
        BaseHeldIs(inputs, vnets, vcsPerVnet, k, 0);
      }
      var held := if inputs[k].local then None else BaseHeld(inputs[k].vcs, vnets, vcsPerVnet, 0);
      if held.None? {
        ScanIff(inputs, vnets, vcsPerVnet, k + 1, i, vc);
      } else {
        FirstOffers(inputs, vnets, vcsPerVnet, k, held.value, i, vc);
      }
    }
  }

  lemma FirstOffers(inputs: seq<Input>, vnets: nat, vcsPerVnet: nat, k: nat, held: nat, i: nat, vc: nat)
    requires Wired(inputs, Times(vnets, vcsPerVnet)) && vcsPerVnet > 0 && k < |inputs| && !inputs[k].local
    requires forall i': nat, w: nat :: i' < k ==> !HoldsBaseOf(inputs, vcsPerVnet, vnets, i', w)
    requires BaseHeld(inputs[k].vcs, vnets, vcsPerVnet, 0) == Some(held)
    ensures Offers(inputs, vnets, vcsPerVnet, i, vc) <==> i == k && vc == held && !inputs[k].vcs[held].leaving
  {
    BaseHeldIs(inputs, vnets, vcsPerVnet, k, 0);
    var v: nat :| held == Times(v, vcsPerVnet) && HoldsBaseOf(inputs, vcsPerVnet, vnets, k, v) &&
      forall w: nat :: w < v ==> !HoldsBaseOf(inputs, vcsPerVnet, vnets, k, w);
    if Offers(inputs, vnets, vcsPerVnet, i, vc) {
      var u: nat :| vc == Times(u, vcsPerVnet) && HoldsBaseOf(inputs, vcsPerVnet, vnets, i, u) &&
        forall w: nat :: w < u ==> !HoldsBaseOf(inputs, vcsPerVnet, vnets, i, w);
      assert i == k && u == v;
    }
  }

  // ----- what is tested, and in which order

  /** All ports before the i-th behind p are local. */
  predicate OnlyLocalBefore(inputs: seq<Input>, p: nat, i: nat)
    requires p < |inputs| && i <= |inputs| + 1
  {
    forall j :: 0 < j < i ==> inputs[Ahead(inputs, p, j)].local
  }

  /** Channel vc of the i-th port behind p is looked at, coming from channel v: channel 0 of
      every mesh port, and those from v on at the first. */
  predicate Tested(inputs: seq<Input>, n: nat, p: nat, v: nat, i: nat, vc: nat)
    requires Wired(inputs, n) && p < |inputs|
  {
    0 < i <= |inputs| && vc < n && !inputs[Ahead(inputs, p, i)].local &&
    (vc == 0 || (v <= vc && OnlyLocalBefore(inputs, p, i)))
  }

  /** It is looked at and holds a packet. */
  predicate Candidate(inputs: seq<Input>, n: nat, p: nat, v: nat, i: nat, vc: nat)
    requires Wired(inputs, n) && p < |inputs|
  {
    Tested(inputs, n, p, v, i, vc) && inputs[Ahead(inputs, p, i)].vcs[vc].Holds?
  }

  /** The order in which the channels of a port are looked at. */
  function Turn(n: nat, v: nat, vc: nat): int {
    if v <= vc then vc - v else n
  }

  lemma {:induction false} BaseOnly(vcs: seq<Slot>, c: nat, tests: nat)
    requires |vcs| > 0 && c >= |vcs| && tests > 0
    ensures FirstVc(vcs, c, tests) == if vcs[0].Holds? then Some(0) else None
    decreases tests
  {
    if vcs[0].Empty? && tests > 1 {
      BaseOnly(vcs, c + 1, tests - 1);
    }
  }

  /** From channel c on, then channel 0 if there are tests left. */
  lemma {:induction false} LowestFrom(vcs: seq<Slot>, c: nat, tests: nat)
    requires c < |vcs| && |vcs| - c <= tests
    ensures var again := |vcs| - c < tests;
      match FirstVc(vcs, c, tests)
      case Some(vc) =>
        && vc < |vcs| && vcs[vc].Holds? && (c <= vc || (vc == 0 && again))
        && forall u :: 0 <= u < |vcs| && (c <= u || (u == 0 && again)) && vcs[u].Holds? ==>
          Turn(|vcs|, c, vc) <= Turn(|vcs|, c, u)
      case None => forall u :: 0 <= u < |vcs| && (c <= u || (u == 0 && again)) ==> vcs[u].Empty?
    decreases tests
  {
    if vcs[c].Empty? {
      if c + 1 < |vcs| {
        LowestFrom(vcs, c + 1, tests - 1);
      } else if tests > 1 {
        BaseOnly(vcs, c + 1, tests - 1);
      }
    }
  }

  /** r is the first candidate from the i-th port behind p on. */
  ghost predicate IsFirst(inputs: seq<Input>, n: nat, p: nat, v: nat, i: nat, r: Pointer)
    requires Wired(inputs, n) && p < |inputs| && 0 < i
  {
    match r
    case Nowhere => forall j: nat, u: nat :: i <= j ==> !Candidate(inputs, n, p, v, j, u)
    case At(q, vc) => exists k: nat :: i <= k && IsFirstAt(inputs, n, p, v, i, k, q, vc)
  }

  ghost predicate IsFirstAt(inputs: seq<Input>, n: nat, p: nat, v: nat, i: nat, k: nat, q: nat, vc: nat)
    requires Wired(inputs, n) && p < |inputs| && 0 < i
  {
    && Candidate(inputs, n, p, v, k, vc) && q == Ahead(inputs, p, k)
    && (forall j: nat, u: nat :: i <= j < k ==> !Candidate(inputs, n, p, v, j, u))
    && (forall u: nat :: Candidate(inputs, n, p, v, k, u) ==> Turn(n, v, vc) <= Turn(n, v, u))
  }

  lemma {:induction false} SearchIsFirst(inputs: seq<Input>, n: nat, p: nat, v: nat, i: nat, c: nat)
    requires Wired(inputs, n) && p < |inputs| && v < n && 0 < i <= |inputs| + 1
    requires if OnlyLocalBefore(inputs, p, i) then c == v else c >= n
    ensures IsFirst(inputs, n, p, v, i, Search(inputs, n, p, i, c))
    decreases |inputs| - i
  {
    if i <= |inputs| {
      var q := Ahead(inputs, p, i);
      if inputs[q].local {
        SearchIsFirst(inputs, n, p, v, i + 1, c);
        SkipPort(inputs, n, p, v, i, Search(inputs, n, p, i + 1, c));
      } else {
        PortIsFirst(inputs, n, p, v, i, c);
        if FirstVc(inputs[q].vcs, c, n).None? {
          SearchIsFirst(inputs, n, p, v, i + 1, c + n);
          SkipPort(inputs, n, p, v, i, Search(inputs, n, p, i + 1, c + n));
        }
      }
    }
  }

  lemma SkipPort(inputs: seq<Input>, n: nat, p: nat, v: nat, i: nat, r: Pointer)
    requires Wired(inputs, n) && p < |inputs| && 0 < i && IsFirst(inputs, n, p, v, i + 1, r)
    requires forall u: nat :: !Candidate(inputs, n, p, v, i, u)
    ensures IsFirst(inputs, n, p, v, i, r)
  {
    if r.At? {
      var k: nat :| i + 1 <= k && IsFirstAt(inputs, n, p, v, i + 1, k, r.inport, r.vc);
      assert IsFirstAt(inputs, n, p, v, i, k, r.inport, r.vc);
    }
  }

  /** A mesh port: its first candidate, if it has any. */
  lemma PortIsFirst(inputs: seq<Input>, n: nat, p: nat, v: nat, i: nat, c: nat)
    requires Wired(inputs, n) && p < |inputs| && v < n && 0 < i <= |inputs| && !inputs[Ahead(inputs, p, i)].local
    requires if OnlyLocalBefore(inputs, p, i) then c == v else c >= n
    ensures match FirstVc(inputs[Ahead(inputs, p, i)].vcs, c, n)
      case Some(vc) => IsFirstAt(inputs, n, p, v, i, i, Ahead(inputs, p, i), vc)
      case None => forall u: nat :: !Candidate(inputs, n, p, v, i, u)
  {
    var vcs := inputs[Ahead(inputs, p, i)].vcs;
    if OnlyLocalBefore(inputs, p, i) {
      LowestFrom(vcs, c, n);
    } else {
      BaseOnly(vcs, c, n);
    }
  }

  /** Main result: the pointer moves to the first candidate behind it, and becomes invalid if
      and only if there is none. */
  lemma MovedIsFirst(inputs: seq<Input>, n: nat, p: nat, v: nat)
    requires Wired(inputs, n) && p < |inputs| && v < n
    ensures IsFirst(inputs, n, p, v, 1, Moved(inputs, n, p, v))
  {
    SearchIsFirst(inputs, n, p, v, 1, v);
  }

  lemma InvalidIff(inputs: seq<Input>, n: nat, p: nat, v: nat)
    requires Wired(inputs, n) && p < |inputs| && v < n
    ensures Moved(inputs, n, p, v) == Nowhere <==> forall i: nat, u: nat :: !Candidate(inputs, n, p, v, i, u)
  {
    MovedIsFirst(inputs, n, p, v);
  }

  /** The pointer becomes invalid, and the scan leaves it so, though a mesh port holds a packet. */
  lemma Stranded()
    ensures var inputs := [Input(false, [Empty, Holds(false)]), Input(false, [Empty, Empty])];
      && Wired(inputs, 2) && Moved(inputs, 2, 0, 0) == Nowhere
      && Times(1, 2) == 2 && Scan(inputs, 1, 2, 0) == Nowhere
  {
    var inputs := [Input(false, [Empty, Holds(false)]), Input(false, [Empty, Empty])];
    assert FirstVc(inputs[1].vcs, 0, 2).None? && FirstVc(inputs[0].vcs, 2, 2).None?;
    assert Search(inputs, 2, 0, 2, 2) == Nowhere;
    assert Times(1, 2) == 2;
    assert BaseHeld(inputs[0].vcs, 1, 2, 1).None? && BaseHeld(inputs[1].vcs, 1, 2, 1).None?;
    assert Scan(inputs, 1, 2, 1) == Nowhere;
  }

  // ----- which channels are ever offered

  /** The i-th port behind p is the mesh port that directly follows it. */
  predicate Follows(inputs: seq<Input>, p: nat, i: nat)
    requires p < |inputs|
  {
    0 < i <= |inputs| && !inputs[Ahead(inputs, p, i)].local && OnlyLocalBefore(inputs, p, i)
  }

  /** That port holds packets, but none in channel 0. */
  ghost predicate NextHoldsHigherOnly(inputs: seq<Input>, n: nat, p: nat)
    requires Wired(inputs, n) && p < |inputs|
  {
    exists i: nat, u: nat :: Follows(inputs, p, i) && HigherOnly(inputs[Ahead(inputs, p, i)].vcs, u)
  }

  predicate HigherOnly(vcs: seq<Slot>, u: nat)
    requires |vcs| > 0
  {
    vcs[0].Empty? && 0 < u < |vcs| && vcs[u].Holds?
  }

  /** From channel 0 the pointer gets to a higher channel if and only if the next mesh port
      holds packets in higher channels only. */
  lemma HigherVcIff(inputs: seq<Input>, n: nat, p: nat)
    requires Wired(inputs, n) && p < |inputs|
    ensures var r := Moved(inputs, n, p, 0); (r.At? && r.vc > 0) <==> NextHoldsHigherOnly(inputs, n, p)
  {
    var r := Moved(inputs, n, p, 0);
    MovedIsFirst(inputs, n, p, 0);
    if r.At? && r.vc > 0 {
      var k: nat :| 1 <= k && IsFirstAt(inputs, n, p, 0, 1, k, r.inport, r.vc);
      assert !Candidate(inputs, n, p, 0, k, 0);
      assert Follows(inputs, p, k) && HigherOnly(inputs[Ahead(inputs, p, k)].vcs, r.vc);
    }
    if NextHoldsHigherOnly(inputs, n, p) {
      var i: nat, u: nat :| Follows(inputs, p, i) && HigherOnly(inputs[Ahead(inputs, p, i)].vcs, u);
      assert Candidate(inputs, n, p, 0, i, u) && r.At?;
      var k: nat :| 1 <= k && IsFirstAt(inputs, n, p, 0, 1, k, r.inport, r.vc);
      assert k == i;
    }
  }

  /** Where the pointer is after m moves, if no packet moves. */
  function Moves(inputs: seq<Input>, n: nat, r: Pointer, m: nat): Pointer
    requires Wired(inputs, n) && (r.At? ==> r.inport < |inputs|)
    decreases m
  {
    if m == 0 || r.Nowhere? then r else Moves(inputs, n, Moved(inputs, n, r.inport, r.vc), m - 1)
  }

  predicate HoldsBase(inputs: seq<Input>, n: nat, q: nat)
    requires Wired(inputs, n)
  {
    q < |inputs| && !inputs[q].local && inputs[q].vcs[0].Holds?
  }

  /** Neither port p nor any mesh port with a packet in channel 0 has such a port behind it. */
  ghost predicate BaseFollows(inputs: seq<Input>, n: nat, p: nat)
    requires Wired(inputs, n) && p < |inputs|
  {
    && !NextHoldsHigherOnly(inputs, n, p)
    && forall q: nat :: HoldsBase(inputs, n, q) ==> !NextHoldsHigherOnly(inputs, n, q)
  }

  /** The pointer, once in channel 0 of port p, never leaves channel 0 while nothing moves. */
  ghost predicate StaysInBase(inputs: seq<Input>, n: nat, p: nat)
    requires Wired(inputs, n) && p < |inputs|
  {
    forall m: nat :: Moves(inputs, n, At(p, 0), m).At? ==> Moves(inputs, n, At(p, 0), m).vc == 0
  }

  lemma {:induction false} BaseFollowsKeeps(inputs: seq<Input>, n: nat, p: nat, m: nat)
    requires Wired(inputs, n) && p < |inputs| && BaseFollows(inputs, n, p)
    ensures var r := Moves(inputs, n, At(p, 0), m); r.At? ==> r.vc == 0
    decreases m
  {
    if m > 0 {
      HigherVcIff(inputs, n, p);
      var r := Moved(inputs, n, p, 0);
      if r.At? {
        assert HoldsBase(inputs, n, r.inport);
        BaseFollowsKeeps(inputs, n, r.inport, m - 1);
      }
    }
  }

  /** Within k moves the pointer either leaves channel 0 or gets to channel 0 of the k-th port
      behind p, if that holds a packet. */
  lemma {:induction false} ReachesOrLeaves(inputs: seq<Input>, n: nat, p: nat, k: nat) returns (m: nat)
    requires Wired(inputs, n) && p < |inputs| && Candidate(inputs, n, p, 0, k, 0)
    ensures 0 < m <= k
    ensures var r := Moves(inputs, n, At(p, 0), m); r.At? && (r.vc > 0 || r == At(Ahead(inputs, p, k), 0))
    decreases k
  {
    var r := Moved(inputs, n, p, 0);
    MovedIsFirst(inputs, n, p, 0);
    assert r.At?;
    var i: nat :| 1 <= i && IsFirstAt(inputs, n, p, 0, 1, i, r.inport, r.vc);
    assert i <= k;
    if r.vc > 0 || i == k {
      m := 1;
      assert Moves(inputs, n, At(p, 0), 1) == r;
      assert i == k ==> Turn(n, 0, r.vc) <= Turn(n, 0, 0);
    } else {
      var q := Ahead(inputs, p, i);
      assert Ahead(inputs, q, k - i) == Ahead(inputs, p, k);
      m := ReachesOrLeaves(inputs, n, q, k - i);
      m := m + 1;
    }
  }

  lemma {:induction false} MovesFurther(inputs: seq<Input>, n: nat, r: Pointer, m: nat)
    requires Wired(inputs, n) && (r.At? ==> r.inport < |inputs|) && Moves(inputs, n, r, m).At?
    ensures var q := Moves(inputs, n, r, m);
      q.inport < |inputs| && Moves(inputs, n, r, m + 1) == Moved(inputs, n, q.inport, q.vc)
    decreases m
  {
    if m > 0 {
      MovesFurther(inputs, n, Moved(inputs, n, r.inport, r.vc), m - 1);
    } else {
      assert Moves(inputs, n, r, 1) == Moved(inputs, n, r.inport, r.vc);
    }
  }

  /** If some port lets the pointer leave channel 0, it does leave. */
  lemma LeavesBase(inputs: seq<Input>, n: nat, p: nat, q: nat) returns (m: nat)
    requires Wired(inputs, n) && p < |inputs| && HoldsBase(inputs, n, q) && NextHoldsHigherOnly(inputs, n, q)
    ensures var r := Moves(inputs, n, At(p, 0), m); r.At? && r.vc > 0
  {
    HigherVcIff(inputs, n, q);
    var k := if p < q then q - p else q - p + |inputs|;
    assert Ahead(inputs, p, k) == q && Candidate(inputs, n, p, 0, k, 0);
    m := ReachesOrLeaves(inputs, n, p, k);
    if Moves(inputs, n, At(p, 0), m).vc == 0 {
      MovesFurther(inputs, n, At(p, 0), m);
      m := m + 1;
    }
  }

  /** Main result: the pointer stays in channel 0 if and only if no mesh port that directly
      follows it, or a mesh port with channel 0 occupied, has packets in higher channels only. */
  lemma StaysInBaseIff(inputs: seq<Input>, n: nat, p: nat)
    requires Wired(inputs, n) && p < |inputs|
    ensures StaysInBase(inputs, n, p) <==> BaseFollows(inputs, n, p)
  {
    if BaseFollows(inputs, n, p) {
      forall m: nat | Moves(inputs, n, At(p, 0), m).At?
        ensures Moves(inputs, n, At(p, 0), m).vc == 0
      {
        BaseFollowsKeeps(inputs, n, p, m);
      }
    } else if NextHoldsHigherOnly(inputs, n, p) {
      HigherVcIff(inputs, n, p);
      assert Moves(inputs, n, At(p, 0), 1) == Moved(inputs, n, p, 0);
    } else {
      var q: nat :| HoldsBase(inputs, n, q) && NextHoldsHigherOnly(inputs, n, q);
      var m := LeavesBase(inputs, n, p, q);
    }
  }

  /** While it does, and nothing moves, every mesh port with a packet in channel 0 gets its turn
      within one round. */
  lemma EveryPortGetsItsTurn(inputs: seq<Input>, n: nat, p: nat, k: nat) returns (m: nat)
    requires Wired(inputs, n) && p < |inputs| && BaseFollows(inputs, n, p) && Candidate(inputs, n, p, 0, k, 0)
    ensures 0 < m <= k && Moves(inputs, n, At(p, 0), m) == At(Ahead(inputs, p, k), 0)
  {
    m := ReachesOrLeaves(inputs, n, p, k);
    BaseFollowsKeeps(inputs, n, p, m);
  }

  // ----- which channels are starved

  /** Every mesh port holds a packet in channel v. */
  predicate AllHold(inputs: seq<Input>, n: nat, v: nat)
    requires Wired(inputs, n) && v < n
  {
    forall q :: 0 <= q < |inputs| && !inputs[q].local ==> inputs[q].vcs[v].Holds?
  }

  /** The pointer, once in channel v of port p, never leaves channel v while nothing moves. */
  ghost predicate StaysIn(inputs: seq<Input>, n: nat, p: nat, v: nat)
    requires Wired(inputs, n) && p < |inputs|
  {
    forall m: nat :: var r := Moves(inputs, n, At(p, v), m); r.At? && r.vc == v
  }

  lemma AllHoldNext(inputs: seq<Input>, n: nat, p: nat, v: nat, i: nat)
    requires Wired(inputs, n) && p < |inputs| && v < n && AllHold(inputs, n, v)
    requires 0 < i <= |inputs| && !inputs[Ahead(inputs, p, i)].local
    ensures var r := Moved(inputs, n, p, v); r.At? && r.vc == v
    decreases i
  {
    if j :| 0 < j < i && !inputs[Ahead(inputs, p, j)].local {
      AllHoldNext(inputs, n, p, v, j);
    } else {
      MovedIsFirst(inputs, n, p, v);
      var r := Moved(inputs, n, p, v);
      assert Candidate(inputs, n, p, v, i, v);
      assert r.At?;
      var k: nat :| 1 <= k && IsFirstAt(inputs, n, p, v, 1, k, r.inport, r.vc);
      assert k == i;
    }
  }

  lemma {:induction false} AllHoldStays(inputs: seq<Input>, n: nat, p: nat, v: nat, m: nat)
    requires Wired(inputs, n) && p < |inputs| && !inputs[p].local && v < n && AllHold(inputs, n, v)
    ensures var r := Moves(inputs, n, At(p, v), m); r.At? && r.vc == v
    decreases m
  {
    if m > 0 {
      AllHoldNext(inputs, n, p, v, |inputs|);
      AllHoldStays(inputs, n, Moved(inputs, n, p, v).inport, v, m - 1);
    }
  }

  lemma StaysInFurther(inputs: seq<Input>, n: nat, p: nat, v: nat)
    requires Wired(inputs, n) && p < |inputs| && StaysIn(inputs, n, p, v)
    ensures var r := Moved(inputs, n, p, v);
      r.At? && r.vc == v && r.inport < |inputs| && StaysIn(inputs, n, r.inport, v)
  {
    var r := Moved(inputs, n, p, v);
    assert Moves(inputs, n, At(p, v), 1) == r;
    forall m: nat
      ensures Moves(inputs, n, r, m) == Moves(inputs, n, At(p, v), m + 1)
    {
    }
  }

  lemma {:induction false} StaysInHolds(inputs: seq<Input>, n: nat, p: nat, v: nat, k: nat)
    requires Wired(inputs, n) && p < |inputs| && 0 < v < n && StaysIn(inputs, n, p, v)
    requires 0 < k <= |inputs| && !inputs[Ahead(inputs, p, k)].local
    ensures inputs[Ahead(inputs, p, k)].vcs[v].Holds?
    decreases k
  {
    StaysInFurther(inputs, n, p, v);
    MovedIsFirst(inputs, n, p, v);
    var r := Moved(inputs, n, p, v);
    var i: nat :| 1 <= i && IsFirstAt(inputs, n, p, v, 1, i, r.inport, r.vc);
    assert OnlyLocalBefore(inputs, p, i) && i <= k;
    if i < k {
      assert Ahead(inputs, r.inport, k - i) == Ahead(inputs, p, k);
      StaysInHolds(inputs, n, r.inport, v, k - i);
    }
  }

  /** Main result: the pointer stays in a channel above 0, passing over all others, if and only
      if every mesh port holds a packet in it. */
  lemma StaysInHigherIff(inputs: seq<Input>, n: nat, p: nat, v: nat)
    requires Wired(inputs, n) && p < |inputs| && !inputs[p].local && 0 < v < n
    ensures StaysIn(inputs, n, p, v) <==> AllHold(inputs, n, v)
  {
    if AllHold(inputs, n, v) {
      forall m: nat
        ensures var r := Moves(inputs, n, At(p, v), m); r.At? && r.vc == v
      {
        AllHoldStays(inputs, n, p, v, m);
      }
    }
    if StaysIn(inputs, n, p, v) {
      forall q | 0 <= q < |inputs| && !inputs[q].local
        ensures inputs[q].vcs[v].Holds?
      {
        var k := if p < q then q - p else q - p + |inputs|;
        assert Ahead(inputs, p, k) == q;
        StaysInHolds(inputs, n, p, v, k);
      }
    }
  }

  /** From channel 0 of the third port the pointer goes to channel 1 of the first and stays in
      channel 1: the packets in channel 0 of the other two ports are never offered. */
  lemma BaseStarves(m: nat)
    requires m > 0
    ensures var inputs := [Input(false, [Empty, Holds(false)]), Input(false, [Holds(false), Holds(false)]),
                           Input(false, [Holds(false), Holds(false)])];
      Wired(inputs, 2) && Moves(inputs, 2, At(2, 0), m).At? && Moves(inputs, 2, At(2, 0), m).vc == 1
  {
    var inputs := [Input(false, [Empty, Holds(false)]), Input(false, [Holds(false), Holds(false)]),
                   Input(false, [Holds(false), Holds(false)])];
    assert Ahead(inputs, 2, 1) == 0;
    assert FirstVc(inputs[0].vcs, 0, 2) == Some(1);
    assert Moved(inputs, 2, 2, 0) == At(0, 1);
    AllHoldStays(inputs, 2, 0, 1, m - 1);
  }

  /** A mesh port that holds any packet holds one in channel 0. */
  predicate BaseFirst(inputs: seq<Input>, n: nat)
    requires Wired(inputs, n)
  {
    forall q, u :: 0 <= q < |inputs| && 0 <= u < n && !inputs[q].local && inputs[q].vcs[u].Holds? ==>
      inputs[q].vcs[0].Holds?
  }

  /** Then the higher channels are passed over. */
  lemma HigherVcsPassedOver(inputs: seq<Input>, n: nat, p: nat, m: nat)
    requires Wired(inputs, n) && p < |inputs| && BaseFirst(inputs, n)
    ensures var r := Moves(inputs, n, At(p, 0), m); r.At? ==> r.vc == 0
  {
    BaseFollowsKeeps(inputs, n, p, m);
  }
}
