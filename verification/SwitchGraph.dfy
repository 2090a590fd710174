/**
 The switch graph of a west-first mesh network and its weight matrix
 (gem5/src/mem/ruby/network/Topology.cc).

 Switch ids: controller i sends from switch i and receives at switch n + i, and
 router r is switch 2n + r, for n controllers.
 */
module SwitchGraph {
  import opened Grid
  import opened MeshTopology
  import opened Options
  import opened ShortestPaths

  /** External links keep the default weight of a link. */
  const EXT_WEIGHT := 1

  // ----- the switch graph

  /** attach[i] is the router of the controller with id i, and the topology links
      controllers 0 .. |attach| - 1 accordingly, on a mesh with all its links. */
  ghost predicate Attached(t: Topology, attach: seq<nat>) {
    && t.mesh.Valid()
    && (forall k :: 0 <= k < |t.extLinks| ==>
      t.extLinks[k].node.id < |attach| && t.extLinks[k].router == attach[t.extLinks[k].node.id])
    && (forall i :: 0 <= i < |attach| ==> attach[i] < t.mesh.Size() && Linked(t.extLinks, i))
  }

  ghost predicate Linked(extLinks: seq<ExtLink>, i: nat) {
    exists k :: 0 <= k < |extLinks| && extLinks[k].node.id == i
  }

  /** The direction of the mesh link from router a to router b, if there is one. */
  function DirectionTo(m: Mesh, a: nat, b: nat): Option<Direction>
    requires m.Valid()
  {
    if m.Has(a, East) && b == m.Step(a, East) then Some(East)
    else if m.Has(a, West) && b == m.Step(a, West) then Some(West)
    else if m.Has(a, North) && b == m.Step(a, North) then Some(North)
    else if m.Has(a, South) && b == m.Step(a, South) then Some(South)
    else None
  }

  lemma DirectionToIs(m: Mesh, a: nat, d: Direction)
    requires m.Valid() && m.Has(a, d)
    ensures m.Step(a, d) >= 0 && DirectionTo(m, a, m.Step(a, d)) == Some(d)
  {
    StepCoordinates(m, a, d);
    forall e | m.Has(a, e) && e != d ensures m.Step(a, e) != m.Step(a, d) { StepsDiffer(m, a, d, e); }
  }

  /** The weight of the link between two switches of the mesh network, if linked. */
  function Link(m: Mesh, attach: seq<nat>, a: nat, b: nat): Option<int>
    requires m.Valid()
  {
    var n := |attach|;
    if a < n then
      if b == 2 * n + attach[a] then Some(EXT_WEIGHT) else None
    else if a < 2 * n then
      None
    else if n <= b < 2 * n then
      if a == 2 * n + attach[b - n] then Some(EXT_WEIGHT) else None
    else if 2 * n <= b then
      match DirectionTo(m, a - 2 * n, b - 2 * n)
      case Some(d) => Some(LinkWeight(d))
      case None => None
    else
      None
  }

  type LinkMap = map<(nat, nat), int>

  /** Every entry of lm is a link of the network, with its weight. */
  ghost predicate Sound(m: Mesh, attach: seq<nat>, lm: LinkMap)
    requires m.Valid()
  {
    forall a: nat, b: nat :: (a, b) in lm ==> Link(m, attach, a, b) == Some(lm[(a, b)])
  }

  ghost predicate Complete(m: Mesh, attach: seq<nat>, lm: LinkMap)
    requires m.Valid()
  {
    forall a: nat, b: nat :: Link(m, attach, a, b).Some? ==> (a, b) in lm
  }

  ghost predicate HasExt(n: nat, lm: LinkMap, x: ExtLink) {
    (x.node.id, 2 * n + x.router) in lm && (2 * n + x.router, n + x.node.id) in lm
  }

  ghost predicate HasInt(n: nat, lm: LinkMap, x: IntLink) {
    (2 * n + x.src, 2 * n + x.dst) in lm
  }

  /** The constructor of `Topology`: two `addLink` calls per external link, one per
      internal link, into a map keyed by the pair of switches. */
  method CollectLinks(t: Topology, n: nat, ghost attach: seq<nat>) returns (lm: LinkMap)
    requires Attached(t, attach) && n == |attach|
    requires MeshLinks(t.mesh, |t.extLinks|, t.intLinks)
    ensures Sound(t.mesh, attach, lm) && Complete(t.mesh, attach, lm)
  {
    lm := AddExtLinks(t, n, attach);
    lm := AddIntLinks(t, n, attach, lm);
    AllCollected(t, attach, lm);
  }

  ghost predicate HasAllExt(n: nat, lm: LinkMap, xs: seq<ExtLink>) {
    forall k :: 0 <= k < |xs| ==> HasExt(n, lm, xs[k])
  }

  ghost predicate HasAllInt(n: nat, lm: LinkMap, xs: seq<IntLink>) {
    forall k :: 0 <= k < |xs| ==> HasInt(n, lm, xs[k])
  }

  lemma SoundUpdate(m: Mesh, attach: seq<nat>, lm: LinkMap, a: nat, b: nat, w: int)
    requires m.Valid() && Sound(m, attach, lm) && Link(m, attach, a, b) == Some(w)
    ensures Sound(m, attach, lm[(a, b) := w])
  {
  }

  lemma ExtLinkIsLink(t: Topology, attach: seq<nat>, x: ExtLink)
    requires Attached(t, attach) && x in t.extLinks
    ensures Link(t.mesh, attach, x.node.id, 2 * |attach| + x.router) == Some(EXT_WEIGHT)
    ensures Link(t.mesh, attach, 2 * |attach| + x.router, |attach| + x.node.id) == Some(EXT_WEIGHT)
  {
  }

  ghost predicate Within(before: LinkMap, after: LinkMap) {
    forall key :: key in before ==> key in after
  }

  lemma OneMoreExt(n: nat, before: LinkMap, after: LinkMap, xs: seq<ExtLink>, k: nat)
    requires k < |xs| && HasAllExt(n, before, xs[..k]) && Within(before, after) && HasExt(n, after, xs[k])
    ensures HasAllExt(n, after, xs[..k + 1])
  {
    var ys := xs[..k + 1];
    forall j | 0 <= j < |ys|
      ensures HasExt(n, after, ys[j])
    {
      assert j < k ==> HasExt(n, before, xs[..k][j]);
    }
  }

  lemma OneMoreInt(n: nat, before: LinkMap, after: LinkMap, xs: seq<IntLink>, k: nat)
    requires k < |xs| && HasAllInt(n, before, xs[..k]) && Within(before, after) && HasInt(n, after, xs[k])
    ensures HasAllInt(n, after, xs[..k + 1])
  {
    var ys := xs[..k + 1];
    forall j | 0 <= j < |ys|
      ensures HasInt(n, after, ys[j])
    {
      assert j < k ==> HasInt(n, before, xs[..k][j]);
    }
  }

  method AddExtLinks(t: Topology, n: nat, ghost attach: seq<nat>) returns (lm: LinkMap)
    requires Attached(t, attach) && n == |attach|
    ensures Sound(t.mesh, attach, lm) && HasAllExt(n, lm, t.extLinks)
  {
    lm := map[];
    for k := 0 to |t.extLinks|
      invariant Sound(t.mesh, attach, lm) && HasAllExt(n, lm, t.extLinks[..k])
    {
      var x := t.extLinks[k];
      ghost var before := lm;
      ExtLinkIsLink(t, attach, x);
      SoundUpdate(t.mesh, attach, lm, x.node.id, 2 * n + x.router, EXT_WEIGHT);
      lm := lm[(x.node.id, 2 * n + x.router) := EXT_WEIGHT];
      SoundUpdate(t.mesh, attach, lm, 2 * n + x.router, n + x.node.id, EXT_WEIGHT);
      lm := lm[(2 * n + x.router, n + x.node.id) := EXT_WEIGHT];
      OneMoreExt(n, before, lm, t.extLinks, k);
    }
    assert t.extLinks[..|t.extLinks|] == t.extLinks;
  }

  method AddIntLinks(t: Topology, n: nat, ghost attach: seq<nat>, before: LinkMap) returns (lm: LinkMap)
    requires t.mesh.Valid() && n == |attach|
    requires MeshLinks(t.mesh, |t.extLinks|, t.intLinks)
    requires Sound(t.mesh, attach, before)
    ensures Sound(t.mesh, attach, lm) && HasAllInt(n, lm, t.intLinks) && Within(before, lm)
  {
    lm := before;
    for k := 0 to |t.intLinks|
      invariant Sound(t.mesh, attach, lm) && HasAllInt(n, lm, t.intLinks[..k]) && Within(before, lm)
    {
      var x := t.intLinks[k];
      ghost var sofar := lm;
      MeshLinkIsLink(t.mesh, attach, x);
      SoundUpdate(t.mesh, attach, lm, 2 * n + x.src, 2 * n + x.dst, x.weight);
      lm := lm[(2 * n + x.src, 2 * n + x.dst) := x.weight];
      OneMoreInt(n, sofar, lm, t.intLinks, k);
    }
    assert t.intLinks[..|t.intLinks|] == t.intLinks;
  }

  lemma MeshLinkIsLink(m: Mesh, attach: seq<nat>, x: IntLink)
    requires m.Valid() && Directed(m, {East, West, North, South}, x)
    ensures Link(m, attach, 2 * |attach| + x.src, 2 * |attach| + x.dst) == Some(x.weight)
  {
    var d :| IsLink(m, d, x);
    DirectionToIs(m, x.src, d);
  }

  lemma ExtLinkIsCollected(t: Topology, attach: seq<nat>, lm: LinkMap, i: nat)
    requires Attached(t, attach) && i < |attach|
    requires forall k :: 0 <= k < |t.extLinks| ==> HasExt(|attach|, lm, t.extLinks[k])
    ensures (i, 2 * |attach| + attach[i]) in lm && (2 * |attach| + attach[i], |attach| + i) in lm
  {
    assert attach[i] < t.mesh.Size() && Linked(t.extLinks, i);
    var k :| 0 <= k < |t.extLinks| && t.extLinks[k].node.id == i;
    assert HasExt(|attach|, lm, t.extLinks[k]);
  }

  lemma IntLinkIsCollected(t: Topology, n: nat, lm: LinkMap, r: nat, d: Direction)
    requires t.mesh.Valid() && MeshLinks(t.mesh, |t.extLinks|, t.intLinks)
    requires forall k :: 0 <= k < |t.intLinks| ==> HasInt(n, lm, t.intLinks[k])
    requires t.mesh.Has(r, d) && t.mesh.Step(r, d) >= 0
    ensures (2 * n + r, 2 * n + t.mesh.Step(r, d)) in lm
  {
    assert Leaves(t.mesh, t.intLinks, r, d);
    var k :| 0 <= k < |t.intLinks| && t.intLinks[k].src == r && IsLink(t.mesh, d, t.intLinks[k]);
    assert HasInt(n, lm, t.intLinks[k]);
  }

  lemma AllCollected(t: Topology, attach: seq<nat>, lm: LinkMap)
    requires Attached(t, attach)
    requires MeshLinks(t.mesh, |t.extLinks|, t.intLinks)
    requires forall k :: 0 <= k < |t.extLinks| ==> HasExt(|attach|, lm, t.extLinks[k])
    requires forall k :: 0 <= k < |t.intLinks| ==> HasInt(|attach|, lm, t.intLinks[k])
    ensures Complete(t.mesh, attach, lm)
  {
    forall i | 0 <= i < |attach|
      ensures (i, 2 * |attach| + attach[i]) in lm && (2 * |attach| + attach[i], |attach| + i) in lm
    {
      ExtLinkIsCollected(t, attach, lm, i);
    }
    forall r, d | t.mesh.Has(r, d)
      ensures t.mesh.Step(r, d) >= 0 && (2 * |attach| + r, 2 * |attach| + t.mesh.Step(r, d)) in lm
    {
      StepCoordinates(t.mesh, r, d);
      IntLinkIsCollected(t, |attach|, lm, r, d);
    }
    forall a: nat, b: nat | Link(t.mesh, attach, a, b).Some?
      ensures (a, b) in lm
    {
      LinkIsCollected(t.mesh, attach, lm, a, b);
    }
  }

  lemma LinkIsCollected(m: Mesh, attach: seq<nat>, lm: LinkMap, a: nat, b: nat)
    requires m.Valid()
    requires forall i :: 0 <= i < |attach| ==>
      (i, 2 * |attach| + attach[i]) in lm && (2 * |attach| + attach[i], |attach| + i) in lm
    requires forall r, d :: m.Has(r, d) ==> m.Step(r, d) >= 0 && (2 * |attach| + r, 2 * |attach| + m.Step(r, d)) in lm
    requires Link(m, attach, a, b).Some?
    ensures (a, b) in lm
  {
    var n := |attach|;
    if a >= n && b >= 2 * n {
      var d := DirectionTo(m, a - 2 * n, b - 2 * n).value;
      assert m.Has(a - 2 * n, d);
    }
  }

  // ----- the weight matrix

  /** All keys of lm are below n, and n - 1 is one end of some link. */
  ghost predicate Spans(lm: LinkMap, n: nat) {
    && (forall a: nat, b: nat :: (a, b) in lm ==> a < n && b < n)
    && (exists a: nat, b: nat :: (a, b) in lm && (a == n - 1 || b == n - 1))
  }

  ghost predicate MatrixOf(lm: LinkMap, w: Matrix) {
    && Square(w)
    && forall a: nat, b: nat :: a < |w| && b < |w| ==>
      w[a][b] == if (a, b) in lm then lm[(a, b)] else if a == b then 0 else INFINITE_LATENCY
  }

  /** The first half of `createLinks`: the largest switch id, then a matrix of
      INFINITE_LATENCY with a zero diagonal, then one entry per link. */
  method FillWeights(lm: LinkMap) returns (w: Matrix)
    requires lm.Keys != {}
    ensures Spans(lm, |w|) && MatrixOf(lm, w)
  {
    var maxId: nat := 0;
    var todo := lm.Keys;
    while todo != {}
      invariant todo <= lm.Keys
      invariant forall a: nat, b: nat :: (a, b) in lm && (a, b) !in todo ==> a <= maxId && b <= maxId
      invariant (todo == lm.Keys && maxId == 0) || exists a: nat, b: nat :: (a, b) in lm && (a == maxId || b == maxId)
    {
      var key :| key in todo;
      var (a, b) := key;
      if maxId < a { maxId := a; }
      if maxId < b { maxId := b; }
      todo := todo - {key};
    }
    var n := maxId + 1;
    w := seq(n, _ => seq(n, _ => INFINITE_LATENCY));
    for i := 0 to n
      invariant |w| == n && Square(w)
      invariant forall a, b :: 0 <= a < n && 0 <= b < n ==> w[a][b] == if a == b < i then 0 else INFINITE_LATENCY
    {
      w := Set(w, i, i, 0);
    }
    todo := lm.Keys;
    while todo != {}
      invariant todo <= lm.Keys && |w| == n && Square(w)
      invariant forall a: nat, b: nat :: a < n && b < n ==>
        w[a][b] == if (a, b) in lm && (a, b) !in todo then lm[(a, b)] else if a == b then 0 else INFINITE_LATENCY
    {
      var key :| key in todo;
      var (a, b) := key;
      w := Set(w, a, b, lm[(a, b)]);
      todo := todo - {key};
    }
  }

  /** What the matrix of the mesh network holds. */
  function Entry(m: Mesh, attach: seq<nat>, a: nat, b: nat): int
    requires m.Valid()
  {
    match Link(m, attach, a, b)
    case Some(x) => x
    case None => if a == b then 0 else INFINITE_LATENCY
  }

  ghost predicate MeshMatrix(m: Mesh, attach: seq<nat>, w: Matrix)
    requires m.Valid()
  {
    && Square(w) && |w| == 2 * |attach| + m.Size()
    && forall a: nat, b: nat {:trigger Entry(m, attach, a, b)} ::
      a < |w| && b < |w| ==> w[a][b] == Entry(m, attach, a, b)
  }

  predicate OnMesh(m: Mesh, attach: seq<nat>) {
    m.Valid() && forall i :: 0 <= i < |attach| ==> attach[i] < m.Size()
  }

  lemma LinksStayInside(m: Mesh, attach: seq<nat>, a: nat, b: nat)
    requires OnMesh(m, attach) && Link(m, attach, a, b).Some?
    ensures a < 2 * |attach| + m.Size() && b < 2 * |attach| + m.Size() && a != b
    ensures 0 < Link(m, attach, a, b).value <= 2
  {
    var n := |attach|;
    if a >= n && b >= 2 * n {
      var d := DirectionTo(m, a - 2 * n, b - 2 * n).value;
      StepCoordinates(m, a - 2 * n, d);
    }
  }

  /** The last router is an end of some link. */
  lemma LastRouterIsLinked(m: Mesh, attach: seq<nat>) returns (a: nat, b: nat)
    requires OnMesh(m, attach) && attach != []
    ensures Link(m, attach, a, b).Some?
    ensures a == 2 * |attach| + m.Size() - 1 || b == 2 * |attach| + m.Size() - 1
  {
    var n, last := |attach|, m.Id(m.rows - 1, m.cols - 1);
    Decode(m, m.rows - 1, m.cols - 1);
    if m.cols > 1 || m.rows > 1 {
      var d := if m.cols > 1 then West else South;
      DirectionToIs(m, last, d);
      StepCoordinates(m, last, d);
      a, b := 2 * n + last, 2 * n + m.Step(last, d);
    } else {
      a, b := 0, 2 * n + attach[0];
    }
  }

  lemma MatrixOfMesh(m: Mesh, attach: seq<nat>, lm: LinkMap, w: Matrix)
    requires OnMesh(m, attach) && attach != []
    requires Sound(m, attach, lm) && Complete(m, attach, lm)
    requires Spans(lm, |w|) && MatrixOf(lm, w)
    ensures MeshMatrix(m, attach, w)
  {
    var a, b := LastRouterIsLinked(m, attach);
    assert (a, b) in lm;
    var a', b' :| (a', b') in lm && (a' == |w| - 1 || b' == |w| - 1);
    LinksStayInside(m, attach, a', b');
    forall a: nat, b: nat | a < |w| && b < |w|
      ensures w[a][b] == Entry(m, attach, a, b)
    {
      assert (a, b) in lm <==> Link(m, attach, a, b).Some?;
    }
  }

  lemma MeshMatrixIsWeightMatrix(m: Mesh, attach: seq<nat>, w: Matrix)
    requires OnMesh(m, attach) && MeshMatrix(m, attach, w)
    ensures WeightMatrix(w)
    ensures forall a, b :: 0 <= a < |w| && 0 <= b < |w| ==> w[a][b] <= INFINITE_LATENCY
  {
    forall a: nat, b: nat | a < |w| && b < |w|
      ensures 0 <= w[a][b] <= INFINITE_LATENCY && (a == b ==> w[a][b] == 0)
    {
      assert w[a][b] == Entry(m, attach, a, b);
      if Link(m, attach, a, b).Some? {
        LinksStayInside(m, attach, a, b);
      }
    }
  }
}
