/**
 `Mesh_westfirst.makeTopology` (gem5/configs/topologies/Mesh_westfirst.py): the
 links of a west-first mesh, built by loops that draw link ids from one counter.
 */
module MeshTopology {
  import opened Grid

  datatype Controller = Controller(id: nat, dma: bool)

  datatype ExtLink = ExtLink(linkId: nat, node: Controller, router: nat)

  datatype IntLink = IntLink(linkId: nat, src: nat, dst: nat, weight: int)

  datatype Topology = Topology(mesh: Mesh, extLinks: seq<ExtLink>, intLinks: seq<IntLink>)

  /** The ways `makeTopology` raises. */
  datatype Error = DivisionByZero | BadRowCount | RowsDoNotDivide | RemainderNotDma

  datatype Result = Success(topology: Topology) | Failure(error: Error)

  // ----- the links of one direction

  predicate IsLink(m: Mesh, d: Direction, l: IntLink)
    requires m.Valid()
  {
    m.Has(l.src, d) && l.dst == m.Step(l.src, d) && l.weight == LinkWeight(d)
  }

  /** links are numbered from base and hold one link in direction d per key of at,
      which says where. */
  ghost predicate Indexed(m: Mesh, d: Direction, base: nat, links: seq<IntLink>, at: map<nat, nat>)
    requires m.Valid()
  {
    && (forall k :: 0 <= k < |links| ==>
      links[k].linkId == base + k && IsLink(m, d, links[k]) && links[k].src in at && at[links[k].src] == k)
    && (forall r :: r in at ==> at[r] < |links| && links[at[r]].src == r)
  }

  lemma Append(m: Mesh, d: Direction, base: nat, links: seq<IntLink>, at: map<nat, nat>, r: nat)
    requires m.Valid() && Indexed(m, d, base, links, at)
    requires m.Has(r, d) && r !in at && 0 <= m.Step(r, d)
    ensures Indexed(m, d, base, links + [IntLink(base + |links|, r, m.Step(r, d), LinkWeight(d))], at[r := |links|])
  {
  }

  /** Where the loops meet the link leaving r in direction d: the row and column
      of its western or southern end. */
  function Anchor(m: Mesh, d: Direction, r: nat): (int, int)
    requires m.Valid()
  {
    (m.Row(r) - (if d == South then 1 else 0), m.Col(r) - (if d == West then 1 else 0))
  }

  predicate Before(a: int, b: int, a': int, b': int) {
    a < a' || (a == a' && b < b')
  }

  /** at holds exactly the routers met before (row, col) in row-major order. */
  ghost predicate RowMajor(m: Mesh, d: Direction, at: map<nat, nat>, row: nat, col: nat)
    requires m.Valid()
  {
    forall r {:trigger Anchor(m, d, r)} ::
      r in at <==> m.Has(r, d) && Before(Anchor(m, d, r).0, Anchor(m, d, r).1, row, col)
  }

  ghost predicate ColMajor(m: Mesh, d: Direction, at: map<nat, nat>, row: nat, col: nat)
    requires m.Valid()
  {
    forall r {:trigger Anchor(m, d, r)} ::
      r in at <==> m.Has(r, d) && Before(Anchor(m, d, r).1, Anchor(m, d, r).0, col, row)
  }

  /** The source of the link the loops meet at (row, col), and its destination. */
  function Met(m: Mesh, d: Direction, row: nat, col: nat): nat {
    m.Id(row + (if d == South then 1 else 0), col + (if d == West then 1 else 0))
  }

  function MetEnd(m: Mesh, d: Direction, row: nat, col: nat): nat {
    m.Id(row + (if d == North then 1 else 0), col + (if d == East then 1 else 0))
  }

  predicate Meets(m: Mesh, d: Direction, row: nat, col: nat) {
    row < m.rows && col < m.cols && if d == East || d == West then col + 1 < m.cols else row + 1 < m.rows
  }

  lemma AnchorOf(m: Mesh, d: Direction, row: nat, col: nat)
    requires m.Valid() && Meets(m, d, row, col)
    ensures m.Has(Met(m, d, row, col), d) && Anchor(m, d, Met(m, d, row, col)) == (row, col)
    ensures m.Step(Met(m, d, row, col), d) == MetEnd(m, d, row, col)
    ensures forall r :: m.Has(r, d) && Anchor(m, d, r) == (row, col) ==> r == Met(m, d, row, col)
  {
    Decode(m, row + (if d == South then 1 else 0), col + (if d == West then 1 else 0));
    forall r | m.Has(r, d) && Anchor(m, d, r) == (row, col)
      ensures r == Met(m, d, row, col)
    {
      Encode(m, r);
    }
  }

  function MetLink(m: Mesh, d: Direction, id: nat, row: nat, col: nat): IntLink {
    IntLink(id, Met(m, d, row, col), MetEnd(m, d, row, col), LinkWeight(d))
  }

  /** One round of a row-major inner loop whose guard holds, and of a column-major one. */
  lemma MeetInRow(m: Mesh, d: Direction, base: nat, links: seq<IntLink>, at: map<nat, nat>, row: nat, col: nat)
    requires m.Valid() && Indexed(m, d, base, links, at) && Meets(m, d, row, col)
    requires RowMajor(m, d, at, row, col)
    ensures var at' := at[Met(m, d, row, col) := |links|];
            && Indexed(m, d, base, links + [MetLink(m, d, base + |links|, row, col)], at')
            && RowMajor(m, d, at', row, col + 1)
  {
    AnchorOf(m, d, row, col);
    Append(m, d, base, links, at, Met(m, d, row, col));
  }

  lemma MeetInColumn(m: Mesh, d: Direction, base: nat, links: seq<IntLink>, at: map<nat, nat>, row: nat, col: nat)
    requires m.Valid() && Indexed(m, d, base, links, at) && Meets(m, d, row, col)
    requires ColMajor(m, d, at, row, col)
    ensures var at' := at[Met(m, d, row, col) := |links|];
            && Indexed(m, d, base, links + [MetLink(m, d, base + |links|, row, col)], at')
            && ColMajor(m, d, at', row + 1, col)
  {
    AnchorOf(m, d, row, col);
    Append(m, d, base, links, at, Met(m, d, row, col));
  }

  /** Exactly the links of direction d, numbered from base. */
  ghost predicate DirectionLinks(m: Mesh, d: Direction, base: nat, links: seq<IntLink>)
    requires m.Valid()
  {
    && (forall k :: 0 <= k < |links| ==> links[k].linkId == base + k && IsLink(m, d, links[k]))
    && (forall r :: m.Has(r, d) ==> exists k :: 0 <= k < |links| && links[k].src == r)
    && (forall j, k :: 0 <= j < k < |links| ==> links[j].src != links[k].src)
  }

  lemma AllIndexed(m: Mesh, d: Direction, base: nat, links: seq<IntLink>, at: map<nat, nat>)
    requires m.Valid() && Indexed(m, d, base, links, at)
    requires forall r :: m.Has(r, d) ==> r in at
    ensures DirectionLinks(m, d, base, links)
  {
    forall r | m.Has(r, d)
      ensures exists k :: 0 <= k < |links| && links[k].src == r
    {
      assert links[at[r]].src == r;
    }
  }

  lemma AnchorOnMesh(m: Mesh, d: Direction, r: nat)
    requires m.Valid() && m.Has(r, d)
    ensures 0 <= Anchor(m, d, r).0 && 0 <= Anchor(m, d, r).1
    ensures Meets(m, d, Anchor(m, d, r).0, Anchor(m, d, r).1)
  {
    Encode(m, r);
  }

  /** The guard fails, the end of a row, and the end of the loops; then the same
      for column-major loops. */
  lemma SkipInRow(m: Mesh, d: Direction, at: map<nat, nat>, row: nat, col: nat)
    requires m.Valid() && RowMajor(m, d, at, row, col) && !Meets(m, d, row, col)
    ensures RowMajor(m, d, at, row, col + 1)
  {
    forall r
      ensures r in at <==> m.Has(r, d) && Before(Anchor(m, d, r).0, Anchor(m, d, r).1, row, col + 1)
    {
      var anchor := Anchor(m, d, r);
      if m.Has(r, d) {
        AnchorOnMesh(m, d, r);
      }
    }
  }

  lemma EndOfRow(m: Mesh, d: Direction, at: map<nat, nat>, row: nat)
    requires m.Valid() && RowMajor(m, d, at, row, m.cols)
    ensures RowMajor(m, d, at, row + 1, 0)
  {
    forall r | m.Has(r, d) ensures 0 <= Anchor(m, d, r).1 < m.cols { AnchorOnMesh(m, d, r); }
  }

  lemma AllRows(m: Mesh, d: Direction, base: nat, links: seq<IntLink>, at: map<nat, nat>)
    requires m.Valid() && Indexed(m, d, base, links, at) && RowMajor(m, d, at, m.rows, 0)
    ensures DirectionLinks(m, d, base, links)
  {
    forall r | m.Has(r, d) ensures r in at { AnchorOnMesh(m, d, r); }
    AllIndexed(m, d, base, links, at);
  }

  lemma SkipInColumn(m: Mesh, d: Direction, at: map<nat, nat>, row: nat, col: nat)
    requires m.Valid() && ColMajor(m, d, at, row, col) && !Meets(m, d, row, col)
    ensures ColMajor(m, d, at, row + 1, col)
  {
    forall r
      ensures r in at <==> m.Has(r, d) && Before(Anchor(m, d, r).1, Anchor(m, d, r).0, col, row + 1)
    {
      var anchor := Anchor(m, d, r);
      if m.Has(r, d) {
        AnchorOnMesh(m, d, r);
      }
    }
  }

  lemma EndOfColumn(m: Mesh, d: Direction, at: map<nat, nat>, col: nat)
    requires m.Valid() && ColMajor(m, d, at, m.rows, col)
    ensures ColMajor(m, d, at, 0, col + 1)
  {
    forall r | m.Has(r, d) ensures 0 <= Anchor(m, d, r).0 < m.rows { AnchorOnMesh(m, d, r); }
  }

  lemma AllColumns(m: Mesh, d: Direction, base: nat, links: seq<IntLink>, at: map<nat, nat>)
    requires m.Valid() && Indexed(m, d, base, links, at) && ColMajor(m, d, at, 0, m.cols)
    ensures DirectionLinks(m, d, base, links)
  {
    forall r | m.Has(r, d) ensures r in at { AnchorOnMesh(m, d, r); }
    AllIndexed(m, d, base, links, at);
  }

  method EastLinks(m: Mesh, count0: nat) returns (links: seq<IntLink>, count: nat)
    requires m.Valid()
    ensures DirectionLinks(m, East, count0, links) && count == count0 + |links|
  {
    links, count := [], count0;
    ghost var at: map<nat, nat> := map[];
    for row := 0 to m.rows
      invariant Indexed(m, East, count0, links, at) && count == count0 + |links|
      invariant RowMajor(m, East, at, row, 0)
    {
      for col := 0 to m.cols
        invariant Indexed(m, East, count0, links, at) && count == count0 + |links|
        invariant RowMajor(m, East, at, row, col)
      {
        if col + 1 < m.cols {
          var eastOut := m.Id(row, col);
          var westIn := m.Id(row, col + 1);
          MeetInRow(m, East, count0, links, at, row, col);
          links := links + [IntLink(count, eastOut, westIn, 2)];
          at := at[eastOut := |links| - 1];
          count := count + 1;
        } else {
          SkipInRow(m, East, at, row, col);
        }
      }
      EndOfRow(m, East, at, row);
    }
    AllRows(m, East, count0, links, at);
  }

  method WestLinks(m: Mesh, count0: nat) returns (links: seq<IntLink>, count: nat)
    requires m.Valid()
    ensures DirectionLinks(m, West, count0, links) && count == count0 + |links|
  {
    links, count := [], count0;
    ghost var at: map<nat, nat> := map[];
    for row := 0 to m.rows
      invariant Indexed(m, West, count0, links, at) && count == count0 + |links|
      invariant RowMajor(m, West, at, row, 0)
    {
      for col := 0 to m.cols
        invariant Indexed(m, West, count0, links, at) && count == count0 + |links|
        invariant RowMajor(m, West, at, row, col)
      {
        if col + 1 < m.cols {
          var eastIn := m.Id(row, col);
          var westOut := m.Id(row, col + 1);
          MeetInRow(m, West, count0, links, at, row, col);
          links := links + [IntLink(count, westOut, eastIn, 1)];
          at := at[westOut := |links| - 1];
          count := count + 1;
        } else {
          SkipInRow(m, West, at, row, col);
        }
      }
      EndOfRow(m, West, at, row);
    }
    AllRows(m, West, count0, links, at);
  }

  method NorthLinks(m: Mesh, count0: nat) returns (links: seq<IntLink>, count: nat)
    requires m.Valid()
    ensures DirectionLinks(m, North, count0, links) && count == count0 + |links|
  {
    links, count := [], count0;
    ghost var at: map<nat, nat> := map[];
    for col := 0 to m.cols
      invariant Indexed(m, North, count0, links, at) && count == count0 + |links|
      invariant ColMajor(m, North, at, 0, col)
    {
      for row := 0 to m.rows
        invariant Indexed(m, North, count0, links, at) && count == count0 + |links|
        invariant ColMajor(m, North, at, row, col)
      {
        if row + 1 < m.rows {
          var northOut := m.Id(row, col);
          var southIn := m.Id(row + 1, col);
          MeetInColumn(m, North, count0, links, at, row, col);
          links := links + [IntLink(count, northOut, southIn, 2)];
          at := at[northOut := |links| - 1];
          count := count + 1;
        } else {
          SkipInColumn(m, North, at, row, col);
        }
      }
      EndOfColumn(m, North, at, col);
    }
    AllColumns(m, North, count0, links, at);
  }

  method SouthLinks(m: Mesh, count0: nat) returns (links: seq<IntLink>, count: nat)
    requires m.Valid()
    ensures DirectionLinks(m, South, count0, links) && count == count0 + |links|
  {
    links, count := [], count0;
    ghost var at: map<nat, nat> := map[];
    for col := 0 to m.cols
      invariant Indexed(m, South, count0, links, at) && count == count0 + |links|
      invariant ColMajor(m, South, at, 0, col)
    {
      for row := 0 to m.rows
        invariant Indexed(m, South, count0, links, at) && count == count0 + |links|
        invariant ColMajor(m, South, at, row, col)
      {
        if row + 1 < m.rows {
          var northIn := m.Id(row, col);
          var southOut := m.Id(row + 1, col);
          MeetInColumn(m, South, count0, links, at, row, col);
          links := links + [IntLink(count, southOut, northIn, 2)];
          at := at[southOut := |links| - 1];
          count := count + 1;
        } else {
          SkipInColumn(m, South, at, row, col);
        }
      }
      EndOfColumn(m, South, at, col);
    }
    AllColumns(m, South, count0, links, at);
  }

  // ----- the whole topology

  ghost predicate Directed(m: Mesh, ds: set<Direction>, l: IntLink)
    requires m.Valid()
  {
    exists d :: d in ds && IsLink(m, d, l)
  }

  /** Some link leaves r in direction d. */
  ghost predicate Leaves(m: Mesh, links: seq<IntLink>, r: nat, d: Direction)
    requires m.Valid()
  {
    exists k :: 0 <= k < |links| && links[k].src == r && IsLink(m, d, links[k])
  }

  /** One link per router and direction in ds with a neighbour there, with the weight
      of its direction, and nothing else; no two join the same ordered pair of
      routers; ids count up from base. */
  ghost predicate LinksToward(m: Mesh, ds: set<Direction>, base: nat, links: seq<IntLink>)
    requires m.Valid()
  {
    && (forall k :: 0 <= k < |links| ==> links[k].linkId == base + k)
    && (forall k :: 0 <= k < |links| ==> Directed(m, ds, links[k]))
    && (forall r, d {:trigger Leaves(m, links, r, d)} :: d in ds && m.Has(r, d) ==> Leaves(m, links, r, d))
    && (forall j, k :: 0 <= j < k < |links| ==> links[j].src != links[k].src || links[j].dst != links[k].dst)
  }

  ghost predicate MeshLinks(m: Mesh, base: nat, links: seq<IntLink>)
    requires m.Valid()
  {
    LinksToward(m, {East, West, North, South}, base, links)
  }

  /** Links in different directions do not connect the same routers. */
  lemma OtherDirection(m: Mesh, ds: set<Direction>, a: IntLink, d: Direction, b: IntLink)
    requires m.Valid() && d !in ds && Directed(m, ds, a) && IsLink(m, d, b)
    ensures a.src != b.src || a.dst != b.dst
  {
    if a.src == b.src {
      var e :| e in ds && IsLink(m, e, a);
      StepsDiffer(m, a.src, d, e);
    }
  }

  lemma LinkLeaves(m: Mesh, ds: set<Direction>, base: nat, links: seq<IntLink>, d: Direction, more: seq<IntLink>,
                   r: nat, e: Direction)
    requires m.Valid() && e in ds + {d} && m.Has(r, e)
    requires LinksToward(m, ds, base, links) && DirectionLinks(m, d, base + |links|, more)
    ensures Leaves(m, links + more, r, e)
  {
    var all := links + more;
    if e == d {
      var k :| 0 <= k < |more| && more[k].src == r;
      assert all[|links| + k] == more[k];
    } else {
      assert Leaves(m, links, r, e);
      var k :| 0 <= k < |links| && links[k].src == r && IsLink(m, e, links[k]);
      assert all[k] == links[k];
    }
  }

  lemma LinksApart(m: Mesh, ds: set<Direction>, base: nat, links: seq<IntLink>, d: Direction, more: seq<IntLink>,
                   j: nat, k: nat)
    requires m.Valid() && d !in ds && j < k < |links + more|
    requires LinksToward(m, ds, base, links) && DirectionLinks(m, d, base + |links|, more)
    ensures var all := links + more; all[j].src != all[k].src || all[j].dst != all[k].dst
  {
    if j < |links| <= k {
      OtherDirection(m, ds, links[j], d, more[k - |links|]);
    }
  }

  lemma AddDirection(m: Mesh, ds: set<Direction>, base: nat, links: seq<IntLink>, d: Direction, more: seq<IntLink>)
    requires m.Valid() && d !in ds
    requires LinksToward(m, ds, base, links) && DirectionLinks(m, d, base + |links|, more)
    ensures LinksToward(m, ds + {d}, base, links + more)
  {
    var all := links + more;
    forall r, e | e in ds + {d} && m.Has(r, e)
      ensures Leaves(m, all, r, e)
    {
      LinkLeaves(m, ds, base, links, d, more, r, e);
    }
    forall k | 0 <= k < |all|
      ensures all[k].linkId == base + k && Directed(m, ds + {d}, all[k])
    {
      assert if k < |links| then Directed(m, ds, links[k]) else IsLink(m, d, more[k - |links|]);
    }
    forall j, k | 0 <= j < k < |all|
      ensures all[j].src != all[k].src || all[j].dst != all[k].dst
    {
      LinksApart(m, ds, base, links, d, more, j, k);
    }
  }

  /** The router of the k-th controller: round robin, leftovers on router 0. */
  function AttachedTo(nodes: nat, routers: nat, k: nat): nat
    requires routers > 0
  {
    if k < nodes - nodes % routers then k % routers else 0
  }

  /** How many of the first k controllers go to router r. */
  function CountAt(nodes: nat, routers: nat, r: nat, k: nat): nat
    requires routers > 0
  {
    if k == 0 then 0
    else CountAt(nodes, routers, r, k - 1) + if AttachedTo(nodes, routers, k - 1) == r then 1 else 0
  }

  /** After q rounds and x more controllers. */
  lemma {:induction false} RoundsSpread(nodes: nat, routers: nat, r: nat, q: nat, x: nat)
    requires r < routers && x < routers && x + Times(q, routers) <= nodes - nodes % routers
    ensures CountAt(nodes, routers, r, x + Times(q, routers)) == q + if r < x then 1 else 0
    decreases q, x
  {
    if x > 0 {
      RoundsSpread(nodes, routers, r, q, x - 1);
      QuotientOf(q, routers, x - 1);
      Arithmetic(x - 1 + Times(q, routers), routers);
    } else if q > 0 {
      var k := routers - 1 + Times(q - 1, routers);
      RoundsSpread(nodes, routers, r, q - 1, routers - 1);
      QuotientOf(q - 1, routers, routers - 1);
      Arithmetic(k, routers);
      assert Times(q, routers) == k + 1;
    }
  }

  lemma {:induction false} RestAtRouter0(nodes: nat, routers: nat, r: nat, k: nat)
    requires routers > 0 && nodes - nodes % routers <= k <= nodes
    ensures CountAt(nodes, routers, r, k) ==
      CountAt(nodes, routers, r, nodes - nodes % routers) + if r == 0 then k - (nodes - nodes % routers) else 0
  {
    if k > nodes - nodes % routers {
      RestAtRouter0(nodes, routers, r, k - 1);
    }
  }

  /** The controllers are spread evenly, and those that remain are at router 0. */
  lemma EvenSpread(nodes: nat, routers: nat, r: nat)
    requires r < routers
    ensures CountAt(nodes, routers, r, nodes) == nodes / routers + if r == 0 then nodes % routers else 0
  {
    var q := nodes / routers;
    Arithmetic(nodes, routers);
    Euclid(nodes, routers);
    RoundsSpread(nodes, routers, r, q, 0);
    RestAtRouter0(nodes, routers, r, nodes);
  }

  ghost predicate Built(nodes: seq<Controller>, m: Mesh, t: Topology)
    requires m.Valid() && m.Size() > 0
  {
    && t.mesh == m
    && |t.extLinks| == |nodes|
    && (forall k :: 0 <= k < |nodes| ==>
      t.extLinks[k] == ExtLink(k, nodes[k], AttachedTo(|nodes|, m.Size(), k)))
    && MeshLinks(m, |nodes|, t.intLinks)
  }

  /** The source's arguments describe a mesh it accepts. */
  predicate Accepted(nodes: seq<Controller>, numRouters: int, numRows: int) {
    && 0 < numRows <= numRouters
    && numRouters % numRows == 0
    && forall k :: |nodes| - |nodes| % numRouters <= k < |nodes| ==> nodes[k].dma
  }

  /** The nodes to distribute evenly and the remainder. */
  method SplitNodes(nodes: seq<Controller>, remainder: nat) returns (even: seq<Controller>, rest: seq<Controller>)
    requires remainder <= |nodes|
    ensures even == nodes[..|nodes| - remainder] && rest == nodes[|nodes| - remainder..]
  {
    even, rest := [], [];
    for i := 0 to |nodes|
      invariant if i <= |nodes| - remainder then even == nodes[..i] && rest == []
        else even == nodes[..|nodes| - remainder] && rest == nodes[|nodes| - remainder..i]
    {
      if i < |nodes| - remainder {
        even := even + [nodes[i]];
      } else {
        rest := rest + [nodes[i]];
      }
    }
  }

  ghost predicate AreAttached(nodes: seq<Controller>, numRouters: nat, links: seq<ExtLink>)
    requires numRouters > 0
  {
    |links| <= |nodes| &&
    forall k :: 0 <= k < |links| ==> links[k] == ExtLink(k, nodes[k], AttachedTo(|nodes|, numRouters, k))
  }

  method AttachEvenly(nodes: seq<Controller>, numRouters: nat, even: seq<Controller>) returns (links: seq<ExtLink>)
    requires numRouters > 0 && even == nodes[..|nodes| - |nodes| % numRouters]
    ensures AreAttached(nodes, numRouters, links) && |links| == |even|
  {
    links := [];
    var cntrlsPerRouter := |nodes| / numRouters;
    for i := 0 to |even|
      invariant AreAttached(nodes, numRouters, links) && |links| == i
    {
      var level, router := i / numRouters, i % numRouters;
      LevelInRange(|nodes|, numRouters, i);
      assert level < cntrlsPerRouter;
      links := links + [ExtLink(|links|, even[i], router)];
    }
  }

  /** The external links: node i of the evenly distributed ones goes to router i mod
      num_routers, the remainder (which must be DMA controllers) to router 0. */
  method AttachNodes(nodes: seq<Controller>, numRouters: int) returns (links: seq<ExtLink>, ok: bool, count: nat)
    requires numRouters > 0
    ensures ok <==> forall k :: |nodes| - |nodes| % numRouters <= k < |nodes| ==> nodes[k].dma
    ensures ok ==> count == |links| == |nodes|
    ensures ok ==> forall k :: 0 <= k < |nodes| ==>
      links[k] == ExtLink(k, nodes[k], AttachedTo(|nodes|, numRouters, k))
  {
    var remainder := |nodes| % numRouters;
    var even, rest := SplitNodes(nodes, remainder);
    links := AttachEvenly(nodes, numRouters, even);
    count, ok := |links|, true;
    for i := 0 to |rest|
      invariant count == |links| == |even| + i && AreAttached(nodes, numRouters, links)
      invariant forall k :: |even| <= k < count ==> nodes[k].dma
    {
      assert nodes[count] == rest[i];
      if !rest[i].dma {
        ok := false;
        return;
      }
      assert i < remainder;
      links := links + [ExtLink(count, rest[i], 0)];
      count := count + 1;
    }
  }

  lemma LevelInRange(n: nat, c: nat, i: nat)
    requires c > 0 && i < n - n % c
    ensures i / c < n / c
  {
    if n / c <= i / c {
      MulMono(n / c, i / c, c);
    }
  }

  lemma FourDirections(m: Mesh, base: nat, e: seq<IntLink>, w: seq<IntLink>, n: seq<IntLink>, s: seq<IntLink>)
    requires m.Valid()
    requires DirectionLinks(m, East, base, e)
    requires DirectionLinks(m, West, base + |e|, w)
    requires DirectionLinks(m, North, base + |e| + |w|, n)
    requires DirectionLinks(m, South, base + |e| + |w| + |n|, s)
    ensures MeshLinks(m, base, e + w + n + s)
  {
    AddDirection(m, {}, base, [], East, e);
    assert [] + e == e && {} + {East} == {East};
    AddDirection(m, {East}, base, e, West, w);
    assert {East} + {West} == {East, West};
    AddDirection(m, {East, West}, base, e + w, North, n);
    assert {East, West} + {North} == {East, West, North};
    AddDirection(m, {East, West, North}, base, e + w + n, South, s);
    assert {East, West, North} + {South} == {East, West, North, South};
  }

  /** The four pairs of loops, one after the other. */
  method ConnectRouters(m: Mesh, count0: nat) returns (links: seq<IntLink>, count: nat)
    requires m.Valid()
    ensures MeshLinks(m, count0, links) && count == count0 + |links|
  {
    var east, west, north, south;
    east, count := EastLinks(m, count0);
    west, count := WestLinks(m, count);
    north, count := NorthLinks(m, count);
    south, count := SouthLinks(m, count);
    FourDirections(m, count0, east, west, north, south);
    links := east + west + north + south;
  }

  lemma DivisionIsExact(a: nat, b: nat)
    requires 0 < b <= a
    ensures a % b == 0 <==> (a / b) * b == a
    ensures 0 < a / b
  {
    assert a == (a / b) * b + a % b;
  }

  method MakeTopology(nodes: seq<Controller>, numRouters: int, numRows: int) returns (r: Result)
    ensures r.Success? <==> Accepted(nodes, numRouters, numRows)
    ensures r.Success? ==>
      var m := Mesh(numRows, numRouters / numRows);
      m.Valid() && m.Size() == numRouters && Built(nodes, m, r.topology)
  {
    if numRouters == 0 {
      return Failure(DivisionByZero);
    }
    if !(numRows > 0 && numRows <= numRouters) {
      return Failure(BadRowCount);
    }
    var numColumns := numRouters / numRows;
    DivisionIsExact(numRouters, numRows);
    if numColumns * numRows != numRouters {
      return Failure(RowsDoNotDivide);
    }
    var m := Mesh(numRows, numColumns);
    TimesIsProduct(numRows, numColumns);
    var extLinks, ok, linkCount := AttachNodes(nodes, numRouters);
    if !ok {
      return Failure(RemainderNotDma);
    }
    var intLinks;
    intLinks, linkCount := ConnectRouters(m, linkCount);
    r := Success(Topology(m, extLinks, intLinks));
  }
}
