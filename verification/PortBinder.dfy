/**
 Binding ports when a system is rebuilt from its configuration file
 (gem5/configs/example/read_config.py, `ConfigManager.bind_ports`). Binding a port vector
 always uses its next free index, so the connections, listed in both directions, have to
 be made in an order that meets every vector at the right index.
 */
module PortBinder {
  import opened Sequences
  import Sorting
  import opened Strings

  /** A port vector, and one port of it. */
  datatype Vector = Vector(owner: string, name: string)

  datatype Port = Port(vector: Vector, index: nat)

  datatype Connection = Connection(from: Port, to: Port) {
    function Reversed(): Connection {
      Connection(to, from)
    }
  }

  // ----- the order of `PortConnection.__cmp__` and of pairs of them

  function Then(c: int, d: int): int {
    if c != 0 then c else d
  }

  function CompareInts(a: int, b: int): int {
    if a < b then -1 else if a > b then 1 else 0
  }

  function ComparePorts(a: Port, b: Port): int {
    Then(CompareStrings(a.vector.owner, b.vector.owner),
         Then(CompareStrings(a.vector.name, b.vector.name), CompareInts(a.index, b.index)))
  }

  function Compare(a: Connection, b: Connection): int {
    Then(ComparePorts(a.from, b.from), ComparePorts(a.to, b.to))
  }

  lemma PortsOrdered(a: Port, b: Port, c: Port)
    ensures ComparePorts(a, b) == -ComparePorts(b, a)
    ensures ComparePorts(a, b) == 0 <==> a == b
    ensures ComparePorts(a, b) <= 0 && ComparePorts(b, c) <= 0 ==> ComparePorts(a, c) <= 0
  {
    StringsOrdered(a.vector.owner, b.vector.owner, c.vector.owner);
    StringsOrdered(b.vector.owner, c.vector.owner, a.vector.owner);
    StringsOrdered(c.vector.owner, a.vector.owner, b.vector.owner);
    StringsOrdered(a.vector.name, b.vector.name, c.vector.name);
    StringsOrdered(b.vector.name, c.vector.name, a.vector.name);
    StringsOrdered(c.vector.name, a.vector.name, b.vector.name);
  }

  /** The comparison is a total order. */
  lemma ConnectionsOrdered(a: Connection, b: Connection, c: Connection)
    ensures Compare(a, b) == -Compare(b, a)
    ensures Compare(a, b) == 0 <==> a == b
    ensures Compare(a, b) <= 0 && Compare(b, c) <= 0 ==> Compare(a, c) <= 0
  {
    PortsOrdered(a.from, b.from, c.from);
    PortsOrdered(b.from, c.from, a.from);
    PortsOrdered(c.from, a.from, b.from);
    PortsOrdered(a.to, b.to, c.to);
    PortsOrdered(b.to, c.to, a.to);
    PortsOrdered(c.to, a.to, b.to);
  }

  /** Ports go by owner, then by name, then by index, the lower first; connections by their
      `from` ends, then by their `to` ends. */
  lemma PortsCompareIff(a: Port, b: Port)
    ensures ComparePorts(a, b) < 0 <==>
      || CompareStrings(a.vector.owner, b.vector.owner) < 0
      || (a.vector.owner == b.vector.owner && CompareStrings(a.vector.name, b.vector.name) < 0)
      || (a.vector == b.vector && a.index < b.index)
  {
    StringsOrdered(a.vector.owner, b.vector.owner, []);
    StringsOrdered(a.vector.name, b.vector.name, []);
  }

  lemma ConnectionsCompareIff(a: Connection, b: Connection)
    ensures Compare(a, b) < 0 <==> ComparePorts(a.from, b.from) < 0 || (a.from == b.from && ComparePorts(a.to, b.to) < 0)
  {
    PortsOrdered(a.from, b.from, a.from);
  }

  predicate AtMost(a: Connection, b: Connection) {
    Compare(a, b) <= 0
  }

  function Sort(s: seq<Connection>): seq<Connection> {
    Sorting.Sort(AtMost, s)
  }

  predicate Sorted(s: seq<Connection>) {
    forall i, j :: 0 <= i < j < |s| ==> Compare(s[i], s[j]) <= 0
  }

  lemma AtMostOrders()
    ensures Sorting.Orders(AtMost)
  {
    forall a, b ensures AtMost(a, b) || AtMost(b, a) {
      ConnectionsOrdered(a, b, a);
    }
    forall a, b, c | AtMost(a, b) && AtMost(b, c) ensures AtMost(a, c) {
      ConnectionsOrdered(a, b, c);
    }
  }

  lemma SortCorrect(s: seq<Connection>)
    ensures multiset(Sort(s)) == multiset(s) && Sorted(Sort(s)) && |Sort(s)| == |s|
  {
    AtMostOrders();
    Sorting.SortCorrect(AtMost, s);
    forall i, j | 0 <= i < j < |Sort(s)| ensures Compare(Sort(s)[i], Sort(s)[j]) <= 0 {
      assert AtMost(Sort(s)[i], Sort(s)[j]);
    }
  }

  // ----- the pass over the sorted connections

  function One(b: bool): nat {
    if b then 1 else 0
  }

  /** How often the connections of made bind vector v. */
  function Uses(made: seq<Connection>, v: Vector): nat {
    if made == [] then 0
    else
      var c := made[|made| - 1];
      Uses(made[..|made| - 1], v) + One(c.from.vector == v) + One(c.to.vector == v)
  }

  /** Both ends are the next index of their vectors. */
  predicate Fits(made: seq<Connection>, c: Connection) {
    Uses(made, c.from.vector) == c.from.index && Uses(made, c.to.vector) == c.to.index
  }

  /** The connections made on the way through order: every one that fits. */
  function Greedy(order: seq<Connection>): seq<Connection> {
    if order == [] then []
    else
      var made, c := Greedy(order[..|order| - 1]), order[|order| - 1];
      if Fits(made, c) then made + [c] else made
  }

  /** Each connection of made fitted when it was made. */
  ghost predicate Orderly(made: seq<Connection>) {
    forall n :: 0 <= n < |made| ==> Fits(made[..n], made[n])
  }

  /** c binds port p. */
  predicate Binds(c: Connection, p: Port) {
    c.from == p || c.to == p
  }

  lemma {:induction false} GreedyIsOrderly(order: seq<Connection>)
    ensures Orderly(Greedy(order))
    ensures forall c :: c in Greedy(order) ==> c in order
    ensures |Greedy(order)| <= |order|
  {
    if order != [] {
      var init, c := order[..|order| - 1], order[|order| - 1];
      GreedyIsOrderly(init);
      OrderlyOneMore(Greedy(init), c);
      assert order == init + [c];
    }
  }

  lemma OrderlyOneMore(made: seq<Connection>, c: Connection)
    requires Orderly(made)
    ensures Fits(made, c) ==> Orderly(made + [c])
  {
    var all := made + [c];
    assert forall n :: 0 <= n <= |made| ==> all[..n] == made[..n];
    assert made[..|made|] == made;
  }

  lemma {:induction false} UsesGrow(made: seq<Connection>, n: nat, v: Vector)
    requires n < |made|
    ensures Uses(made[..n], v) + One(made[n].from.vector == v) + One(made[n].to.vector == v) <= Uses(made, v)
  {
    if n < |made| - 1 {
      var init := made[..|made| - 1];
      UsesGrow(init, n, v);
      assert init[..n] == made[..n];
    }
  }

  /** A port that is bound is below its vector's count. */
  lemma BoundIsCounted(made: seq<Connection>, n: nat, p: Port)
    requires Orderly(made) && n < |made| && Binds(made[n], p)
    ensures p.index < Uses(made, p.vector)
  {
    UsesGrow(made, n, p.vector);
    assert Fits(made[..n], made[n]);
  }

  /** No vector is connected to itself. */
  predicate NoLoops(s: seq<Connection>) {
    forall n :: 0 <= n < |s| ==> s[n].from.vector != s[n].to.vector
  }

  /** A port below its vector's count is bound. */
  lemma {:induction false} CountedIsBound(made: seq<Connection>, p: Port) returns (n: nat)
    requires Orderly(made) && NoLoops(made) && p.index < Uses(made, p.vector)
    ensures n < |made| && Binds(made[n], p)
    decreases |made|
  {
    var m := |made| - 1;
    var init := made[..m];
    assert Fits(made[..m], made[m]);
    if p.index < Uses(init, p.vector) {
      assert forall k :: 0 <= k < m ==> init[..k] == made[..k];
      n := CountedIsBound(init, p);
    } else {
      n := m;
    }
  }

  /** No port is bound twice. */
  lemma BoundOnce(made: seq<Connection>, m: nat, n: nat, p: Port)
    requires Orderly(made) && m < |made| && n < |made| && Binds(made[m], p) && Binds(made[n], p)
    ensures m == n
  {
    var a, b := if m < n then m else n, if m < n then n else m;
    if a < b {
      var before := made[..b];
      assert forall k :: 0 <= k < b ==> before[..k] == made[..k];
      assert Fits(before, made[b]);
      BoundIsCounted(before, a, p);
    }
  }

  // ----- what the caller provides

  /** All connections in both directions, each once, and no vector connected to itself. */
  ghost predicate WellListed(conns: seq<Connection>) {
    && (forall i, j :: 0 <= i < j < |conns| ==> conns[i] != conns[j])
    && (forall c :: c in conns ==> c.Reversed() in conns)
    && NoLoops(conns)
  }

  /** Exactly one direction of every connection is in s. */
  ghost predicate OneDirectionEach(conns: seq<Connection>, s: set<Connection>) {
    && (forall c :: c in s ==> c in conns)
    && (forall c :: c in conns ==> (c in s <==> c.Reversed() !in s))
  }

  ghost function Reverses(s: set<Connection>): (r: set<Connection>)
    ensures forall c :: c in r <==> c.Reversed() in s
  {
    assert forall c: Connection :: c.Reversed().Reversed() == c;
    set c | c in s :: c.Reversed()
  }

  lemma {:induction false} CardinalityOfElements(s: seq<Connection>)
    requires forall i, j :: 0 <= i < j < |s| ==> s[i] != s[j]
    ensures |Elements(s)| == |s|
  {
    if s != [] {
      var init, last := s[..|s| - 1], s[|s| - 1];
      CardinalityOfElements(init);
      assert Elements(s) == Elements(init) + {last} && last !in Elements(init);
    }
  }

  lemma {:induction false} CardinalityOfReverses(s: set<Connection>)
    ensures |Reverses(s)| == |s|
  {
    if s != {} {
      var c :| c in s;
      CardinalityOfReverses(s - {c});
      assert Reverses(s) == Reverses(s - {c}) + {c.Reversed()} && c.Reversed() !in Reverses(s - {c});
    } else {
      assert Reverses(s) == {};
    }
  }

  lemma OrderlyIsDistinct(made: seq<Connection>)
    requires Orderly(made)
    ensures forall i, j :: 0 <= i < j < |made| ==> made[i] != made[j] && made[i] != made[j].Reversed()
  {
    forall i, j | 0 <= i < j < |made| ensures made[i] != made[j] && made[i] != made[j].Reversed() {
      if Binds(made[j], made[i].from) {
        BoundOnce(made, i, j, made[i].from);
      }
    }
  }

  /** Both directions of what was made: how many, and all listed. */
  lemma BothDirections(conns: seq<Connection>, made: seq<Connection>)
    requires WellListed(conns) && Orderly(made) && NoLoops(made) && forall c :: c in made ==> c in conns
    ensures var fwd := Elements(made);
      && fwd !! Reverses(fwd) && fwd + Reverses(fwd) <= Elements(conns)
      && |fwd + Reverses(fwd)| == 2 * |made|
  {
    var fwd := Elements(made);
    OrderlyIsDistinct(made);
    CardinalityOfElements(made);
    CardinalityOfReverses(fwd);
    forall c | c in fwd
      ensures c !in Reverses(fwd)
    {
      NotBothMade(made, c);
    }
    ReversesAreListed(conns, fwd);
  }

  lemma ReversesAreListed(conns: seq<Connection>, fwd: set<Connection>)
    requires WellListed(conns) && fwd <= Elements(conns)
    ensures Reverses(fwd) <= Elements(conns)
  {
    forall c | c in Reverses(fwd)
      ensures c in conns
    {
      assert c.Reversed() in conns && c.Reversed().Reversed() == c;
    }
  }

  lemma OneEachIsAll(conns: seq<Connection>, fwd: set<Connection>)
    requires WellListed(conns) && fwd <= Elements(conns) && fwd !! Reverses(fwd)
    ensures OneDirectionEach(conns, fwd) <==> fwd + Reverses(fwd) == Elements(conns)
  {
    ReversesAreListed(conns, fwd);
    if fwd + Reverses(fwd) == Elements(conns) {
      forall c | c in conns
        ensures c in fwd <==> c.Reversed() !in fwd
      {
        assert c in fwd + Reverses(fwd);
      }
    }
  }

  /** Half the connections made means one direction of each made. */
  lemma HalfIsOneEach(conns: seq<Connection>, made: seq<Connection>)
    requires WellListed(conns) && Orderly(made) && NoLoops(made) && forall c :: c in made ==> c in conns
    ensures |made| * 2 == |conns| <==> OneDirectionEach(conns, Elements(made))
  {
    var fwd := Elements(made);
    BothDirections(conns, made);
    OneEachIsAll(conns, fwd);
    CardinalityOfElements(conns);
    if |made| * 2 == |conns| {
      SubsetOfSameSize(fwd + Reverses(fwd), Elements(conns));
    }
  }

  lemma NotBothMade(made: seq<Connection>, c: Connection)
    requires Orderly(made) && NoLoops(made) && c in made
    ensures c.Reversed() !in made
  {
    var i :| 0 <= i < |made| && made[i] == c;
    if j :| 0 <= j < |made| && made[j] == c.Reversed() {
      BoundOnce(made, i, j, c.from);
    }
  }

  lemma SubsetOfSameSize(a: set<Connection>, b: set<Connection>)
    requires a <= b && |a| == |b|
    ensures a == b
  {
    assert |b - a| == |b| - |a|;
  }

  // ----- soundness

  /** The connections of made that bind v bind its ports 0, 1, 2, ... in this order: the
      one made after k others binds index k. */
  ghost predicate InIndexOrder(made: seq<Connection>, v: Vector) {
    forall n :: 0 <= n < |made| ==>
      && (made[n].from.vector == v ==> made[n].from.index == Uses(made[..n], v))
      && (made[n].to.vector == v ==> made[n].to.index == Uses(made[..n], v))
  }

  ghost predicate BoundExactlyOnce(made: seq<Connection>, p: Port) {
    exists n {:trigger made[n]} :: 0 <= n < |made| && Binds(made[n], p) && OnlyAt(made, p, n)
  }

  ghost predicate OnlyAt(made: seq<Connection>, p: Port, n: nat) {
    forall m :: 0 <= m < |made| && Binds(made[m], p) ==> m == n
  }

  /** If nothing is raised, exactly one direction of every connection is made, every
      vector is bound in index order, and every listed port is bound exactly once. */
  lemma BindingIsSound(conns: seq<Connection>, order: seq<Connection>)
    requires WellListed(conns) && multiset(order) == multiset(conns)
    requires |Greedy(order)| * 2 == |conns|
    ensures OneDirectionEach(conns, Elements(Greedy(order)))
    ensures forall v :: InIndexOrder(Greedy(order), v)
    ensures forall c :: c in conns ==> BoundExactlyOnce(Greedy(order), c.from)
  {
    var made := Greedy(order);
    GreedyMakesListed(conns, order);
    HalfIsOneEach(conns, made);
    forall v ensures InIndexOrder(made, v) {
      assert forall n :: 0 <= n < |made| ==> Fits(made[..n], made[n]);
    }
    forall c | c in conns
      ensures BoundExactlyOnce(made, c.from)
    {
      var d := if c in Elements(made) then c else c.Reversed();
      assert d in Elements(made);
      var n :| 0 <= n < |made| && made[n] == d;
      forall m | 0 <= m < |made| && Binds(made[m], c.from) ensures m == n {
        BoundOnce(made, m, n, c.from);
      }
    }
  }

  lemma GreedyMakesListed(conns: seq<Connection>, order: seq<Connection>)
    requires WellListed(conns) && multiset(order) == multiset(conns)
    ensures Orderly(Greedy(order)) && NoLoops(Greedy(order))
    ensures forall c :: c in Greedy(order) ==> c in conns
  {
    GreedyIsOrderly(order);
    forall c | c in Greedy(order) ensures c in conns {
      assert c in multiset(order);
    }
    forall n | 0 <= n < |Greedy(order)| ensures Greedy(order)[n].from.vector != Greedy(order)[n].to.vector {
      assert Greedy(order)[n] in Greedy(order);
    }
  }

  // ----- exactly when it succeeds

  /** The connections of order that are in chosen. */
  ghost function Keep(order: seq<Connection>, chosen: set<Connection>): seq<Connection> {
    if order == [] then []
    else
      var kept, c := Keep(order[..|order| - 1], chosen), order[|order| - 1];
      if c in chosen then kept + [c] else kept
  }

  lemma {:induction false} KeepElements(order: seq<Connection>, chosen: set<Connection>)
    ensures forall c :: c in Keep(order, chosen) <==> c in order && c in chosen
  {
    if order != [] {
      KeepElements(order[..|order| - 1], chosen);
      assert order == order[..|order| - 1] + [order[|order| - 1]];
    }
  }

  /** One direction of every connection can be chosen beforehand such that, in the given
      order, each chosen one fits when its turn comes. */
  ghost predicate Orderable(conns: seq<Connection>, order: seq<Connection>) {
    exists chosen :: OneDirectionEach(conns, chosen) && Orderly(Keep(order, chosen))
  }

  /** c or its reverse has been made. */
  predicate Made(made: seq<Connection>, c: Connection) {
    c in made || c.Reversed() in made
  }

  lemma KeepPrefix(order: seq<Connection>, chosen: set<Connection>)
    requires order != [] && Orderly(Keep(order, chosen))
    ensures Orderly(Keep(order[..|order| - 1], chosen))
    ensures order[|order| - 1] in chosen ==> Fits(Keep(order[..|order| - 1], chosen), order[|order| - 1])
  {
    var init := Keep(order[..|order| - 1], chosen);
    if order[|order| - 1] in chosen {
      var kept := Keep(order, chosen);
      assert kept[..|init|] == init;
      assert Fits(kept[..|init|], kept[|init|]);
      assert forall n :: 0 <= n < |init| ==> init[..n] == kept[..n] && init[n] == kept[n];
    }
  }

  /** If no two chosen connections share a port, whatever the choice has made, the greedy
      pass has made as well. */
  lemma {:induction false} GreedyKeepsUp(conns: seq<Connection>, order: seq<Connection>, chosen: set<Connection>)
    requires WellListed(conns) && OneDirectionEach(conns, chosen) && forall c :: c in order ==> c in conns
    requires Orderly(Keep(order, chosen))
    requires forall a, b, p :: a in chosen && b in chosen && Binds(a, p) && Binds(b, p) ==> a == b
    ensures forall c :: c in order && c in chosen ==> Made(Greedy(order), c)
  {
    if order != [] {
      var init, c := order[..|order| - 1], order[|order| - 1];
      assert order == init + [c];
      KeepPrefix(order, chosen);
      GreedyKeepsUp(conns, init, chosen);
      var made := Greedy(init);
      forall d | d in init && d in chosen ensures Made(Greedy(order), d) {
        assert Made(made, d);
      }
      if c in chosen && !Made(made, c) {
        GreedyReaches(conns, init, chosen, c, c.from);
        GreedyReaches(conns, init, chosen, c, c.to);
      }
    }
  }

  lemma SharedPortIsMade(conns: seq<Connection>, chosen: set<Connection>, made: seq<Connection>, n: nat, c: Connection, p: Port)
    requires OneDirectionEach(conns, chosen) && (forall d :: d in made ==> d in conns) && n < |made|
    requires c in chosen && Binds(c, p) && Binds(made[n], p)
    requires forall a, b, q :: a in chosen && b in chosen && Binds(a, q) && Binds(b, q) ==> a == b
    ensures Made(made, c)
  {
    assert made[n] in made;
    var d := if made[n] in chosen then made[n] else made[n].Reversed();
    assert Binds(d, p) && d in chosen;
  }

  /** A list that has made all of kept has got as far with the vector of port p as kept has, if
      the next connection of the choice binds p and is not yet made. */
  lemma MadeReaches(conns: seq<Connection>, made: seq<Connection>, kept: seq<Connection>, chosen: set<Connection>,
                    c: Connection, p: Port)
    requires OneDirectionEach(conns, chosen) && Orderly(made) && NoLoops(made) && forall d :: d in made ==> d in conns
    requires Orderly(kept) && NoLoops(kept) && forall d :: d in kept ==> Made(made, d)
    requires c in chosen && Fits(kept, c) && Binds(c, p) && !Made(made, c)
    requires forall a, b, q :: a in chosen && b in chosen && Binds(a, q) && Binds(b, q) ==> a == b
    ensures Uses(made, p.vector) == p.index
  {
    var v := p.vector;
    if Uses(made, v) > p.index {
      var n := CountedIsBound(made, p);
      SharedPortIsMade(conns, chosen, made, n, c, p);
    } else if p.index > 0 {
      var q := Port(v, p.index - 1);
      var n := CountedIsBound(kept, q);
      assert kept[n] in kept && Made(made, kept[n]);
      var d := if kept[n] in made then kept[n] else kept[n].Reversed();
      var m :| 0 <= m < |made| && made[m] == d;
      BoundIsCounted(made, m, q);
    }
  }

  /** The greedy pass has got as far with the vector of port p as the choice has. */
  lemma GreedyReaches(conns: seq<Connection>, order: seq<Connection>, chosen: set<Connection>, c: Connection, p: Port)
    requires WellListed(conns) && OneDirectionEach(conns, chosen) && forall d :: d in order ==> d in conns
    requires Orderly(Keep(order, chosen)) && c in chosen && Fits(Keep(order, chosen), c) && Binds(c, p)
    requires forall a, b, q :: a in chosen && b in chosen && Binds(a, q) && Binds(b, q) ==> a == b
    requires forall d :: d in order && d in chosen ==> Made(Greedy(order), d)
    requires !Made(Greedy(order), c)
    ensures Uses(Greedy(order), p.vector) == p.index
  {
    GreedyIsOrderly(order);
    KeepElements(order, chosen);
    ListedHaveNoLoops(conns, Greedy(order));
    ListedHaveNoLoops(conns, Keep(order, chosen));
    MadeReaches(conns, Greedy(order), Keep(order, chosen), chosen, c, p);
  }

  lemma ListedHaveNoLoops(conns: seq<Connection>, s: seq<Connection>)
    requires NoLoops(conns) && forall c :: c in s ==> c in conns
    ensures NoLoops(s)
  {
    forall n | 0 <= n < |s| ensures s[n].from.vector != s[n].to.vector {
      assert s[n] in s;
    }
  }

  lemma {:induction false} KeepIgnoresOthers(order: seq<Connection>, chosen: set<Connection>, c: Connection)
    requires c !in order
    ensures Keep(order, chosen + {c}) == Keep(order, chosen)
  {
    if order != [] {
      KeepIgnoresOthers(order[..|order| - 1], chosen, c);
      assert order[|order| - 1] in order;
    }
  }

  /** The connections made are themselves such a choice. */
  lemma {:induction false} GreedyIsAChoice(order: seq<Connection>)
    requires forall i, j :: 0 <= i < j < |order| ==> order[i] != order[j]
    ensures Keep(order, Elements(Greedy(order))) == Greedy(order)
  {
    if order != [] {
      var init, c := order[..|order| - 1], order[|order| - 1];
      GreedyIsAChoice(init);
      GreedyIsOrderly(init);
      var made := Greedy(init);
      assert c !in init && c !in made;
      if Fits(made, c) {
        KeepIgnoresOthers(init, Elements(made), c);
        assert Elements(made + [c]) == Elements(made) + {c};
      }
    }
  }

  /** No two connections of an orderly choice share a port. */
  lemma ChosenShareNoPort(order: seq<Connection>, chosen: set<Connection>, a: Connection, b: Connection, p: Port)
    requires Orderly(Keep(order, chosen)) && a in order && b in order && a in chosen && b in chosen
    requires Binds(a, p) && Binds(b, p)
    ensures a == b
  {
    var kept := Keep(order, chosen);
    KeepElements(order, chosen);
    assert a in kept && b in kept;
    var i :| 0 <= i < |kept| && kept[i] == a;
    var j :| 0 <= j < |kept| && kept[j] == b;
    BoundOnce(kept, i, j, p);
  }

  lemma OrderableIsMade(conns: seq<Connection>, order: seq<Connection>, chosen: set<Connection>)
    requires WellListed(conns) && multiset(order) == multiset(conns)
    requires OneDirectionEach(conns, chosen) && Orderly(Keep(order, chosen))
    ensures OneDirectionEach(conns, Elements(Greedy(order)))
  {
    var made := Greedy(order);
    Sorting.PermutationIsDistinct(conns, order);
    GreedyMakesListed(conns, order);
    forall a, b, p | a in chosen && b in chosen && Binds(a, p) && Binds(b, p)
      ensures a == b
    {
      ChosenShareNoPort(order, chosen, a, b, p);
    }
    GreedyKeepsUp(conns, order, chosen);
    forall c | c in conns
      ensures c in Elements(made) <==> c.Reversed() !in Elements(made)
    {
      var d := if c in chosen then c else c.Reversed();
      assert Made(made, d);
      if c in made {
        NotBothMade(made, c);
      }
    }
  }

  /** Main result: the pass succeeds if and only if some choice of directions can be made
      in the given order at all. */
  lemma SucceedsIffOrderable(conns: seq<Connection>, order: seq<Connection>)
    requires WellListed(conns) && multiset(order) == multiset(conns)
    ensures |Greedy(order)| * 2 == |conns| <==> Orderable(conns, order)
  {
    Sorting.PermutationIsDistinct(conns, order);
    GreedyMakesListed(conns, order);
    HalfIsOneEach(conns, Greedy(order));
    if |Greedy(order)| * 2 == |conns| {
      GreedyIsAChoice(order);
    }
    if Orderable(conns, order) {
      var chosen :| OneDirectionEach(conns, chosen) && Orderly(Keep(order, chosen));
      OrderableIsMade(conns, order, chosen);
    }
  }

  // ----- the method

  datatype Result = Bound(made: seq<Connection>) | CannotOrder | UnknownPort

  /** The dictionary of counts: one entry per vector with a `from` end, up to date. */
  ghost predicate Counts(indices: map<Vector, nat>, connections: seq<Connection>, made: seq<Connection>) {
    && (forall c :: c in connections ==> c.from.vector in indices)
    && (forall v :: v in indices ==> indices[v] == Uses(made, v) && exists c :: c in connections && c.from.vector == v)
  }

  /** The first loop of `bind_ports`. */
  method StartCounts(connections: seq<Connection>) returns (indices: map<Vector, nat>)
    ensures Counts(indices, connections, [])
  {
    indices := map[];
    for i := 0 to |connections|
      invariant Counts(indices, connections[..i], [])
    {
      indices := indices[connections[i].from.vector := 0];
      assert connections[..i + 1] == connections[..i] + [connections[i]];
    }
    assert connections[..|connections|] == connections;
  }

  /** v is the vector of nobody's `from` end. */
  ghost predicate Nobodys(connections: seq<Connection>, v: Vector) {
    forall d :: d in connections ==> d.from.vector != v
  }

  /** At position i the pass looks up a vector that is nobody's `from` end: the `to` end of a
      connection whose `from` end is the next of its vector. */
  ghost predicate LooksUpUnknown(order: seq<Connection>, connections: seq<Connection>, i: nat) {
    && i < |order|
    && Uses(Greedy(order[..i]), order[i].from.vector) == order[i].from.index
    && Nobodys(connections, order[i].to.vector)
  }

  /** One connection: whether its ports are known, and whether it is made. */
  method BindOne(c: Connection, indices: map<Vector, nat>,
                 ghost connections: seq<Connection>, ghost made: seq<Connection>)
    returns (known: bool, bound: bool, indices': map<Vector, nat>)
    requires Counts(indices, connections, made) && c in connections
    ensures known <==> !(Uses(made, c.from.vector) == c.from.index && Nobodys(connections, c.to.vector))
    ensures known ==> (bound <==> Fits(made, c))
    ensures known ==> Counts(indices', connections, if bound then made + [c] else made)
  {
    known, bound, indices' := true, false, indices;
    if indices[c.from.vector] == c.from.index {
      if c.to.vector !in indices {
        known := false;
      } else if indices[c.to.vector] == c.to.index {
        CountOneMore(indices, connections, made, c);
        bound := true;
        indices' := indices'[c.from.vector := indices'[c.from.vector] + 1];
        indices' := indices'[c.to.vector := indices'[c.to.vector] + 1];
      }
    }
  }

  /** The second loop: what can be bound in this order, or a port that is not known. */
  method BindInOrder(order: seq<Connection>, ghost connections: seq<Connection>, start: map<Vector, nat>)
    returns (known: bool, made: seq<Connection>)
    requires Counts(start, connections, []) && forall c :: c in order ==> c in connections
    ensures known ==> made == Greedy(order)
    ensures known <==> forall i: nat :: !LooksUpUnknown(order, connections, i)
  {
    var indices := start;
    made := [];
    for i := 0 to |order|
      invariant made == Greedy(order[..i]) && Counts(indices, connections, made)
      invariant forall j: nat :: j < i ==> !LooksUpUnknown(order, connections, j)
    {
      var c := order[i];
      assert order[..i + 1][..i] == order[..i] && c in order;
      var bound, more;
      known, bound, more := BindOne(c, indices, connections, made);
      if !known {
        assert LooksUpUnknown(order, connections, i);
        return;
      }
      indices := more;
      if bound {
        made := made + [c];
      }
    }
    assert order[..|order|] == order;
    known := true;
  }

  /** `bind_ports`: the bindings to make, or the exception raised. Looking up a `to` end
      that is nobody's `from` end is a KeyError. */
  method BindPorts(connections: seq<Connection>) returns (r: Result)
    ensures r != UnknownPort ==>
      r == if |Greedy(Sort(connections))| * 2 == |connections| then Bound(Greedy(Sort(connections))) else CannotOrder
    ensures r == UnknownPort <==> exists i: nat :: LooksUpUnknown(Sort(connections), connections, i)
  {
    var indices := StartCounts(connections);
    SortCorrect(connections);
    var sorted := Sort(connections);
    forall c | c in sorted ensures c in connections { assert c in multiset(sorted); }
    var known, made := BindInOrder(sorted, connections, indices);
    if !known {
      return UnknownPort;
    }
    r := if |made| * 2 != |connections| then CannotOrder else Bound(made);
  }

  lemma CountOneMore(indices: map<Vector, nat>, connections: seq<Connection>, made: seq<Connection>, c: Connection)
    requires Counts(indices, connections, made) && c.from.vector in indices && c.to.vector in indices
    ensures var once := indices[c.from.vector := indices[c.from.vector] + 1];
      Counts(once[c.to.vector := once[c.to.vector] + 1], connections, made + [c])
  {
    assert (made + [c])[..|made|] == made;
  }

  /** On a list in both directions every port is known, so the only exception is that the
      bindings cannot be ordered, and it is raised exactly when no choice of directions
      works in the sorted order. PortOrders says what that leaves out. */
  lemma RaisesIffNotOrderable(connections: seq<Connection>)
    requires WellListed(connections)
    ensures forall i: nat :: !LooksUpUnknown(Sort(connections), connections, i)
    ensures |Greedy(Sort(connections))| * 2 != |connections| <==> !Orderable(connections, Sort(connections))
  {
    SortCorrect(connections);
    var sorted := Sort(connections);
    forall i: nat | i < |sorted| ensures !LooksUpUnknown(sorted, connections, i) {
      assert sorted[i] in multiset(sorted);
      assert sorted[i].Reversed() in connections;
    }
    SucceedsIffOrderable(connections, Sort(connections));
  }

  lemma {:induction false} NothingFits(order: seq<Connection>)
    requires forall c :: c in order ==> c.from.index + c.to.index > 0
    ensures Greedy(order) == []
  {
    if order != [] {
      NothingFits(order[..|order| - 1]);
      assert order[|order| - 1] in order;
    }
  }

  /** Two vectors connected crosswise. */
  function Crossing(): seq<Connection> {
    var a, d := Vector("a", "b"), Vector("d", "f");
    var c, c' := Connection(Port(a, 0), Port(d, 1)), Connection(Port(a, 1), Port(d, 0));
    [c, c', c.Reversed(), c'.Reversed()]
  }

  /** The source claims that one direction of every pair will be bindable because the
      connections are sorted. Of a crossing pair none is, in any order. */
  lemma CrossingPairCannotBeBound(order: seq<Connection>)
    requires multiset(order) == multiset(Crossing())
    ensures WellListed(Crossing()) && Greedy(order) == [] && !Orderable(Crossing(), order)
  {
    forall c | c in order ensures c.from.index + c.to.index > 0 {
      assert c in multiset(Crossing());
    }
    NothingFits(order);
    SucceedsIffOrderable(Crossing(), order);
  }
}
