/**
 Whether ports can be bound at all, against the one pass in sorted order that `bind_ports` makes
 (gem5/configs/example/read_config.py).
 */
module PortOrders {
  import opened PortBinder
  import opened Sequences
  import Sorting
  import opened Strings

  /** The bindings can be ordered: one direction of each connection, every vector in index
      order. */
  ghost predicate Bindable(conns: seq<Connection>) {
    exists s :: Binding(conns, s)
  }

  ghost predicate Binding(conns: seq<Connection>, s: seq<Connection>) {
    Orderly(s) && OneDirectionEach(conns, Elements(s))
  }

  ghost predicate Listed(conns: seq<Connection>, s: seq<Connection>) {
    forall c :: c in s ==> c in conns
  }

  ghost predicate SameElements(conns: seq<Connection>, order: seq<Connection>) {
    Listed(conns, order) && Listed(order, conns)
  }

  lemma GreedyOfListed(conns: seq<Connection>, order: seq<Connection>)
    requires WellListed(conns) && Listed(conns, order)
    ensures Orderly(Greedy(order)) && NoLoops(Greedy(order)) && Listed(conns, Greedy(order))
    ensures |Greedy(order)| * 2 == |conns| ==> Bindable(conns)
  {
    GreedyIsOrderly(order);
    ListedHaveNoLoops(conns, Greedy(order));
    HalfIsOneEach(conns, Greedy(order));
    assert |Greedy(order)| * 2 == |conns| ==> Binding(conns, Greedy(order));
  }

  /** What one pass binds can be bound. */
  lemma OrderableIsBindable(conns: seq<Connection>, order: seq<Connection>)
    requires WellListed(conns) && multiset(order) == multiset(conns) && Orderable(conns, order)
    ensures Bindable(conns)
  {
    SucceedsIffOrderable(conns, order);
    Sorting.PermutationIsDistinct(conns, order);
    GreedyOfListed(conns, order);
  }

  // ----- more than one pass

  /** The list gone through n times. */
  function Passes(order: seq<Connection>, n: nat): seq<Connection> {
    if n == 0 then [] else Passes(order, n - 1) + order
  }

  lemma {:induction false} PassesListed(conns: seq<Connection>, order: seq<Connection>, n: nat)
    requires Listed(conns, order)
    ensures Listed(conns, Passes(order, n))
  {
    if n > 0 {
      PassesListed(conns, order, n - 1);
    }
  }

  /** What is made stays made. */
  lemma {:induction false} GreedyGrows(a: seq<Connection>, b: seq<Connection>, c: Connection)
    requires Made(Greedy(a), c)
    ensures Made(Greedy(a + b), c)
    decreases |b|
  {
    if b == [] {
      assert a + b == a;
    } else {
      var init := b[..|b| - 1];
      GreedyGrows(a, init, c);
      assert (a + b)[..|a + b| - 1] == a + init;
    }
  }

  lemma ChosenApart(s: seq<Connection>, a: Connection, b: Connection, p: Port)
    requires Orderly(s) && a in s && b in s && Binds(a, p) && Binds(b, p)
    ensures a == b
  {
    var i :| 0 <= i < |s| && s[i] == a;
    var j :| 0 <= j < |s| && s[j] == b;
    BoundOnce(s, i, j, p);
  }

  /** With the first r connections of a binding made, the next one fits when it is come to,
      unless it is made already. */
  lemma NextFits(conns: seq<Connection>, s: seq<Connection>, r: nat, before: seq<Connection>)
    requires WellListed(conns) && Binding(conns, s) && r < |s| && Listed(conns, before)
    requires MadeFirst(Greedy(before), s, r)
    ensures Made(Greedy(before + [s[r]]), s[r])
  {
    var made, kept, c := Greedy(before), s[..r], s[r];
    GreedyOfListed(conns, before);
    assert (before + [c])[..|before|] == before;
    assert c in s && c in Elements(s);
    if !Made(made, c) {
      forall a, b, q | a in Elements(s) && b in Elements(s) && Binds(a, q) && Binds(b, q)
        ensures a == b
      {
        ChosenApart(s, a, b, q);
      }
      PrefixIsOrderly(s, r);
      ListedHaveNoLoops(conns, kept);
      MadeReaches(conns, made, kept, Elements(s), c, c.from);
      MadeReaches(conns, made, kept, Elements(s), c, c.to);
    }
  }

  lemma PrefixIsOrderly(s: seq<Connection>, r: nat)
    requires Orderly(s) && r < |s|
    ensures Orderly(s[..r]) && Fits(s[..r], s[r]) && forall c :: c in s[..r] ==> c in s
  {
    forall n | 0 <= n < r ensures Fits(s[..r][..n], s[..r][n]) {
      assert s[..r][..n] == s[..n];
    }
  }

  /** The first r connections of s are made. */
  ghost predicate MadeFirst(made: seq<Connection>, s: seq<Connection>, r: nat)
    requires r <= |s|
  {
    forall i :: 0 <= i < r ==> Made(made, s[i])
  }

  lemma OccursIn(conns: seq<Connection>, order: seq<Connection>, s: seq<Connection>, r: nat) returns (x: nat)
    requires SameElements(conns, order) && Binding(conns, s) && r < |s|
    ensures x < |order| && order[x] == s[r]
  {
    assert s[r] in Elements(s) && s[r] in order;
    x :| 0 <= x < |order| && order[x] == s[r];
  }

  lemma OneMorePass(conns: seq<Connection>, before: seq<Connection>, order: seq<Connection>, s: seq<Connection>, r: nat)
    requires WellListed(conns) && SameElements(conns, order) && Listed(conns, before) && Binding(conns, s) && r < |s|
    requires MadeFirst(Greedy(before), s, r)
    ensures MadeFirst(Greedy(before + order), s, r + 1)
  {
    var x := OccursIn(conns, order, s, r);
    AllGrow(before, order, s, r);
    MadeByThen(conns, before, order, x, s, r);
  }

  lemma {:induction false} EachPassMakesNext(conns: seq<Connection>, order: seq<Connection>, s: seq<Connection>, r: nat)
    requires WellListed(conns) && SameElements(conns, order) && Binding(conns, s) && r <= |s|
    ensures PassesMake(order, s, r)
    decreases r
  {
    if r > 0 {
      EachPassMakesNext(conns, order, s, r - 1);
      PassesListed(conns, order, r - 1);
      OneMorePass(conns, Passes(order, r - 1), order, s, r - 1);
    }
  }

  /** After r passes the first r connections of s are made. */
  ghost predicate PassesMake(order: seq<Connection>, s: seq<Connection>, r: nat)
    requires r <= |s|
  {
    MadeFirst(Greedy(Passes(order, r)), s, r)
  }

  lemma SplitAt(before: seq<Connection>, order: seq<Connection>, x: nat)
    requires x < |order|
    ensures before + order == before + order[..x] + [order[x]] + order[x + 1..]
  {
    assert order == order[..x] + [order[x]] + order[x + 1..];
  }

  lemma AllGrow(before: seq<Connection>, more: seq<Connection>, s: seq<Connection>, r: nat)
    requires r <= |s| && MadeFirst(Greedy(before), s, r)
    ensures MadeFirst(Greedy(before + more), s, r)
  {
    forall k | 0 <= k < r
      ensures Made(Greedy(before + more), s[k])
    {
      GreedyGrows(before, more, s[k]);
    }
  }

  lemma MadeByThen(conns: seq<Connection>, before: seq<Connection>, order: seq<Connection>, x: nat,
                   s: seq<Connection>, r: nat)
    requires WellListed(conns) && Binding(conns, s) && r < |s| && x < |order| && order[x] == s[r]
    requires Listed(conns, before) && Listed(conns, order)
    requires MadeFirst(Greedy(before), s, r)
    ensures Made(Greedy(before + order), s[r])
  {
    AllGrow(before, order[..x], s, r);
    NextFits(conns, s, r, before + order[..x]);
    SplitAt(before, order, x);
    GreedyGrows(before + order[..x] + [s[r]], order[x + 1..], s[r]);
  }

  /** Main result: the bindings can be ordered if and only if going through the list again and
      again, in whatever order, makes one direction of each. */
  lemma BindableIffRepeated(conns: seq<Connection>, order: seq<Connection>)
    requires WellListed(conns) && SameElements(conns, order)
    ensures Bindable(conns) <==> |Greedy(Passes(order, |conns|))| * 2 == |conns|
  {
    PassesListed(conns, order, |conns|);
    GreedyOfListed(conns, Passes(order, |conns|));
    if Bindable(conns) {
      var s :| Binding(conns, s);
      BindingLength(conns, s);
      EachPassMakesNext(conns, order, s, |s|);
      MorePasses(order, |s|, |conns|);
      var made := Greedy(Passes(order, |conns|));
      AllGrow(Passes(order, |s|), Rest(order, |s|, |conns|), s, |s|);
      AllMade(conns, s, made);
      HalfIsOneEach(conns, made);
    }
  }

  lemma BindingLength(conns: seq<Connection>, s: seq<Connection>)
    requires WellListed(conns) && Binding(conns, s)
    ensures |s| * 2 == |conns|
  {
    forall c | c in s ensures c in conns {
      assert c in Elements(s);
    }
    ListedHaveNoLoops(conns, s);
    HalfIsOneEach(conns, s);
  }

  function Rest(order: seq<Connection>, m: nat, n: nat): seq<Connection>
    requires m <= n
  {
    if m == n then [] else Rest(order, m, n - 1) + order
  }

  lemma {:induction false} MorePasses(order: seq<Connection>, m: nat, n: nat)
    requires m <= n
    ensures Passes(order, n) == Passes(order, m) + Rest(order, m, n)
    decreases n
  {
    if m < n {
      MorePasses(order, m, n - 1);
      Regroup(Passes(order, m), Rest(order, m, n - 1), order);
    }
  }

  lemma AllMade(conns: seq<Connection>, s: seq<Connection>, made: seq<Connection>)
    requires WellListed(conns) && Binding(conns, s) && Orderly(made) && NoLoops(made)
    requires Listed(conns, made) && MadeFirst(made, s, |s|)
    ensures OneDirectionEach(conns, Elements(made))
  {
    forall c | c in conns
      ensures c in Elements(made) <==> c.Reversed() !in Elements(made)
    {
      var d := if c in Elements(s) then c else c.Reversed();
      assert d in Elements(s);
      var i :| 0 <= i < |s| && s[i] == d;
      assert Made(made, s[i]);
      if c in made {
        NotBothMade(made, c);
      }
    }
  }

  /** The exception is raised exactly for lists that cannot be bound if and only if more passes
      over the sorted list would bind no list that the first one does not. */
  lemma RaisesRightlyIff(conns: seq<Connection>)
    requires WellListed(conns)
    ensures
      var once, often := Greedy(Sort(conns)), Greedy(Passes(Sort(conns), |conns|));
      (|once| * 2 != |conns| <==> !Bindable(conns)) <==> (|often| * 2 == |conns| ==> |once| * 2 == |conns|)
  {
    SortCorrect(conns);
    Sorting.PermutationIsDistinct(conns, Sort(conns));
    BindableIffRepeated(conns, Sort(conns));
    GreedyOfListed(conns, Sort(conns));
  }

  // ----- one pass is not enough

  const A := Vector("a", "x")
  const B := Vector("b", "y")
  const C := Vector("c", "z")
  const D := Vector("d", "w")

  /** Four vectors in a row, connected so that the last connection has to be made first. */
  const AB := Connection(Port(A, 0), Port(B, 1))
  const BC := Connection(Port(B, 0), Port(C, 1))
  const CD := Connection(Port(C, 0), Port(D, 0))

  /** In both directions, and sorted. */
  const ROW := [AB, BC, AB.Reversed(), CD, BC.Reversed(), CD.Reversed()]

  lemma Increases(s: seq<Connection>)
    requires forall i :: 0 <= i < |s| - 1 ==> Compare(s[i], s[i + 1]) <= 0
    ensures Sorting.Sorted(AtMost, s)
  {
    forall i, j | 0 <= i < j < |s|
      ensures AtMost(s[i], s[j])
    {
      IncreasesFar(s, i, j);
    }
  }

  lemma {:induction false} IncreasesFar(s: seq<Connection>, i: nat, j: nat)
    requires i < j < |s| && forall k :: 0 <= k < |s| - 1 ==> Compare(s[k], s[k + 1]) <= 0
    ensures Compare(s[i], s[j]) <= 0
    decreases j
  {
    if i < j - 1 {
      IncreasesFar(s, i, j - 1);
      assert Compare(s[j - 1], s[j - 1 + 1]) <= 0;
      ConnectionsOrdered(s[i], s[j - 1], s[j]);
    }
  }

  lemma RowIsSorted()
    ensures Sort(ROW) == ROW
  {
    assert CompareStrings("a", "b") < 0 && CompareStrings("b", "c") < 0 && CompareStrings("c", "d") < 0;
    Increases(ROW);
    Sorting.SortOfSorted(AtMost, ROW);
  }

  lemma VectorsDiffer()
    ensures A != B && A != C && A != D && B != C && B != D && C != D
  {
    assert A.owner[0] == 'a' && B.owner[0] == 'b' && C.owner[0] == 'c' && D.owner[0] == 'd';
  }

  lemma RowIsWellListed()
    ensures WellListed(ROW)
  {
    VectorsDiffer();
  }

  lemma GreedyStep(order: seq<Connection>, c: Connection)
    ensures Greedy(order + [c]) == if Fits(Greedy(order), c) then Greedy(order) + [c] else Greedy(order)
  {
    assert (order + [c])[..|order|] == order;
  }

  lemma UsesStep(made: seq<Connection>, c: Connection, v: Vector)
    ensures Uses(made + [c], v) == Uses(made, v) + One(c.from.vector == v) + One(c.to.vector == v)
  {
    assert (made + [c])[..|made|] == made;
  }

  lemma UsesOfOne(c: Connection, v: Vector)
    ensures Uses([c], v) == One(c.from.vector == v) + One(c.to.vector == v)
  {
    UsesStep([], c, v);
    assert [] + [c] == [c];
  }

  /** The first three do not fit. */
  lemma PassStarts()
    ensures Greedy([AB, BC, AB.Reversed()]) == []
  {
    NothingFits([AB, BC, AB.Reversed()]);
  }

  /** The next two do. */
  lemma PassGoesOn(before: seq<Connection>)
    requires Greedy(before) == []
    ensures Greedy(before + [CD] + [BC.Reversed()]) == [CD, BC.Reversed()]
  {
    VectorsDiffer();
    GreedyStep(before, CD);
    assert Greedy(before + [CD]) == [CD];
    UsesOfOne(CD, B);
    UsesOfOne(CD, C);
    GreedyStep(before + [CD], BC.Reversed());
  }

  /** The last does not: vector D is in use. */
  lemma PassEnds(before: seq<Connection>)
    requires Greedy(before) == [CD, BC.Reversed()]
    ensures Greedy(before + [CD.Reversed()]) == [CD, BC.Reversed()]
  {
    UsesOfOne(CD, D);
    UsesStep([CD], BC.Reversed(), D);
    assert [CD] + [BC.Reversed()] == [CD, BC.Reversed()];
    GreedyStep(before, CD.Reversed());
  }

  lemma InTurn<T>(a: T, b: T, c: T, d: T, e: T, f: T)
    ensures [a, b, c, d, e, f] == [a, b, c] + [d] + [e] + [f]
  {
  }

  /** The pass makes two of the three. */
  lemma OnePassMakesTwo()
    ensures Greedy(ROW) == [CD, BC.Reversed()]
  {
    var before := [AB, BC, AB.Reversed()];
    InTurn(AB, BC, AB.Reversed(), CD, BC.Reversed(), CD.Reversed());
    PassStarts();
    PassGoesOn(before);
    PassEnds(before + [CD] + [BC.Reversed()]);
  }

  lemma RowIsBindable()
    ensures Bindable(ROW)
  {
    VectorsDiffer();
    var s := [CD, BC, AB];
    UsesStep([], CD, A);
    UsesStep([], CD, B);
    UsesStep([], CD, C);
    UsesStep([CD], BC, A);
    UsesStep([CD], BC, B);
    assert [CD] == [] + [CD] && [CD, BC] == [CD] + [BC];
    assert s[..0] == [] && s[..1] == [CD] && s[..2] == [CD, BC];
    assert Orderly(s);
    RowOneEach(s);
    assert Binding(ROW, s);
  }

  lemma RowOneEach(s: seq<Connection>)
    requires s == [CD, BC, AB]
    ensures OneDirectionEach(ROW, Elements(s))
  {
    VectorsDiffer();
    assert ROW[0] == AB && ROW[1] == BC && ROW[3] == CD;
  }

  /** A list that can be bound and for which the exception is raised all the same. */
  lemma RaisesThoughBindable()
    ensures WellListed(ROW) && Bindable(ROW) && |Greedy(Sort(ROW))| * 2 != |ROW|
  {
    RowIsWellListed();
    RowIsSorted();
    RowIsBindable();
    OnePassMakesTwo();
  }

  // ----- connections at equal indices

  /** Vectors v and w connected at each index below n. */
  function Straight(v: Vector, w: Vector, n: nat): (s: seq<Connection>)
    ensures |s| == n && forall i :: 0 <= i < n ==> s[i] == Connection(Port(v, i), Port(w, i))
  {
    if n == 0 then [] else Straight(v, w, n - 1) + [Connection(Port(v, n - 1), Port(w, n - 1))]
  }

  predicate VectorBefore(v: Vector, w: Vector) {
    CompareStrings(v.owner, w.owner) < 0 || (v.owner == w.owner && CompareStrings(v.name, w.name) < 0)
  }

  lemma OneVectorIsBefore(v: Vector, w: Vector)
    requires v != w
    ensures VectorBefore(v, w) || VectorBefore(w, v)
  {
    StringsOrdered(v.owner, w.owner, []);
    StringsOrdered(v.name, w.name, []);
  }

  lemma StraightIsSorted(v: Vector, w: Vector, n: nat)
    requires VectorBefore(v, w)
    ensures Sorting.Sorted(AtMost, Straight(v, w, n) + Straight(w, v, n))
  {
    var s := Straight(v, w, n) + Straight(w, v, n);
    forall i, j | 0 <= i < j < |s|
      ensures AtMost(s[i], s[j])
    {
      PortsCompareIff(s[i].from, s[j].from);
      ConnectionsCompareIff(s[i], s[j]);
    }
  }

  lemma {:induction false} StraightIsMade(v: Vector, w: Vector, n: nat)
    requires v != w
    ensures Greedy(Straight(v, w, n)) == Straight(v, w, n)
    ensures Uses(Straight(v, w, n), v) == Uses(Straight(v, w, n), w) == n
  {
    if n > 0 {
      StraightIsMade(v, w, n - 1);
      MadeStep(Straight(v, w, n - 1), v, w, n - 1);
    }
  }

  lemma MadeStep(before: seq<Connection>, v: Vector, w: Vector, n: nat)
    requires v != w && Greedy(before) == before && Uses(before, v) == Uses(before, w) == n
    ensures var made := before + [Connection(Port(v, n), Port(w, n))];
      Greedy(made) == made && Uses(made, v) == Uses(made, w) == n + 1
  {
    var c := Connection(Port(v, n), Port(w, n));
    GreedyStep(before, c);
    UsesStep(before, c, v);
    UsesStep(before, c, w);
  }

  lemma PassedOver(before: seq<Connection>, made: seq<Connection>, c: Connection)
    requires Greedy(before) == made && Uses(made, c.from.vector) != c.from.index
    ensures Greedy(before + [c]) == made
  {
    GreedyStep(before, c);
  }

  /** After the first k connections of the way back only those of the way there are made. */
  ghost predicate NoneMadeBack(v: Vector, w: Vector, n: nat, k: nat) {
    Greedy(Straight(v, w, n) + Straight(w, v, k)) == Straight(v, w, n)
  }

  lemma {:induction false} BackIsPassedOver(v: Vector, w: Vector, n: nat, k: nat)
    requires v != w && k <= n
    ensures NoneMadeBack(v, w, n, k)
    decreases k
  {
    StraightIsMade(v, w, n);
    if k == 0 {
      assert Straight(v, w, n) + [] == Straight(v, w, n);
    } else {
      BackIsPassedOver(v, w, n, k - 1);
      OneMoreBack(v, w, n, k);
    }
  }

  lemma OneMoreBack(v: Vector, w: Vector, n: nat, k: nat)
    requires v != w && 0 < k <= n && NoneMadeBack(v, w, n, k - 1)
    ensures NoneMadeBack(v, w, n, k)
  {
    var s, c := Straight(v, w, n), Connection(Port(w, k - 1), Port(v, k - 1));
    StraightIsMade(v, w, n);
    PassedOver(s + Straight(w, v, k - 1), s, c);
    Regroup(s, Straight(w, v, k - 1), [c]);
  }

  /** The comparison orders without ties. */
  lemma NoTies()
    ensures (forall a :: AtMost(a, a)) && Sorting.Antisymmetric(AtMost)
  {
    forall a, b
      ensures AtMost(a, a) && (AtMost(a, b) && AtMost(b, a) ==> a == b)
    {
      ConnectionsOrdered(a, b, a);
      ConnectionsOrdered(a, a, a);
    }
  }

  /** Main result: two vectors connected at equal indices are always bound, whatever the order of
      the list. */
  lemma EqualIndicesAreBound(v: Vector, w: Vector, n: nat, conns: seq<Connection>)
    requires v != w && multiset(conns) == multiset(Straight(v, w, n) + Straight(w, v, n))
    ensures |Greedy(Sort(conns))| * 2 == |conns|
  {
    if VectorBefore(v, w) {
      EqualIndicesInOrder(v, w, n, conns);
    } else {
      OneVectorIsBefore(v, w);
      assert multiset(Straight(w, v, n) + Straight(v, w, n)) == multiset(conns);
      EqualIndicesInOrder(w, v, n, conns);
    }
  }

  lemma EqualIndicesInOrder(v: Vector, w: Vector, n: nat, conns: seq<Connection>)
    requires v != w && VectorBefore(v, w) && multiset(conns) == multiset(Straight(v, w, n) + Straight(w, v, n))
    ensures Sort(conns) == Straight(v, w, n) + Straight(w, v, n) && |Greedy(Sort(conns))| * 2 == |conns|
  {
    var s := Straight(v, w, n) + Straight(w, v, n);
    AtMostOrders();
    Sorting.SortCorrect(AtMost, conns);
    StraightIsSorted(v, w, n);
    NoTies();
    Sorting.SortedIsUnique(AtMost, Sort(conns), s);
    BackIsPassedOver(v, w, n, n);
    assert |conns| == |multiset(conns)| == |s|;
  }
}
