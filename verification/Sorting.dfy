/**
 Python's library sort, `list.sort` and `sorted`: stable, by a total preorder.
 */
module Sorting {
  import opened Sequences

  ghost predicate Orders<T(!new)>(leq: (T, T) -> bool) {
    && (forall a, b :: leq(a, b) || leq(b, a))
    && (forall a, b, c :: leq(a, b) && leq(b, c) ==> leq(a, c))
  }

  function Insert<T>(leq: (T, T) -> bool, x: T, s: seq<T>): seq<T> {
    var n := |s|;
    if n == 0 || leq(s[n - 1], x) then s + [x] else Insert(leq, x, s[..n - 1]) + [s[n - 1]]
  }

  function Sort<T>(leq: (T, T) -> bool, s: seq<T>): seq<T> {
    var n := |s|;
    if n == 0 then [] else Insert(leq, s[n - 1], Sort(leq, s[..n - 1]))
  }

  ghost predicate Sorted<T>(leq: (T, T) -> bool, s: seq<T>) {
    forall i, j :: 0 <= i < j < |s| ==> leq(s[i], s[j])
  }

  lemma {:induction false} InsertPermutes<T>(leq: (T, T) -> bool, x: T, s: seq<T>)
    ensures multiset(Insert(leq, x, s)) == multiset(s) + multiset{x}
  {
    var n := |s|;
    if n > 0 && !leq(s[n - 1], x) {
      InsertPermutes(leq, x, s[..n - 1]);
      assert s == s[..n - 1] + [s[n - 1]];
    }
  }

  lemma {:induction false} InsertSorts<T(!new)>(leq: (T, T) -> bool, x: T, s: seq<T>)
    requires Orders(leq) && Sorted(leq, s)
    ensures Sorted(leq, Insert(leq, x, s))
  {
    var n := |s|;
    if n > 0 && !leq(s[n - 1], x) {
      var init, last := s[..n - 1], s[n - 1];
      InsertSorts(leq, x, init);
      InsertPermutes(leq, x, init);
      var r := Insert(leq, x, init);
      forall i | 0 <= i < |r|
        ensures leq(r[i], last)
      {
        assert r[i] in multiset(init) + multiset{x};
      }
    }
  }

  /** Sorting orders and permutes. */
  lemma {:induction false} SortCorrect<T(!new)>(leq: (T, T) -> bool, s: seq<T>)
    requires Orders(leq)
    ensures Sorted(leq, Sort(leq, s)) && multiset(Sort(leq, s)) == multiset(s) && |Sort(leq, s)| == |s|
  {
    var n := |s|;
    if n > 0 {
      var init := s[..n - 1];
      SortCorrect(leq, init);
      InsertSorts(leq, s[n - 1], Sort(leq, init));
      InsertPermutes(leq, s[n - 1], Sort(leq, init));
      assert s == init + [s[n - 1]];
    }
    assert |Sort(leq, s)| == |multiset(Sort(leq, s))| == |multiset(s)|;
  }

  lemma InsertLast<T>(leq: (T, T) -> bool, x: T, s: seq<T>)
    requires s == [] || leq(s[|s| - 1], x)
    ensures Insert(leq, x, s) == s + [x]
  {
  }

  /** A sorted list stays as it is. */
  lemma {:induction false} SortOfSorted<T>(leq: (T, T) -> bool, s: seq<T>)
    requires Sorted(leq, s)
    ensures Sort(leq, s) == s
  {
    var n := |s|;
    if n > 0 {
      var init := s[..n - 1];
      SortOfSorted(leq, init);
      InsertLast(leq, s[n - 1], init);
      assert s == init + [s[n - 1]];
    }
  }

  lemma LastIsGreatest<T>(leq: (T, T) -> bool, s: seq<T>, x: T)
    requires Sorted(leq, s) && leq(x, x) && x in s
    ensures leq(x, s[|s| - 1])
  {
    var i :| 0 <= i < |s| && s[i] == x;
  }

  ghost predicate Antisymmetric<T(!new)>(leq: (T, T) -> bool) {
    forall a, b :: leq(a, b) && leq(b, a) ==> a == b
  }

  /** There is only one sorted order where equivalent elements are equal. */
  lemma {:induction false} SortedIsUnique<T(!new)>(leq: (T, T) -> bool, s: seq<T>, t: seq<T>)
    requires (forall a :: leq(a, a)) && Antisymmetric(leq)
    requires Sorted(leq, s) && Sorted(leq, t) && multiset(s) == multiset(t)
    ensures s == t
  {
    assert |s| == |multiset(s)| == |multiset(t)| == |t|;
    var n := |s|;
    if n > 0 {
      var x, y := s[n - 1], t[n - 1];
      assert x in multiset(t) && y in multiset(s);
      LastIsGreatest(leq, s, y);
      LastIsGreatest(leq, t, x);
      WithoutLast(s, t);
      SortedIsUnique(leq, s[..n - 1], t[..n - 1]);
    }
  }

  lemma WithoutLast<T>(s: seq<T>, t: seq<T>)
    requires multiset(s) == multiset(t) && |s| == |t| > 0 && s[|s| - 1] == t[|t| - 1]
    ensures multiset(s[..|s| - 1]) == multiset(t[..|t| - 1])
  {
    var n := |s|;
    assert s == s[..n - 1] + [s[n - 1]] && t == t[..n - 1] + [t[n - 1]];
    assert multiset(s[..n - 1]) == multiset(s) - multiset{s[n - 1]};
    assert multiset(t[..n - 1]) == multiset(t) - multiset{t[n - 1]};
  }

  predicate Equivalent<T>(leq: (T, T) -> bool, a: T, b: T) {
    leq(a, b) && leq(b, a)
  }

  /** The elements of s that are equivalent to x, in order. */
  function Among<T>(leq: (T, T) -> bool, x: T, s: seq<T>): seq<T> {
    var n := |s|;
    if n == 0 then [] else Among(leq, x, s[..n - 1]) + if Equivalent(leq, s[n - 1], x) then [s[n - 1]] else []
  }

  lemma {:induction false} InsertIsStable<T(!new)>(leq: (T, T) -> bool, y: T, s: seq<T>, x: T)
    requires Orders(leq)
    ensures Among(leq, x, Insert(leq, y, s)) == Among(leq, x, s + [y])
  {
    var n := |s|;
    assert (s + [y])[..n] == s;
    if n > 0 && !leq(s[n - 1], y) {
      var init, last := s[..n - 1], s[n - 1];
      InsertIsStable(leq, y, init, x);
      assert (init + [y])[..n - 1] == init;
      var r := Insert(leq, y, init);
      assert (r + [last])[..|r|] == r;
      assert Equivalent(leq, last, x) ==> !Equivalent(leq, y, x);
    }
  }

  /** Sorting is stable: equivalent elements keep their order. */
  lemma {:induction false} SortIsStable<T(!new)>(leq: (T, T) -> bool, s: seq<T>, x: T)
    requires Orders(leq)
    ensures Among(leq, x, Sort(leq, s)) == Among(leq, x, s)
  {
    var n := |s|;
    if n > 0 {
      var init := s[..n - 1];
      SortIsStable(leq, init, x);
      InsertIsStable(leq, s[n - 1], Sort(leq, init), x);
      assert (Sort(leq, init) + [s[n - 1]])[..|Sort(leq, init)|] == Sort(leq, init);
    }
  }

  lemma {:induction false} OccursOnce<T>(s: seq<T>, c: T)
    requires Distinct(s)
    ensures multiset(s)[c] <= 1
  {
    var n := |s|;
    if n > 0 {
      var init := s[..n - 1];
      OccursOnce(init, c);
      assert s == init + [s[n - 1]];
      assert c in init <==> c in multiset(init);
    }
  }

  /** A permutation of distinct elements has the same elements, and no other twice. */
  lemma PermutationIsDistinct<T(!new)>(s: seq<T>, p: seq<T>)
    requires multiset(p) == multiset(s) && Distinct(s)
    ensures Distinct(p)
    ensures forall c :: c in p <==> c in s
  {
    forall c
      ensures c in p <==> c in s
    {
      assert c in p <==> c in multiset(p);
      assert c in s <==> c in multiset(s);
    }
    forall i, j | 0 <= i < j < |p|
      ensures p[i] != p[j]
    {
      OccursOnce(s, p[i]);
      assert p == p[..i] + [p[i]] + p[i + 1..j] + [p[j]] + p[j + 1..];
    }
  }
}
