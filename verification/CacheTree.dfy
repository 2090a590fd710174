/**
 The memory tester's tree of caches and testers (gem5/configs/example/memtest.py). A
 specification lists, from main memory upwards, how many caches each crossbar fans out to
 and how many testers it carries. Products are `Grid.Times`.
 */
module CacheTree {

  import opened Grid

  const BLOCK_SIZE := 64

  // ----- counting

  /** The product of c[i..j]: the subsystems at depth j below one at depth i. */
  function Fan(c: seq<nat>, i: nat, j: nat): nat
    requires i <= j <= |c|
    decreases j - i
  {
    if i == j then 1 else Times(c[i], Fan(c, i + 1, j))
  }

  predicate Shaped(c: seq<nat>, t: seq<nat>) {
    |c| >= 1 && |t| == |c| + 1
  }

  /** Testers in a subtree whose root is at depth i. */
  function Testers(c: seq<nat>, t: seq<nat>, i: nat): nat
    requires Shaped(c, t) && i <= |c|
    decreases |c| - i
  {
    if i == |c| then t[i] else t[i] + Times(c[i], Testers(c, t, i + 1))
  }

  lemma {:induction false} TimesSum(a: nat, b: nat, c: nat)
    ensures Times(a + b, c) == Times(a, c) + Times(b, c)
  {
    if b > 0 {
      TimesSum(a, b - 1, c);
    }
  }

  lemma {:induction false} TimesAssoc(a: nat, b: nat, c: nat)
    ensures Times(a, Times(b, c)) == Times(Times(a, b), c)
  {
    if a > 0 {
      TimesAssoc(a - 1, b, c);
      TimesSum(Times(a - 1, b), b, c);
    }
  }

  lemma {:induction false} TimesOne(a: nat)
    ensures Times(a, 1) == a && Times(1, a) == a
  {
    assert Times(1, a) == Times(0, a) + a;
    if a > 0 {
      TimesOne(a - 1);
    }
  }

  lemma TimesComm(a: nat, b: nat)
    ensures Times(a, b) == Times(b, a)
  {
    TimesIsProduct(a, b);
    TimesIsProduct(b, a);
  }

  lemma {:induction false} TimesAdd(a: nat, b: nat, c: nat)
    ensures Times(a, b + c) == Times(a, b) + Times(a, c)
  {
    if a > 0 {
      TimesAdd(a - 1, b, c);
    }
  }

  lemma {:induction false} FanSnoc(c: seq<nat>, i: nat, j: nat)
    requires i <= j < |c|
    ensures Fan(c, i, j + 1) == Times(Fan(c, i, j), c[j])
    decreases j - i
  {
    if i == j {
      assert Fan(c, i + 1, j + 1) == 1;
      TimesComm(c[j], 1);
    } else {
      FanSnoc(c, i + 1, j);
      TimesAssoc(c[i], Fan(c, i + 1, j), c[j]);
    }
  }

  /** The testers at depth k and above it, over all subtrees. */
  function Remaining(c: seq<nat>, t: seq<nat>, k: nat): nat
    requires Shaped(c, t) && k <= |t|
  {
    if k == |t| then 0 else Times(Fan(c, 0, k), Testers(c, t, k))
  }

  lemma RemainingStep(c: seq<nat>, t: seq<nat>, k: nat)
    requires Shaped(c, t) && k < |t|
    ensures Remaining(c, t, k) == Times(t[k], Fan(c, 0, k)) + Remaining(c, t, k + 1)
  {
    var m := Fan(c, 0, k);
    TimesComm(m, t[k]);
    if k < |c| {
      TimesAdd(m, t[k], Times(c[k], Testers(c, t, k + 1)));
      TimesAssoc(m, c[k], Testers(c, t, k + 1));
      FanSnoc(c, 0, k);
    }
  }

  /** `numtesters`: the closed form counts what the recursion builds. */
  method NumTesters(c: seq<nat>, t: seq<nat>) returns (total: nat)
    requires Shaped(c, t)
    ensures total == Testers(c, t, 0)
  {
    var multiplier := [1];
    for k := 0 to |c|
      invariant |multiplier| == k + 1 && forall j :: 0 <= j <= k ==> multiplier[j] == Fan(c, 0, j)
    {
      FanSnoc(c, 0, k);
      multiplier := multiplier + [Times(multiplier[|multiplier| - 1], c[k])];
    }
    total := 0;
    TimesOne(Testers(c, t, 0));
    for k := 0 to |t|
      invariant total + Remaining(c, t, k) == Testers(c, t, 0)
    {
      RemainingStep(c, t, k);
      total := total + Times(t[k], multiplier[k]);
    }
  }

  // ----- options

  /** What the option checks let through. */
  predicate Accepted(c: seq<int>, t: seq<int>) {
    && |c| >= 1 && |t| == |c| + 1
    && (forall k :: 0 <= k < |c| ==> c[k] >= 1)
    && (forall k :: 0 <= k < |t| ==> t[k] >= 0)
    && t[|t| - 1] > 0
    && Testers(c, t, 0) <= BLOCK_SIZE
  }

  method CheckOptions(c: seq<int>, t: seq<int>) returns (ok: bool)
    ensures ok <==> Accepted(c, t)
  {
    if |c| < 1 || |c| != |t| - 1 || t[|t| - 1] == 0 {
      return false;
    }
    for k := 0 to |t|
      invariant forall j :: 0 <= j < k ==> t[j] >= 0
    {
      if t[k] < 0 {
        return false;
      }
    }
    for k := 0 to |c|
      invariant forall j :: 0 <= j < k ==> c[j] >= 1
    {
      if c[k] < 1 {
        return false;
      }
    }
    var n := NumTesters(c, t);
    ok := n <= BLOCK_SIZE;
  }

  // ----- prototypes

  datatype Proto = Proto(size: nat, latency: nat, assoc: nat, mshrs: nat, writebackClean: bool, inclusive: bool)

  function ProtoL1(blocking: bool): Proto {
    Proto(32768, 1, 4, if blocking then 1 else 4, true, true)
  }

  function Pow10(k: nat): nat {
    if k == 0 then 1 else 10 * Pow10(k - 1)
  }

  /** The prototype k levels below the L1 cache. */
  function Scaled(l1: Proto, c: seq<nat>, k: nat): Proto
    requires k <= |c|
  {
    Proto(Times(l1.size, Fan(c, 0, k)), l1.latency * Pow10(k), Times(l1.assoc, Fan(c, 0, k)),
      Times(l1.mshrs, Fan(c, 0, k)), l1.writebackClean == (k % 2 == 0), l1.inclusive == (k % 2 == 0))
  }

  lemma ScaledStep(l1: Proto, c: seq<nat>, k: nat)
    requires k < |c|
    ensures var p := Scaled(l1, c, k);
      Scaled(l1, c, k + 1) == Proto(Times(p.size, c[k]), p.latency * 10, Times(p.assoc, c[k]),
        Times(p.mshrs, c[k]), !p.writebackClean, !p.inclusive)
  {
    FanSnoc(c, 0, k);
    TimesAssoc(l1.size, Fan(c, 0, k), c[k]);
    TimesAssoc(l1.assoc, Fan(c, 0, k), c[k]);
    TimesAssoc(l1.mshrs, Fan(c, 0, k), c[k]);
    LatencyStep(l1.latency, Pow10(k));
  }

  lemma ScaledNone(l1: Proto, c: seq<nat>)
    ensures Scaled(l1, c, 0) == l1
  {
    TimesOne(l1.size);
    TimesOne(l1.assoc);
    TimesOne(l1.mshrs);
  }

  lemma LatencyStep(a: nat, p: nat)
    ensures a * (10 * p) == a * p * 10
  {
  }

  /** One prototype per cache level, the L1 cache last. */
  ghost predicate AreProtos(protos: seq<Proto>, l1: Proto, c: seq<nat>, n: nat)
    requires n <= |c| + 1
  {
    |protos| == n && forall k {:trigger Scaled(l1, c, k)} :: 0 <= k < n ==> protos[n - 1 - k] == Scaled(l1, c, k)
  }

  method MakePrototypes(c: seq<nat>, l1: Proto) returns (protos: seq<Proto>)
    requires |c| >= 1
    ensures AreProtos(protos, l1, c, |c|)
  {
    protos := [l1];
    ScaledNone(l1, c);
    for k := 0 to |c| - 1
      invariant AreProtos(protos, l1, c, k + 1)
    {
      var prev := protos[0];
      ScaledStep(l1, c, k);
      assert prev == Scaled(l1, c, k);
      var next := Proto(Times(prev.size, c[k]), prev.latency * 10, Times(prev.assoc, c[k]),
        Times(prev.mshrs, c[k]), !prev.writebackClean, !prev.inclusive);
      protos := [next] + protos;
    }
  }

  // ----- the tree

  datatype Tester = Tester(interval: nat, progressCheck: nat)

  datatype SubSystem = SubSystem(level: nat, index: nat, testers: seq<Tester>, caches: seq<Proto>, xbar: bool)

  function Copies<T>(x: T, n: nat): (s: seq<T>)
    ensures |s| == n && forall k :: 0 <= k < n ==> s[k] == x
  {
    if n == 0 then [] else Copies(x, n - 1) + [x]
  }

  datatype Plan = Plan(c: seq<nat>, t: seq<nat>, protos: seq<Proto>) {
    ghost predicate Valid() {
      && Shaped(c, t) && |protos| == |c|
      && t[|c|] > 0
    }

    /** Subsystem `l<level>subsys<index>` as it should be: testers at every level; below the
        top a crossbar with an L1 cache for each tester and the caches that fan out. */
    function SubSystemAt(level: nat, index: nat): SubSystem
      requires Shaped(c, t) && |protos| == |c| && level <= |c|
    {
      var depth := |c| - level;
      var testers := Copies(Tester(10 * (level * level + 1), (depth + 1) * 100000000), t[depth]);
      if level == 0 then SubSystem(level, index, testers, [], t[depth] > 1)
      else
        SubSystem(level, index, testers,
          Copies(protos[|protos| - 1], t[depth]) + Copies(protos[depth], c[depth]), true)
    }
  }

  /** What is in a subsystem: its testers; below the top an L1 cache for each of them, and the
      caches that fan out; and a crossbar, unless it is a single tester at the top. */
  lemma SubSystemHas(p: Plan, level: nat, index: nat)
    requires p.Valid() && level <= |p.c|
    ensures var x, depth := p.SubSystemAt(level, index), |p.c| - level;
      && |x.testers| == p.t[depth] && (!x.xbar <==> level == 0 && |x.testers| == 1)
      && (if level == 0 then x.caches == [] else |x.caches| == |x.testers| + p.c[depth])
      && forall k :: 0 <= k < |x.caches| ==>
        x.caches[k] == p.protos[if k < |x.testers| then |p.protos| - 1 else depth]
  {
  }

  /** Testers nearer to main memory inject less often and have less time to make progress. */
  lemma TestersScale(p: Plan, level: nat, level': nat, x: Tester, x': Tester)
    requires p.Valid() && level < level' <= |p.c|
    requires x in p.SubSystemAt(level, 0).testers && x' in p.SubSystemAt(level', 0).testers
    ensures x.interval < x'.interval && x.progressCheck > x'.progressCheck
  {
    SquareGrows(level, level');
  }

  lemma SquareGrows(a: nat, b: nat)
    requires a < b
    ensures a * a < b * b
  {
    MulMono(a, b, a);
    MulMono(a + 1, b, b);
  }

  // ----- capacities

  /** One of the caches through which a subsystem fans out. */
  function FanOutCache(p: Plan, level: nat): Proto
    requires p.Valid() && 0 < level <= |p.c| && p.c[|p.c| - level] > 0
  {
    var caches := p.SubSystemAt(level, 0).caches;
    caches[|caches| - 1]
  }

  /** It holds as much as all the caches together through which the subsystem above fans out. */
  ghost predicate HoldsAllAbove(p: Plan, level: nat)
    requires p.Valid() && 1 < level <= |p.c| && forall k :: 0 <= k < |p.c| ==> p.c[k] > 0
  {
    FanOutCache(p, level).size == Times(p.c[|p.c| - level + 1], FanOutCache(p, level - 1).size)
  }

  lemma {:induction false} FanPositive(c: seq<nat>, i: nat, j: nat)
    requires i <= j <= |c| && forall k :: 0 <= k < |c| ==> c[k] > 0
    ensures Fan(c, i, j) > 0
    decreases j - i
  {
    if i < j {
      FanPositive(c, i + 1, j);
      TimesMono(1, c[i], Fan(c, i + 1, j));
      TimesOne(Fan(c, i + 1, j));
    }
  }

  lemma TimesCancels(a: nat, b: nat, s: nat)
    requires s > 0
    ensures Times(s, a) == Times(b, s) <==> a == b
  {
    TimesComm(s, a);
    if a < b {
      TimesMono(a + 1, b, s);
    } else if b < a {
      TimesMono(b + 1, a, s);
    }
  }

  lemma HoldsAllAboveIff(p: Plan, l1: Proto, level: nat)
    requires p.Valid() && AreProtos(p.protos, l1, p.c, |p.c|) && l1.size > 0
    requires 1 < level <= |p.c| && forall k :: 0 <= k < |p.c| ==> p.c[k] > 0
    ensures HoldsAllAbove(p, level) <==> p.c[level - 2] == p.c[|p.c| - level + 1]
  {
    var lower, upper := Scaled(l1, p.c, level - 1), Scaled(l1, p.c, level - 2);
    assert FanOutCache(p, level) == lower && FanOutCache(p, level - 1) == upper;
    ScaledStep(l1, p.c, level - 2);
    FanPositive(p.c, 0, level - 2);
    TimesMono(1, l1.size, Fan(p.c, 0, level - 2));
    TimesOne(Fan(p.c, 0, level - 2));
    TimesCancels(p.c[level - 2], p.c[|p.c| - level + 1], upper.size);
  }

  /** The prototypes scale with the cache counts from main memory upwards, the tree fans out by
      them the other way round: every cache holds as much as those above it together if and only
      if the counts read the same both ways. */
  lemma CapacitiesAddUpIff(p: Plan, l1: Proto)
    requires p.Valid() && AreProtos(p.protos, l1, p.c, |p.c|) && l1.size > 0
    requires forall k :: 0 <= k < |p.c| ==> p.c[k] > 0
    ensures (forall level :: 1 < level <= |p.c| ==> HoldsAllAbove(p, level)) <==>
      forall k :: 0 <= k < |p.c| ==> p.c[k] == p.c[|p.c| - 1 - k]
  {
    forall level | 1 < level <= |p.c|
      ensures HoldsAllAbove(p, level) <==> p.c[level - 2] == p.c[|p.c| - level + 1]
    {
      HoldsAllAboveIff(p, l1, level);
    }
    if forall level :: 1 < level <= |p.c| ==> HoldsAllAbove(p, level) {
      forall k | 0 <= k < |p.c|
        ensures p.c[k] == p.c[|p.c| - 1 - k]
      {
        if k + 2 <= |p.c| {
          assert HoldsAllAbove(p, k + 2);
        } else if k > 0 {
          assert HoldsAllAbove(p, |p.c| - k + 1);
        }
      }
    }
  }

  // ----- names

  /** The names in use are exactly those below the next index of each level, each of them
      given once and to a subsystem of the right shape. */
  ghost predicate Consistent(p: Plan, built: seq<SubSystem>, next: seq<nat>)
    requires p.Valid()
  {
    && |next| == |p.c| + 1
    && (forall k :: 0 <= k < |built| ==> Fits(p, built[k], next))
    && (forall j, k :: 0 <= j < k < |built| ==> built[j].level != built[k].level || built[j].index != built[k].index)
    && (forall m: nat, j: nat {:trigger Named(p, built, m, j)} :: m < |next| && j < next[m] ==> Named(p, built, m, j))
  }

  ghost predicate Named(p: Plan, built: seq<SubSystem>, m: nat, j: nat)
    requires p.Valid() && m <= |p.c|
  {
    p.SubSystemAt(m, j) in built
  }

  ghost predicate Fits(p: Plan, x: SubSystem, next: seq<nat>)
    requires p.Valid() && |next| == |p.c| + 1
  {
    x.level <= |p.c| && x.index < next[x.level] && x == p.SubSystemAt(x.level, x.index)
  }

  function TesterCount(built: seq<SubSystem>): nat {
    var n := |built|;
    if n == 0 then 0 else TesterCount(built[..n - 1]) + |built[n - 1].testers|
  }

  lemma AddSubSystem(p: Plan, built: seq<SubSystem>, next: seq<nat>, level: nat)
    requires p.Valid() && Consistent(p, built, next) && level <= |p.c|
    ensures Consistent(p, built + [p.SubSystemAt(level, next[level])], next[level := next[level] + 1])
    ensures TesterCount(built + [p.SubSystemAt(level, next[level])]) == TesterCount(built) + p.t[|p.c| - level]
  {
    var x, after := p.SubSystemAt(level, next[level]), next[level := next[level] + 1];
    var all := built + [x];
    assert all[..|all| - 1] == built;
    forall m: nat, j: nat | m < |after| && j < after[m]
      ensures Named(p, all, m, j)
    {
      if m == level && j == next[level] {
        assert all[|built|] == x;
      } else {
        assert Named(p, built, m, j);
      }
    }
  }

  /** The next index of each level and the number of testers. */
  datatype Counts = Counts(next: seq<nat>, testers: nat)

  /** Subsystems of level m in one subtree below a subsystem of the given level. */
  function Share(p: Plan, level: nat, m: nat): nat
    requires m < level <= |p.c|
  {
    Fan(p.c, |p.c| - level + 1, |p.c| - m)
  }

  /** k subtrees of the level below have been made. */
  ghost predicate Advanced(p: Plan, before: Counts, after: Counts, level: nat, k: nat)
    requires p.Valid() && |before.next| == |p.c| + 1 && 0 < level <= |p.c|
  {
    && |after.next| == |before.next|
    && (forall m {:trigger after.next[m]} :: 0 <= m < |before.next| ==>
      after.next[m] == before.next[m] + if m < level then Times(k, Share(p, level, m)) else 0)
    && after.testers == before.testers + Times(k, Testers(p.c, p.t, |p.c| - level + 1))
  }

  /** A whole subtree has been made. */
  ghost predicate Grown(p: Plan, before: Counts, after: Counts, level: nat)
    requires p.Valid() && |before.next| == |p.c| + 1 && level <= |p.c|
  {
    && |after.next| == |before.next|
    && (forall m {:trigger after.next[m]} :: 0 <= m < |before.next| ==>
      after.next[m] == before.next[m] + if m <= level then Fan(p.c, |p.c| - level, |p.c| - m) else 0)
    && after.testers == before.testers + Testers(p.c, p.t, |p.c| - level)
  }

  lemma NoSubtree(p: Plan, before: Counts, level: nat)
    requires p.Valid() && |before.next| == |p.c| + 1 && 0 < level <= |p.c|
    ensures Advanced(p, before, before, level, 0)
  {
    TimesZero(Testers(p.c, p.t, |p.c| - level + 1));
    forall m | 0 <= m < level
      ensures Times(0, Share(p, level, m)) == 0
    {
      TimesZero(Share(p, level, m));
    }
  }

  lemma TimesZero(a: nat)
    ensures Times(0, a) == 0
  {
  }

  lemma OneMoreSubtree(p: Plan, before: Counts, middle: Counts, after: Counts, level: nat, k: nat)
    requires p.Valid() && |before.next| == |p.c| + 1 && 0 < level <= |p.c|
    requires Advanced(p, before, middle, level, k) && Grown(p, middle, after, level - 1)
    ensures Advanced(p, before, after, level, k + 1)
  {
    forall m | 0 <= m < |before.next|
      ensures after.next[m] ==
        before.next[m] + if m < level then Times(k + 1, Share(p, level, m)) else 0
    {
      assert middle.next[m] >= 0;
    }
  }

  /** The counts once a subsystem of the level has its name and testers. */
  function Rooted(p: Plan, before: Counts, level: nat): Counts
    requires Shaped(p.c, p.t) && |before.next| == |p.c| + 1 && level <= |p.c|
  {
    Counts(before.next[level := before.next[level] + 1], before.testers + p.t[|p.c| - level])
  }

  lemma AllSubtrees(p: Plan, before: Counts, after: Counts, level: nat)
    requires p.Valid() && |before.next| == |p.c| + 1 && 0 < level <= |p.c|
    requires Advanced(p, Rooted(p, before, level), after, level, p.c[|p.c| - level])
    ensures Grown(p, before, after, level)
  {
  }

  lemma TopGrown(p: Plan, before: Counts)
    requires p.Valid() && |before.next| == |p.c| + 1
    ensures Grown(p, before, Rooted(p, before, 0), 0)
  {
  }

  lemma TailOfTail<T>(s: seq<T>, k: nat)
    requires k < |s|
    ensures s[k..][1..] == s[k + 1..]
  {
  }

  class Builder {
    const plan: Plan
    var next: seq<nat>
    var built: seq<SubSystem>

    ghost predicate Valid()
      reads this
    {
      plan.Valid() && Consistent(plan, built, next)
    }

    ghost function Now(): Counts
      reads this
    {
      Counts(next, TesterCount(built))
    }

    constructor (plan: Plan)
      requires plan.Valid()
      ensures Valid() && this.plan == plan && built == [] && next == Copies(0, |plan.c| + 1)
    {
      this.plan, next, built := plan, Copies(0, |plan.c| + 1), [];
    }

    /** The part of `make_cache_level` that fills a subsystem. The indexing is what has to be
        safe: prototypes[0] below the top and testers[0] at the top. */
    method MakeSubSystem(ncaches: seq<nat>, prototypes: seq<Proto>, level: nat, index: nat) returns (x: SubSystem)
      requires plan.Valid() && level <= |plan.c|
      requires ncaches == plan.c[|plan.c| - level..] && prototypes == plan.protos[|plan.c| - level..]
      ensures x == plan.SubSystemAt(level, index)
    {
      var depth := |plan.c| - level;
      var ntesters := plan.t[depth];
      var testers := Copies(Tester(10 * (level * level + 1), (depth + 1) * 100000000), ntesters);
      if level != 0 {
        var treeCaches := Copies(prototypes[0], ncaches[0]);
        var testerCaches := Copies(plan.protos[|plan.protos| - 1], ntesters);
        x := SubSystem(level, index, testers, testerCaches + treeCaches, true);
      } else if ntesters > 1 {
        x := SubSystem(level, index, testers, [], true);
      } else {
        var single := testers[0];
        assert testers == [single];
        x := SubSystem(level, index, [single], [], false);
      }
    }

    /** A subsystem gets the next name of its level. */
    method AddRoot(ncaches: seq<nat>, prototypes: seq<Proto>, level: nat)
      requires Valid() && level <= |plan.c|
      requires ncaches == plan.c[|plan.c| - level..] && prototypes == plan.protos[|plan.c| - level..]
      modifies this
      ensures Valid() && Now() == Rooted(plan, old(Now()), level)
    {
      var index := next[level];
      var x := MakeSubSystem(ncaches, prototypes, level, index);
      AddSubSystem(plan, built, next, level);
      next, built := next[level := index + 1], built + [x];
    }

    /** `make_cache_level`. */
    method MakeCacheLevel(ncaches: seq<nat>, prototypes: seq<Proto>, level: nat)
      requires Valid() && level <= |plan.c|
      requires ncaches == plan.c[|plan.c| - level..] && prototypes == plan.protos[|plan.c| - level..]
      modifies this
      ensures Valid() && Grown(plan, old(Now()), Now(), level)
      decreases level, 2
    {
      ghost var before := Now();
      AddRoot(ncaches, prototypes, level);
      if level != 0 {
        MakeSubtrees(ncaches, prototypes, level);
        AllSubtrees(plan, before, Now(), level);
      } else {
        TopGrown(plan, before);
      }
    }

    /** One more subtree, after k others. */
    method MakeSubtree(ncaches: seq<nat>, prototypes: seq<Proto>, level: nat, ghost before: Counts, ghost k: nat)
      requires Valid() && 0 < level <= |plan.c| && |before.next| == |plan.c| + 1
      requires ncaches == plan.c[|plan.c| - level..] && prototypes == plan.protos[|plan.c| - level..]
      requires Advanced(plan, before, Now(), level, k)
      modifies this
      ensures Valid() && Advanced(plan, before, Now(), level, k + 1)
      decreases level, 0
    {
      ghost var middle := Now();
      TailOfTail(plan.c, |plan.c| - level);
      TailOfTail(plan.protos, |plan.c| - level);
      MakeCacheLevel(ncaches[1..], prototypes[1..], level - 1);
      OneMoreSubtree(plan, before, middle, Now(), level, k);
    }

    /** A subtree for each of the caches that fan out. */
    method MakeSubtrees(ncaches: seq<nat>, prototypes: seq<Proto>, level: nat)
      requires Valid() && 0 < level <= |plan.c|
      requires ncaches == plan.c[|plan.c| - level..] && prototypes == plan.protos[|plan.c| - level..]
      modifies this
      ensures Valid() && Advanced(plan, old(Now()), Now(), level, ncaches[0])
      decreases level, 1
    {
      ghost var before := Now();
      NoSubtree(plan, before, level);
      for k := 0 to ncaches[0]
        invariant Valid() && Advanced(plan, before, Now(), level, k)
      {
        MakeSubtree(ncaches, prototypes, level, before, k);
      }
    }
  }

  /** How many subsystems each level should have. */
  function Widths(c: seq<nat>): (w: seq<nat>)
    ensures |w| == |c| + 1 && forall m :: 0 <= m <= |c| ==> w[m] == Fan(c, 0, |c| - m)
  {
    seq(|c| + 1, m requires 0 <= m <= |c| => Fan(c, 0, |c| - m))
  }

  lemma WholeTree(p: Plan, after: Counts)
    requires p.Valid() && Grown(p, Counts(Copies(0, |p.c| + 1), 0), after, |p.c|)
    ensures after == Counts(Widths(p.c), Testers(p.c, p.t, 0))
  {
    var before := Copies(0, |p.c| + 1);
    forall m | 0 <= m < |after.next|
      ensures after.next[m] == Widths(p.c)[m]
    {
      assert before[m] == 0;
    }
  }

  /** The whole script. Options that are accepted give level m exactly as many subsystems as
      the caches below it fan out to, numbered from zero, each once and with its testers and
      caches, and `numtesters` testers in all. */
  method MakeTree(c: seq<int>, t: seq<int>, blocking: bool)
    returns (ok: bool, protos: seq<Proto>, built: seq<SubSystem>)
    ensures ok <==> Accepted(c, t)
    ensures ok ==> AreProtos(protos, ProtoL1(blocking), c, |c|)
    ensures ok ==> Consistent(Plan(c, t, protos), built, Widths(c)) && TesterCount(built) == Testers(c, t, 0)
  {
    protos, built := [], [];
    ok := CheckOptions(c, t);
    if ok {
      protos := MakePrototypes(c, ProtoL1(blocking));
      var b := new Builder(Plan(c, t, protos));
      b.MakeCacheLevel(c, protos, |c|);
      WholeTree(b.plan, b.Now());
      built := b.built;
    }
  }
}
