/**
 Dependencies on tags with a downgrader (gem5/util/cpt_upgrader.py). The header of the
 script says that a migration which depends on such a tag runs only after the downgrader.
 The code asks for the tag to be present instead; here is what that leaves of the rule.
 */
module DowngradeOrder {
  import opened Sequences
  import opened UpgradeScheduler

  /** d comes before t. */
  ghost predicate Before(s: seq<Tag>, d: Tag, t: Tag) {
    exists i, j :: 0 <= i < j < |s| && s[i] == d && s[j] == t
  }

  /** The rule of the header for one dependency: d is removed before t is applied. */
  ghost predicate RemovedFirst(log: seq<seq<Tag>>, d: Tag, t: Tag) {
    Before(Flatten(log), d, t)
  }

  lemma BeforeIsStrict(s: seq<Tag>, d: Tag, t: Tag)
    requires Distinct(s) && Before(s, d, t)
    ensures !Before(s, t, d)
  {
  }

  lemma BeforeInSuffix(a: seq<Tag>, b: seq<Tag>, d: Tag, t: Tag)
    requires Before(b, d, t)
    ensures Before(a + b, d, t)
  {
    var i, j :| 0 <= i < j < |b| && b[i] == d && b[j] == t;
    assert (a + b)[|a| + i] == d && (a + b)[|a| + j] == t;
  }

  lemma BeforeInPrefix(a: seq<Tag>, b: seq<Tag>, d: Tag, t: Tag)
    requires Before(a, d, t)
    ensures Before(a + b, d, t)
  {
    var i, j :| 0 <= i < j < |a| && a[i] == d && a[j] == t;
    assert (a + b)[i] == d && (a + b)[j] == t;
  }

  lemma {:induction false} InFlatten(log: seq<seq<Tag>>, q: nat, t: Tag)
    requires q < |log| && t in log[q]
    ensures t in Flatten(log)
  {
    if q > 0 {
      InFlatten(log[1..], q - 1, t);
    }
  }

  /** An earlier round comes first, and within a round its own order counts. */
  lemma {:induction false} RoundsInOrder(log: seq<seq<Tag>>, r: nat, q: nat, d: Tag, t: Tag)
    requires r <= q < |log| && d in log[r] && t in log[q]
    requires r == q ==> Before(log[r], d, t)
    ensures Before(Flatten(log), d, t)
    decreases r
  {
    if r > 0 {
      RoundsInOrder(log[1..], r - 1, q - 1, d, t);
      BeforeInSuffix(log[0], Flatten(log[1..]), d, t);
    } else if q == 0 {
      BeforeInPrefix(log[0], Flatten(log[1..]), d, t);
    } else {
      InFlatten(log[1..], q - 1, t);
      var i :| 0 <= i < |log[0]| && log[0][i] == d;
      var rest := Flatten(log[1..]);
      var j :| 0 <= j < |rest| && rest[j] == t;
      var all := log[0] + rest;
      assert all[i] == d && all[|log[0]| + j] == t;
    }
  }

  /** A migration stands in its round. */
  lemma {:induction false} InItsRound(reg: Registry, tags: set<Tag>, todo: set<Tag>, log: seq<seq<Tag>>, t: Tag)
    requires todo <= reg.byTag.Keys && Schedule(reg, tags, todo, log) && RoundOf(reg, tags, todo, t) >= 0
    ensures RoundOf(reg, tags, todo, t) < |log| && t in log[RoundOf(reg, tags, todo, t)]
    decreases todo
  {
    var ready := ReadySet(reg, tags, todo);
    if ready != {} && t !in ready {
      InItsRound(reg, AfterRound(reg, tags, ready), todo - ready, log[1..], t);
    }
  }

  /** Some schedule applies t first of its round. */
  lemma {:induction false} ScheduleWithFirst(reg: Registry, tags: set<Tag>, todo: set<Tag>, t: Tag)
    returns (log: seq<seq<Tag>>)
    requires todo <= reg.byTag.Keys
    ensures Schedule(reg, tags, todo, log)
    ensures var r := RoundOf(reg, tags, todo, t);
      r >= 0 ==> r < |log| && log[r] != [] && log[r][0] == t
    decreases todo
  {
    var ready := ReadySet(reg, tags, todo);
    if ready == {} {
      log := [];
    } else if t in ready {
      var others := ListOf(ready - {t});
      var rest := SomeSchedule(reg, AfterRound(reg, tags, ready), todo - ready);
      log := [[t] + others] + rest;
    } else {
      var first := ListOf(ready);
      var rest := ScheduleWithFirst(reg, AfterRound(reg, tags, ready), todo - ready, t);
      log := [first] + rest;
    }
  }

  /** A successful run in which t depends on a tag d with a downgrader: d is present and due
      for removal, in the round of t or later. */
  lemma BothAreDue(reg: Registry, tags: set<Tag>, t: Tag, d: Tag)
    requires Consistent(reg) && Run(reg, tags, ToApply(reg, tags)).Applied?
    requires t in ToApply(reg, tags) && d in reg.byTag[t].depends && d in reg.untagSet
    ensures d in ToApply(reg, tags)
    ensures 0 <= RoundOf(reg, tags, ToApply(reg, tags), t) <= RoundOf(reg, tags, ToApply(reg, tags), d)
  {
    var todo := ToApply(reg, tags);
    RoundOfApplied(reg, tags, todo, t);
    DependentOfDowngrade(reg, tags, todo, t, d);
    RoundOfApplied(reg, tags, todo, d);
  }

  lemma FirstOfRoundIsBefore(reg: Registry, tags: set<Tag>, todo: set<Tag>, log: seq<seq<Tag>>, d: Tag, t: Tag)
    requires todo <= reg.byTag.Keys && Schedule(reg, tags, todo, log) && d != t
    requires 0 <= RoundOf(reg, tags, todo, d) <= RoundOf(reg, tags, todo, t)
    requires var r := RoundOf(reg, tags, todo, d); r < |log| && log[r] != [] && log[r][0] == d
    ensures RemovedFirst(log, d, t)
  {
    var r, q := RoundOf(reg, tags, todo, d), RoundOf(reg, tags, todo, t);
    InItsRound(reg, tags, todo, log, t);
    if r == q {
      var j :| 0 <= j < |log[q]| && log[q][j] == t;
      assert log[r][0] == d && j > 0;
    }
    RoundsInOrder(log, r, q, d, t);
  }

  /** Some schedule of a successful run keeps the rule for t and d if and only if both are
      applied in the same round: then it is set iteration that decides. */
  lemma RuleCanHoldIff(reg: Registry, tags: set<Tag>, t: Tag, d: Tag)
    requires Consistent(reg) && Run(reg, tags, ToApply(reg, tags)).Applied?
    requires t in ToApply(reg, tags) && d in reg.byTag[t].depends && d in reg.untagSet && d != t
    ensures (exists log :: Schedule(reg, tags, ToApply(reg, tags), log) && RemovedFirst(log, d, t)) <==>
      RoundOf(reg, tags, ToApply(reg, tags), t) == RoundOf(reg, tags, ToApply(reg, tags), d)
  {
    var todo := ToApply(reg, tags);
    BothAreDue(reg, tags, t, d);
    if RoundOf(reg, tags, todo, t) == RoundOf(reg, tags, todo, d) {
      var log := ScheduleWithFirst(reg, tags, todo, d);
      FirstOfRoundIsBefore(reg, tags, todo, log, d, t);
    } else {
      forall log | Schedule(reg, tags, todo, log)
        ensures !RemovedFirst(log, d, t)
      {
        EarlierRoundWins(reg, tags, log, t, d);
      }
    }
  }

  lemma EarlierRoundWins(reg: Registry, tags: set<Tag>, log: seq<seq<Tag>>, t: Tag, d: Tag)
    requires Consistent(reg) && Run(reg, tags, ToApply(reg, tags)).Applied?
    requires Schedule(reg, tags, ToApply(reg, tags), log)
    requires 0 <= RoundOf(reg, tags, ToApply(reg, tags), t) < RoundOf(reg, tags, ToApply(reg, tags), d)
    ensures !RemovedFirst(log, d, t)
  {
    var todo := ToApply(reg, tags);
    InItsRound(reg, tags, todo, log, t);
    InItsRound(reg, tags, todo, log, d);
    RoundsInOrder(log, RoundOf(reg, tags, todo, t), RoundOf(reg, tags, todo, d), t, d);
    EachAppliedOnce(reg, tags, todo, log);
    BeforeIsStrict(Flatten(log), t, d);
  }

  /** log keeps the rule for every needed migration. */
  ghost predicate KeepsRule(reg: Registry, todo: set<Tag>, log: seq<seq<Tag>>)
    requires todo <= reg.byTag.Keys
  {
    forall t, d :: t in todo && d in reg.byTag[t].depends && d in reg.untagSet ==> RemovedFirst(log, d, t)
  }

  /** No needed migration depends on a tag with a downgrader. */
  ghost predicate NoneDependsOnRemoved(reg: Registry, todo: set<Tag>)
    requires todo <= reg.byTag.Keys
  {
    forall t, d :: t in todo && d in reg.byTag[t].depends ==> d !in reg.untagSet
  }

  lemma RuleCanBreak(reg: Registry, tags: set<Tag>, t: Tag, d: Tag) returns (log: seq<seq<Tag>>)
    requires Consistent(reg) && Run(reg, tags, ToApply(reg, tags)).Applied?
    requires t in ToApply(reg, tags) && d in reg.byTag[t].depends && d in reg.untagSet
    ensures Schedule(reg, tags, ToApply(reg, tags), log) && !RemovedFirst(log, d, t)
  {
    var todo := ToApply(reg, tags);
    BothAreDue(reg, tags, t, d);
    log := ScheduleWithFirst(reg, tags, todo, t);
    EachAppliedOnce(reg, tags, todo, log);
    if t != d {
      FirstOfRoundIsBefore(reg, tags, todo, log, t, d);
      BeforeIsStrict(Flatten(log), t, d);
    }
  }

  /** Main result: every schedule of a successful run keeps the rule of the header if and only
      if no needed migration depends on a tag with a downgrader at all. */
  lemma RuleHoldsIff(reg: Registry, tags: set<Tag>)
    requires Consistent(reg) && Run(reg, tags, ToApply(reg, tags)).Applied?
    ensures var todo := ToApply(reg, tags);
      (forall log :: Schedule(reg, tags, todo, log) ==> KeepsRule(reg, todo, log)) <==> NoneDependsOnRemoved(reg, todo)
  {
    var todo := ToApply(reg, tags);
    if !NoneDependsOnRemoved(reg, todo) {
      var t, d :| t in todo && d in reg.byTag[t].depends && d in reg.untagSet;
      var log := RuleCanBreak(reg, tags, t, d);
      assert !KeepsRule(reg, todo, log);
    }
  }

  lemma FlattenOne(s: seq<Tag>)
    ensures Flatten([s]) == s
  {
    assert [s][1..] == [];
    assert s + [] == s;
  }

  /** The smallest case: t depends on d, d is present and has a downgrader. Both are ready in
      the first round, and the set may yield them in either order. */
  lemma EitherOrder(d: Tag, t: Tag)
    requires d != t
    ensures var reg, tags := TwoTags(d, t), {d};
      && Consistent(reg) && ToApply(reg, tags) == {d, t} && Run(reg, tags, {d, t}) == Applied({t})
      && Schedule(reg, tags, {d, t}, [[d, t]]) && RemovedFirst([[d, t]], d, t)
      && Schedule(reg, tags, {d, t}, [[t, d]]) && !RemovedFirst([[t, d]], d, t)
  {
    var reg, tags := TwoTags(d, t), {d};
    assert ReadySet(reg, tags, {d, t}) == {d, t};
    assert AfterRound(reg, tags, {d, t}) == {t};
    assert {d, t} - {d, t} == {};
    assert ReadySet(reg, {t}, {}) == {};
    FlattenOne([d, t]);
    FlattenOne([t, d]);
    assert [d, t][0] == d && [d, t][1] == t;
    assert [[d, t]][1..] == [] && [[t, d]][1..] == [];
  }

  function TwoTags(d: Tag, t: Tag): Registry {
    Registry({t}, {d}, map[d := Migration(false, []), t := Migration(true, [d])])
  }
}
