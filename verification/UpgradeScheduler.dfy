/**
 How checkpoint migrations are scheduled (gem5/util/cpt_upgrader.py, `process_file`):
 round after round, all migrations whose dependencies are among the checkpoint's tags
 are applied; an upgrade adds its tag, a downgrade removes it.
 */
module UpgradeScheduler {
  import opened Sequences
  import opened Strings

  type Tag = string

  datatype Migration = Migration(upgrade: bool, depends: seq<Tag>)

  /** tagSet and untagSet are the tags with an upgrader and with a downgrader. */
  datatype Registry = Registry(tagSet: set<Tag>, untagSet: set<Tag>, byTag: map<Tag, Migration>)

  /** Every tag names one migration, of the kind its set says. */
  predicate Consistent(reg: Registry) {
    && reg.tagSet !! reg.untagSet
    && reg.byTag.Keys == reg.tagSet + reg.untagSet
    && (forall t :: t in reg.tagSet ==> reg.byTag[t].upgrade)
    && (forall t :: t in reg.untagSet ==> !reg.byTag[t].upgrade)
  }

  /** `Upgrader.ready`: all dependencies are present. */
  predicate Ready(reg: Registry, tags: set<Tag>, t: Tag)
    requires t in reg.byTag
  {
    forall dep :: dep in reg.byTag[t].depends ==> dep in tags
  }

  /** Upgrades the checkpoint lacks and downgrades of tags it has. */
  function ToApply(reg: Registry, tags: set<Tag>): set<Tag> {
    (reg.tagSet - tags) + (reg.untagSet * tags)
  }

  function ReadySet(reg: Registry, tags: set<Tag>, todo: set<Tag>): set<Tag>
    requires todo <= reg.byTag.Keys
  {
    set t | t in todo && Ready(reg, tags, t)
  }

  /** The tags after a whole round, whatever its order. */
  function AfterRound(reg: Registry, tags: set<Tag>, ready: set<Tag>): set<Tag>
    requires ready <= reg.byTag.Keys
  {
    (tags + (set t | t in ready && reg.byTag[t].upgrade)) - (set t | t in ready && !reg.byTag[t].upgrade)
  }

  datatype Outcome = Applied(tags: set<Tag>) | Impossible(unapplied: set<Tag>)

  function Run(reg: Registry, tags: set<Tag>, todo: set<Tag>): Outcome
    requires todo <= reg.byTag.Keys
    decreases todo
  {
    if todo == {} then Applied(tags)
    else
      var ready := ReadySet(reg, tags, todo);
      if ready == {} then Impossible(todo)
      else Run(reg, AfterRound(reg, tags, ready), todo - ready)
  }

  /** The round in which t is applied, counting from 0, if it is. */
  function RoundOf(reg: Registry, tags: set<Tag>, todo: set<Tag>, t: Tag): int
    requires todo <= reg.byTag.Keys
    decreases todo
  {
    var ready := ReadySet(reg, tags, todo);
    if ready == {} then -1
    else if t in ready then 0
    else
      var r := RoundOf(reg, AfterRound(reg, tags, ready), todo - ready, t);
      if r < 0 then -1 else r + 1
  }

  /** A migration is applied in some round exactly if it is not reported unapplied. */
  lemma {:induction false} RoundOfApplied(reg: Registry, tags: set<Tag>, todo: set<Tag>, t: Tag)
    requires todo <= reg.byTag.Keys
    ensures -1 <= RoundOf(reg, tags, todo, t)
    ensures RoundOf(reg, tags, todo, t) >= 0 <==>
      t in todo && (Run(reg, tags, todo).Impossible? ==> t !in Run(reg, tags, todo).unapplied)
    decreases todo
  {
    var ready := ReadySet(reg, tags, todo);
    if ready != {} {
      RoundOfApplied(reg, AfterRound(reg, tags, ready), todo - ready, t);
      UnappliedWithin(reg, AfterRound(reg, tags, ready), todo - ready);
    }
  }

  lemma {:induction false} UnappliedWithin(reg: Registry, tags: set<Tag>, todo: set<Tag>)
    requires todo <= reg.byTag.Keys
    ensures Run(reg, tags, todo).Impossible? ==> Run(reg, tags, todo).unapplied <= todo
    decreases todo
  {
    var ready := ReadySet(reg, tags, todo);
    if ready != {} {
      UnappliedWithin(reg, AfterRound(reg, tags, ready), todo - ready);
    }
  }

  // ----- one round, in any order

  /** The tags after the migrations of order have been applied one by one. */
  function ApplyAll(reg: Registry, tags: set<Tag>, order: seq<Tag>): set<Tag>
    requires forall t :: t in order ==> t in reg.byTag
  {
    if order == [] then tags
    else
      var before := ApplyAll(reg, tags, order[..|order| - 1]);
      var t := order[|order| - 1];
      if reg.byTag[t].upgrade then before + {t} else before - {t}
  }

  /** order lists the elements of s, each once. */
  ghost predicate Lists(order: seq<Tag>, s: set<Tag>) {
    && (forall t :: t in order <==> t in s)
    && (forall i, j :: 0 <= i < j < |order| ==> order[i] != order[j])
  }

  lemma {:induction false} ApplyAllIsRound(reg: Registry, tags: set<Tag>, order: seq<Tag>, s: set<Tag>)
    requires s <= reg.byTag.Keys && Lists(order, s)
    ensures ApplyAll(reg, tags, order) == AfterRound(reg, tags, s)
    decreases |order|
  {
    if order != [] {
      var init, last := order[..|order| - 1], order[|order| - 1];
      assert order == init + [last];
      ApplyAllIsRound(reg, tags, init, s - {last});
    }
  }

  lemma ListsOneMore(order: seq<Tag>, s: set<Tag>, t: Tag)
    requires Lists(order, s) && t !in s
    ensures Lists(order + [t], s + {t})
  {
  }

  /** `update` applied to every tag of ready, in whatever order the set yields them.
      keyError is what removing an absent tag raises. */
  method ApplyRound(reg: Registry, tags0: set<Tag>, ready: set<Tag>) returns (tags: set<Tag>, keyError: bool, ghost order: seq<Tag>)
    requires ready <= reg.byTag.Keys
    ensures keyError <==> exists t :: t in ready && !reg.byTag[t].upgrade && t !in tags0
    ensures !keyError ==> Lists(order, ready) && tags == AfterRound(reg, tags0, ready)
  {
    tags, keyError, order := tags0, false, [];
    var rest := ready;
    while rest != {}
      invariant rest <= ready && Lists(order, ready - rest)
      invariant tags == ApplyAll(reg, tags0, order)
      invariant forall t :: t in rest ==> (t in tags <==> t in tags0)
      invariant forall t :: t in ready - rest && !reg.byTag[t].upgrade ==> t in tags0
    {
      var t :| t in rest;
      if reg.byTag[t].upgrade {
        tags := tags + {t};
      } else {
        if t !in tags {
          keyError := true;
          return;
        }
        tags := tags - {t};
      }
      ListsOneMore(order, ready - rest, t);
      assert (order + [t])[..|order|] == order;
      order := order + [t];
      rest := rest - {t};
    }
    ApplyAllIsRound(reg, tags0, order, ready);
  }

  // ----- the whole schedule

  /** log holds, for each round of the schedule, the order in which it was applied. */
  ghost predicate Schedule(reg: Registry, tags: set<Tag>, todo: set<Tag>, log: seq<seq<Tag>>)
    requires todo <= reg.byTag.Keys
    decreases todo
  {
    var ready := ReadySet(reg, tags, todo);
    if ready == {} then log == []
    else |log| > 0 && Lists(log[0], ready) && Schedule(reg, AfterRound(reg, tags, ready), todo - ready, log[1..])
  }

  function Flatten(log: seq<seq<Tag>>): seq<Tag> {
    if log == [] then [] else log[0] + Flatten(log[1..])
  }

  datatype Processed = Written(tags: set<Tag>) | Unchanged(tags: set<Tag>) | Aborted(unapplied: set<Tag>)

  /** No downgrade is due for a tag that is not there. */
  ghost predicate RemovalsPresent(reg: Registry, tags: set<Tag>, todo: set<Tag>)
    requires todo <= reg.byTag.Keys
  {
    forall t :: t in todo && !reg.byTag[t].upgrade ==> t in tags
  }

  /** The scheduling part of `process_file`; change says whether the tags had to be
      converted from a legacy version. */
  method Process(reg: Registry, tags0: set<Tag>, change0: bool) returns (r: Processed, ghost log: seq<seq<Tag>>)
    requires Consistent(reg)
    ensures var todo := ToApply(reg, tags0);
      r == match Run(reg, tags0, todo)
        case Applied(tags) => if change0 || todo != {} then Written(tags) else Unchanged(tags)
        case Impossible(unapplied) => Aborted(unapplied)
    ensures !r.Aborted? ==> Schedule(reg, tags0, ToApply(reg, tags0), log)
  {
    var tags, change := tags0, change0;
    var toApply := (reg.tagSet - tags) + (reg.untagSet * tags);
    log := [];
    ghost var todo0 := toApply;
    assert forall rest: seq<seq<Tag>> :: [] + rest == rest;
    while toApply != {}
      invariant toApply <= todo0 <= reg.byTag.Keys
      invariant RemovalsPresent(reg, tags, toApply)
      invariant Run(reg, tags, toApply) == Run(reg, tags0, todo0)
      invariant change == (change0 || toApply != todo0)
      invariant forall rest :: Schedule(reg, tags, toApply, rest) ==> Schedule(reg, tags0, todo0, log + rest)
    {
      var ready := set t | t in toApply && Ready(reg, tags, t);
      if ready == {} {
        return Aborted(toApply), log;
      }
      var tags', keyError, order := ApplyRound(reg, tags, ready);
      assert !keyError;
      forall rest | Schedule(reg, tags', toApply - ready, rest)
        ensures Schedule(reg, tags0, todo0, log + [order] + rest)
      {
        assert ([order] + rest)[1..] == rest;
        assert Schedule(reg, tags, toApply, [order] + rest);
        assert log + [order] + rest == log + ([order] + rest);
      }
      tags, change, log := tags', true, log + [order];
      toApply := toApply - ready;
    }
    assert Schedule(reg, tags, toApply, []);
    assert log + [] == log;
    r := if change then Written(tags) else Unchanged(tags);
  }

  // ----- what a schedule does

  /** A successful schedule applies every needed migration exactly once. */
  lemma {:induction false} EachAppliedOnce(reg: Registry, tags: set<Tag>, todo: set<Tag>, log: seq<seq<Tag>>)
    requires todo <= reg.byTag.Keys && Schedule(reg, tags, todo, log) && Run(reg, tags, todo).Applied?
    ensures Lists(Flatten(log), todo)
    decreases todo
  {
    if todo != {} {
      var ready := ReadySet(reg, tags, todo);
      EachAppliedOnce(reg, AfterRound(reg, tags, ready), todo - ready, log[1..]);
      JoinLists(log[0], Flatten(log[1..]), ready, todo - ready);
      assert ready + (todo - ready) == todo;
    }
  }

  lemma JoinLists(a: seq<Tag>, b: seq<Tag>, s: set<Tag>, t: set<Tag>)
    requires Lists(a, s) && Lists(b, t) && s !! t
    ensures Lists(a + b, s + t)
  {
    forall i, j | 0 <= i < j < |a + b| ensures (a + b)[i] != (a + b)[j] {
      if i < |a| <= j {
        assert a[i] in a && b[j - |a|] in b;
      }
    }
  }

  lemma {:induction false} TagsAfterRun(reg: Registry, tags: set<Tag>, todo: set<Tag>)
    requires Consistent(reg) && todo <= reg.byTag.Keys && Run(reg, tags, todo).Applied?
    ensures Run(reg, tags, todo).tags == (tags + (todo * reg.tagSet)) - (todo * reg.untagSet)
    decreases todo
  {
    if todo != {} {
      var ready := ReadySet(reg, tags, todo);
      TagsAfterRun(reg, AfterRound(reg, tags, ready), todo - ready);
    }
  }

  /** A successful run ends with the upgrade tags added and the downgrade tags gone, and a
      second run finds nothing to do. */
  lemma FinalTags(reg: Registry, tags: set<Tag>)
    requires Consistent(reg) && Run(reg, tags, ToApply(reg, tags)).Applied?
    ensures var final := Run(reg, tags, ToApply(reg, tags)).tags;
      && final == (tags + reg.tagSet) - reg.untagSet
      && ToApply(reg, final) == {}
      && Run(reg, final, ToApply(reg, final)) == Applied(final)
  {
    TagsAfterRun(reg, tags, ToApply(reg, tags));
  }

  // ----- dependencies: upgraders only

  ghost predicate UpgradesOnly(reg: Registry, todo: set<Tag>)
    requires todo <= reg.byTag.Keys
  {
    forall t :: t in todo ==> reg.byTag[t].upgrade
  }

  /** order applies migrations of todo one at a time, each with all its dependencies
      among the initial tags and those applied before it. */
  ghost predicate Admissible(reg: Registry, tags: set<Tag>, todo: set<Tag>, order: seq<Tag>)
    requires todo <= reg.byTag.Keys
    decreases |order|
  {
    order == [] ||
    var before, t := order[..|order| - 1], order[|order| - 1];
    Admissible(reg, tags, todo, before) && t in todo && Ready(reg, tags + Elements(before), t)
  }

  lemma {:induction false} Prefix(reg: Registry, tags: set<Tag>, todo: set<Tag>, a: seq<Tag>, todo': set<Tag>, b: seq<Tag>)
    requires todo' <= todo <= reg.byTag.Keys
    requires Admissible(reg, tags, todo, a) && Admissible(reg, tags + Elements(a), todo', b)
    ensures Admissible(reg, tags, todo, a + b)
    decreases |b|
  {
    if b == [] {
      assert a + b == a;
    } else {
      var init := b[..|b| - 1];
      Prefix(reg, tags, todo, a, todo', init);
      assert (a + b)[..|a + b| - 1] == a + init;
      assert tags + Elements(a) + Elements(init) == tags + Elements(a + init);
    }
  }

  /** Every schedule is admissible: when a migration is applied, its dependencies are
      there. */
  lemma {:induction false} ScheduleIsAdmissible(reg: Registry, tags: set<Tag>, todo: set<Tag>, log: seq<seq<Tag>>)
    requires todo <= reg.byTag.Keys && UpgradesOnly(reg, todo) && Schedule(reg, tags, todo, log)
    ensures Admissible(reg, tags, todo, Flatten(log))
    decreases todo
  {
    var ready := ReadySet(reg, tags, todo);
    if ready != {} {
      var tags', rest := AfterRound(reg, tags, ready), Flatten(log[1..]);
      ScheduleIsAdmissible(reg, tags', todo - ready, log[1..]);
      RoundIsAdmissible(reg, tags, todo, log[0]);
      assert tags' == tags + Elements(log[0]);
      Prefix(reg, tags, todo, log[0], todo - ready, rest);
    }
  }

  lemma {:induction false} RoundIsAdmissible(reg: Registry, tags: set<Tag>, todo: set<Tag>, order: seq<Tag>)
    requires todo <= reg.byTag.Keys && forall t :: t in order ==> t in ReadySet(reg, tags, todo)
    ensures Admissible(reg, tags, todo, order)
    decreases |order|
  {
    if order != [] {
      RoundIsAdmissible(reg, tags, todo, order[..|order| - 1]);
      assert order[|order| - 1] in order;
    }
  }

  /** t can be applied at all: some admissible order contains it. */
  ghost predicate Appliable(reg: Registry, tags: set<Tag>, todo: set<Tag>, t: Tag)
    requires todo <= reg.byTag.Keys
  {
    exists order :: Admissible(reg, tags, todo, order) && t in order
  }

  /** The migrations of order that are not done, in the same order. */
  ghost function Without(order: seq<Tag>, done: set<Tag>): seq<Tag> {
    if order == [] then []
    else
      var rest, t := Without(order[..|order| - 1], done), order[|order| - 1];
      if t in done then rest else rest + [t]
  }

  lemma {:induction false} WithoutElements(order: seq<Tag>, done: set<Tag>)
    ensures Elements(Without(order, done)) == Elements(order) - done
  {
    if order != [] {
      var before, t := order[..|order| - 1], order[|order| - 1];
      WithoutElements(before, done);
      assert order == before + [t];
      assert Elements(order) == Elements(before) + {t};
    }
  }

  /** An admissible order stays admissible once some of its migrations are done. */
  lemma {:induction false} AdmissibleAfterRound(reg: Registry, tags: set<Tag>, todo: set<Tag>, ready: set<Tag>, order: seq<Tag>)
    requires ready <= todo <= reg.byTag.Keys && Admissible(reg, tags, todo, order)
    ensures Admissible(reg, tags + ready, todo - ready, Without(order, ready))
    decreases |order|
  {
    if order != [] {
      var before, t := order[..|order| - 1], order[|order| - 1];
      AdmissibleAfterRound(reg, tags, todo, ready, before);
      if t !in ready {
        var rest := Without(before, ready);
        WithoutElements(before, ready);
        assert (rest + [t])[..|rest|] == rest;
        assert Ready(reg, tags + ready + Elements(rest), t);
      }
    }
  }

  lemma {:induction false} FirstIsReady(reg: Registry, tags: set<Tag>, todo: set<Tag>, order: seq<Tag>)
    requires todo <= reg.byTag.Keys && Admissible(reg, tags, todo, order)
    ensures order == [] || order[0] in ReadySet(reg, tags, todo)
    decreases |order|
  {
    if |order| == 1 {
      assert tags + Elements(order[..0]) == tags;
    } else if |order| > 1 {
      FirstIsReady(reg, tags, todo, order[..|order| - 1]);
    }
  }

  /** Main result for upgraders: what is reported as not appliable is exactly what no
      order whatsoever could have applied. */
  lemma {:induction false} UnappliedIffImpossible(reg: Registry, tags: set<Tag>, todo: set<Tag>, t: Tag)
    requires todo <= reg.byTag.Keys && UpgradesOnly(reg, todo) && t in todo
    ensures Run(reg, tags, todo).Impossible? && t in Run(reg, tags, todo).unapplied <==> !Appliable(reg, tags, todo, t)
    decreases todo
  {
    var ready := ReadySet(reg, tags, todo);
    if ready == {} {
      forall order | Admissible(reg, tags, todo, order) ensures t !in order {
        FirstIsReady(reg, tags, todo, order);
      }
    } else {
      var tags', todo' := AfterRound(reg, tags, ready), todo - ready;
      assert tags' == tags + ready;
      UnappliedWithin(reg, tags', todo');
      if t in ready {
        RoundIsAdmissible(reg, tags, todo, [t]);
        assert t in [t];
      } else {
        UnappliedIffImpossible(reg, tags', todo', t);
        AppliableAcrossRound(reg, tags, todo, t);
      }
    }
  }

  lemma AppliableAcrossRound(reg: Registry, tags: set<Tag>, todo: set<Tag>, t: Tag)
    requires todo <= reg.byTag.Keys && t in todo && t !in ReadySet(reg, tags, todo)
    ensures var ready := ReadySet(reg, tags, todo);
      Appliable(reg, tags, todo, t) <==> Appliable(reg, tags + ready, todo - ready, t)
  {
    var ready := ReadySet(reg, tags, todo);
    if Appliable(reg, tags, todo, t) {
      var order :| Admissible(reg, tags, todo, order) && t in order;
      AdmissibleAfterRound(reg, tags, todo, ready, order);
      WithoutElements(order, ready);
      assert t in Elements(Without(order, ready));
    }
    if Appliable(reg, tags + ready, todo - ready, t) {
      var order :| Admissible(reg, tags + ready, todo - ready, order) && t in order;
      var first := ListOf(ready);
      RoundIsAdmissible(reg, tags, todo, first);
      assert tags + ready == tags + Elements(first);
      Prefix(reg, tags, todo, first, todo - ready, order);
      assert t in first + order;
    }
  }

  lemma {:induction false} ListOf(s: set<Tag>) returns (order: seq<Tag>)
    ensures Lists(order, s)
  {
    if s == {} {
      order := [];
    } else {
      var t :| t in s;
      order := ListOf(s - {t});
      ListsOneMore(order, s - {t}, t);
      order := order + [t];
      assert s - {t} + {t} == s;
    }
  }

  /** The scheduler aborts exactly when no order of the needed upgrades satisfies all
      dependencies. */
  lemma AbortsIffNoOrder(reg: Registry, tags: set<Tag>, todo: set<Tag>)
    requires todo <= reg.byTag.Keys && UpgradesOnly(reg, todo)
    ensures Run(reg, tags, todo).Applied? <==> exists order :: Admissible(reg, tags, todo, order) && Lists(order, todo)
  {
    if Run(reg, tags, todo).Applied? {
      var log := SomeSchedule(reg, tags, todo);
      EachAppliedOnce(reg, tags, todo, log);
      ScheduleIsAdmissible(reg, tags, todo, log);
    } else {
      UnappliedWithin(reg, tags, todo);
      UnappliedNonEmpty(reg, tags, todo);
      var t :| t in Run(reg, tags, todo).unapplied;
      UnappliedIffImpossible(reg, tags, todo, t);
      forall order | Admissible(reg, tags, todo, order) ensures !Lists(order, todo) {
        assert t !in order;
      }
    }
  }

  lemma {:induction false} UnappliedNonEmpty(reg: Registry, tags: set<Tag>, todo: set<Tag>)
    requires todo <= reg.byTag.Keys && Run(reg, tags, todo).Impossible?
    ensures Run(reg, tags, todo).unapplied != {}
    decreases todo
  {
    var ready := ReadySet(reg, tags, todo);
    if ready != {} {
      UnappliedNonEmpty(reg, AfterRound(reg, tags, ready), todo - ready);
    }
  }

  lemma {:induction false} SomeSchedule(reg: Registry, tags: set<Tag>, todo: set<Tag>) returns (log: seq<seq<Tag>>)
    requires todo <= reg.byTag.Keys
    ensures Schedule(reg, tags, todo, log)
    decreases todo
  {
    var ready := ReadySet(reg, tags, todo);
    if ready == {} {
      log := [];
    } else {
      var first := ListOf(ready);
      var rest := SomeSchedule(reg, AfterRound(reg, tags, ready), todo - ready);
      log := [first] + rest;
    }
  }

  // ----- rounds

  /** A migration waits for an absent tag it depends on: it is applied in a strictly
      later round than the upgrade that brings the tag. */
  lemma {:induction false} DependencyWaits(reg: Registry, tags: set<Tag>, todo: set<Tag>, t: Tag, d: Tag)
    requires todo <= reg.byTag.Keys && t in todo && d in reg.byTag[t].depends
    requires d !in tags && RoundOf(reg, tags, todo, t) >= 0
    ensures d in todo && reg.byTag[d].upgrade
    ensures 0 <= RoundOf(reg, tags, todo, d) < RoundOf(reg, tags, todo, t)
    decreases todo
  {
    var ready := ReadySet(reg, tags, todo);
    RoundOfApplied(reg, AfterRound(reg, tags, ready), todo - ready, t);
    if d !in ready || !reg.byTag[d].upgrade {
      DependencyWaits(reg, AfterRound(reg, tags, ready), todo - ready, t, d);
    }
  }

  /** A dependent of a tag with a downgrader needs that tag at the start of its round: without
      it, it is never applied, and otherwise in no later round than the downgrade. What this
      leaves of the order the header promises is in DowngradeOrder. */
  lemma {:induction false} DependentOfDowngrade(reg: Registry, tags: set<Tag>, todo: set<Tag>, t: Tag, d: Tag)
    requires todo <= reg.byTag.Keys && t in todo && d in reg.byTag[t].depends
    requires d in reg.byTag && !reg.byTag[d].upgrade
    ensures d !in tags ==> RoundOf(reg, tags, todo, t) == -1
    ensures RoundOf(reg, tags, todo, t) >= 0 && RoundOf(reg, tags, todo, d) >= 0 ==>
      RoundOf(reg, tags, todo, t) <= RoundOf(reg, tags, todo, d)
    decreases todo
  {
    var ready := ReadySet(reg, tags, todo);
    if ready != {} && t !in ready {
      DependentOfDowngrade(reg, AfterRound(reg, tags, ready), todo - ready, t, d);
    }
  }

  /** In particular a needed migration that depends on an already removed tag makes the
      run abort, where the header promises that it can run. */
  lemma RemovedDependencyAborts(reg: Registry, tags: set<Tag>, t: Tag, d: Tag)
    requires Consistent(reg) && t in ToApply(reg, tags) && d in reg.byTag[t].depends
    requires d in reg.untagSet && d !in tags
    ensures Run(reg, tags, ToApply(reg, tags)).Impossible? && t in Run(reg, tags, ToApply(reg, tags)).unapplied
  {
    DependentOfDowngrade(reg, tags, ToApply(reg, tags), t, d);
    RoundOfApplied(reg, tags, ToApply(reg, tags), t);
  }

  // ----- legacy versions

  /** Version i has its own upgrade, which from version 3 on depends on the one before. */
  predicate Chain(reg: Registry, legacy: map<int, Tag>, last: int) {
    && (forall i :: 2 <= i <= last ==> i in legacy && legacy[i] in reg.byTag)
    && (forall i {:trigger Follows(reg, legacy, i)} :: 3 <= i <= last ==> Follows(reg, legacy, i))
    && (forall i, j :: 2 <= i < j <= last ==> legacy[i] != legacy[j])
  }

  /** The upgrade of version i depends on that of version i - 1. */
  predicate Follows(reg: Registry, legacy: map<int, Tag>, i: int) {
    && i - 1 in legacy && i in legacy && legacy[i] in reg.byTag
    && legacy[i - 1] in reg.byTag[legacy[i]].depends
  }

  /** The tags a checkpoint of legacy version v is taken to have. */
  function LegacyTags(legacy: map<int, Tag>, v: int): set<Tag>
    requires forall i :: 2 <= i <= v ==> i in legacy
  {
    set i | 2 <= i <= v :: legacy[i]
  }

  /** From a checkpoint of version v, the legacy upgrades v + 1, v + 2, ... are applied in
      increasing order, no two in the same round. */
  lemma {:induction false} LegacyInOrder(reg: Registry, legacy: map<int, Tag>, last: int, v: int, i: int, j: int)
    requires Chain(reg, legacy, last) && Consistent(reg) && v <= last
    requires 2 <= i < j <= last && v < i
    requires var tags := LegacyTags(legacy, v); RoundOf(reg, tags, ToApply(reg, tags), legacy[j]) >= 0
    ensures var tags := LegacyTags(legacy, v);
      0 <= RoundOf(reg, tags, ToApply(reg, tags), legacy[i]) < RoundOf(reg, tags, ToApply(reg, tags), legacy[j])
    decreases j - i
  {
    var tags := LegacyTags(legacy, v);
    var todo := ToApply(reg, tags);
    RoundOfApplied(reg, tags, todo, legacy[j]);
    assert Follows(reg, legacy, j);
    DependencyWaits(reg, tags, todo, legacy[j], legacy[j - 1]);
    if i < j - 1 {
      LegacyInOrder(reg, legacy, last, v, i, j - 1);
    }
  }

  // ----- the tags as text

  function WordLength(s: string): (k: nat)
    ensures k <= |s|
  {
    if s == [] || IsSpace(s[0]) then 0 else 1 + WordLength(s[1..])
  }

  /** The words of s, as `str.split()` gives them. */
  function Words(s: string): seq<string>
    decreases |s|
  {
    if s == [] then []
    else if IsSpace(s[0]) then Words(s[1..])
    else
      var k := WordLength(s);
      [s[..k]] + Words(s[k..])
  }

  /** `' '.join(words)`. */
  function JoinWords(words: seq<string>): string {
    if words == [] then ""
    else if |words| == 1 then words[0]
    else words[0] + " " + JoinWords(words[1..])
  }

  predicate IsWord(w: string) {
    w != "" && forall i :: 0 <= i < |w| ==> !IsSpace(w[i])
  }

  lemma {:induction false} WordLengthOf(w: string, rest: string)
    requires forall i :: 0 <= i < |w| ==> !IsSpace(w[i])
    requires rest == "" || IsSpace(rest[0])
    ensures WordLength(w + rest) == |w|
  {
    if w == "" {
      assert w + rest == rest;
    } else {
      WordLengthOf(w[1..], rest);
      assert (w + rest)[1..] == w[1..] + rest;
    }
  }

  lemma {:induction false} WordsOfJoin(words: seq<string>)
    requires forall i :: 0 <= i < |words| ==> IsWord(words[i])
    ensures Words(JoinWords(words)) == words
  {
    if |words| == 1 {
      var w := words[0];
      WordLengthOf(w, "");
      assert w + "" == w && w[|w|..] == "";
    } else if |words| > 1 {
      var w, rest := words[0], " " + JoinWords(words[1..]);
      WordLengthOf(w, rest);
      WordsOfJoin(words[1..]);
      assert JoinWords(words) == w + rest;
      assert (w + rest)[..|w|] == w && (w + rest)[|w|..] == rest;
      assert rest[1..] == JoinWords(words[1..]);
      assert Words(rest) == words[1..];
    }
  }

  /** Writing the tags of a successful run and reading them back loses nothing, whatever
      order they are written in, and processing them again changes nothing. */
  lemma SecondRunChangesNothing(reg: Registry, tags: set<Tag>, order: seq<Tag>)
    requires Consistent(reg) && Run(reg, tags, ToApply(reg, tags)).Applied?
    requires Lists(order, Run(reg, tags, ToApply(reg, tags)).tags)
    requires forall i :: 0 <= i < |order| ==> IsWord(order[i])
    ensures var again := Elements(Words(JoinWords(order)));
      again == (tags + reg.tagSet) - reg.untagSet && ToApply(reg, again) == {}
  {
    WordsOfJoin(order);
    FinalTags(reg, tags);
    assert Elements(order) == Run(reg, tags, ToApply(reg, tags)).tags;
  }

  // ----- a whole checkpoint

  datatype Version = Legacy(number: int) | Tagged(text: string) | Unversioned

  datatype FileResult = Done(processed: Processed) | NoVersionInformation | UnknownLegacyVersion

  /** The tag logic of `process_file`. */
  method ProcessFile(reg: Registry, legacy: map<int, Tag>, version: Version) returns (r: FileResult)
    requires Consistent(reg)
    ensures match version
      case Unversioned => r == NoVersionInformation
      case Legacy(v) =>
        if forall i :: 2 <= i <= v ==> i in legacy
        then r.Done? && Reports(reg, LegacyTags(legacy, v), true, r.processed)
        else r == UnknownLegacyVersion
      case Tagged(text) => r.Done? && Reports(reg, Elements(Words(text)), false, r.processed)
  {
    match version
    case Unversioned =>
      r := NoVersionInformation;
    case Legacy(v) =>
      var tags: set<Tag> := {};
      var i := 2;
      while i <= v
        invariant forall j :: 2 <= j < i ==> j in legacy
        invariant tags == set j | 2 <= j < i :: legacy[j]
        invariant i <= v + 1 || i == 2
      {
        if i !in legacy {
          return UnknownLegacyVersion;
        }
        tags := tags + {legacy[i]};
        i := i + 1;
      }
      assert tags == LegacyTags(legacy, v);
      var processed, log := Process(reg, tags, true);
      r := Done(processed);
    case Tagged(text) =>
      var words := Words(text);
      var tags := set w | w in words;
      var processed, log := Process(reg, tags, false);
      r := Done(processed);
  }

  ghost predicate Reports(reg: Registry, tags: set<Tag>, change: bool, r: Processed)
    requires Consistent(reg)
  {
    var todo := ToApply(reg, tags);
    match Run(reg, tags, todo)
    case Applied(final) => r == if change || todo != {} then Written(final) else Unchanged(final)
    case Impossible(unapplied) => r == Aborted(unapplied)
  }

  lemma {:induction false} UnappliedIsLeft(reg: Registry, tags: set<Tag>, todo: set<Tag>)
    requires todo <= reg.byTag.Keys && Run(reg, tags, todo).Impossible?
    ensures Run(reg, tags, todo).unapplied != {}
    decreases todo
  {
    var ready := ReadySet(reg, tags, todo);
    if ready != {} {
      UnappliedIsLeft(reg, AfterRound(reg, tags, ready), todo - ready);
    }
  }

  /** All upgrades are in the tags and no downgrade is. */
  ghost predicate UpToDate(reg: Registry, tags: set<Tag>) {
    (forall t :: t in reg.tagSet ==> t in tags) && (forall t :: t in reg.untagSet ==> t !in tags)
  }

  lemma NothingDueIff(reg: Registry, tags: set<Tag>)
    ensures ToApply(reg, tags) == {} <==> UpToDate(reg, tags)
  {
    if ToApply(reg, tags) == {} {
      forall t
        ensures t in reg.tagSet ==> t in tags
        ensures t in reg.untagSet ==> t !in tags
      {
        assert t !in ToApply(reg, tags);
      }
    }
  }

  /** What is reported: a file is left alone if and only if it has no old version and is up to
      date; otherwise it is written with the final tags, or the run stops with upgrades it could
      not apply. */
  lemma ReportIs(reg: Registry, tags: set<Tag>, change: bool, r: Processed)
    requires Consistent(reg) && Reports(reg, tags, change, r)
    ensures r.Unchanged? <==> !change && UpToDate(reg, tags)
    ensures !r.Aborted? ==> r.tags == (tags + reg.tagSet) - reg.untagSet
    ensures r.Aborted? ==> r.unapplied != {} && r.unapplied <= ToApply(reg, tags)
  {
    var todo := ToApply(reg, tags);
    NothingDueIff(reg, tags);
    if Run(reg, tags, todo).Applied? {
      FinalTags(reg, tags);
    } else {
      UnappliedIsLeft(reg, tags, todo);
      UnappliedWithin(reg, tags, todo);
    }
  }
}
