/**
 Which upgrades a checkpoint of a legacy version gets (gem5/util/cpt_upgrader.py): the chained
 ones above its version, in order.
 */
module LegacyUpgrades {
  import opened DowngradeOrder
  import opened Sequences
  import opened UpgradeScheduler

  /** The legacy chain, of upgraders only. */
  predicate ChainOfUpgrades(reg: Registry, legacy: map<int, Tag>, last: int) {
    Consistent(reg) && Chain(reg, legacy, last) && forall i :: 2 <= i <= last ==> legacy[i] in reg.tagSet
  }

  /** A legacy upgrade is due if and only if it is above the version of the checkpoint. */
  lemma LegacyDueIff(reg: Registry, legacy: map<int, Tag>, last: int, v: int, i: int)
    requires ChainOfUpgrades(reg, legacy, last) && 1 <= v <= last && 2 <= i <= last
    ensures legacy[i] in ToApply(reg, LegacyTags(legacy, v)) <==> i > v
  {
  }

  /** Versions v + 1, ..., last. */
  function Above(legacy: map<int, Tag>, v: int, last: int): (s: seq<Tag>)
    requires 1 <= v <= last && forall i :: 2 <= i <= last ==> i in legacy
    ensures |s| == last - v && forall k :: 0 <= k < |s| ==> s[k] == legacy[v + 1 + k]
  {
    seq(last - v, k requires 0 <= k < last - v => legacy[v + 1 + k])
  }

  /** The elements of s that are in keep, in order. */
  function Only(s: seq<Tag>, keep: set<Tag>): seq<Tag> {
    if s == [] then []
    else Only(s[..|s| - 1], keep) + if s[|s| - 1] in keep then [s[|s| - 1]] else []
  }

  /** t lists the elements of s in keep, each pair in its order in s. */
  ghost predicate Ranks(s: seq<Tag>, keep: set<Tag>, t: seq<Tag>) {
    && (forall x :: x in t <==> x in s && x in keep)
    && (forall i, j :: 0 <= i < j < |t| ==> Before(s, t[i], t[j]))
  }

  lemma BeforeWithoutLast(s: seq<Tag>, a: Tag, b: Tag)
    requires s != [] && Before(s, a, b) && b != s[|s| - 1]
    ensures Before(s[..|s| - 1], a, b)
  {
    var i, j :| 0 <= i < j < |s| && s[i] == a && s[j] == b;
    assert s[..|s| - 1][i] == a && s[..|s| - 1][j] == b;
  }

  lemma {:induction false} RanksIsOnly(s: seq<Tag>, keep: set<Tag>, t: seq<Tag>)
    requires Distinct(s) && Ranks(s, keep, t)
    ensures Only(s, keep) == t
  {
    var first := if t == [] then "" else t[0];
    assert t == [] || first in t;
    if s != [] {
      var init, x := s[..|s| - 1], s[|s| - 1];
      if x in keep {
        LastIsLast(s, keep, t);
        RanksOfInit(s, keep, t, t[..|t| - 1]);
        InitIsDistinct(s);
        RanksIsOnly(init, keep, t[..|t| - 1]);
        assert t == t[..|t| - 1] + [x];
      } else {
        RanksOfInit(s, keep, t, t);
        InitIsDistinct(s);
        RanksIsOnly(init, keep, t);
      }
    }
  }

  lemma InitIsDistinct(s: seq<Tag>)
    requires Distinct(s) && s != []
    ensures Distinct(s[..|s| - 1])
  {
  }

  lemma LastIsLast(s: seq<Tag>, keep: set<Tag>, t: seq<Tag>)
    requires Distinct(s) && Ranks(s, keep, t) && s != [] && s[|s| - 1] in keep
    ensures t != [] && t[|t| - 1] == s[|s| - 1]
  {
    var x := s[|s| - 1];
    assert x in t;
    var k :| 0 <= k < |t| && t[k] == x;
    if k < |t| - 1 {
      assert Before(s, t[k], t[|t| - 1]);
    }
  }

  lemma RanksOfInit(s: seq<Tag>, keep: set<Tag>, t: seq<Tag>, t': seq<Tag>)
    requires Distinct(s) && Ranks(s, keep, t) && s != []
    requires if s[|s| - 1] in keep then t != [] && t[|t| - 1] == s[|s| - 1] && t' == t[..|t| - 1] else t' == t
    ensures Ranks(s[..|s| - 1], keep, t')
  {
    var init, x := s[..|s| - 1], s[|s| - 1];
    assert s == init + [x] && x !in init;
    forall i, j | 0 <= i < j < |t'|
      ensures Before(init, t'[i], t'[j]) && t'[j] != x
    {
      NotLast(s, keep, t, j);
      BeforeWithoutLast(s, t'[i], t'[j]);
    }
    forall y
      ensures y in t' <==> y in init && y in keep
    {
      if y in t' {
        var j :| 0 <= j < |t'| && t'[j] == y;
        assert t[j] in t;
        NotLast(s, keep, t, j);
      } else if y in t {
        assert t == t' + [x] || t == t';
      }
    }
  }

  lemma NotLast(s: seq<Tag>, keep: set<Tag>, t: seq<Tag>, j: nat)
    requires Distinct(s) && Ranks(s, keep, t) && s != [] && j < |t|
    requires s[|s| - 1] in keep ==> j < |t| - 1 && t[|t| - 1] == s[|s| - 1]
    ensures t[j] != s[|s| - 1]
  {
    assert t[j] in t;
    if s[|s| - 1] in keep {
      assert Before(s, t[j], t[|t| - 1]);
    }
  }

  lemma LegacyBefore(reg: Registry, legacy: map<int, Tag>, last: int, v: int, log: seq<seq<Tag>>, i: int, j: int)
    requires ChainOfUpgrades(reg, legacy, last) && 1 <= v < i < j <= last
    requires var tags := LegacyTags(legacy, v);
      Run(reg, tags, ToApply(reg, tags)).Applied? && Schedule(reg, tags, ToApply(reg, tags), log)
    ensures Before(Flatten(log), legacy[i], legacy[j])
  {
    var tags := LegacyTags(legacy, v);
    var todo := ToApply(reg, tags);
    LegacyDueIff(reg, legacy, last, v, j);
    RoundOfApplied(reg, tags, todo, legacy[j]);
    LegacyInOrder(reg, legacy, last, v, i, j);
    InItsRound(reg, tags, todo, log, legacy[i]);
    InItsRound(reg, tags, todo, log, legacy[j]);
    RoundsInOrder(log, RoundOf(reg, tags, todo, legacy[i]), RoundOf(reg, tags, todo, legacy[j]), legacy[i], legacy[j]);
  }

  /** Main result: of the legacy upgrades, a successful run from version v applies exactly
      v + 1, ..., last, each once and in this order, whatever the order within rounds. */
  lemma LegacyAppliedInOrder(reg: Registry, legacy: map<int, Tag>, last: int, v: int, log: seq<seq<Tag>>)
    requires ChainOfUpgrades(reg, legacy, last) && 1 <= v <= last
    requires var tags := LegacyTags(legacy, v);
      Run(reg, tags, ToApply(reg, tags)).Applied? && Schedule(reg, tags, ToApply(reg, tags), log)
    ensures Only(Flatten(log), LegacyTags(legacy, last)) == Above(legacy, v, last)
  {
    var tags, all, t := LegacyTags(legacy, v), LegacyTags(legacy, last), Above(legacy, v, last);
    var todo, s := ToApply(reg, tags), Flatten(log);
    EachAppliedOnce(reg, tags, todo, log);
    forall i, j | 0 <= i < j < |t|
      ensures Before(s, t[i], t[j])
    {
      LegacyBefore(reg, legacy, last, v, log, v + 1 + i, v + 1 + j);
    }
    forall x
      ensures x in t <==> x in s && x in all
    {
      AboveAreApplied(reg, legacy, last, v, x);
    }
    RanksIsOnly(s, all, t);
  }

  lemma AboveAreApplied(reg: Registry, legacy: map<int, Tag>, last: int, v: int, x: Tag)
    requires ChainOfUpgrades(reg, legacy, last) && 1 <= v <= last
    ensures x in Above(legacy, v, last) <==> x in ToApply(reg, LegacyTags(legacy, v)) && x in LegacyTags(legacy, last)
  {
    var t := Above(legacy, v, last);
    if x in t {
      var k :| 0 <= k < |t| && t[k] == x;
      LegacyDueIff(reg, legacy, last, v, v + 1 + k);
    }
    if x in ToApply(reg, LegacyTags(legacy, v)) && x in LegacyTags(legacy, last) {
      var i :| 2 <= i <= last && legacy[i] == x;
      LegacyDueIff(reg, legacy, last, v, i);
      assert t[i - v - 1] == x;
    }
  }
}
