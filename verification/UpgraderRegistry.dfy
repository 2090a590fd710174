/**
 Loading the checkpoint upgraders (gem5/util/cpt_upgrader.py, class `Upgrader`): each
 script registers an object under its tag; then the legacy versions are chained, forward
 dependencies are resolved and all dependencies are checked.
 */
module UpgraderRegistry {
  import opened Options
  import opened UpgradeScheduler

  datatype Role = Upgrades | Downgrades | Neither

  /** What an upgrader script defines. */
  datatype Script = Script(tag: Tag, role: Role, depends: seq<Tag>, fwdDepends: seq<Tag>, legacyVersion: Option<int>)

  datatype Upgrader = Upgrader(tag: Tag, upgrade: bool, depends: seq<Tag>, fwdDepends: seq<Tag>)

  datatype LoadError = NoMethod(tag: Tag) | LegacyGap | UnknownDependency(tag: Tag, dep: Tag)

  /** The class-level dictionaries of `Upgrader`, as a value; objects are positions in
      objs. */
  datatype Catalogue = Catalogue(objs: seq<Upgrader>, byTag: map<Tag, nat>, legacy: map<int, nat>) {
    ghost predicate Valid() {
      && (forall t :: t in byTag ==> byTag[t] < |objs| && objs[byTag[t]].tag == t)
      && (forall k :: 0 <= k < |objs| ==> objs[k].tag in byTag)
      && (forall i :: i in legacy ==> legacy[i] < |objs|)
      && (forall i, j :: i in legacy && j in legacy && i != j ==> legacy[i] != legacy[j])
    }

    /** The source's rule that a tag can only be used once. */
    ghost predicate TagsUsedOnce() {
      forall j, k :: 0 <= j < k < |objs| ==> objs[j].tag != objs[k].tag
    }

    /** Every dependency of t names a known tag, and so does every tag that t declares to
        depend on it, which then does. */
    ghost predicate Resolved(t: Tag)
      requires Valid()
    {
      && t in byTag
      && (forall dep :: dep in objs[byTag[t]].depends ==> dep in byTag)
      && (forall fd :: fd in objs[byTag[t]].fwdDepends ==> fd in byTag && t in objs[byTag[fd]].depends)
    }

    /** Version j depends first of all on version j - 1. */
    ghost predicate Chained(j: int)
      requires Valid()
    {
      && j in legacy && j - 1 in legacy && |objs[legacy[j]].depends| > 0
      && objs[legacy[j]].depends[0] == objs[legacy[j - 1]].tag
    }
  }

  function Registered(c: Catalogue, script: Script): Catalogue {
    Catalogue(c.objs + [Upgrader(script.tag, script.role == Upgrades, script.depends, script.fwdDepends)],
              c.byTag[script.tag := |c.objs|],
              if script.legacyVersion.Some? then c.legacy[script.legacyVersion.value := |c.objs|] else c.legacy)
  }

  function WithDepends(c: Catalogue, k: nat, depends: seq<Tag>): Catalogue
    requires k < |c.objs|
  {
    c.(objs := c.objs[k := c.objs[k].(depends := depends)])
  }

  /** c' differs from c at most in dependencies, and those only grow at the end. */
  ghost predicate Extends(c: Catalogue, c': Catalogue) {
    && c'.byTag == c.byTag && c'.legacy == c.legacy && |c'.objs| == |c.objs|
    && forall k :: 0 <= k < |c.objs| ==>
      && c'.objs[k].tag == c.objs[k].tag && c'.objs[k].upgrade == c.objs[k].upgrade
      && c'.objs[k].fwdDepends == c.objs[k].fwdDepends && c.objs[k].depends <= c'.objs[k].depends
  }

  lemma RegisteredIsValid(c: Catalogue, script: Script)
    requires c.Valid()
    ensures Registered(c, script).Valid()
  {
  }

  lemma WithDependsIsValid(c: Catalogue, k: nat, depends: seq<Tag>)
    requires c.Valid() && k < |c.objs|
    ensures WithDepends(c, k, depends).Valid()
  {
  }

  lemma ExtendsKeeps(c: Catalogue, c': Catalogue)
    requires c.Valid() && Extends(c, c')
    ensures c'.Valid()
    ensures forall j :: c.Chained(j) ==> c'.Chained(j)
    ensures forall t, fd :: fd in c.byTag && t in c.objs[c.byTag[fd]].depends ==> t in c'.objs[c'.byTag[fd]].depends
  {
  }

  // ----- the class

  /** The tags of the upgraders, or of the downgraders. */
  function TagsOf(objs: seq<Upgrader>, upgrade: bool): set<Tag> {
    set k | 0 <= k < |objs| && objs[k].upgrade == upgrade :: objs[k].tag
  }

  lemma TagsOfOneMore(objs: seq<Upgrader>, o: Upgrader)
    ensures TagsOf(objs + [o], o.upgrade) == TagsOf(objs, o.upgrade) + {o.tag}
    ensures TagsOf(objs + [o], !o.upgrade) == TagsOf(objs, !o.upgrade)
  {
    var all := objs + [o];
    assert forall k :: 0 <= k < |objs| ==> all[k] == objs[k];
    forall t | t in TagsOf(objs, o.upgrade) + {o.tag} ensures t in TagsOf(all, o.upgrade) {
      if t == o.tag {
        assert all[|objs|].tag == t;
      } else {
        var k :| 0 <= k < |objs| && objs[k].upgrade == o.upgrade && objs[k].tag == t;
        assert all[k].tag == t;
      }
    }
    var other := !o.upgrade;
    forall t | t in TagsOf(objs, other) ensures t in TagsOf(all, other) {
      var k :| 0 <= k < |objs| && objs[k].upgrade == other && objs[k].tag == t;
      assert all[k].tag == t;
    }
  }

  class Upgraders {
    var objs: seq<Upgrader>
    var tagSet: set<Tag>
    var untagSet: set<Tag>
    var byTag: map<Tag, nat>
    var legacy: map<int, nat>

    ghost function Contents(): Catalogue
      reads this
    {
      Catalogue(objs, byTag, legacy)
    }

    ghost predicate Valid()
      reads this
    {
      Contents().Valid() && tagSet == TagsOf(objs, true) && untagSet == TagsOf(objs, false)
    }

    constructor ()
      ensures Valid() && Contents() == Catalogue([], map[], map[])
    {
      objs, tagSet, untagSet, byTag, legacy := [], {}, {}, map[], map[];
    }

    /** `Upgrader.__init__`. */
    method Load(script: Script) returns (error: Option<LoadError>)
      requires Valid()
      modifies this
      ensures Valid()
      ensures error == if script.role == Neither then Some(NoMethod(script.tag)) else None
      ensures Contents() == if script.role == Neither then old(Contents()) else Registered(old(Contents()), script)
    {
      if script.role == Neither {
        return Some(NoMethod(script.tag));
      }
      var o := Upgrader(script.tag, script.role == Upgrades, script.depends, script.fwdDepends);
      RegisteredIsValid(Contents(), script);
      TagsOfOneMore(objs, o);
      if script.role == Upgrades {
        tagSet := tagSet + {script.tag};
      } else {
        untagSet := untagSet + {script.tag};
      }
      if script.legacyVersion.Some? {
        legacy := legacy[script.legacyVersion.value := |objs|];
      }
      byTag := byTag[script.tag := |objs|];
      objs := objs + [o];
      error := None;
    }

    method SetDepends(k: nat, depends: seq<Tag>)
      requires Valid() && k < |objs|
      modifies this`objs
      ensures Valid() && Contents() == WithDepends(old(Contents()), k, depends)
    {
      WithDependsIsValid(Contents(), k, depends);
      objs := objs[k := objs[k].(depends := depends)];
      SameTagSets(old(objs), objs);
    }

    /** The legacy loop of `load_all`: versions 3, 4, ..., as far as they go without a
        gap, depend on their predecessor. */
    method ChainLegacy() returns (error: Option<LoadError>, ghost end: int)
      requires Valid()
      modifies this`objs
      ensures Valid() && SameIdentities(old(objs), objs)
      ensures OnlyVersionsChanged(old(objs), Contents(), end)
      ensures error == if 3 in legacy && 2 !in legacy then Some(LegacyGap) else None
      ensures error.None? ==> end >= 3 && end !in legacy && ChainedBelow(Contents(), end)
    {
      var i := 3;
      end := 3;
      ghost var start := objs;
      while i in legacy
        invariant Valid() && end == i && ChainedSoFar(start, Contents(), i)
        decreases From(legacy, i)
      {
        if i - 1 !in legacy {
          return Some(LegacyGap), end;
        }
        var deps := [objs[legacy[i - 1]].tag];
        ChainOneMore(start, Contents(), i, deps);
        SetDepends(legacy[i], deps);
        FromShrinks(legacy, i);
        i := i + 1;
        end := i;
      }
      error := None;
    }

    /** Forward dependencies of a tag: each declared tag gets it as a dependency. */
    method ResolveForward(tag: Tag) returns (error: Option<LoadError>)
      requires Valid() && tag in byTag
      modifies this`objs
      ensures Valid() && Grown(old(Contents()), Contents(), tag)
      ensures error.None? ==> ForwardSoFar(old(Contents()), Contents(), tag, |objs[byTag[tag]].fwdDepends|)
      ensures error.Some? ==> exists dep :: error == Some(UnknownDependency(tag, dep)) && Unknown(Contents(), tag, dep)
    {
      ghost var start := Contents();
      var fwd := objs[byTag[tag]].fwdDepends;
      for i := 0 to |fwd|
        invariant Valid() && ForwardSoFar(start, Contents(), tag, i)
      {
        var fd := fwd[i];
        if fd !in byTag {
          assert Unknown(Contents(), tag, fd);
          return Some(UnknownDependency(tag, fd));
        }
        OneMoreForward(start, Contents(), tag, i);
        SetDepends(byTag[fd], objs[byTag[fd]].depends + [tag]);
      }
      error := None;
    }

    /** The check of a tag's own dependencies. */
    method CheckDepends(tag: Tag) returns (error: Option<LoadError>)
      requires Valid() && tag in byTag
      ensures error.None? ==> forall dep :: dep in objs[byTag[tag]].depends ==> dep in byTag
      ensures error.Some? ==> exists dep :: error == Some(UnknownDependency(tag, dep)) && Unknown(Contents(), tag, dep)
    {
      var deps := objs[byTag[tag]].depends;
      for i := 0 to |deps|
        invariant forall j :: 0 <= j < i ==> deps[j] in byTag
      {
        if deps[i] !in byTag {
          assert Unknown(Contents(), tag, deps[i]);
          return Some(UnknownDependency(tag, deps[i]));
        }
      }
      error := None;
    }

    /** The body of the resolving loop of `load_all`, for one tag. */
    method Resolve(tag: Tag) returns (error: Option<LoadError>)
      requires Valid() && tag in byTag
      modifies this`objs
      ensures Valid() && Grown(old(Contents()), Contents(), tag)
      ensures error.None? ==> Contents().Resolved(tag)
      ensures error.Some? ==> exists dep :: error == Some(UnknownDependency(tag, dep)) && Unknown(Contents(), tag, dep)
    {
      error := ResolveForward(tag);
      if error.None? {
        error := CheckDepends(tag);
      }
    }

    method ResolveAll() returns (error: Option<LoadError>)
      requires Valid()
      modifies this`objs
      ensures Valid() && ExtendsForward(old(Contents()), Contents())
      ensures error.None? ==> forall t :: t in byTag ==> Contents().Resolved(t)
      ensures error.Some? ==> exists t, dep :: t in byTag && error == Some(UnknownDependency(t, dep)) && Unknown(Contents(), t, dep)
    {
      var rest := byTag.Keys;
      while rest != {}
        invariant Valid() && rest <= byTag.Keys && ExtendsForward(old(Contents()), Contents())
        invariant forall t :: t in byTag && t !in rest ==> Contents().Resolved(t)
      {
        var tag :| tag in rest;
        ghost var before := Contents();
        error := Resolve(tag);
        ExtendsForwardTwice(old(Contents()), before, Contents());
        if error.Some? {
          return;
        }
        forall t | t in byTag && t !in rest - {tag} ensures Contents().Resolved(t) {
          if t != tag {
            ResolvedStays(before, Contents(), tag, t);
          }
        }
        rest := rest - {tag};
      }
      error := None;
    }

    method LoadScripts(scripts: seq<Script>) returns (error: Option<LoadError>)
      requires Valid() && Contents() == Catalogue([], map[], map[])
      modifies this
      ensures Valid()
      ensures error.None? ==> JustLoaded(scripts, objs)
      ensures error.Some? ==> error.value.NoMethod? && Explains(scripts, Contents(), error.value)
    {
      for k := 0 to |scripts|
        invariant Valid() && JustLoaded(scripts[..k], objs)
      {
        LoadOneMore(scripts, k, Contents());
        error := Load(scripts[k]);
        if error.Some? {
          return;
        }
      }
      assert scripts[..|scripts|] == scripts;
      error := None;
    }

    /** `load_all`. */
    method LoadAll(scripts: seq<Script>) returns (error: Option<LoadError>, ghost end: int)
      requires Valid() && Contents() == Catalogue([], map[], map[])
      modifies this
      ensures Valid()
      ensures error.None? ==>
        && (forall k :: 0 <= k < |scripts| ==> scripts[k].role != Neither)
        && Loaded(scripts, objs)
        && (forall k :: 0 <= k < |scripts| ==> DependsAsDeclared(scripts, Contents(), end, k))
        && (forall t :: t in byTag ==> Contents().Resolved(t))
        && end >= 3 && end !in legacy && ChainedBelow(Contents(), end)
      ensures error.Some? ==> Explains(scripts, Contents(), error.value)
    {
      end := 3;
      error := LoadScripts(scripts);
      if error.Some? {
        return;
      }
      error, end := ChainLegacy();
      if error.Some? {
        return;
      }
      ghost var chained := Contents();
      error := ResolveAll();
      if error.None? {
        ExtendsKeeps(chained, Contents());
        DeclaredAfterForward(scripts, chained, Contents(), end);
      }
    }
  }

  /** Why loading stopped. */
  ghost predicate Explains(scripts: seq<Script>, c: Catalogue, error: LoadError)
    requires c.Valid()
  {
    match error
    case NoMethod(t) => exists k :: 0 <= k < |scripts| && scripts[k].role == Neither && scripts[k].tag == t
    case LegacyGap => 3 in c.legacy && 2 !in c.legacy
    case UnknownDependency(t, dep) => Unknown(c, t, dep)
  }

  /** objs are the objects of scripts, in order, up to dependencies. */
  ghost predicate Loaded(scripts: seq<Script>, objs: seq<Upgrader>) {
    && |objs| == |scripts|
    && forall k :: 0 <= k < |objs| ==>
      objs[k].tag == scripts[k].tag && objs[k].upgrade == (scripts[k].role == Upgrades) && objs[k].fwdDepends == scripts[k].fwdDepends
  }

  ghost predicate JustLoaded(scripts: seq<Script>, objs: seq<Upgrader>) {
    && Loaded(scripts, objs)
    && forall k :: 0 <= k < |objs| ==> scripts[k].role != Neither && objs[k].depends == scripts[k].depends
  }

  lemma LoadOneMore(scripts: seq<Script>, k: nat, c: Catalogue)
    requires k < |scripts| && JustLoaded(scripts[..k], c.objs)
    ensures scripts[k].role != Neither ==> JustLoaded(scripts[..k + 1], Registered(c, scripts[k]).objs)
  {
  }

  /** The dependencies of object k: those of its script, or just the previous version if
      it belongs to the legacy chain, and then forward dependencies on it. */
  ghost predicate DependsAsDeclared(scripts: seq<Script>, c: Catalogue, end: int, k: nat)
    requires k < |scripts| && k < |c.objs|
  {
    && (Versioned(c, end, k) || scripts[k].depends <= c.objs[k].depends)
    && forall dep :: dep in c.objs[k].depends ==>
      dep in scripts[k].depends || Forward(c, dep, k) || Versioned(c, end, k)
  }

  lemma DeclaredAfterForward(scripts: seq<Script>, c: Catalogue, c': Catalogue, end: int)
    requires |scripts| == |c.objs| && ExtendsForward(c, c')
    requires forall k: nat :: k < |scripts| ==> c.objs[k].depends == scripts[k].depends || Versioned(c, end, k)
    ensures forall k :: 0 <= k < |scripts| ==> DependsAsDeclared(scripts, c', end, k)
  {
    forall k: nat | k < |scripts| ensures DependsAsDeclared(scripts, c', end, k) {
      assert Versioned(c', end, k) <==> Versioned(c, end, k);
      forall dep | dep in c'.objs[k].depends && !Versioned(c', end, k)
        ensures dep in scripts[k].depends || Forward(c', dep, k)
      {
        assert dep in c.objs[k].depends || Forward(c, dep, k);
      }
    }
  }

  /** dep is declared by t, one way or the other, but no tag. */
  ghost predicate Unknown(c: Catalogue, t: Tag, dep: Tag)
    requires c.Valid()
  {
    && t in c.byTag && dep !in c.byTag
    && (dep in c.objs[c.byTag[t]].depends || dep in c.objs[c.byTag[t]].fwdDepends)
  }

  /** t declares that object k depends on it. */
  ghost predicate Forward(c: Catalogue, t: Tag, k: nat) {
    t in c.byTag && c.byTag[t] < |c.objs| && k < |c.objs| && c.objs[k].tag in c.objs[c.byTag[t]].fwdDepends
  }

  /** c' extends c by forward dependencies only. */
  ghost predicate ExtendsForward(c: Catalogue, c': Catalogue) {
    && Extends(c, c')
    && forall k: nat, dep :: k < |c.objs| && dep in c'.objs[k].depends ==> dep in c.objs[k].depends || Forward(c, dep, k)
  }

  /** c' extends c by forward dependencies of tag only. */
  ghost predicate Grown(c: Catalogue, c': Catalogue, tag: Tag) {
    && ExtendsForward(c, c')
    && forall k, dep :: 0 <= k < |c.objs| && dep in c'.objs[k].depends ==> dep in c.objs[k].depends || dep == tag
  }

  lemma ExtendsForwardTwice(c: Catalogue, c': Catalogue, c'': Catalogue)
    requires ExtendsForward(c, c') && ExtendsForward(c', c'')
    ensures ExtendsForward(c, c'')
  {
    forall k: nat, dep | k < |c.objs| && dep in c''.objs[k].depends
      ensures dep in c.objs[k].depends || Forward(c, dep, k)
    {
      assert dep in c'.objs[k].depends || Forward(c', dep, k);
    }
  }

  lemma GrownTwice(c: Catalogue, c': Catalogue, c'': Catalogue, tag: Tag)
    requires Grown(c, c', tag) && Grown(c', c'', tag)
    ensures Grown(c, c'', tag)
  {
    ExtendsForwardTwice(c, c', c'');
  }

  /** Appending tag to the dependencies of a tag it declares forward. */
  lemma AppendGrows(c: Catalogue, tag: Tag, fd: Tag)
    requires c.Valid() && tag in c.byTag && fd in c.byTag && fd in c.objs[c.byTag[tag]].fwdDepends
    ensures Grown(c, WithDepends(c, c.byTag[fd], c.objs[c.byTag[fd]].depends + [tag]), tag)
  {
  }

  /** The first i forward dependencies of tag are resolved, starting from c. */
  ghost predicate ForwardSoFar(c: Catalogue, c': Catalogue, tag: Tag, i: nat) {
    && Grown(c, c', tag)
    && c'.Valid() && tag in c'.byTag
    && var fwd := c'.objs[c'.byTag[tag]].fwdDepends;
       && i <= |fwd|
       && forall j :: 0 <= j < i ==> fwd[j] in c'.byTag && tag in c'.objs[c'.byTag[fwd[j]]].depends
  }

  lemma OneMoreForward(c: Catalogue, c': Catalogue, tag: Tag, i: nat)
    requires ForwardSoFar(c, c', tag, i) && i < |c'.objs[c'.byTag[tag]].fwdDepends|
    requires c'.objs[c'.byTag[tag]].fwdDepends[i] in c'.byTag
    ensures var k := c'.byTag[c'.objs[c'.byTag[tag]].fwdDepends[i]];
      ForwardSoFar(c, WithDepends(c', k, c'.objs[k].depends + [tag]), tag, i + 1)
  {
    var fd := c'.objs[c'.byTag[tag]].fwdDepends[i];
    var k := c'.byTag[fd];
    var more := c'.objs[k].depends + [tag];
    WithDependsIsValid(c', k, more);
    AppendGrows(c', tag, fd);
    GrownTwice(c, c', WithDepends(c', k, more), tag);
  }

  lemma ResolvedStays(c: Catalogue, c': Catalogue, tag: Tag, t: Tag)
    requires c.Valid() && c'.Valid() && Grown(c, c', tag) && tag in c.byTag && c.Resolved(t)
    ensures c'.Resolved(t)
  {
    ExtendsKeeps(c, c');
  }

  ghost function From(legacy: map<int, nat>, i: int): set<int> {
    set k | k in legacy && k >= i
  }

  ghost predicate SameIdentities(objs: seq<Upgrader>, objs': seq<Upgrader>) {
    && |objs'| == |objs|
    && forall k :: 0 <= k < |objs| ==>
      objs'[k].tag == objs[k].tag && objs'[k].upgrade == objs[k].upgrade && objs'[k].fwdDepends == objs[k].fwdDepends
  }

  /** Object k is the upgrader of one of the legacy versions 3 .. end - 1. */
  ghost predicate Versioned(c: Catalogue, end: int, k: nat) {
    exists j :: 3 <= j < end && j in c.legacy && c.legacy[j] == k
  }

  ghost predicate OnlyVersionsChanged(objs: seq<Upgrader>, c: Catalogue, end: int) {
    |c.objs| == |objs| && forall k: nat :: k < |objs| ==> c.objs[k].depends == objs[k].depends || Versioned(c, end, k)
  }

  lemma ChangeOneMore(objs: seq<Upgrader>, c: Catalogue, i: int, deps: seq<Tag>)
    requires OnlyVersionsChanged(objs, c, i) && 3 <= i && i in c.legacy && c.legacy[i] < |c.objs|
    ensures OnlyVersionsChanged(objs, WithDepends(c, c.legacy[i], deps), i + 1)
  {
    var c' := WithDepends(c, c.legacy[i], deps);
    forall k: nat | k < |objs| ensures c'.objs[k].depends == objs[k].depends || Versioned(c', i + 1, k) {
      if k != c.legacy[i] && c.objs[k].depends != objs[k].depends {
        var j :| 3 <= j < i && j in c.legacy && c.legacy[j] == k;
        assert j in c'.legacy;
      }
    }
  }

  ghost predicate ChainedBelow(c: Catalogue, end: int)
    requires c.Valid()
  {
    forall j :: 3 <= j < end ==> c.Chained(j)
  }

  /** The legacy loop before version i, having started with objs. */
  ghost predicate ChainedSoFar(objs: seq<Upgrader>, c: Catalogue, i: int)
    requires c.Valid()
  {
    && SameIdentities(objs, c.objs) && OnlyVersionsChanged(objs, c, i) && ChainedBelow(c, i)
    && i >= 3 && (i > 3 ==> i - 1 in c.legacy && 2 in c.legacy)
  }

  lemma ChainOneMore(objs: seq<Upgrader>, c: Catalogue, i: int, deps: seq<Tag>)
    requires c.Valid() && i in c.legacy && i - 1 in c.legacy && deps == [c.objs[c.legacy[i - 1]].tag]
    requires ChainedSoFar(objs, c, i)
    ensures var c' := WithDepends(c, c.legacy[i], deps); c'.Valid() && ChainedSoFar(objs, c', i + 1)
  {
    WithDependsIsValid(c, c.legacy[i], deps);
    ChainBelowOneMore(c, i, deps);
    ChangeOneMore(objs, c, i, deps);
  }

  lemma ChainBelowOneMore(c: Catalogue, i: int, deps: seq<Tag>)
    requires c.Valid() && i in c.legacy && i - 1 in c.legacy && deps == [c.objs[c.legacy[i - 1]].tag]
    requires ChainedBelow(c, i) && WithDepends(c, c.legacy[i], deps).Valid()
    ensures ChainedBelow(WithDepends(c, c.legacy[i], deps), i + 1)
  {
    var c' := WithDepends(c, c.legacy[i], deps);
    forall j | 3 <= j <= i ensures c'.Chained(j) {
      assert j < i ==> c.Chained(j);
    }
  }

  lemma FromShrinks(legacy: map<int, nat>, i: int)
    requires i in legacy
    ensures From(legacy, i + 1) < From(legacy, i)
  {
    assert i in From(legacy, i) && i !in From(legacy, i + 1);
  }

  lemma SameTagSets(objs: seq<Upgrader>, objs': seq<Upgrader>)
    requires SameIdentities(objs, objs')
    ensures forall upgrade :: TagsOf(objs', upgrade) == TagsOf(objs, upgrade)
  {
  }

  // ----- what the scheduler gets

  ghost function View(c: Catalogue): Registry
    requires c.Valid()
  {
    Registry(TagsOf(c.objs, true), TagsOf(c.objs, false),
             map t | t in c.byTag :: Migration(c.objs[c.byTag[t]].upgrade, c.objs[c.byTag[t]].depends))
  }

  ghost function LegacyView(c: Catalogue): map<int, Tag>
    requires c.Valid()
  {
    map i | i in c.legacy :: c.objs[c.legacy[i]].tag
  }

  lemma ByTagOf(c: Catalogue, k: nat)
    requires c.Valid() && c.TagsUsedOnce() && k < |c.objs|
    ensures c.objs[k].tag in c.byTag && c.byTag[c.objs[k].tag] == k
  {
  }

  lemma ViewIsConsistent(c: Catalogue)
    requires c.Valid() && c.TagsUsedOnce()
    ensures Consistent(View(c))
  {
    forall k | 0 <= k < |c.objs| ensures c.objs[k].tag in c.byTag && c.byTag[c.objs[k].tag] == k {
      ByTagOf(c, k);
    }
    forall t | t in c.byTag ensures t in TagsOf(c.objs, c.objs[c.byTag[t]].upgrade) {
      assert c.objs[c.byTag[t]].tag == t;
    }
  }

  /** If every tag is used once, the registry is what the scheduler relies on: one
      migration per tag, and legacy versions chained up to the first gap. */
  lemma LoadedForScheduler(c: Catalogue, end: int)
    requires c.Valid() && c.TagsUsedOnce() && ChainedBelow(c, end) && 3 <= end && 2 in c.legacy
    ensures Consistent(View(c))
    ensures Chain(View(c), LegacyView(c), end - 1)
  {
    ViewIsConsistent(c);
    var reg, legacy := View(c), LegacyView(c);
    forall i | 2 <= i < end ensures i in legacy && legacy[i] in reg.byTag {
      if i > 2 {
        assert c.Chained(i);
      }
    }
    forall i | 3 <= i < end ensures Follows(reg, legacy, i) {
      assert c.Chained(i);
      ByTagOf(c, c.legacy[i]);
      assert c.objs[c.legacy[i]].depends[0] in c.objs[c.legacy[i]].depends;
    }
    forall i, j | 2 <= i < j < end ensures legacy[i] != legacy[j] {
      assert i in legacy && j in legacy;
      ByTagOf(c, c.legacy[i]);
      ByTagOf(c, c.legacy[j]);
    }
  }
}
