/**
 The print queue of the O3 pipeline viewer (gem5/util/o3-pipeview.py): instructions
 arrive nearly in order, are kept until there are more than max_threshold of them, are
 then sorted by sequence number and printed until min_threshold remain.
 */
module ReorderBuffer {
  import Sorting
  import Grid

  datatype Inst = Inst(sn: int, fetch: int, retire: int, text: string)

  /** The per-instruction filters; 0 (or less) switches a bound off. */
  datatype Bounds = Bounds(snStart: int, snStop: int, tickStart: int, tickStop: int, onlyCommitted: bool)

  predicate Passes(b: Bounds, x: Inst) {
    && !(b.snStart > 0 && x.sn < b.snStart)
    && !(b.snStop > 0 && x.sn > b.snStop)
    && !(b.tickStart > 0 && x.fetch < b.tickStart)
    && !(b.tickStop > 0 && x.fetch > b.tickStop)
    && !(b.onlyCommitted && x.retire == 0)
  }

  function Filter(b: Bounds, s: seq<Inst>): seq<Inst> {
    if s == [] then []
    else Filter(b, s[..|s| - 1]) + (if Passes(b, s[|s| - 1]) then [s[|s| - 1]] else [])
  }

  // ----- sorting by sequence number

  predicate BySn(a: Inst, b: Inst) {
    a.sn <= b.sn
  }

  function Sort(s: seq<Inst>): seq<Inst> {
    Sorting.Sort(BySn, s)
  }

  predicate Sorted(s: seq<Inst>) {
    forall i, j :: 0 <= i < j < |s| ==> s[i].sn <= s[j].sn
  }

  /** How many elements of s have a larger sequence number than x. */
  function Above(s: seq<Inst>, x: int): nat {
    if s == [] then 0 else Above(s[..|s| - 1], x) + (if s[|s| - 1].sn > x then 1 else 0)
  }

  lemma {:induction false} FilterConcat(b: Bounds, s: seq<Inst>, t: seq<Inst>)
    ensures Filter(b, s + t) == Filter(b, s) + Filter(b, t)
  {
    if t == [] {
      assert s + t == s;
    } else {
      FilterConcat(b, s, t[..|t| - 1]);
      assert (s + t)[..|s + t| - 1] == s + t[..|t| - 1];
    }
  }

  lemma {:induction false} AboveConcat(s: seq<Inst>, t: seq<Inst>, x: int)
    ensures Above(s + t, x) == Above(s, x) + Above(t, x)
  {
    if t == [] {
      assert s + t == s;
    } else {
      AboveConcat(s, t[..|t| - 1], x);
      assert (s + t)[..|s + t| - 1] == s + t[..|t| - 1];
    }
  }

  lemma {:induction false} AboveAll(s: seq<Inst>, x: int)
    ensures Above(s, x) <= |s|
    ensures (forall i :: 0 <= i < |s| ==> s[i].sn > x) ==> Above(s, x) == |s|
    ensures (forall i :: 0 <= i < |s| ==> s[i].sn <= x) <==> Above(s, x) == 0
  {
    if s != [] {
      AboveAll(s[..|s| - 1], x);
    }
  }

  /** Removing one occurrence of the last element of s from a permutation t of s. */
  lemma Unshuffle(s: seq<Inst>, t: seq<Inst>) returns (i: nat)
    requires multiset(s) == multiset(t) && s != []
    ensures i < |t| && t[i] == s[|s| - 1]
    ensures t == t[..i] + [t[i]] + t[i + 1..]
    ensures multiset(s[..|s| - 1]) == multiset(t[..i] + t[i + 1..])
  {
    assert s == s[..|s| - 1] + [s[|s| - 1]];
    assert s[|s| - 1] in multiset(t);
    i :| 0 <= i < |t| && t[i] == s[|s| - 1];
    assert t == t[..i] + [t[i]] + t[i + 1..];
    calc {
      multiset(s[..|s| - 1]);
      multiset(s) - multiset{t[i]};
      multiset(t[..i]) + multiset{t[i]} + multiset(t[i + 1..]) - multiset{t[i]};
      multiset(t[..i] + t[i + 1..]);
    }
  }

  lemma {:induction false} AboveOfPermutation(s: seq<Inst>, t: seq<Inst>, x: int)
    requires multiset(s) == multiset(t)
    ensures Above(s, x) == Above(t, x)
    decreases |s|
  {
    if s != [] {
      var i := Unshuffle(s, t);
      AboveOfPermutation(s[..|s| - 1], t[..i] + t[i + 1..], x);
      AboveConcat(t[..i], t[i + 1..], x);
      AboveConcat(t[..i] + [t[i]], t[i + 1..], x);
      AboveConcat(t[..i], [t[i]], x);
    } else {
      assert |multiset(t)| == 0;
    }
  }

  lemma {:induction false} FilterOfPermutation(b: Bounds, s: seq<Inst>, t: seq<Inst>)
    requires multiset(s) == multiset(t)
    ensures multiset(Filter(b, s)) == multiset(Filter(b, t))
    decreases |s|
  {
    if s != [] {
      var i := Unshuffle(s, t);
      FilterOfPermutation(b, s[..|s| - 1], t[..i] + t[i + 1..]);
      FilterConcat(b, t[..i], t[i + 1..]);
      FilterConcat(b, t[..i] + [t[i]], t[i + 1..]);
      FilterConcat(b, t[..i], [t[i]]);
    } else {
      assert |multiset(t)| == 0;
    }
  }

  lemma SortCorrect(s: seq<Inst>)
    ensures Sorted(Sort(s)) && multiset(Sort(s)) == multiset(s) && |Sort(s)| == |s|
  {
    Sorting.SortCorrect(BySn, s);
    forall i, j | 0 <= i < j < |Sort(s)|
      ensures Sort(s)[i].sn <= Sort(s)[j].sn
    {
      assert BySn(Sort(s)[i], Sort(s)[j]);
    }
  }

  // ----- the queue

  /** queue: instructions waiting; popped: instructions taken off it, in order, which is
      what gets printed unless a filter drops it. */
  datatype Buffer = Buffer(queue: seq<Inst>, popped: seq<Inst>)

  datatype Thresholds = Thresholds(min: nat, max: nat)

  /** `print_insts`. */
  function AfterPrint(b: Buffer, lower: nat): (r: Buffer) {
    var q := Sort(b.queue);
    if |q| <= lower then Buffer(q, b.popped)
    else Buffer(q[|q| - lower..], b.popped + q[..|q| - lower])
  }

  /** `queue_inst`. */
  function AfterQueue(t: Thresholds, b: Buffer, x: Inst): Buffer {
    var b' := b.(queue := b.queue + [x]);
    if |b'.queue| > t.max then AfterPrint(b', t.min) else b'
  }

  /** The buffer after the instructions of input have arrived. */
  function Feed(t: Thresholds, input: seq<Inst>): Buffer {
    if input == [] then Buffer([], [])
    else AfterQueue(t, Feed(t, input[..|input| - 1]), input[|input| - 1])
  }

  /** All instructions in the order they are taken off, end-of-file flush included. */
  function Order(t: Thresholds, input: seq<Inst>): seq<Inst> {
    AfterPrint(Feed(t, input), 0).popped
  }

  /** The number of arrivals at the last time printing started, among n arrivals. */
  function Flushed(t: Thresholds, n: nat): (f: nat)
    ensures f <= n
  {
    if n == 0 then 0
    else if Held(t, Flushed(t, n - 1), n - 1) + 1 > t.max then n
    else Flushed(t, n - 1)
  }

  function Held(t: Thresholds, flushed: nat, n: nat): nat
    requires flushed <= n
  {
    if flushed == 0 then n else t.min + n - flushed
  }

  lemma AfterPrintIs(b: Buffer, lower: nat)
    ensures var q := Sort(b.queue);
      var k := if |q| <= lower then 0 else |q| - lower;
      AfterPrint(b, lower) == Buffer(q[k..], b.popped + q[..k])
  {
    assert b.popped + [] == b.popped;
  }

  lemma SplitMultiset(p: seq<Inst>, q: seq<Inst>, k: nat)
    requires k <= |q|
    ensures multiset(p + q[..k] + q[k..]) == multiset(p) + multiset(q)
  {
    assert q == q[..k] + q[k..];
  }

  lemma PrintKeeps(b: Buffer, lower: nat)
    ensures var r := AfterPrint(b, lower);
      && multiset(r.popped + r.queue) == multiset(b.popped + b.queue)
      && |r.queue| == (if |b.queue| <= lower then |b.queue| else lower)
      && Sorted(r.queue)
  {
    SortCorrect(b.queue);
    AfterPrintIs(b, lower);
    var q := Sort(b.queue);
    SplitMultiset(b.popped, q, if |q| <= lower then 0 else |q| - lower);
  }

  /** The queue never stays longer than max_threshold. */
  lemma {:induction false} QueueLength(t: Thresholds, input: seq<Inst>)
    requires t.min <= t.max
    ensures |Feed(t, input).queue| == Held(t, Flushed(t, |input|), |input|) <= t.max
  {
    if input != [] {
      var init := input[..|input| - 1];
      QueueLength(t, init);
      var b := Feed(t, init);
      PrintKeeps(b.(queue := b.queue + [input[|input| - 1]]), t.min);
    }
  }

  /** Nothing is lost and nothing is invented. */
  lemma {:induction false} FeedKeeps(t: Thresholds, input: seq<Inst>)
    ensures multiset(Feed(t, input).popped + Feed(t, input).queue) == multiset(input)
  {
    if input != [] {
      var init, x := input[..|input| - 1], input[|input| - 1];
      FeedKeeps(t, init);
      var b := Feed(t, init);
      var b' := b.(queue := b.queue + [x]);
      assert b'.popped + b'.queue == b.popped + b.queue + [x];
      assert input == init + [x];
      PrintKeeps(b', t.min);
    }
  }

  /** What has been popped, and the min_threshold instructions kept when printing last
      started, are the f instructions that had arrived by then. */
  ghost predicate HeadKept(min: nat, b: Buffer, f: nat, input: seq<Inst>)
    requires f <= |input|
  {
    && (f == 0 ==> b.popped == [])
    && (f > 0 ==> min <= |b.queue| && multiset(b.popped + b.queue[..min]) == multiset(input[..f]))
  }

  lemma HeadAfterFlush(t: Thresholds, input: seq<Inst>)
    requires t.min <= t.max && input != [] && Flushed(t, |input|) == |input|
    ensures HeadKept(t.min, Feed(t, input), |input|, input)
  {
    QueueLength(t, input);
    FeedKeeps(t, input);
    assert input[..|input|] == input && Feed(t, input).queue[..t.min] == Feed(t, input).queue;
  }

  lemma HeadAfterQueue(min: nat, b: Buffer, f: nat, input: seq<Inst>, after: Buffer)
    requires f < |input| && HeadKept(min, b, f, input[..|input| - 1])
    requires after == Buffer(b.queue + [input[|input| - 1]], b.popped)
    ensures HeadKept(min, after, f, input)
  {
    if f > 0 {
      assert after.queue[..min] == b.queue[..min];
      assert input[..|input| - 1][..f] == input[..f];
    }
  }

  /** An arrival that does not start printing waits at the end of the queue. */
  lemma FeedQueues(t: Thresholds, input: seq<Inst>)
    requires t.min <= t.max && input != [] && Flushed(t, |input|) < |input|
    ensures var b := Feed(t, input[..|input| - 1]);
      Feed(t, input) == Buffer(b.queue + [input[|input| - 1]], b.popped)
    ensures Flushed(t, |input|) == Flushed(t, |input| - 1)
  {
    QueueLength(t, input[..|input| - 1]);
  }

  lemma HeadStep(t: Thresholds, input: seq<Inst>)
    requires t.min <= t.max && input != [] && Flushed(t, |input|) < |input|
    requires HeadKept(t.min, Feed(t, input[..|input| - 1]), Flushed(t, |input| - 1), input[..|input| - 1])
    ensures HeadKept(t.min, Feed(t, input), Flushed(t, |input|), input)
  {
    FeedQueues(t, input);
    HeadAfterQueue(t.min, Feed(t, input[..|input| - 1]), Flushed(t, |input|), input, Feed(t, input));
  }

  lemma {:induction false} FeedHead(t: Thresholds, input: seq<Inst>)
    requires t.min <= t.max
    ensures HeadKept(t.min, Feed(t, input), Flushed(t, |input|), input)
  {
    if input != [] {
      if Flushed(t, |input|) == |input| {
        HeadAfterFlush(t, input);
      } else {
        FeedHead(t, input[..|input| - 1]);
        HeadStep(t, input);
      }
    }
  }

  lemma PrintAppends(b: Buffer, lower: nat)
    ensures b.popped <= AfterPrint(b, lower).popped
  {
  }

  lemma {:induction false} PoppedGrows(t: Thresholds, input: seq<Inst>, i: nat)
    requires i <= |input|
    ensures Feed(t, input[..i]).popped <= Feed(t, input).popped
  {
    if i < |input| {
      var init := input[..|input| - 1];
      PoppedGrows(t, init, i);
      assert init[..i] == input[..i];
      PrintAppends(Feed(t, init).(queue := Feed(t, init).queue + [input[|input| - 1]]), t.min);
    } else {
      assert input[..i] == input;
    }
  }

  lemma OrderPermutes(t: Thresholds, input: seq<Inst>)
    ensures multiset(Order(t, input)) == multiset(input)
  {
    FeedKeeps(t, input);
    var b := Feed(t, input);
    PrintKeeps(b, 0);
    var r := AfterPrint(b, 0);
    assert r.popped + r.queue == r.popped;
  }

  // ----- when the output is in order

  /** Instruction i arrives with at most min_threshold larger ones among those that had
      arrived when printing last started. */
  predicate InWindow(t: Thresholds, input: seq<Inst>, i: nat)
    requires i < |input|
  {
    Above(input[..Flushed(t, i)], input[i].sn) <= t.min
  }

  /** Everything popped is at or below everything still queued. */
  predicate Split(b: Buffer) {
    Sorted(b.popped) && forall i, j :: 0 <= i < |b.popped| && 0 <= j < |b.queue| ==> b.popped[i].sn <= b.queue[j].sn
  }

  lemma PrintKeepsSplit(b: Buffer, lower: nat)
    requires Split(b)
    ensures Split(AfterPrint(b, lower))
  {
    SortCorrect(b.queue);
    var q := Sort(b.queue);
    forall i, j | 0 <= i < |b.popped| && 0 <= j < |q|
      ensures b.popped[i].sn <= q[j].sn
    {
      assert q[j] in multiset(b.queue);
    }
    SliceKeepsSplit(b.popped, q, if |q| <= lower then 0 else |q| - lower);
    assert b.popped + q[..0] == b.popped && q[0..] == q;
  }

  lemma SliceKeepsSplit(p: seq<Inst>, q: seq<Inst>, k: nat)
    requires Split(Buffer(q, p)) && Sorted(q) && k <= |q|
    ensures Split(Buffer(q[k..], p + q[..k]))
  {
  }

  /** If no more than k of the instructions are above sn, and k of them come behind all those
      popped, then none popped is above sn. */
  lemma KeptCoverAbove(popped: seq<Inst>, kept: seq<Inst>, sn: int)
    requires Above(popped + kept, sn) <= |kept|
    requires forall i, j :: 0 <= i < |popped| && 0 <= j < |kept| ==> popped[i].sn <= kept[j].sn
    ensures forall i :: 0 <= i < |popped| ==> popped[i].sn <= sn
  {
    AboveConcat(popped, kept, sn);
    AboveAll(popped, sn);
    AboveAll(kept, sn);
  }

  /** An instruction in the window is at or above everything popped before. */
  lemma ArrivesAbovePopped(t: Thresholds, input: seq<Inst>, x: Inst)
    requires t.min <= t.max && Split(Feed(t, input))
    requires Above(input[..Flushed(t, |input|)], x.sn) <= t.min
    ensures forall i :: 0 <= i < |Feed(t, input).popped| ==> Feed(t, input).popped[i].sn <= x.sn
  {
    var b, f := Feed(t, input), Flushed(t, |input|);
    FeedHead(t, input);
    if f > 0 {
      var kept := b.queue[..t.min];
      AboveOfPermutation(b.popped + kept, input[..f], x.sn);
      KeptCoverAbove(b.popped, kept, x.sn);
    }
  }

  lemma {:induction false} WindowKeepsSplit(t: Thresholds, input: seq<Inst>)
    requires t.min <= t.max
    requires forall i :: 0 <= i < |input| ==> InWindow(t, input, i)
    ensures Split(Feed(t, input))
  {
    if input != [] {
      var n := |input| - 1;
      var init, x := input[..n], input[n];
      forall i | 0 <= i < n ensures InWindow(t, init, i) {
        assert InWindow(t, input, i) && init[..Flushed(t, i)] == input[..Flushed(t, i)];
      }
      WindowKeepsSplit(t, init);
      assert InWindow(t, input, n) && init[..Flushed(t, n)] == input[..Flushed(t, n)];
      ArrivesAbovePopped(t, init, x);
      var b := Feed(t, init);
      assert Split(b.(queue := b.queue + [x]));
      PrintKeepsSplit(b.(queue := b.queue + [x]), t.min);
    }
  }

  lemma CancelLeft(a: multiset<Inst>, r: multiset<Inst>, q: multiset<Inst>, i: multiset<Inst>)
    requires a + r == a + q + i
    ensures r == q + i
  {
    assert a + r - a == r && a + q + i - a == q + i;
  }

  lemma LateAreInRest(popped: seq<Inst>, queue: seq<Inst>, rest: seq<Inst>, early: seq<Inst>, late: seq<Inst>)
    requires multiset(popped + queue) == multiset(early)
    requires multiset(popped + rest) == multiset(early + late)
    ensures forall x :: x in late ==> x in rest
  {
    CancelLeft(multiset(popped), multiset(rest), multiset(queue), multiset(late));
    forall x | x in late ensures x in rest { assert x in multiset(rest); }
  }

  lemma LateIsInRest(popped: seq<Inst>, queue: seq<Inst>, all: seq<Inst>, input: seq<Inst>, i: nat)
    requires i < |input| && popped <= all && multiset(all) == multiset(input)
    requires multiset(popped + queue) == multiset(input[..i])
    ensures input[i] in all[|popped|..]
  {
    var rest, late := all[|popped|..], input[i..];
    assert all == popped + rest && input == input[..i] + late;
    LateAreInRest(popped, queue, rest, input[..i], late);
    assert late[0] in late;
  }

  /** Instruction i is popped after everything popped before it arrived. */
  lemma StillToCome(t: Thresholds, input: seq<Inst>, i: nat)
    requires i < |input|
    ensures var n := |Feed(t, input[..i]).popped|; n <= |Order(t, input)| && input[i] in Order(t, input)[n..]
  {
    var b, all := Feed(t, input[..i]), Order(t, input);
    PoppedGrows(t, input, i);
    PrintAppends(Feed(t, input), 0);
    assert b.popped <= all;
    OrderPermutes(t, input);
    FeedKeeps(t, input[..i]);
    LateIsInRest(b.popped, b.queue, all, input, i);
  }

  lemma SortedKeepsWindow(t: Thresholds, input: seq<Inst>, i: nat)
    requires t.min <= t.max && Sorted(Order(t, input)) && i < |input|
    ensures InWindow(t, input, i)
  {
    var early, x := input[..i], input[i];
    var b, f, all := Feed(t, early), Flushed(t, i), Order(t, input);
    PoppedGrows(t, input, i);
    PrintAppends(Feed(t, input), 0);
    assert b.popped <= all;
    var rest := all[|b.popped|..];
    StillToCome(t, input, i);
    var j :| 0 <= j < |rest| && rest[j] == x;
    assert all[|b.popped| + j] == x;
    FeedHead(t, early);
    assert early[..f] == input[..f];
    if f > 0 {
      AboveOfHead(b.popped, b.queue[..t.min], early[..f], x.sn);
    }
  }

  lemma AboveOfHead(popped: seq<Inst>, kept: seq<Inst>, arrived: seq<Inst>, x: int)
    requires multiset(popped + kept) == multiset(arrived)
    requires forall i :: 0 <= i < |popped| ==> popped[i].sn <= x
    ensures Above(arrived, x) <= |kept|
  {
    AboveOfPermutation(popped + kept, arrived, x);
    AboveConcat(popped, kept, x);
    AboveAll(popped, x);
    AboveAll(kept, x);
  }

  /** Main result: the instructions come out in order if and only if every one of them
      arrives within the window. */
  lemma InOrderIff(t: Thresholds, input: seq<Inst>)
    requires t.min <= t.max
    ensures Sorted(Order(t, input)) <==> forall i :: 0 <= i < |input| ==> InWindow(t, input, i)
  {
    if forall i :: 0 <= i < |input| ==> InWindow(t, input, i) {
      WindowKeepsSplit(t, input);
      PrintKeepsSplit(Feed(t, input), 0);
    }
    if Sorted(Order(t, input)) {
      forall i | 0 <= i < |input| ensures InWindow(t, input, i) {
        SortedKeepsWindow(t, input, i);
      }
    }
  }

  /** The assumption stated in the source is enough: no instruction arrives after more
      than min_threshold larger ones. */
  lemma DocumentedAssumptionSuffices(t: Thresholds, input: seq<Inst>)
    requires t.min <= t.max
    requires forall i :: 0 <= i < |input| ==> Above(input[..i], input[i].sn) <= t.min
    ensures Sorted(Order(t, input))
  {
    forall i | 0 <= i < |input| ensures InWindow(t, input, i) {
      var f := Flushed(t, i);
      assert input[..i] == input[..f] + input[f..i];
      AboveConcat(input[..f], input[f..i], input[i].sn);
    }
    InOrderIff(t, input);
  }

  lemma {:induction false} NotYetFlushed(t: Thresholds, n: nat)
    requires n <= t.max
    ensures Flushed(t, n) == 0
  {
    if n > 0 {
      NotYetFlushed(t, n - 1);
    }
  }

  /** It is not necessary, although the source says that instructions further out of
      order will appear out of order: a trace of no more than max_threshold instructions
      comes out in order even if every earlier one is larger. */
  lemma DocumentedAssumptionNotNecessary(t: Thresholds, input: seq<Inst>, i: nat)
    requires t.min <= t.max && i < |input| <= t.max
    ensures Sorted(Order(t, input))
    ensures (forall k :: 0 <= k < i ==> input[k].sn > input[i].sn) ==> Above(input[..i], input[i].sn) == i
  {
    forall k | 0 <= k < |input| ensures InWindow(t, input, k) {
      NotYetFlushed(t, k);
      assert input[..k][..0] == [];
    }
    InOrderIff(t, input);
    AboveAll(input[..i], input[i].sn);
  }

  lemma {:induction false} NextRemainder(x: nat, c: nat)
    requires c > 0
    ensures Grid.Remainder(x, c) < c
    ensures Grid.Remainder(x + 1, c) == if Grid.Remainder(x, c) == c - 1 then 0 else Grid.Remainder(x, c) + 1
  {
    if x >= c {
      NextRemainder(x - c, c);
    }
  }

  lemma {:induction false} NoneFlushed(t: Thresholds, n: nat)
    requires n <= t.max
    ensures Flushed(t, n) == 0
  {
    if n > 0 {
      NoneFlushed(t, n - 1);
    }
  }

  /** r arrivals after printing started. */
  lemma FlushStep(t: Thresholds, n: nat, r: nat)
    requires t.min <= t.max && r < n - 1 && r <= t.max - t.min && Flushed(t, n - 1) == n - 1 - r
    ensures Flushed(t, n) == if r == t.max - t.min then n else n - 1 - r
  {
    assert Held(t, Flushed(t, n - 1), n - 1) == t.min + r;
  }

  lemma {:induction false} FlushedAfter(t: Thresholds, c: nat, k: nat)
    requires t.min <= t.max && c == t.max - t.min + 1
    ensures Flushed(t, t.max + 1 + k) == t.max + 1 + k - Grid.Remainder(k, c)
    decreases k
  {
    if k == 0 {
      NoneFlushed(t, t.max);
    } else {
      FlushedAfter(t, c, k - 1);
      NextRemainder(k - 1, c);
      FlushStep(t, t.max + 1 + k, Grid.Remainder(k - 1, c));
    }
  }

  /** Printing starts at arrival max_threshold + 1 and then every max - min + 1
      arrivals. */
  lemma FlushTimes(t: Thresholds, n: nat)
    requires t.min <= t.max
    ensures Flushed(t, n) == if n <= t.max then 0 else n - (n - t.max - 1) % (t.max - t.min + 1)
  {
    if n <= t.max {
      NoneFlushed(t, n);
    } else {
      FlushedAfter(t, t.max - t.min + 1, n - t.max - 1);
      Grid.Arithmetic(n - t.max - 1, t.max - t.min + 1);
    }
  }

  lemma {:induction false} FilterKeepsOrder(b: Bounds, s: seq<Inst>)
    requires Sorted(s)
    ensures Sorted(Filter(b, s))
    ensures forall x :: x in Filter(b, s) <==> x in s && Passes(b, x)
  {
    if s != [] {
      var init := s[..|s| - 1];
      FilterKeepsOrder(b, init);
      assert s == init + [s[|s| - 1]];
      forall i | 0 <= i < |Filter(b, init)| ensures Filter(b, init)[i].sn <= s[|s| - 1].sn {
        assert Filter(b, init)[i] in init;
      }
    }
  }

  /** What is printed: exactly the instructions of the input that pass the filters, and
      in order whenever they all arrive within the window. */
  lemma PrintedIsFilteredInput(t: Thresholds, b: Bounds, input: seq<Inst>)
    requires t.min <= t.max
    ensures multiset(Filter(b, Order(t, input))) == multiset(Filter(b, input))
    ensures (forall i :: 0 <= i < |input| ==> InWindow(t, input, i)) ==> Sorted(Filter(b, Order(t, input)))
  {
    OrderPermutes(t, input);
    FilterOfPermutation(b, Order(t, input), input);
    InOrderIff(t, input);
    if Sorted(Order(t, input)) {
      FilterKeepsOrder(b, Order(t, input));
    }
  }

  // ----- the viewer

  /** v is not below lo nor above hi, where a bound that is not positive is none. */
  predicate Within(lo: int, hi: int, v: int) {
    (lo > 0 ==> lo <= v) && (hi > 0 ==> v <= hi)
  }

  /** Which instructions of a trace are printed: those within the bounds of sequence numbers and
      of fetch ticks, both ends included, and only retired ones if asked for. */
  lemma PrintedIff(t: Thresholds, b: Bounds, input: seq<Inst>, x: Inst)
    requires t.min <= t.max
    ensures x in Filter(b, Order(t, input)) <==>
      && x in input && Within(b.snStart, b.snStop, x.sn) && Within(b.tickStart, b.tickStop, x.fetch)
      && (b.onlyCommitted ==> x.retire != 0)
  {
    FilterElements(b, Order(t, input), x);
    OrderPermutes(t, input);
    assert x in multiset(Order(t, input)) <==> x in multiset(input);
  }

  lemma {:induction false} FilterElements(b: Bounds, s: seq<Inst>, x: Inst)
    ensures x in Filter(b, s) <==> x in s && Passes(b, x)
  {
    if s != [] {
      FilterElements(b, s[..|s| - 1], x);
      assert s == s[..|s| - 1] + [s[|s| - 1]];
    }
  }

  lemma FilterOneMore(b: Bounds, p: seq<Inst>, x: Inst)
    ensures Filter(b, p + [x]) == Filter(b, p) + (if Passes(b, x) then [x] else [])
  {
    assert (p + [x])[..|p|] == p;
  }

  lemma TakeOneMore(p: seq<Inst>, s: seq<Inst>, k: nat)
    requires k < |s|
    ensures p + s[..k] + [s[k]] == p + s[..k + 1] && s[k..][0] == s[k] && s[k..][1..] == s[k + 1..]
  {
  }

  class Viewer {
    const thresholds: Thresholds
    const bounds: Bounds
    var queue: seq<Inst>
    var output: seq<Inst>
    ghost var popped: seq<Inst>

    ghost predicate Valid()
      reads this
    {
      output == Filter(bounds, popped)
    }

    ghost function Contents(): Buffer
      reads this
    {
      Buffer(queue, popped)
    }

    constructor (t: Thresholds, b: Bounds)
      ensures Valid() && Contents() == Buffer([], []) && thresholds == t && bounds == b
    {
      thresholds, bounds := t, b;
      queue, output, popped := [], [], [];
    }

    /** One instruction leaves the queue and is printed if it is within the bounds. */
    method PopInst()
      requires Valid() && queue != []
      modifies this
      ensures Valid() && queue == old(queue)[1..] && popped == old(popped) + [old(queue)[0]]
    {
      var item := queue[0];
      queue := queue[1..];
      FilterOneMore(bounds, popped, item);
      if Passes(bounds, item) {
        output := output + [item];
      }
      popped := popped + [item];
    }

    /** The printing loop: instructions are popped until lower are left. */
    method PopDownTo(lower: nat)
      requires Valid()
      modifies this
      ensures Valid() && var k := if |old(queue)| <= lower then 0 else |old(queue)| - lower;
        queue == old(queue)[k..] && popped == old(popped) + old(queue)[..k]
    {
      ghost var start, sorted, k := popped, queue, 0;
      while |queue| > lower
        invariant k <= |sorted| && queue == sorted[k..] && (k > 0 ==> |queue| >= lower)
        invariant popped == start + sorted[..k] && Valid()
      {
        TakeOneMore(start, sorted, k);
        PopInst();
        k := k + 1;
      }
    }

    method PrintInsts(lower: nat)
      requires Valid()
      modifies this
      ensures Valid() && Contents() == AfterPrint(old(Contents()), lower)
    {
      AfterPrintIs(Contents(), lower);
      queue := Sort(queue);
      PopDownTo(lower);
    }

    method QueueInst(inst: Inst)
      requires Valid()
      modifies this
      ensures Valid() && Contents() == AfterQueue(thresholds, old(Contents()), inst)
    {
      queue := queue + [inst];
      if |queue| > thresholds.max {
        PrintInsts(thresholds.min);
      }
    }

    /** The main loop over the retired instructions of a trace, up to its end. */
    method ProcessTrace(trace: seq<Inst>)
      requires Valid() && Contents() == Buffer([], [])
      modifies this
      ensures Valid() && queue == [] && output == Filter(bounds, Order(thresholds, trace))
    {
      for i := 0 to |trace|
        invariant Valid() && Contents() == Feed(thresholds, trace[..i])
      {
        QueueInst(trace[i]);
        assert trace[..i + 1][..i] == trace[..i];
      }
      assert trace[..|trace|] == trace;
      PrintKeeps(Contents(), 0);
      PrintInsts(0);
    }
  }
}
