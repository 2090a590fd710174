/**
 Merging checkpoints of single processes into one (gem5/util/checkpoint_aggregator.py): the
 memory stores are laid end to end, physical addresses move by the pages laid before them,
 and the sections of each processor get the number of their checkpoint.
 */
module CheckpointMerge {

  import opened Machine
  import opened Options
  import opened Strings

  const PAGE: int := 4096

  /** `pagePtr`, the uncompressed store and `curTick` of a checkpoint. */
  datatype Checkpoint = Checkpoint(pages: nat, store: seq<byte>, curTick: int) {
    /** The store holds the pages the checkpoint declares. */
    predicate Full() {
      |store| >= PAGE * pages
    }

    function Copied(): seq<byte> {
      store[..if Full() then PAGE * pages else |store|]
    }
  }

  // ----- addresses

  /** Pages of the first i checkpoints. */
  function PageBase(cpts: seq<Checkpoint>, i: nat): nat
    requires i <= |cpts|
  {
    if i == 0 then 0 else PageBase(cpts, i - 1) + cpts[i - 1].pages
  }

  /** The `paddr` written for checkpoint i. */
  function Relocate(cpts: seq<Checkpoint>, i: nat, paddr: nat): nat
    requires i < |cpts|
  {
    paddr + PAGE * PageBase(cpts, i)
  }

  /** What the stores of the first i checkpoints contribute. */
  function Contents(cpts: seq<Checkpoint>, i: nat): seq<byte>
    requires i <= |cpts|
  {
    if i == 0 then [] else Contents(cpts, i - 1) + cpts[i - 1].Copied()
  }

  lemma {:induction false} BaseMono(cpts: seq<Checkpoint>, i: nat, j: nat)
    requires i <= j <= |cpts|
    ensures PageBase(cpts, i) <= PageBase(cpts, j)
  {
    if i < j {
      BaseMono(cpts, i, j - 1);
    }
  }

  /** Addresses in the pages of different checkpoints stay apart and in order, and all of
      them stay below the pages counted at the end. */
  lemma FramesNeverOverlap(cpts: seq<Checkpoint>, i: nat, p: nat, j: nat, q: nat)
    requires i < j < |cpts| && p < PAGE * cpts[i].pages && q < PAGE * cpts[j].pages
    ensures Relocate(cpts, i, p) < Relocate(cpts, j, q) < PAGE * PageBase(cpts, |cpts|)
  {
    BaseMono(cpts, i + 1, j);
    BaseMono(cpts, j + 1, |cpts|);
  }

  ghost predicate AllFull(cpts: seq<Checkpoint>, i: nat)
    requires i <= |cpts|
  {
    forall k :: 0 <= k < i ==> cpts[k].Full()
  }

  /** The copied bytes fill the pages counted if and only if no store is short. */
  lemma {:induction false} ContentsLength(cpts: seq<Checkpoint>, i: nat)
    requires i <= |cpts|
    ensures |Contents(cpts, i)| <= PAGE * PageBase(cpts, i)
    ensures |Contents(cpts, i)| == PAGE * PageBase(cpts, i) <==> AllFull(cpts, i)
  {
    if i > 0 {
      ContentsLength(cpts, i - 1);
    }
  }

  lemma {:induction false} ContentsPrefix(cpts: seq<Checkpoint>, i: nat, j: nat)
    requires i <= j <= |cpts|
    ensures Contents(cpts, i) <= Contents(cpts, j)
  {
    if i < j {
      ContentsPrefix(cpts, i, j - 1);
    }
  }

  // ----- the merged memory

  /** `"".zfill(4096)`: padding is the character '0', not a zero byte. */
  function Pad(n: nat): (s: seq<byte>)
    ensures |s| == n
  {
    seq(n, _ => 48)
  }

  /** How many pages are added to reach the memory size asked for, if one was. */
  function ExtraPages(pages: nat, memorySize: Option<int>): (k: nat)
    ensures memorySize.None? ==> k == 0
    ensures k > 0 ==> memorySize.Some? && PAGE * (pages + k - 1) < memorySize.value
    ensures memorySize.Some? ==> memorySize.value <= PAGE * (pages + k)
    decreases if memorySize.Some? then memorySize.value - PAGE * pages else 0
  {
    if memorySize.Some? && PAGE * pages < memorySize.value then ExtraPages(pages + 1, memorySize) + 1 else 0
  }

  function MergedMemory(cpts: seq<Checkpoint>, memorySize: Option<int>): seq<byte> {
    var pages := PageBase(cpts, |cpts|);
    Contents(cpts, |cpts|) + Pad(PAGE * ExtraPages(pages, memorySize))
  }

  function RangeSize(cpts: seq<Checkpoint>, memorySize: Option<int>): nat {
    var pages := PageBase(cpts, |cpts|);
    PAGE * (pages + ExtraPages(pages, memorySize))
  }

  /** A relocated address holds the byte the checkpoint held, as long as no earlier store is
      short. */
  lemma SameByte(cpts: seq<Checkpoint>, memorySize: Option<int>, i: nat, paddr: nat)
    requires i < |cpts| && AllFull(cpts, i)
    requires paddr < PAGE * cpts[i].pages && paddr < |cpts[i].store|
    ensures var m := MergedMemory(cpts, memorySize);
      Relocate(cpts, i, paddr) < |m| && m[Relocate(cpts, i, paddr)] == cpts[i].store[paddr]
  {
    ContentsLength(cpts, i);
    ContentsPrefix(cpts, i + 1, |cpts|);
    var upTo := Contents(cpts, i + 1);
    assert upTo[|Contents(cpts, i)| + paddr] == cpts[i].Copied()[paddr];
    assert Contents(cpts, |cpts|)[..|upTo|] == upTo;
  }

  /** The recorded size is the length of the merged memory if and only if no store is short. */
  lemma RangeSizeIff(cpts: seq<Checkpoint>, memorySize: Option<int>)
    ensures |MergedMemory(cpts, memorySize)| <= RangeSize(cpts, memorySize)
    ensures |MergedMemory(cpts, memorySize)| == RangeSize(cpts, memorySize) <==> AllFull(cpts, |cpts|)
  {
    ContentsLength(cpts, |cpts|);
  }

  /** The recorded size is the least whole number of pages that holds all pages and the
      memory size asked for. */
  lemma RangeSizeIsLeast(cpts: seq<Checkpoint>, memorySize: Option<int>, n: nat)
    ensures RangeSize(cpts, memorySize) <= PAGE * n <==>
      PageBase(cpts, |cpts|) <= n && (memorySize.Some? ==> memorySize.value <= PAGE * n)
  {
  }

  function LatestTick(cpts: seq<Checkpoint>, i: nat): (t: int)
    requires i <= |cpts|
    ensures t >= 0 && forall k :: 0 <= k < i ==> cpts[k].curTick <= t
    ensures t == 0 || exists k :: 0 <= k < i && cpts[k].curTick == t
  {
    if i == 0 then 0
    else
      var t := LatestTick(cpts, i - 1);
      if cpts[i - 1].curTick > t then cpts[i - 1].curTick else t
  }

  /** The memory and tick part of `aggregate`. */
  method Aggregate(cpts: seq<Checkpoint>, memorySize: Option<int>)
    returns (memory: seq<byte>, pagePtr: nat, rangeSize: nat, curTick: int)
    ensures memory == MergedMemory(cpts, memorySize)
    ensures pagePtr == PageBase(cpts, |cpts|) && rangeSize == RangeSize(cpts, memorySize)
    ensures curTick == LatestTick(cpts, |cpts|)
  {
    memory, curTick := [], 0;
    var page: nat := 0;
    for i := 0 to |cpts|
      invariant memory == Contents(cpts, i) && page == PageBase(cpts, i) && curTick == LatestTick(cpts, i)
    {
      if cpts[i].curTick > curTick {
        curTick := cpts[i].curTick;
      }
      page := page + cpts[i].pages;
      var copied := CopyStore(cpts[i]);
      memory := memory + copied;
    }
    pagePtr := page;
    memory, rangeSize := PadMemory(memory, page, memorySize);
  }

  /** Pages of padding up to the memory size asked for. */
  method PadMemory(contents: seq<byte>, pagePtr: nat, memorySize: Option<int>)
    returns (memory: seq<byte>, rangeSize: nat)
    ensures var extra := ExtraPages(pagePtr, memorySize);
      memory == contents + Pad(PAGE * extra) && rangeSize == PAGE * (pagePtr + extra)
  {
    memory := contents;
    var page: nat, fileSize := pagePtr, pagePtr * 4 * 1024;
    ghost var extra := ExtraPages(page, memorySize);
    while memorySize.Some? && fileSize < memorySize.value
      invariant page >= pagePtr && fileSize == PAGE * page
      invariant page + ExtraPages(page, memorySize) == pagePtr + extra
      invariant memory == contents + Pad(PAGE * (page - pagePtr))
      decreases ExtraPages(page, memorySize)
    {
      memory := memory + Pad(PAGE);
      fileSize := fileSize + 4 * 1024;
      page := page + 1;
    }
    rangeSize := page * 4 * 1024;
  }

  /** The pages of a store are read one at a time; a read past the end gives less. */
  method CopyStore(c: Checkpoint) returns (copied: seq<byte>)
    ensures copied == c.Copied()
  {
    copied := [];
    var pos := 0;
    var x := 0;
    while x < c.pages
      invariant 0 <= x <= c.pages
      invariant pos == if PAGE * x <= |c.store| then PAGE * x else |c.store|
      invariant copied == c.store[..pos]
    {
      var end := if pos + PAGE <= |c.store| then pos + PAGE else |c.store|;
      copied := copied + c.store[pos..end];
      pos := end;
      x := x + 1;
    }
  }

  // ----- section names

  predicate StartsWithCpu(s: string) {
    |s| >= 3 && s[0] == 'c' && s[1] == 'p' && s[2] == 'u'
  }

  predicate HasCpu(s: string) {
    s != "" && (StartsWithCpu(s) || HasCpu(s[1..]))
  }

  /** The name has "cpu" in it, from k on. */
  predicate CpuAt(s: string, k: nat) {
    k + 3 <= |s| && s[k..k + 3] == "cpu"
  }

  /** Sections are renamed if and only if they have. */
  lemma {:induction false} HasCpuIff(s: string)
    ensures HasCpu(s) <==> exists k: nat :: CpuAt(s, k)
  {
    if s != "" {
      HasCpuIff(s[1..]);
      assert StartsWithCpu(s) <==> CpuAt(s, 0);
      if k: nat :| CpuAt(s, k) {
        assert k > 0 ==> s[1..][k - 1..k + 2] == s[k..k + 3] && CpuAt(s[1..], k - 1);
      }
      if k: nat :| CpuAt(s[1..], k) {
        assert s[1..][k..k + 3] == s[k + 1..k + 4] && CpuAt(s, k + 1);
      }
    }
  }

  /** Every "cpu" gets the number d. */
  function Rename(s: string, d: string): string {
    if s == "" then ""
    else if StartsWithCpu(s) then "cpu" + d + Rename(s[3..], d)
    else [s[0]] + Rename(s[1..], d)
  }

  /** The number of checkpoint i out of n, filled with zeros to the width of the largest. */
  function Numbered(i: nat, n: nat): string
    requires i < n
  {
    Zfill(Decimal(i), |Decimal(n - 1)|)
  }

  function Zfill(s: string, width: nat): string
    decreases width - |s|
  {
    if |s| < width then Zfill("0" + s, width) else s
  }

  function SectionName(sec: string, i: nat, n: nat): string
    requires i < n
  {
    Rename(sec, Numbered(i, n))
  }

  /** The first characters survive renaming. */
  lemma RenameHead(s: string, d: string)
    requires s != ""
    ensures Rename(s, d) != "" && Rename(s, d)[0] == s[0]
  {
  }

  /** Renaming makes no new "cpu" and removes none at the front. */
  lemma RenameStart(s: string, d: string)
    ensures StartsWithCpu(Rename(s, d)) <==> StartsWithCpu(s)
  {
    if s != "" && !StartsWithCpu(s) && s[1..] != "" {
      RenameHead(s[1..], d);
      if s[1] == 'p' && s[2..] != "" {
        RenameHead(s[2..], d);
        assert s[1..][1..] == s[2..];
        assert Rename(s, d) == [s[0]] + ([s[1]] + Rename(s[2..], d));
      }
    }
  }

  /** Takes the n characters after each "cpu" out again. */
  function Restore(r: string, n: nat): string {
    if r == "" then ""
    else if StartsWithCpu(r) && |r| >= 3 + n then "cpu" + Restore(r[3 + n..], n)
    else [r[0]] + Restore(r[1..], n)
  }

  lemma {:induction false} RestoreRename(s: string, d: string)
    ensures Restore(Rename(s, d), |d|) == s
  {
    if s != "" {
      RenameStart(s, d);
      var r := Rename(s, d);
      if StartsWithCpu(s) {
        RestoreRename(s[3..], d);
        assert r[3 + |d|..] == Rename(s[3..], d);
        assert s == "cpu" + s[3..];
      } else {
        RestoreRename(s[1..], d);
        assert r[1..] == Rename(s[1..], d);
        assert s == [s[0]] + s[1..];
      }
    }
  }

  /** The n characters after the first "cpu". */
  function NumberIn(r: string, n: nat): string {
    if r == "" then ""
    else if StartsWithCpu(r) && |r| >= 3 + n then r[3..3 + n]
    else NumberIn(r[1..], n)
  }

  lemma {:induction false} NumberOfRenamed(s: string, d: string)
    requires HasCpu(s)
    ensures NumberIn(Rename(s, d), |d|) == d
  {
    RenameStart(s, d);
    var r := Rename(s, d);
    if StartsWithCpu(s) {
      assert r[3..3 + |d|] == d;
    } else {
      NumberOfRenamed(s[1..], d);
      assert r[1..] == Rename(s[1..], d);
    }
  }

  lemma {:induction false} ZfillKeeps(s: string, width: nat)
    requires s != "" && AllDigits(s)
    ensures var z := Zfill(s, width);
      |z| == (if |s| < width then width else |s|) && AllDigits(z) && DigitsValue(z) == DigitsValue(s)
    decreases width - |s|
  {
    if |s| < width {
      LeadingZero(s);
      ZfillKeeps("0" + s, width);
    }
  }

  lemma {:induction false} LeadingZero(s: string)
    requires AllDigits(s)
    ensures AllDigits("0" + s) && DigitsValue("0" + s) == DigitsValue(s)
  {
    var z := "0" + s;
    if s == "" {
      assert z[..0] == "";
    } else {
      LeadingZero(s[..|s| - 1]);
      assert z[..|z| - 1] == "0" + s[..|s| - 1];
    }
  }

  lemma {:induction false} LongerForLarger(i: nat, k: nat)
    requires i <= k
    ensures |Decimal(i)| <= |Decimal(k)|
  {
    if i >= 10 {
      LongerForLarger(i / 10, k / 10);
    }
  }

  lemma NumberedIs(i: nat, n: nat)
    requires i < n
    ensures var d := Numbered(i, n);
      |d| == |Decimal(n - 1)| && AllDigits(d) && DigitsValue(d) == i
  {
    DecimalDigits(i);
    LongerForLarger(i, n - 1);
    ZfillKeeps(Decimal(i), |Decimal(n - 1)|);
  }

  /** Two processor sections get the same name only if they are the same section of the same
      checkpoint, and a renamed section is never taken for one that is copied as it is. */
  lemma SectionNamesDiffer(sec: string, i: nat, sec': string, j: nat, n: nat)
    requires i < n && j < n && HasCpu(sec) && HasCpu(sec')
    ensures SectionName(sec, i, n) == SectionName(sec', j, n) ==> i == j && sec == sec'
    ensures HasCpu(SectionName(sec, i, n))
  {
    NumberedIs(i, n);
    NumberedIs(j, n);
    NumberOfRenamed(sec, Numbered(i, n));
    NumberOfRenamed(sec', Numbered(j, n));
    RestoreRename(sec, Numbered(i, n));
    RestoreRename(sec', Numbered(j, n));
    RenamedHasCpu(sec, Numbered(i, n));
  }

  lemma {:induction false} RenamedHasCpu(s: string, d: string)
    requires HasCpu(s)
    ensures HasCpu(Rename(s, d))
  {
    RenameStart(s, d);
    if !StartsWithCpu(s) {
      RenamedHasCpu(s[1..], d);
      assert Rename(s, d)[1..] == Rename(s[1..], d);
    }
  }
}
