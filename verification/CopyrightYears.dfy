/**
 Copyright years as text (gem5/util/find_copyrights.py): `datestr` prints a set of years as
 a list of ranges and `process_dates` reads such a list.
 */
module CopyrightYears {
  import opened Options
  import Sequences
  import opened Strings

  // ----- reading

  /** The groups of the pattern of a range: four digits, a hyphen with optional space around
      it and four digits, whatever follows. */
  function MatchRange(s: string): (r: Option<(string, string)>)
    ensures r.Some? ==> Digits(r.value.0) && Digits(r.value.1)
  {
    if |s| >= 4 && AllDigits(s[..4]) then
      var a := StripLeft(s[4..]);
      if a != "" && a[0] == '-' then
        var b := StripLeft(a[1..]);
        if |b| >= 4 && AllDigits(b[..4]) then Some((s[..4], b[..4])) else None
      else None
    else None
  }

  predicate IsRange(s: string, a: string, b: string, blank: string, blank': string, rest: string) {
    && s == a + (blank + ("-" + (blank' + (b + rest))))
    && |a| == |b| == 4 && AllDigits(a) && AllDigits(b) && Blank(blank) && Blank(blank')
  }

  lemma RangeIsMatched(s: string, a: string, b: string, blank: string, blank': string, rest: string)
    requires IsRange(s, a, b, blank, blank', rest)
    ensures MatchRange(s) == Some((a, b))
  {
    var behind := b + rest;
    var hyphen := "-" + (blank' + behind);
    assert s[4..] == blank + hyphen && s[..4] == a;
    StripLeftOf(blank, hyphen);
    assert hyphen[1..] == blank' + behind;
    StripLeftOf(blank', behind);
  }

  lemma MatchedIsRange(s: string, a: string, b: string) returns (blank: string, blank': string, rest: string)
    requires MatchRange(s) == Some((a, b))
    ensures IsRange(s, a, b, blank, blank', rest)
  {
    blank := StripLeftDrops(s[4..]);
    var hyphen := StripLeft(s[4..]);
    blank' := StripLeftDrops(hyphen[1..]);
    var behind := StripLeft(hyphen[1..]);
    rest := behind[4..];
    assert s == a + s[4..] && hyphen == "-" + hyphen[1..] && behind == b + rest;
  }

  /** Which items are read as ranges, and of which years. */
  lemma MatchRangeIff(s: string, a: string, b: string)
    ensures MatchRange(s) == Some((a, b)) <==>
      exists blank, blank', rest :: IsRange(s, a, b, blank, blank', rest)
  {
    if MatchRange(s) == Some((a, b)) {
      var blank, blank', rest := MatchedIsRange(s, a, b);
    }
    if blank, blank', rest :| IsRange(s, a, b, blank, blank', rest) {
      RangeIsMatched(s, a, b, blank, blank', rest);
    }
  }

  predicate Digits(s: string) {
    s != "" && AllDigits(s)
  }

  function Years(f: int, l: int): (ys: set<int>)
    ensures forall y :: y in ys <==> f <= y <= l
    decreases l - f
  {
    if f > l then {} else Years(f, l - 1) + {l}
  }

  /** The years of one item; what is neither a range nor a number is passed over. */
  function Item(s: string): set<int> {
    match MatchRange(s)
    case Some(r) => Years(DigitsValue(r.0), DigitsValue(r.1))
    case None =>
      match Number(s, false)
      case Some(n) => {n}
      case None => {}
  }

  function Items(ps: seq<string>): (sets: seq<set<int>>)
    ensures |sets| == |ps| && forall k :: 0 <= k < |ps| ==> sets[k] == Item(Strip(ps[k]))
  {
    if ps == [] then [] else [Item(Strip(ps[0]))] + Items(ps[1..])
  }

  function Union(sets: seq<set<int>>): set<int> {
    if sets == [] then {} else Union(sets[..|sets| - 1]) + sets[|sets| - 1]
  }

  function Process(dates: string): set<int> {
    Union(Items(Split(dates, ',')))
  }

  // ----- printing

  /** `%d` */
  function Int(n: int): string {
    if n < 0 then "-" + Decimal(-n) else Decimal(n)
  }

  datatype Run = Run(first: int, second: int)

  function RunText(r: Run): string {
    if r.first == r.second then Int(r.first) else Int(r.first) + "-" + Int(r.second)
  }

  function Texts(rs: seq<Run>): (ps: seq<string>)
    ensures |ps| == |rs| && forall k :: 0 <= k < |rs| ==> ps[k] == RunText(rs[k])
  {
    if rs == [] then [] else [RunText(rs[0])] + Texts(rs[1..])
  }

  /** The runs of an open run first..second followed by rest. */
  function RunsFrom(first: int, second: int, rest: seq<int>): (rs: seq<Run>)
    ensures rs != [] && rs[0].first == first
    decreases |rest|
  {
    if rest == [] then [Run(first, second)]
    else if rest[0] == second + 1 then RunsFrom(first, rest[0], rest[1..])
    else [Run(first, second)] + RunsFrom(rest[0], rest[0], rest[1..])
  }

  function Runs(ds: seq<int>): seq<Run>
    requires ds != []
  {
    RunsFrom(ds[0], ds[0], ds[1..])
  }

  ghost predicate Increasing(ds: seq<int>) {
    forall i, j :: 0 <= i < j < |ds| ==> ds[i] < ds[j]
  }

  lemma EmptyOrNot(s: set<int>)
    ensures s == {} || exists y :: y in s
  {
    if forall y :: y !in s {
      assert s == {};
    }
  }

  lemma {:induction false} HasLeast(s: set<int>)
    requires |s| > 0
    ensures exists m :: IsLeast(s, m)
    decreases |s|
  {
    EmptyOrNot(s);
    var x :| x in s;
    var others := s - {x};
    if |others| == 0 {
      assert forall y :: y in s && y != x ==> y in others;
      assert IsLeast(s, x);
    } else {
      HasLeast(others);
      var m :| IsLeast(others, m);
      var least := if x < m then x else m;
      forall y | y in s
        ensures least <= y
      {
        assert y == x || y in others;
      }
      assert IsLeast(s, least);
    }
  }

  ghost predicate IsLeast(s: set<int>, m: int) {
    m in s && forall y :: y in s ==> m <= y
  }

  ghost function Least(s: set<int>): (m: int)
    requires |s| > 0
    ensures IsLeast(s, m)
  {
    HasLeast(s);
    var m :| IsLeast(s, m);
    m
  }

  /** The years in order. */
  ghost function SortedOf(s: set<int>): (ds: seq<int>)
    ensures Increasing(ds) && (forall y :: y in ds <==> y in s) && |ds| == |s|
    decreases |s|
  {
    if |s| == 0 then [] else [Least(s)] + SortedOf(s - {Least(s)})
  }

  ghost function DateText(s: set<int>): string
    requires |s| > 0
  {
    Join(Texts(Runs(SortedOf(s))), ',')
  }

  // ----- the runs

  /** The printed ranges increase, are disjoint and cannot be joined. */
  ghost predicate Apart(rs: seq<Run>) {
    && (forall k :: 0 <= k < |rs| ==> rs[k].first <= rs[k].second)
    && (forall j, k :: 0 <= j < k < |rs| ==> rs[j].second + 1 < rs[k].first)
  }

  ghost predicate Covers(rs: seq<Run>, y: int) {
    exists k :: 0 <= k < |rs| && rs[k].first <= y <= rs[k].second
  }

  lemma PrependApart(r: Run, rs: seq<Run>)
    requires r.first <= r.second && Apart(rs) && rs != [] && r.second + 1 < rs[0].first
    ensures Apart([r] + rs)
  {
    forall k | 0 <= k < |rs|
      ensures r.second + 1 < rs[k].first
    {
      assert k > 0 ==> rs[0].second + 1 < rs[k].first;
    }
  }

  lemma TailIncreases(first: int, rest: seq<int>)
    requires rest != [] && Increasing([first] + rest)
    ensures first < rest[0] && Increasing([rest[0]] + rest[1..])
  {
    var ds := [first] + rest;
    assert ds[0] < ds[1] && ds[1..] == rest && rest == [rest[0]] + rest[1..];
  }

  lemma {:induction false} RunsFromApart(first: int, second: int, rest: seq<int>)
    requires first <= second && Increasing([second] + rest)
    ensures Apart(RunsFrom(first, second, rest))
    decreases |rest|
  {
    if rest != [] {
      TailIncreases(second, rest);
      if rest[0] == second + 1 {
        RunsFromApart(first, rest[0], rest[1..]);
      } else {
        RunsFromApart(rest[0], rest[0], rest[1..]);
        PrependApart(Run(first, second), RunsFrom(rest[0], rest[0], rest[1..]));
      }
    }
  }

  lemma {:induction false} RunsFromCover(first: int, second: int, rest: seq<int>, y: int)
    requires first <= second
    ensures Covers(RunsFrom(first, second, rest), y) <==> first <= y <= second || y in rest
    decreases |rest|
  {
    if rest == [] {
      assert RunsFrom(first, second, rest)[0] == Run(first, second);
    } else if rest[0] == second + 1 {
      RunsFromCover(first, rest[0], rest[1..], y);
    } else {
      var rs, more := RunsFrom(first, second, rest), RunsFrom(rest[0], rest[0], rest[1..]);
      RunsFromCover(rest[0], rest[0], rest[1..], y);
      assert rs[0] == Run(first, second) && rs[1..] == more;
      if Covers(more, y) {
        var k :| 0 <= k < |more| && more[k].first <= y <= more[k].second;
        assert rs[k + 1] == more[k];
      }
    }
  }

  /** The ranges printed for a set hold its years and no others, and are maximal. */
  lemma RunsOfSet(s: set<int>)
    requires |s| > 0
    ensures SortedOf(s) != [] && AreRunsOf(Runs(SortedOf(s)), s)
  {
    var ds := SortedOf(s);
    assert ds == [ds[0]] + ds[1..];
    RunsFromApart(ds[0], ds[0], ds[1..]);
    forall y
      ensures Covers(Runs(ds), y) <==> y in s
    {
      RunsFromCover(ds[0], ds[0], ds[1..], y);
    }
  }

  // ----- reading what was printed

  lemma {:induction false} DecimalLength(n: nat)
    ensures Digits(Decimal(n)) && DigitsValue(Decimal(n)) == n
    ensures n < 1000 ==> |Decimal(n)| <= 3
    ensures 1000 <= n < 10000 ==> |Decimal(n)| == 4
    ensures n >= 10000 ==> |Decimal(n)| >= 5
  {
    DecimalDigits(n);
    if n >= 10 {
      assert |Decimal(n)| == |Decimal(n / 10)| + 1;
      if n >= 100 {
        assert |Decimal(n / 10)| == |Decimal(n / 10 / 10)| + 1;
        if n >= 1000 {
          assert |Decimal(n / 100)| == |Decimal(n / 100 / 10)| + 1;
          if n >= 10000 {
            assert |Decimal(n / 1000)| == |Decimal(n / 1000 / 10)| + 1;
          }
        }
      }
    }
  }

  /** The first four digits of a number. */
  function Top4(n: nat): (r: nat)
    requires n >= 1000
    ensures r <= 9999
    ensures n <= 9999 ==> r == n
  {
    DecimalLength(n);
    var s := Decimal(n)[..4];
    FourDigits(s);
    assert n <= 9999 ==> s == Decimal(n);
    DigitsValue(s)
  }

  lemma FourDigits(s: string)
    requires |s| == 4 && AllDigits(s)
    ensures DigitsValue(s) <= 9999
  {
    assert s[..3][..2] == s[..2] && s[..3][..2][..1] == s[..1] && s[..1][..0] == "";
    assert DigitsValue(s[..1]) <= 9;
    assert DigitsValue(s[..2]) <= 99;
    assert DigitsValue(s[..3]) <= 999;
  }

  /** The years that are read where a run was printed. */
  function YearsRead(r: Run): set<int>
    requires r.first <= r.second
  {
    if r.first == r.second then {r.first}
    else if 1000 <= r.first <= 9999 then Years(r.first, Top4(r.second))
    else {}
  }

  lemma IntShape(n: int)
    ensures n >= 0 ==> Digits(Int(n))
    ensures n < 0 ==> Int(n) == "-" + Decimal(-n) && Digits(Decimal(-n))
  {
    DecimalDigits(if n < 0 then -n else n);
  }

  lemma RunTight(r: Run)
    ensures Strip(RunText(r)) == RunText(r) && ',' !in RunText(r) && RunText(r) != ""
  {
    IntShape(r.first);
    IntShape(r.second);
  }

  lemma SingleRead(n: int)
    ensures Item(Int(n)) == {n}
  {
    var s := Int(n);
    IntShape(n);
    assert MatchRange(s).None?;
    if n >= 0 {
      NumberOfDecimal(n, false);
    } else {
      NegativeRead(-n);
    }
  }

  lemma NegativeRead(n: int)
    requires n > 0
    ensures Number("-" + Decimal(n), false) == Some(-n)
  {
    DecimalDigits(n);
    var s := "-" + Decimal(n);
    assert Strip(s) == s;
    assert s[1..] == Decimal(n);
  }

  /** A hyphen inside keeps a text from being a number. */
  lemma NotANumber(s: string, k: nat)
    requires 0 < k < |s| && s[k] == '-' && Strip(s) == s
    ensures Number(s, false) == None
  {
    assert s[1..][k - 1] == '-';
  }

  /** A range is recognised if it starts with exactly four digits. */
  lemma FourDigitsMatch(a: string, b: string)
    requires Digits(a) && |a| == 4 && Digits(b) && |b| >= 4
    ensures MatchRange(a + "-" + b) == Some((a, b[..4]))
  {
    var s := a + "-" + b;
    assert s[..4] == a && s[4..] == "-" + b && s[4..][1..] == b;
  }

  lemma OtherwiseNoMatch(a: string, b: string)
    requires Digits(a) && |a| != 4
    ensures MatchRange(a + "-" + b) == None
  {
    var s := a + "-" + b;
    assert s[|a|] == '-';
    if |a| < 4 {
      assert |s| >= 4 ==> s[..4][|a|] == '-';
    } else {
      assert s[4..][0] == a[4];
    }
  }

  lemma RangeRead(r: Run)
    requires r.first < r.second
    ensures Item(RunText(r)) == YearsRead(r)
  {
    var a, b, s := Int(r.first), Int(r.second), RunText(r);
    IntShape(r.first);
    IntShape(r.second);
    RunTight(r);
    assert s[|a|] == '-';
    NotANumber(s, |a|);
    if r.first >= 0 {
      DecimalLength(r.first);
      DecimalLength(r.second);
      if 1000 <= r.first <= 9999 {
        FourDigitsMatch(a, b);
      } else {
        OtherwiseNoMatch(a, b);
      }
    }
  }

  lemma RunRead(r: Run)
    requires r.first <= r.second
    ensures Item(Strip(RunText(r))) == YearsRead(r)
  {
    RunTight(r);
    if r.first == r.second {
      SingleRead(r.first);
    } else {
      RangeRead(r);
    }
  }

  ghost predicate ReadFrom(rs: seq<Run>, y: int)
    requires Apart(rs)
  {
    exists k :: 0 <= k < |rs| && y in YearsRead(rs[k])
  }

  lemma {:induction false} UnionHolds(sets: seq<set<int>>, y: int)
    ensures y in Union(sets) <==> exists k :: 0 <= k < |sets| && y in sets[k]
  {
    if sets != [] {
      UnionHolds(sets[..|sets| - 1], y);
    }
  }

  lemma UnionOfTexts(rs: seq<Run>, y: int)
    requires Apart(rs)
    ensures y in Union(Items(Texts(rs))) <==> ReadFrom(rs, y)
  {
    var sets := Items(Texts(rs));
    UnionHolds(sets, y);
    forall k | 0 <= k < |rs|
      ensures sets[k] == YearsRead(rs[k])
    {
      RunRead(rs[k]);
    }
  }

  lemma ProcessIs(s: set<int>, y: int)
    requires |s| > 0
    ensures Apart(Runs(SortedOf(s)))
    ensures y in Process(DateText(s)) <==> ReadFrom(Runs(SortedOf(s)), y)
  {
    RunsOfSet(s);
    var rs := Runs(SortedOf(s));
    forall k | 0 <= k < |rs|
      ensures ',' !in Texts(rs)[k]
    {
      RunTight(rs[k]);
    }
    SplitJoin(Texts(rs), ',');
    UnionOfTexts(rs, y);
  }

  /** Every two adjacent years are years of four digits. */
  ghost predicate FourDigitRanges(s: set<int>) {
    forall y :: y in s && y + 1 in s ==> 1000 <= y && y + 1 <= 9999
  }

  ghost predicate AllReadable(rs: seq<Run>) {
    forall k :: 0 <= k < |rs| && rs[k].first < rs[k].second ==> 1000 <= rs[k].first && rs[k].second <= 9999
  }

  ghost predicate AreRunsOf(rs: seq<Run>, s: set<int>) {
    Apart(rs) && forall y :: Covers(rs, y) <==> y in s
  }

  lemma FourDigitRangesAreReadable(rs: seq<Run>, s: set<int>)
    requires AreRunsOf(rs, s) && FourDigitRanges(s)
    ensures AllReadable(rs)
  {
    forall k | 0 <= k < |rs| && rs[k].first < rs[k].second
      ensures 1000 <= rs[k].first && rs[k].second <= 9999
    {
      var f, l := rs[k].first, rs[k].second;
      assert Covers(rs, f) && Covers(rs, f + 1) && Covers(rs, l - 1) && Covers(rs, l);
      assert f in s && f + 1 in s && l - 1 in s && l - 1 + 1 in s;
    }
  }

  lemma ReadableAreFourDigitRanges(rs: seq<Run>, s: set<int>)
    requires AreRunsOf(rs, s) && AllReadable(rs)
    ensures FourDigitRanges(s)
  {
    forall y | y in s && y + 1 in s
      ensures 1000 <= y && y + 1 <= 9999
    {
      assert Covers(rs, y) && Covers(rs, y + 1);
      SameRun(rs, y);
    }
  }

  /** Adjacent years are in one run. */
  lemma SameRun(rs: seq<Run>, y: int)
    requires Apart(rs) && Covers(rs, y) && Covers(rs, y + 1)
    ensures exists k :: 0 <= k < |rs| && rs[k].first <= y && y + 1 <= rs[k].second
  {
    var j :| 0 <= j < |rs| && rs[j].first <= y <= rs[j].second;
    var k :| 0 <= k < |rs| && rs[k].first <= y + 1 <= rs[k].second;
    assert !(j < k) && !(k < j);
  }

  lemma ReadableRead(rs: seq<Run>, y: int)
    requires Apart(rs) && AllReadable(rs)
    ensures ReadFrom(rs, y) <==> Covers(rs, y)
  {
    assert forall k :: 0 <= k < |rs| ==> (y in YearsRead(rs[k]) <==> rs[k].first <= y <= rs[k].second);
  }

  /** A year of an unreadable run that is not read anywhere. */
  lemma UnreadableLost(rs: seq<Run>, k: nat) returns (y: int)
    requires Apart(rs) && k < |rs| && rs[k].first < rs[k].second
    requires rs[k].first < 1000 || rs[k].second > 9999
    ensures Covers(rs, y) && !ReadFrom(rs, y)
  {
    y := if 1000 <= rs[k].first <= 9999 then rs[k].second else rs[k].first;
    assert y < 1000 || y > 9999;
    forall j | 0 <= j < |rs|
      ensures y !in YearsRead(rs[j])
    {
      if j != k {
        assert rs[j].second < rs[k].first || rs[k].second < rs[j].first;
      }
    }
  }

  lemma SurvivesIfReadable(s: set<int>)
    requires |s| > 0 && FourDigitRanges(s)
    ensures Process(DateText(s)) == s
  {
    RunsOfSet(s);
    var rs := Runs(SortedOf(s));
    FourDigitRangesAreReadable(rs, s);
    forall y
      ensures y in Process(DateText(s)) <==> y in s
    {
      ProcessIs(s, y);
      ReadableRead(rs, y);
    }
  }

  lemma LosesOtherwise(s: set<int>)
    requires |s| > 0 && !FourDigitRanges(s)
    ensures Process(DateText(s)) != s
  {
    RunsOfSet(s);
    var rs := Runs(SortedOf(s));
    var k := Unreadable(rs, s);
    var y := UnreadableLost(rs, k);
    ProcessIs(s, y);
  }

  lemma Unreadable(rs: seq<Run>, s: set<int>) returns (k: nat)
    requires AreRunsOf(rs, s) && !FourDigitRanges(s)
    ensures k < |rs| && rs[k].first < rs[k].second && (rs[k].first < 1000 || rs[k].second > 9999)
  {
    if k' :| 0 <= k' < |rs| && rs[k'].first < rs[k'].second && (rs[k'].first < 1000 || rs[k'].second > 9999) {
      k := k';
    } else {
      ReadableAreFourDigitRanges(rs, s);
    }
  }

  /** Main result: printing and reading gives the set back if and only if every two adjacent
      years in it have four digits; single years survive whatever they are. */
  lemma DatesRoundTripIff(s: set<int>)
    requires |s| > 0
    ensures Process(DateText(s)) == s <==> FourDigitRanges(s)
  {
    if FourDigitRanges(s) {
      SurvivesIfReadable(s);
    } else {
      LosesOtherwise(s);
    }
  }

  // ----- the loops of the script

  lemma UnionOneMore(sets: seq<set<int>>, k: nat)
    requires k < |sets|
    ensures Union(sets[..k + 1]) == Union(sets[..k]) + sets[k]
  {
    assert sets[..k + 1][..k] == sets[..k];
  }

  /** `process_dates`. */
  method ProcessDates(dates: string) returns (output: set<int>)
    ensures output == Process(dates)
  {
    var items := Split(dates, ',');
    output := {};
    ghost var sets := Items(items);
    for k := 0 to |items|
      invariant output == Union(sets[..k])
    {
      UnionOneMore(sets, k);
      output := AddItem(output, Strip(items[k]));
    }
    assert sets[..|items|] == sets;
  }

  method AddItem(before: set<int>, date: string) returns (output: set<int>)
    ensures output == before + Item(date)
  {
    output := before;
    var m := MatchRange(date);
    if m.Some? {
      output := AddRange(output, DigitsValue(m.value.0), DigitsValue(m.value.1));
    } else {
      var n := Number(date, false);
      if n.Some? {
        output := output + {n.value};
      }
    }
  }

  method AddRange(before: set<int>, f: int, l: int) returns (output: set<int>)
    ensures output == before + Years(f, l)
  {
    output := before;
    var i := f;
    while i <= l
      invariant i <= l + 1 || i == f
      invariant output == before + Years(f, i - 1)
      decreases l - i
    {
      output := output + {i};
      i := i + 1;
    }
  }

  /** `datestr`; the script pops from an empty list if there is no year. */
  method DateStr(dates: set<int>) returns (text: string)
    requires |dates| > 0
    ensures text == DateText(dates)
  {
    var list := SortDates(dates);
    var runs := FindRuns(list);
    text := Join(Texts(runs), ',');
  }

  method FindRuns(list: seq<int>) returns (output: seq<Run>)
    requires list != []
    ensures output == Runs(list)
  {
    output := [];
    var first, second := list[0], list[0];
    var rest := list[1..];
    while rest != []
      invariant output + RunsFrom(first, second, rest) == Runs(list)
      decreases |rest|
    {
      var next := rest[0];
      rest := rest[1..];
      if next == second + 1 {
        second := next;
      } else {
        output := output + [Run(first, second)];
        first, second := next, next;
      }
    }
    output := output + [Run(first, second)];
  }

  lemma LeastFirst(s: set<int>, m: int)
    requires IsLeast(s, m)
    ensures SortedOf(s) == [m] + SortedOf(s - {m})
  {
    assert |s| > 0;
    assert IsLeast(s, Least(s));
  }

  method SortDates(dates: set<int>) returns (list: seq<int>)
    ensures list == SortedOf(dates)
  {
    list := [];
    var rest := dates;
    while |rest| > 0
      invariant list + SortedOf(rest) == SortedOf(dates)
      decreases |rest|
    {
      assert IsLeast(rest, Least(rest));
      var m :| m in rest && forall y :: y in rest ==> m <= y;
      LeastFirst(rest, m);
      Sequences.Regroup(list, [m], SortedOf(rest - {m}));
      list := list + [m];
      rest := rest - {m};
    }
  }
}
