/**
 The rows in which the pipeline viewer draws one instruction (`print_inst` in
 gem5/util/o3-pipeview.py), without colours and without the text to their right.

 Products, quotients and remainders are those of Grid, which `Grid.Arithmetic` and
 `Grid.TimesIsProduct` identify with the operators.
 */
module Timeline {

  import opened Options
  import opened Grid
  import Sequences
  import Sorting
  import opened Strings

  const FETCH := 0
  const DISPATCH := 3
  const ISSUE := 4
  const RETIRE := 6
  const STORE := 7

  /** Ticks of fetch, decode, rename, dispatch, issue, complete, retire and store; zero for a
      stage that was not reached. */
  type Ticks = t: seq<nat> | |t| == 8 witness [0, 0, 0, 0, 0, 0, 0, 0]

  function Letter(stage: nat): char
    requires stage < 8
  {
    "fdnpicrs"[stage]
  }

  /** Alphabetical order of the stage names, which breaks ties between events. */
  function NameRank(stage: nat): nat {
    if stage < 8 then [3, 1, 5, 2, 4, 0, 6, 7][stage] else 8
  }

  datatype View = View(cycleTime: nat, width: nat, storeCompletions: bool) {
    /** The script divides by both numbers. */
    predicate Valid() {
      cycleTime > 0 && width > 0
    }

    function Stages(): nat {
      if storeCompletions then 8 else 7
    }

    function TimeWidth(): (tw: nat)
      requires Valid()
      ensures tw > 0
    {
      TimesMono(1, width, cycleTime);
      Times(width, cycleTime)
    }
  }

  // ----- rows

  function BaseTick(v: View, t: Ticks): nat
    requires v.Valid()
  {
    Times(Quotient(t[FETCH], v.TimeWidth()), v.TimeWidth())
  }

  /** The largest of the first n ticks. */
  function MaxTick(t: Ticks, n: nat): (m: nat)
    requires 1 <= n <= 8
    ensures forall s :: 0 <= s < n ==> t[s] <= m
    ensures exists s :: 0 <= s < n && t[s] == m
  {
    if n == 1 then t[0]
    else
      var m := MaxTick(t, n - 1);
      if t[n - 1] > m then t[n - 1] else m
  }

  function LastTick(v: View, t: Ticks): nat {
    MaxTick(t, v.Stages())
  }

  function NumLines(v: View, t: Ticks): nat
    requires v.Valid()
  {
    BaseBelow(v, t);
    var tw := v.TimeWidth();
    if LastTick(v, t) - t[FETCH] < tw then 1
    else Quotient(LastTick(v, t) - BaseTick(v, t), tw) + 1
  }

  function StartTick(v: View, t: Ticks, i: nat): nat
    requires v.Valid()
  {
    BaseTick(v, t) + Times(i, v.TimeWidth())
  }

  function EndTick(v: View, t: Ticks, i: nat): int
    requires v.Valid()
  {
    StartTick(v, t, i) + v.TimeWidth() + if NumLines(v, t) == 1 then t[FETCH] - BaseTick(v, t) else 0
  }

  predicate InRow(v: View, t: Ticks, i: nat, tick: nat)
    requires v.Valid()
  {
    StartTick(v, t, i) <= tick < EndTick(v, t, i)
  }

  lemma BaseBelow(v: View, t: Ticks)
    requires v.Valid()
    ensures BaseTick(v, t) <= t[FETCH] < BaseTick(v, t) + v.TimeWidth()
    ensures t[FETCH] <= LastTick(v, t)
  {
    Euclid(t[FETCH], v.TimeWidth());
  }

  /** A quotient counts whole rows. */
  lemma QuotientBounds(d: nat, c: nat)
    requires c > 0
    ensures Times(Quotient(d, c), c) <= d < Times(Quotient(d, c), c) + c
  {
    Euclid(d, c);
  }

  lemma QuotientUnique(d: nat, c: nat, i: nat)
    requires Times(i, c) <= d < Times(i, c) + c
    ensures Quotient(d, c) == i
  {
    QuotientOf(i, c, d - Times(i, c));
  }

  lemma {:induction false} QuotientMono(a: nat, b: nat, c: nat)
    requires c > 0 && a <= b
    ensures Quotient(a, c) <= Quotient(b, c)
    decreases b
  {
    if c <= a {
      QuotientMono(a - c, b - c, c);
    }
  }

  /** The compact form is the only one with one line. */
  lemma OneLineIffCompact(v: View, t: Ticks)
    requires v.Valid()
    ensures NumLines(v, t) == 1 <==> LastTick(v, t) - t[FETCH] < v.TimeWidth()
  {
    BaseBelow(v, t);
    if LastTick(v, t) - t[FETCH] >= v.TimeWidth() {
      assert Quotient(LastTick(v, t) - BaseTick(v, t), v.TimeWidth()) >= 1;
    }
  }

  /** The row of a tick. */
  function RowOf(v: View, t: Ticks, tick: nat): nat
    requires v.Valid() && tick >= BaseTick(v, t)
  {
    if NumLines(v, t) == 1 then 0 else Quotient(tick - BaseTick(v, t), v.TimeWidth())
  }

  /** A tick up to the last event is in exactly one row if it is not before the row in which
      the fetch falls, and in no row otherwise. */
  lemma ExactlyOneRow(v: View, t: Ticks, tick: nat)
    requires v.Valid() && tick <= LastTick(v, t)
    ensures tick >= BaseTick(v, t) ==> RowOf(v, t, tick) < NumLines(v, t)
    ensures tick >= BaseTick(v, t) ==>
      forall i :: 0 <= i < NumLines(v, t) ==> (InRow(v, t, i, tick) <==> i == RowOf(v, t, tick))
    ensures tick < BaseTick(v, t) ==> forall i: nat :: !InRow(v, t, i, tick)
  {
    OneLineIffCompact(v, t);
    BaseBelow(v, t);
    if tick >= BaseTick(v, t) && NumLines(v, t) > 1 {
      var tw, d := v.TimeWidth(), tick - BaseTick(v, t);
      QuotientMono(d, LastTick(v, t) - BaseTick(v, t), tw);
      forall i | 0 <= i < NumLines(v, t)
        ensures InRow(v, t, i, tick) <==> i == RowOf(v, t, tick)
      {
        QuotientBounds(d, tw);
        if InRow(v, t, i, tick) {
          QuotientUnique(d, tw, i);
        }
      }
    }
  }

  lemma ClosenessKeepsApart(a: nat, b: nat, c: nat)
    requires c > 0 && a < b < a + c
    ensures Remainder(a, c) != Remainder(b, c)
  {
    Euclid(a, c);
    Euclid(b, c);
    var q, q' := Quotient(a, c), Quotient(b, c);
    if q' <= q {
      TimesMono(q', q, c);
    } else {
      TimesMono(q + 1, q', c);
    }
  }

  /** Different ticks in one row keep different places in it. */
  lemma RowKeepsTicksApart(v: View, t: Ticks, i: nat, a: nat, b: nat)
    requires v.Valid() && t[FETCH] <= a < b
    requires InRow(v, t, i, a) && InRow(v, t, i, b) && i < NumLines(v, t)
    ensures Remainder(a, v.TimeWidth()) != Remainder(b, v.TimeWidth())
  {
    ClosenessKeepsApart(a, b, v.TimeWidth());
  }

  // ----- events of a row

  datatype Event = Event(offset: nat, stage: nat)

  predicate Proper(v: View, e: Event)
    requires v.Valid()
  {
    e.stage < 8 && e.offset < v.TimeWidth()
  }

  predicate AllProper(v: View, es: seq<Event>)
    requires v.Valid()
  {
    forall j :: 0 <= j < |es| ==> Proper(v, es[j])
  }

  function EventOf(v: View, t: Ticks, s: nat): (e: Event)
    requires v.Valid() && s < 8
    ensures Proper(v, e)
  {
    Euclid(t[s], v.TimeWidth());
    Event(Remainder(t[s], v.TimeWidth()), s)
  }

  predicate Happens(v: View, t: Ticks, i: nat, s: nat)
    requires v.Valid() && s < 8
  {
    t[s] != 0 && InRow(v, t, i, t[s])
  }

  /** Events of the first n stages in row i. */
  function Events(v: View, t: Ticks, i: nat, n: nat): (es: seq<Event>)
    requires v.Valid() && n <= 8
    ensures AllProper(v, es)
    ensures forall j :: 0 <= j < |es| ==> es[j].stage < n && Happens(v, t, i, es[j].stage) && es[j] == EventOf(v, t, es[j].stage)
    ensures forall s :: 0 <= s < n && Happens(v, t, i, s) ==> EventOf(v, t, s) in es
    ensures forall j, k :: 0 <= j < k < |es| ==> es[j].stage != es[k].stage
  {
    if n == 0 then []
    else if Happens(v, t, i, n - 1) then Events(v, t, i, n - 1) + [EventOf(v, t, n - 1)]
    else Events(v, t, i, n - 1)
  }

  /** The order of the tuples that the script sorts; names differ, so what follows the name
      is never compared. */
  predicate Precedes(a: Event, b: Event) {
    a.offset < b.offset || (a.offset == b.offset && NameRank(a.stage) <= NameRank(b.stage))
  }

  function SortEvents(v: View, es: seq<Event>): (r: seq<Event>)
    requires v.Valid() && AllProper(v, es)
    ensures AllProper(v, r) && multiset(r) == multiset(es)
  {
    SortKeepsProper(v, es);
    Sorting.Sort(Precedes, es)
  }

  lemma SortKeepsProper(v: View, es: seq<Event>)
    requires v.Valid() && AllProper(v, es)
    ensures var r := Sorting.Sort(Precedes, es); AllProper(v, r) && multiset(r) == multiset(es)
  {
    Sorting.SortCorrect(Precedes, es);
    var r := Sorting.Sort(Precedes, es);
    forall j | 0 <= j < |r|
      ensures Proper(v, r[j])
    {
      assert r[j] in multiset(es);
    }
  }

  /** The dispatch is not drawn if the issue is at the same tick. */
  predicate Hidden(t: Ticks, s: nat) {
    s == DISPATCH && t[DISPATCH] == t[ISSUE]
  }

  function Drawn(v: View, t: Ticks, es: seq<Event>): (ds: seq<Event>)
    requires v.Valid() && AllProper(v, es)
    ensures AllProper(v, ds)
  {
    if es == [] then []
    else if Hidden(t, es[0].stage) then Drawn(v, t, es[1..])
    else [es[0]] + Drawn(v, t, es[1..])
  }

  lemma {:induction false} DrawnElements(v: View, t: Ticks, es: seq<Event>, e: Event)
    requires v.Valid() && AllProper(v, es)
    ensures e in Drawn(v, t, es) <==> e in es && !Hidden(t, e.stage)
  {
    if es != [] {
      DrawnElements(v, t, es[1..], e);
    }
  }

  lemma {:induction false} DrawnNoRepeats(v: View, t: Ticks, es: seq<Event>)
    requires v.Valid() && AllProper(v, es) && Sequences.Distinct(es)
    ensures Sequences.Distinct(Drawn(v, t, es))
  {
    if es != [] {
      DrawnNoRepeats(v, t, es[1..]);
      DrawnElements(v, t, es[1..], es[0]);
    }
  }

  lemma {:induction false} DrawnSorted(v: View, t: Ticks, es: seq<Event>)
    requires v.Valid() && AllProper(v, es) && Sorting.Sorted(Precedes, es)
    ensures Sorting.Sorted(Precedes, Drawn(v, t, es))
  {
    if es != [] {
      DrawnSorted(v, t, es[1..]);
      forall e | e in Drawn(v, t, es[1..])
        ensures Precedes(es[0], e)
      {
        DrawnElements(v, t, es[1..], e);
      }
    }
  }

  // ----- cells of a row

  /** The cell of an event. */
  function Column(v: View, e: Event): (c: nat)
    requires v.Valid() && Proper(v, e)
    ensures c < v.width
  {
    ColumnBound(v, e);
    Quotient(e.offset, v.cycleTime)
  }

  lemma ColumnBound(v: View, e: Event)
    requires v.Valid() && Proper(v, e)
    ensures Quotient(e.offset, v.cycleTime) < v.width
  {
    Euclid(e.offset, v.cycleTime);
    if Quotient(e.offset, v.cycleTime) >= v.width {
      TimesMono(v.width, Quotient(e.offset, v.cycleTime), v.cycleTime);
    }
  }

  function Dots(dot: char, n: int): (s: string)
    ensures |s| == (if n < 0 then 0 else n) && forall c :: 0 <= c < |s| ==> s[c] == dot
  {
    if n <= 0 then "" else Dots(dot, n - 1) + [dot]
  }

  /** What is drawn for an event: a letter in a cell. */
  datatype Mark = Mark(cell: nat, letter: char)

  predicate Within(width: nat, ms: seq<Mark>) {
    forall j :: 0 <= j < |ms| ==> ms[j].cell < width
  }

  /** The cells from pos on. */
  function Cells(width: nat, dot: char, ms: seq<Mark>, pos: nat): string
    requires Within(width, ms) && pos <= width
    decreases |ms|
  {
    if ms == [] then Dots(dot, width - pos)
    else Dots(dot, ms[0].cell - pos) + [ms[0].letter] + Cells(width, dot, ms[1..], ms[0].cell + 1)
  }

  ghost predicate Ascending(ms: seq<Mark>, pos: nat) {
    && (forall j :: 0 <= j < |ms| ==> pos <= ms[j].cell + 1)
    && (forall j, k :: 0 <= j < k < |ms| ==> ms[j].cell <= ms[k].cell)
  }

  ghost predicate StrictlyAscending(ms: seq<Mark>, pos: nat) {
    && (forall j :: 0 <= j < |ms| ==> pos <= ms[j].cell)
    && (forall j, k :: 0 <= j < k < |ms| ==> ms[j].cell < ms[k].cell)
  }

  lemma {:induction false} CellsWidth(width: nat, dot: char, ms: seq<Mark>, pos: nat)
    requires Within(width, ms) && pos <= width && Ascending(ms, pos)
    ensures |Cells(width, dot, ms, pos)| >= width - pos
    ensures |Cells(width, dot, ms, pos)| == width - pos <==> StrictlyAscending(ms, pos)
    decreases |ms|
  {
    if ms != [] {
      CellsWidth(width, dot, ms[1..], ms[0].cell + 1);
    }
  }

  lemma DotsThenLetter(dot: char, n: nat, letter: char, rest: string, k: nat)
    requires k <= n + |rest|
    ensures var s := Dots(dot, n) + [letter] + rest;
      |s| == n + 1 + |rest| && s[k] == if k < n then dot else if k == n then letter else rest[k - n - 1]
  {
  }

  lemma CellsFirst(width: nat, dot: char, m: Mark, ms: seq<Mark>, pos: nat)
    requires m.cell < width && Within(width, ms) && pos <= width
    ensures Within(width, [m] + ms)
    ensures Cells(width, dot, [m] + ms, pos) ==
      Dots(dot, m.cell - pos) + [m.letter] + Cells(width, dot, ms, m.cell + 1)
  {
    assert ([m] + ms)[0] == m && ([m] + ms)[1..] == ms;
  }

  /** The cells up to the first mark, and behind it. */
  lemma CellsStep(width: nat, dot: char, ms: seq<Mark>, pos: nat, c: nat)
    requires Within(width, ms) && ms != [] && pos <= ms[0].cell && pos <= c < width
    requires |Cells(width, dot, ms[1..], ms[0].cell + 1)| == width - ms[0].cell - 1
    ensures |Cells(width, dot, ms, pos)| == width - pos
    ensures var p := ms[0].cell;
      Cells(width, dot, ms, pos)[c - pos] ==
        if c < p then dot else if c == p then ms[0].letter
        else Cells(width, dot, ms[1..], p + 1)[c - p - 1]
  {
    CellsFirst(width, dot, ms[0], ms[1..], pos);
    assert ms == [ms[0]] + ms[1..];
    DotsThenLetter(dot, ms[0].cell - pos, ms[0].letter, Cells(width, dot, ms[1..], ms[0].cell + 1), c - pos);
  }

  lemma RestAscends(width: nat, dot: char, ms: seq<Mark>, pos: nat)
    requires Within(width, ms) && StrictlyAscending(ms, pos) && ms != []
    ensures Within(width, ms[1..]) && StrictlyAscending(ms[1..], ms[0].cell + 1)
    ensures |Cells(width, dot, ms[1..], ms[0].cell + 1)| == width - ms[0].cell - 1
  {
    CellsWidth(width, dot, ms[1..], ms[0].cell + 1);
  }

  /** Without two marks in one cell, the cell c of a mark holds its letter, ... */
  lemma {:induction false} CellOfMark(width: nat, dot: char, ms: seq<Mark>, pos: nat, j: nat, c: nat)
    requires Within(width, ms) && StrictlyAscending(ms, pos) && j < |ms| && ms[j].cell == c
    ensures pos <= c < width && |Cells(width, dot, ms, pos)| == width - pos
    ensures Cells(width, dot, ms, pos)[c - pos] == ms[j].letter
    decreases |ms|
  {
    RestAscends(width, dot, ms, pos);
    CellsStep(width, dot, ms, pos, c);
    if j > 0 {
      CellOfMark(width, dot, ms[1..], ms[0].cell + 1, j - 1, c);
    }
  }

  /** ... and a cell without a mark holds a dot. */
  lemma {:induction false} CellWithoutMark(width: nat, dot: char, ms: seq<Mark>, pos: nat, c: nat)
    requires Within(width, ms) && StrictlyAscending(ms, pos) && pos <= c < width
    requires forall j :: 0 <= j < |ms| ==> ms[j].cell != c
    ensures |Cells(width, dot, ms, pos)| == width - pos
    ensures Cells(width, dot, ms, pos)[c - pos] == dot
    decreases |ms|
  {
    if ms != [] {
      RestAscends(width, dot, ms, pos);
      CellsStep(width, dot, ms, pos, c);
      if ms[0].cell < c {
        CellWithoutMark(width, dot, ms[1..], ms[0].cell + 1, c);
      }
    }
  }

  function MarkOf(v: View, e: Event): Mark
    requires v.Valid() && Proper(v, e)
  {
    Mark(Column(v, e), Letter(e.stage))
  }

  function Marks(v: View, ds: seq<Event>): (ms: seq<Mark>)
    requires v.Valid() && AllProper(v, ds)
    ensures Within(v.width, ms) && |ms| == |ds| && forall j :: 0 <= j < |ds| ==> ms[j] == MarkOf(v, ds[j])
  {
    seq(|ds|, j requires 0 <= j < |ds| => MarkOf(v, ds[j]))
  }

  // ----- what is drawn

  function DrawnEvents(v: View, t: Ticks, i: nat): (ds: seq<Event>)
    requires v.Valid()
    ensures AllProper(v, ds)
  {
    Drawn(v, t, SortEvents(v, Events(v, t, i, v.Stages())))
  }

  function Dot(t: Ticks): char {
    if t[RETIRE] == 0 then '=' else '.'
  }

  function Row(v: View, t: Ticks, i: nat): string
    requires v.Valid()
  {
    Cells(v.width, Dot(t), Marks(v, DrawnEvents(v, t, i)), 0)
  }

  /** Stage s is drawn in row i. */
  predicate Shown(v: View, t: Ticks, i: nat, s: nat)
    requires v.Valid() && s < 8
  {
    s < v.Stages() && Happens(v, t, i, s) && !Hidden(t, s)
  }

  ghost predicate DistinctCycles(v: View, t: Ticks, i: nat)
    requires v.Valid()
  {
    forall s, s' :: 0 <= s < s' < 8 && Shown(v, t, i, s) && Shown(v, t, i, s') ==>
      Column(v, EventOf(v, t, s)) != Column(v, EventOf(v, t, s'))
  }

  lemma DrawnEventsAre(v: View, t: Ticks, i: nat, e: Event)
    requires v.Valid()
    ensures e in DrawnEvents(v, t, i) <==> e in Events(v, t, i, v.Stages()) && !Hidden(t, e.stage)
  {
    var es := Events(v, t, i, v.Stages());
    DrawnElements(v, t, SortEvents(v, es), e);
    assert e in multiset(SortEvents(v, es)) <==> e in multiset(es);
  }

  lemma DrawnIsShown(v: View, t: Ticks, i: nat, e: Event)
    requires v.Valid() && e in DrawnEvents(v, t, i)
    ensures e.stage < 8 && Shown(v, t, i, e.stage) && e == EventOf(v, t, e.stage)
  {
    DrawnEventsAre(v, t, i, e);
  }

  lemma ShownIsDrawn(v: View, t: Ticks, i: nat, s: nat) returns (j: nat)
    requires v.Valid() && s < 8 && Shown(v, t, i, s)
    ensures j < |DrawnEvents(v, t, i)| && DrawnEvents(v, t, i)[j] == EventOf(v, t, s)
  {
    DrawnEventsAre(v, t, i, EventOf(v, t, s));
    j :| 0 <= j < |DrawnEvents(v, t, i)| && DrawnEvents(v, t, i)[j] == EventOf(v, t, s);
  }

  lemma DrawnOrder(v: View, t: Ticks, i: nat)
    requires v.Valid()
    ensures Sequences.Distinct(DrawnEvents(v, t, i)) && Sorting.Sorted(Precedes, DrawnEvents(v, t, i))
    ensures Ascending(Marks(v, DrawnEvents(v, t, i)), 0)
  {
    var es := Events(v, t, i, v.Stages());
    Sorting.SortCorrect(Precedes, es);
    Sorting.PermutationIsDistinct(es, SortEvents(v, es));
    DrawnSorted(v, t, SortEvents(v, es));
    DrawnNoRepeats(v, t, SortEvents(v, es));
    SortedAscends(v, DrawnEvents(v, t, i));
  }

  lemma SortedAscends(v: View, ds: seq<Event>)
    requires v.Valid() && AllProper(v, ds) && Sorting.Sorted(Precedes, ds)
    ensures Ascending(Marks(v, ds), 0)
  {
    forall j, k | 0 <= j < k < |ds|
      ensures Column(v, ds[j]) <= Column(v, ds[k])
    {
      QuotientMono(ds[j].offset, ds[k].offset, v.cycleTime);
    }
  }

  /** Two stages drawn in one cycle are two marks in one cell, and the other way round. */
  lemma StrictIsDistinct(v: View, t: Ticks, i: nat, s: nat, s': nat)
    requires v.Valid() && StrictlyAscending(Marks(v, DrawnEvents(v, t, i)), 0)
    requires s < s' < 8 && Shown(v, t, i, s) && Shown(v, t, i, s')
    ensures Column(v, EventOf(v, t, s)) != Column(v, EventOf(v, t, s'))
  {
    var ms := Marks(v, DrawnEvents(v, t, i));
    var j := ShownIsDrawn(v, t, i, s);
    var k := ShownIsDrawn(v, t, i, s');
    assert ms[j].cell == Column(v, EventOf(v, t, s)) && ms[k].cell == Column(v, EventOf(v, t, s'));
  }

  lemma DistinctIsStrict(v: View, t: Ticks, i: nat, j: nat, k: nat)
    requires v.Valid() && DistinctCycles(v, t, i) && j < k < |DrawnEvents(v, t, i)|
    ensures var ds := DrawnEvents(v, t, i); Column(v, ds[j]) != Column(v, ds[k])
  {
    var ds := DrawnEvents(v, t, i);
    DrawnOrder(v, t, i);
    DrawnIsShown(v, t, i, ds[j]);
    DrawnIsShown(v, t, i, ds[k]);
    var s, s' := ds[j].stage, ds[k].stage;
    assert s < s' || s' < s;
  }

  lemma StrictIffDistinct(v: View, t: Ticks, i: nat)
    requires v.Valid()
    ensures StrictlyAscending(Marks(v, DrawnEvents(v, t, i)), 0) <==> DistinctCycles(v, t, i)
  {
    var ms := Marks(v, DrawnEvents(v, t, i));
    DrawnOrder(v, t, i);
    if StrictlyAscending(ms, 0) {
      forall s, s' | 0 <= s < s' < 8 && Shown(v, t, i, s) && Shown(v, t, i, s')
        ensures Column(v, EventOf(v, t, s)) != Column(v, EventOf(v, t, s'))
      {
        StrictIsDistinct(v, t, i, s, s');
      }
    }
    if DistinctCycles(v, t, i) {
      forall j, k | 0 <= j < k < |ms|
        ensures ms[j].cell < ms[k].cell
      {
        DistinctIsStrict(v, t, i, j, k);
      }
    }
  }

  /** A row has at least the width asked for, and exactly that width if and only if the
      events drawn in it are in distinct cycles. */
  lemma RowWidthIff(v: View, t: Ticks, i: nat)
    requires v.Valid()
    ensures |Row(v, t, i)| >= v.width
    ensures |Row(v, t, i)| == v.width <==> DistinctCycles(v, t, i)
  {
    DrawnOrder(v, t, i);
    StrictIffDistinct(v, t, i);
    CellsWidth(v.width, Dot(t), Marks(v, DrawnEvents(v, t, i)), 0);
  }

  /** Then the row is a chart: each cell holds the letter of the stage at its cycle, or the
      dot if there is none. */
  lemma RowIsChart(v: View, t: Ticks, i: nat, c: nat)
    requires v.Valid() && DistinctCycles(v, t, i) && c < v.width
    ensures |Row(v, t, i)| == v.width
    ensures forall s :: 0 <= s < 8 && Shown(v, t, i, s) && Column(v, EventOf(v, t, s)) == c ==>
      Row(v, t, i)[c] == Letter(s)
    ensures (forall s :: 0 <= s < 8 && Shown(v, t, i, s) ==> Column(v, EventOf(v, t, s)) != c) ==>
      Row(v, t, i)[c] == if t[RETIRE] == 0 then '=' else '.'
  {
    var ds := DrawnEvents(v, t, i);
    StrictIffDistinct(v, t, i);
    var ms := Marks(v, ds);
    CellsWidth(v.width, Dot(t), ms, 0);
    forall s | 0 <= s < 8 && Shown(v, t, i, s) && Column(v, EventOf(v, t, s)) == c
      ensures Row(v, t, i)[c] == Letter(s)
    {
      var j := ShownIsDrawn(v, t, i, s);
      assert ms[j] == Mark(c, Letter(s));
      CellOfMark(v.width, Dot(t), ms, 0, j, c);
    }
    if forall s :: 0 <= s < 8 && Shown(v, t, i, s) ==> Column(v, EventOf(v, t, s)) != c {
      forall j | 0 <= j < |ms|
        ensures ms[j].cell != c
      {
        DrawnIsShown(v, t, i, ds[j]);
      }
      CellWithoutMark(v.width, Dot(t), ms, 0, c);
    }
  }

  /** Main result: which stages are drawn. A stage is drawn in exactly one row if it was reached,
      not before the row in which the fetch falls, unless it is a store that is not asked for
      or a dispatch at the tick of the issue; otherwise in none. Its letter is in the cell of
      its cycle if its row has no two events in one cycle. */
  lemma StageIsDrawn(v: View, t: Ticks, s: nat)
    requires v.Valid() && s < 8
    ensures (exists i :: 0 <= i < NumLines(v, t) && Shown(v, t, i, s)) <==>
      && t[s] != 0 && t[s] >= BaseTick(v, t)
      && (s == STORE ==> v.storeCompletions) && (s == DISPATCH ==> t[DISPATCH] != t[ISSUE])
    ensures forall i :: 0 <= i < NumLines(v, t) && Shown(v, t, i, s) ==>
      && t[s] >= BaseTick(v, t) && i == RowOf(v, t, t[s])
      && (DistinctCycles(v, t, i) ==>
        |Row(v, t, i)| == v.width && Row(v, t, i)[Column(v, EventOf(v, t, s))] == Letter(s))
  {
    if s < v.Stages() {
      ExactlyOneRow(v, t, t[s]);
      if t[s] != 0 && t[s] >= BaseTick(v, t) && !Hidden(t, s) {
        assert Shown(v, t, RowOf(v, t, t[s]), s);
      }
    }
    forall i | 0 <= i < NumLines(v, t) && Shown(v, t, i, s) && DistinctCycles(v, t, i)
      ensures |Row(v, t, i)| == v.width && Row(v, t, i)[Column(v, EventOf(v, t, s))] == Letter(s)
    {
      RowIsChart(v, t, i, Column(v, EventOf(v, t, s)));
    }
  }

  // ----- what a row reads without its dots

  function Name(stage: nat): string
    requires stage < 8
  {
    ["fetch", "decode", "rename", "dispatch", "issue", "complete", "retire", "store"][stage]
  }

  predicate IsDot(c: char) {
    c == '.' || c == '='
  }

  /** The letter of a stage is one of its name, no dot, and that of no other stage. */
  lemma LetterTellsStage(s: nat, s': nat)
    requires s < 8 && s' < 8
    ensures Letter(s) in Name(s) && !IsDot(Letter(s))
    ensures Letter(s) == Letter(s') ==> s == s'
  {
    var letters := "fdnpicrs";
    assert Letter(s) == letters[s];
    var at := [0, 0, 2, 3, 0, 0, 0, 0][s];
    assert Name(s)[at] == Letter(s);
  }

  /** Three characters tell the names apart. */
  lemma NameStarts(s: nat)
    requires s < 8
    ensures |Name(s)| >= 5
    ensures Name(s)[0] == "fdrdicrs"[s] && Name(s)[1] == "eeeisoet"[s] && Name(s)[2] == "tcnssmto"[s]
  {
  }

  lemma LowerName(s: nat, s': nat)
    requires s < 8 && s' < 8 && NameRank(s) < NameRank(s')
    ensures CompareStrings(Name(s), Name(s')) < 0
  {
    NameStarts(s);
    NameStarts(s');
    StringsCompareIff(Name(s), Name(s'));
    var k := if s == 1 && s' == DISPATCH then 1 else if s == 2 && s' == RETIRE then 2 else 0;
    assert LowerAt(Name(s), Name(s'), k);
  }

  /** The ranks of the stages are those of their names. */
  lemma NamesInOrder(s: nat, s': nat)
    requires s < 8 && s' < 8
    ensures NameRank(s) < NameRank(s') <==> CompareStrings(Name(s), Name(s')) < 0
  {
    if NameRank(s) < NameRank(s') {
      LowerName(s, s');
    } else {
      StringsOrdered(Name(s), Name(s'), Name(s));
      if s != s' {
        LowerName(s', s);
      }
    }
  }

  function Undotted(row: string): string {
    if row == "" then ""
    else if IsDot(row[0]) then Undotted(row[1..])
    else [row[0]] + Undotted(row[1..])
  }

  lemma {:induction false} UndottedConcat(a: string, b: string)
    ensures Undotted(a + b) == Undotted(a) + Undotted(b)
  {
    if a == "" {
      assert a + b == b;
    } else {
      UndottedConcat(a[1..], b);
      assert (a + b)[1..] == a[1..] + b;
    }
  }

  lemma {:induction false} UndottedDots(dot: char, n: int)
    requires IsDot(dot)
    ensures Undotted(Dots(dot, n)) == ""
    decreases n
  {
    if n > 0 {
      UndottedDots(dot, n - 1);
      UndottedConcat(Dots(dot, n - 1), [dot]);
    }
  }

  function LettersOf(ms: seq<Mark>): string {
    if ms == [] then "" else [ms[0].letter] + LettersOf(ms[1..])
  }

  lemma {:induction false} CellsRead(width: nat, dot: char, ms: seq<Mark>, pos: nat)
    requires Within(width, ms) && pos <= width && IsDot(dot)
    requires forall j :: 0 <= j < |ms| ==> !IsDot(ms[j].letter)
    ensures Undotted(Cells(width, dot, ms, pos)) == LettersOf(ms)
    decreases |ms|
  {
    if ms == [] {
      UndottedDots(dot, width - pos);
    } else {
      var dots, letter, rest :=
        Dots(dot, ms[0].cell - pos), [ms[0].letter], Cells(width, dot, ms[1..], ms[0].cell + 1);
      CellsRead(width, dot, ms[1..], ms[0].cell + 1);
      UndottedDots(dot, ms[0].cell - pos);
      UndottedConcat(dots, letter);
      UndottedConcat(dots + letter, rest);
    }
  }

  /** The letters of stages. */
  function Spelled(stages: seq<nat>): string
    requires forall j :: 0 <= j < |stages| ==> stages[j] < 8
  {
    if stages == [] then "" else [Letter(stages[0])] + Spelled(stages[1..])
  }

  function StagesOf(v: View, ds: seq<Event>): (r: seq<nat>)
    requires v.Valid() && AllProper(v, ds)
    ensures |r| == |ds| && forall j :: 0 <= j < |ds| ==> r[j] == ds[j].stage < 8
  {
    seq(|ds|, j requires 0 <= j < |ds| => ds[j].stage)
  }

  lemma {:induction false} MarksSpell(v: View, ds: seq<Event>)
    requires v.Valid() && AllProper(v, ds)
    ensures LettersOf(Marks(v, ds)) == Spelled(StagesOf(v, ds))
  {
    if ds != [] {
      MarksSpell(v, ds[1..]);
      assert Marks(v, ds)[1..] == Marks(v, ds[1..]) && StagesOf(v, ds)[1..] == StagesOf(v, ds[1..]);
    }
  }

  /** Stage s comes before s': earlier in the row, or at the same place and by its name. */
  ghost predicate Sooner(v: View, t: Ticks, s: nat, s': nat)
    requires v.Valid() && s < 8 && s' < 8
  {
    var o, o' := Remainder(t[s], v.TimeWidth()), Remainder(t[s'], v.TimeWidth());
    o < o' || (o == o' && CompareStrings(Name(s), Name(s')) < 0)
  }

  lemma PrecedesIsSooner(v: View, t: Ticks, a: Event, b: Event)
    requires v.Valid() && a.stage < 8 && b.stage < 8 && a != b && Precedes(a, b)
    requires a == EventOf(v, t, a.stage) && b == EventOf(v, t, b.stage)
    ensures Sooner(v, t, a.stage, b.stage)
  {
    NamesInOrder(a.stage, b.stage);
    assert NameRank(a.stage) == NameRank(b.stage) ==> a.stage == b.stage;
  }

  lemma DrawnSooner(v: View, t: Ticks, i: nat, ds: seq<Event>, j: nat, k: nat)
    requires v.Valid() && ds == DrawnEvents(v, t, i) && j < k < |ds|
    ensures ds[j].stage < 8 && ds[k].stage < 8 && Sooner(v, t, ds[j].stage, ds[k].stage)
  {
    DrawnOrder(v, t, i);
    DrawnIsShown(v, t, i, ds[j]);
    DrawnIsShown(v, t, i, ds[k]);
    PrecedesIsSooner(v, t, ds[j], ds[k]);
  }

  /** Main result: what a row reads, also with several events in one cycle. Without its dots it
      is the letters of the stages drawn in it, each once, by their places and then names. */
  lemma RowReads(v: View, t: Ticks, i: nat) returns (stages: seq<nat>)
    requires v.Valid()
    ensures forall s :: s in stages <==> 0 <= s < 8 && Shown(v, t, i, s)
    ensures forall j :: 0 <= j < |stages| ==> stages[j] < 8
    ensures forall j, k :: 0 <= j < k < |stages| ==> Sooner(v, t, stages[j], stages[k])
    ensures Undotted(Row(v, t, i)) == Spelled(stages)
  {
    var ds := DrawnEvents(v, t, i);
    stages := StagesOf(v, ds);
    forall s
      ensures s in stages <==> 0 <= s < 8 && Shown(v, t, i, s)
    {
      if s in stages {
        var j :| 0 <= j < |stages| && stages[j] == s;
        DrawnIsShown(v, t, i, ds[j]);
      }
      if 0 <= s < 8 && Shown(v, t, i, s) {
        var j := ShownIsDrawn(v, t, i, s);
        assert stages[j] == s;
      }
    }
    forall j, k | 0 <= j < k < |stages|
      ensures Sooner(v, t, stages[j], stages[k])
    {
      DrawnSooner(v, t, i, ds, j, k);
    }
    LettersAreNoDots(v, ds);
    CellsRead(v.width, Dot(t), Marks(v, ds), 0);
    MarksSpell(v, ds);
  }

  lemma LettersAreNoDots(v: View, ds: seq<Event>)
    requires v.Valid() && AllProper(v, ds)
    ensures forall j :: 0 <= j < |ds| ==> !IsDot(Marks(v, ds)[j].letter)
  {
    forall j | 0 <= j < |ds|
      ensures !IsDot(Marks(v, ds)[j].letter)
    {
      LetterTellsStage(ds[j].stage, 0);
    }
  }

  /** In the compact form the script looks at the first event of the row. */
  predicate LooksAtNothing(v: View, t: Ticks)
    requires v.Valid()
  {
    NumLines(v, t) == 1 && Events(v, t, 0, v.Stages()) == []
  }

  lemma {:induction false} NoEvents(v: View, t: Ticks, i: nat, n: nat)
    requires v.Valid() && n <= 8 && forall s :: 0 <= s < n ==> t[s] == 0
    ensures Events(v, t, i, n) == []
  {
    if n > 0 {
      NoEvents(v, t, i, n - 1);
    }
  }

  lemma LooksAtNothingIff(v: View, t: Ticks)
    requires v.Valid()
    ensures LooksAtNothing(v, t) <==> forall s :: 0 <= s < v.Stages() ==> t[s] == 0
  {
    BaseBelow(v, t);
    OneLineIffCompact(v, t);
    if forall s :: 0 <= s < v.Stages() ==> t[s] == 0 {
      NoEvents(v, t, 0, v.Stages());
    } else if NumLines(v, t) == 1 {
      var s :| 0 <= s < v.Stages() && t[s] != 0;
      var s' := if t[FETCH] > 0 then FETCH else s;
      assert Happens(v, t, 0, s');
      assert EventOf(v, t, s') in Events(v, t, 0, v.Stages());
    }
  }

  // ----- the loops

  method PrintRow(v: View, t: Ticks, i: nat) returns (row: string)
    requires v.Valid()
    ensures row == Row(v, t, i)
  {
    var events: seq<Event> := [];
    for s := 0 to v.Stages()
      invariant events == Events(v, t, i, s)
    {
      if t[s] != 0 {
        if StartTick(v, t, i) <= t[s] < EndTick(v, t, i) {
          events := events + [EventOf(v, t, s)];
        }
      }
    }
    events := SortEvents(v, events);
    row := DrawCells(v, t, events);
  }

  /** The cells still to be drawn when the events es are left. */
  function CellsOf(v: View, t: Ticks, es: seq<Event>, pos: nat): string
    requires v.Valid() && AllProper(v, es) && pos <= v.width
  {
    Cells(v.width, Dot(t), Marks(v, Drawn(v, t, es)), pos)
  }

  lemma MarksFirst(v: View, t: Ticks, es: seq<Event>)
    requires v.Valid() && AllProper(v, es) && es != []
    ensures var ms := Marks(v, Drawn(v, t, es[1..]));
      Marks(v, Drawn(v, t, es)) == if Hidden(t, es[0].stage) then ms else [MarkOf(v, es[0])] + ms
  {
  }

  /** What the first of the events left does to them. */
  lemma CellsOfFirst(v: View, t: Ticks, es: seq<Event>, pos: nat)
    requires v.Valid() && AllProper(v, es) && es != [] && pos <= v.width
    ensures CellsOf(v, t, es, pos) ==
      if Hidden(t, es[0].stage) then CellsOf(v, t, es[1..], pos)
      else
        var p := Column(v, es[0]);
        Dots(Dot(t), p - pos) + [Letter(es[0].stage)] + CellsOf(v, t, es[1..], p + 1)
  {
    MarksFirst(v, t, es);
    CellsFirst(v.width, Dot(t), MarkOf(v, es[0]), Marks(v, Drawn(v, t, es[1..])), pos);
  }

  /** What is left to draw of a row. */
  ghost predicate Left(v: View, t: Ticks, all: string, row: string, es: seq<Event>, pos: nat)
    requires v.Valid() && AllProper(v, es) && pos <= v.width
  {
    all == row + CellsOf(v, t, es, pos)
  }

  lemma DrawOne(v: View, t: Ticks, all: string, row: string, es: seq<Event>, pos: nat)
    requires v.Valid() && AllProper(v, es) && es != [] && pos <= v.width && Left(v, t, all, row, es, pos)
    ensures
      if Hidden(t, es[0].stage) then Left(v, t, all, row, es[1..], pos)
      else
        var p := Column(v, es[0]);
        Left(v, t, all, row + Dots(Dot(t), p - pos) + [Letter(es[0].stage)], es[1..], p + 1)
  {
    CellsOfFirst(v, t, es, pos);
    var p := Column(v, es[0]);
    var dots, letter := Dots(Dot(t), p - pos), [Letter(es[0].stage)];
    Sequences.Regroup(row, dots + letter, CellsOf(v, t, es[1..], p + 1));
    Sequences.Regroup(row, dots, letter);
  }

  lemma DrawRest(v: View, t: Ticks, pos: nat)
    requires v.Valid() && pos <= v.width
    ensures CellsOf(v, t, [], pos) == Dots(Dot(t), v.width - pos)
  {
  }

  method DrawCells(v: View, t: Ticks, events: seq<Event>) returns (row: string)
    requires v.Valid() && AllProper(v, events)
    ensures row == CellsOf(v, t, events, 0)
  {
    row := "";
    ghost var all := CellsOf(v, t, events, 0);
    var pos: nat, rest := 0, events;
    while rest != []
      invariant AllProper(v, rest) && pos <= v.width
      invariant Left(v, t, all, row, rest, pos)
      decreases |rest|
    {
      DrawOne(v, t, all, row, rest, pos);
      var e := rest[0];
      rest := rest[1..];
      if !Hidden(t, e.stage) {
        row := row + Dots(Dot(t), Column(v, e) - pos) + [Letter(e.stage)];
        pos := Column(v, e) + 1;
      }
    }
    DrawRest(v, t, pos);
    row := row + Dots(Dot(t), v.width - pos);
  }

  ghost predicate AreRows(v: View, t: Ticks, rows: seq<string>)
    requires v.Valid()
  {
    forall i :: 0 <= i < |rows| ==> rows[i] == Row(v, t, i)
  }

  lemma OneMoreRow(v: View, t: Ticks, rows: seq<string>, row: string)
    requires v.Valid() && AreRows(v, t, rows) && row == Row(v, t, |rows|)
    ensures AreRows(v, t, rows + [row])
  {
    forall i | 0 <= i < |rows| + 1
      ensures (rows + [row])[i] == Row(v, t, i)
    {
      if i < |rows| {
        assert (rows + [row])[i] == rows[i];
      }
    }
  }

  /** All rows, or nothing for the exception of the compact form. */
  method PrintInst(v: View, t: Ticks) returns (rows: Option<seq<string>>)
    requires v.Valid()
    ensures rows.None? <==> forall s :: 0 <= s < v.Stages() ==> t[s] == 0
    ensures rows.Some? ==> |rows.value| == NumLines(v, t) && AreRows(v, t, rows.value)
  {
    LooksAtNothingIff(v, t);
    if LooksAtNothing(v, t) {
      return None;
    }
    var all := PrintRows(v, t);
    rows := Some(all);
  }

  method PrintRows(v: View, t: Ticks) returns (rows: seq<string>)
    requires v.Valid()
    ensures |rows| == NumLines(v, t) && AreRows(v, t, rows)
  {
    rows := [];
    for i := 0 to NumLines(v, t)
      invariant |rows| == i && AreRows(v, t, rows)
    {
      var row := PrintRow(v, t, i);
      OneMoreRow(v, t, rows, row);
      rows := rows + [row];
    }
  }
}
