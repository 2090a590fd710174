/**
 Taking checkpoints periodically (gem5/configs/common/Simulation.py,
 `scriptCheckpoints`), against a simulator that may stop for any reason at any time. The
 simulator's answers are a parameter: a run is followed as far as they go, so what holds
 for all of them holds at every point of every run.
 */
module CheckpointDriver {
  import Sequences

  /** How a call of `m5.simulate(n)` ends: at the limit, n ticks later, or for another
      cause after no more than n ticks. */
  datatype Exit = LimitReached | GuestCheckpoint(advance: nat) | OtherCause(advance: nat)

  /** Ticks that pass in a call with limit n. */
  function Elapsed(e: Exit, n: nat): (t: nat)
    ensures t <= n
  {
    match e
    case LimitReached => n
    case GuestCheckpoint(advance) => if advance < n then advance else n
    case OtherCause(advance) => if advance < n then advance else n
  }

  datatype Outcome =
    | Returned(exit: Exit) // the function returns this exit event
    | NegativeLimit        // `m5.simulate` was asked for a negative number of ticks
    | Running              // no further answer of the simulator is given

  /** A simulator at tick now, with the answers it will give, and the ticks it will take to
      drain for each checkpoint. */
  datatype Simulator = Simulator(now: int, exits: seq<Exit>, drains: seq<nat>)

  datatype Stop = Stopped(sim: Simulator, exit: Exit) | Failed(outcome: Outcome)

  /** `m5.simulate(n)`. */
  function Simulate(sim: Simulator, n: int): Stop {
    if n < 0 then Failed(NegativeLimit)
    else if sim.exits == [] then Failed(Running)
    else Stopped(sim.(now := sim.now + Elapsed(sim.exits[0], n), exits := sim.exits[1..]), sim.exits[0])
  }

  /** Where the loop that skips guest checkpoints on the way to tick target ends. */
  function Skipped(stop: Stop, target: int): Stop
    decreases if stop.Stopped? then |stop.sim.exits| + 1 else 0
  {
    if stop.Stopped? && stop.exit.GuestCheckpoint? then
      Skipped(Simulate(stop.sim, target - stop.sim.now), target)
    else stop
  }

  /** `m5.checkpoint`, which drains first. */
  function Drained(sim: Simulator): Simulator
    requires sim.drains != []
  {
    sim.(now := sim.now + sim.drains[0], drains := sim.drains[1..])
  }

  /** What is asked of the simulator: `m5.simulate` with a limit, or `m5.checkpoint`. */
  datatype Call = Ask(limit: int) | Save

  /** What the loop that skips guest checkpoints asks. */
  function SkipCalls(stop: Stop, target: int): seq<Call>
    decreases if stop.Stopped? then |stop.sim.exits| + 1 else 0
  {
    if stop.Stopped? && stop.exit.GuestCheckpoint? then
      var n := target - stop.sim.now;
      [Ask(n)] + SkipCalls(Simulate(stop.sim, n), target)
    else []
  }

  /** The outcome, the ticks at which checkpoints are written, and all calls made. */
  datatype Run = Run(outcome: Outcome, written: seq<int>, calls: seq<Call>)

  datatype Options = Options(when: int, period: int, maxCheckpoints: int, maxtick: int)

  /** What the main loop does from here on: n checkpoints are written, the last one was due at
      tick due, exit is the last event and cause what the loop looks at. */
  function Rest(o: Options, sim: Simulator, exit: Exit, cause: Exit, due: int, n: nat): Run
    decreases |sim.exits|
  {
    if n < o.maxCheckpoints && cause == LimitReached then
      if due + o.period > o.maxtick then
        var stop := Simulate(sim, o.maxtick - due);
        Run(if stop.Failed? then stop.outcome else Returned(stop.exit), [], [Ask(o.maxtick - due)])
      else
        Interval(o, sim, due + o.period, n)
    else Run(Returned(exit), [], [])
  }

  /** One interval of the main loop, up to the checkpoint due at tick target, and the rest.
      The cause is that of the first stop: it is not looked up again after skipping. */
  function Interval(o: Options, sim: Simulator, target: int, n: nat): Run
    decreases |sim.exits|, 0
  {
    var first := Simulate(sim, o.period);
    var calls := [Ask(o.period)] + SkipCalls(first, target);
    if first.Failed? then Run(first.outcome, [], calls)
    else
      SkippedIsLater(first, target);
      var stop := Skipped(first, target);
      if stop.Failed? then Run(stop.outcome, [], calls)
      else if stop.exit != LimitReached then Prefixed([], calls, Rest(o, stop.sim, stop.exit, first.exit, target, n))
      else if stop.sim.drains == [] then Run(Running, [], calls + [Save])
      else
        var next := Drained(stop.sim);
        Prefixed([next.now], calls + [Save], Rest(o, next, stop.exit, first.exit, target, n + 1))
  }

  lemma {:induction false} SkippedIsLater(stop: Stop, target: int)
    ensures var r := Skipped(stop, target);
      r.Stopped? ==> stop.Stopped? && |r.sim.exits| <= |stop.sim.exits| && r.sim.drains == stop.sim.drains
    decreases if stop.Stopped? then |stop.sim.exits| + 1 else 0
  {
    if stop.Stopped? && stop.exit.GuestCheckpoint? {
      SkippedIsLater(Simulate(stop.sim, target - stop.sim.now), target);
    }
  }

  function Prefixed(written: seq<int>, calls: seq<Call>, r: Run): Run {
    Run(r.outcome, written + r.written, calls + r.calls)
  }

  /** `scriptCheckpoints` for a tick and a period. */
  function Drive(o: Options, sim: Simulator): Run {
    var first := Simulate(sim, o.when - sim.now);
    var calls := [Ask(o.when - sim.now)] + SkipCalls(first, o.when);
    var stop := Skipped(first, o.when);
    if stop.Failed? then Run(stop.outcome, [], calls)
    else if stop.exit != LimitReached then Prefixed([], calls, Rest(o, stop.sim, stop.exit, stop.exit, o.when, 0))
    else if stop.sim.drains == [] then Run(Running, [], calls + [Save])
    else
      var next := Drained(stop.sim);
      Prefixed([next.now], calls + [Save], Rest(o, next, stop.exit, stop.exit, o.when, 1))
  }

  // ----- the loops of the script

  /** The loop that skips guest checkpoints. */
  method SkipTo(first: Stop, target: int) returns (r: Stop, calls: seq<Call>)
    ensures r == Skipped(first, target) && calls == SkipCalls(first, target)
  {
    r, calls := first, [];
    while r.Stopped? && r.exit.GuestCheckpoint?
      invariant Skipped(r, target) == Skipped(first, target)
      invariant calls + SkipCalls(r, target) == SkipCalls(first, target)
      decreases if r.Stopped? then 1 + |r.sim.exits| else 0
    {
      var n := target - r.sim.now;
      Sequences.Regroup(calls, [Ask(n)], SkipCalls(Simulate(r.sim, n), target));
      calls := calls + [Ask(n)];
      r := Simulate(r.sim, n);
    }
  }

  method ScriptCheckpoints(o: Options, sim0: Simulator) returns (r: Outcome, written: seq<int>, calls: seq<Call>)
    ensures Run(r, written, calls) == Drive(o, sim0)
  {
    written := [];
    var stop, more := SkipTo(Simulate(sim0, o.when - sim0.now), o.when);
    calls := [Ask(o.when - sim0.now)] + more;
    if stop.Failed? {
      return stop.outcome, written, calls;
    }
    var sim, exit := stop.sim, stop.exit;
    if exit == LimitReached {
      calls := calls + [Save];
      if sim.drains == [] {
        return Running, written, calls;
      }
      sim := Drained(sim);
      written := [sim.now];
    }
    var simTicks := o.when;
    var exitCause := exit;
    while |written| < o.maxCheckpoints && exitCause == LimitReached
      invariant Drive(o, sim0) == Prefixed(written, calls, Rest(o, sim, exit, exitCause, simTicks, |written|))
      decreases |sim.exits|
    {
      if simTicks + o.period > o.maxtick {
        stop := Simulate(sim, o.maxtick - simTicks);
        return if stop.Failed? then stop.outcome else Returned(stop.exit), written, calls + [Ask(o.maxtick - simTicks)];
      }
      stop := Simulate(sim, o.period);
      simTicks := simTicks + o.period;
      SkippedIsLater(stop, simTicks);
      ghost var before := calls;
      exitCause := if stop.Stopped? then stop.exit else exitCause;
      stop, more := SkipTo(stop, simTicks);
      calls := calls + ([Ask(o.period)] + more);
      if stop.Failed? {
        return stop.outcome, written, calls;
      }
      sim, exit := stop.sim, stop.exit;
      ghost var asked := [Ask(o.period)] + more;
      if exit == LimitReached {
        calls := calls + [Save];
        Sequences.Regroup(before, asked, [Save]);
        if sim.drains == [] {
          return Running, written, calls;
        }
        sim := Drained(sim);
        PrefixedTwice(written, before, [sim.now], asked + [Save],
          Rest(o, sim, exit, exitCause, simTicks, |written| + 1));
        written := written + [sim.now];
      } else {
        PrefixedTwice(written, before, [], asked, Rest(o, sim, exit, exitCause, simTicks, |written|));
      }
    }
    r := Returned(exit);
  }

  lemma PrefixedTwice(written: seq<int>, calls: seq<Call>, w: seq<int>, c: seq<Call>, r: Run)
    ensures Prefixed(written, calls, Prefixed(w, c, r)) == Prefixed(written + w, calls + c, r)
  {
    Sequences.Regroup(written, w, r.written);
    Sequences.Regroup(calls, c, r.calls);
  }

  // ----- guest checkpoints and intervals

  /** The answers behind the next limit. */
  function After(exits: seq<Exit>): seq<Exit> {
    if exits == [] then [] else if exits[0] == LimitReached then exits[1..] else After(exits[1..])
  }

  /** The answers of interval k, which ends with the checkpoint number k, and of those after it. */
  function From(exits: seq<Exit>, k: nat): seq<Exit>
    decreases k
  {
    if k == 0 then exits else From(After(exits), k - 1)
  }

  /** A guest checkpoint falls in interval k. */
  predicate GuestIn(exits: seq<Exit>, k: nat) {
    var e := From(exits, k);
    e != [] && e[0].GuestCheckpoint?
  }

  /** The tick at which checkpoint k is due: when + k * period. */
  function Due(when: int, period: int, k: nat): int
    decreases k
  {
    if k == 0 then when else Due(when + period, period, k - 1)
  }

  lemma {:induction false} DueTick(when: int, period: int, k: nat)
    ensures Due(when, period, k) == when + k * period
    decreases k
  {
    if k > 0 {
      DueTick(when + period, period, k - 1);
    }
  }

  function Sum(drains: seq<nat>): nat {
    if drains == [] then 0 else Sum(drains[..|drains| - 1]) + drains[|drains| - 1]
  }

  lemma {:induction false} SkippedLimit(stop: Stop, target: int)
    requires stop.Stopped? && stop.exit.GuestCheckpoint?
    ensures var r := Skipped(stop, target);
      r.Stopped? && r.exit == LimitReached ==>
        r.sim == Simulator(target, After(stop.sim.exits), stop.sim.drains)
    decreases |stop.sim.exits|
  {
    var next := Simulate(stop.sim, target - stop.sim.now);
    if next.Stopped? && next.exit.GuestCheckpoint? {
      SkippedLimit(next, target);
    }
  }

  /** The end of an interval that reaches its limit. */
  lemma IntervalLimit(sim: Simulator, n: int, target: int)
    ensures var first := Simulate(sim, n);
      var r := Skipped(first, target);
      r.Stopped? && r.exit == LimitReached ==>
        && first.Stopped? && sim.exits != [] && first.exit == sim.exits[0]
        && r.sim == Simulator(if GuestIn(sim.exits, 0) then target else sim.now + n, After(sim.exits), sim.drains)
        && (first.exit == LimitReached <==> !GuestIn(sim.exits, 0))
  {
    var first := Simulate(sim, n);
    if first.Stopped? && first.exit.GuestCheckpoint? {
      SkippedLimit(first, target);
    }
  }

  /** The simulator after the checkpoint of an interval is written. */
  function AtCheckpoint(o: Options, sim: Simulator, target: int): Simulator
    requires sim.drains != []
  {
    Simulator((if GuestIn(sim.exits, 0) then target else sim.now + o.period) + sim.drains[0],
      After(sim.exits), sim.drains[1..])
  }

  /** An interval writes nothing more, or its checkpoint and what the rest writes. */
  lemma IntervalWrites(o: Options, sim: Simulator, target: int, n: nat)
    ensures var w := Interval(o, sim, target, n).written;
      w != [] ==>
        && sim.exits != [] && sim.drains != [] && |After(sim.exits)| < |sim.exits|
        && (sim.exits[0] == LimitReached <==> !GuestIn(sim.exits, 0))
        && var next := AtCheckpoint(o, sim, target);
           w == [next.now] + Rest(o, next, LimitReached, sim.exits[0], target, n + 1).written
  {
    var first := Simulate(sim, o.period);
    SkippedIsLater(first, target);
    IntervalLimit(sim, o.period, target);
    AfterIsShorter(sim.exits);
    var stop := Skipped(first, target);
    if first.Stopped? && stop.Stopped? && stop.exit != LimitReached {
      assert first.exit != LimitReached;
    }
  }

  lemma {:induction false} AfterIsShorter(exits: seq<Exit>)
    ensures exits != [] ==> |After(exits)| < |exits|
  {
    if exits != [] && exits[0] != LimitReached {
      AfterIsShorter(exits[1..]);
    }
  }

  /** What the loop writes from here on: checkpoint j of it comes a period after the one before,
      or when it is due if a guest checkpoint came between; such a one is the last. */
  lemma {:induction false} RestSpacing(o: Options, sim: Simulator, exit: Exit, cause: Exit, due: int, n: nat, j: nat)
    requires j < |Rest(o, sim, exit, cause, due, n).written|
    ensures var w := Rest(o, sim, exit, cause, due, n).written;
      && |w| <= |sim.drains| && n + |w| <= o.maxCheckpoints
      && Due(due, o.period, j + 1) <= o.maxtick
      && w[j] == (if GuestIn(sim.exits, j) then Due(due, o.period, j + 1)
                  else (if j == 0 then sim.now else w[j - 1]) + o.period) + sim.drains[j]
      && (j + 1 < |w| ==> !GuestIn(sim.exits, j))
    decreases |sim.exits|
  {
    var target := due + o.period;
    IntervalWrites(o, sim, target, n);
    var next := AtCheckpoint(o, sim, target);
    var more := Rest(o, next, LimitReached, sim.exits[0], target, n + 1).written;
    if more != [] {
      RestSpacing(o, next, LimitReached, sim.exits[0], target, n + 1, if j == 0 then 0 else j - 1);
    }
  }

  // ----- the series

  function Max(a: int, b: int): int {
    if a < b then b else a
  }

  lemma DriveWrites(o: Options, sim: Simulator)
    ensures var w := Drive(o, sim).written;
      w != [] ==>
        && sim.exits != [] && sim.drains != [] && sim.now <= o.when
        && var next := Simulator(o.when + sim.drains[0], After(sim.exits), sim.drains[1..]);
           w == [next.now] + Rest(o, next, LimitReached, LimitReached, o.when, 1).written
  {
    IntervalLimit(sim, o.when - sim.now, o.when);
    SkippedIsLater(Simulate(sim, o.when - sim.now), o.when);
  }

  /** Every checkpoint of every run, k from 0: the first is due at tick when; each further one
      is written a period after the one before, or when it is due if a guest checkpoint fell in
      its interval; draining adds its ticks. None but the first is due after maxtick, and one
      with a guest checkpoint in its interval is the last. */
  lemma Spacing(o: Options, sim: Simulator, k: nat)
    requires k < |Drive(o, sim).written|
    ensures var w := Drive(o, sim).written;
      && |w| <= |sim.drains| && |w| <= Max(1, o.maxCheckpoints)
      && (k == 0 ==> w[k] == o.when + sim.drains[0])
      && (k > 0 ==>
          && Due(o.when, o.period, k) <= o.maxtick
          && w[k] == (if GuestIn(sim.exits, k) then Due(o.when, o.period, k) else w[k - 1] + o.period) + sim.drains[k]
          && (k + 1 < |w| ==> !GuestIn(sim.exits, k)))
  {
    DriveWrites(o, sim);
    var next := Simulator(o.when + sim.drains[0], After(sim.exits), sim.drains[1..]);
    var more := Rest(o, next, LimitReached, LimitReached, o.when, 1).written;
    if more != [] {
      RestSpacing(o, next, LimitReached, LimitReached, o.when, 1, if k == 0 then 0 else k - 1);
    }
  }

  /** Without a guest checkpoint in its interval, checkpoint k is late by all drains so far. */
  lemma {:induction false} LateByDrains(o: Options, sim: Simulator, k: nat)
    requires k < |Drive(o, sim).written| && (k > 0 ==> !GuestIn(sim.exits, k))
    ensures k < |sim.drains| && Drive(o, sim).written[k] == o.when + k * o.period + Sum(sim.drains[..k + 1])
  {
    Spacing(o, sim, k);
    assert sim.drains[..k + 1][..k] == sim.drains[..k];
    if k == 0 {
      assert sim.drains[..0] == [];
    } else {
      Spacing(o, sim, k - 1);
      LateByDrains(o, sim, k - 1);
      NextMultiple(k, o.period);
    }
  }

  lemma NextMultiple(k: nat, period: int)
    requires k > 0
    ensures (k - 1) * period + period == k * period
  {
  }

  /** Main result: all checkpoints are written exactly on schedule, at ticks when,
      when + period, when + 2 period, ..., if and only if no drain takes any time. */
  lemma OnScheduleIff(o: Options, sim: Simulator)
    ensures var w := Drive(o, sim).written;
      |w| <= |sim.drains| &&
      ((forall k :: 0 <= k < |w| ==> w[k] == Due(o.when, o.period, k)) <==>
       (forall k :: 0 <= k < |w| ==> sim.drains[k] == 0))
  {
    var w := Drive(o, sim).written;
    if w != [] {
      Spacing(o, sim, 0);
      if forall k :: 0 <= k < |w| ==> sim.drains[k] == 0 {
        forall k | 0 <= k < |w|
          ensures w[k] == Due(o.when, o.period, k)
        {
          UndrainedTick(o, sim, k);
        }
      }
      if forall k :: 0 <= k < |w| ==> w[k] == Due(o.when, o.period, k) {
        forall k | 0 <= k < |w|
          ensures sim.drains[k] == 0
        {
          PunctualDrain(o, sim, k);
        }
      }
    }
  }

  lemma PunctualDrain(o: Options, sim: Simulator, k: nat)
    requires k < |Drive(o, sim).written| <= |sim.drains|
    requires Drive(o, sim).written[k] == Due(o.when, o.period, k)
    requires k > 0 ==> Drive(o, sim).written[k - 1] == Due(o.when, o.period, k - 1)
    ensures sim.drains[k] == 0
  {
    Spacing(o, sim, k);
    if k > 0 {
      DueTick(o.when, o.period, k);
      DueTick(o.when, o.period, k - 1);
      NextMultiple(k, o.period);
    }
  }

  lemma {:induction false} UndrainedTick(o: Options, sim: Simulator, k: nat)
    requires k < |Drive(o, sim).written| <= |sim.drains|
    requires forall j :: 0 <= j <= k ==> sim.drains[j] == 0
    ensures Drive(o, sim).written[k] == Due(o.when, o.period, k)
  {
    Spacing(o, sim, k);
    if k > 0 {
      UndrainedTick(o, sim, k - 1);
      DueTick(o.when, o.period, k);
      DueTick(o.when, o.period, k - 1);
      NextMultiple(k, o.period);
    }
  }

  /** Then none is written after maxtick either, provided the first is not due later. */
  lemma NoneAfterMaxtick(o: Options, sim: Simulator, k: nat)
    requires k < |Drive(o, sim).written| <= |sim.drains|
    requires forall j :: 0 <= j <= k ==> sim.drains[j] == 0
    ensures o.when <= o.maxtick ==> Drive(o, sim).written[k] <= o.maxtick
  {
    UndrainedTick(o, sim, k);
    Spacing(o, sim, k);
  }

  // ----- when the series is full

  /** How many more checkpoints are due when n are written, the last one due at tick due. */
  function Remaining(o: Options, due: int, n: nat): nat
    decreases o.maxCheckpoints - n
  {
    if n < o.maxCheckpoints && due + o.period <= o.maxtick then 1 + Remaining(o, due + o.period, n + 1) else 0
  }

  /** How many checkpoints the options ask for. */
  function Expected(o: Options): nat {
    1 + Remaining(o, o.when, 1)
  }

  predicate OnlyGuests(exits: seq<Exit>) {
    forall i :: 0 <= i < |exits| ==> !exits[i].OtherCause?
  }

  function Limits(exits: seq<Exit>): nat {
    if exits == [] then 0 else (if exits[0] == LimitReached then 1 else 0) + Limits(exits[1..])
  }

  /** Nothing but guest checkpoints interrupts, and the simulator is followed long enough for
      all checkpoints. */
  predicate Followed(sim: Simulator, n: nat) {
    OnlyGuests(sim.exits) && Limits(sim.exits) >= n && |sim.drains| >= n
  }

  lemma {:induction false} SkippedArrives(stop: Stop, target: int)
    requires stop.Stopped? && stop.exit.GuestCheckpoint?
    requires OnlyGuests(stop.sim.exits) && Limits(stop.sim.exits) > 0
    ensures var r := Skipped(stop, target);
      if stop.sim.now <= target then r.Stopped? && r.exit == LimitReached else r == Failed(NegativeLimit)
    decreases |stop.sim.exits|
  {
    var next := Simulate(stop.sim, target - stop.sim.now);
    if next.Stopped? && next.exit.GuestCheckpoint? {
      SkippedArrives(next, target);
    }
  }

  lemma {:induction false} LimitsAfter(exits: seq<Exit>)
    requires Limits(exits) > 0 && OnlyGuests(exits)
    ensures exits != [] && Limits(After(exits)) == Limits(exits) - 1 && OnlyGuests(After(exits))
  {
    if exits[0] != LimitReached {
      LimitsAfter(exits[1..]);
    }
  }

  /** Whether the simulator, late by some ticks, comes through the remaining intervals: no guest
      checkpoint before the last one, and one in the last not after its due tick. */
  predicate Clear(o: Options, exits: seq<Exit>, drains: seq<nat>, late: nat, n: nat)
    requires n <= |drains|
    decreases n
  {
    n == 0 ||
    if GuestIn(exits, 0) then n == 1 && o.period >= 0 && late + Elapsed(exits[0], o.period) <= o.period
    else Clear(o, After(exits), drains[1..], late + drains[0], n - 1)
  }

  /** The loop never writes more than is due. */
  lemma {:induction false} RestAtMost(o: Options, sim: Simulator, exit: Exit, cause: Exit, due: int, n: nat)
    ensures |Rest(o, sim, exit, cause, due, n).written| <= Remaining(o, due, n)
    decreases |sim.exits|
  {
    var target := due + o.period;
    if Rest(o, sim, exit, cause, due, n).written != [] {
      IntervalWrites(o, sim, target, n);
      RestAtMost(o, AtCheckpoint(o, sim, target), LimitReached, sim.exits[0], target, n + 1);
    }
  }

  lemma IntervalOfGuest(o: Options, sim: Simulator, due: int, n: nat)
    requires o.period >= 0 && Followed(sim, 1) && GuestIn(sim.exits, 0)
    ensures |Interval(o, sim, due + o.period, n).written| ==
      if sim.now + Elapsed(sim.exits[0], o.period) <= due + o.period then 1 else 0
  {
    SkippedArrives(Simulate(sim, o.period), due + o.period);
    SkippedIsLater(Simulate(sim, o.period), due + o.period);
  }

  lemma IntervalOfLimit(o: Options, sim: Simulator, due: int, n: nat)
    requires o.period >= 0 && Followed(sim, 1) && !GuestIn(sim.exits, 0)
    ensures var next := AtCheckpoint(o, sim, due + o.period);
      Interval(o, sim, due + o.period, n).written ==
      [next.now] + Rest(o, next, LimitReached, LimitReached, due + o.period, n + 1).written
  {
    LimitsAfter(sim.exits);
    assert Simulate(sim, o.period).exit == LimitReached;
  }

  lemma {:induction false} RestFullIff(o: Options, sim: Simulator, exit: Exit, due: int, n: nat, late: nat)
    requires o.period >= 0 && sim.now == due + late && Followed(sim, Remaining(o, due, n))
    ensures |Rest(o, sim, exit, LimitReached, due, n).written| == Remaining(o, due, n) <==>
      Clear(o, sim.exits, sim.drains, late, Remaining(o, due, n))
    decreases |sim.exits|
  {
    if Remaining(o, due, n) > 0 {
      LimitsAfter(sim.exits);
      AfterIsShorter(sim.exits);
      if GuestIn(sim.exits, 0) {
        IntervalOfGuest(o, sim, due, n);
      } else {
        IntervalOfLimit(o, sim, due, n);
        RestFullIff(o, AtCheckpoint(o, sim, due + o.period), LimitReached, due + o.period, n + 1, late + sim.drains[0]);
      }
    }
  }

  /** No guest checkpoint falls in the first n intervals. */
  predicate NoGuest(exits: seq<Exit>, n: int) {
    forall k {:trigger GuestIn(exits, k)} :: 0 <= k < n ==> !GuestIn(exits, k)
  }

  /** Clear in terms of the whole simulation: only the last interval may hold a guest
      checkpoint, and then the drains so far and the ticks up to it fit in one period. */
  predicate ClearOf(o: Options, exits: seq<Exit>, drains: seq<nat>, late: nat, n: nat)
    requires o.period >= 0 && n <= |drains|
  {
    && NoGuest(exits, n - 1)
    && (n > 0 && GuestIn(exits, n - 1) ==>
        late + Sum(drains[..n - 1]) + Elapsed(From(exits, n - 1)[0], o.period) <= o.period)
  }

  lemma {:induction false} SumOfFirst(drains: seq<nat>, n: nat)
    requires 0 < n <= |drains|
    ensures Sum(drains[..n]) == drains[0] + Sum(drains[1..][..n - 1])
  {
    assert drains[..n][..n - 1] == drains[..n - 1];
    if n == 1 {
      assert drains[..0] == [] && drains[1..][..0] == [];
    } else {
      SumOfFirst(drains, n - 1);
      assert drains[1..][..n - 1][..n - 2] == drains[1..][..n - 2];
    }
  }

  lemma NoGuestAfter(exits: seq<Exit>, n: int)
    requires n > 0
    ensures NoGuest(exits, n) <==> !GuestIn(exits, 0) && NoGuest(After(exits), n - 1)
  {
    if NoGuest(exits, n) {
      forall k | 0 <= k < n - 1
        ensures !GuestIn(After(exits), k)
      {
        assert !GuestIn(exits, k + 1);
      }
    } else if NoGuest(After(exits), n - 1) {
      var k :| 0 <= k < n && GuestIn(exits, k);
      assert k > 0 ==> GuestIn(After(exits), k - 1);
    }
  }

  lemma {:induction false} ClearIs(o: Options, exits: seq<Exit>, drains: seq<nat>, late: nat, n: nat)
    requires o.period >= 0 && n <= |drains|
    ensures Clear(o, exits, drains, late, n) <==> ClearOf(o, exits, drains, late, n)
    decreases n
  {
    if n > 1 {
      NoGuestAfter(exits, n - 1);
      if !GuestIn(exits, 0) {
        ClearIs(o, After(exits), drains[1..], late + drains[0], n - 1);
        SumOfFirst(drains, n - 1);
      }
    } else if n == 1 {
      assert drains[..0] == [];
    }
  }

  /** Interval k lies between checkpoint k - 1 and checkpoint k. Those before the last one hold
      no guest checkpoint; one in the last comes, with all drains so far, within a period. */
  predicate Undisturbed(o: Options, sim: Simulator)
    requires o.period >= 0 && Expected(o) <= |sim.drains|
  {
    var last := Expected(o) - 1;
    && (forall k {:trigger GuestIn(sim.exits, k)} :: 0 < k < last ==> !GuestIn(sim.exits, k))
    && (last > 0 && GuestIn(sim.exits, last) ==>
        Sum(sim.drains[..last]) + Elapsed(From(sim.exits, last)[0], o.period) <= o.period)
  }

  lemma UndisturbedIs(o: Options, sim: Simulator)
    requires o.period >= 0 && Expected(o) <= |sim.drains|
    ensures Undisturbed(o, sim) <==>
      ClearOf(o, After(sim.exits), sim.drains[1..], sim.drains[0], Expected(o) - 1)
  {
    var last := Expected(o) - 1;
    if last > 0 {
      SumOfFirst(sim.drains, last);
      assert From(sim.exits, last) == From(After(sim.exits), last - 1);
    }
    if NoGuest(After(sim.exits), last - 1) {
      forall k | 0 < k < last
        ensures !GuestIn(sim.exits, k)
      {
        assert !GuestIn(After(sim.exits), k - 1);
      }
    } else {
      var k :| 0 <= k < last - 1 && GuestIn(After(sim.exits), k);
      assert GuestIn(sim.exits, k + 1);
    }
  }

  /** Main result: with nothing but guest checkpoints interrupting the simulation, all
      checkpoints asked for are written if and only if it is undisturbed. Never more are. */
  lemma FullIff(o: Options, sim: Simulator)
    requires sim.now <= o.when && o.period >= 0 && Followed(sim, Expected(o))
    ensures var w := Drive(o, sim).written;
      |w| <= Expected(o) && (|w| == Expected(o) <==> Undisturbed(o, sim))
  {
    LimitsAfter(sim.exits);
    FirstWritten(o, sim);
    DriveWrites(o, sim);
    var next := Simulator(o.when + sim.drains[0], After(sim.exits), sim.drains[1..]);
    RestAtMost(o, next, LimitReached, LimitReached, o.when, 1);
    RestFullIff(o, next, LimitReached, o.when, 1, sim.drains[0]);
    ClearIs(o, next.exits, next.drains, sim.drains[0], Expected(o) - 1);
    UndisturbedIs(o, sim);
  }

  /** When no drain takes time: if and only if no guest checkpoint falls in an interval before
      the last one due. */
  lemma UndrainedFullIff(o: Options, sim: Simulator)
    requires sim.now <= o.when && o.period >= 0 && Followed(sim, Expected(o))
    requires forall k :: 0 <= k < |sim.drains| ==> sim.drains[k] == 0
    ensures |Drive(o, sim).written| == Expected(o) <==>
      forall k {:trigger GuestIn(sim.exits, k)} :: 0 < k < Expected(o) - 1 ==> !GuestIn(sim.exits, k)
  {
    FullIff(o, sim);
    NoDrains(sim.drains[..Expected(o) - 1]);
  }

  lemma {:induction false} NoDrains(drains: seq<nat>)
    requires forall k :: 0 <= k < |drains| ==> drains[k] == 0
    ensures Sum(drains) == 0
  {
    if drains != [] {
      NoDrains(drains[..|drains| - 1]);
    }
  }

  lemma FirstWritten(o: Options, sim: Simulator)
    requires sim.now <= o.when && Followed(sim, 1)
    ensures Drive(o, sim).written != []
  {
    LimitsAfter(sim.exits);
    var stop := Simulate(sim, o.when - sim.now);
    if stop.exit.GuestCheckpoint? {
      SkippedArrives(stop, o.when);
      SkippedIsLater(stop, o.when);
    }
  }

  /** A guest checkpoint after the first one ends the series with the second, on schedule,
      however many are still due. */
  lemma GuestEndsSeries(o: Options, sim: Simulator, after: nat)
    requires sim.now <= o.when && 0 <= after < o.period && Followed(sim, Expected(o))
    requires |sim.exits| > 1 && sim.exits[0] == LimitReached && sim.exits[1] == GuestCheckpoint(after)
    requires forall k :: 0 <= k < |sim.drains| ==> sim.drains[k] == 0
    ensures Expected(o) > 1 ==> Drive(o, sim).written == [o.when, o.when + o.period]
  {
    if Expected(o) > 1 {
      FirstWritten(o, sim);
      DriveWrites(o, sim);
      LimitsAfter(sim.exits);
      IntervalOfGuest(o, Simulator(o.when, After(sim.exits), sim.drains[1..]), o.when, 1);
      UndrainedTick(o, sim, 0);
      UndrainedTick(o, sim, 1);
    }
  }

  /** Three checkpoints are asked for and two written, though ticks 10, 15 and 20 are all
      reached. */
  lemma TwoOfThree()
    ensures var o, sim := Options(10, 5, 3, 100),
              Simulator(0, [LimitReached, GuestCheckpoint(1), LimitReached, LimitReached], [0, 0, 0]);
      Expected(o) == 3 && Drive(o, sim).written == [10, 15]
  {
    var o := Options(10, 5, 3, 100);
    assert Remaining(o, 20, 3) == 0;
    assert Remaining(o, 15, 2) == 1;
    var exits := [LimitReached, GuestCheckpoint(1), LimitReached, LimitReached];
    assert exits[1..] == [GuestCheckpoint(1), LimitReached, LimitReached];
    assert exits[1..][1..] == [LimitReached, LimitReached];
    assert exits[1..][1..][1..] == [LimitReached];
    GuestEndsSeries(o, Simulator(0, exits, [0, 0, 0]), 1);
  }
}
