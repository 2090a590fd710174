/**
 What the periodic checkpoint driver asks of the simulator and what it returns
 (gem5/configs/common/Simulation.py, `scriptCheckpoints`).
 */
module CheckpointOutcome {
  import opened CheckpointDriver

  // ----- what is returned

  /** The simulator taken through a list of calls: where it is and its last answer, or what
      stopped it. */
  function Played(sim: Simulator, calls: seq<Call>, last: Exit): Stop
    decreases |calls|
  {
    if calls == [] then Stopped(sim, last)
    else match calls[0]
      case Ask(n) =>
        var stop := Simulate(sim, n);
        if stop.Failed? then stop else Played(stop.sim, calls[1..], stop.exit)
      case Save =>
        if sim.drains == [] then Failed(Running) else Played(Drained(sim), calls[1..], last)
  }

  /** The ticks at which it writes checkpoints on the way. */
  function Saved(sim: Simulator, calls: seq<Call>): seq<int>
    decreases |calls|
  {
    if calls == [] then []
    else match calls[0]
      case Ask(n) =>
        var stop := Simulate(sim, n);
        if stop.Failed? then [] else Saved(stop.sim, calls[1..])
      case Save =>
        if sim.drains == [] then [] else [Drained(sim).now] + Saved(Drained(sim), calls[1..])
  }

  /** All calls but perhaps the last are answered. */
  predicate FailsAtLast(sim: Simulator, calls: seq<Call>)
    decreases |calls|
  {
    |calls| <= 1 ||
    match calls[0]
    case Ask(n) =>
      var stop := Simulate(sim, n);
      stop.Stopped? && FailsAtLast(stop.sim, calls[1..])
    case Save => sim.drains != [] && FailsAtLast(Drained(sim), calls[1..])
  }

  function Outcomes(stop: Stop): Outcome {
    match stop
    case Stopped(_, exit) => Returned(exit)
    case Failed(outcome) => outcome
  }

  lemma {:induction false} PlayedOn(sim: Simulator, a: seq<Call>, b: seq<Call>, last: Exit)
    ensures var stop := Played(sim, a, last);
      && Played(sim, a + b, last) == (if stop.Failed? then stop else Played(stop.sim, b, stop.exit))
      && Saved(sim, a + b) == Saved(sim, a) + (if stop.Failed? then [] else Saved(stop.sim, b))
    decreases |a|
  {
    if a == [] {
      assert a + b == b;
    } else {
      assert (a + b)[0] == a[0] && (a + b)[1..] == a[1..] + b;
      match a[0] {
        case Ask(n) =>
          var stop := Simulate(sim, n);
          if stop.Stopped? {
            PlayedOn(stop.sim, a[1..], b, stop.exit);
          }
        case Save =>
          if sim.drains != [] {
            PlayedOn(Drained(sim), a[1..], b, last);
          }
      }
    }
  }

  lemma {:induction false} FailsLater(sim: Simulator, a: seq<Call>, b: seq<Call>, last: Exit)
    requires Played(sim, a, last).Stopped? && FailsAtLast(Played(sim, a, last).sim, b)
    ensures FailsAtLast(sim, a + b)
    decreases |a|
  {
    if a == [] {
      assert a + b == b;
    } else {
      assert (a + b)[0] == a[0] && (a + b)[1..] == a[1..] + b;
      match a[0] {
        case Ask(n) => FailsLater(Simulate(sim, n).sim, a[1..], b, Simulate(sim, n).exit);
        case Save => FailsLater(Drained(sim), a[1..], b, last);
      }
    }
  }

  lemma PlayedFirst(sim: Simulator, c: Call, calls: seq<Call>, last: Exit)
    ensures ([c] + calls)[0] == c && ([c] + calls)[1..] == calls
  {
  }

  /** The calls of the skipping loop lead where it ends, and write nothing. */
  lemma {:induction false} SkipIsPlayed(stop: Stop, target: int)
    requires stop.Stopped?
    ensures Played(stop.sim, SkipCalls(stop, target), stop.exit) == Skipped(stop, target)
    ensures Saved(stop.sim, SkipCalls(stop, target)) == [] && FailsAtLast(stop.sim, SkipCalls(stop, target))
    decreases |stop.sim.exits|
  {
    if stop.exit.GuestCheckpoint? {
      var n := target - stop.sim.now;
      var next := Simulate(stop.sim, n);
      PlayedFirst(stop.sim, Ask(n), SkipCalls(next, target), stop.exit);
      if next.Stopped? {
        SkipIsPlayed(next, target);
      }
    }
  }

  /** Asking for n ticks and then skipping. */
  lemma AskAndSkip(sim: Simulator, n: int, target: int, last: Exit)
    ensures var first := Simulate(sim, n);
      var calls := [Ask(n)] + SkipCalls(first, target);
      Played(sim, calls, last) == Skipped(first, target) && Saved(sim, calls) == [] && FailsAtLast(sim, calls)
  {
    var first := Simulate(sim, n);
    PlayedFirst(sim, Ask(n), SkipCalls(first, target), last);
    if first.Stopped? {
      SkipIsPlayed(first, target);
    }
  }

  /** A run of the driver is what its calls do to the simulator. */
  ghost predicate IsPlayed(sim: Simulator, last: Exit, r: Run) {
    && r.outcome == Outcomes(Played(sim, r.calls, last)) && r.written == Saved(sim, r.calls)
    && FailsAtLast(sim, r.calls)
  }

  lemma PrefixedIsPlayed(sim: Simulator, last: Exit, written: seq<int>, calls: seq<Call>, r: Run)
    requires Played(sim, calls, last).Stopped? && written == Saved(sim, calls)
    requires var stop := Played(sim, calls, last); IsPlayed(stop.sim, stop.exit, r)
    ensures IsPlayed(sim, last, Prefixed(written, calls, r))
  {
    PlayedOn(sim, calls, r.calls, last);
    FailsLater(sim, calls, r.calls, last);
  }

  lemma ThenSave(sim: Simulator, last: Exit, calls: seq<Call>)
    requires Played(sim, calls, last).Stopped? && Saved(sim, calls) == []
    ensures FailsAtLast(sim, calls + [Save])
    ensures var stop := Played(sim, calls, last);
      if stop.sim.drains == []
      then Played(sim, calls + [Save], last) == Failed(Running) && Saved(sim, calls + [Save]) == []
      else
        && Played(sim, calls + [Save], last) == Stopped(Drained(stop.sim), stop.exit)
        && Saved(sim, calls + [Save]) == [Drained(stop.sim).now]
  {
    PlayedOn(sim, calls, [Save], last);
    FailsLater(sim, calls, [Save], last);
  }

  lemma {:induction false} RestIsPlayed(o: Options, sim: Simulator, exit: Exit, cause: Exit, due: int, n: nat)
    ensures IsPlayed(sim, exit, Rest(o, sim, exit, cause, due, n))
    decreases |sim.exits|, 1
  {
    if n < o.maxCheckpoints && cause == LimitReached && due + o.period <= o.maxtick {
      IntervalIsPlayed(o, sim, exit, due + o.period, n);
    }
  }

  lemma {:induction false} IntervalIsPlayed(o: Options, sim: Simulator, last: Exit, target: int, n: nat)
    ensures IsPlayed(sim, last, Interval(o, sim, target, n))
    decreases |sim.exits|, 0
  {
    var first := Simulate(sim, o.period);
    var calls := [Ask(o.period)] + SkipCalls(first, target);
    AskAndSkip(sim, o.period, target, last);
    SkippedIsLater(first, target);
    var stop := Skipped(first, target);
    if stop.Stopped? {
      ThenSave(sim, last, calls);
      if stop.exit != LimitReached {
        var r := Rest(o, stop.sim, stop.exit, first.exit, target, n);
        RestIsPlayed(o, stop.sim, stop.exit, first.exit, target, n);
        PrefixedIsPlayed(sim, last, [], calls, r);
      } else if stop.sim.drains != [] {
        var next := Drained(stop.sim);
        var r := Rest(o, next, stop.exit, first.exit, target, n + 1);
        RestIsPlayed(o, next, stop.exit, first.exit, target, n + 1);
        PrefixedIsPlayed(sim, last, [next.now], calls + [Save], r);
      }
    }
  }

  /** Main result: the outcome and the checkpoints of every run are what its calls do to the
      simulator, one after the other as far as they are answered. */
  lemma DriveIsPlayed(o: Options, sim: Simulator, last: Exit)
    ensures IsPlayed(sim, last, Drive(o, sim)) && Drive(o, sim).calls != []
    ensures Drive(o, sim).calls[0] == Ask(o.when - sim.now)
  {
    var first := Simulate(sim, o.when - sim.now);
    var calls := [Ask(o.when - sim.now)] + SkipCalls(first, o.when);
    AskAndSkip(sim, o.when - sim.now, o.when, last);
    var stop := Skipped(first, o.when);
    if stop.Stopped? {
      ThenSave(sim, last, calls);
      if stop.exit != LimitReached {
        RestIsPlayed(o, stop.sim, stop.exit, stop.exit, o.when, 0);
        PrefixedIsPlayed(sim, last, [], calls, Rest(o, stop.sim, stop.exit, stop.exit, o.when, 0));
      } else if stop.sim.drains != [] {
        var next := Drained(stop.sim);
        RestIsPlayed(o, next, stop.exit, stop.exit, o.when, 1);
        PrefixedIsPlayed(sim, last, [next.now], calls + [Save], Rest(o, next, stop.exit, stop.exit, o.when, 1));
      }
    }
  }

  function Asks(calls: seq<Call>): nat {
    if calls == [] then 0 else (if calls[0].Ask? then 1 else 0) + Asks(calls[1..])
  }

  function Saves(calls: seq<Call>): nat {
    if calls == [] then 0 else (if calls[0].Save? then 1 else 0) + Saves(calls[1..])
  }

  /** How calls end, by what they are: the last limit is negative; or an answer is missing for
      it; or all are answered, and the last answer is the one to the last call. */
  ghost predicate EndsAs(sim: Simulator, calls: seq<Call>, last: Exit, r: Outcome) {
    var asks, saves := Asks(calls), Saves(calls);
    if calls != [] && calls[|calls| - 1].Ask? && calls[|calls| - 1].limit < 0 then r == NegativeLimit
    else if asks > |sim.exits| || saves > |sim.drains| then r == Running
    else r == Returned(if asks == 0 then last else sim.exits[asks - 1])
  }

  lemma {:induction false} PlayedEnds(sim: Simulator, calls: seq<Call>, last: Exit)
    requires FailsAtLast(sim, calls)
    ensures EndsAs(sim, calls, last, Outcomes(Played(sim, calls, last)))
    decreases |calls|
  {
    if |calls| > 1 {
      assert calls[|calls| - 1] == calls[1..][|calls| - 2];
      match calls[0] {
        case Ask(n) =>
          var stop := Simulate(sim, n);
          PlayedEnds(stop.sim, calls[1..], stop.exit);
        case Save =>
          PlayedEnds(Drained(sim), calls[1..], last);
      }
    } else if |calls| == 1 {
      assert calls[1..] == [];
    }
  }

  /** Main result: a run ends with a negative limit if and only if its last call asks for one,
      without an answer if and only if it made more calls than there are answers, and otherwise
      with the last of the answers used, which are as many as it asked for. */
  lemma OutcomeIff(o: Options, sim: Simulator)
    ensures EndsAs(sim, Drive(o, sim).calls, LimitReached, Drive(o, sim).outcome)
    ensures Asks(Drive(o, sim).calls) > 0
  {
    DriveIsPlayed(o, sim, LimitReached);
    PlayedEnds(sim, Drive(o, sim).calls, LimitReached);
  }

  // ----- on to maxtick

  /** An interval that reaches its limit at once. */
  lemma IntervalAtOnce(o: Options, sim: Simulator, target: int, n: nat)
    requires Interval(o, sim, target, n).written != [] && !GuestIn(sim.exits, 0)
    ensures sim.exits != [] && sim.drains != []
    ensures var next := AtCheckpoint(o, sim, target);
      Interval(o, sim, target, n) ==
      Prefixed([next.now], [Ask(o.period), Save], Rest(o, next, LimitReached, LimitReached, target, n + 1))
    ensures Simulate(sim, o.period) == Stopped(sim.(now := sim.now + o.period, exits := After(sim.exits)), LimitReached)
  {
    IntervalWrites(o, sim, target, n);
    assert [Ask(o.period)] + [] + [Save] == [Ask(o.period), Save];
  }

  /** The last call, its answer, and the tick it ends at if it is the limit. */
  ghost predicate EndsAtMaxtick(o: Options, sim: Simulator, last: Exit, limit: int, answers: seq<Exit>, late: nat,
                                r: Run)
  {
    && r.calls != [] && r.calls[|r.calls| - 1] == Ask(limit)
    && r.outcome == (if limit < 0 then NegativeLimit else if answers == [] then Running else Returned(answers[0]))
    && (r.outcome == Returned(LimitReached) ==>
        var stop := Played(sim, r.calls, last); stop.Stopped? && stop.sim.now == o.maxtick + late)
  }

  lemma LaterEndsAtMaxtick(o: Options, sim: Simulator, last: Exit, limit: int, answers: seq<Exit>, late: nat,
                           written: seq<int>, calls: seq<Call>, r: Run)
    requires Played(sim, calls, last).Stopped?
    requires var stop := Played(sim, calls, last); EndsAtMaxtick(o, stop.sim, stop.exit, limit, answers, late, r)
    ensures EndsAtMaxtick(o, sim, last, limit, answers, late, Prefixed(written, calls, r))
  {
    PlayedOn(sim, calls, r.calls, last);
  }

  lemma RestEndsNow(o: Options, sim: Simulator, exit: Exit, due: int, n: nat, late: nat)
    requires sim.now == due + late && n < o.maxCheckpoints && due + o.period > o.maxtick
    ensures EndsAtMaxtick(o, sim, exit, o.maxtick - due, sim.exits, late, Rest(o, sim, exit, LimitReached, due, n))
  {
  }

  lemma IntervalEndsLater(o: Options, sim: Simulator, exit: Exit, target: int, n: nat, limit: int, answers: seq<Exit>,
                          late: nat)
    requires Interval(o, sim, target, n).written != [] && !GuestIn(sim.exits, 0) && sim.drains != []
    requires var next := AtCheckpoint(o, sim, target);
      EndsAtMaxtick(o, next, LimitReached, limit, answers, late,
        Rest(o, next, LimitReached, LimitReached, target, n + 1))
    ensures EndsAtMaxtick(o, sim, exit, limit, answers, late, Interval(o, sim, target, n))
  {
    IntervalAtOnce(o, sim, target, n);
    AskAndSave(sim, o.period, exit);
    var next := AtCheckpoint(o, sim, target);
    LaterEndsAtMaxtick(o, sim, exit, limit, answers, late, [next.now], [Ask(o.period), Save],
      Rest(o, next, LimitReached, LimitReached, target, n + 1));
  }

  /** What is left of the loop goes on to maxtick. */
  ghost predicate RestEnds(o: Options, sim: Simulator, exit: Exit, due: int, n: nat, late: nat, k: nat)
    requires k <= |sim.drains|
  {
    EndsAtMaxtick(o, sim, exit, o.maxtick - Due(due, o.period, k), From(sim.exits, k), late + Sum(sim.drains[..k]),
      Rest(o, sim, exit, LimitReached, due, n))
  }

  lemma RestEndsLater(o: Options, sim: Simulator, exit: Exit, due: int, n: nat, late: nat, k: nat)
    requires 0 < k <= |sim.drains| && n < o.maxCheckpoints && due + o.period <= o.maxtick
    requires Interval(o, sim, due + o.period, n).written != [] && !GuestIn(sim.exits, 0)
    requires RestEnds(o, AtCheckpoint(o, sim, due + o.period), LimitReached, due + o.period, n + 1,
               late + sim.drains[0], k - 1)
    ensures RestEnds(o, sim, exit, due, n, late, k)
  {
    SumOfFirst(sim.drains, k);
    IntervalEndsLater(o, sim, exit, due + o.period, n, o.maxtick - Due(due, o.period, k), From(sim.exits, k),
      late + Sum(sim.drains[..k]));
  }

  lemma {:induction false} RestEndsAtMaxtick(o: Options, sim: Simulator, exit: Exit, due: int, n: nat, late: nat)
    requires sim.now == due + late && n + Remaining(o, due, n) < o.maxCheckpoints
    requires |Rest(o, sim, exit, LimitReached, due, n).written| == Remaining(o, due, n) <= |sim.drains|
    requires NoGuest(sim.exits, Remaining(o, due, n))
    ensures RestEnds(o, sim, exit, due, n, late, Remaining(o, due, n))
    decreases |sim.exits|
  {
    var k := Remaining(o, due, n);
    if k == 0 {
      assert sim.drains[..0] == [];
      RestEndsNow(o, sim, exit, due, n, late);
    } else {
      var target := due + o.period;
      NoGuestAfter(sim.exits, k);
      IntervalAtOnce(o, sim, target, n);
      AfterIsShorter(sim.exits);
      RestEndsAtMaxtick(o, AtCheckpoint(o, sim, target), LimitReached, target, n + 1, late + sim.drains[0]);
      RestEndsLater(o, sim, exit, due, n, late, k);
    }
  }

  lemma AskAndSave(sim: Simulator, n: int, last: Exit)
    requires Simulate(sim, n).Stopped? && sim.drains != []
    ensures var stop := Simulate(sim, n);
      Played(sim, [Ask(n), Save], last) == Stopped(Drained(stop.sim), stop.exit)
  {
    assert [Ask(n), Save][1..] == [Save] && [Save][1..] == [];
  }

  /** The first checkpoint of a run, and what leads to it. */
  lemma DriveStarts(o: Options, sim: Simulator, last: Exit) returns (calls: seq<Call>)
    requires Drive(o, sim).written != []
    ensures sim.drains != []
    ensures var next := Simulator(o.when + sim.drains[0], After(sim.exits), sim.drains[1..]);
      && Played(sim, calls, last) == Stopped(next, LimitReached)
      && Drive(o, sim) == Prefixed([next.now], calls, Rest(o, next, LimitReached, LimitReached, o.when, 1))
  {
    DriveWrites(o, sim);
    var first := Simulate(sim, o.when - sim.now);
    calls := [Ask(o.when - sim.now)] + SkipCalls(first, o.when);
    AskAndSkip(sim, o.when - sim.now, o.when, last);
    IntervalLimit(sim, o.when - sim.now, o.when);
    StartsWithLimit(o, sim);
    ThenSave(sim, last, calls);
    calls := calls + [Save];
  }

  lemma StartsWithLimit(o: Options, sim: Simulator)
    requires Drive(o, sim).written != []
    ensures var stop := Skipped(Simulate(sim, o.when - sim.now), o.when);
      stop.Stopped? && stop.exit == LimitReached && stop.sim.drains != []
  {
  }

  /** Main result: when all checkpoints due within maxtick are written, they are fewer than asked
      for and no guest checkpoint fell in the interval of the last, one more call asks for the
      ticks that are left to maxtick. Its answer is returned; if that is the limit, the
      simulation ends at maxtick plus all draining. */
  lemma GoesOnToMaxtick(o: Options, sim: Simulator)
    requires |Drive(o, sim).written| == Expected(o) < o.maxCheckpoints
    requires Expected(o) > 1 ==> !GuestIn(sim.exits, Expected(o) - 1)
    ensures var k := Expected(o);
      k <= |sim.drains| &&
      EndsAtMaxtick(o, sim, LimitReached, o.maxtick - Due(o.when, o.period, k - 1), From(sim.exits, k),
        Sum(sim.drains[..k]), Drive(o, sim))
  {
    var k := Expected(o);
    Spacing(o, sim, 0);
    var calls := DriveStarts(o, sim, LimitReached);
    var next := Simulator(o.when + sim.drains[0], After(sim.exits), sim.drains[1..]);
    NoneDisturbed(o, sim);
    RestEndsAtMaxtick(o, next, LimitReached, o.when, 1, sim.drains[0]);
    SumOfFirst(sim.drains, k);
    LaterEndsAtMaxtick(o, sim, LimitReached, o.maxtick - Due(o.when, o.period, k - 1), From(sim.exits, k),
      Sum(sim.drains[..k]), [next.now], calls, Rest(o, next, LimitReached, LimitReached, o.when, 1));
  }

  lemma NoneDisturbed(o: Options, sim: Simulator)
    requires |Drive(o, sim).written| == Expected(o)
    requires Expected(o) > 1 ==> !GuestIn(sim.exits, Expected(o) - 1)
    ensures NoGuest(After(sim.exits), Expected(o) - 1)
  {
    forall k | 0 <= k < Expected(o) - 1
      ensures !GuestIn(After(sim.exits), k)
    {
      Spacing(o, sim, k + 1);
      assert !GuestIn(sim.exits, k + 1);
    }
  }

  /** An instance: the second event is returned, not the one the last checkpoint was written at. */
  lemma LaterEventIsReturned()
    ensures Drive(Options(10, 5, 3, 12), Simulator(0, [LimitReached, OtherCause(1)], [0])) ==
      Run(Returned(OtherCause(1)), [10], [Ask(10), Save, Ask(2)])
  {
    var exits := [LimitReached, OtherCause(1)];
    assert exits[1..] == [OtherCause(1)];
    assert [Ask(10)] + [] + [Save] + [Ask(2)] == [Ask(10), Save, Ask(2)];
  }
}
