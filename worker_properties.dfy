/** What the worker loop promises: how many times it fires, when it stops, and what it sleeps. */
module WorkerProperties {
  import opened Wrappers
  import opened JavaInt
  import opened Worker

  predicate NoInterrupts(rs: seq<Reading>) {
    forall i :: 0 <= i < |rs| ==> !rs[i].interrupted
  }

  /** Reading `r` is taken at the start of the target minute. */
  predicate Matches(t: Target, r: Reading) {
    r.second == 0 && r.hour == t.hour && r.minute == t.minute
  }

  predicate SleepsNonNegative(events: seq<Event>) {
    forall i :: 0 <= i < |events| && events[i].Sleep? ==> events[i].ms >= 0
  }

  lemma {:induction false} FiresAppend(a: seq<Event>, b: seq<Event>)
    ensures Fires(a + b) == Fires(a) + Fires(b)
    decreases |a|
  {
    if a == [] {
      assert a + b == b;
    } else {
      assert (a + b)[1..] == a[1..] + b;
      FiresAppend(a[1..], b);
    }
  }

  lemma SleepThenFire(d: int)
    ensures Fires([Sleep(d), Fire]) == 1 && Fires([Sleep(d)]) == 0
  {
    assert [Sleep(d), Fire][1..] == [Fire];
    assert [Fire][1..] == [];
  }

  // ---------------------------------------------------------------- durations

  /** The sleep of each interval unit, and the fall-through for any other non-time type. */
  lemma DurationPerUnit(interval: int)
    ensures Duration(MINUTE_INTERVAL, interval) == Some(interval * 60000)
    ensures Duration(SECOND_INTERVAL, interval) == Some(interval * 1000)
    ensures Duration(MILLISECOND_INTERVAL, interval) == Some(interval)
    ensures forall t :: t != TIME_SPECIFIC && !IsIntervalUnit(t) ==> Duration(t, interval).None?
  {
  }

  /** The 32-bit products agree with the exact ones exactly when the exact duration fits in an `int`. */
  lemma DurationAsWrittenCorrectIff(typeInterval: int, interval: Int32)
    requires interval >= 0
    ensures DurationAsWritten(typeInterval, interval) == Duration(typeInterval, interval)
        <==> (Duration(typeInterval, interval).None? || Duration(typeInterval, interval).value <= INT_MAX)
  {
  }

  /** An interval of 71583 minutes (about 49.7 days) sleeps 12704 ms instead of 4294980000 ms. */
  lemma MinuteIntervalOverflow()
    ensures DurationAsWritten(MINUTE_INTERVAL, 71583) == Some(12704)
    ensures Duration(MINUTE_INTERVAL, 71583) == Some(4294980000)
  {
  }

  /** An interval of 35792 minutes gives a negative duration, which `sleep` rejects. */
  lemma MinuteIntervalNegative()
    ensures DurationAsWritten(MINUTE_INTERVAL, 35792) == Some(-2147447296)
    ensures Duration(MINUTE_INTERVAL, 35792) == Some(2147520000)
  {
  }

  /** The worker sleeps the wrapped product: 71583 minutes gives a 12704 ms sleep followed by a fire. */
  lemma WorkerSleepsWrappedDuration()
    ensures SleepAccepted(Config(MINUTE_INTERVAL, 71583, None))
    ensures Iteration(Config(MINUTE_INTERVAL, 71583, None), 0, -1, Reading(0, 0, 0, false)).events
         == [Sleep(12704), Fire]
  {
  }

  /** 35792 minutes, which the constructor accepts, gives a sleep the worker cannot take. */
  lemma NegativeWrappedDurationRejected()
    ensures !SleepAccepted(Config(MINUTE_INTERVAL, 35792, None))
    ensures !SleepAccepted(Config(SECOND_INTERVAL, 2147484, None))
  {
  }

  // ---------------------------------------------------------------- single iterations

  /** An interval-mode iteration whose sleep completes counts one lapse and then fires once. */
  lemma IntervalIterationFiresOnce(cfg: Config, lapses: Int32, lapsesToKill: int, r: Reading)
    requires SleepAccepted(cfg)
    requires IsIntervalUnit(cfg.typeInterval) && !r.interrupted && lapses < INT_MAX
    ensures var o := Iteration(cfg, lapses, lapsesToKill, r);
      o.events == [Sleep(DurationAsWritten(cfg.typeInterval, cfg.interval).value), Fire]
      && o.lapses == lapses + 1
      && (o.halt == BoundReached <==> lapsesToKill == lapses + 1)
      && (o.halt != BoundReached ==> o.halt == Running)
  {
  }

  /** The time-specific decision: fire at a matching minute boundary, otherwise sleep a minute or realign. */
  lemma TimeIterationCases(cfg: Config, lapses: Int32, lapsesToKill: int, r: Reading)
    requires cfg.typeInterval == TIME_SPECIFIC && cfg.target.Some?
    ensures var o := Iteration(cfg, lapses, lapsesToKill, r);
      o.lapses == lapses
      && (Matches(cfg.target.value, r) ==> o == Outcome([Fire], lapses, TargetReached))
      && (r.second == 0 && !Matches(cfg.target.value, r) ==> o.events == [Sleep(60000)])
      && (r.second != 0 ==> o.events == [Sleep((59 - r.second) * 1000)])
      && (!Matches(cfg.target.value, r) ==> (o.halt == Interrupted <==> r.interrupted))
  {
  }

  /** Every iteration whose sleep is interrupted ends the loop. */
  lemma InterruptStopsIteration(cfg: Config, lapses: Int32, lapsesToKill: int, r: Reading)
    requires SleepAccepted(cfg)
    requires r.interrupted
    ensures Iteration(cfg, lapses, lapsesToKill, r).halt != Running
  {
  }

  // ---------------------------------------------------------------- interval mode

  /**
   * Interval mode, starting below the bound: the counter grows by one per fire, never passes
   * the bound, and the loop stops on the bound exactly when the counter reaches it.
   */
  lemma {:induction false} IntervalBound(cfg: Config, lapses: Int32, lapsesToKill: Int32, rs: seq<Reading>)
    requires SleepAccepted(cfg)
    requires IsIntervalUnit(cfg.typeInterval)
    requires 0 <= lapses < lapsesToKill
    ensures var o := Loop(cfg, lapses, lapsesToKill, rs);
      o.lapses == lapses + Fires(o.events)
      && o.lapses <= lapsesToKill
      && (o.halt == BoundReached <==> o.lapses == lapsesToKill)
      && o.halt in {Running, BoundReached, Interrupted}
    decreases |rs|
  {
    if rs != [] {
      var first := Iteration(cfg, lapses, lapsesToKill, rs[0]);
      SleepThenFire(DurationAsWritten(cfg.typeInterval, cfg.interval).value);
      if first.halt == Running {
        var rest := Loop(cfg, first.lapses, lapsesToKill, rs[1..]);
        IntervalBound(cfg, first.lapses, lapsesToKill, rs[1..]);
        FiresAppend(first.events, rest.events);
      }
    }
  }

  /** Interval mode, starting below the bound with enough uninterrupted sleeps: the loop fires until the counter equals the bound, then stops. */
  lemma {:induction false} IntervalReachesBound(cfg: Config, lapses: Int32, lapsesToKill: Int32, rs: seq<Reading>)
    requires SleepAccepted(cfg)
    requires IsIntervalUnit(cfg.typeInterval)
    requires 0 <= lapses < lapsesToKill
    requires |rs| >= lapsesToKill - lapses
    requires forall i :: 0 <= i < lapsesToKill - lapses ==> !rs[i].interrupted
    ensures var o := Loop(cfg, lapses, lapsesToKill, rs);
      o.halt == BoundReached && o.lapses == lapsesToKill && Fires(o.events) == lapsesToKill - lapses
    decreases lapsesToKill - lapses
  {
    var first := Iteration(cfg, lapses, lapsesToKill, rs[0]);
    assert !rs[0].interrupted;
    SleepThenFire(DurationAsWritten(cfg.typeInterval, cfg.interval).value);
    if first.halt == Running {
      var rest := Loop(cfg, first.lapses, lapsesToKill, rs[1..]);
      IntervalReachesBound(cfg, first.lapses, lapsesToKill, rs[1..]);
      FiresAppend(first.events, rest.events);
    }
  }

  /**
   * Interval mode with a bound the counter cannot hit while it stays within `int` range (the
   * `-1` of `start()`, or a bound at or below a counter left over from an earlier run): every
   * uninterrupted sleep fires and the loop never stops by itself.
   */
  lemma {:induction false} IntervalBoundOutOfReach(cfg: Config, lapses: Int32, lapsesToKill: int, rs: seq<Reading>)
    requires SleepAccepted(cfg)
    requires IsIntervalUnit(cfg.typeInterval)
    requires 0 <= lapses && lapses + |rs| <= INT_MAX
    requires !(lapses < lapsesToKill <= lapses + |rs|)
    requires NoInterrupts(rs)
    ensures var o := Loop(cfg, lapses, lapsesToKill, rs);
      o.halt == Running && o.lapses == lapses + |rs| && Fires(o.events) == |rs| && |o.events| == 2 * |rs|
    decreases |rs|
  {
    if rs != [] {
      var first := Iteration(cfg, lapses, lapsesToKill, rs[0]);
      assert !rs[0].interrupted;
      SleepThenFire(DurationAsWritten(cfg.typeInterval, cfg.interval).value);
      var rest := Loop(cfg, first.lapses, lapsesToKill, rs[1..]);
      assert NoInterrupts(rs[1..]) by {
        forall i | 0 <= i < |rs[1..]| ensures !rs[1..][i].interrupted {
          assert rs[1..][i] == rs[i + 1];
        }
      }
      IntervalBoundOutOfReach(cfg, first.lapses, lapsesToKill, rs[1..]);
      FiresAppend(first.events, rest.events);
    }
  }

  /** A type that is neither an interval unit nor time-specific ends the loop at once, without firing. */
  lemma UnknownTypeNeverFires(cfg: Config, lapses: Int32, lapsesToKill: int, rs: seq<Reading>)
    requires cfg.typeInterval != TIME_SPECIFIC && !IsIntervalUnit(cfg.typeInterval)
    ensures var o := Loop(cfg, lapses, lapsesToKill, rs);
      o.events == [] && o.lapses == lapses && (rs != [] ==> o.halt == UnknownType)
  {
  }

  // ---------------------------------------------------------------- time-specific mode

  /** Time-specific mode never touches the counter and fires at most once, and only when it stops on the target. */
  lemma {:induction false} TimeModeFiresAtMostOnce(cfg: Config, lapses: Int32, lapsesToKill: int, rs: seq<Reading>)
    requires cfg.typeInterval == TIME_SPECIFIC
    ensures var o := Loop(cfg, lapses, lapsesToKill, rs);
      o.lapses == lapses && Fires(o.events) <= 1 && (Fires(o.events) == 1 <==> o.halt == TargetReached)
    decreases |rs|
  {
    if rs != [] {
      var first := Iteration(cfg, lapses, lapsesToKill, rs[0]);
      if first.halt == Running {
        var rest := Loop(cfg, lapses, lapsesToKill, rs[1..]);
        TimeModeFiresAtMostOnce(cfg, lapses, lapsesToKill, rs[1..]);
        FiresAppend(first.events, rest.events);
      }
    }
  }

  /**
   * Time-specific mode fires at the first reading that falls on the target minute boundary,
   * after one sleep per earlier reading, and then stops.
   */
  lemma {:induction false} TimeModeFiresAtFirstMatch(cfg: Config, lapses: Int32, lapsesToKill: int, rs: seq<Reading>, j: nat)
    requires cfg.typeInterval == TIME_SPECIFIC && cfg.target.Some?
    requires j < |rs| && Matches(cfg.target.value, rs[j])
    requires forall i :: 0 <= i < j ==> !rs[i].interrupted && !Matches(cfg.target.value, rs[i])
    ensures var o := Loop(cfg, lapses, lapsesToKill, rs);
      o.halt == TargetReached && |o.events| == j + 1 && o.events[j] == Fire
      && Fires(o.events) == 1 && o.lapses == lapses
    decreases j
  {
    if j > 0 {
      var first := Iteration(cfg, lapses, lapsesToKill, rs[0]);
      assert !rs[0].interrupted && !Matches(cfg.target.value, rs[0]);
      var rest := Loop(cfg, lapses, lapsesToKill, rs[1..]);
      TimeModeFiresAtFirstMatch(cfg, lapses, lapsesToKill, rs[1..], j - 1);
      FiresAppend(first.events, rest.events);
    }
  }

  /** A target of 14:30 with the clock passing 14:29:58, 14:29:59, 14:30:00 and 14:31:00: one fire at 14:30, none at 14:31. */
  lemma TargetMinuteExample()
    ensures Loop(Config(TIME_SPECIFIC, 0, Some(Target(14, 30))), 0, -1,
                 [Reading(58, 14, 29, false), Reading(59, 14, 29, false),
                  Reading(0, 14, 30, false), Reading(0, 14, 31, false)])
         == Outcome([Sleep(1000), Sleep(0), Fire], 0, TargetReached)
  {
  }

  // ---------------------------------------------------------------- interruption

  /** Readings after an interrupted sleep are never consulted: the loop has already stopped. */
  lemma {:induction false} InterruptCutsLoop(cfg: Config, lapses: Int32, lapsesToKill: int, rs: seq<Reading>, j: nat)
    requires SleepAccepted(cfg)
    requires j < |rs| && rs[j].interrupted
    ensures Loop(cfg, lapses, lapsesToKill, rs) == Loop(cfg, lapses, lapsesToKill, rs[..j + 1])
    decreases j
  {
    var first := Iteration(cfg, lapses, lapsesToKill, rs[0]);
    assert rs[..j + 1][0] == rs[0];
    if j == 0 {
      InterruptStopsIteration(cfg, lapses, lapsesToKill, rs[0]);
    } else if first.halt == Running {
      InterruptCutsLoop(cfg, first.lapses, lapsesToKill, rs[1..], j - 1);
      assert rs[..j + 1][1..] == rs[1..][..j];
    }
  }

  /** A loop stopped by an interruption ends on the interrupted sleep: no fire follows it. */
  lemma {:induction false} InterruptedEndsOnSleep(cfg: Config, lapses: Int32, lapsesToKill: int, rs: seq<Reading>)
    requires SleepAccepted(cfg)
    ensures var o := Loop(cfg, lapses, lapsesToKill, rs);
      o.halt == Interrupted ==> |o.events| > 0 && o.events[|o.events| - 1].Sleep?
    decreases |rs|
  {
    if rs != [] {
      var first := Iteration(cfg, lapses, lapsesToKill, rs[0]);
      if first.halt == Running {
        InterruptedEndsOnSleep(cfg, first.lapses, lapsesToKill, rs[1..]);
      }
    }
  }

  /** With a calendar's readings, every time-mode sleep is non-negative, as is every interval sleep `sleep` accepts. */
  lemma {:induction false} LoopSleepsNonNegative(cfg: Config, lapses: Int32, lapsesToKill: int, rs: seq<Reading>)
    requires SleepAccepted(cfg)
    requires forall i :: 0 <= i < |rs| ==> ValidReading(rs[i])
    ensures SleepsNonNegative(Loop(cfg, lapses, lapsesToKill, rs).events)
    decreases |rs|
  {
    if rs != [] {
      var first := Iteration(cfg, lapses, lapsesToKill, rs[0]);
      assert ValidReading(rs[0]);
      if first.halt == Running {
        var rest := Loop(cfg, first.lapses, lapsesToKill, rs[1..]);
        assert forall i :: 0 <= i < |rs[1..]| ==> rs[1..][i] == rs[i + 1];
        LoopSleepsNonNegative(cfg, first.lapses, lapsesToKill, rs[1..]);
        var all := first.events + rest.events;
        forall i | 0 <= i < |all| && all[i].Sleep? ensures all[i].ms >= 0 {
          if i >= |first.events| {
            assert all[i] == rest.events[i - |first.events|];
          }
        }
      }
    }
  }

  // ---------------------------------------------------------------- the whole worker

  /** An interruption during the initial delay ends the worker before it fires or counts anything. */
  lemma DelayInterruptedNeverFires(cfg: Config, lapses: Int32, delay: int, lapsesToKill: int, rs: seq<Reading>)
    requires SleepAccepted(cfg)
    requires delay > 0
    ensures var o := RunWorker(cfg, lapses, delay, lapsesToKill, true, rs);
      o.events == [Sleep(delay)] && Fires(o.events) == 0 && o.lapses == lapses && o.halt == Interrupted
  {
  }

  /** Without a delay the worker is just the loop. */
  lemma RunWorkerNoDelay(cfg: Config, lapses: Int32, lapsesToKill: int, rs: seq<Reading>)
    requires SleepAccepted(cfg)
    ensures RunWorker(cfg, lapses, 0, lapsesToKill, false, rs) == Loop(cfg, lapses, lapsesToKill, rs)
  {
    var o := Loop(cfg, lapses, lapsesToKill, rs);
    assert [] + o.events == o.events;
  }

  /** `start(k)` on a fresh counter with `k > 0` and enough uninterrupted sleeps fires exactly `k` times and stops. */
  lemma StartBoundedFiresExactly(cfg: Config, lapsesToKill: Int32, rs: seq<Reading>)
    requires SleepAccepted(cfg)
    requires IsIntervalUnit(cfg.typeInterval)
    requires 0 < lapsesToKill && |rs| >= lapsesToKill
    requires forall i :: 0 <= i < lapsesToKill ==> !rs[i].interrupted
    ensures var o := RunWorker(cfg, 0, 0, lapsesToKill, false, rs);
      o.halt == BoundReached && o.lapses == lapsesToKill && Fires(o.events) == lapsesToKill
  {
    RunWorkerNoDelay(cfg, 0, lapsesToKill, rs);
    IntervalReachesBound(cfg, 0, lapsesToKill, rs);
  }

  /** `start(k)` on a fresh counter with `k > 0` never fires more than `k` times, whatever the type and the readings. */
  lemma StartBoundedNeverExceeds(cfg: Config, lapsesToKill: Int32, rs: seq<Reading>)
    requires SleepAccepted(cfg)
    requires 0 < lapsesToKill
    ensures Fires(RunWorker(cfg, 0, 0, lapsesToKill, false, rs).events) <= lapsesToKill
  {
    RunWorkerNoDelay(cfg, 0, lapsesToKill, rs);
    if cfg.typeInterval == TIME_SPECIFIC {
      TimeModeFiresAtMostOnce(cfg, 0, lapsesToKill, rs);
    } else if IsIntervalUnit(cfg.typeInterval) {
      IntervalBound(cfg, 0, lapsesToKill, rs);
    }
  }

  /** `startAndKill()` on a fresh counter fires at most once, and only as the last thing it does before stopping. */
  lemma StartAndKillFiresAtMostOnce(cfg: Config, rs: seq<Reading>)
    requires SleepAccepted(cfg)
    ensures var o := RunWorker(cfg, 0, 0, 1, false, rs);
      Fires(o.events) <= 1 && (Fires(o.events) == 1 ==> o.halt == BoundReached || o.halt == TargetReached)
  {
    RunWorkerNoDelay(cfg, 0, 1, rs);
    if cfg.typeInterval == TIME_SPECIFIC {
      TimeModeFiresAtMostOnce(cfg, 0, 1, rs);
    } else if IsIntervalUnit(cfg.typeInterval) {
      IntervalBound(cfg, 0, 1, rs);
    }
  }

  /** `start()` passes `-1` as bound: from a non-negative counter the worker fires once per uninterrupted sleep and never stops by itself. */
  lemma StartUnboundedNeverStops(cfg: Config, lapses: Int32, rs: seq<Reading>)
    requires SleepAccepted(cfg)
    requires IsIntervalUnit(cfg.typeInterval)
    requires 0 <= lapses && lapses + |rs| <= INT_MAX
    requires NoInterrupts(rs)
    ensures var o := RunWorker(cfg, lapses, 0, -1, false, rs);
      o.halt == Running && Fires(o.events) == |rs| && o.lapses == lapses + |rs|
  {
    RunWorkerNoDelay(cfg, lapses, -1, rs);
    IntervalBoundOutOfReach(cfg, lapses, -1, rs);
  }
}
