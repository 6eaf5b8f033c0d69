/**
 * The `TimeListener` object: its configuration fields, its lapse counter, and the worker
 * loop run as a sequence of steps against an oracle of clock readings and interruptions.
 * Each step is proved to do what `Worker.Iteration` says, and a whole run what `Worker.RunWorker` says.
 */
module Listener {
  import opened Wrappers
  import opened JavaInt
  import opened Worker
  import opened TimeValue

  /** The callback capability; calling it is the `Fire` event of a trace. */
  class TimeEventListener {
  }

  /** The `IllegalArgumentException`s of the constructors. */
  datatype ArgError = NullListener | NegativeInterval

  class TimeListener {
    var interval: Int32
    var typeInterval: Int32
    var lapses: Int32
    var time: Time?
    var timeEventListener: TimeEventListener
    /** `thread != null`: some worker has been started. */
    var started: bool
    /** The interrupt status `stop` sets on the current worker. */
    var interruptRequested: bool

    /** The configuration the worker reads, with the target's fields as they are now. */
    function CurrentConfig(): Config
      reads this, time
    {
      Config(typeInterval, interval, if time == null then None else Some(Target(time.hora, time.minutos)))
    }

    /** Field initialisation once the arguments have been checked; the counter starts at 0 and no worker exists. */
    constructor (listener: TimeEventListener, typeInterval: Int32, interval: Int32, time: Time?)
      requires interval >= 0
      ensures this.timeEventListener == listener && this.typeInterval == typeInterval
      ensures this.interval == interval && this.time == time
      ensures lapses == 0 && !started && !interruptRequested
    {
      this.timeEventListener := listener;
      this.typeInterval := typeInterval;
      this.interval := interval;
      this.time := time;
      lapses := 0;
      started := false;
      interruptRequested := false;
    }

    method GetHora() returns (t: Time?)
      ensures t == time
    {
      t := time;
    }

    method GetLapses() returns (n: Int32)
      ensures n == lapses
    {
      n := lapses;
    }

    method ResetLapses()
      modifies this`lapses
      ensures lapses == 0
    {
      lapses := 0;
    }

    /** Interrupts the worker if one was ever started; otherwise nothing changes. */
    method Stop()
      modifies this`interruptRequested
      ensures interruptRequested == (old(interruptRequested) || started)
    {
      if started {
        interruptRequested := true;
      }
    }

    /**
     * One pass through the worker's loop body. The interval sleep is the 32-bit product the
     * source computes; a negative one (which `sleep` rejects) is excluded by the precondition.
     */
    method Step(lapsesToKill: Int32, r: Reading) returns (events: seq<Event>, halt: Halt)
      requires SleepAccepted(CurrentConfig())
      modifies this`lapses
      ensures CurrentConfig() == old(CurrentConfig())
      ensures Outcome(events, lapses, halt) == Iteration(old(CurrentConfig()), old(lapses), lapsesToKill, r)
    {
      if typeInterval != TIME_SPECIFIC {
        var duration: int;
        if typeInterval == MINUTE_INTERVAL {
          duration := Wrap32(MINUTO * interval);
        } else if typeInterval == SECOND_INTERVAL {
          duration := Wrap32(SEGUNDO * interval);
        } else if typeInterval == MILLISECOND_INTERVAL {
          duration := interval;
        } else {
          return [], UnknownType;
        }
        if r.interrupted {
          return [Sleep(duration)], Interrupted;
        }
        lapses := Wrap32(lapses + 1);
        events := [Sleep(duration), Fire];
        halt := if lapsesToKill == lapses then BoundReached else Running;
      } else {
        var sec := r.second;
        if sec == 0 {
          if time == null {
            return [], MissingTarget;
          }
          if time.hora == r.hour && time.minutos == r.minute {
            return [Fire], TargetReached;
          }
          events := [Sleep(MINUTO)];
        } else {
          events := [Sleep((59 - sec) * SEGUNDO)];
        }
        halt := if r.interrupted then Interrupted else Running;
      }
    }

    /** The worker's `while (true)` loop, driven by the readings until it stops or they run out. */
    method Run(lapsesToKill: Int32, rs: seq<Reading>) returns (trace: seq<Event>, halt: Halt)
      requires SleepAccepted(CurrentConfig())
      modifies this`lapses
      ensures CurrentConfig() == old(CurrentConfig())
      ensures Outcome(trace, lapses, halt) == Loop(old(CurrentConfig()), old(lapses), lapsesToKill, rs)
    {
      ghost var cfg := CurrentConfig();
      ghost var whole := Loop(cfg, lapses, lapsesToKill, rs);
      trace, halt := [], Running;
      AfterNothing(whole);
      var i := 0;
      while i < |rs| && halt == Running
        invariant 0 <= i <= |rs|
        invariant CurrentConfig() == cfg
        invariant halt == Running ==> whole == After(trace, Loop(cfg, lapses, lapsesToKill, rs[i..]))
        invariant halt != Running ==> whole == Outcome(trace, lapses, halt)
        decreases |rs| - i
      {
        ghost var before := lapses;
        var events, h := Step(lapsesToKill, rs[i]);
        LoopFrom(cfg, before, lapsesToKill, rs, i);
        AfterAfter(trace, events, Loop(cfg, lapses, lapsesToKill, rs[i + 1..]));
        trace, halt := trace + events, h;
        i := i + 1;
      }
      if halt == Running {
        assert rs[i..] == [];
      }
    }

    /** `start(delay, lapsesToKill)`: a new worker sleeps `delay` if it is positive, then runs the loop. */
    method StartDelayed(delay: int, lapsesToKill: Int32, delayInterrupted: bool, rs: seq<Reading>)
      returns (trace: seq<Event>, halt: Halt)
      requires SleepAccepted(CurrentConfig())
      modifies this`lapses, this`started, this`interruptRequested
      ensures started && !interruptRequested
      ensures CurrentConfig() == old(CurrentConfig())
      ensures Outcome(trace, lapses, halt)
        == RunWorker(old(CurrentConfig()), old(lapses), delay, lapsesToKill, delayInterrupted, rs)
    {
      started := true;
      interruptRequested := false;
      if delay > 0 && delayInterrupted {
        return [Sleep(delay)], Interrupted;
      }
      var loopTrace;
      loopTrace, halt := Run(lapsesToKill, rs);
      trace := (if delay > 0 then [Sleep(delay)] else []) + loopTrace;
    }

    /** `start()`: no delay and the bound `-1`. */
    method Start(rs: seq<Reading>) returns (trace: seq<Event>, halt: Halt)
      requires SleepAccepted(CurrentConfig())
      modifies this`lapses, this`started, this`interruptRequested
      ensures started && !interruptRequested
      ensures CurrentConfig() == old(CurrentConfig())
      ensures Outcome(trace, lapses, halt) == RunWorker(old(CurrentConfig()), old(lapses), 0, -1, false, rs)
    {
      trace, halt := StartDelayed(0, -1, false, rs);
    }

    /** `start(lapsesToKill)`: no delay. */
    method StartWithKill(lapsesToKill: Int32, rs: seq<Reading>) returns (trace: seq<Event>, halt: Halt)
      requires SleepAccepted(CurrentConfig())
      modifies this`lapses, this`started, this`interruptRequested
      ensures started && !interruptRequested
      ensures CurrentConfig() == old(CurrentConfig())
      ensures Outcome(trace, lapses, halt) == RunWorker(old(CurrentConfig()), old(lapses), 0, lapsesToKill, false, rs)
    {
      trace, halt := StartDelayed(0, lapsesToKill, false, rs);
    }

    /** `startAndKill()`: no delay and the bound 1. */
    method StartAndKill(rs: seq<Reading>) returns (trace: seq<Event>, halt: Halt)
      requires SleepAccepted(CurrentConfig())
      modifies this`lapses, this`started, this`interruptRequested
      ensures started && !interruptRequested
      ensures CurrentConfig() == old(CurrentConfig())
      ensures Outcome(trace, lapses, halt) == RunWorker(old(CurrentConfig()), old(lapses), 0, 1, false, rs)
    {
      trace, halt := StartDelayed(0, 1, false, rs);
    }
  }

  /** `TimeListener(listener, typeInterval, interval)`: rejects a null listener, then a negative interval. */
  method NewWithType(listener: TimeEventListener?, typeInterval: Int32, interval: Int32)
    returns (r: Result<TimeListener, ArgError>)
    ensures listener == null ==> r == Failure(NullListener)
    ensures listener != null && interval < 0 ==> r == Failure(NegativeInterval)
    ensures r.Success? <==> listener != null && interval >= 0
    ensures r.Success? ==>
      fresh(r.value) && r.value.timeEventListener == listener
      && r.value.typeInterval == typeInterval && r.value.interval == interval
      && r.value.time == null && r.value.lapses == 0 && !r.value.started && !r.value.interruptRequested
  {
    if listener == null {
      return Failure(NullListener);
    }
    if interval < 0 {
      return Failure(NegativeInterval);
    }
    var t := new TimeListener(listener, typeInterval, interval, null);
    r := Success(t);
  }

  /** `TimeListener(listener, intervalMillis)`: the millisecond form of `NewWithType`. */
  method NewMillis(listener: TimeEventListener?, intervalMillis: Int32)
    returns (r: Result<TimeListener, ArgError>)
    ensures listener == null ==> r == Failure(NullListener)
    ensures listener != null && intervalMillis < 0 ==> r == Failure(NegativeInterval)
    ensures r.Success? <==> listener != null && intervalMillis >= 0
    ensures r.Success? ==>
      fresh(r.value) && r.value.timeEventListener == listener
      && r.value.typeInterval == MILLISECOND_INTERVAL && r.value.interval == intervalMillis
      && r.value.time == null && r.value.lapses == 0 && !r.value.started && !r.value.interruptRequested
  {
    r := NewWithType(listener, MILLISECOND_INTERVAL, intervalMillis);
  }

  /**
   * `TimeListener(listener, time)`: its interval check reads the field's default 0, so only a
   * null listener is rejected; the target `Time` is shared, not copied, and may be null.
   */
  method NewAtTime(listener: TimeEventListener?, time: Time?)
    returns (r: Result<TimeListener, ArgError>)
    ensures r.Failure? <==> listener == null
    ensures r.Failure? ==> r.error == NullListener
    ensures r.Success? ==>
      fresh(r.value) && r.value.timeEventListener == listener
      && r.value.typeInterval == TIME_SPECIFIC && r.value.interval == 0
      && r.value.time == time && r.value.lapses == 0 && !r.value.started && !r.value.interruptRequested
  {
    if listener == null {
      return Failure(NullListener);
    }
    var defaultInterval := 0;
    if defaultInterval < 0 {
      return Failure(NegativeInterval);
    }
    var t := new TimeListener(listener, TIME_SPECIFIC, defaultInterval, time);
    r := Success(t);
  }

  /** `resetLapses()` followed by `getLapses()` gives 0 whatever the counter was. */
  method ResetThenGet(l: TimeListener) returns (n: Int32)
    modifies l`lapses
    ensures n == 0
  {
    l.ResetLapses();
    n := l.GetLapses();
  }
}
