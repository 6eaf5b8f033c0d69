/**
 * The decision logic of the `TimeListener` worker thread, with the thread, the sleeps and the
 * clock taken out. One loop iteration reads one `Reading` from an oracle (the current second,
 * hour and minute, and whether the sleep begun in this iteration is interrupted by `stop`) and
 * emits the actions it takes: `Sleep(ms)` for a call to `sleep`, `Fire` for a call to the
 * listener's `intervalReached`.
 */
module Worker {
  import opened Wrappers
  import opened JavaInt

  const MILLISECOND_INTERVAL: int := 0
  const SECOND_INTERVAL: int := 1
  const MINUTE_INTERVAL: int := 2
  const TIME_SPECIFIC: int := 3

  /** One minute and one second, in milliseconds. */
  const MINUTO: int := 60000
  const SEGUNDO: int := 1000

  /** The hour and minute of the target `Time`, read when the comparison is made. */
  datatype Target = Target(hour: int, minute: int)

  /** What the worker reads from its `TimeListener`: the type of interval, the interval and the target time, if any. */
  datatype Config = Config(typeInterval: int, interval: Int32, target: Option<Target>)

  /** What the clock says at the start of an iteration, and whether that iteration's sleep is interrupted. */
  datatype Reading = Reading(second: int, hour: int, minute: int, interrupted: bool)

  datatype Event = Sleep(ms: int) | Fire

  /**
   * Why the worker stopped: `Running` means it has not stopped after the readings given;
   * `MissingTarget` is the uncaught null dereference of a time-specific listener built without a `Time`.
   */
  datatype Halt = Running | BoundReached | TargetReached | Interrupted | UnknownType | MissingTarget

  /** Actions taken, the lapse counter afterwards, and whether the worker stopped. */
  datatype Outcome = Outcome(events: seq<Event>, lapses: Int32, halt: Halt)

  predicate IsIntervalUnit(typeInterval: int) {
    typeInterval == MILLISECOND_INTERVAL || typeInterval == SECOND_INTERVAL || typeInterval == MINUTE_INTERVAL
  }

  /** The calendar's contract for the readings: a second and minute in 0..59 and an hour of day in 0..23. */
  predicate ValidReading(r: Reading) {
    0 <= r.second <= 59 && 0 <= r.hour <= 23 && 0 <= r.minute <= 59
  }

  /**
   * Sleep duration of one interval, as the source computes it: `MINUTO * interval` and
   * `SEGUNDO * interval` are 32-bit `int` products, widened to `long` only afterwards.
   */
  function DurationAsWritten(typeInterval: int, interval: Int32): (r: Option<int>)
    ensures r.Some? <==> IsIntervalUnit(typeInterval)
    ensures r.Some? ==> INT_MIN <= r.value <= INT_MAX
    ensures r.Some? ==> (Duration(typeInterval, interval).value - r.value) % MODULUS == 0
  {
    if typeInterval == MINUTE_INTERVAL then Some(Wrap32(MINUTO * interval))
    else if typeInterval == SECOND_INTERVAL then Some(Wrap32(SEGUNDO * interval))
    else if typeInterval == MILLISECOND_INTERVAL then Some(interval)
    else None
  }

  /** Sleep duration of one interval, with the products computed without overflow (as `long`). */
  function Duration(typeInterval: int, interval: int): (r: Option<int>)
    ensures r.Some? <==> IsIntervalUnit(typeInterval)
    ensures r.Some? && interval >= 0 ==> r.value >= interval
    ensures r.Some? && interval > 0 ==> r.value > 0
  {
    if typeInterval == MINUTE_INTERVAL then Some(MINUTO * interval)
    else if typeInterval == SECOND_INTERVAL then Some(SEGUNDO * interval)
    else if typeInterval == MILLISECOND_INTERVAL then Some(interval)
    else None
  }

  /**
   * The interval sleep `sleep` accepts: not negative. A negative 32-bit product makes `sleep`
   * throw an `IllegalArgumentException` that the worker does not catch; that path is not modelled.
   */
  predicate SleepAccepted(cfg: Config) {
    match DurationAsWritten(cfg.typeInterval, cfg.interval)
    case None => true
    case Some(d) => d >= 0
  }

  /** The exact interval duration fits in an `int`, so the 32-bit product does not overflow. */
  predicate DurationFits(cfg: Config) {
    match Duration(cfg.typeInterval, cfg.interval)
    case None => true
    case Some(d) => d <= INT_MAX
  }

  /** A non-negative interval whose duration fits in an `int` is slept as the exact product, which `sleep` accepts. */
  lemma FitsIsAccepted(cfg: Config)
    requires cfg.interval >= 0 && DurationFits(cfg)
    ensures SleepAccepted(cfg)
    ensures DurationAsWritten(cfg.typeInterval, cfg.interval) == Duration(cfg.typeInterval, cfg.interval)
  {
  }

  /** One pass through the body of the worker's `while (true)` loop. */
  function Iteration(cfg: Config, lapses: Int32, lapsesToKill: int, r: Reading): (o: Outcome)
    requires SleepAccepted(cfg)
    ensures |o.events| <= 2
    ensures o.halt == Running ==> o.events != [] && o.events[0].Sleep?
    ensures Fire in o.events ==> o.halt != Interrupted
    ensures o.lapses != lapses ==> Fire in o.events
  {
    if cfg.typeInterval != TIME_SPECIFIC then
      match DurationAsWritten(cfg.typeInterval, cfg.interval)
      case None => Outcome([], lapses, UnknownType)
      case Some(d) =>
        if r.interrupted then Outcome([Sleep(d)], lapses, Interrupted)
        else
          var next := Wrap32(lapses + 1);
          Outcome([Sleep(d), Fire], next, if lapsesToKill == next then BoundReached else Running)
    else if r.second == 0 then
      match cfg.target
      case None => Outcome([], lapses, MissingTarget)
      case Some(t) =>
        if t.hour == r.hour && t.minute == r.minute then Outcome([Fire], lapses, TargetReached)
        else Outcome([Sleep(MINUTO)], lapses, if r.interrupted then Interrupted else Running)
    else
      Outcome([Sleep((59 - r.second) * SEGUNDO)], lapses, if r.interrupted then Interrupted else Running)
  }

  /** The worker's loop over a sequence of readings, until it stops or the readings run out. */
  function Loop(cfg: Config, lapses: Int32, lapsesToKill: int, rs: seq<Reading>): (o: Outcome)
    requires SleepAccepted(cfg)
    ensures |o.events| <= 2 * |rs|
    ensures o.halt == Running ==> |o.events| >= |rs|
    decreases |rs|
  {
    if rs == [] then Outcome([], lapses, Running)
    else
      var first := Iteration(cfg, lapses, lapsesToKill, rs[0]);
      if first.halt != Running then first
      else
        After(first.events, Loop(cfg, first.lapses, lapsesToKill, rs[1..]))
  }

  /** `o` preceded by the actions `prefix`. */
  function After(prefix: seq<Event>, o: Outcome): Outcome {
    Outcome(prefix + o.events, o.lapses, o.halt)
  }

  /** The whole worker thread started by `start(delay, lapsesToKill)`: an optional initial sleep, then the loop. */
  function RunWorker(cfg: Config, lapses: Int32, delay: int, lapsesToKill: int, delayInterrupted: bool, rs: seq<Reading>): (o: Outcome)
    requires SleepAccepted(cfg)
    ensures delay > 0 ==> o.events != [] && o.events[0] == Sleep(delay)
    ensures |o.events| <= 2 * |rs| + 1
  {
    if delay > 0 && delayInterrupted then Outcome([Sleep(delay)], lapses, Interrupted)
    else
      After(if delay > 0 then [Sleep(delay)] else [], Loop(cfg, lapses, lapsesToKill, rs))
  }

  lemma AfterAfter(a: seq<Event>, b: seq<Event>, o: Outcome)
    ensures After(a, After(b, o)) == After(a + b, o)
  {
    assert a + (b + o.events) == (a + b) + o.events;
  }

  lemma AfterNothing(o: Outcome)
    ensures After([], o) == o
  {
    assert [] + o.events == o.events;
  }

  /** `Loop` on the readings from position `i` on: one iteration, then the rest. */
  lemma LoopFrom(cfg: Config, lapses: Int32, lapsesToKill: int, rs: seq<Reading>, i: nat)
    requires SleepAccepted(cfg) && i < |rs|
    ensures var first := Iteration(cfg, lapses, lapsesToKill, rs[i]);
      Loop(cfg, lapses, lapsesToKill, rs[i..])
        == if first.halt != Running then first
           else After(first.events, Loop(cfg, first.lapses, lapsesToKill, rs[i + 1..]))
  {
    assert rs[i..][0] == rs[i] && rs[i..][1..] == rs[i + 1..];
  }

  /** Number of times the listener is notified. */
  function Fires(events: seq<Event>): nat
    decreases |events|
  {
    if events == [] then 0 else (if events[0] == Fire then 1 else 0) + Fires(events[1..])
  }
}
