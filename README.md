# TimeListener, modelled in Dafny

`TimeListener` notifies a `TimeEventListener` either repeatedly, every `interval`
milliseconds, seconds or minutes, or once, when the wall clock reaches the hour and
minute of a `Time`. A background thread does the work. It may first sleep for a
`delay`, then loops: in interval mode it sleeps one interval, increments the lapse
counter `lapses`, calls the listener, and stops when `lapses` equals `lapsesToKill`;
in time-specific mode it reads the current second and, on a minute boundary,
compares hour and minute with the target (firing once and stopping on a match, or
sleeping a minute); off a boundary it sleeps (59 - second) seconds, which lands
on second 59, and from there sleeps 0 ms on each pass until it reads second 0
(`WorkerProperties.TargetMinuteExample`). `stop()`
interrupts the thread; an interrupted sleep ends it.

`Time` is a mutable hour/minute pair with add operations that do not normalise
(minutes never carry into hours, hours never wrap at 24) and an `hh:mm` text form
that pads a side with `0` only when its decimal text is one character long.

The model:

- `java_int.dfy` (`JavaInt`): Java `int` as the subset type `Int32`, and `Wrap32`
  for the wrap-around of `lapses++`, `hora++`, `hora += n`, `minutos += n`.
- `decimal.dfy` (`Decimal`): `String.valueOf(int)`, the padding rule, and a reader
  for decimal text used to state that formatting loses nothing.
- `time.dfy` (`TimeValue`): the class `Time`, whose methods update its two fields
  in place and return `this`, and the pure text form `Format` behind `toString`.
- `worker.dfy` (`Worker`): the worker thread as pure functions. A `Reading` is
  what one loop iteration observes: the current second, hour and minute, and
  whether the sleep begun in that iteration is interrupted. `Iteration` is one
  pass through the loop body; `Loop` runs iterations over a sequence of readings;
  `RunWorker` adds the initial delay. Each returns the actions taken (`Sleep(ms)`,
  `Fire`), the new lapse counter and why the worker stopped (`Halt`). The interval
  sleep is the 32-bit product the code computes (`Worker.DurationAsWritten`); a
  configuration whose product is negative, which makes `sleep` throw an exception
  the worker does not catch, is excluded by the precondition `Worker.SleepAccepted`.
- `worker_properties.dfy` (`WorkerProperties`): what the worker promises, proved
  about those functions: fire counts against the bound, the single fire of
  time-specific mode, interruption, durations.
- `time_listener.dfy` (`Listener`): the class `TimeListener`, whose `Step`, `Run`
  and `start` methods update `lapses` in place and are proved to produce exactly
  the trace and counter of `Worker.Iteration`, `Worker.Loop` and `Worker.RunWorker`.
  The throwing constructors are factory methods returning `Result`.

Where the code's own comments promise more than its statements do, the model
follows the statements:

- The Javadoc of `toString` (Time.java:121-124) says "Formato hh:mm"; the code pads
  only one-character text, so `-5` and `123` stay unpadded (`Decimal.PadRule`).
- The Javadoc of `startAndKill` (TimeListener.java:266-268) speaks of a single
  repetition; the code compares the cumulative counter with 1 and `start` does not
  reset it, so it fires exactly once only when `lapses` is 0 at start (`WorkerProperties.StartAndKillFiresAtMostOnce`,
  `WorkerProperties.IntervalBoundOutOfReach`).
- An unbounded `start()` passes `-1` as the bound; the counter is a Java `int`, so
  `Worker.Iteration` wraps it, and the bound is only out of reach while the
  counter stays within `int` range.
- A time-specific listener built with a null `Time` reaches a null dereference
  at the first minute boundary, which ends the thread (`Halt.MissingTarget`).

## Model

| member | source | states |
|---|---|---|
| `JavaInt.Wrap32` | src/com/dnarvaez27/time_listener/TimeListener.java:226 | the result is an `int`, equals the argument when it fits, and differs from it by a multiple of 2^32 |
| `Decimal.ValueOf` | src/com/dnarvaez27/time_listener/Time.java:128 | the decimal text of an int is one character long exactly for 0..9, and holds only digits and `-` |
| `Decimal.ValueOfRoundTrip` | src/com/dnarvaez27/time_listener/Time.java:128 | reading back the decimal text of any int gives that int |
| `Decimal.PadRule` | src/com/dnarvaez27/time_listener/Time.java:129-132 | 0..9 gain a leading `0`; negative values and values of two or more digits are left unpadded |
| `Decimal.PadRoundTrip` | src/com/dnarvaez27/time_listener/Time.java:129-132 | padding does not change the value read back |
| `TimeValue.FormatRoundTrip` | src/com/dnarvaez27/time_listener/Time.java:128-133 | for every hour and minute the text has exactly one `:` and splitting at it reads back the hour and the minute |
| `TimeValue.FormatClockShape` | src/com/dnarvaez27/time_listener/Time.java:128-133 | for hour 0..23 and minute 0..59 the text is five characters with `:` in the middle |
| `TimeValue.FormatUnpaddedExamples` | src/com/dnarvaez27/time_listener/Time.java:128-133 | 23:70 prints as `23:70`, (-5, 123) as `-5:123`, (7, 5) as `07:05` |
| `TimeValue.Time.constructor` | src/com/dnarvaez27/time_listener/Time.java:29-33 | hour and minute are stored as given, without range check |
| `TimeValue.Time.AddHora` | src/com/dnarvaez27/time_listener/Time.java:40-44 | the hour grows by one (Java int wrap-around only), the minute is unchanged, the same instance is returned |
| `TimeValue.Time.AddHoras` | src/com/dnarvaez27/time_listener/Time.java:52-56 | the hour grows by n with no wrap at 24 (exactly, when it fits in an int), the minute is unchanged, the same instance is returned |
| `TimeValue.Time.AddMinuto` | src/com/dnarvaez27/time_listener/Time.java:63-67 | the minute grows by one, with no carry into the hour; the same instance is returned |
| `TimeValue.Time.AddMinutos` | src/com/dnarvaez27/time_listener/Time.java:75-79 | the minute grows by n with no carry into the hour (exactly, when it fits in an int); the same instance is returned |
| `TimeValue.AddMinutosDoesNotCarry` | src/com/dnarvaez27/time_listener/Time.java:75-79 | 23:50 plus 20 minutes is hour 23, minute 70, printed `23:70` |
| `TimeValue.Time.GetHora` | src/com/dnarvaez27/time_listener/Time.java:86-89 | returns the current hour |
| `TimeValue.Time.GetMinutos` | src/com/dnarvaez27/time_listener/Time.java:96-99 | returns the current minute |
| `TimeValue.Time.SetHora` | src/com/dnarvaez27/time_listener/Time.java:106-109 | sets the hour and leaves the minute alone |
| `TimeValue.Time.SetMinutos` | src/com/dnarvaez27/time_listener/Time.java:116-119 | sets the minute and leaves the hour alone |
| `TimeValue.Time.ToString` | src/com/dnarvaez27/time_listener/Time.java:126-134 | the text has exactly one `:` and reads back as the current hour and minute |
| `Listener.NewWithType` | src/com/dnarvaez27/time_listener/TimeListener.java:91-104 | a null listener fails first, then a negative interval; otherwise a fresh listener stores listener, type and interval unchanged, with counter 0 and no worker |
| `Listener.NewMillis` | src/com/dnarvaez27/time_listener/TimeListener.java:79-82 | as `NewWithType` with the millisecond type |
| `Listener.NewAtTime` | src/com/dnarvaez27/time_listener/TimeListener.java:112-126 | fails exactly when the listener is null (the interval check reads the default 0 and never fails); otherwise time-specific type, the given `Time` shared, interval 0 |
| `Listener.TimeListener.constructor` | src/com/dnarvaez27/time_listener/TimeListener.java:101-103 | fields hold the checked arguments, the counter is 0 and no worker exists |
| `Listener.TimeListener.GetHora` | src/com/dnarvaez27/time_listener/TimeListener.java:133-136 | returns the target `Time` reference |
| `Listener.TimeListener.GetLapses` | src/com/dnarvaez27/time_listener/TimeListener.java:143-146 | returns the lapse counter |
| `Listener.TimeListener.ResetLapses` | src/com/dnarvaez27/time_listener/TimeListener.java:151-154 | sets the lapse counter to 0 |
| `Listener.ResetThenGet` | src/com/dnarvaez27/time_listener/TimeListener.java:143-154 | a reset followed by a read gives 0, whatever the counter was |
| `Listener.TimeListener.Stop` | src/com/dnarvaez27/time_listener/TimeListener.java:279-285 | interrupts the worker if one was ever started; does nothing otherwise |
| `Listener.TimeListener.Step` | src/com/dnarvaez27/time_listener/TimeListener.java:204-259 | for a configuration whose interval sleep `sleep` accepts, one loop pass (sleeping the wrapped 32-bit product) gives exactly the actions, counter and stop reason of `Worker.Iteration`, and leaves the configuration alone |
| `Listener.TimeListener.Run` | src/com/dnarvaez27/time_listener/TimeListener.java:202-260 | for a configuration whose interval sleep `sleep` accepts, the loop gives exactly the trace, counter and stop reason of `Worker.Loop` |
| `Listener.TimeListener.StartDelayed` | src/com/dnarvaez27/time_listener/TimeListener.java:183-264 | a new worker (interrupt status clear) gives exactly the trace of `Worker.RunWorker` with the delay and bound |
| `Listener.TimeListener.Start` | src/com/dnarvaez27/time_listener/TimeListener.java:159-162 | the same as `StartDelayed` with delay 0 and bound -1 |
| `Listener.TimeListener.StartWithKill` | src/com/dnarvaez27/time_listener/TimeListener.java:171-174 | the same as `StartDelayed` with delay 0 and the given bound |
| `Listener.TimeListener.StartAndKill` | src/com/dnarvaez27/time_listener/TimeListener.java:269-272 | the same as `StartDelayed` with delay 0 and bound 1 |
| `Worker.DurationAsWritten` | src/com/dnarvaez27/time_listener/TimeListener.java:208-224 | the duration the code sleeps: defined exactly for the three interval types, always an `int` value, and congruent modulo 2^32 to the exact product; `WorkerProperties.DurationAsWrittenCorrectIff` says when the two agree |
| `Worker.FitsIsAccepted` | src/com/dnarvaez27/time_listener/TimeListener.java:208-225 | a non-negative interval whose exact duration fits in an `int` is slept as the exact product, which `sleep` accepts |
| `Worker.Iteration` | src/com/dnarvaez27/time_listener/TimeListener.java:204-259 | one loop pass takes at most two actions; a pass that does not stop always begins with a sleep; a fire never comes from an interrupted pass; the counter moves only with a fire (the case analysis is stated by `WorkerProperties.IntervalIterationFiresOnce` and `WorkerProperties.TimeIterationCases`) |
| `Worker.Loop` | src/com/dnarvaez27/time_listener/TimeListener.java:202-260 | at most two actions per reading, and a loop that has not stopped has slept at least once per reading (its counting and stopping properties are the `Interval*`, `TimeMode*` and `Interrupt*` lemmas of `WorkerProperties`) |
| `Worker.RunWorker` | src/com/dnarvaez27/time_listener/TimeListener.java:183-264 | a positive delay is the first action taken, and the worker takes at most one action more than twice the readings (see `WorkerProperties.DelayInterruptedNeverFires` and the `Start*` lemmas) |
| `WorkerProperties.WorkerSleepsWrappedDuration` | src/com/dnarvaez27/time_listener/TimeListener.java:211 | a 71583-minute interval makes the worker sleep 12704 ms and then fire, as the code does |
| `WorkerProperties.NegativeWrappedDurationRejected` | src/com/dnarvaez27/time_listener/TimeListener.java:211-215 | 35792 minutes and 2147484 seconds give sleeps `sleep` rejects, so they fall outside the modelled configurations |
| `Worker.Duration` | src/com/dnarvaez27/time_listener/TimeListener.java:208-224 | a duration exists exactly for the three interval types; it is at least the interval and positive for a positive interval |
| `WorkerProperties.DurationPerUnit` | src/com/dnarvaez27/time_listener/TimeListener.java:208-224 | the exact (`long`) duration is interval*60000 ms for minutes, interval*1000 ms for seconds and interval ms for milliseconds; any other non-time type has none. The worker sleeps this duration only when it fits in an `int` (`WorkerProperties.DurationAsWrittenCorrectIff`) |
| `WorkerProperties.DurationAsWrittenCorrectIff` | src/com/dnarvaez27/time_listener/TimeListener.java:211-215 | the 32-bit products equal the exact durations if and only if the exact duration fits in an int |
| `WorkerProperties.MinuteIntervalOverflow` | src/com/dnarvaez27/time_listener/TimeListener.java:211 | 71583 minutes sleeps 12704 ms as written instead of 4294980000 ms |
| `WorkerProperties.MinuteIntervalNegative` | src/com/dnarvaez27/time_listener/TimeListener.java:211 | 35792 minutes gives the negative duration -2147447296 as written |
| `WorkerProperties.IntervalIterationFiresOnce` | src/com/dnarvaez27/time_listener/TimeListener.java:206-231 | an uninterrupted interval pass sleeps the wrapped 32-bit duration, counts one lapse, fires once, and stops exactly when the counter equals the bound |
| `WorkerProperties.TimeIterationCases` | src/com/dnarvaez27/time_listener/TimeListener.java:233-252 | at second 0 on the target it fires and stops; at second 0 elsewhere it sleeps 60000 ms; at second s it sleeps (59-s)*1000 ms; the counter never changes |
| `WorkerProperties.InterruptStopsIteration` | src/com/dnarvaez27/time_listener/TimeListener.java:255-259 | a pass whose sleep is interrupted always ends the loop |
| `WorkerProperties.UnknownTypeNeverFires` | src/com/dnarvaez27/time_listener/TimeListener.java:221-224 | an unrecognised type ends the loop at once with no action |
| `WorkerProperties.IntervalBound` | src/com/dnarvaez27/time_listener/TimeListener.java:225-231 | from a counter below the bound, the counter is the start plus the fires, never passes the bound, and the loop stops on the bound exactly when it reaches it |
| `WorkerProperties.IntervalReachesBound` | src/com/dnarvaez27/time_listener/TimeListener.java:225-231 | from a counter below the bound with enough uninterrupted sleeps, the loop fires exactly bound-minus-start times and stops on the bound |
| `WorkerProperties.IntervalBoundOutOfReach` | src/com/dnarvaez27/time_listener/TimeListener.java:226-228 | with a bound the counter cannot hit (such as -1, or a stale counter at or above it), every uninterrupted sleep fires and the loop never stops by itself |
| `WorkerProperties.TimeModeFiresAtMostOnce` | src/com/dnarvaez27/time_listener/TimeListener.java:233-252 | time-specific mode leaves the counter alone and fires at most once, exactly when it stops on the target |
| `WorkerProperties.TimeModeFiresAtFirstMatch` | src/com/dnarvaez27/time_listener/TimeListener.java:235-252 | it fires at the first reading on the target minute boundary, after one sleep per earlier reading, and stops |
| `WorkerProperties.TargetMinuteExample` | src/com/dnarvaez27/time_listener/TimeListener.java:235-252 | target 14:30 with the clock at 14:29:58, 14:29:59, 14:30:00, 14:31:00 sleeps 1000 ms, then 0 ms, fires once and stops |
| `WorkerProperties.InterruptCutsLoop` | src/com/dnarvaez27/time_listener/TimeListener.java:255-259 | readings after an interrupted one never influence the loop |
| `WorkerProperties.InterruptedEndsOnSleep` | src/com/dnarvaez27/time_listener/TimeListener.java:255-259 | a loop ended by interruption ends on the interrupted sleep, so no fire follows it |
| `WorkerProperties.LoopSleepsNonNegative` | src/com/dnarvaez27/time_listener/TimeListener.java:208-251 | with calendar readings, the realignment and minute sleeps of time mode are never negative, so the only sleeps that can be rejected are the interval sleeps the precondition excludes |
| `WorkerProperties.DelayInterruptedNeverFires` | src/com/dnarvaez27/time_listener/TimeListener.java:190-200 | an interruption during a positive delay ends the worker after that sleep alone, with no fire and the counter unchanged |
| `WorkerProperties.RunWorkerNoDelay` | src/com/dnarvaez27/time_listener/TimeListener.java:190-202 | with delay 0 the worker is the loop alone |
| `WorkerProperties.StartBoundedFiresExactly` | src/com/dnarvaez27/time_listener/TimeListener.java:171-174 | `start(k)` with k > 0 from counter 0 and enough uninterrupted sleeps fires exactly k times and stops with counter k |
| `WorkerProperties.StartBoundedNeverExceeds` | src/com/dnarvaez27/time_listener/TimeListener.java:225-231 | `start(k)` with k > 0 from counter 0 never fires more than k times, for every type and every reading |
| `WorkerProperties.StartAndKillFiresAtMostOnce` | src/com/dnarvaez27/time_listener/TimeListener.java:269-272 | `startAndKill()` from counter 0 fires at most once, and a fire ends the worker |
| `WorkerProperties.StartUnboundedNeverStops` | src/com/dnarvaez27/time_listener/TimeListener.java:159-162 | `start()` from a non-negative counter fires once per uninterrupted sleep and never stops by itself |

## Left out

- Threads: the worker runs synchronously inside `StartDelayed`; concurrency with the owner, the race between `resetLapses` and `lapses++`, and the owner changing the shared `Time` while a worker runs are not modelled.
- `Listener.TimeListener.StartDelayed`: calling `start` while a worker runs replaces the thread reference and leaves the old worker running; only the new worker is modelled.
- `Listener.TimeListener.Stop`: the interrupt it requests reaches the worker through the `interrupted` flag of the readings (the sleep during which `stop` is called); the field it sets is not read by `Run`.
- Sleeping and the clock: `sleep` is the emitted `Sleep(ms)` action, `Calendar.getInstance()` is the second, hour and minute of each reading; `Time.getInstance()` only reads the clock and is not modelled.
- Error logging (`printStackTrace`, `System.err.println`) has no effect on the model.
- `TimeEventListener` has no logic; calling it is the `Fire` action. The model assumes a callback that neither calls back into the listener nor throws: `intervalReached()` runs between `lapses++` (TimeListener.java:226) and the bound test (:228), so a callback calling `resetLapses()` or `stop()` would change the fire count, and one that throws would end the worker.
- The `IllegalArgumentException` that `sleep` throws when the 32-bit interval product is negative (for instance 35792 minutes, which the constructor accepts): the thread then dies without firing. The members below exclude such configurations by requiring `Worker.SleepAccepted`; every other interval, including one whose product wraps to a positive value, is modelled as the code sleeps it.
- Worker.Iteration: requires `SleepAccepted`, for the reason above.
- Worker.Loop: requires `SleepAccepted`, for the reason above.
- Worker.RunWorker: requires `SleepAccepted`, for the reason above.
- Listener.TimeListener.Step: requires `SleepAccepted`, for the reason above.
- Listener.TimeListener.Run: requires `SleepAccepted`, for the reason above.
- Listener.TimeListener.StartDelayed: requires `SleepAccepted`, for the reason above.
- Listener.TimeListener.Start: requires `SleepAccepted`, for the reason above.
- Listener.TimeListener.StartWithKill: requires `SleepAccepted`, for the reason above.
- Listener.TimeListener.StartAndKill: requires `SleepAccepted`, for the reason above.
- `WorkerProperties.StartUnboundedNeverStops`: stated only while the counter stays within `int` range; past 2^31-1 fires the counter wraps and with bound -1 the worker would stop after 2^32-1 fires, which no lemma covers.
- `Decimal.ParseDecimal` reads only the text that `String.valueOf` and the padding produce; it is not a model of `Integer.parseInt` (no `+` sign, no range check).

## Findings

| source | as written | input that shows it | evidently intended | confidence | as-written member | corrected member |
|---|---|---|---|---|---|---|
| src/com/dnarvaez27/time_listener/TimeListener.java:211 | `MINUTO * interval` (and `SEGUNDO * interval` at line 215) is a 32-bit `int` product, widened to the `long` duration only after it has wrapped | minute interval 71583 sleeps 12704 ms; minute interval 35792 gives -2147447296, which `sleep` rejects | the product computed as `long`: 4294980000 ms and 2147520000 ms | not executed | `WorkerProperties.MinuteIntervalOverflow` | `Worker.Duration` |

The worker model sleeps the product as written. `Worker.Duration` is the intended
duration; `WorkerProperties.DurationAsWrittenCorrectIff` and `Worker.FitsIsAccepted`
show that the two agree exactly when the exact duration fits in an `int`.
