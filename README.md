# DigiTemp exporter: verified model of the sampling loop and the log filter

The DigiTemp exporter reads a 1-Wire temperature sensor through a serial
(UART) adapter every `delay` seconds and publishes the last reading as the
Prometheus gauge `digitemp_temperature`. It has to run unattended: when the
adapter cannot be opened or a read fails it logs the failure and tries again
on the next tick, and it keeps the log readable by showing the reading at most
once every 30 minutes and by collapsing runs of identical errors into one line.

This project models the two pieces of decision logic in
`digitemp_exporter.py` and proves their properties in Dafny:

- `logging.dfy`, module `Logging`: the `DuplicateFilter` installed on the
  exporter's logger, as a class with the field `lastLog` and the method
  `Filter`, specified by the pure decision `Decide`. `FilterRun` feeds a
  stream of records through the filter; lemmas relate it to an independent
  reference definition (`Deduplicated`: keep every record at INFO or below,
  drop a record above INFO exactly when it repeats the latest record above
  INFO before it, shown or not) and show that a run of identical errors
  yields one line.
- `sampling.dfy`, module `Sampling`: one tick of the loop in `main`. The class
  `Exporter` holds the loop's variables (`uart`, `sensor`, `lastLogTime`, the
  gauge) and the logger's filter; its `Tick` method follows the loop body
  statement by statement and is proved equal to the pure function `Step`.
  The hardware and the clock are inputs of a tick: the outcome of opening
  (adapter fails; adapter opens but building the sensor fails; both succeed),
  the outcome of the read, the tick's start time `t` and the time the tick's
  work took. Lemmas about `Step` state what a tick does.
- `sampling_runs.dfy`, module `SamplingRuns`: finite runs of ticks (`Run`),
  with the properties that need more than one tick: the gauge always holds
  the most recent successful reading, a failed read forces an open on the
  next tick, reading lines are at least 30 minutes apart, the first reading
  is always logged, a device that never opens produces one error line.
- `wrappers.dfy`, module `Wrappers`: the `Option` type used for Python's
  `None`-or-value variables.

Modelling decisions:

- Times and temperatures are `real`. `LOG_INFO_DELAY` is 1800 seconds and
  `lastLogTime` starts at -1800, so a first reading at any time `t >= 0` is
  logged.
- A sensor remembers the adapter it was built on. The invariant kept by every
  tick is that a held sensor always comes with that adapter. The converse
  does not hold: when the adapter opens but the sensor cannot be built, the
  adapter stays in `uart` without a sensor, and the next successful open
  replaces it without closing it (`PartialOpenLeaksAdapter`). When opening
  the adapter itself fails, the previous `uart` value is left as it was.
- Each tick hands at most one record to the logger: the open failure, the
  reading line, or the read failure. Records are `(module, level, message)`.
  The messages are the three the loop logs, one constructor each:
  `Failed to initialise UART.`, `Failed to read temperature.`, and the
  reading line, kept as the temperature it renders (`ReadingLine(celsius)`)
  instead of the formatted `Read +X.XX C` text. Since records at INFO always
  pass the filter, this makes no difference to what is shown.
- The gauge is `Option<real>`; `None` means it was never set.
- The failure-log policy is the code's: a failed record is shown exactly when
  its identity differs from the last record above INFO that reached the
  filter. There is no timeout after which a repeated failure is shown again,
  and the filter keeps one identity for all records, not one per kind of
  event.

## Model

| member | source | states |
|---|---|---|
| `Logging.Decide` | digitemp_exporter.py:30-37 | a record at INFO or below passes and leaves the memory unchanged; above INFO it passes iff its identity differs from the remembered one; a rejected record leaves the memory unchanged; after any record above INFO the memory holds that record's identity |
| `Logging.DuplicateFilter.constructor` | digitemp_exporter.py:26-28 | a new filter remembers nothing |
| `Logging.DuplicateFilter.Filter` | digitemp_exporter.py:30-37 | the same decision as `Decide`, made on the object: the result and the new `lastLog` |
| `Logging.FilterRun` | digitemp_exporter.py:30-37 | the logger applying the filter to a stream of records one after another; what is shown is a selection of the records fed in |
| `Logging.RememberedIsLatestAboveInfo` | digitemp_exporter.py:33-36 | after a stream of records the filter remembers the identity of the latest record above INFO in it, whether that one was shown or not |
| `Logging.FilterRunDeduplicates` | digitemp_exporter.py:31-37 | the records the filter lets through are exactly those of the reference definition `Deduplicated` |
| `Logging.InfoRecordsAlwaysShown` | digitemp_exporter.py:31-32 | a record at INFO or below is shown wherever it occurs in the stream |
| `Logging.RepeatsCollapse` | digitemp_exporter.py:33-37 | k >= 1 identical records above INFO in a row produce exactly one line, or none if the filter already remembers that identity, and leave it remembered |
| `Sampling.Initial` | digitemp_exporter.py:56-63 | the loop starts without adapter, sensor or gauge value, satisfying the invariant, with every time `t >= 0` due for a reading line |
| `Sampling.ShouldLogInfo` | digitemp_exporter.py:63-66 | a reading is due exactly when 30 minutes or more have passed since the last reading line; with `lastLogTime` at its initial value every `t >= 0` is due |
| `Sampling.SleepTime` | digitemp_exporter.py:91 | the sleep is never negative; it is `delay - elapsed` when the work took less than `delay` and 0 otherwise, so the next tick starts `max(delay, elapsed)` after this one |
| `Sampling.OpenStep` | digitemp_exporter.py:69-74 | with a sensor nothing is opened or logged; without one, a sensor results exactly when both stages open, the failure is logged otherwise, a new sensor comes with the new adapter, and a failed adapter leaves `uart` as it was |
| `Sampling.Step` | digitemp_exporter.py:64-92 | one tick of the loop as a function of the state before it and its inputs; at most one record goes to the logger per tick (the other properties are the `Step` lemmas below) |
| `Sampling.StepKeepsInv` | digitemp_exporter.py:69-89 | every tick keeps the invariant: a held sensor comes with the adapter it was built on, so `sensor != None` implies `uart != None` |
| `Sampling.StepOpensAndReads` | digitemp_exporter.py:69-76 | an open is attempted iff there is no sensor; a read is attempted iff there is a sensor after the open step; the reading is the read's value iff a read is attempted and succeeds; without a failed read the adapter is kept or replaced by the newly opened one; after a successful read the sensor read through (held or just built) is kept |
| `Sampling.StepGauge` | digitemp_exporter.py:76-85 | only a successful read writes the gauge, with its value; a tick whose open or read fails leaves the gauge unchanged |
| `Sampling.StepReadingLine` | digitemp_exporter.py:66-82 | the reading line is shown iff a read succeeded and `t - lastLogTime >= LOG_INFO_DELAY`; `lastLogTime` changes only then, and becomes `t`; a good read issues the line carrying the temperature just read when it is due, and no record otherwise |
| `Sampling.StepOpenFailure` | digitemp_exporter.py:69-74 | when the open fails, the failure is logged, no read is attempted, no sensor is held and nothing is closed |
| `Sampling.StepReadFailure` | digitemp_exporter.py:83-89 | after a failed read the failure is logged, the adapter the failed sensor was built on (the held one, or the one just opened) is closed, and both `uart` and `sensor` are `None` |
| `Sampling.StepClosesOnlyOnReadFailure` | digitemp_exporter.py:86-89 | an adapter is closed only by a tick whose read failed |
| `Sampling.StepLogsThroughFilter` | digitemp_exporter.py:69-91 | the lines shown and the filter's new memory are what the duplicate filter makes of it; the sleep is `SleepTime(delay, elapsed)` |
| `Sampling.Exporter.constructor` | digitemp_exporter.py:56-63 | no adapter, no sensor, gauge never set, `lastLogTime = -LOG_INFO_DELAY`, a fresh filter |
| `Sampling.Exporter.Log` | digitemp_exporter.py:74-85 | one record goes to the logger and the filter decides whether it is shown |
| `Sampling.Exporter.Tick` | digitemp_exporter.py:64-92 | the loop body, run on the object, leaves exactly the state and effects of `Step` and keeps the invariant |
| `SamplingRuns.Run` | digitemp_exporter.py:64-92 | the first n ticks of the loop, one effect record per tick |
| `SamplingRuns.RunKeepsInv` | digitemp_exporter.py:69-89 | every run from a state satisfying the invariant ends in one, so `sensor != None` implies `uart != None` after any number of ticks |
| `SamplingRuns.GaugeIsLastReading` | digitemp_exporter.py:76-85 | after any run the gauge equals the most recent successful reading of the run, or its value before the run if there was none |
| `SamplingRuns.GaugeFrozenWhileReadsFail` | digitemp_exporter.py:77-85 | while every read fails the gauge stays at its value from before |
| `SamplingRuns.FailedReadReopensNextTick` | digitemp_exporter.py:69-89 | after a tick whose read failed, no adapter is held and the next tick attempts an open |
| `SamplingRuns.LastLogTimeIsLastReadingLine` | digitemp_exporter.py:80-82 | `lastLogTime` is always the start time of the latest tick that showed a reading line |
| `SamplingRuns.ReadingLinesSpaced` | digitemp_exporter.py:66-82 | with a clock that never goes back, any two reading lines are at least 30 minutes apart |
| `SamplingRuns.ReadingLineRecurs` | digitemp_exporter.py:66-82 | once 30 minutes have passed since the latest reading line of the run, a successful read logs a reading line again |
| `SamplingRuns.FirstReadingLogged` | digitemp_exporter.py:63-82 | from the initial state, the first successful read at a time `t >= 0` shows a reading line |
| `SamplingRuns.FailedOpenTick` | digitemp_exporter.py:69-74 | a tick without a sensor whose adapter does not open shows the open failure unless the filter remembers it, and leaves it remembered, the gauge unchanged and no sensor |
| `SamplingRuns.NeverOpensLogsOnce` | digitemp_exporter.py:69-74 | when the adapter never opens, after any k >= 1 ticks the gauge is unchanged and exactly one open-failure line has been shown (none if the filter already remembered it) |
| `SamplingRuns.NeverOpensNeverReads` | digitemp_exporter.py:69-76 | when the adapter never opens, no tick attempts a read |
| `SamplingRuns.PartialOpenLeaksAdapter` | digitemp_exporter.py:70-73 | when building the sensor fails, the new adapter is kept without a sensor and is not closed; the next successful open replaces it, still without closing it |
| `SamplingRuns.ReadingTick` | digitemp_exporter.py:76-79 | a tick whose open succeeds whenever one is attempted always reads, and the gauge follows the read's outcome |
| `SamplingRuns.FrozenDuringFailuresExample` | digitemp_exporter.py:76-89 | a read of 21.37, three failed reads, then 21.50: the gauge reads 21.37, 21.37, 21.37, 21.37, 21.50 |

## Left out

- Command-line parsing (`argument_parser`, lines 14-22 and 41): `delay` is a parameter of the model and the port and device path are not modelled.
- Logger, handler and formatter setup (lines 43-51) and the `logging.Filter` base class: only the filter's decision is modelled, not the logging library or the output format.
- The startup line logged at line 54: it is at INFO level, so it passes the filter and changes nothing in it.
- `start_http_server` and the Prometheus `Gauge` (lines 53, 58-61): foreign library code serving scrapes concurrently; the gauge is a plain field. A real gauge that was never set reads 0.0; the model says `None`.
- The drivers `UART_Adapter`, `TemperatureSensor` and `get_temperature` (lines 71-72, 78): their success or failure is an input of the tick.
- `uart.close()` (line 87) is assumed to succeed; an exception from it would end the loop, which the model does not capture.
- `time.perf_counter` and `time.sleep`: the tick's start time and the time its work took are inputs, and the sleep is an output. Floating-point rounding of times and temperatures is not modelled.
- The `+.2f` formatting of the reading line: the line carries the temperature value.
- The unbounded `while True` loop (line 64): the model covers one tick and every finite sequence of ticks.
- Counting the reading lines over a duration (`floor(T / 1800) + 1` for frequent reads): the model proves the 30-minute spacing of reading lines and that the first reading is logged, not the exact count.
