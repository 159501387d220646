/**
 * One tick of the exporter's sampling loop: (re)open the serial adapter and
 * sensor when there is no sensor, read the temperature, publish it on the
 * gauge, log the reading at most once every 30 minutes, tear the connection
 * down after a failed read, and sleep for the rest of the sampling delay.
 *
 * The hardware drivers and the clock are inputs of the tick: the outcome of
 * opening, the outcome of reading, the tick's start time and the time the
 * tick's work took.
 */
module Sampling {
  import opened Wrappers
  import opened Logging

  /** Minimum time between two reading lines in the log, in seconds. */
  const LOG_INFO_DELAY: real := 30.0 * 60.0

  /** The logger's module name, part of every record's identity. */
  const MODULE: string := "digitemp_exporter"

  /** An opened serial (UART) adapter, told apart by an identifier. */
  type Handle = nat

  /** A temperature sensor, built on the adapter it talks through. */
  datatype Sensor = Sensor(port: Handle)

  /**
   * How opening went: the adapter could not be opened; the adapter opened
   * but building the sensor on it failed; or both succeeded.
   */
  datatype OpenOutcome = AdapterFailed | SensorFailed(uart: Handle) | Opened(uart: Handle)

  datatype ReadOutcome = ReadOk(celsius: real) | ReadFailed

  /**
   * The outside world during one tick: the start time `t`, the outcome of an
   * open (used only if one is attempted), the outcome of a read (used only if
   * one is attempted) and the time the tick's work took.
   */
  datatype TickInput = TickInput(t: real, open: OpenOutcome, read: ReadOutcome, elapsed: real)

  /** The loop's variables, plus the memory of the logger's duplicate filter. */
  datatype LoopState = LoopState(
    uart: Option<Handle>,
    sensor: Option<Sensor>,
    lastLogTime: real,
    gauge: Option<real>,
    lastLog: Option<Key>)

  /** What a tick did, as seen from outside. */
  datatype Effects = Effects(
    openAttempted: bool,
    readAttempted: bool,
    reading: Option<real>,      // the temperature read, when a read succeeded
    closed: Option<Handle>,     // the adapter closed by the reset, if any
    issued: seq<LogRecord>,     // records handed to the logger
    shown: seq<LogRecord>,      // records that got through the duplicate filter
    sleep: real)

  datatype TickResult = TickResult(next: LoopState, effects: Effects)

  /** A sensor is only ever held together with the adapter it was built on. */
  predicate Inv(s: LoopState) {
    s.sensor.Some? ==> s.uart == Some(s.sensor.value.port)
  }

  /** The state before the first tick; `lastLogTime` is set so that the first reading is logged. */
  function Initial(): (st: LoopState)
    ensures Inv(st) && st.sensor.None? && st.gauge.None?
    ensures forall t: real :: t >= 0.0 ==> ShouldLogInfo(t, st.lastLogTime)
  {
    LoopState(None, None, -LOG_INFO_DELAY, None, None)
  }

  const InitFailedRecord: LogRecord := LogRecord(MODULE, ERROR, InitFailedText)
  const ReadFailedRecord: LogRecord := LogRecord(MODULE, ERROR, ReadFailedText)

  function ReadingRecord(celsius: real): LogRecord {
    LogRecord(MODULE, INFO, ReadingLine(celsius))
  }

  /** Whether the stream of records shows a reading line. */
  predicate ShowsReading(rs: seq<LogRecord>) {
    exists rec :: rec in rs && rec.msg.ReadingLine?
  }

  /** Whether a reading taken at time `t` is due to be logged. */
  function ShouldLogInfo(t: real, lastLogTime: real): (due: bool)
    // Due exactly when 30 minutes have passed since the last reading line.
    ensures due <==> t >= lastLogTime + LOG_INFO_DELAY
    ensures lastLogTime == -LOG_INFO_DELAY && t >= 0.0 ==> due
  {
    t - lastLogTime >= LOG_INFO_DELAY
  }

  /** How long to sleep after a tick whose work took `elapsed`, given the sampling `delay`. */
  function SleepTime(delay: real, elapsed: real): (r: real)
    ensures r >= 0.0
    // The next tick never starts earlier than `delay` after this one ...
    ensures elapsed + r >= delay
    // ... and exactly `delay` after it when the work fit in the delay ...
    ensures elapsed < delay ==> elapsed + r == delay
    // ... otherwise at once.
    ensures elapsed >= delay ==> r == 0.0
  {
    if delay - elapsed > 0.0 then delay - elapsed else 0.0
  }

  /** Adapter, sensor and records issued after the open step of a tick. */
  datatype Opening = Opening(uart: Option<Handle>, sensor: Option<Sensor>, issued: seq<LogRecord>)

  /** The open step: attempted only when there is no sensor. */
  function OpenStep(uart: Option<Handle>, sensor: Option<Sensor>, open: OpenOutcome): (o: Opening)
    // With a sensor nothing is opened and nothing logged.
    ensures sensor.Some? ==> o == Opening(uart, sensor, [])
    // Without one, a sensor results exactly when both stages open, and the failure is logged otherwise.
    ensures sensor.None? ==> (o.sensor.Some? <==> open.Opened?) && (o.issued == [] <==> open.Opened?)
    // A new sensor comes with the new adapter; a failed adapter leaves `uart` as it was.
    ensures sensor.None? && open.Opened? ==> o.uart == Some(o.sensor.value.port)
    ensures sensor.None? && open.AdapterFailed? ==> o.uart == uart
  {
    if sensor.Some? then Opening(uart, sensor, [])
    else match open
      case AdapterFailed => Opening(uart, None, [InitFailedRecord])
      case SensorFailed(h) => Opening(Some(h), None, [InitFailedRecord])
      case Opened(h) => Opening(Some(h), Some(Sensor(h)), [])
  }

  /** One tick of the sampling loop, as a function of the state before it and its inputs. */
  function Step(s: LoopState, delay: real, i: TickInput): (r: TickResult)
    // At most one record goes to the logger in a tick.
    ensures |r.effects.issued| <= 1
  {
    var logInfo := ShouldLogInfo(i.t, s.lastLogTime);
    var o := OpenStep(s.uart, s.sensor, i.open);
    var uart, sensor, openLog := o.uart, o.sensor, o.issued;
    var readAttempted := sensor.Some?;
    var reading := if readAttempted && i.read.ReadOk? then Some(i.read.celsius) else None;
    var reset := readAttempted && i.read.ReadFailed?;
    var infoDue := reading.Some? && logInfo;
    // At most one record goes to the logger in a tick; the duplicate filter decides whether it is shown.
    var issued :=
      if infoDue then [ReadingRecord(reading.value)]
      else if reset then [ReadFailedRecord]
      else openLog;
    var v := if issued == [] then Verdict(false, s.lastLog) else Decide(s.lastLog, issued[0]);
    TickResult(
      LoopState(
        if reset then None else uart,
        if reset then None else sensor,
        if infoDue then i.t else s.lastLogTime,
        if reading.Some? then reading else s.gauge,
        v.last),
      Effects(s.sensor.None?, readAttempted, reading, if reset then uart else None,
              issued, if v.pass then issued else [], SleepTime(delay, i.elapsed)))
  }

  /** Every tick keeps the invariant; in particular a sensor is never held without an adapter. */
  lemma StepKeepsInv(s: LoopState, delay: real, i: TickInput)
    requires Inv(s)
    ensures Inv(Step(s, delay, i).next)
    ensures Step(s, delay, i).next.sensor.Some? ==> Step(s, delay, i).next.uart.Some?
  {
  }

  /** An open is attempted exactly when there is no sensor, a read exactly when there is one after the open step. */
  lemma StepOpensAndReads(s: LoopState, delay: real, i: TickInput)
    ensures Step(s, delay, i).effects.openAttempted <==> s.sensor.None?
    ensures Step(s, delay, i).effects.readAttempted <==> s.sensor.Some? || i.open.Opened?
    ensures Step(s, delay, i).effects.reading ==
              if Step(s, delay, i).effects.readAttempted && i.read.ReadOk? then Some(i.read.celsius) else None
    // Without a failed read the adapter is kept, or replaced by a newly opened one.
    ensures !(Step(s, delay, i).effects.readAttempted && i.read.ReadFailed?) ==>
              Step(s, delay, i).next.uart ==
                if s.sensor.None? && !i.open.AdapterFailed? then Some(i.open.uart) else s.uart
    // After a successful read the sensor read through is kept: the held one, or the one just built.
    ensures Step(s, delay, i).effects.reading.Some? ==>
              Step(s, delay, i).next.sensor == if s.sensor.Some? then s.sensor else Some(Sensor(i.open.uart))
  {
  }

  /** Only a successful read writes the gauge; a tick whose open or read fails leaves it alone. */
  lemma StepGauge(s: LoopState, delay: real, i: TickInput)
    ensures Step(s, delay, i).effects.reading.Some? ==> Step(s, delay, i).next.gauge == Step(s, delay, i).effects.reading
    ensures Step(s, delay, i).effects.reading.None? ==> Step(s, delay, i).next.gauge == s.gauge
    ensures s.sensor.None? && !i.open.Opened? ==> Step(s, delay, i).next.gauge == s.gauge
    ensures i.read.ReadFailed? ==> Step(s, delay, i).next.gauge == s.gauge
  {
  }

  /**
   * The reading line is shown exactly when a read succeeded and one is due,
   * and the time of the last reading line moves only then, to the tick's start.
   */
  lemma StepReadingLine(s: LoopState, delay: real, i: TickInput)
    ensures ShowsReading(Step(s, delay, i).effects.shown) <==>
              Step(s, delay, i).effects.reading.Some? && ShouldLogInfo(i.t, s.lastLogTime)
    ensures Step(s, delay, i).next.lastLogTime ==
              if Step(s, delay, i).effects.reading.Some? && ShouldLogInfo(i.t, s.lastLogTime) then i.t else s.lastLogTime
    // A good read issues the line with the temperature just read when one is due, and nothing otherwise.
    ensures Step(s, delay, i).effects.reading.Some? ==>
              Step(s, delay, i).effects.issued ==
                if ShouldLogInfo(i.t, s.lastLogTime) then [ReadingRecord(i.read.celsius)] else []
  {
  }

  /** A failed open logs the failure, reads nothing and leaves no sensor behind. */
  lemma StepOpenFailure(s: LoopState, delay: real, i: TickInput)
    requires s.sensor.None? && !i.open.Opened?
    ensures !Step(s, delay, i).effects.readAttempted
    ensures Step(s, delay, i).effects.issued == [InitFailedRecord]
    ensures Step(s, delay, i).next.sensor.None?
    ensures Step(s, delay, i).effects.closed.None?
  {
  }

  /** A failed read logs the failure, closes the adapter and forgets both adapter and sensor. */
  lemma StepReadFailure(s: LoopState, delay: real, i: TickInput)
    requires Step(s, delay, i).effects.readAttempted && i.read.ReadFailed?
    ensures Step(s, delay, i).next.uart.None? && Step(s, delay, i).next.sensor.None?
    ensures Step(s, delay, i).effects.issued == [ReadFailedRecord]
    // The adapter closed is the one the failed sensor was built on.
    ensures Inv(s) ==> Step(s, delay, i).effects.closed == if s.sensor.Some? then s.uart else Some(i.open.uart)
    ensures Inv(s) ==> Step(s, delay, i).effects.closed.Some?
  {
  }

  /** An adapter is closed only after a failed read. */
  lemma StepClosesOnlyOnReadFailure(s: LoopState, delay: real, i: TickInput)
    requires Step(s, delay, i).effects.closed.Some?
    ensures Step(s, delay, i).effects.readAttempted && i.read.ReadFailed?
  {
  }

  /** The logger's duplicate filter decides which of the tick's records are shown. */
  lemma StepLogsThroughFilter(s: LoopState, delay: real, i: TickInput)
    ensures FilterRun(s.lastLog, Step(s, delay, i).effects.issued) ==
              Filtered(Step(s, delay, i).effects.shown, Step(s, delay, i).next.lastLog)
    ensures Step(s, delay, i).effects.sleep == SleepTime(delay, i.elapsed)
  {
  }

  /** The exporter's loop variables, with the logger's filter and the configured delay. */
  class Exporter {
    var uart: Option<Handle>
    var sensor: Option<Sensor>
    var lastLogTime: real
    var tempGauge: Option<real>
    const logFilter: DuplicateFilter
    const delay: real

    ghost function State(): LoopState
      reads this, logFilter
    {
      LoopState(uart, sensor, lastLogTime, tempGauge, logFilter.lastLog)
    }

    ghost predicate Valid()
      reads this, logFilter
    {
      Inv(State())
    }

    constructor (delay: real)
      ensures this.delay == delay && fresh(logFilter)
      ensures Valid() && State() == Initial()
    {
      this.delay := delay;
      logFilter := new DuplicateFilter();
      uart := None;
      sensor := None;
      tempGauge := None;
      lastLogTime := -LOG_INFO_DELAY;
    }

    /** Hands `record` to the logger; returns the records issued and shown by this call. */
    method Log(record: LogRecord) returns (issued: seq<LogRecord>, shown: seq<LogRecord>)
      modifies logFilter
      ensures issued == [record]
      ensures FilterRun(old(logFilter.lastLog), issued) == Filtered(shown, logFilter.lastLog)
    {
      var pass := logFilter.Filter(record);
      issued := [record];
      shown := if pass then [record] else [];
      assert issued[..0] == [];
    }

    method Tick(t: real, open: OpenOutcome, read: ReadOutcome, elapsed: real) returns (e: Effects)
      requires Valid()
      modifies this, logFilter
      ensures Valid()
      ensures State() == Step(old(State()), delay, TickInput(t, open, read, elapsed)).next
      ensures e == Step(old(State()), delay, TickInput(t, open, read, elapsed)).effects
    {
      ghost var r := Step(State(), delay, TickInput(t, open, read, elapsed));
      var shouldLogInfo := t - lastLogTime >= LOG_INFO_DELAY;
      var shouldReset := false;
      var openAttempted := sensor.None?;
      var readAttempted := false;
      var reading: Option<real> := None;
      var closed: Option<Handle> := None;
      var issued: seq<LogRecord> := [];
      var shown: seq<LogRecord> := [];

      if sensor.None? {
        match open {
          case AdapterFailed =>
            issued, shown := Log(InitFailedRecord);
          case SensorFailed(h) =>
            uart := Some(h);
            issued, shown := Log(InitFailedRecord);
          case Opened(h) =>
            uart := Some(h);
            sensor := Some(Sensor(h));
        }
      }
      assert Opening(uart, sensor, issued) == OpenStep(old(uart), old(sensor), open);

      if sensor.Some? {
        readAttempted := true;
        match read {
          case ReadOk(celsius) =>
            tempGauge := Some(celsius);
            reading := Some(celsius);
            if shouldLogInfo {
              issued, shown := Log(ReadingRecord(celsius));
              lastLogTime := t;
            }
          case ReadFailed =>
            shouldReset := true;
            issued, shown := Log(ReadFailedRecord);
        }
        if shouldReset {
          closed := uart;
          sensor := None;
          uart := None;
        }
      }

      var sleepTime := SleepTime(delay, elapsed);
      e := Effects(openAttempted, readAttempted, reading, closed, issued, shown, sleepTime);
      assert uart == r.next.uart && sensor == r.next.sensor;
      assert lastLogTime == r.next.lastLogTime && tempGauge == r.next.gauge;
      assert issued == r.effects.issued && shown == r.effects.shown && logFilter.lastLog == r.next.lastLog;
      assert e == r.effects;
      assert State() == r.next;
    }
  }
}
