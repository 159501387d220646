/**
 * Finite runs of the sampling loop: the loop's state after a sequence of
 * ticks, and what the sequence of ticks did. The loop itself never ends;
 * every property below is about its first n ticks.
 */
module SamplingRuns {
  import opened Wrappers
  import opened Logging
  import opened Sampling

  /** The state after a run of ticks, and the effects of each tick in order. */
  datatype Trace = Trace(final: LoopState, effects: seq<Effects>)

  /** Runs the ticks `ins` from `s`, one `step` after another. */
  function RunWith(step: (LoopState, TickInput) -> TickResult, s: LoopState, ins: seq<TickInput>): (tr: Trace)
    ensures |tr.effects| == |ins|
    decreases |ins|
  {
    if ins == [] then Trace(s, [])
    else
      var p := RunWith(step, s, ins[..|ins| - 1]);
      var r := step(p.final, ins[|ins| - 1]);
      Trace(r.next, p.effects + [r.effects])
  }

  /** One tick of the loop with the configured `delay`. */
  function StepWithDelay(delay: real): (LoopState, TickInput) -> TickResult {
    (st: LoopState, i: TickInput) => Step(st, delay, i)
  }

  /** The first |ins| ticks of the loop, started in `s`. */
  function Run(s: LoopState, delay: real, ins: seq<TickInput>): (tr: Trace)
    ensures |tr.effects| == |ins|
  {
    RunWith(StepWithDelay(delay), s, ins)
  }

  /**
   * Once 30 minutes have passed since the latest reading line, the next
   * successful read logs a reading line again.
   */
  lemma ReadingLineRecurs(s: LoopState, delay: real, ins: seq<TickInput>, k: nat)
    requires k < |ins|
    requires Run(s, delay, ins).effects[k].reading.Some?
    requires ins[k].t - LastReadingLineTime(s.lastLogTime, ins[..k], Run(s, delay, ins[..k]).effects) >= LOG_INFO_DELAY
    ensures ShowsReading(Run(s, delay, ins).effects[k].shown)
  {
    RunTickAt(s, delay, ins, k);
    LastLogTimeIsLastReadingLine(s, delay, ins[..k]);
    StepReadingLine(Run(s, delay, ins[..k]).final, delay, ins[k]);
  }

  /** The effects of the first k ticks of a run are the effects of the run of the first k inputs. */
  lemma {:induction false} RunWithPrefix(step: (LoopState, TickInput) -> TickResult, s: LoopState, ins: seq<TickInput>, k: nat)
    requires k <= |ins|
    ensures RunWith(step, s, ins[..k]).effects == RunWith(step, s, ins).effects[..k]
    decreases |ins|
  {
    if k < |ins| {
      var n := |ins| - 1;
      var p := RunWith(step, s, ins[..n]);
      var e := step(p.final, ins[n]).effects;
      RunWithPrefix(step, s, ins[..n], k);
      assert ins[..n][..k] == ins[..k];
      assert RunWith(step, s, ins).effects == p.effects + [e];
      assert (p.effects + [e])[..k] == p.effects[..k];
    } else {
      assert ins[..k] == ins;
    }
  }

  /** Tick k of a run starts in the state the first k ticks left behind. */
  lemma RunWithTickAt(step: (LoopState, TickInput) -> TickResult, s: LoopState, ins: seq<TickInput>, k: nat)
    requires k < |ins|
    ensures RunWith(step, s, ins).effects[k] == step(RunWith(step, s, ins[..k]).final, ins[k]).effects
    ensures RunWith(step, s, ins[..k + 1]).final == step(RunWith(step, s, ins[..k]).final, ins[k]).next
  {
    var q := ins[..k + 1];
    assert q[..k] == ins[..k] && q[k] == ins[k];
    var p := RunWith(step, s, ins[..k]);
    var r := step(p.final, ins[k]);
    assert RunWith(step, s, q) == Trace(r.next, p.effects + [r.effects]);
    RunWithPrefix(step, s, ins, k + 1);
    assert RunWith(step, s, ins).effects[k] == RunWith(step, s, ins).effects[..k + 1][k];
  }

  lemma RunPrefix(s: LoopState, delay: real, ins: seq<TickInput>, k: nat)
    requires k <= |ins|
    ensures Run(s, delay, ins[..k]).effects == Run(s, delay, ins).effects[..k]
  {
    RunWithPrefix(StepWithDelay(delay), s, ins, k);
  }

  lemma RunTickAt(s: LoopState, delay: real, ins: seq<TickInput>, k: nat)
    requires k < |ins|
    ensures Run(s, delay, ins).effects[k] == Step(Run(s, delay, ins[..k]).final, delay, ins[k]).effects
    ensures Run(s, delay, ins[..k + 1]).final == Step(Run(s, delay, ins[..k]).final, delay, ins[k]).next
  {
    RunWithTickAt(StepWithDelay(delay), s, ins, k);
  }

  /** The last tick of a non-empty run. */
  lemma RunLast(s: LoopState, delay: real, ins: seq<TickInput>)
    requires |ins| > 0
    ensures var p := Run(s, delay, ins[..|ins| - 1]);
            var r := Step(p.final, delay, ins[|ins| - 1]);
            Run(s, delay, ins) == Trace(r.next, p.effects + [r.effects])
  {
  }

  /** Every run keeps the invariant: a sensor is only held with the adapter it was built on. */
  lemma {:induction false} RunKeepsInv(s: LoopState, delay: real, ins: seq<TickInput>)
    requires Inv(s)
    ensures Inv(Run(s, delay, ins).final)
    ensures Run(s, delay, ins).final.sensor.Some? ==> Run(s, delay, ins).final.uart.Some?
    decreases |ins|
  {
    if ins != [] {
      RunKeepsInv(s, delay, ins[..|ins| - 1]);
      StepKeepsInv(Run(s, delay, ins[..|ins| - 1]).final, delay, ins[|ins| - 1]);
    }
  }

  /** Reference definition: the most recent successful reading in `es`, or `g` if none. */
  function LastReading(g: Option<real>, es: seq<Effects>): Option<real>
    decreases |es|
  {
    if es == [] then g
    else if es[|es| - 1].reading.Some? then es[|es| - 1].reading
    else LastReading(g, es[..|es| - 1])
  }

  /** After any run, the gauge holds the most recent successful reading; failed ticks do not move it. */
  lemma {:induction false} GaugeIsLastReading(s: LoopState, delay: real, ins: seq<TickInput>)
    ensures Run(s, delay, ins).final.gauge == LastReading(s.gauge, Run(s, delay, ins).effects)
    decreases |ins|
  {
    if ins != [] {
      var n := |ins| - 1;
      GaugeIsLastReading(s, delay, ins[..n]);
      StepGauge(Run(s, delay, ins[..n]).final, delay, ins[n]);
      var es := Run(s, delay, ins).effects;
      assert es[..n] == Run(s, delay, ins[..n]).effects;
    }
  }

  /** While every read fails, the gauge stays frozen at its value before the failures. */
  lemma GaugeFrozenWhileReadsFail(s: LoopState, delay: real, ins: seq<TickInput>)
    requires forall k :: 0 <= k < |ins| ==> ins[k].read.ReadFailed?
    ensures Run(s, delay, ins).final.gauge == s.gauge
  {
    var es := Run(s, delay, ins).effects;
    forall k | 0 <= k < |es|
      ensures es[k].reading.None?
    {
      RunTickAt(s, delay, ins, k);
      StepOpensAndReads(Run(s, delay, ins[..k]).final, delay, ins[k]);
    }
    GaugeIsLastReading(s, delay, ins);
    NoReadingKeeps(s.gauge, es);
  }

  /** No successful reading in `es`: the last reading is the one before them. */
  lemma {:induction false} NoReadingKeeps(g: Option<real>, es: seq<Effects>)
    requires forall k :: 0 <= k < |es| ==> es[k].reading.None?
    ensures LastReading(g, es) == g
    decreases |es|
  {
    if es != [] {
      NoReadingKeeps(g, es[..|es| - 1]);
    }
  }

  /** After a failed read the adapter is gone, so the very next tick opens again. */
  lemma FailedReadReopensNextTick(s: LoopState, delay: real, ins: seq<TickInput>, k: nat)
    requires k + 1 < |ins|
    requires Run(s, delay, ins).effects[k].readAttempted && ins[k].read.ReadFailed?
    ensures Run(s, delay, ins[..k + 1]).final.uart.None?
    ensures Run(s, delay, ins).effects[k + 1].openAttempted
  {
    RunTickAt(s, delay, ins, k);
    RunTickAt(s, delay, ins, k + 1);
    StepReadFailure(Run(s, delay, ins[..k]).final, delay, ins[k]);
    StepOpensAndReads(Run(s, delay, ins[..k + 1]).final, delay, ins[k + 1]);
  }

  /** Reference definition: the start time of the latest tick in the run that logged a reading, or `t0`. */
  function LastReadingLineTime(t0: real, ins: seq<TickInput>, es: seq<Effects>): real
    requires |ins| == |es|
    decreases |ins|
  {
    if ins == [] then t0
    else if ShowsReading(es[|es| - 1].shown) then ins[|ins| - 1].t
    else LastReadingLineTime(t0, ins[..|ins| - 1], es[..|es| - 1])
  }

  /** `lastLogTime` is always the start time of the latest tick that logged a reading. */
  lemma {:induction false} LastLogTimeIsLastReadingLine(s: LoopState, delay: real, ins: seq<TickInput>)
    ensures Run(s, delay, ins).final.lastLogTime == LastReadingLineTime(s.lastLogTime, ins, Run(s, delay, ins).effects)
    decreases |ins|
  {
    if ins != [] {
      var n := |ins| - 1;
      LastLogTimeIsLastReadingLine(s, delay, ins[..n]);
      StepReadingLine(Run(s, delay, ins[..n]).final, delay, ins[n]);
      var es := Run(s, delay, ins).effects;
      assert es[..n] == Run(s, delay, ins[..n]).effects;
    }
  }

  /** Clock readings that never go backwards, as a monotonic counter gives. */
  predicate Monotonic(ins: seq<TickInput>) {
    forall j, k :: 0 <= j <= k < |ins| ==> ins[j].t <= ins[k].t
  }

  lemma {:induction false} LastReadingLineNoEarlier(t0: real, ins: seq<TickInput>, es: seq<Effects>, j: nat)
    requires |ins| == |es| && Monotonic(ins)
    requires j < |ins| && ShowsReading(es[j].shown)
    ensures LastReadingLineTime(t0, ins, es) >= ins[j].t
    decreases |ins|
  {
    var n := |ins| - 1;
    if j < n && !ShowsReading(es[n].shown) {
      assert es[..n][j] == es[j];
      LastReadingLineNoEarlier(t0, ins[..n], es[..n], j);
    }
  }

  /** With a monotonic clock, two reading lines in the log are at least 30 minutes apart. */
  lemma ReadingLinesSpaced(s: LoopState, delay: real, ins: seq<TickInput>, j: nat, k: nat)
    requires Monotonic(ins)
    requires j < k < |ins|
    requires ShowsReading(Run(s, delay, ins).effects[j].shown) && ShowsReading(Run(s, delay, ins).effects[k].shown)
    ensures ins[k].t - ins[j].t >= LOG_INFO_DELAY
  {
    var es := Run(s, delay, ins).effects;
    RunTickAt(s, delay, ins, k);
    var p := Run(s, delay, ins[..k]);
    RunPrefix(s, delay, ins, k);
    LastLogTimeIsLastReadingLine(s, delay, ins[..k]);
    StepReadingLine(p.final, delay, ins[k]);
    assert p.effects[j] == es[j];
    assert Monotonic(ins[..k]);
    LastReadingLineNoEarlier(s.lastLogTime, ins[..k], p.effects, j);
  }

  /**
   * Starting from the initial state, the first successful read at a
   * non-negative time is logged: `lastLogTime` starts 30 minutes in the past.
   */
  lemma FirstReadingLogged(delay: real, ins: seq<TickInput>, k: nat)
    requires k < |ins| && ins[k].t >= 0.0
    requires Run(Initial(), delay, ins).effects[k].reading.Some?
    requires forall j :: 0 <= j < k ==> Run(Initial(), delay, ins).effects[j].reading.None?
    ensures ShowsReading(Run(Initial(), delay, ins).effects[k].shown)
  {
    var es := Run(Initial(), delay, ins).effects;
    RunTickAt(Initial(), delay, ins, k);
    RunPrefix(Initial(), delay, ins, k);
    var p := Run(Initial(), delay, ins[..k]);
    LastLogTimeIsLastReadingLine(Initial(), delay, ins[..k]);
    forall j | 0 <= j < k
      ensures !ShowsReading(p.effects[j].shown)
    {
      RunTickAt(Initial(), delay, ins, j);
      StepReadingLine(Run(Initial(), delay, ins[..j]).final, delay, ins[j]);
    }
    NoReadingNoLine(Initial().lastLogTime, ins[..k], p.effects);
    StepReadingLine(p.final, delay, ins[k]);
  }

  /** A tick that read nothing logs no reading line, so the last reading-line time stays at its start. */
  lemma {:induction false} NoReadingNoLine(t0: real, ins: seq<TickInput>, es: seq<Effects>)
    requires |ins| == |es|
    requires forall j :: 0 <= j < |es| ==> !ShowsReading(es[j].shown)
    ensures LastReadingLineTime(t0, ins, es) == t0
    decreases |ins|
  {
    if ins != [] {
      NoReadingNoLine(t0, ins[..|ins| - 1], es[..|es| - 1]);
    }
  }

  /** All records shown over a run, in order. */
  function ShownLines(es: seq<Effects>): seq<LogRecord>
    decreases |es|
  {
    if es == [] then [] else ShownLines(es[..|es| - 1]) + es[|es| - 1].shown
  }

  /**
   * A device that never opens: every tick tries to open and fails, nothing is
   * read, the gauge never moves, and the log shows exactly one failure line
   * (none if the filter already remembers that failure).
   */
  lemma {:induction false} NeverOpensLogsOnce(s: LoopState, delay: real, ins: seq<TickInput>)
    requires s.sensor.None?
    requires |ins| >= 1 && forall k :: 0 <= k < |ins| ==> ins[k].open.AdapterFailed?
    ensures Run(s, delay, ins).final.sensor.None?
    ensures Run(s, delay, ins).final.gauge == s.gauge
    ensures ShownLines(Run(s, delay, ins).effects) ==
              if s.lastLog == Some(KeyOf(InitFailedRecord)) then [] else [InitFailedRecord]
    ensures Run(s, delay, ins).final.lastLog == Some(KeyOf(InitFailedRecord))
    decreases |ins|
  {
    var n := |ins| - 1;
    var p := Run(s, delay, ins[..n]);
    var r := Step(p.final, delay, ins[n]);
    RunLast(s, delay, ins);
    ShownLinesLast(p.effects, r.effects);
    if n == 0 {
      assert ins[..0] == [];
      FailedOpenTick(s, delay, ins[0]);
    } else {
      NeverOpensLogsOnce(s, delay, ins[..n]);
      FailedOpenTick(p.final, delay, ins[n]);
    }
  }

  lemma ShownLinesLast(es: seq<Effects>, e: Effects)
    ensures ShownLines(es + [e]) == ShownLines(es) + e.shown
  {
  }

  /** A device that never opens is never read. */
  lemma NeverOpensNeverReads(s: LoopState, delay: real, ins: seq<TickInput>, k: nat)
    requires s.sensor.None?
    requires forall j :: 0 <= j < |ins| ==> ins[j].open.AdapterFailed?
    requires k < |ins|
    ensures !Run(s, delay, ins).effects[k].readAttempted
  {
    RunTickAt(s, delay, ins, k);
    if k == 0 {
      assert ins[..0] == [];
    } else {
      NeverOpensLogsOnce(s, delay, ins[..k]);
    }
    FailedOpenTick(Run(s, delay, ins[..k]).final, delay, ins[k]);
  }

  /** One tick in which the adapter does not open, from a state without a sensor. */
  lemma FailedOpenTick(s: LoopState, delay: real, i: TickInput)
    requires s.sensor.None? && i.open.AdapterFailed?
    ensures Step(s, delay, i).next.sensor.None?
    ensures Step(s, delay, i).next.gauge == s.gauge
    ensures !Step(s, delay, i).effects.readAttempted
    ensures Step(s, delay, i).effects.shown == if s.lastLog == Some(KeyOf(InitFailedRecord)) then [] else [InitFailedRecord]
    ensures Step(s, delay, i).next.lastLog == Some(KeyOf(InitFailedRecord))
  {
  }

  /**
   * A sensor whose construction fails leaves the new adapter behind without a
   * sensor; the next successful open replaces it without closing it.
   */
  lemma PartialOpenLeaksAdapter(s: LoopState, delay: real, i1: TickInput, i2: TickInput, h: Handle)
    requires s.sensor.None? && i1.open == SensorFailed(h)
    requires i2.open.Opened? && i2.open.uart != h
    ensures Step(s, delay, i1).next.uart == Some(h) && Step(s, delay, i1).next.sensor.None?
    ensures Step(s, delay, i1).effects.closed.None?
    ensures Step(Step(s, delay, i1).next, delay, i2).effects.closed != Some(h)
    ensures Step(Step(s, delay, i1).next, delay, i2).next.uart != Some(h)
  {
  }

  /**
   * A reading of 21.37 on tick 1, three failed reads, then 21.50 on tick 5:
   * the gauge reads 21.37 through the failures and then 21.50.
   */
  lemma FrozenDuringFailuresExample(delay: real)
    ensures var ins := FailureExampleInputs();
            Run(Initial(), delay, ins[..1]).final.gauge == Some(21.37) &&
            Run(Initial(), delay, ins[..2]).final.gauge == Some(21.37) &&
            Run(Initial(), delay, ins[..3]).final.gauge == Some(21.37) &&
            Run(Initial(), delay, ins[..4]).final.gauge == Some(21.37) &&
            Run(Initial(), delay, ins).final.gauge == Some(21.50)
  {
    var ins := FailureExampleInputs();
    assert ins[..0] == [];
    assert ins[..5] == ins;
    var g0 := Run(Initial(), delay, ins[..0]).final;
    RunTickAt(Initial(), delay, ins, 0);
    ReadingTick(g0, delay, ins[0]);
    var g1 := Run(Initial(), delay, ins[..1]).final;
    RunTickAt(Initial(), delay, ins, 1);
    ReadingTick(g1, delay, ins[1]);
    var g2 := Run(Initial(), delay, ins[..2]).final;
    RunTickAt(Initial(), delay, ins, 2);
    ReadingTick(g2, delay, ins[2]);
    var g3 := Run(Initial(), delay, ins[..3]).final;
    RunTickAt(Initial(), delay, ins, 3);
    ReadingTick(g3, delay, ins[3]);
    var g4 := Run(Initial(), delay, ins[..4]).final;
    RunTickAt(Initial(), delay, ins, 4);
    ReadingTick(g4, delay, ins[4]);
  }

  /** A tick whose open succeeds whenever attempted always reads; the gauge follows the read's outcome. */
  lemma ReadingTick(s: LoopState, delay: real, i: TickInput)
    requires i.open.Opened?
    ensures Step(s, delay, i).effects.readAttempted
    ensures Step(s, delay, i).next.gauge == if i.read.ReadOk? then Some(i.read.celsius) else s.gauge
  {
    StepOpensAndReads(s, delay, i);
    StepGauge(s, delay, i);
  }

  /** Five ticks, 5 seconds apart: a good read, three failed reads, a good read. */
  function FailureExampleInputs(): seq<TickInput> {
    [TickInput(0.0, Opened(1), ReadOk(21.37), 0.0),
     TickInput(5.0, Opened(2), ReadFailed, 0.0),
     TickInput(10.0, Opened(3), ReadFailed, 0.0),
     TickInput(15.0, Opened(4), ReadFailed, 0.0),
     TickInput(20.0, Opened(5), ReadOk(21.50), 0.0)]
  }
}
