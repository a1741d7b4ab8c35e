/**
 The enum-based revision (`src/lib.rs`): the closed `DebugReport` enum, the
 default timing profile, and `DebugLed::try_report` / `DebugLed::report`.
 Here `Binary` has the variable-width behaviour that `SmallBinary` has in the
 trait-based revision; `SameAsTraitRevision` proves the two agree.
 */
module Dispatcher {
  import opened Steps
  import Reports

  datatype DebugReport = Blink | Unary(count: u8) | Binary(value: u16)

  /** (rep, off, s_on, l_on) in milliseconds. */
  const DEFAULT_TIMINGS: (u32, u32, u32, u32) := (1000, 500, 500, 1000)

  /** The dispatcher: its timings and its `set_status` callback. The delay
      callback only shows up as the `Delay` steps it is asked to perform. */
  datatype DebugLed<E> = DebugLed(timings: (u32, u32, u32, u32), setStatus: Actuator<E>)

  /** The panic message of `report` when `try_report` fails. */
  const REPORT_FAILED: string := "Failed to report error using debug-led"

  /** `for _ in 0..count { short pulse }` */
  function CountedPulses(count: nat, t: Timings): seq<Step>
  {
    if count == 0 then [] else Pulse(t.shortOn, t.off) + CountedPulses(count - 1, t)
  }

  /** `while val > 0 { pulse for the low bit of val; val >>= 1; }`, where the
      low bit is `val & 1`, that is `val % 2`, and `val >>= 1` is `val / 2`. */
  function BitPulses(val: nat, t: Timings): seq<Step>
    decreases val
  {
    if val == 0 then []
    else Pulse(if val % 2 == 1 then t.shortOn else t.longOn, t.off) + BitPulses(val / 2, t)
  }

  /** The body of the `loop` of each arm of `try_report`. `Binary` starts
      again from `let mut val = value;` on every iteration. */
  function LoopBody(report: DebugReport, t: Timings): seq<Step>
  {
    match report
    case Blink => Pulse(t.shortOn, t.off)
    case Unary(count) => CountedPulses(count as nat, t) + [Delay(t.rep)]
    case Binary(value) =>
      (if value == 0 then Pulse(t.longOn, t.off) else BitPulses(value as nat, t)) + [Delay(t.rep)]
  }

  /** `try_report` observed over its first `k` loop iterations: it is still
      signalling, or it returned the first `set_status` error unchanged. It
      never returns `Ok`. */
  function TryReport<E>(led: DebugLed<E>, report: DebugReport, k: nat): (res: Signal<E>)
    ensures res.Running? <==> Succeeds(led.setStatus, 0, SetCount(Repeat(LoopBody(report, Unpack(led.timings)), k)))
    ensures res.Running? ==> res.trace == Repeat(LoopBody(report, Unpack(led.timings)), k)
    ensures res.Failed? ==> StopsBeforeSet(res.trace, Repeat(LoopBody(report, Unpack(led.timings)), k))
    ensures res.Failed? ==> Succeeds(led.setStatus, 0, SetCount(res.trace))
    ensures res.Failed? ==> led.setStatus(SetCount(res.trace)) == Some(res.error)
    ensures res.Running? ==> res.trace == Repeat(Train(Reports.Durations(TraitKind(report), Unpack(led.timings)), led.timings.1) + Reports.Gap(TraitKind(report), Unpack(led.timings)), k)
  {
    SameAsTraitRevision(report, Unpack(led.timings));
    Reports.CycleIsTrain(TraitKind(report), Unpack(led.timings));
    Loop(LoopBody(report, Unpack(led.timings)), led.setStatus, k)
  }

  /** How `report` ends within the first `k` iterations: still signalling, or a
      panic with the fixed message and the actuator's error (the `expect`). */
  datatype Fate<E> = Signalling(trace: seq<Step>) | Panicked(trace: seq<Step>, message: string, error: E)

  /** `report`: `try_report(..).expect(REPORT_FAILED)`. */
  function Report<E>(led: DebugLed<E>, report: DebugReport, k: nat): (f: Fate<E>)
    ensures f.Signalling? <==> TryReport(led, report, k).Running?
    ensures f.trace == TryReport(led, report, k).trace
    ensures f.Panicked? ==> f.message == REPORT_FAILED && led.setStatus(SetCount(f.trace)) == Some(f.error)
  {
    match TryReport(led, report, k)
    case Running(tr) => Signalling(tr)
    case Failed(tr, e) => Panicked(tr, REPORT_FAILED, e)
  }

  // ---------------------------------------------------------------------------
  // Relation to the trait-based revision.

  /** The kind of the trait-based revision that behaves like `report`. */
  function TraitKind(report: DebugReport): Reports.Report
  {
    match report
    case Blink => Reports.Blink
    case Unary(count) => Reports.Unary(count)
    case Binary(value) => Reports.SmallBinary(value)
  }

  lemma {:induction false} CountedIsUnary(n: nat, t: Timings)
    ensures CountedPulses(n, t) == Reports.UnaryPulses(n, t)
  {
    if n > 0 {
      CountedIsUnary(n - 1, t);
    }
  }

  lemma {:induction false} BitPulsesIsShiftOut(val: nat, t: Timings)
    ensures BitPulses(val, t) == Reports.ShiftOutPulses(val, t)
    decreases val
  {
    if val > 0 {
      BitPulsesIsShiftOut(val / 2, t);
    }
  }

  /** One loop iteration of the enum revision is one cycle of the trait
      revision: `Blink` pulses with no gap, `Unary` is the same, and enum
      `Binary(v)` is `SmallBinary(v)` once followed by `Delay(rep)`. */
  lemma SameAsTraitRevision(report: DebugReport, t: Timings)
    ensures LoopBody(report, t) == Reports.CycleSteps(TraitKind(report), t)
    ensures report.Binary? ==> LoopBody(report, t) == Reports.OnceSteps(Reports.SmallBinary(report.value), t) + [Delay(t.rep)]
  {
    match report
    case Blink =>
    case Unary(count) =>
      CountedIsUnary(count as nat, t);
    case Binary(value) =>
      BitPulsesIsShiftOut(value as nat, t);
  }

  /** Hence both revisions' `try_report` behave the same for every actuator. */
  lemma TryReportAgrees<E>(led: DebugLed<E>, report: DebugReport, k: nat)
    ensures TryReport(led, report, k) == Reports.TryReport(TraitKind(report), Unpack(led.timings), led.setStatus, k)
  {
    SameAsTraitRevision(report, Unpack(led.timings));
  }

  /** The default profile, read in the order (rep, off, s_on, l_on): a 500 ms
      short pulse, a 1000 ms long pulse, 500 ms off, 1000 ms between cycles. */
  lemma DefaultTimings()
    ensures Unpack(DEFAULT_TIMINGS) == Timings(rep := 1000, off := 500, shortOn := 500, longOn := 1000)
    ensures LoopBody(Blink, Unpack(DEFAULT_TIMINGS)) == [Set(true), Delay(500), Set(false), Delay(500)]
    ensures LoopBody(Binary(0), Unpack(DEFAULT_TIMINGS)) == [Set(true), Delay(1000), Set(false), Delay(500), Delay(1000)]
  {
  }
}
