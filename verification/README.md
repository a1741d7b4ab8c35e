# debug-led pulse encoder in Dafny

`debug-led` reports an error on a device with no screen by blinking one
output: a report kind is turned into a fixed sequence of `set_status(on)` calls
and `delay_ms(ms)` waits, once or in an endless loop. This project models that
engine as pure functions over step sequences and proves what the sequences
are, how they fail, and that an observer can read the reported value back.

- `steps.dfy` (module `Steps`): `u8`/`u16`/`u32`, the timing profile
  `(rep, off, s_on, l_on)`, `Step = Set(on) | Delay(ms)`, pulse trains and
  their reader, and the executor. The `set_status` callback is an oracle
  `nat -> Option<E>` giving the outcome of its n-th call. `Exec` performs steps
  and stops at the first failing call, which is what `?` does. `Loop` runs
  `loop { cycle }` for `k` iterations.
- `bits.dfy` (module `Bits`): `Pow2`, bit `i` of a value (`(v / 2^i) % 2`),
  `Width` (highest set bit + 1) and the least-significant-first `Decode`.
- `reports.dfy` (module `Reports`): the trait-based revision in
  `src/reports.rs` with `Blink`, `Unary(u8)`, `Binary(u16)` and
  `SmallBinary(u16)`, covering `try_report_once` and `try_report`. The
  `*Pulses` functions follow the source loops, using `val % 2` for `val & 1`
  and `val / 2` for `val >>= 1` on unsigned values. `Durations` describes the
  same pulses independently, using bit `i` of the value.
- `dispatcher.dfy` (module `Dispatcher`): the enum-based revision in
  `src/lib.rs`. It has `DebugReport`, `DEFAULT_TIMINGS`,
  `DebugLed::try_report` and `DebugLed::report`. In this revision `Binary`
  has variable width. It is modelled separately and proved equal to
  `SmallBinary` plus the `rep` gap.
- `reportable.dfy` (module `Reportable`): `unwrap_del`/`expect_del` for
  `Result`, `unwrap_del` for `Option`, and the `derr!` macro.

Each endless loop is observed over its first `k` iterations. A `Signal` or a
`Fate` is either still running after `k` iterations or has ended through a
failing `set_status`. Neither has a constructor for a normal return, because
the source loops never end normally. `Exit.Returned` is the adapters'
pass-through of an `Ok` or `Some` value, which never enters `report`. `Steps.LoopMoreIterations`
proves that a larger `k` never changes a failure. It only extends the trace.

A set bit gives a short (`s_on`) pulse and a clear bit a long (`l_on`) one,
as `if (val & 1) == 1 { s_on } else { l_on }` has it (src/reports.rs:72). In
`src/reports.rs` the actuator
error type is `()`. The model keeps it generic, which includes `()`.

## Model

| member | source | states |
|---|---|---|
| Steps.Unpack | src/lib.rs:83 | the timings tuple is read in the order (rep, off, s_on, l_on) |
| Steps.Exec | src/reports.rs:9-13 | steps run to the end exactly when every `set_status` call succeeds; otherwise emission stops right before the first failing call, every earlier call succeeded, and that call's error is returned unchanged |
| Steps.ReadTrain | src/reports.rs:9-12 | an observer who knows `off` reads exactly the on-durations back from a pulse train |
| Steps.TrainRead | src/reports.rs:9-12 | whatever the pulse reader accepts is the pulse train of the durations it read (the converse of ReadTrain) |
| Steps.ExecCyclesUnrolls | src/reports.rs:87-99 | looping over a cycle with a carried call count is the same as performing `k` copies of the cycle in a row |
| Steps.Loop | src/reports.rs:16-25 | the endless loop never ends normally: it is running exactly while every call has succeeded, with `k` copies of the cycle as trace; otherwise it returns the first error unchanged, after a proper prefix of that trace |
| Steps.RepeatCycleAt | src/reports.rs:133-152 | iteration `i` of the loop performs exactly the cycle, so every cycle is identical (the working copy is reset each time) |
| Steps.LoopMoreIterations | src/lib.rs:87-92 | observing the loop longer never changes a failure and only extends a running trace |
| Bits.BitOfHalf | src/reports.rs:75 | after `val >>= 1`, bit `i` of the working copy is bit `i + 1` of the value |
| Bits.WidthBounds | src/reports.rs:118-124 | the `while val > 0` loop runs floor(log2 v) + 1 times: 2^(w-1) <= v < 2^w |
| Bits.DecodeBits | src/reports.rs:70-76 | reading bits 0..w-1 of a value below 2^w, least significant first, gives the value back |
| Reports.TryReportOnce | src/reports.rs:6-128 | one cycle returns Ok exactly when its 2·n `set_status` calls succeed, and its trace is then the pulse train of the kind's reference durations; on failure it stops right before the first failing call: the trace is a proper prefix of that train whose next step is that `Set`, and the call's error is returned unchanged |
| Reports.TryReport | src/reports.rs:16-153 | the endless loop is running exactly when every call so far succeeded, with trace of `k` copies of (reference pulse train + gap); otherwise it stops right before the first failing call, whose `Set` is the next step of the loop's steps (that same sequence, by ForeverIsTrain), and returns its error unchanged |
| Reports.ForeverIsTrain | src/reports.rs:130-153 | the steps of the first `k` cycles of the endless loop are `k` copies of the kind's reference pulse train followed by its gap |
| Reports.OnceIsTrain | src/reports.rs:6-128 | the loop-shaped step generation of every kind equals the pulse train of its reference durations |
| Reports.FixedPulsesTrain | src/reports.rs:68-76 | the `for` loop with `val >>= 1` gives pulse `i` the duration `s_on` if bit `i` is set, `l_on` otherwise |
| Reports.ShiftOutIsFixed | src/reports.rs:118-124 | the `while val > 0` loop emits exactly the first Width(val) pulses of the fixed-width loop |
| Reports.BlinkOnce | src/reports.rs:6-14 | Blink once emits `Set(true), Delay(s_on), Set(false), Delay(off)` and returns Ok; a failing first or second call stops it with exactly the steps before it |
| Reports.SmallBinaryZeroOnce | src/reports.rs:112-116 | SmallBinary(0) once emits a single long pulse `Set(true), Delay(l_on), Set(false), Delay(off)` and returns Ok |
| Reports.BlinkForever | src/reports.rs:16-25 | Blink forever repeats its single short pulse with no `Delay(rep)` between cycles |
| Reports.UnaryOnce | src/reports.rs:31-41 | Unary(n) once reads back as exactly n short pulses; Unary(0) emits nothing |
| Reports.UnaryZeroForever | src/reports.rs:43-56 | Unary(0) forever never calls `set_status` and, whatever the actuator, emits only `Delay(rep)` steps |
| Reports.ForeverCycleAt | src/reports.rs:130-153 | every cycle of the loop is the same cycle; for every kind but Blink that cycle is the once-sequence followed by `Delay(rep)` |
| Reports.SmallBinaryWidth | src/reports.rs:118-124 | for v ≠ 0, Binary(v) has 16 pulses and SmallBinary(v) has Width(v) ≤ 16, where 2^(Width-1) <= v < 2^Width, that is floor(log2 v) + 1 |
| Reports.SmallBinaryIsBinaryPrefix | src/reports.rs:107-128 | for v ≠ 0, SmallBinary(v)'s pulses are a prefix of Binary(v)'s (src/reports.rs:70-76), and every pulse it leaves out is long; so the steps of SmallBinary(v) once are a prefix of those of Binary(v) once |
| Reports.ObserveBinary | src/reports.rs:63-79 | when `s_on ≠ l_on`, reading Binary(v)'s pulses as bits (short = 1) gives v back |
| Reports.ObserveSmallBinary | src/reports.rs:107-128 | when `s_on ≠ l_on`, SmallBinary(v) also reads back as v, including the single long pulse of 0 |
| Reports.BinaryFiveExample | src/reports.rs:70-76 | with the default profile, Binary(5) gives the durations 500, 1000, 500 and then thirteen pulses of 1000, and its steps once are the pulse train of those durations with off 500 |
| Dispatcher.TryReport | src/lib.rs:82-129 | the enum revision's loop runs while every call succeeds, emitting `k` copies of its kind's reference pulse train plus gap; it never returns Ok; on failure it stops right before the first failing call, whose `Set` is the next step, and returns that error unchanged |
| Dispatcher.Report | src/lib.rs:78-80 | `report` keeps signalling while `try_report` runs and otherwise panics with "Failed to report error using debug-led" and the actuator's error |
| Dispatcher.SameAsTraitRevision | src/lib.rs:86-127 | enum Blink pulses with no gap as trait Blink does; enum Unary is trait Unary; enum Binary(v) is trait SmallBinary(v) once plus `Delay(rep)` |
| Dispatcher.BitPulsesIsShiftOut | src/lib.rs:116-122 | the enum revision's `while val > 0` loop emits the same pulses as the trait revision's |
| Dispatcher.TryReportAgrees | src/lib.rs:82-129 | both revisions' `try_report` behave identically for every actuator and every observation length |
| Dispatcher.DefaultTimings | src/lib.rs:69 | DEFAULT_TIMINGS is rep 1000, off 500, s_on 500, l_on 1000 |
| Reportable.UnwrapDel | src/lib.rs:26-32 | on Ok(x) it returns x and emits nothing; on Err it never returns a value, and what it emits is what `report` emits, ending in the report panic when the actuator fails |
| Reportable.ExpectDel | src/lib.rs:34-40 | on Ok(x) it returns x with no dispatch; on Err it reports first and never returns a value |
| Reportable.OptionUnwrapDel | src/lib.rs:44-50 | on Some(x) it returns x with no dispatch; on None it reports first and never returns a value |
| Reportable.Derr | src/lib.rs:8-17 | `derr!`, written as `unwrap_or_else`, yields the Ok value unchanged; otherwise it reports the given kind, never yields a value, and panics only with the report message |
| Reportable.UnwrapDelSignals | src/lib.rs:26-32 | on Err, with an actuator that keeps succeeding, the device signals the report's cycles for as long as one looks |
| Reportable.ExpectDelIsUnwrapDel | src/lib.rs:34-40 | the `expect` message is never observed: `expect_del` behaves as `unwrap_del` |
| Reportable.DerrIsUnwrapDel | src/lib.rs:12-15 | `derr!` behaves as `Result::unwrap_del` |
| Reportable.OptionMatchesResult | src/lib.rs:43-50 | `Option::unwrap_del` on None behaves as `Result::unwrap_del` on Err |

## Left out

- Real time: `delay_ms` is only an emitted `Delay(ms)` step. Nothing is said about wall-clock accuracy.
- Non-termination: the endless loops are observed over `k` iterations. `Steps.LoopMoreIterations` shows that `k` is only a window.
- Panics are values (`Fate.Panicked`, `Exit.Aborted`), not process termination. The `Debug` rendering of the actuator error in the panic message is not modelled.
- The `unwrap()`/`expect(msg)` after `report` in the adapters, and after it in `derr!`, is never reached, because `report` has no normal return. Its panic, which carries the original error, is therefore not modelled.
- `Option::expect_del` (src/lib.rs:52-58): it matches `Ok(val)` on an `Option` and does not type-check, so it has no behaviour to model.
- The `on_report` and `debug_print` hooks, `report_once` and the trait-object dispatcher of the final revision. The `DebugLed` struct at src/lib.rs:71-75 has none of these.
- The demo programs `i2c_display.rs`, `explicit_crash.rs` and `serial_crash.rs`, which handle board bring-up, LED drivers and display drawing.
