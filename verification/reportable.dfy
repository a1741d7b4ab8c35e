/**
 The "unwrap, but blink first" adapter of `src/lib.rs`: `DebugReportable`
 for `Result` and `Option`, and the `derr!` macro.

 On a failure the adapter calls `DebugLed::report`, which either signals for
 ever or panics when the actuator fails; `report` never returns normally, so
 the `unwrap()` / `expect(msg)` written after it is never reached and its
 message never shows.
 */
module Reportable {
  import opened Steps
  import opened Dispatcher

  datatype Result<+T, +X> = Ok(value: T) | Err(error: X)

  /** How an adapter call ends within the first `k` iterations of a report:
      it `Returned` the success value without touching the dispatcher, it is
      still `Reporting`, or it `Aborted` because `report` panicked. */
  datatype Exit<T, E> =
    | Returned(value: T)
    | Reporting(trace: seq<Step>)
    | Aborted(trace: seq<Step>, message: string, error: E)

  /** What the caller sees once `report` has been entered. */
  function AfterReport<T, E>(f: Fate<E>): Exit<T, E>
  {
    match f
    case Signalling(tr) => Reporting(tr)
    case Panicked(tr, msg, e) => Aborted(tr, msg, e)
  }

  /** `Result::unwrap_del`. */
  function UnwrapDel<T, X, E>(self: Result<T, X>, led: DebugLed<E>, report: DebugReport, k: nat): (r: Exit<T, E>)
    ensures r.Returned? <==> self.Ok?
    ensures self.Ok? ==> r.value == self.value
    ensures self.Err? ==> r.trace == Report(led, report, k).trace
    ensures self.Err? ==> (r.Aborted? <==> TryReport(led, report, k).Failed?)
    ensures r.Aborted? ==> r.message == REPORT_FAILED && led.setStatus(SetCount(r.trace)) == Some(r.error)
  {
    match self
    case Ok(val) => Returned(val)
    case Err(_) => AfterReport(Report(led, report, k))
  }

  /** `Result::expect_del`: `msg` would only be used by the `expect` after
      `report`, which is never reached. */
  function ExpectDel<T, X, E>(self: Result<T, X>, msg: string, led: DebugLed<E>, report: DebugReport, k: nat): (r: Exit<T, E>)
    ensures r.Returned? <==> self.Ok?
    ensures self.Ok? ==> r.value == self.value
    ensures self.Err? ==> r.trace == Report(led, report, k).trace
    ensures self.Err? ==> (r.Aborted? <==> TryReport(led, report, k).Failed?)
    ensures r.Aborted? ==> r.message == REPORT_FAILED && led.setStatus(SetCount(r.trace)) == Some(r.error)
  {
    match self
    case Ok(val) => Returned(val)
    case Err(_) => AfterReport(Report(led, report, k))
  }

  /** `Option::unwrap_del`. */
  function OptionUnwrapDel<T, E>(self: Option<T>, led: DebugLed<E>, report: DebugReport, k: nat): (r: Exit<T, E>)
    ensures r.Returned? <==> self.Some?
    ensures self.Some? ==> r.value == self.value
    ensures self.None? ==> r.trace == Report(led, report, k).trace
    ensures self.None? ==> (r.Aborted? <==> TryReport(led, report, k).Failed?)
    ensures r.Aborted? ==> r.message == REPORT_FAILED && led.setStatus(SetCount(r.trace)) == Some(r.error)
  {
    match self
    case Some(val) => Returned(val)
    case None => AfterReport(Report(led, report, k))
  }

  /** `Result::unwrap_or_else`: the success value, or `op` applied to the error. */
  function UnwrapOrElse<T, X, R>(self: Result<T, X>, wrap: T -> R, op: X -> R): R
  {
    match self
    case Ok(val) => wrap(val)
    case Err(err) => op(err)
  }

  /** `derr!(dis, e => kind)`: `e.unwrap_or_else(|_| { dis.report(kind); e.unwrap() })`.
      The closure takes the error argument, so only a `Result` fits. */
  function Derr<T, X, E>(e: Result<T, X>, dis: DebugLed<E>, kind: DebugReport, k: nat): (r: Exit<T, E>)
    ensures r.Returned? <==> e.Ok?
    ensures e.Ok? ==> r.value == e.value
    ensures e.Err? ==> r.trace == Report(dis, kind, k).trace
    ensures e.Err? ==> (r.Aborted? <==> TryReport(dis, kind, k).Failed?)
    ensures r.Aborted? ==> r.message == REPORT_FAILED && dis.setStatus(SetCount(r.trace)) == Some(r.error)
  {
    UnwrapOrElse(e, (val: T) => Returned(val), (_: X) => AfterReport(Report(dis, kind, k)))
  }

  /** A success passes through unchanged and nothing is emitted; a failure
      never yields a value, and with an actuator that keeps succeeding the
      device signals `report` for as long as one looks. */
  lemma UnwrapDelSignals<T, X, E>(self: Result<T, X>, led: DebugLed<E>, report: DebugReport, k: nat)
    requires self.Err?
    requires Succeeds(led.setStatus, 0, SetCount(Repeat(LoopBody(report, Unpack(led.timings)), k)))
    ensures UnwrapDel(self, led, report, k) == Reporting(Repeat(LoopBody(report, Unpack(led.timings)), k))
  {
  }

  /** The message of `expect_del` is never observed: it behaves as `unwrap_del`. */
  lemma ExpectDelIsUnwrapDel<T, X, E>(self: Result<T, X>, msg: string, led: DebugLed<E>, report: DebugReport, k: nat)
    ensures ExpectDel(self, msg, led, report, k) == UnwrapDel(self, led, report, k)
  {
  }

  /** `derr!` is `unwrap_del` written as a macro. */
  lemma DerrIsUnwrapDel<T, X, E>(e: Result<T, X>, dis: DebugLed<E>, kind: DebugReport, k: nat)
    ensures Derr(e, dis, kind, k) == UnwrapDel(e, dis, kind, k)
  {
  }

  /** `Option::unwrap_del` on `None` behaves as `Result::unwrap_del` on `Err`. */
  lemma OptionMatchesResult<T, X, E>(x: X, led: DebugLed<E>, report: DebugReport, k: nat)
    ensures OptionUnwrapDel<T, E>(None, led, report, k) == UnwrapDel<T, X, E>(Err(x), led, report, k)
  {
  }
}
