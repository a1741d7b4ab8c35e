/**
 The vocabulary shared by both revisions of the debug-led engine: fixed-width
 integers, the timing profile, the steps a report emits (actuator commands and
 delays), pulse trains, and an executor that drives a step sequence through a
 fallible `set_status` callback and stops at the first failure.
 */
module Steps {

  newtype u8 = x: int | 0 <= x < 0x100
  newtype u16 = x: int | 0 <= x < 0x1_0000
  newtype u32 = x: int | 0 <= x < 0x1_0000_0000

  datatype Option<+T> = None | Some(value: T)

  /** The four durations (milliseconds) in the order the source destructures
      its `timings` tuple: (rep, off, s_on, l_on). */
  datatype Timings = Timings(rep: u32, off: u32, shortOn: u32, longOn: u32)

  /** `let (rep, off, s_on, l_on) = self.timings;` */
  function Unpack(timings: (u32, u32, u32, u32)): (t: Timings)
    ensures t.rep == timings.0 && t.off == timings.1
    ensures t.shortOn == timings.2 && t.longOn == timings.3
  {
    Timings(timings.0, timings.1, timings.2, timings.3)
  }

  /** One observable action: a call of `set_status(on)` or of `delay_ms(ms)`. */
  datatype Step = Set(on: bool) | Delay(ms: u32)

  /** The outcome of the n-th `set_status` call (counting from 0): `None` is
      `Ok(())`, `Some(e)` is `Err(e)`. The argument of the n-th call is fixed by
      the step sequence, so indexing by call number loses no generality. */
  type Actuator<E> = nat -> Option<E>

  /** One pulse: on, hold `on`, off, hold `off`. */
  function Pulse(on: u32, off: u32): seq<Step>
  {
    [Set(true), Delay(on), Set(false), Delay(off)]
  }

  /** The pulses with the given on-durations, one after the other. */
  function Train(ons: seq<u32>, off: u32): (s: seq<Step>)
    ensures |s| == 4 * |ons|
  {
    if ons == [] then [] else Pulse(ons[0], off) + Train(ons[1..], off)
  }

  /** Number of `set_status` calls in a step sequence. */
  function SetCount(s: seq<Step>): nat
  {
    if s == [] then 0 else (if s[0].Set? then 1 else 0) + SetCount(s[1..])
  }

  /** `count` consecutive calls from number `from` on all return `Ok`. */
  predicate Succeeds<E>(act: Actuator<E>, from: nat, count: nat)
  {
    forall c: nat :: from <= c < from + count ==> act(c).None?
  }

  /** The inverse of `Train`: reads a step sequence back as pulses with the
      given off-duration, or `None` when it is not such a pulse train. */
  function ReadPulses(s: seq<Step>, off: u32): Option<seq<u32>>
    decreases |s|
  {
    if s == [] then Some([])
    else if |s| >= 4 && s[0] == Set(true) && s[1].Delay? && s[2] == Set(false) && s[3] == Delay(off) then
      match ReadPulses(s[4..], off)
      case None => None
      case Some(rest) => Some([s[1].ms] + rest)
    else None
  }

  lemma {:induction false} SetCountAppend(a: seq<Step>, b: seq<Step>)
    ensures SetCount(a + b) == SetCount(a) + SetCount(b)
  {
    if a == [] {
      assert a + b == b;
    } else {
      assert (a + b)[0] == a[0];
      assert (a + b)[1..] == a[1..] + b;
      SetCountAppend(a[1..], b);
    }
  }

  lemma {:induction false} TrainAppend(a: seq<u32>, b: seq<u32>, off: u32)
    ensures Train(a + b, off) == Train(a, off) + Train(b, off)
  {
    if a == [] {
      assert a + b == b;
    } else {
      assert (a + b)[0] == a[0];
      assert (a + b)[1..] == a[1..] + b;
      TrainAppend(a[1..], b, off);
    }
  }

  /** Each pulse calls `set_status` twice. */
  lemma {:induction false} TrainSetCount(ons: seq<u32>, off: u32)
    ensures SetCount(Train(ons, off)) == 2 * |ons|
  {
    if ons != [] {
      var p := Pulse(ons[0], off);
      assert p[3..][1..] == [] && p[2..][1..] == p[3..] && p[1..][1..] == p[2..];
      assert SetCount(p[3..]) == 0;
      assert SetCount(p[2..]) == 1;
      assert SetCount(p[1..]) == 1;
      SetCountAppend(p, Train(ons[1..], off));
      TrainSetCount(ons[1..], off);
    }
  }

  /** An observer that knows `off` recovers exactly the on-durations. */
  lemma {:induction false} ReadTrain(ons: seq<u32>, off: u32)
    ensures ReadPulses(Train(ons, off), off) == Some(ons)
  {
    if ons != [] {
      var s := Train(ons, off);
      assert s[4..] == Train(ons[1..], off);
      ReadTrain(ons[1..], off);
      assert [ons[0]] + ons[1..] == ons;
    }
  }

  /** Whatever `ReadPulses` accepts is the train of what it reads. */
  lemma {:induction false} TrainRead(s: seq<Step>, off: u32)
    requires ReadPulses(s, off).Some?
    ensures Train(ReadPulses(s, off).value, off) == s
    decreases |s|
  {
    if s != [] {
      var ons := ReadPulses(s, off).value;
      TrainRead(s[4..], off);
      assert ons[0] == s[1].ms && ons[1..] == ReadPulses(s[4..], off).value;
      assert s == s[..4] + s[4..];
      assert s[..4] == Pulse(ons[0], off);
    }
  }

  /** The result of driving steps through the actuator: either every step was
      performed (`Done`, with the number of `set_status` calls made so far), or
      a `set_status` call failed (`Halted`): `trace` is what was performed before
      it and `error` is the callback's error, returned unchanged. */
  datatype Run<E> = Done(trace: seq<Step>, calls: nat) | Halted(trace: seq<Step>, error: E)

  function Extend<E>(prefix: seq<Step>, r: Run<E>): Run<E>
  {
    match r
    case Done(tr, m) => Done(prefix + tr, m)
    case Halted(tr, e) => Halted(prefix + tr, e)
  }

  /** `r` is a correct account of performing `steps` after `calls` calls:
      complete exactly when every call succeeds, otherwise cut off right before
      the first failing `set_status`, whose error it carries. */
  ghost predicate Accounts<E>(steps: seq<Step>, act: Actuator<E>, calls: nat, r: Run<E>)
  {
    && (r.Done? <==> Succeeds(act, calls, SetCount(steps)))
    && (r.Done? ==> r.trace == steps && r.calls == calls + SetCount(steps))
    && (r.Halted? ==> r.trace < steps && steps[|r.trace|].Set?)
    && (r.Halted? ==> Succeeds(act, calls, SetCount(r.trace)))
    && (r.Halted? ==> act(calls + SetCount(r.trace)) == Some(r.error))
  }

  /** Performing one more step in front keeps an account correct. */
  lemma AccountsCons<E>(s0: Step, rest: seq<Step>, act: Actuator<E>, calls: nat, r: Run<E>)
    requires s0.Set? ==> act(calls).None?
    requires Accounts(rest, act, calls + (if s0.Set? then 1 else 0), r)
    ensures Accounts([s0] + rest, act, calls, Extend([s0], r))
  {
    var steps := [s0] + rest;
    var c := calls + (if s0.Set? then 1 else 0);
    assert steps[0] == s0 && steps[1..] == rest;
    assert SetCount(steps) == SetCount(rest) + (if s0.Set? then 1 else 0);
    if r.Halted? {
      var tr := [s0] + r.trace;
      assert tr[0] == s0 && tr[1..] == r.trace;
      assert SetCount(tr) == SetCount(r.trace) + (if s0.Set? then 1 else 0);
      assert tr == steps[..|tr|];
      assert steps[|tr|] == rest[|r.trace|];
    }
  }

  /** A failing first `set_status` is an account of any sequence starting with it. */
  lemma AccountsFail<E>(steps: seq<Step>, act: Actuator<E>, calls: nat)
    requires steps != [] && steps[0].Set? && act(calls).Some?
    ensures Accounts(steps, act, calls, Halted([], act(calls).value))
  {
    assert SetCount(steps) >= 1;
  }

  /** Performs `steps` in order; `calls` is the number of `set_status` calls made
      before. Each `set_status(..)?` returns early on `Err`. */
  function Exec<E>(steps: seq<Step>, act: Actuator<E>, calls: nat): (r: Run<E>)
    ensures Accounts(steps, act, calls, r)
    decreases |steps|
  {
    if steps == [] then Done([], calls)
    else
      var rest := steps[1..];
      assert steps == [steps[0]] + rest;
      match steps[0]
      case Delay(_) =>
        var r := Exec(rest, act, calls);
        AccountsCons(steps[0], rest, act, calls, r);
        Extend([steps[0]], r)
      case Set(_) =>
        match act(calls)
        case Some(e) =>
          AccountsFail(steps, act, calls);
          Halted([], e)
        case None =>
          var r := Exec(rest, act, calls + 1);
          AccountsCons(steps[0], rest, act, calls, r);
          Extend([steps[0]], r)
  }

  /** Continues with `b` after `a` has been performed. */
  function AndThen<E>(r: Run<E>, b: seq<Step>, act: Actuator<E>): Run<E>
  {
    match r
    case Halted(_, _) => r
    case Done(tr, m) => Extend(tr, Exec(b, act, m))
  }

  /** Running `a + b` is running `a`, then `b` unless `a` failed. */
  lemma {:induction false} ExecAppend<E>(a: seq<Step>, b: seq<Step>, act: Actuator<E>, calls: nat)
    ensures Exec(a + b, act, calls) == AndThen(Exec(a, act, calls), b, act)
    decreases |a|
  {
    if a == [] {
      assert a + b == b;
      var r := Exec(b, act, calls);
      assert [] + r.trace == r.trace;
    } else {
      assert (a + b)[0] == a[0];
      assert (a + b)[1..] == a[1..] + b;
      match a[0]
      case Delay(_) =>
        ExecAppend(a[1..], b, act, calls);
        ExtendAndThen([a[0]], Exec(a[1..], act, calls), b, act);
      case Set(_) =>
        if act(calls).None? {
          ExecAppend(a[1..], b, act, calls + 1);
          ExtendAndThen([a[0]], Exec(a[1..], act, calls + 1), b, act);
        }
    }
  }

  lemma ExtendAndThen<E>(p: seq<Step>, r: Run<E>, b: seq<Step>, act: Actuator<E>)
    ensures Extend(p, AndThen(r, b, act)) == AndThen(Extend(p, r), b, act)
  {
    if r.Done? {
      var r2 := Exec(b, act, r.calls);
      assert p + (r.trace + r2.trace) == (p + r.trace) + r2.trace;
    }
  }

  /** `k` copies of `cycle`. */
  function Repeat(cycle: seq<Step>, k: nat): seq<Step>
  {
    if k == 0 then [] else cycle + Repeat(cycle, k - 1)
  }

  lemma {:induction false} RepeatSplit(cycle: seq<Step>, i: nat, j: nat)
    ensures Repeat(cycle, i + j) == Repeat(cycle, i) + Repeat(cycle, j)
  {
    if i == 0 {
      assert Repeat(cycle, i) + Repeat(cycle, j) == Repeat(cycle, j);
    } else {
      var a, b := Repeat(cycle, i - 1), Repeat(cycle, j);
      RepeatSplit(cycle, i - 1, j);
      assert Repeat(cycle, i + j) == cycle + Repeat(cycle, (i - 1) + j);
      assert Repeat(cycle, i) == cycle + a;
      assert cycle + (a + b) == (cycle + a) + b;
    }
  }

  /** `k` copies of a cycle make `k` times its `set_status` calls. */
  lemma {:induction false} RepeatSetCount(cycle: seq<Step>, k: nat)
    ensures SetCount(Repeat(cycle, k)) == k * SetCount(cycle)
  {
    if k > 0 {
      RepeatSetCount(cycle, k - 1);
      SetCountAppend(cycle, Repeat(cycle, k - 1));
    }
  }

  /** The `i`-th iteration of a loop of `k` iterations performs exactly `cycle`:
      every cycle is identical. */
  lemma {:induction false} RepeatCycleAt(cycle: seq<Step>, k: nat, i: nat)
    requires i < k
    ensures Repeat(cycle, k) == Repeat(cycle, i) + cycle + Repeat(cycle, k - i - 1)
  {
    RepeatSplit(cycle, i, k - i);
    assert Repeat(cycle, k - i) == cycle + Repeat(cycle, k - i - 1);
  }

  /** `loop { cycle }` run for `k` iterations, the counter of calls carried over. */
  function ExecCycles<E>(cycle: seq<Step>, act: Actuator<E>, calls: nat, k: nat): Run<E>
    decreases k
  {
    if k == 0 then Done([], calls)
    else
      match Exec(cycle, act, calls)
      case Halted(tr, e) => Halted(tr, e)
      case Done(tr, m) => Extend(tr, ExecCycles(cycle, act, m, k - 1))
  }

  /** Looping over a cycle is the same as performing its copies in a row. */
  lemma {:induction false} ExecCyclesUnrolls<E>(cycle: seq<Step>, act: Actuator<E>, calls: nat, k: nat)
    ensures ExecCycles(cycle, act, calls, k) == Exec(Repeat(cycle, k), act, calls)
    decreases k
  {
    if k > 0 {
      var rest := Repeat(cycle, k - 1);
      assert Repeat(cycle, k) == cycle + rest;
      ExecAppend(cycle, rest, act, calls);
      match Exec(cycle, act, calls)
      case Halted(_, _) =>
        assert ExecCycles(cycle, act, calls, k) == Exec(cycle, act, calls);
      case Done(tr, m) =>
        ExecCyclesUnrolls(cycle, act, m, k - 1);
        assert ExecCycles(cycle, act, calls, k) == Extend(tr, ExecCycles(cycle, act, m, k - 1));
        assert AndThen(Exec(cycle, act, calls), rest, act) == Extend(tr, Exec(rest, act, m));
    }
  }

  /** What the body of an endless `loop` shows after `k` iterations: it is
      still `Running`, or a `set_status` call `Failed` and the loop was left by
      `?`. There is no third outcome: the loop never ends normally. */
  datatype Signal<E> = Running(trace: seq<Step>) | Failed(trace: seq<Step>, error: E)

  /** `trace` stops right before a `set_status` call of `full`: it is a proper
      prefix of `full` whose next step is a `Set`. */
  predicate StopsBeforeSet(trace: seq<Step>, full: seq<Step>)
  {
    trace < full && full[|trace|].Set?
  }

  /** `loop { cycle }` observed over its first `k` iterations. */
  function Loop<E>(cycle: seq<Step>, act: Actuator<E>, k: nat): (r: Signal<E>)
    ensures r.Running? <==> Succeeds(act, 0, SetCount(Repeat(cycle, k)))
    ensures r.Running? ==> r.trace == Repeat(cycle, k)
    ensures r.Failed? ==> StopsBeforeSet(r.trace, Repeat(cycle, k))
    ensures r.Failed? ==> Succeeds(act, 0, SetCount(r.trace)) && act(SetCount(r.trace)) == Some(r.error)
  {
    ExecCyclesUnrolls(cycle, act, 0, k);
    match ExecCycles(cycle, act, 0, k)
    case Done(tr, _) => Running(tr)
    case Halted(tr, e) => Failed(tr, e)
  }

  /** Performing more steps after `a` never changes a failure inside `a` and
      only extends a complete run of `a`. */
  lemma ExecPrefix<E>(a: seq<Step>, b: seq<Step>, act: Actuator<E>, calls: nat)
    ensures Exec(a, act, calls).Halted? ==> Exec(a + b, act, calls) == Exec(a, act, calls)
    ensures Exec(a, act, calls).Done? ==> Exec(a, act, calls).trace <= Exec(a + b, act, calls).trace
  {
    ExecAppend(a, b, act, calls);
  }

  /** The iteration count is only an observation window: a longer window never
      changes a failure and only extends a running trace. */
  lemma LoopMoreIterations<E>(cycle: seq<Step>, act: Actuator<E>, k: nat, k': nat)
    requires k <= k'
    ensures Loop(cycle, act, k).Failed? ==> Loop(cycle, act, k') == Loop(cycle, act, k)
    ensures Loop(cycle, act, k).Running? ==> Loop(cycle, act, k).trace <= Loop(cycle, act, k').trace
  {
    var a, b := Repeat(cycle, k), Repeat(cycle, k' - k);
    RepeatSplit(cycle, k, k' - k);
    assert Repeat(cycle, k') == a + b;
    ExecCyclesUnrolls(cycle, act, 0, k);
    ExecCyclesUnrolls(cycle, act, 0, k');
    ExecPrefix(a, b, act, 0);
  }
}
