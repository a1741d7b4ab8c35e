/**
 The trait-based revision of the report kinds (`src/reports.rs`): `Blink`,
 `Unary`, `Binary` (fixed 16-bit width) and `SmallBinary` (variable width),
 each with one cycle (`try_report_once`) and the endless loop (`try_report`).

 The `*Pulses` functions follow the loops of the source (working copy of the
 value, `val & 1`, `val >>= 1`); `Durations` is the independent description
 of the same pulses through bit `i` of the value, and the lemmas connect them.
 */
module Reports {
  import opened Steps
  import opened Bits

  datatype Report = Blink | Unary(count: u8) | Binary(value: u16) | SmallBinary(value: u16)

  /** `8 * core::mem::size_of::<u16>()` */
  const BITS: nat := 16

  /** `if (val & 1) == 1 { s_on } else { l_on }`; on an unsigned value
      `val & 1` is `val % 2` and `val >>= 1` is `val / 2`. */
  function BitOn(val: nat, t: Timings): u32
  {
    if val % 2 == 1 then t.shortOn else t.longOn
  }

  /** `for _ in 0..n { set_status(true)?; delay(s_on); set_status(false)?; delay(off); }` */
  function UnaryPulses(n: nat, t: Timings): seq<Step>
  {
    if n == 0 then [] else Pulse(t.shortOn, t.off) + UnaryPulses(n - 1, t)
  }

  /** `for _ in 0..remaining { pulse for the low bit of val; val >>= 1; }` */
  function FixedPulses(val: nat, remaining: nat, t: Timings): seq<Step>
  {
    if remaining == 0 then [] else Pulse(BitOn(val, t), t.off) + FixedPulses(val / 2, remaining - 1, t)
  }

  /** `while val > 0 { pulse for the low bit of val; val >>= 1; }` */
  function ShiftOutPulses(val: nat, t: Timings): seq<Step>
    decreases val
  {
    if val == 0 then [] else Pulse(BitOn(val, t), t.off) + ShiftOutPulses(val / 2, t)
  }

  /** The steps of one `try_report_once` when every `set_status` succeeds. */
  function OnceSteps(r: Report, t: Timings): seq<Step>
  {
    match r
    case Blink => Pulse(t.shortOn, t.off)
    case Unary(n) => UnaryPulses(n as nat, t)
    case Binary(v) => FixedPulses(v as nat, BITS, t)
    case SmallBinary(v) => if v == 0 then Pulse(t.longOn, t.off) else ShiftOutPulses(v as nat, t)
  }

  /** The body of the `loop` in `try_report`: `Blink` loops over its pulse
      alone; the other kinds add `delay_ms(rep)` after every cycle. */
  function CycleSteps(r: Report, t: Timings): seq<Step>
  {
    if r.Blink? then OnceSteps(r, t) else OnceSteps(r, t) + [Delay(t.rep)]
  }

  /** The steps of the first `k` cycles of `try_report`. */
  function ForeverSteps(r: Report, t: Timings, k: nat): seq<Step>
  {
    Repeat(CycleSteps(r, t), k)
  }

  // ---------------------------------------------------------------------------
  // Reference description: the on-duration of every pulse of one cycle.

  function BitDuration(bit: bool, t: Timings): u32
  {
    if bit then t.shortOn else t.longOn
  }

  /** Bits `0 .. w-1` of `v`, least significant first, as pulse durations. */
  function BitDurations(v: nat, w: nat, t: Timings): seq<u32>
  {
    seq(w, i requires 0 <= i < w => BitDuration(Bit(v, i), t))
  }

  function Durations(r: Report, t: Timings): seq<u32>
  {
    match r
    case Blink => [t.shortOn]
    case Unary(n) => seq(n as nat, _ => t.shortOn)
    case Binary(v) => BitDurations(v as nat, BITS, t)
    case SmallBinary(v) => if v == 0 then [t.longOn] else BitDurations(v as nat, Width(v as nat), t)
  }

  /** What separates two cycles of the endless loop. */
  function Gap(r: Report, t: Timings): seq<Step>
  {
    if r.Blink? then [] else [Delay(t.rep)]
  }

  // ---------------------------------------------------------------------------
  // The operations.

  /** `try_report_once`: one cycle; `Done` is `Ok(())`. */
  function TryReportOnce<E>(r: Report, t: Timings, act: Actuator<E>): (res: Run<E>)
    ensures res.Done? <==> Succeeds(act, 0, 2 * |Durations(r, t)|)
    ensures res.Done? ==> res.trace == Train(Durations(r, t), t.off) && res.calls == 2 * |Durations(r, t)|
    ensures res.Halted? ==> StopsBeforeSet(res.trace, Train(Durations(r, t), t.off))
    ensures res.Halted? ==> Succeeds(act, 0, SetCount(res.trace)) && act(SetCount(res.trace)) == Some(res.error)
  {
    OnceIsTrain(r, t);
    TrainSetCount(Durations(r, t), t.off);
    Exec(OnceSteps(r, t), act, 0)
  }

  /** `try_report` observed over its first `k` cycles: it only ever leaves the
      loop through a failing `set_status`, whose error it returns unchanged,
      right before that call's `Set` in the loop's steps (which are the
      reference trains plus gaps, by `ForeverIsTrain`). */
  function TryReport<E>(r: Report, t: Timings, act: Actuator<E>, k: nat): (res: Signal<E>)
    ensures res.Running? <==> Succeeds(act, 0, k * (2 * |Durations(r, t)|))
    ensures res.Running? ==> res.trace == Repeat(Train(Durations(r, t), t.off) + Gap(r, t), k)
    ensures res.Failed? ==> StopsBeforeSet(res.trace, ForeverSteps(r, t, k))
    ensures res.Failed? ==> Succeeds(act, 0, SetCount(res.trace)) && act(SetCount(res.trace)) == Some(res.error)
  {
    CycleIsTrain(r, t);
    RepeatSetCount(CycleSteps(r, t), k);
    Loop(CycleSteps(r, t), act, k)
  }

  // ---------------------------------------------------------------------------
  // Lemmas.

  lemma TrainCons(d: u32, ds: seq<u32>, off: u32)
    ensures Train([d] + ds, off) == Pulse(d, off) + Train(ds, off)
  {
    assert ([d] + ds)[1..] == ds;
  }

  lemma {:induction false} UnaryPulsesTrain(n: nat, t: Timings)
    ensures UnaryPulses(n, t) == Train(seq(n, _ => t.shortOn), t.off)
  {
    if n > 0 {
      UnaryPulsesTrain(n - 1, t);
      assert seq(n, _ => t.shortOn) == [t.shortOn] + seq(n - 1, _ => t.shortOn);
      TrainCons(t.shortOn, seq(n - 1, _ => t.shortOn), t.off);
    }
  }

  /** The `for` loop with `val >>= 1` emits bit `i` of the value as pulse `i`. */
  lemma {:induction false} FixedPulsesTrain(val: nat, w: nat, t: Timings)
    ensures FixedPulses(val, w, t) == Train(BitDurations(val, w, t), t.off)
  {
    if w > 0 {
      var ds := BitDurations(val, w, t);
      var rest := BitDurations(val / 2, w - 1, t);
      forall i | 0 <= i < w - 1
        ensures ds[i + 1] == rest[i]
      {
        BitOfHalf(val, i);
      }
      assert ds[0] == BitOn(val, t) by {
        assert Pow2(0) == 1;
      }
      assert ds == [ds[0]] + rest;
      FixedPulsesTrain(val / 2, w - 1, t);
      TrainCons(ds[0], rest, t.off);
    }
  }

  /** The `while val > 0` loop runs exactly `Width(val)` times. */
  lemma {:induction false} ShiftOutIsFixed(val: nat, t: Timings)
    ensures ShiftOutPulses(val, t) == FixedPulses(val, Width(val), t)
    decreases val
  {
    if val > 0 {
      ShiftOutIsFixed(val / 2, t);
    }
  }

  /** One cycle of every kind is the pulse train of its reference durations. */
  lemma OnceIsTrain(r: Report, t: Timings)
    ensures OnceSteps(r, t) == Train(Durations(r, t), t.off)
  {
    match r
    case Blink =>
      TrainCons(t.shortOn, [], t.off);
    case Unary(n) =>
      UnaryPulsesTrain(n as nat, t);
    case Binary(v) =>
      FixedPulsesTrain(v as nat, BITS, t);
    case SmallBinary(v) =>
      if v == 0 {
        TrainCons(t.longOn, [], t.off);
      } else {
        ShiftOutIsFixed(v as nat, t);
        FixedPulsesTrain(v as nat, Width(v as nat), t);
      }
  }

  lemma CycleIsTrain(r: Report, t: Timings)
    ensures CycleSteps(r, t) == Train(Durations(r, t), t.off) + Gap(r, t)
    ensures SetCount(CycleSteps(r, t)) == 2 * |Durations(r, t)|
  {
    OnceIsTrain(r, t);
    TrainSetCount(Durations(r, t), t.off);
    SetCountAppend(Train(Durations(r, t), t.off), Gap(r, t));
    if !r.Blink? {
      assert [Delay(t.rep)][1..] == [];
    }
  }

  /** The first `k` cycles of the loop are `k` copies of the reference pulse
      train followed by the gap. */
  lemma ForeverIsTrain(r: Report, t: Timings, k: nat)
    ensures ForeverSteps(r, t, k) == Repeat(Train(Durations(r, t), t.off) + Gap(r, t), k)
  {
    CycleIsTrain(r, t);
  }

  /** `Blink` once performs one short pulse and returns `Ok`; a failing
      `set_status` stops it at once. */
  lemma BlinkOnce<E>(t: Timings, act: Actuator<E>)
    ensures act(0).None? && act(1).None? ==>
      TryReportOnce(Blink, t, act) == Done([Set(true), Delay(t.shortOn), Set(false), Delay(t.off)], 2)
    ensures act(0).Some? ==> TryReportOnce(Blink, t, act) == Halted([], act(0).value)
    ensures act(0).None? && act(1).Some? ==>
      TryReportOnce(Blink, t, act) == Halted([Set(true), Delay(t.shortOn)], act(1).value)
  {
    var s := Pulse(t.shortOn, t.off);
    assert s[1..][1..][1..][1..] == [];
    if act(0).None? {
      if act(1).None? {
        assert Exec(s[1..][1..][1..], act, 2) == Done([Delay(t.off)], 2);
        assert Exec(s[1..][1..], act, 1) == Done([Set(false), Delay(t.off)], 2);
      } else {
        assert Exec(s[1..][1..], act, 1) == Halted([], act(1).value);
      }
      assert Exec(s[1..], act, 1) == Extend([Delay(t.shortOn)], Exec(s[1..][1..], act, 1));
    }
  }

  /** `SmallBinary(0)` once is one long pulse, not zero pulses. */
  lemma SmallBinaryZeroOnce<E>(t: Timings, act: Actuator<E>)
    requires act(0).None? && act(1).None?
    ensures TryReportOnce(SmallBinary(0), t, act) == Done([Set(true), Delay(t.longOn), Set(false), Delay(t.off)], 2)
  {
    TrainCons(t.longOn, [], t.off);
    assert Succeeds(act, 0, 2);
  }

  /** `Blink` forever is its pulse over and over with no `rep` gap. */
  lemma {:induction false} BlinkForever(t: Timings, k: nat)
    ensures ForeverSteps(Blink, t, k) == Train(seq(k, _ => t.shortOn), t.off)
  {
    if k > 0 {
      BlinkForever(t, k - 1);
      assert seq(k, _ => t.shortOn) == [t.shortOn] + seq(k - 1, _ => t.shortOn);
      TrainCons(t.shortOn, seq(k - 1, _ => t.shortOn), t.off);
    }
  }

  /** `Unary(n)` once is `n` short pulses. */
  lemma UnaryOnce(n: u8, t: Timings)
    ensures ReadPulses(OnceSteps(Unary(n), t), t.off) == Some(seq(n as nat, _ => t.shortOn))
    ensures n == 0 ==> OnceSteps(Unary(n), t) == []
  {
    OnceIsTrain(Unary(n), t);
    ReadTrain(Durations(Unary(n), t), t.off);
  }

  lemma {:induction false} RepeatGap(rep: u32, k: nat)
    ensures Repeat([Delay(rep)], k) == seq(k, _ => Delay(rep))
  {
    if k > 0 {
      RepeatGap(rep, k - 1);
    }
  }

  /** `Unary(0)` forever never calls `set_status`: it only waits `rep` again
      and again, whatever the actuator would answer. */
  lemma UnaryZeroForever<E>(t: Timings, act: Actuator<E>, k: nat)
    ensures TryReport(Unary(0), t, act, k) == Running(seq(k, _ => Delay(t.rep)))
  {
    assert Train(Durations(Unary(0), t), t.off) + Gap(Unary(0), t) == [Delay(t.rep)];
    RepeatGap(t.rep, k);
  }

  /** Every cycle but `Blink`'s is the once-sequence followed by `Delay(rep)`,
      and cycle `i` of the loop is exactly that cycle. */
  lemma ForeverCycleAt(r: Report, t: Timings, k: nat, i: nat)
    requires i < k
    ensures ForeverSteps(r, t, k) == ForeverSteps(r, t, i) + CycleSteps(r, t) + ForeverSteps(r, t, k - i - 1)
    ensures !r.Blink? ==> CycleSteps(r, t) == OnceSteps(r, t) + [Delay(t.rep)]
  {
    RepeatCycleAt(CycleSteps(r, t), k, i);
  }

  /** `SmallBinary(v)` for `v != 0` has `Width(v)` pulses, at most 16, where
      `2^(Width(v)-1) <= v < 2^Width(v)`; `Binary(v)` always has 16. */
  lemma SmallBinaryWidth(v: u16, t: Timings)
    requires v != 0
    ensures |Durations(Binary(v), t)| == BITS
    ensures |Durations(SmallBinary(v), t)| == Width(v as nat) <= BITS
    ensures Pow2(Width(v as nat) - 1) <= v as nat < Pow2(Width(v as nat))
  {
    Pow2Of16();
    WidthBounds(v as nat);
    WidthFits(v as nat, BITS);
  }

  /** `SmallBinary(v)` for `v != 0` is the first `Width(v)` pulses of
      `Binary(v)`, and the pulses it drops are all long (leading zero bits). */
  lemma SmallBinaryIsBinaryPrefix(v: u16, t: Timings)
    requires v != 0
    ensures Durations(SmallBinary(v), t) <= Durations(Binary(v), t)
    ensures forall i :: |Durations(SmallBinary(v), t)| <= i < BITS ==> Durations(Binary(v), t)[i] == t.longOn
    ensures OnceSteps(SmallBinary(v), t) <= OnceSteps(Binary(v), t)
  {
    var w := Width(v as nat);
    SmallBinaryWidth(v, t);
    forall i | w <= i < BITS
      ensures Durations(Binary(v), t)[i] == t.longOn
    {
      PowMonotone(w, i);
      BitAboveZero(v as nat, i);
    }
    var small, full := Durations(SmallBinary(v), t), Durations(Binary(v), t);
    assert full == small + full[w..];
    TrainAppend(small, full[w..], t.off);
    OnceIsTrain(SmallBinary(v), t);
    OnceIsTrain(Binary(v), t);
  }

  // ---------------------------------------------------------------------------
  // Round trip: an observer who knows the timings reads the value back.

  /** Reads one cycle of pulses: a short pulse is a 1 bit, any other a 0 bit,
      least significant first. */
  function Observe(steps: seq<Step>, t: Timings): Option<nat>
  {
    match ReadPulses(steps, t.off)
    case None => None
    case Some(ons) => Some(Decode(seq(|ons|, i requires 0 <= i < |ons| => ons[i] == t.shortOn)))
  }

  lemma ObserveBits(v: nat, w: nat, t: Timings)
    requires t.shortOn != t.longOn && v < Pow2(w)
    ensures Observe(Train(BitDurations(v, w, t), t.off), t) == Some(v)
  {
    var ds := BitDurations(v, w, t);
    ReadTrain(ds, t.off);
    assert seq(|ds|, i requires 0 <= i < |ds| => ds[i] == t.shortOn) == seq(w, i requires 0 <= i < w => Bit(v, i));
    DecodeBits(v, w);
  }

  /** `Binary(v)` once can be read back as `v` whenever short and long pulses
      differ. */
  lemma ObserveBinary(v: u16, t: Timings)
    requires t.shortOn != t.longOn
    ensures Observe(OnceSteps(Binary(v), t), t) == Some(v as nat)
  {
    OnceIsTrain(Binary(v), t);
    Pow2Of16();
    ObserveBits(v as nat, BITS, t);
  }

  /** `SmallBinary(v)` once reads back as `v` too, including the single long
      pulse of `0`. */
  lemma ObserveSmallBinary(v: u16, t: Timings)
    requires t.shortOn != t.longOn
    ensures Observe(OnceSteps(SmallBinary(v), t), t) == Some(v as nat)
  {
    OnceIsTrain(SmallBinary(v), t);
    if v == 0 {
      ReadTrain([t.longOn], t.off);
      assert seq(1, i requires 0 <= i < 1 => [t.longOn][i] == t.shortOn) == [false];
      assert [false][1..] == [];
      assert Decode([false]) == 0;
    } else {
      WidthBounds(v as nat);
      ObserveBits(v as nat, Width(v as nat), t);
    }
  }

  // ---------------------------------------------------------------------------
  // Worked example with the default profile (rep, off, s_on, l_on) = (1000, 500, 500, 1000).

  /** `Binary(5)`: bits 1, 0, 1 and then thirteen zero bits, so short, long,
      short and thirteen long pulses, each followed by `off`. */
  lemma BinaryFiveExample()
    ensures Durations(Binary(5), Timings(1000, 500, 500, 1000)) == [500, 1000, 500] + seq(13, _ => 1000)
    ensures OnceSteps(Binary(5), Timings(1000, 500, 500, 1000)) == Train([500, 1000, 500] + seq(13, _ => 1000), 500)
  {
    OnceIsTrain(Binary(5), Timings(1000, 500, 500, 1000));
    var t := Timings(1000, 500, 500, 1000);
    var ds := Durations(Binary(5), t);
    assert Pow2(1) == 2 && Pow2(2) == 4 && Pow2(3) == 8;
    forall i | 3 <= i < BITS
      ensures ds[i] == 1000
    {
      PowMonotone(3, i);
      BitAboveZero(5, i);
    }
  }
}
