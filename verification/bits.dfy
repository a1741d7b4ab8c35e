/**
 Reference definitions for reading an unsigned value bit by bit: powers of two,
 bit `i` of a value, the width up to the highest set bit, and the
 least-significant-first reading of a bit string back into a number.
 */
module Bits {

  function Pow2(i: nat): (p: nat)
    ensures p >= 1
  {
    if i == 0 then 1 else 2 * Pow2(i - 1)
  }

  /** Bit `i` (0 = least significant) of `v` is set. */
  predicate Bit(v: nat, i: nat)
  {
    (v / Pow2(i)) % 2 == 1
  }

  /** Position of the highest set bit plus one; 0 for 0. */
  function Width(v: nat): nat
    decreases v
  {
    if v == 0 then 0 else 1 + Width(v / 2)
  }

  /** Reads a bit string least significant bit first. */
  function Decode(bits: seq<bool>): nat
  {
    if bits == [] then 0 else (if bits[0] then 1 else 0) + 2 * Decode(bits[1..])
  }

  lemma MulAtLeast(d: int, x: int)
    requires d > 0 && x >= 1
    ensures d * x >= d
  {
    var y := x - 1;
    assert d * x == d * y + d;
    assert d * y >= 0;
  }

  /** `a == d * q + s` with `0 <= s < d` fixes the quotient. */
  lemma DivUnique(a: int, d: int, q: int, s: int)
    requires 0 <= s < d && a == d * q + s
    ensures a / d == q
  {
    var q', s' := a / d, a % d;
    assert a == d * q' + s' && 0 <= s' < d;
    if q' < q {
      assert d * (q - q') == s' - s;
      MulAtLeast(d, q - q');
    } else if q' > q {
      assert d * (q' - q) == s - s';
      MulAtLeast(d, q' - q);
    }
  }

  /** Shifting right once and then by `i` is shifting right by `i + 1`. */
  lemma HalfDivPow2(v: nat, i: nat)
    ensures (v / 2) / Pow2(i) == v / Pow2(i + 1)
  {
    var p := Pow2(i);
    assert Pow2(i + 1) == 2 * p;
    var q, s := v / (2 * p), v % (2 * p);
    var m := p * q;
    assert v == 2 * m + s by {
      assert v == (2 * p) * q + s;
    }
    assert v / 2 == m + s / 2;
    DivUnique(v / 2, p, q, s / 2);
  }

  /** Bit `i` of `v >> 1` is bit `i + 1` of `v`. */
  lemma BitOfHalf(v: nat, i: nat)
    ensures Bit(v / 2, i) == Bit(v, i + 1)
  {
    HalfDivPow2(v, i);
  }

  /** A value below `2^i` has bit `i` clear. */
  lemma BitAboveZero(v: nat, i: nat)
    requires v < Pow2(i)
    ensures !Bit(v, i)
  {
    DivUnique(v, Pow2(i), 0, v);
  }

  /** `Width(v)` is `floor(log2 v) + 1` for a positive `v`. */
  lemma {:induction false} WidthBounds(v: nat)
    requires v > 0
    ensures Pow2(Width(v) - 1) <= v < Pow2(Width(v))
    decreases v
  {
    if v / 2 > 0 {
      WidthBounds(v / 2);
    }
  }

  /** A value below `2^w` has width at most `w`. */
  lemma {:induction false} WidthFits(v: nat, w: nat)
    requires v < Pow2(w)
    ensures Width(v) <= w
    decreases v
  {
    if v > 0 {
      WidthFits(v / 2, w - 1);
    }
  }

  /** Reading the first `w` bits of a value below `2^w` gives the value back. */
  lemma {:induction false} DecodeBits(v: nat, w: nat)
    requires v < Pow2(w)
    ensures Decode(seq(w, i requires 0 <= i < w => Bit(v, i))) == v
    decreases w
  {
    var bits := seq(w, i requires 0 <= i < w => Bit(v, i));
    if w > 0 {
      var rest := seq(w - 1, i requires 0 <= i < w - 1 => Bit(v / 2, i));
      forall i | 0 <= i < w - 1
        ensures bits[1..][i] == rest[i]
      {
        BitOfHalf(v, i);
      }
      assert bits[1..] == rest;
      DecodeBits(v / 2, w - 1);
      assert Pow2(0) == 1;
    }
  }

  /** 16 bits hold the values below `0x1_0000`. */
  lemma Pow2Of16()
    ensures Pow2(16) == 0x1_0000
  {
    assert Pow2(4) == 16;
    assert Pow2(8) == 256;
    assert Pow2(12) == 4096;
  }

  /** Powers of two grow with the exponent. */
  lemma {:induction false} PowMonotone(i: nat, j: nat)
    requires i <= j
    ensures Pow2(i) <= Pow2(j)
    decreases j
  {
    if i < j {
      PowMonotone(i, j - 1);
    }
  }
}
