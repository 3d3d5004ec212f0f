/** The values of 32-bit floating-point patterns (IEEE 754 binary32) and their order.

    The library only compares stored floats, so no rounding is involved; a comparison with a NaN is false. */
module Floats {
  import opened Types

  datatype Value = NaN | NegInf | PosInf | Finite(r: real)

  function PowerOfTwo(k: int): real
    decreases if k < 0 then -k else k
  {
    if k == 0 then 1.0 else if k > 0 then 2.0 * PowerOfTwo(k - 1) else PowerOfTwo(k + 1) / 2.0
  }

  function ValueOf(bits: f32): Value {
    var negative := bits / 0x8000_0000 == 1;
    var exponent := bits / 0x80_0000 % 0x100;
    var fraction := bits % 0x80_0000;
    if exponent == 0xFF then
      if fraction != 0 then NaN else if negative then NegInf else PosInf
    else
      var magnitude := if exponent == 0 then fraction as real * PowerOfTwo(-149)
                       else (fraction + 0x80_0000) as real * PowerOfTwo(exponent - 150);
      Finite(if negative then -magnitude else magnitude)
  }

  /** `x < y` on values */
  predicate Below(x: Value, y: Value) {
    match (x, y)
    case (NaN, _) => false
    case (_, NaN) => false
    case (NegInf, _) => y != NegInf
    case (_, PosInf) => x != PosInf
    case (Finite(a), Finite(b)) => a < b
    case _ => false
  }

  /** `x < y` on stored floats */
  predicate Lt(x: f32, y: f32) {
    Below(ValueOf(x), ValueOf(y))
  }

  const ZERO: f32 := 0
  const NAN: f32 := 0x7FC0_0000

  lemma NanFloat()
    ensures ValueOf(NAN) == NaN
  {
    assert NAN / 0x80_0000 == 255 && NAN % 0x80_0000 == 0x40_0000;
  }

  /** Some whole numbers as floats. */
  lemma BigFloat(n: nat)
    requires n < 0x80_0000
    ensures ValueOf(0x4B00_0000 + n) == Finite((n + 0x80_0000) as real)
  {
    assert (0x4B00_0000 + n) / 0x80_0000 == 150;
  }

  /** `x != 0.0f`: true of a NaN */
  predicate NonZero(x: f32) {
    ValueOf(x) != Finite(0.0)
  }

  /** The order on values that are not NaN is a strict weak order. */
  lemma BelowIsOrder(x: Value, y: Value, z: Value)
    ensures !Below(x, x)
    ensures Below(x, y) && Below(y, z) ==> Below(x, z)
    ensures x != NaN && y != NaN && z != NaN && !Below(x, y) && !Below(y, z) ==> !Below(x, z)
  {
  }

  /** The order in reals: numbers by their values, the infinities outside them, and NaN nowhere. */
  ghost predicate IsLess(x: Value, y: Value) {
    || (x.Finite? && y.Finite? && x.r < y.r)
    || (x.NegInf? && (y.Finite? || y.PosInf?))
    || (x.Finite? && y.PosInf?)
  }

  lemma BelowExactly(x: Value, y: Value)
    ensures Below(x, y) <==> IsLess(x, y)
  {
  }

  // ----- the format

  lemma {:induction false} PowersMeet(k: int, n: nat)
    requires 0 <= k + n
    ensures PowerOfTwo(k) * Pow2(n) as real == Pow2(k + n) as real
    decreases if k < 0 then -k else k
  {
    if k > 0 {
      PowersMeet(k - 1, n);
    } else if k < 0 {
      PowersMeet(k + 1, n);
    }
  }

  lemma Scaled(m: nat, p: real, n: nat, q: nat)
    requires p * n as real == q as real
    ensures (m as real * p) * n as real == (m * q) as real
  {
    assert (m as real * p) * n as real == m as real * (p * n as real);
  }

  /** A pattern is a sign bit, eight bits of exponent and 23 of fraction; 2^149 times the value is a whole number. */
  lemma FloatParts(negative: bool, e: nat, f: nat)
    requires e < 0x100 && f < 0x80_0000
    ensures var v := ValueOf((if negative then 0x8000_0000 else 0) + e * 0x80_0000 + f);
            if e == 0xFF then v == if f != 0 then NaN else if negative then NegInf else PosInf
            else
              var whole := if e == 0 then f else (f + 0x80_0000) * Pow2(e - 1);
              v.Finite? && v.r * Pow2(149) as real == (if negative then -whole else whole) as real
  {
    hide PowerOfTwo, Pow2;
    var bits := (if negative then 0x8000_0000 else 0) + e * 0x80_0000 + f;
    assert bits / 0x80_0000 == (if negative then 0x100 else 0) + e && bits % 0x80_0000 == f;
    assert bits / 0x8000_0000 == 1 <==> negative;
    assert bits / 0x80_0000 % 0x100 == e;
    if e == 0 {
      PowersMeet(-149, 149);
      OnePower();
      Scaled(f, PowerOfTwo(-149), Pow2(149), Pow2(0));
      Mirrored(f as real * PowerOfTwo(-149), Pow2(149));
    } else if e < 0xFF {
      PowersMeet(e - 150, 149);
      Scaled(f + 0x80_0000, PowerOfTwo(e - 150), Pow2(149), Pow2(e - 1));
      Mirrored((f + 0x80_0000) as real * PowerOfTwo(e - 150), Pow2(149));
    }
  }

  lemma OnePower()
    ensures Pow2(0) == 1
  {
  }

  lemma Mirrored(m: real, n: nat)
    ensures (-m) * n as real == -(m * n as real)
  {
  }

  /** The numbers that the library writes as float constants: 0.05f, 1.0f and 500.0f. */
  lemma FloatConstants()
    ensures ValueOf(0x3D4C_CCCD) == Finite(0.0500000007450580596923828125)
    ensures ValueOf(0x3F80_0000) == Finite(1.0) && ValueOf(0x43FA_0000) == Finite(500.0) && ValueOf(0) == Finite(0.0)
  {
    hide ValueOf;
    FiveHundredths();
    One();
    FiveHundred();
    Nothing();
  }

  lemma Nothing()
    ensures ValueOf(0) == Finite(0.0)
  {
  }

  lemma FiveHundredths()
    ensures ValueOf(0x3D4C_CCCD) == Finite(0.0500000007450580596923828125)
  {
    assert PowerOfTwo(-10) == 1.0 / 1024.0;
    assert PowerOfTwo(-20) == 1.0 / 1048576.0;
    assert PowerOfTwo(-28) == 1.0 / 268435456.0;
    assert 0x3D4C_CCCD / 0x80_0000 == 122 && 0x3D4C_CCCD % 0x80_0000 == 0x4C_CCCD;
  }

  lemma One()
    ensures ValueOf(0x3F80_0000) == Finite(1.0)
  {
    assert PowerOfTwo(-10) == 1.0 / 1024.0;
    assert PowerOfTwo(-23) == 1.0 / 8388608.0;
    assert 0x3F80_0000 / 0x80_0000 == 127 && 0x3F80_0000 % 0x80_0000 == 0;
  }

  lemma FiveHundred()
    ensures ValueOf(0x43FA_0000) == Finite(500.0)
  {
    assert PowerOfTwo(-15) == 1.0 / 32768.0;
    assert 0x43FA_0000 / 0x80_0000 == 135 && 0x43FA_0000 % 0x80_0000 == 0x7A_0000;
  }
}
