/** fp32 values and arithmetic as ordinals (see FloatGrid), and the cast to bf16.

A non-NaN fp32 value is an ordinal in [-INF, INF]: the magnitude bits, negated for negative values; +0 and -0 share
ordinal 0.  Comparing values is comparing ordinals and nextafter is a step of one. */
module Fp32 {
  import opened FloatGrid

  const STEPS: nat := 0x80_0000        // 2^23: fp32 values per binade
  const INF: int := 0x7F80_0000        // the bit pattern of +infinity
  const BF16_STEPS: nat := 0x80        // 2^7: bf16 values per binade

  function Pow2(e: int): (p: real)
    ensures p > 0.0
    decreases if e >= 0 then e else -e
  {
    if e == 0 then 1.0 else if e > 0 then 2.0 * Pow2(e - 1) else Pow2(e + 1) / 2.0
  }

  /** The smallest positive fp32 value, 2^-149. */
  const QUANTUM: real := Pow2(-149)

  type Ordinal = o: int | -INF <= o <= INF

  /** An fp32 value; every comparison with NaN is false. */
  datatype F32 = NaN | Ord(o: Ordinal)
  {
    predicate Ge(other: F32) { Ord? && other.Ord? && o >= other.o }
  }

  predicate Finite(o: Ordinal) { -INF < o < INF }

  /** The value of a finite ordinal in units of QUANTUM. */
  function SignedUnits(o: Ordinal): (u: int)
    ensures o >= 0 ==> u >= 0
    ensures o <= 0 ==> u <= 0
  {
    if o >= 0 then Units(STEPS, o) else 0 - Units(STEPS, -o)
  }

  function Value(o: Ordinal): real { SignedUnits(o) as real * QUANTUM }

  function Clamp(b: nat): (c: Ordinal)
    ensures c >= 0
  {
    if b < INF then b else INF
  }

  /** A real number of units rounded to fp32, overflowing to infinity. */
  function RoundUnits(y: real): (o: Ordinal)
    ensures y >= 0.0 ==> o >= 0
    ensures y <= 0.0 ==> o <= 0
  {
    if y >= 0.0 then Clamp(Nearest(STEPS, y)) else -Clamp(Nearest(STEPS, -y))
  }

  /** The cast of a real to fp32. */
  function Round32(x: real): Ordinal { RoundUnits(x / QUANTUM) }

  lemma {:induction false} SignedUnitsMonotone(a: Ordinal, b: Ordinal)
    requires a < b
    ensures SignedUnits(a) < SignedUnits(b)
  {
    if a >= 0 {
      UnitsMonotone(STEPS, a, b);
    } else if b <= 0 {
      UnitsMonotone(STEPS, -b, -a);
    } else {
      UnitsMonotone(STEPS, 0, b);
    }
  }

  lemma {:induction false} RoundUnitsMonotone(y: real, z: real)
    requires y <= z
    ensures RoundUnits(y) <= RoundUnits(z)
  {
    if y >= 0.0 {
      NearestMonotone(STEPS, y, z);
    } else if z < 0.0 {
      NearestMonotone(STEPS, -z, -y);
    }
  }

  lemma {:induction false} RoundUnitsExact(o: Ordinal)
    ensures RoundUnits(SignedUnits(o) as real) == o
  {
    NearestOfUnits(STEPS, if o >= 0 then o else -o);
    if o < 0 { UnitsMonotone(STEPS, 0, -o); }
  }

  lemma {:induction false} RoundUnitsOdd(y: real)
    ensures RoundUnits(-y) == -RoundUnits(y)
  {
  }

  lemma {:induction false} Round32Monotone(x: real, y: real)
    requires x <= y
    ensures Round32(x) <= Round32(y)
  {
    RoundUnitsMonotone(x / QUANTUM, y / QUANTUM);
  }

  lemma {:induction false} Round32Exact(o: Ordinal)
    ensures Round32(Value(o)) == o
  {
    assert SignedUnits(o) as real * QUANTUM / QUANTUM == SignedUnits(o) as real;
    RoundUnitsExact(o);
  }

  // -------------------------------------------------------------------------------------- powers of two and integers

  lemma {:induction false} ValueOfPower(k: nat)
    requires (k + 1) * STEPS < INF
    ensures Value((k + 1) * STEPS) == STEPS as real * Pow2(k - 149)
  {
    if k > 0 {
      ValueOfPower(k - 1);
      DoubledValue(k * STEPS);
    }
  }

  lemma {:induction false} DoubledValue(o: nat)
    requires STEPS <= o && o + STEPS < INF
    ensures Value(o + STEPS) == 2.0 * Value(o)
  {
    hide Pow2;
    assert Units(STEPS, o + STEPS) == 2 * Units(STEPS, o);
    assert (2 * Units(STEPS, o)) as real * QUANTUM == 2.0 * (Units(STEPS, o) as real * QUANTUM);
  }

  /** The values 1/4, 1 and 4. */
  const QUARTER: Ordinal := 125 * STEPS
  const ONE: Ordinal := 127 * STEPS
  const FOUR: Ordinal := 129 * STEPS

  lemma {:induction false} SmallValues()
    ensures Value(0) == 0.0 && Value(QUARTER) == 0.25 && Value(ONE) == 1.0 && Value(FOUR) == 4.0
    ensures Value(-ONE) == -1.0 && 0.0 <= Value(STEPS) <= 0.25
  {
    assert Pow2(-6) == 1.0 / 64.0;
    assert Pow2(-12) == 1.0 / 4096.0;
    assert Pow2(-18) == 1.0 / 262144.0;
    assert Pow2(-23) == 1.0 / 8388608.0;
    ValueOfPower(124);
    ValueOfPower(126);
    ValueOfPower(128);
    SignedUnitsMonotone(STEPS, QUARTER);
  }

  lemma {:induction false} ValueMonotone(a: Ordinal, b: Ordinal)
    requires a < b
    ensures Value(a) < Value(b)
  {
    hide SignedUnits, Pow2;
    SignedUnitsMonotone(a, b);
    ScaleStrictly(SignedUnits(a) as real, SignedUnits(b) as real, QUANTUM);
  }

  lemma {:induction false} ScaleStrictly(x: real, y: real, q: real)
    requires x < y && q > 0.0
    ensures x * q < y * q
  {
    assert (y - x) * q > 0.0;
  }

  lemma {:induction false} Reciprocals(k: nat)
    ensures Pow2(k) * Pow2(0 - k) == 1.0
  {
    if k > 0 {
      Reciprocals(k - 1);
      assert Pow2(k) * Pow2(0 - k) == (2.0 * Pow2(k - 1)) * (Pow2(1 - k) / 2.0);
    }
  }

  lemma {:induction false} ShiftedValue(o: nat, k: nat)
    requires STEPS <= o && o + k * STEPS < INF
    ensures Value(o + k * STEPS) == Pow2(k) * Value(o)
  {
    hide Value;
    if k > 0 {
      ShiftedValue(o, k - 1);
      DoubledValue(o + (k - 1) * STEPS);
      DoublePower(k, Value(o));
    }
  }

  lemma {:induction false} DoublePower(k: nat, v: real)
    requires k > 0
    ensures Pow2(k) * v == 2.0 * (Pow2(k - 1) * v)
  {
  }

  /** Every integer up to 2^24 is an fp32 value: doubled until it has all its bits, it is the ordinal itself,
  shifted. */
  lemma {:induction false} IntegerIsValue(n: nat) returns (o: Ordinal)
    requires n <= 2 * STEPS
    ensures Finite(o) && Value(o) == n as real
    decreases 2 * STEPS - n
  {
    hide Pow2;
    if n == 0 {
      o := 0;
    } else if n < STEPS {
      var twice := IntegerIsValue(2 * n);
      SmallValues();
      if twice < QUARTER { ValueMonotone(twice, QUARTER); }
      o := twice - STEPS;
      DoubledValue(o);
    } else {
      o := n + 149 * STEPS;
      ShiftedValue(n, 149);
      Reciprocals(149);
      Associate(Pow2(149), n as real, QUANTUM);
    }
  }

  lemma {:induction false} Associate(p: real, n: real, q: real)
    requires p * q == 1.0
    ensures p * (n * q) == n
  {
    assert p * (n * q) == n * (p * q);
  }

  // ---------------------------------------------------------------------------------------------- bf16

  /** The upper sixteen bits of a magnitude after round-to-nearest-even, by the add-and-shift trick. */
  function Bf16Mag(b: nat): nat
  {
    (b + 0x7FFF + (b / 0x1_0000) % 2) / 0x1_0000
  }

  /** The bf16 rounding of an fp32 value, as the fp32 value it equals. */
  function Bf16(o: Ordinal): (r: Ordinal)
  {
    if o >= 0 then Bf16Mag(o) * 0x1_0000 else -(Bf16Mag(-o) * 0x1_0000)
  }

  lemma {:induction false} Bf16MagMonotone(b: nat, c: nat)
    requires b <= c
    ensures Bf16Mag(b) <= Bf16Mag(c)
  {
  }

  lemma {:induction false} Bf16Monotone(a: Ordinal, b: Ordinal)
    requires a <= b
    ensures Bf16(a) <= Bf16(b)
  {
    if a >= 0 {
      Bf16MagMonotone(a, b);
    } else if b < 0 {
      Bf16MagMonotone(-b, -a);
    }
  }

  /** bf16 values are the fp32 values whose low sixteen bits are zero. */
  lemma {:induction false} Bf16UnitsInFp32(u: nat)
    ensures Units(STEPS, u * 0x1_0000) == 0x1_0000 * Units(BF16_STEPS, u)
  {
    if u >= 2 * BF16_STEPS {
      Bf16UnitsInFp32(u - BF16_STEPS);
      assert u * 0x1_0000 - STEPS == (u - BF16_STEPS) * 0x1_0000;
    }
  }

  /** The bit trick is rounding of the value to the nearest bf16 value, ties to even. */
  lemma {:induction false} Bf16MagIsNearest(b: nat)
    ensures Bf16Mag(b) == Nearest(BF16_STEPS, Units(STEPS, b) as real / 65536.0)
  {
    if b < 2 * STEPS {
      Bf16MagBelow(b);
    } else {
      Bf16MagIsNearest(b - STEPS);
      Bf16MagShift(b - STEPS);
      var half := Units(STEPS, b - STEPS) as real / 65536.0;
      assert Units(STEPS, b) as real / 65536.0 == 2.0 * half;
      assert half >= BF16_STEPS as real;
      assert Nearest(BF16_STEPS, 2.0 * half) == BF16_STEPS + Nearest(BF16_STEPS, half);
    }
  }

  lemma {:induction false} Bf16MagShift(b: nat)
    ensures Bf16Mag(b + STEPS) == BF16_STEPS + Bf16Mag(b)
  {
    assert (b + STEPS) / 0x1_0000 == b / 0x1_0000 + BF16_STEPS;
  }

  /** In the two lowest binades the value is the ordinal, so the rounding is of b / 2^16 to an integer. */
  lemma {:induction false} Bf16MagBelow(b: nat)
    requires b < 2 * STEPS
    ensures Bf16Mag(b) == Nearest(BF16_STEPS, Units(STEPS, b) as real / 65536.0)
  {
    var y := b as real / 65536.0;
    FloorOfQuotient(b);
    assert y < (2 * BF16_STEPS) as real;
  }

  lemma {:induction false} FloorOfQuotient(b: nat)
    ensures (b as real / 65536.0).Floor == b / 0x1_0000
    ensures Bf16Mag(b) == Rint(b as real / 65536.0)
  {
    var hi, lo := b / 0x1_0000, b % 0x1_0000;
    var frac := lo as real / 65536.0;
    assert b as real / 65536.0 == hi as real + frac && 0.0 <= frac < 1.0;
  }

  /** A value that is already bf16 is kept. */
  lemma {:induction false} Bf16Exact(u: nat)
    ensures Bf16Mag(u * 0x1_0000) == u
  {
    assert u * 0x1_0000 / 0x1_0000 == u;
  }

  // ---------------------------------------------------------------------------------------------- arithmetic

  function Add(a: F32, b: F32): F32
  {
    if a.NaN? || b.NaN? then NaN
    else if !Finite(a.o) then (if b.o == -a.o then NaN else a)
    else if !Finite(b.o) then b
    else Ord(RoundUnits((SignedUnits(a.o) + SignedUnits(b.o)) as real))
  }

  function Neg(a: F32): F32 { if a.NaN? then NaN else Ord(-a.o) }

  function Sub(a: F32, b: F32): F32 { Add(a, Neg(b)) }

  /** The fp32 quotient by a positive finite value t, correctly rounded. */
  function Div(a: Ordinal, t: real): Ordinal
    requires t > 0.0
  {
    if !Finite(a) then a else RoundUnits(SignedUnits(a) as real / t)
  }

  /** nextafter applied n times, upwards for n > 0 and downwards for n < 0. */
  function NextAfter(a: Ordinal, n: int): Ordinal
  {
    if a + n > INF then INF else if a + n < -INF then -INF else a + n
  }

  lemma {:induction false} AddMonotone(a: F32, b: F32, g: F32)
    requires a.Ord? && b.Ord? && a.o <= b.o && g.Ord? && Finite(g.o)
    ensures Add(a, g).Ord? && Add(b, g).Ord? && Add(a, g).o <= Add(b, g).o
  {
    if Finite(a.o) && Finite(b.o) {
      if a.o < b.o { SignedUnitsMonotone(a.o, b.o); }
      RoundUnitsMonotone((SignedUnits(a.o) + SignedUnits(g.o)) as real, (SignedUnits(b.o) + SignedUnits(g.o)) as real);
    }
  }

  lemma {:induction false} DivMonotone(a: Ordinal, b: Ordinal, t: real)
    requires a <= b && t > 0.0
    ensures Div(a, t) <= Div(b, t)
  {
    if Finite(a) && Finite(b) {
      if a < b { SignedUnitsMonotone(a, b); }
      QuotientMonotone(SignedUnits(a) as real, SignedUnits(b) as real, t);
      RoundUnitsMonotone(SignedUnits(a) as real / t, SignedUnits(b) as real / t);
    }
  }

  lemma {:induction false} QuotientMonotone(a: real, b: real, t: real)
    requires a <= b && t > 0.0
    ensures a / t <= b / t
  {
    assert (b - a) / t >= 0.0;
    assert b / t - a / t == (b - a) / t;
  }
}
