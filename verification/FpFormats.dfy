/** The small float formats of overlay/fpfmt.py: bf16 bit patterns, e4m3fn, e2m1, packed nibbles, and the upward
rounding used for stored norms.  Each encoder is shown to be Nearest of FloatGrid on its own grid. */
module FpFormats {
  import opened FloatGrid
  import opened Fp32

  // ---------------------------------------------------------------------------------------------- bf16 bit patterns

  type Bits32 = b: nat | b < 0x1_0000_0000

  const SIGN32: nat := 0x8000_0000

  predicate IsNaN32(b: Bits32) { b % SIGN32 > INF }

  /** bf16_bits: fp32 pattern -> bf16 pattern. The sums are made in uint64, then cast to uint16. */
  function Bf16Bits(b: Bits32): nat
  {
    var r := (b + 0x7FFF + (b / 0x1_0000) % 2) / 0x1_0000;
    var quiet := if (b / 0x40_0000) % 2 == 1 then b / 0x1_0000 else b / 0x1_0000 + 0x40;
    (if IsNaN32(b) then quiet else r) % 0x1_0000
  }

  /** A non-NaN pattern keeps its sign and its magnitude is rounded to the nearest bf16 value, ties to even;
  the carry never reaches the sign and the uint16 cast never wraps. */
  lemma {:induction false} Bf16BitsRounds(b: Bits32)
    requires !IsNaN32(b)
    ensures Bf16Bits(b) % 0x8000 == Nearest(BF16_STEPS, Units(STEPS, b % SIGN32) as real / 65536.0)
    ensures Bf16Bits(b) % 0x8000 <= 0x7F80 && Bf16Bits(b) / 0x8000 == b / SIGN32
  {
    BitsOfPattern(b);
    Bf16MagIsNearest(b % SIGN32);
  }

  lemma {:induction false} BitsOfPattern(b: Bits32)
    requires !IsNaN32(b)
    ensures Bf16Bits(b) % 0x8000 == Bf16Mag(b % SIGN32) <= 0x7F80 && Bf16Bits(b) / 0x8000 == b / SIGN32
  {
    var sign, mag := b / SIGN32, b % SIGN32;
    SplitPattern(sign, mag);
    MagInRange(mag);
    assert Bf16Bits(b) == sign * 0x8000 + Bf16Mag(mag);
  }

  lemma {:induction false} MagInRange(mag: nat)
    requires mag <= INF
    ensures Bf16Mag(mag) <= 0x7F80
  {
    Bf16MagMonotone(mag, INF);
    assert Bf16Mag(INF) == 0x7F80;
  }

  /** A NaN stays a NaN of the same sign, because the quiet bit is set. */
  lemma {:induction false} Bf16BitsKeepsNaN(b: Bits32)
    requires IsNaN32(b)
    ensures Bf16Bits(b) % 0x8000 > 0x7F80 && Bf16Bits(b) / 0x8000 == b / SIGN32
  {
    var sign, mag := b / SIGN32, b % SIGN32;
    SplitPattern(sign, mag);
    QuietBit(sign, mag);
  }

  lemma {:induction false} QuietBit(sign: nat, mag: nat)
    requires sign <= 1 && INF < mag < SIGN32
    ensures var h := mag / 0x1_0000;
            0x7F80 <= h < 0x8000 && ((sign * SIGN32 + mag) / 0x40_0000) % 2 == (h - 0x7F80) / 0x40
  {
    var h := mag / 0x1_0000;
    var top := mag / 0x40_0000;
    assert top == h / 0x40;
    assert (sign * SIGN32 + mag) / 0x40_0000 == sign * 0x200 + top;
  }

  lemma {:induction false} SplitPattern(sign: nat, mag: nat)
    requires sign <= 1 && mag < SIGN32
    ensures var b := sign * SIGN32 + mag;
            && b / 0x1_0000 == sign * 0x8000 + mag / 0x1_0000
            && (b / 0x1_0000) % 2 == (mag / 0x1_0000) % 2
            && (b + 0x7FFF + (b / 0x1_0000) % 2) / 0x1_0000 == sign * 0x8000 + Bf16Mag(mag)
  {
    if sign == 1 {
      assert (SIGN32 + mag) / 0x1_0000 == 0x8000 + mag / 0x1_0000;
    }
  }

  // ---------------------------------------------------------------------------------------------- upward rounding

  predicate Below(o: Ordinal, x: real) { o == -INF || (Finite(o) && Value(o) < x) }

  predicate AtLeast(o: Ordinal, x: real) { o == INF || (Finite(o) && Value(o) >= x) }

  /** The smallest fp32 value that is not below x. */
  ghost predicate IsRoundUp(o: Ordinal, x: real)
  {
    AtLeast(o, x) && forall c: Ordinal :: AtLeast(c, x) ==> o <= c
  }

  /** round_up_f32 on an array: cast, then bump the entries the cast took below their value. */
  method RoundUpF32(x: array<real>) returns (f: array<Ordinal>)
    ensures fresh(f) && f.Length == x.Length
    ensures forall i :: 0 <= i < x.Length ==> IsRoundUp(f[i], x[i])
  {
    f := new Ordinal[x.Length];
    var i := 0;
    while i < x.Length
      invariant 0 <= i <= x.Length
      invariant forall j :: 0 <= j < i ==> f[j] == Round32(x[j])
    {
      f[i] := Round32(x[i]);
      i := i + 1;
    }
    i := 0;
    while i < x.Length
      invariant 0 <= i <= x.Length
      invariant forall j :: 0 <= j < i ==> IsRoundUp(f[j], x[j])
      invariant forall j :: i <= j < x.Length ==> f[j] == Round32(x[j])
    {
      CastOrBump(x[i]);
      if Below(f[i], x[i]) {
        f[i] := NextAfter(f[i], 1);
      }
      i := i + 1;
    }
  }

  lemma {:induction false} CastOrBump(x: real)
    ensures IsRoundUp(if Below(Round32(x), x) then NextAfter(Round32(x), 1) else Round32(x), x)
  {
    var f := Round32(x);
    if Below(f, x) {
      if Finite(NextAfter(f, 1)) { CastNotTwoBelow(x); }
    }
    forall c: Ordinal | c < f
      ensures !AtLeast(c, x)
    {
      SmallerIsBelow(c, f, x);
    }
  }

  /** The cast is the nearest value, so the value after it is not below x too. */
  lemma {:induction false} CastNotTwoBelow(x: real)
    requires Below(Round32(x), x) && Finite(NextAfter(Round32(x), 1))
    ensures Value(NextAfter(Round32(x), 1)) >= x
  {
    var f := Round32(x);
    var r := NextAfter(f, 1);
    if Value(r) < x {
      Round32Monotone(Value(r), x);
      Round32Exact(r);
      assert false;
    }
  }

  lemma {:induction false} SmallerIsBelow(c: Ordinal, f: Ordinal, x: real)
    requires c < f == Round32(x)
    ensures !AtLeast(c, x)
  {
    if Finite(c) && Value(c) >= x {
      Round32Monotone(x, Value(c));
      Round32Exact(c);
      assert false;
    }
  }

  // ---------------------------------------------------------------------------------------------- e4m3fn

  const E4M3_STEPS: nat := 8
  const E4M3_MAX: real := 448.0
  const E4M3_TOP: nat := 0x7E         // the magnitude bits of 448

  datatype Result<T> = Ok(value: T) | Overflow

  /** The exponent e of np.frexp: x = m * 2^e with m in [0.5, 1); 0 for x = 0. */
  function FrexpExponent(x: real): (e: int)
    requires x >= 0.0
    ensures x > 0.0 ==> Pow2(e - 1) <= x < Pow2(e)
    decreases if x >= 1.0 then x.Floor else if 0.0 < x < 0.5 then (1.0 / x).Floor else 0
  {
    if x == 0.0 then 0
    else if x >= 1.0 then FrexpExponent(x / 2.0) + 1
    else if x < 0.5 then
      assert 1.0 / x == 2.0 * (1.0 / (2.0 * x));
      assert 1.0 / x > 2.0;
      FrexpExponent(2.0 * x) - 1
    else 0
  }

  /** The exponent of the binade used for rounding: the normal one, or the subnormal floor. */
  function E4m3Exponent(ax: real): int
    requires ax >= 0.0
  {
    var e := FrexpExponent(ax) - 1;
    if e < -6 then -6 else e
  }

  function E4m3RoundMag(ax: real): real
    requires ax >= 0.0
  {
    RoundAt(ax, Pow2(E4m3Exponent(ax) - 3))
  }

  function RoundAt(x: real, q: real): real
    requires q > 0.0
  {
    Rint(x / q) as real * q
  }

  /** e4m3_round: the nearest e4m3 value, or an error above 448. */
  function E4m3Round(x: real): Result<real>
  {
    var r := E4m3RoundMag(Mag(x));
    if r > E4M3_MAX then Overflow else Ok(if x < 0.0 then -r else r)
  }

  /** The value of the magnitude with ordinal b, in reals. */
  function E4m3Value(b: nat): real { Units(E4M3_STEPS, b) as real / 512.0 }

  lemma {:induction false} Pow2Monotone(d: int, e: int)
    requires d <= e
    ensures Pow2(d) <= Pow2(e)
    decreases e - d
  {
    if d < e {
      Pow2Monotone(d, e - 1);
      Pow2Double(e - 1);
    }
  }

  lemma {:induction false} Pow2Double(e: int)
    ensures Pow2(e + 1) == 2.0 * Pow2(e)
  {
  }

  lemma {:induction false} FrexpUnique(x: real, e: int)
    requires x > 0.0 && Pow2(e - 1) <= x < Pow2(e)
    ensures FrexpExponent(x) == e
  {
    var f := FrexpExponent(x);
    if f < e {
      Pow2Monotone(f, e - 1);
    } else if e < f {
      Pow2Monotone(e, f - 1);
    }
  }

  /** The binade exponent goes up by one when the value doubles, and stays at the floor below 2^-5. */
  lemma {:induction false} E4m3ExponentStep(ax: real)
    requires ax > 0.0
    ensures 32.0 * ax < 1.0 ==> E4m3Exponent(ax) == -6
    ensures 32.0 * ax >= 1.0 ==>
            E4m3Exponent(ax) == E4m3Exponent(ax / 2.0) + 1 && FrexpExponent(ax) == E4m3Exponent(ax) + 1
  {
    var e := FrexpExponent(ax);
    assert Pow2(-5) == 1.0 / 32.0;
    if 32.0 * ax < 1.0 {
      if e > -5 { Pow2Monotone(-5, e - 1); }
    } else {
      if e <= -5 { Pow2Monotone(e, -5); }
      Pow2Double(e - 1);
      Pow2Double(e - 2);
      FrexpUnique(ax / 2.0, e - 1);
    }
  }

  lemma {:induction false} QuotientHalves(x: real, q: real)
    requires q > 0.0
    ensures x / (2.0 * q) == (x / 2.0) / q
    ensures RoundAt(x, 2.0 * q) == 2.0 * RoundAt(x / 2.0, q)
  {
    assert x / (2.0 * q) == (x / 2.0) / q;
    ProductDoubles(Rint((x / 2.0) / q) as real, q);
  }

  lemma {:induction false} ProductDoubles(c: real, q: real)
    ensures c * (2.0 * q) == 2.0 * (c * q)
  {
  }

  lemma {:induction false} RoundMagStep(ax: real)
    requires 512.0 * ax >= 16.0
    ensures E4m3RoundMag(ax) == 2.0 * E4m3RoundMag(ax / 2.0)
  {
    E4m3ExponentStep(ax);
    var e := E4m3Exponent(ax / 2.0);
    Pow2Double(e - 3);
    QuotientHalves(ax, Pow2(e - 3));
  }

  /** The direct rounding with its own exponent is Nearest on the grid of e4m3. */
  lemma {:induction false} E4m3RoundMagIsNearest(ax: real)
    requires ax >= 0.0
    ensures E4m3RoundMag(ax) == E4m3Value(Nearest(E4M3_STEPS, 512.0 * ax))
    decreases (512.0 * ax).Floor
  {
    if 512.0 * ax < 16.0 {
      BottomRoundMag(ax);
    } else {
      HalfFloor(512.0 * ax);
      assert 512.0 * (ax / 2.0) == 512.0 * ax / 2.0;
      E4m3RoundMagIsNearest(ax / 2.0);
      RoundMagStep(ax);
      E4m3NearestStep(ax);
    }
  }

  lemma {:induction false} BottomRoundMag(ax: real)
    requires 0.0 <= 512.0 * ax < 16.0
    ensures E4m3RoundMag(ax) == E4m3Value(Nearest(E4M3_STEPS, 512.0 * ax))
  {
    if ax == 0.0 {
      assert Rint(0.0) == 0;
    } else {
      E4m3ExponentStep(ax);
      assert Pow2(-9) == 1.0 / 512.0;
      assert ax / Pow2(-9) == 512.0 * ax;
    }
  }

  lemma {:induction false} E4m3NearestStep(ax: real)
    requires 512.0 * ax >= 16.0
    ensures E4m3Value(Nearest(E4M3_STEPS, 512.0 * ax)) == 2.0 * E4m3Value(Nearest(E4M3_STEPS, 512.0 * (ax / 2.0)))
  {
    var y := 512.0 * ax;
    assert y / 2.0 == 512.0 * (ax / 2.0);
    assert Nearest(E4M3_STEPS, y) == E4M3_STEPS + Nearest(E4M3_STEPS, y / 2.0);
  }

  /** e4m3_round gives the value of the nearest ordinal, ties to even, exactly when that is at most 448. */
  lemma {:induction false} E4m3RoundIsNearest(x: real)
    ensures var n := Nearest(E4M3_STEPS, 512.0 * Mag(x));
            E4m3Round(x) == if n <= E4M3_TOP then Ok(if x < 0.0 then -E4m3Value(n) else E4m3Value(n)) else Overflow
  {
    hide Nearest, E4m3RoundMag;
    E4m3RoundMagIsNearest(Mag(x));
    var n := Nearest(E4M3_STEPS, 512.0 * Mag(x));
    assert Units(E4M3_STEPS, E4M3_TOP) == 229376 by {
      E4m3TopUnits();
    }
    if n < E4M3_TOP {
      UnitsMonotone(E4M3_STEPS, n, E4M3_TOP);
    } else if n > E4M3_TOP {
      UnitsMonotone(E4M3_STEPS, E4M3_TOP, n);
    }
  }

  lemma {:induction false} E4m3TopUnits()
    ensures Units(E4M3_STEPS, E4M3_TOP) == 229376
  {
    assert Units(8, 14) == 14;
    assert Units(8, 22) == 28;
    assert Units(8, 30) == 56;
    assert Units(8, 38) == 112;
    assert Units(8, 46) == 224;
    assert Units(8, 54) == 448;
    assert Units(8, 62) == 896;
    assert Units(8, 70) == 1792;
    assert Units(8, 78) == 3584;
    assert Units(8, 86) == 7168;
    assert Units(8, 94) == 14336;
    assert Units(8, 102) == 28672;
    assert Units(8, 110) == 57344;
    assert Units(8, 118) == 114688;
  }

  function SubnormalCode(a: real): int { Rint(a / Pow2(-9)) }

  function NormalCode(a: real): int
    requires a >= 0.0
  {
    var e := FrexpExponent(a) - 1;
    (e + 7) * 8 + (Rint(a / Pow2(e - 3)) - 8)
  }

  function Mag(x: real): (a: real)
    ensures a >= 0.0
  {
    if x < 0.0 then -x else x
  }

  function EncodeMag(a: real): int
    requires a >= 0.0
  {
    if a == 0.0 then 0 else if 64.0 * a < 1.0 then SubnormalCode(a) else NormalCode(a)
  }

  /** The code after the subnormal pass: normal entries are still zero. */
  function SubnormalPass(a: real): int
    requires a >= 0.0
  {
    if a > 0.0 && 64.0 * a < 1.0 then SubnormalCode(a) else 0
  }

  predicate Encodes(code: int, v: real) { 0 <= code < 0x100 && E4m3Decode(code) == Ok(v) }

  ghost predicate Representable(v: real)
  {
    exists b: nat :: b <= E4M3_TOP && Mag(v) == E4m3Value(b)
  }

  /** e4m3_encode on an array of representable values: the subnormal entries are filled, then the normal ones,
  then the signs. Decoding each byte gives the value back. */
  method E4m3Encode(v: array<real>) returns (out: array<int>)
    requires forall i :: 0 <= i < v.Length ==> Representable(v[i])
    ensures fresh(out) && out.Length == v.Length
    ensures forall i :: 0 <= i < v.Length ==> Encodes(out[i], v[i])
  {
    out := new int[v.Length](_ => 0);
    var i := 0;
    while i < v.Length
      invariant 0 <= i <= v.Length
      invariant forall j :: 0 <= j < v.Length ==> out[j] == if j < i then SubnormalPass(Mag(v[j])) else 0
    {
      var a := Mag(v[i]);
      if a > 0.0 && 64.0 * a < 1.0 {
        out[i] := SubnormalCode(a);
      }
      i := i + 1;
    }
    i := 0;
    while i < v.Length
      invariant 0 <= i <= v.Length
      invariant forall j :: 0 <= j < v.Length ==>
                  out[j] == if j < i then EncodeMag(Mag(v[j])) else SubnormalPass(Mag(v[j]))
    {
      if 64.0 * Mag(v[i]) >= 1.0 {
        out[i] := NormalCode(Mag(v[i]));
      }
      i := i + 1;
    }
    AddSigns(v, out);
  }

  method AddSigns(v: array<real>, out: array<int>)
    requires v.Length == out.Length && v as object != out as object
    requires forall i :: 0 <= i < v.Length ==> Representable(v[i]) && out[i] == EncodeMag(Mag(v[i]))
    modifies out
    ensures forall i :: 0 <= i < v.Length ==> Encodes(out[i], v[i])
  {
    var i := 0;
    while i < v.Length
      invariant 0 <= i <= v.Length
      invariant forall j :: 0 <= j < i ==> Encodes(out[j], v[j])
      invariant forall j :: i <= j < v.Length ==> out[j] == EncodeMag(Mag(v[j]))
    {
      EncodeDecodes(v[i]);
      if v[i] < 0.0 {
        out[i] := out[i] + 0x80;
      }
      i := i + 1;
    }
  }

  /** Encoding the value of ordinal b gives back b: the code of a magnitude is its ordinal. */
  lemma {:induction false} EncodeOfValue(b: nat)
    ensures E4m3Value(b) >= 0.0 && EncodeMag(E4m3Value(b)) == b
  {
    var a := E4m3Value(b);
    if b < 8 {
      assert Pow2(-9) == 1.0 / 512.0;
      assert a / Pow2(-9) == b as real;
    } else {
      NormalCodeOfValue(b);
    }
  }

  lemma {:induction false} NormalCodeOfValue(b: nat)
    requires b >= 8
    ensures var a := E4m3Value(b); 64.0 * a >= 1.0 && FrexpExponent(a) == b / 8 - 6 && NormalCode(a) == b
  {
    if b < 16 {
      var a := E4m3Value(b);
      assert a == b as real / 512.0;
      assert Pow2(-6) == 1.0 / 64.0 && Pow2(-5) == 1.0 / 32.0 && Pow2(-9) == 1.0 / 512.0;
      FrexpUnique(a, -5);
      assert a / Pow2(-9) == b as real;
    } else {
      NormalCodeOfValue(b - 8);
      DoubledCode(b);
    }
  }

  /** The value of a normal code as the decoder writes it. */
  lemma {:induction false} ValueFormula(ex: nat, m: nat)
    requires ex >= 1 && m < 8
    ensures E4m3Value(8 * ex + m) == (1.0 + m as real / 8.0) * Pow2(ex - 7)
  {
    hide E4m3Value, Pow2;
    if ex == 1 {
      LowestNormal(m);
    } else {
      ValueFormula(ex - 1, m);
      ValueDoubles(8 * ex + m);
      Pow2Double(ex - 8);
      ProductDoubles(1.0 + m as real / 8.0, Pow2(ex - 8));
    }
  }

  lemma {:induction false} LowestNormal(m: nat)
    requires m < 8
    ensures E4m3Value(8 + m) == (1.0 + m as real / 8.0) * Pow2(1 - 7)
  {
    assert Pow2(-6) == 1.0 / 64.0;
    assert E4m3Value(8 + m) == (8.0 + m as real) / 512.0;
  }

  lemma {:induction false} ValueDoubles(b: nat)
    requires b >= 16
    ensures E4m3Value(b) == 2.0 * E4m3Value(b - 8)
  {
  }

  lemma {:induction false} DoubledCode(b: nat)
    requires b >= 16
    requires var h := E4m3Value(b - 8); h > 0.0 && FrexpExponent(h) == (b - 8) / 8 - 6 && NormalCode(h) == b - 8
    ensures var a := E4m3Value(b); a == 2.0 * E4m3Value(b - 8) && FrexpExponent(a) == b / 8 - 6 && NormalCode(a) == b
  {
    var h := E4m3Value(b - 8);
    assert E4m3Value(b) == 2.0 * h;
    CodeOfDouble(h);
  }

  lemma {:induction false} CodeOfDouble(h: real)
    requires h > 0.0
    ensures FrexpExponent(2.0 * h) == FrexpExponent(h) + 1 && NormalCode(2.0 * h) == NormalCode(h) + 8
  {
    var e := FrexpExponent(h);
    Pow2Double(e - 1);
    Pow2Double(e);
    FrexpUnique(2.0 * h, e + 1);
    Pow2Double(e - 4);
    QuotientHalves(2.0 * h, Pow2(e - 4));
  }

  function DecodeMag(ex: nat, m: nat): real
  {
    if ex == 0 then m as real * Pow2(-9) else (1.0 + m as real / 8.0) * Pow2(ex - 7)
  }

  /** e4m3_decode; code 0x7F (with either sign) is NaN and is not a value. */
  function E4m3Decode(code: nat): Result<real>
    requires code < 0x100
  {
    var ex, m := (code / 8) % 16, code % 8;
    if ex == 15 && m == 7 then Overflow
    else Ok(if code >= 0x80 then -DecodeMag(ex, m) else DecodeMag(ex, m))
  }

  lemma {:induction false} DecodeMagIsValue(b: nat)
    ensures DecodeMag(b / 8, b % 8) == E4m3Value(b)
  {
    var ex, m := b / 8, b % 8;
    assert b == 8 * ex + m;
    if ex >= 1 {
      ValueFormula(ex, m);
    } else {
      SubnormalValue(m);
    }
  }

  lemma {:induction false} SubnormalValue(m: nat)
    requires m < 8
    ensures E4m3Value(m) == m as real * Pow2(-9)
  {
    assert Pow2(-9) == 1.0 / 512.0;
  }

  lemma {:induction false} E4m3DecodeIsValue(code: nat)
    requires code < 0x100 && code % 0x80 <= E4M3_TOP
    ensures E4m3Decode(code) == Ok(if code >= 0x80 then -E4m3Value(code % 0x80) else E4m3Value(code % 0x80))
  {
    CodeFields(code);
    DecodeMagIsValue(code % 0x80);
  }

  lemma {:induction false} CodeFields(code: nat)
    requires code < 0x100
    ensures (code / 8) % 16 == (code % 0x80) / 8 && code % 8 == (code % 0x80) % 8
    ensures (code % 0x80) / 8 == 15 && (code % 0x80) % 8 == 7 ==> code % 0x80 == 0x7F
  {
    var m := code % 0x80;
    assert code == if code < 0x80 then m else 0x80 + m;
    assert code / 8 == m / 8 + (if code < 0x80 then 0 else 16);
  }

  lemma {:induction false} EncodeDecodes(v: real)
    requires Representable(v)
    ensures Encodes(EncodeMag(Mag(v)) + (if v < 0.0 then 0x80 else 0), v)
  {
    var b: nat :| b <= E4M3_TOP && Mag(v) == E4m3Value(b);
    EncodeOfValue(b);
    SignedDecode(b, v < 0.0);
  }

  lemma {:induction false} SignedDecode(b: nat, negative: bool)
    requires b <= E4M3_TOP
    ensures E4m3Decode(b + if negative then 0x80 else 0) == Ok(if negative then -E4m3Value(b) else E4m3Value(b))
  {
    var code := b + if negative then 0x80 else 0;
    assert code % 0x80 == b;
    E4m3DecodeIsValue(code);
  }

  /** What e4m3_round returns is representable (so encode and decode give it back), and rounding it again
  changes nothing. */
  lemma {:induction false} E4m3RoundIdempotent(x: real)
    requires E4m3Round(x).Ok?
    ensures Representable(E4m3Round(x).value) && E4m3Round(E4m3Round(x).value) == E4m3Round(x)
  {
    E4m3RoundIsNearest(x);
    var n := Nearest(E4M3_STEPS, 512.0 * Mag(x));
    assert Mag(E4m3Round(x).value) == E4m3Value(n);
    RoundOfRepresentable(E4m3Round(x).value, n);
  }

  lemma {:induction false} RoundOfRepresentable(v: real, n: nat)
    requires n <= E4M3_TOP && Mag(v) == E4m3Value(n)
    ensures E4m3Round(v) == Ok(v)
  {
    E4m3RoundIsNearest(v);
    assert 512.0 * Mag(v) == Units(E4M3_STEPS, n) as real;
    NearestOfUnits(E4M3_STEPS, n);
  }

  // ---------------------------------------------------------------------------------------------- e2m1

  const E2M1_STEPS: nat := 2
  const E2M1: seq<real> := [0.0, 0.5, 1.0, 1.5, 2.0, 3.0, 4.0, 6.0]
  const E2M1_MID: seq<real> := [0.25, 0.75, 1.25, 1.75, 2.5, 3.5, 5.0]
  const E2M1_MAX: real := 6.0

  /** The code of |x|: the nearest e2m1 ordinal, ties to even, saturating at 6. */
  function E2m1Nearest(x: real): nat
  {
    var n := Nearest(E2M1_STEPS, 2.0 * (if x < 0.0 then -x else x));
    if n < 7 then n else 7
  }

  /** e2m1_encode: count the midpoints below |x|, taking the even code on a tie; the sign goes in bit 3. */
  method E2m1Encode(x: real) returns (code: nat)
    ensures code == E2m1Nearest(x) + (if x < 0.0 && E2m1Nearest(x) != 0 then 8 else 0)
  {
    var ax := if x < 0.0 then -x else x;
    var a := if ax < E2M1_MAX then ax else E2M1_MAX;
    code := 0;
    var i := 0;
    while i < |E2M1_MID|
      invariant 0 <= i <= 7
      invariant code == MidpointsPassed(a, i)
    {
      var b := E2M1_MID[i];
      if (if i % 2 == 0 then a > b else a >= b) { code := code + 1; }
      i := i + 1;
    }
    MidpointsAreNearest(ax);
    if x < 0.0 && code != 0 {
      code := code + 8;
    }
  }

  function MidpointsPassed(a: real, n: nat): nat
    requires n <= 7
  {
    if n == 0 then 0
    else
      var b := E2M1_MID[n - 1];
      MidpointsPassed(a, n - 1) + if (if n % 2 == 1 then a > b else a >= b) then 1 else 0
  }

  lemma {:induction false} MidpointsAreNearest(ax: real)
    requires ax >= 0.0
    ensures MidpointsPassed(if ax < E2M1_MAX then ax else E2M1_MAX, 7) == E2m1Nearest(ax)
  {
    hide MidpointsPassed;
    CountMidpoints(if ax < E2M1_MAX then ax else E2M1_MAX);
    if ax >= 4.0 {
      TopBinade(ax);
    } else if ax >= 2.0 {
      assert Nearest(E2M1_STEPS, 2.0 * ax) == 2 + Nearest(E2M1_STEPS, ax) == 2 + Rint(ax);
    }
  }

  lemma {:induction false} TopBinade(ax: real)
    requires ax >= 4.0
    ensures E2m1Nearest(ax) == if ax <= 5.0 then 6 else 7
  {
    assert Nearest(E2M1_STEPS, 2.0 * ax) == 2 + Nearest(E2M1_STEPS, ax) == 4 + Nearest(E2M1_STEPS, ax / 2.0);
    if ax < 8.0 {
      assert Nearest(E2M1_STEPS, ax / 2.0) == Rint(ax / 2.0);
    }
  }

  lemma {:induction false} CountMidpoints(a: real)
    ensures MidpointsPassed(a, 7) ==
            (if a > 0.25 then 1 else 0) + (if a >= 0.75 then 1 else 0) + (if a > 1.25 then 1 else 0) +
            (if a >= 1.75 then 1 else 0) + (if a > 2.5 then 1 else 0) + (if a >= 3.5 then 1
                else 0) + (if a > 5.0 then 1 else 0)
  {
    assert MidpointsPassed(a, 1) == if a > 0.25 then 1 else 0;
    assert MidpointsPassed(a, 2) == MidpointsPassed(a, 1) + if a >= 0.75 then 1 else 0;
    assert MidpointsPassed(a, 3) == MidpointsPassed(a, 2) + if a > 1.25 then 1 else 0;
    assert MidpointsPassed(a, 4) == MidpointsPassed(a, 3) + if a >= 1.75 then 1 else 0;
    assert MidpointsPassed(a, 5) == MidpointsPassed(a, 4) + if a > 2.5 then 1 else 0;
    assert MidpointsPassed(a, 6) == MidpointsPassed(a, 5) + if a >= 3.5 then 1 else 0;
  }

  function E2m1Decode(code: nat): real
    requires code < 16
  {
    if code >= 8 then -E2M1[code - 8] else E2M1[code]
  }

  /** Decoding the code gives the value of the nearest ordinal with the sign of x; encoding that value again
  changes nothing. */
  lemma {:induction false} E2m1RoundTrip(x: real)
    ensures var n := E2m1Nearest(x);
            var code := n + (if x < 0.0 && n != 0 then 8 else 0);
            var v := Units(E2M1_STEPS, n) as real / 2.0;
            && E2m1Decode(code) == (if x < 0.0 then -v else v)
            && E2m1Nearest(E2m1Decode(code)) == n
  {
    var n := E2m1Nearest(x);
    DecodedCode(n);
    SignedNearest(n, Units(E2M1_STEPS, n) as real / 2.0);
  }

  lemma {:induction false} DecodedCode(n: nat)
    requires n <= 7
    ensures E2M1[n] == Units(E2M1_STEPS, n) as real / 2.0 && (n != 0 ==> E2M1[n] > 0.0)
  {
    assert Units(2, 4) == 4 && Units(2, 5) == 6 && Units(2, 6) == 8 && Units(2, 7) == 12;
  }

  lemma {:induction false} SignedNearest(n: nat, v: real)
    requires n <= 7 && v == Units(E2M1_STEPS, n) as real / 2.0
    ensures E2m1Nearest(v) == n && E2m1Nearest(-v) == n
  {
    NearestOfUnits(E2M1_STEPS, n);
  }

  // ---------------------------------------------------------------------------------------------- nibbles

  function PackByte(lo: bv8, hi: bv8): bv8 { lo | (hi << 4) }

  /** pack_nibbles: element 2i in the low nibble of byte i. */
  function PackNibbles(codes: seq<bv8>): (p: seq<bv8>)
    requires |codes| % 2 == 0
    ensures |p| == |codes| / 2
  {
    seq(|codes| / 2, i requires 0 <= i < |codes| / 2 => PackByte(codes[2 * i], codes[2 * i + 1]))
  }

  ghost predicate AreNibblesOf(out: seq<bv8>, p: seq<bv8>)
  {
    |out| == 2 * |p| && forall i :: 0 <= i < |p| ==> out[2 * i] == p[i] & 0xF && out[2 * i + 1] == p[i] >> 4
  }

  /** unpack_nibbles into a fresh array: the even places, then the odd ones. */
  method UnpackNibbles(p: seq<bv8>) returns (out: array<bv8>)
    ensures fresh(out) && AreNibblesOf(out[..], p)
  {
    out := new bv8[2 * |p|](_ => 0);
    var i := 0;
    while i < |p|
      invariant 0 <= i <= |p|
      invariant forall j :: 0 <= j < i ==> out[2 * j] == p[j] & 0xF
    {
      out[2 * i] := p[i] & 0xF;
      i := i + 1;
    }
    i := 0;
    while i < |p|
      invariant 0 <= i <= |p|
      invariant forall j :: 0 <= j < |p| ==> out[2 * j] == p[j] & 0xF
      invariant forall j :: 0 <= j < i ==> out[2 * j + 1] == p[j] >> 4
    {
      out[2 * i + 1] := p[i] >> 4;
      i := i + 1;
    }
  }

  /** Packing what was unpacked gives the bytes back. */
  lemma {:induction false} PackAfterUnpack(out: seq<bv8>, p: seq<bv8>)
    requires AreNibblesOf(out, p)
    ensures PackNibbles(out) == p
  {
    forall j | 0 <= j < |p|
      ensures PackNibbles(out)[j] == p[j]
    {
      PackOfNibbles(p[j]);
    }
  }

  /** Unpacking what was packed from four-bit codes gives the codes back, at any even length. */
  lemma {:induction false} UnpackAfterPack(codes: seq<bv8>, out: seq<bv8>)
    requires |codes| % 2 == 0 && forall k :: 0 <= k < |codes| ==> codes[k] < 16
    requires AreNibblesOf(out, PackNibbles(codes))
    ensures out == codes
  {
    forall k | 0 <= k < |codes|
      ensures out[k] == codes[k]
    {
      var j := k / 2;
      NibblesOfPack(codes[2 * j], codes[2 * j + 1]);
      assert PackNibbles(codes)[j] == PackByte(codes[2 * j], codes[2 * j + 1]);
      assert k == 2 * j || k == 2 * j + 1;
    }
  }

  lemma {:induction false} PackOfNibbles(b: bv8)
    ensures PackByte(b & 0xF, b >> 4) == b
  {
  }

  lemma {:induction false} NibblesOfPack(lo: bv8, hi: bv8)
    requires lo < 16 && hi < 16
    ensures PackByte(lo, hi) & 0xF == lo && PackByte(lo, hi) >> 4 == hi
  {
  }
}
