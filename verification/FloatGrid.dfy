/** Binary floating-point formats as grids of ordinals.

A format with P steps per binade (P = 2^(precision - 1)) has the non-negative values
Units(P, 0) < Units(P, 1) < ... in units of its smallest positive value.  The ordinal is the bit pattern of
the magnitude, so "the next value up" is ordinal + 1 and comparing values is comparing ordinals.  Rounding a
real to a format is therefore one function, Nearest, shared by fp32, bf16, e4m3 and e2m1. */
module FloatGrid {

  /** Round a real to the nearest integer, ties to the even one (np.rint). */
  function Rint(y: real): (k: int)
    ensures -0.5 <= k as real - y <= 0.5
    ensures k as real - y == 0.5 || k as real - y == -0.5 ==> k % 2 == 0
  {
    var f := y.Floor;
    var d := y - f as real;
    if d < 0.5 || (d == 0.5 && f % 2 == 0) then f else f + 1
  }

  /** The b-th non-negative value of the format, in units of its smallest positive value. */
  function Units(P: nat, b: nat): (u: nat)
    requires P >= 1
    ensures b < 2 * P ==> u == b
    ensures u >= b
  {
    if b < 2 * P then b else 2 * Units(P, b - P)
  }

  /** The ordinal of the format value nearest to y units, ties to the even ordinal. */
  function Nearest(P: nat, y: real): (b: nat)
    requires P >= 1 && y >= 0.0
    ensures y >= P as real ==> b >= P
    ensures y <= (2 * P) as real ==> b <= 2 * P
    decreases y.Floor
  {
    if y < (2 * P) as real then
      Rint(y)
    else
      P + Nearest(P, y / 2.0)
  }

  function Dist(u: int, y: real): (d: real)
    ensures d >= 0.0
  {
    if u as real >= y then u as real - y else y - u as real
  }

  /** b is as near to y as c, and even if they are equally near. */
  ghost predicate AsNear(P: nat, y: real, b: nat, c: nat)
    requires P >= 1
  {
    && Dist(Units(P, b), y) <= Dist(Units(P, c), y)
    && (c != b && Dist(Units(P, b), y) == Dist(Units(P, c), y) ==> b % 2 == 0)
  }

  /** b is a nearest value to y, and the even one of two equally near values. */
  ghost predicate IsNearestEven(P: nat, y: real, b: nat)
    requires P >= 1
  {
    forall c: nat :: AsNear(P, y, b, c)
  }

  lemma {:induction false} UnitsMonotone(P: nat, b: nat, c: nat)
    requires P >= 1 && b < c
    ensures Units(P, b) < Units(P, c)
    decreases c
  {
    if c >= 2 * P {
      if b >= 2 * P {
        UnitsMonotone(P, b - P, c - P);
      } else {
        assert Units(P, c - P) >= c - P >= P;
      }
    }
  }

  lemma {:induction false} RintMonotone(y: real, z: real)
    requires y <= z
    ensures Rint(y) <= Rint(z)
  {
    assert y.Floor <= z.Floor;
  }

  lemma {:induction false} RintNearest(y: real, u: int)
    ensures Dist(Rint(y), y) <= Dist(u, y)
    ensures u != Rint(y) && Dist(Rint(y), y) == Dist(u, y) ==> Rint(y) % 2 == 0
  {
    var k := Rint(y);
    if u < k { assert u as real <= k as real - 1.0; } else if u > k { assert u as real >= k as real + 1.0; }
  }

  /** Rounding is monotone. */
  lemma {:induction false} NearestMonotone(P: nat, y: real, z: real)
    requires P >= 1 && 0.0 <= y <= z
    ensures Nearest(P, y) <= Nearest(P, z)
    decreases z.Floor
  {
    if z < (2 * P) as real {
      RintMonotone(y, z);
    } else if y >= (2 * P) as real {
      NearestMonotone(P, y / 2.0, z / 2.0);
    }
  }

  /** Rounding a value of the format returns it. */
  lemma {:induction false} NearestOfUnits(P: nat, b: nat)
    requires P >= 1
    ensures Nearest(P, Units(P, b) as real) == b
  {
    if b >= 2 * P {
      NearestOfUnits(P, b - P);
      assert Units(P, b) as real / 2.0 == Units(P, b - P) as real;
    }
  }

  /** Nearest rounds to nearest, ties to even (roundTiesToEven, section 4.3.1 of IEEE 754-2019). */
  lemma {:induction false} NearestIsNearestEven(P: nat, y: real)
    requires P >= 2 && P % 2 == 0 && y >= 0.0
    ensures IsNearestEven(P, y, Nearest(P, y))
  {
    forall c: nat
      ensures AsNear(P, y, Nearest(P, y), c)
    {
      NearestVersus(P, y, c);
    }
  }

  lemma {:induction false} NearestVersus(P: nat, y: real, c: nat)
    requires P >= 2 && P % 2 == 0 && y >= 0.0
    ensures AsNear(P, y, Nearest(P, y), c)
    decreases y.Floor, if c < 2 * P then 1 else 0
  {
    if y < (2 * P) as real {
      BottomVersus(P, y, c);
    } else if c < 2 * P {
      NearestVersus(P, y, 2 * P);
      FartherBelow(P, y, Nearest(P, y), c);
    } else {
      HalfFloor(y);
      NearestVersus(P, y / 2.0, c - P);
      VersusStep(P, y, c);
    }
  }

  lemma {:induction false} VersusStep(P: nat, y: real, c: nat)
    requires P >= 2 && P % 2 == 0 && y >= (2 * P) as real && c >= 2 * P
    requires AsNear(P, y / 2.0, Nearest(P, y / 2.0), c - P)
    ensures AsNear(P, y, Nearest(P, y), c)
  {
    DoubledVersus(P, y, Nearest(P, y / 2.0), c - P);
  }

  lemma {:induction false} FartherBelow(P: nat, y: real, b: nat, c: nat)
    requires P >= 1 && c < 2 * P && y >= (2 * P) as real
    requires AsNear(P, y, b, 2 * P)
    ensures AsNear(P, y, b, c)
  {
    assert Units(P, 2 * P) == 2 * Units(P, P) == 2 * P;
    assert c as real <= (2 * P) as real - 1.0;
  }

  lemma {:induction false} HalfFloor(y: real)
    requires y >= 2.0
    ensures 0 <= (y / 2.0).Floor < y.Floor
  {
  }

  lemma {:induction false} BottomVersus(P: nat, y: real, c: nat)
    requires P >= 2 && 0.0 <= y < (2 * P) as real
    ensures AsNear(P, y, Nearest(P, y), c)
  {
    var b := Nearest(P, y);
    RintNearest(y, Units(P, c));
    if c < b { UnitsMonotone(P, c, b); } else if b < c { UnitsMonotone(P, b, c); }
  }

  lemma {:induction false} DoubledVersus(P: nat, y: real, b: nat, c: nat)
    requires P >= 2 && P % 2 == 0 && b >= P && c >= P
    requires AsNear(P, y / 2.0, b, c)
    ensures AsNear(P, y, b + P, c + P)
  {
    DistDoubles(P, b, y);
    DistDoubles(P, c, y);
    EvenShift(P, b);
  }

  lemma {:induction false} EvenShift(P: nat, b: nat)
    requires P % 2 == 0
    ensures (b + P) % 2 == b % 2
  {
  }

  lemma {:induction false} DistDoubles(P: nat, b: nat, y: real)
    requires P >= 1 && b >= P
    ensures Dist(Units(P, b + P), y) == 2.0 * Dist(Units(P, b), y / 2.0)
  {
    var u := Units(P, b);
    assert Units(P, b + P) == 2 * u;
    assert (2 * u) as real == 2.0 * u as real;
  }

  /** Only Nearest has that property. */
  lemma {:induction false} NearestEvenUnique(P: nat, y: real, b: nat)
    requires P >= 2 && P % 2 == 0 && y >= 0.0
    requires IsNearestEven(P, y, b)
    ensures b == Nearest(P, y)
  {
    var r := Nearest(P, y);
    NearestIsNearestEven(P, y);
    assert AsNear(P, y, b, r) && AsNear(P, y, r, b);
    if b < r {
      EvenNeighbours(P, y, b, r);
    } else if r < b {
      EvenNeighbours(P, y, r, b);
    }
  }

  /** Two equally near values have no value between them, so they cannot both be even. */
  lemma {:induction false} EvenNeighbours(P: nat, y: real, lo: nat, hi: nat)
    requires P >= 1 && lo < hi
    requires IsNearestEven(P, y, lo)
    requires Dist(Units(P, lo), y) == Dist(Units(P, hi), y)
    ensures hi % 2 == 1
  {
    if lo + 1 < hi {
      assert AsNear(P, y, lo, lo + 1);
      UnitsMonotone(P, lo, lo + 1);
      UnitsMonotone(P, lo + 1, hi);
      assert false;
    } else {
      assert AsNear(P, y, lo, hi);
    }
  }

  /** How far the next ordinal up can be: at most one part in P of the value, and one unit at the bottom. */
  lemma {:induction false} UnitsGap(P: nat, b: nat)
    requires P >= 1
    ensures Units(P, b) < Units(P, b + 1)
    ensures (Units(P, b + 1) - Units(P, b)) * P <= Units(P, b) || Units(P, b + 1) == Units(P, b) + 1
  {
    if b >= 2 * P {
      UnitsGap(P, b - P);
      var gap, u := Units(P, b - P + 1) - Units(P, b - P), Units(P, b - P);
      assert Units(P, b + 1) == 2 * Units(P, b - P + 1);
      TwiceTimes(gap, P);
    } else if b == 2 * P - 1 {
      assert Units(P, 2 * P) == 2 * Units(P, P) == 2 * P;
    }
  }

  lemma {:induction false} TwiceTimes(gap: int, P: nat)
    ensures (2 * gap) * P == 2 * (gap * P)
  {
  }
}
