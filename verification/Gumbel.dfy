/** Gumbel-max sampling through the certificate (overlay/cert_math.py): the interval of a logit pushed through
v -> fl(fl(v / T) + g), with room for a division that is off by up to two ulp. */
module Gumbel {
  import opened FloatGrid
  import opened Fp32

  /** 2^-126, the absolute slop. */
  const SLOP_ABS: F32 := Ord(STEPS)

  /** gumbel_value: the stock value; the quotient may be off by ulps steps of nextafter. */
  function GumbelValue(l: Ordinal, t: real, g: Ordinal, ulps: int): F32
    requires t >= 0.0
  {
    if t == 0.0 then Ord(l)
    else if t == 1.0 then Add(Ord(l), Ord(g))
    else Add(Ord(NextAfter(Div(l, t), ulps)), Ord(g))
  }

  /** |q| * 2^-20, rounded to fp32. */
  function Slack(q: F32): F32
  {
    if q.NaN? then NaN
    else if !Finite(q.o) then Ord(INF)
    else Ord(RoundUnits(AbsUnits(q.o) as real / 1048576.0))
  }

  function AbsUnits(o: Ordinal): (u: nat) { Units(STEPS, if o >= 0 then o else -o) }

  function SlackLo(q: F32): F32 { Sub(Sub(q, Slack(q)), SLOP_ABS) }

  function SlackHi(q: F32): F32 { Add(Add(q, Slack(q)), SLOP_ABS) }

  function LowEnd(lo: Ordinal, t: real, g: Ordinal): F32
    requires t >= 0.0
  {
    if t == 0.0 then Ord(lo)
    else if t == 1.0 then Add(Ord(lo), Ord(g))
    else Add(SlackLo(Ord(Div(lo, t))), Ord(g))
  }

  function HighEnd(hi: Ordinal, t: real, g: Ordinal): F32
    requires t >= 0.0
  {
    if t == 0.0 then Ord(hi)
    else if t == 1.0 then Add(Ord(hi), Ord(g))
    else Add(SlackHi(Ord(Div(hi, t))), Ord(g))
  }

  function GumbelInterval(lo: Ordinal, hi: Ordinal, t: real, g: Ordinal): (F32, F32)
    requires t >= 0.0
  {
    (LowEnd(lo, t, g), HighEnd(hi, t, g))
  }

  predicate Inside(v: F32, i: (F32, F32)) { v.Ge(i.0) && i.1.Ge(v) }

  // ---------------------------------------------------------------------------------------------- two ulps

  lemma {:induction false} SignedUnitsOdd(o: Ordinal)
    ensures SignedUnits(-o) == -SignedUnits(o)
  {
  }

  lemma {:induction false} NextAfterOdd(o: Ordinal, n: int)
    ensures NextAfter(-o, -n) == -NextAfter(o, n)
  {
  }

  lemma {:induction false} NextAfterMonotone(a: Ordinal, b: Ordinal, m: int, n: int)
    requires a <= b && m <= n
    ensures NextAfter(a, m) <= NextAfter(b, n)
  {
  }

  /** Going up is going down of the negated value. */
  lemma {:induction false} SlackHiIsNegatedLo(q: Ordinal)
    ensures SlackHi(Ord(q)) == Neg(SlackLo(Ord(-q)))
  {
    var s := Slack(Ord(q));
    assert Slack(Ord(-q)) == s;
    NegSub(Ord(q), s);
    NegSub(Add(Ord(q), s), SLOP_ABS);
  }

  lemma {:induction false} NegSub(a: F32, b: F32)
    ensures Sub(Neg(a), b) == Neg(Add(a, b))
  {
    if a.Ord? && b.Ord? {
      if Finite(a.o) && Finite(b.o) { NegSubFinite(a.o, b.o); }
    }
  }

  lemma {:induction false} NegSubFinite(a: Ordinal, b: Ordinal)
    requires Finite(a) && Finite(b)
    ensures Sub(Ord(-a), Ord(b)) == Neg(Add(Ord(a), Ord(b)))
  {
    hide SignedUnits, RoundUnits;
    SignedUnitsOdd(a);
    SignedUnitsOdd(b);
    var y := (SignedUnits(a) + SignedUnits(b)) as real;
    assert (SignedUnits(-a) + SignedUnits(-b)) as real == -y;
    RoundUnitsOdd(y);
  }

  function Magnitude(q: Ordinal): (b: nat) { if q >= 0 then q else -q }

  /** Two steps up: at most three parts in STEPS of the value, or two units at the bottom. */
  lemma {:induction false} TwoSteps(b: nat)
    ensures b < STEPS ==> Units(STEPS, b + 2) - Units(STEPS, b) == 2
    ensures b >= STEPS ==> (Units(STEPS, b + 2) - Units(STEPS, b)) * STEPS <= 3 * Units(STEPS, b)
  {
    UnitsGap(STEPS, b);
    UnitsGap(STEPS, b + 1);
  }

  /** Two steps down from a signed value, as far as -INF. */
  lemma {:induction false} TwoDown(q: Ordinal)
    requires Finite(q)
    ensures var d := SignedUnits(q) - SignedUnits(NextAfter(q, -2));
            (Magnitude(q) < STEPS && d <= 2) || d * STEPS <= 3 * Units(STEPS, Magnitude(q))
  {
    var b := Magnitude(q);
    if q >= 2 {
      TwoSteps(b - 2);
      UnitsMonotone(STEPS, b - 2, b);
    } else if q >= 0 {
    } else {
      TwoSteps(b);
      if -q + 2 > INF { UnitsMonotone(STEPS, b + 1, b + 2); }
    }
  }

  /** Two steps are covered by 2^-20 of the value when that is exact, and by 2^-126 below. */
  lemma {:induction false} SlackExact(b: nat)
    requires b >= 22 * STEPS
    ensures Units(STEPS, b) == 1048576 * Units(STEPS, b - 20 * STEPS)
    ensures RoundUnits(Units(STEPS, b) as real / 1048576.0) == Clamp(b - 20 * STEPS)
  {
    FiveBinades(b);
    FiveBinades(b - 5 * STEPS);
    FiveBinades(b - 10 * STEPS);
    FiveBinades(b - 15 * STEPS);
    var u := Units(STEPS, b - 20 * STEPS);
    NearestOfUnits(STEPS, b - 20 * STEPS);
    assert Units(STEPS, b) as real / 1048576.0 == u as real;
  }

  lemma {:induction false} FiveBinades(b: nat)
    requires b >= 6 * STEPS
    ensures Units(STEPS, b) == 32 * Units(STEPS, b - 5 * STEPS)
  {
    assert Units(STEPS, b) == 2 * Units(STEPS, b - STEPS) == 4 * Units(STEPS, b - 2 * STEPS);
    assert Units(STEPS, b - 2 * STEPS) == 2 * Units(STEPS, b - 3 * STEPS) == 4 * Units(STEPS, b - 4 * STEPS);
    assert Units(STEPS, b - 4 * STEPS) == 2 * Units(STEPS, b - 5 * STEPS);
  }

  /** The slack is a finite fp32 value. */
  lemma {:induction false} SlackIsFinite(q: Ordinal)
    requires Finite(q)
    ensures Slack(Ord(q)).Ord? && 0 <= Slack(Ord(q)).o <= Magnitude(q)
  {
    var u := AbsUnits(q);
    NearestMonotone(STEPS, u as real / 1048576.0, u as real);
    NearestOfUnits(STEPS, Magnitude(q));
  }

  /** Subtracting a finite non-negative value rounds the exact difference. */
  lemma {:induction false} SubFinite(q: Ordinal, s: Ordinal, w: Ordinal)
    requires Finite(q) && Finite(s) && s >= 0
    requires SignedUnits(q) - SignedUnits(s) <= SignedUnits(w)
    ensures Sub(Ord(q), Ord(s)).Ord? && Sub(Ord(q), Ord(s)).o <= w
  {
    SignedUnitsOdd(s);
    RoundUnitsMonotone((SignedUnits(q) - SignedUnits(s)) as real, SignedUnits(w) as real);
    RoundUnitsExact(w);
  }

  /** Taking off 2^-126: the result is no larger, and at most w if the exact difference is. */
  lemma {:induction false} SubSlop(s1: Ordinal, w: Ordinal)
    requires s1 <= w || (Finite(s1) && SignedUnits(s1) - STEPS <= SignedUnits(w)) || s1 == -INF
    requires s1 < INF
    ensures Sub(Ord(s1), SLOP_ABS).Ord? && Sub(Ord(s1), SLOP_ABS).o <= w
  {
    assert SignedUnits(STEPS) == STEPS;
    if Finite(s1) {
      if s1 <= w {
        if s1 < w { SignedUnitsMonotone(s1, w); }
      }
      SubFinite(s1, STEPS, w);
    }
  }

  /** The lower end of the slack is two steps down or lower. */
  lemma {:induction false} SlackLoCovers(q: Ordinal)
    requires Finite(q)
    ensures SlackLo(Ord(q)).Ord? && SlackLo(Ord(q)).o <= NextAfter(q, -2)
  {
    if Magnitude(q) >= 22 * STEPS {
      SlackLoCoversLarge(q);
    } else {
      SlackLoCoversSmall(q);
    }
  }

  lemma {:induction false} SlackLoCoversLarge(q: Ordinal)
    requires Finite(q) && Magnitude(q) >= 22 * STEPS
    ensures SlackLo(Ord(q)).Ord? && SlackLo(Ord(q)).o <= NextAfter(q, -2)
  {
    var w, s := NextAfter(q, -2), Slack(Ord(q)).o;
    TwoDown(q);
    SlackExact(Magnitude(q));
    SubFinite(q, s, w);
    SubSlop(Sub(Ord(q), Ord(s)).o, w);
  }

  lemma {:induction false} SlackLoCoversSmall(q: Ordinal)
    requires Finite(q) && Magnitude(q) < 22 * STEPS
    ensures SlackLo(Ord(q)).Ord? && SlackLo(Ord(q)).o <= NextAfter(q, -2)
  {
    var s := Slack(Ord(q)).o;
    SlackIsFinite(q);
    SubFinite(q, s, q);
    BelowSlop(q);
    var s1 := Sub(Ord(q), Ord(s)).o;
    if s1 < q { SignedUnitsMonotone(s1, q); }
    SubSlop(s1, NextAfter(q, -2));
  }

  lemma {:induction false} BelowSlop(q: Ordinal)
    requires Finite(q) && Magnitude(q) < 22 * STEPS
    ensures SignedUnits(q) - STEPS <= SignedUnits(NextAfter(q, -2))
  {
    TwoDown(q);
    UnitsMonotone(STEPS, Magnitude(q), 22 * STEPS);
    SlackExact(22 * STEPS);
    assert Units(STEPS, 2 * STEPS) == 2 * STEPS;
  }

  lemma {:induction false} SlackHiCovers(q: Ordinal)
    requires Finite(q)
    ensures SlackHi(Ord(q)).Ord? && SlackHi(Ord(q)).o >= NextAfter(q, 2)
  {
    SlackHiIsNegatedLo(q);
    SlackLoCovers(-q);
    NextAfterOdd(q, 2);
  }

  // ---------------------------------------------------------------------------------------------- the interval

  /** The division by T stays below +infinity at the lower end and above -infinity at the upper end: beyond that
  the slack is infinity minus infinity. */
  predicate LowInRange(lo: Ordinal, t: real)
    requires t >= 0.0
  {
    t == 0.0 || t == 1.0 || Div(lo, t) < INF
  }

  predicate HighInRange(hi: Ordinal, t: real)
    requires t >= 0.0
  {
    t == 0.0 || t == 1.0 || Div(hi, t) > -INF
  }

  predicate QuotientsInRange(lo: Ordinal, hi: Ordinal, t: real)
    requires t >= 0.0
  {
    LowInRange(lo, t) && HighInRange(hi, t)
  }

  lemma {:induction false} LowerQuotient(qlo: Ordinal, q: Ordinal, ulps: int)
    requires qlo <= q && qlo < INF && ulps >= -2
    ensures SlackLo(Ord(qlo)).Ord? && SlackLo(Ord(qlo)).o <= NextAfter(q, ulps)
  {
    if Finite(qlo) {
      SlackLoCovers(qlo);
      NextAfterMonotone(qlo, q, -2, ulps);
    }
  }

  lemma {:induction false} UpperQuotient(qhi: Ordinal, q: Ordinal, ulps: int)
    requires q <= qhi && qhi > -INF && ulps <= 2
    ensures SlackHi(Ord(qhi)).Ord? && SlackHi(Ord(qhi)).o >= NextAfter(q, ulps)
  {
    if Finite(qhi) {
      SlackHiCovers(qhi);
      NextAfterMonotone(q, qhi, ulps, 2);
    }
  }

  /** The lower end is below the value exactly when its quotient is in range, and NaN otherwise. */
  lemma {:induction false} LowEndCovers(lo: Ordinal, l: Ordinal, t: real, g: Ordinal, ulps: int)
    requires lo <= l && t >= 0.0 && Finite(g) && -2 <= ulps <= 2
    ensures GumbelValue(l, t, g, ulps).Ord?
    ensures GumbelValue(l, t, g, ulps).Ge(LowEnd(lo, t, g)) <==> LowInRange(lo, t)
    ensures LowEnd(lo, t, g).Ord? <==> LowInRange(lo, t)
  {
    if t == 1.0 {
      AddMonotone(Ord(lo), Ord(l), Ord(g));
    } else if t != 0.0 && LowInRange(lo, t) {
      DivMonotone(lo, l, t);
      LowerQuotient(Div(lo, t), Div(l, t), ulps);
      AddMonotone(SlackLo(Ord(Div(lo, t))), Ord(NextAfter(Div(l, t), ulps)), Ord(g));
    }
  }

  /** So is the upper end above it. */
  lemma {:induction false} HighEndCovers(l: Ordinal, hi: Ordinal, t: real, g: Ordinal, ulps: int)
    requires l <= hi && t >= 0.0 && Finite(g) && -2 <= ulps <= 2
    ensures GumbelValue(l, t, g, ulps).Ord?
    ensures HighEnd(hi, t, g).Ge(GumbelValue(l, t, g, ulps)) <==> HighInRange(hi, t)
    ensures HighEnd(hi, t, g).Ord? <==> HighInRange(hi, t)
  {
    if t == 1.0 {
      AddMonotone(Ord(l), Ord(hi), Ord(g));
    } else if t != 0.0 && HighInRange(hi, t) {
      DivMonotone(l, hi, t);
      UpperQuotient(Div(hi, t), Div(l, t), ulps);
      AddMonotone(Ord(NextAfter(Div(l, t), ulps)), SlackHi(Ord(Div(hi, t))), Ord(g));
    }
  }

  /** The true value lies inside the interval of its bounds. */
  lemma {:induction false} IntervalContains(lo: Ordinal, l: Ordinal, hi: Ordinal, t: real, g: Ordinal, ulps: int)
    requires lo <= l <= hi && t >= 0.0 && Finite(g) && -2 <= ulps <= 2
    ensures GumbelValue(l, t, g, ulps).Ord?
    ensures Inside(GumbelValue(l, t, g, ulps), GumbelInterval(lo, hi, t, g)) <==> QuotientsInRange(lo, hi, t)
  {
    LowEndCovers(lo, l, t, g, ulps);
    HighEndCovers(l, hi, t, g, ulps);
  }

  /** The largest value a token can have whose upper quotient is out of range. */
  function Bottom(g: Ordinal): F32 { Add(Ord(NextAfter(-INF, 2)), Ord(g)) }

  lemma {:induction false} OutOfRangeIsBottom(l: Ordinal, hi: Ordinal, t: real, g: Ordinal, ulps: int)
    requires l <= hi && t >= 0.0 && Finite(g) && -2 <= ulps <= 2 && !HighInRange(hi, t)
    ensures Bottom(g).Ge(GumbelValue(l, t, g, ulps))
  {
    DivMonotone(l, hi, t);
    AddMonotone(Ord(NextAfter(Div(l, t), ulps)), Ord(NextAfter(-INF, 2)), Ord(g));
  }

  /** Exactly when the interval is usable: otherwise an end is NaN and contains nothing. */
  lemma {:induction false} IntervalUsable(lo: Ordinal, hi: Ordinal, t: real, g: Ordinal)
    requires lo <= hi && t >= 0.0 && Finite(g)
    ensures (forall l: Ordinal, ulps: int :: lo <= l <= hi && -2 <= ulps <= 2 ==>
                Inside(GumbelValue(l, t, g, ulps), GumbelInterval(lo, hi, t, g)))
            <==> QuotientsInRange(lo, hi, t)
  {
    if QuotientsInRange(lo, hi, t) {
      forall l: Ordinal, ulps: int | lo <= l <= hi && -2 <= ulps <= 2
        ensures Inside(GumbelValue(l, t, g, ulps), GumbelInterval(lo, hi, t, g))
      {
        IntervalContains(lo, l, hi, t, g, ulps);
      }
    } else {
      var i := GumbelInterval(lo, hi, t, g);
      assert i.0.NaN? || i.1.NaN?;
      assert !Inside(GumbelValue(lo, t, g, 0), i);
    }
  }
}
