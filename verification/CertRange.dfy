/** Temperatures out of range in the certified head (overlay/cert_math.py): what a lower quotient that overflows does
to its row, when the row's result is the stock one all the same, and a step in which it is not. */
module CertRange {
  import opened FloatGrid
  import opened Fp32
  import opened FpFormats
  import opened CertBound
  import opened Gumbel
  import opened Selection
  import opened Vectors
  import opened CertMath

  // ---------------------------------------------------------------------------------------------- overflowed rows

  /** When a lower quotient overflows to +infinity the row's threshold is NaN and the row keeps no candidate at all. */
  lemma {:induction false} OverflowedRowHasNoCandidate(h: Shard, st: Step, root: real -> real, m: nat)
    requires h.Valid() && st.Fits(h) && IsRoot(root) && st.IsFinite() && m < |st.x|
    requires !RowInRange(h, st, root, m)
    ensures forall v :: 0 <= v < |h.W| ==> !IsCandidate(h, st, root, m, v)
  {
    ThresholdIsNumber(h, st, root, m);
  }

  /** Such a row's result is the stock one if and only if the fallback is taken or another row happens to keep its
  winner (and the winner is not a masked token whose stock value the recompute cannot give). */
  lemma {:induction false} OverflowedRowIsExact(h: Shard, st: Step, root: real -> real, cap: nat, m: nat,
                                                r: CertMath.Result)
    requires h.Valid() && st.Fits(h) && IsRoot(root) && st.IsFinite() && m < |st.x|
    requires !RowInRange(h, st, root, m) && IsLocalResult(h, st, root, cap, r)
    ensures var w := StockLocal(h, st, m);
            && w.1 < |h.W|
            && (RowIsStock(h, st, m, r) <==>
                && (st.mask[m][w.1] ==> w.0 == Ord(-INF))
                && (r.status == LOCAL_STOCK
                    || exists o :: 0 <= o < |st.x| && o != m && IsCandidate(h, st, root, o, w.1)))
  {
    RowIsExact(h, st, root, cap, m, r);
    OverflowedRowHasNoCandidate(h, st, root, m);
  }

  /** Alone in its step the row falls back, so it is exact. */
  lemma {:induction false} LoneOverflowedRowIsStock(h: Shard, st: Step, root: real -> real, cap: nat,
                                                    r: CertMath.Result)
    requires h.Valid() && st.Fits(h) && IsRoot(root) && st.IsFinite() && |st.x| == 1
    requires !RowInRange(h, st, root, 0) && IsLocalResult(h, st, root, cap, r)
    requires forall v :: 0 <= v < |h.W| && st.mask[0][v] && st.sampling.Sampled? ==> st.sampling.ulps[0][v] <= 0
    ensures r.status == LOCAL_STOCK && RowIsStock(h, st, 0, r)
  {
    hide IsCandidate, RowInRange, Listed, WinsListed, StockLocal, StockValue, RefinedValue;
    LoneRowFallsBack(h, st, root, cap);
    OverflowedRowIsExact(h, st, root, cap, 0, r);
    WinnerSelected(h, st, 0);
    RecomputeIsStock(h, st, 0, StockLocal(h, st, 0).1);
  }

  lemma {:induction false} LoneRowFallsBack(h: Shard, st: Step, root: real -> real, cap: nat)
    requires h.Valid() && st.Fits(h) && IsRoot(root) && st.IsFinite() && |st.x| == 1
    requires !RowInRange(h, st, root, 0)
    ensures FallsBack(h, st, root, cap)
  {
    hide IsCandidate, RowInRange;
    var ids := UnionIds(h, st, root, |h.W|);
    assert ids != [] ==> ids[0] in ids;
    OverflowedRowHasNoCandidate(h, st, root, 0);
  }

  /** Such temperatures exist for every positive lower end. */
  lemma {:induction false} TinyTemperatureOverflows(lo: Ordinal) returns (t: real)
    requires 0 < lo < INF
    ensures t > 0.0 && Div(lo, t) == INF
  {
    SignedUnitsMonotone(0, lo);
    SignedUnitsMonotone(0, INF);
    var u, top := SignedUnits(lo) as real, SignedUnits(INF) as real;
    t := u / top;
    QuotientOfQuotient(u, top);
    RoundUnitsExact(INF);
  }

  lemma {:induction false} QuotientOfQuotient(u: real, top: real)
    requires u > 0.0 && top > 0.0
    ensures u / top > 0.0 && u / (u / top) == top
  {
    var t := u / top;
    assert t * top == u;
    assert t > 0.0;
    assert u / t == top by { assert top * t == u; }
  }

  // ---------------------------------------------------------------------------------------------- the failing step

  /** Two tokens that tie in row 0 and are apart in row 1; the screening copy is exact. */
  function TwoTokens(): (h: Shard)
    ensures h.Valid()
  {
    Shard([[1.0, -1.0], [1.0, 1.0]], [[1.0, -1.0], [1.0, 1.0]], 2, 2)
  }

  /** Row 0 is sampled at temperature t without noise, row 1 is greedy; both accumulations are exact. */
  function TwoRows(t: real): (st: Step)
    requires t >= 0.0
    ensures st.Fits(TwoTokens()) && st.IsFinite()
  {
    var st := Step([[Num(1.0), Num(0.0)], [Num(0.0), Num(1.0)]], [[Num(1.0), Num(1.0)], [Num(-1.0), Num(1.0)]],
                   [[1.0, 1.0], [-1.0, 1.0]], [[false, false], [false, false]],
                   Sampled([t, 0.0], [[0, 0], [0, 0]], [[0, 0], [0, 0]]));
    assert RowSampled(TwoTokens(), t, [0, 0], [0, 0]) && RowSampled(TwoTokens(), 0.0, [0, 0], [0, 0]);
    st
  }

  /** The root of 0 is 0 and no root is far off, as for the true square root. */
  ghost predicate TameRoot(root: real -> real)
  {
    IsRoot(root) && root(0.0) == 0.0 && forall s: real :: s >= 0.0 ==> root(s) <= s + 1.0
  }

  lemma {:induction false} ExactRow(W: Vec)
    requires forall k :: 0 <= k < |W| ==> W[k] == 1.0 || W[k] == -1.0
    ensures !UnsafeRow(W)
  {
    SmallValues();
    Round32Exact(ONE);
    Round32Exact(-ONE);
    Bf16Exact(127 * 0x80);
  }

  lemma {:induction false} RoundUpWithin(o: Ordinal, y: real)
    requires 0.0 <= y <= 4.0 && IsRoundUp(o, y)
    ensures 0 <= o <= FOUR && 0.0 <= Value(o) <= 4.0 && (y == 0.0 ==> o == 0)
  {
    hide Value;
    SmallValues();
    assert AtLeast(FOUR, y);
    if o < FOUR { ValueMonotone(o, FOUR); }
    if o < 0 { ValueMonotone(o, 0); }
    if y == 0.0 { assert AtLeast(0, y); }
  }

  lemma {:induction false} NormRoundsUp(y: real)
    requires 0.0 <= y <= 4.0
    ensures RoundUpExt(y).Fin? && 0.0 <= RoundUpExt(y).r <= 4.0
    ensures y == 0.0 ==> RoundUpExt(y) == Fin(0.0)
  {
    hide Round32, Value, Below, NextAfter;
    CastOrBump(y);
    RoundUpWithin(if Below(Round32(y), y) then NextAfter(Round32(y), 1) else Round32(y), y);
    SmallValues();
  }

  lemma {:induction false} SmallMul(a: real, b: real, p: real, q: real)
    requires 0.0 <= a <= p && 0.0 <= b <= q
    ensures 0.0 <= a * b <= p * q
  {
    ScaleBound(a, 0.0, b);
    ScaleBound(a, b, q);
    ScaleBound(q, a, p);
  }

  lemma {:induction false} OneGroup(a: Vec)
    requires |a| == 2
    ensures Groups(a, 2) == [a]
  {
    assert a[..2] == a && a[2..] == [];
  }

  /** The screening copy is the row itself: the residual norm is 0. */
  lemma {:induction false} SmallTable(W: Vec, root: real -> real)
    requires TameRoot(root) && |W| == 2 && SumSq(W) == 2.0
    requires forall k :: 0 <= k < 2 ==> W[k] == 1.0 || W[k] == -1.0
    ensures var t := BuildRow(W, W, 2, root); t.rt == [Fin(0.0)] && t.nv.Fin? && 0.0 <= t.nv.r <= 4.0
  {
    hide RoundUpExt, UnsafeRow;
    OneGroup(Minus(W, W));
    ExactRow(W);
    NormRoundsUp(0.0);
    assert Minus(W, W) == [0.0, 0.0];
    assert SumSq([0.0, 0.0]) == SumSq([0.0, 0.0][1..]) == SumSq([0.0, 0.0][1..][1..]) == 0.0;
    NormRoundsUp(InflT(root(2.0)));
  }

  lemma {:induction false} SmallInput(x: Vec, root: real -> real)
    requires TameRoot(root) && |x| == 2 && SumSq(x) == 1.0
    ensures var xg := GroupRoots(x, 2, root); |xg| == 1 && 0.0 <= xg[0] && 0.0 <= XNorm(xg, root) <= 11.0
  {
    OneGroup(x);
    var xg := GroupRoots(x, 2, root);
    assert xg == [InflX(root(1.0))];
    SmallMul(xg[0], xg[0], 3.0, 3.0);
    assert SumSq(xg) == xg[0] * xg[0];
  }

  lemma {:induction false} SmallProduct(xn: real, nv: real)
    requires 0.0 <= xn <= 11.0 && 0.0 <= nv <= 4.0
    ensures 0.0 <= Inflated(0.0, CAcc(2), xn, nv) <= 0.25
  {
    SmallMul(xn, nv, 11.0, 4.0);
    assert (2.0 * CAcc(2) * xn) * nv == 2.0 * CAcc(2) * (xn * nv);
  }

  /** The bound of either token in either row is small. */
  lemma {:induction false} SmallBound(x: Vec, W: Vec, root: real -> real)
    requires TameRoot(root) && |x| == |W| == 2 && SumSq(x) == 1.0 && SumSq(W) == 2.0
    requires forall k :: 0 <= k < 2 ==> W[k] == 1.0 || W[k] == -1.0
    ensures RowBound(x, W, W, 2, root).Fin? && 0.0 <= RowBound(x, W, W, 2, root).r <= 0.25
  {
    hide GroupRoots, BuildRow, XNorm, Inflated;
    SmallInput(x, root);
    SmallTable(W, root);
    var xg, t := GroupRoots(x, 2, root), BuildRow(W, W, 2, root);
    ZeroResidual(xg, XNorm(xg, root), t, CAcc(2));
    SmallProduct(XNorm(xg, root), t.nv.r);
  }

  lemma {:induction false} ZeroResidual(xg: Vec, xn: real, t: RowTable, c: real)
    requires |xg| == 1 && xg[0] >= 0.0 && xn >= 0.0 && t.rt == [Fin(0.0)] && t.nv.Fin? && c >= 0.0
    ensures Bound(xg, xn, t, c) == Fin(Inflated(0.0, c, xn, t.nv.r))
  {
    assert ExtDot(xg[1..], t.rt[1..]) == Fin(0.0);
    assert ExtDot(xg, t.rt) == Fin(0.0) by { assert xg[0] * 0.0 == 0.0; }
    NonNegativeProduct(2.0 * c, xn);
  }

  /** With a small bound the ends around 1 are positive and those around -1 are not. */
  lemma {:induction false} EndsApart(b: Ext)
    requires b.Fin? && 0.0 <= b.r <= 0.25
    ensures 0 < Interval(1.0, b).0 <= ONE <= Interval(1.0, b).1
    ensures Interval(-1.0, b).0 <= 0 && Interval(-1.0, b).1 <= 0
  {
    hide Logit, Value;
    SmallValues();
    LogitsOfValues();
    LogitMonotone(0.25, 1.0 - b.r - Slop(1.0, b.r));
    LogitMonotone(1.0 - b.r - Slop(1.0, b.r), 1.0);
    LogitMonotone(1.0, 1.0 + b.r + Slop(1.0, b.r));
    LogitMonotone(-1.0 - b.r - Slop(-1.0, b.r), 0.0);
    LogitMonotone(-1.0 + b.r + Slop(-1.0, b.r), 0.0);
  }

  lemma {:induction false} LogitsOfValues()
    ensures Logit(0.0) == 0 && Logit(0.25) == QUARTER && Logit(1.0) == ONE
  {
    SmallValues();
    Round32Exact(0);
    Round32Exact(QUARTER);
    Round32Exact(ONE);
    Bf16Exact(125 * 0x80);
    Bf16Exact(127 * 0x80);
  }

  /** The lower end of token 0 in row 0; it does not depend on the temperature. */
  function FirstLow(root: real -> real): Ordinal
    requires TameRoot(root)
  {
    Interval(1.0, RowBound([1.0, 0.0], [1.0, -1.0], [1.0, -1.0], 2, root)).0
  }

  lemma {:induction false} EndsOfRows(root: real -> real, t: real)
    requires TameRoot(root) && t >= 0.0
    ensures var h, st := TwoTokens(), TwoRows(t);
            && Ends(h, st, root, 0, 0).0 == FirstLow(root) && 0 < FirstLow(root) <= ONE
            && Ends(h, st, root, 1, 0).0 <= 0 && Ends(h, st, root, 1, 0).1 <= 0
            && 0 < Ends(h, st, root, 1, 1).0 <= Ends(h, st, root, 1, 1).1
  {
    hide RowBound, Interval;
    var st := TwoRows(t);
    assert st.Row(0) == [1.0, 0.0] && st.Row(1) == [0.0, 1.0];
    Sums();
    SmallBound([1.0, 0.0], [1.0, -1.0], root);
    SmallBound([0.0, 1.0], [1.0, -1.0], root);
    SmallBound([0.0, 1.0], [1.0, 1.0], root);
    EndsApart(RowBound([1.0, 0.0], [1.0, -1.0], [1.0, -1.0], 2, root));
    EndsApart(RowBound([0.0, 1.0], [1.0, -1.0], [1.0, -1.0], 2, root));
    EndsApart(RowBound([0.0, 1.0], [1.0, 1.0], [1.0, 1.0], 2, root));
  }

  lemma {:induction false} Sums()
    ensures SumSq([1.0, 0.0]) == SumSq([0.0, 1.0]) == 1.0 && SumSq([1.0, -1.0]) == SumSq([1.0, 1.0]) == 2.0
  {
    assert [1.0, 0.0][1..] == [0.0] && [0.0, 1.0][1..] == [1.0];
    assert [1.0, -1.0][1..] == [-1.0] && [1.0, 1.0][1..] == [1.0];
    assert SumSq([0.0]) == 0.0 && SumSq([1.0]) == 1.0 && SumSq([-1.0]) == 1.0;
  }

  /** A temperature at which the lower quotient of token 0 in row 0 overflows. */
  lemma {:induction false} OverflowingTemperature(root: real -> real) returns (t: real)
    requires TameRoot(root)
    ensures t > 0.0 && Div(FirstLow(root), t) == INF
  {
    EndsOfRows(root, 0.0);
    t := TinyTemperatureOverflows(FirstLow(root));
  }

  lemma {:induction false} FirstRowOverflows(root: real -> real, t: real)
    requires TameRoot(root) && t > 0.0 && Div(FirstLow(root), t) == INF
    ensures !RowInRange(TwoTokens(), TwoRows(t), root, 0)
  {
    hide Ends, FirstLow;
    EndsOfRows(root, t);
    if t == 1.0 { RoundUnitsExact(FirstLow(root)); }
    assert !LowerInRange(TwoTokens(), TwoRows(t), root, 0, 0);
  }

  /** Only the greedy row contributes to the union, and only token 1. */
  lemma {:induction false} OnlyTokenOne(root: real -> real, t: real)
    requires TameRoot(root) && t > 0.0 && Div(FirstLow(root), t) == INF
    ensures var h, st := TwoTokens(), TwoRows(t);
            !InUnion(h, st, root, 0) && InUnion(h, st, root, 1) && |UnionIds(h, st, root, 2)| == 1
  {
    hide Ends, FirstLow;
    var h, st := TwoTokens(), TwoRows(t);
    FirstRowOverflows(root, t);
    OverflowedRowHasNoCandidate(h, st, root, 0);
    EndsOfRows(root, t);
    var los := VLo(h, st, root, 1);
    assert los[0] == Ord(Ends(h, st, root, 1, 0).0) && los[1] == Ord(Ends(h, st, root, 1, 1).0);
    NpMaxIsMax(los);
    assert !IsCandidate(h, st, root, 1, 0) && IsCandidate(h, st, root, 1, 1);
    OneId(h, st, root);
  }

  lemma {:induction false} OneId(h: Shard, st: Step, root: real -> real)
    requires h.Valid() && st.Fits(h) && IsRoot(root) && st.IsFinite() && |h.W| == 2
    requires !InUnion(h, st, root, 0) && InUnion(h, st, root, 1)
    ensures UnionIds(h, st, root, 2) == [1]
  {
    hide InUnion;
    assert UnionIds(h, st, root, 1) == UnionIds(h, st, root, 0) == [];
  }

  /** The accumulations are exact, so they meet the premises. */
  lemma {:induction false} ExactAccumulation(t: real)
    requires t >= 0.0
    ensures Premised(TwoTokens(), TwoRows(t))
  {
    var h, st := TwoTokens(), TwoRows(t);
    assert st.Row(0) == [1.0, 0.0] && st.Row(1) == [0.0, 1.0];
    forall m, v | 0 <= m < 2 && 0 <= v < 2
      ensures PremisesAt(h, st, m, v)
    {
      PairDot(h.W[v], st.Row(m));
      ExactlyAccumulated(CAcc(2), st.acc[m][v], h.W[v], st.Row(m));
    }
  }

  lemma {:induction false} PairDot(a: Vec, x: Vec)
    requires |a| == |x| == 2
    ensures Dot(a, x) == a[0] * x[0] + a[1] * x[1]
  {
    assert Dot(a[1..], x[1..]) == a[1] * x[1] + Dot(a[1..][1..], x[1..][1..]);
  }

  lemma {:induction false} ExactlyAccumulated(c: real, y: real, a: Vec, x: Vec)
    requires c >= 0.0 && |a| == |x| && y == Dot(a, x)
    ensures Accumulates(c, y, a, x)
  {
    PositiveScale(c, AbsDot(a, x));
  }

  lemma {:induction false} PositiveScale(c: real, d: real)
    requires c >= 0.0 && d >= 0.0
    ensures c * d >= 0.0
  {
  }

  /** The row's stock values tie at +infinity, so the stock winner is token 0. */
  lemma {:induction false} StockOfFirstRow(root: real -> real, t: real)
    requires TameRoot(root) && t > 0.0 && Div(FirstLow(root), t) == INF
    ensures StockLocal(TwoTokens(), TwoRows(t), 0) == (Ord(INF), 0)
    ensures RefinedValue(TwoTokens(), TwoRows(t), 0, 1) == Ord(INF)
  {
    hide FirstLow, Logit, GumbelValue, StockLocal, RowInRange, Ends, Div, TwoTokens;
    var h, st := TwoTokens(), TwoRows(t);
    FirstRowOverflows(root, t);
    EndsOfRows(root, t);
    LogitsOfValues();
    TopQuotient(FirstLow(root), t);
    WinnerSelected(h, st, 0);
    assert Beats(StockLocal(h, st, 0).0.o, StockLocal(h, st, 0).1, StockRow(h, st, 0)[0], Range(2)[0]);
  }

  lemma {:induction false} TopQuotient(lo: Ordinal, t: real)
    requires lo <= ONE && t > 0.0 && Div(lo, t) == INF
    ensures GumbelValue(ONE, t, 0, 0) == Ord(INF)
  {
    DivMonotone(lo, ONE, t);
    if t == 1.0 { RoundUnitsExact(lo); RoundUnitsExact(ONE); }
  }

  /** The failing step: with room for one candidate the sampled row is given the greedy row's token 1 in place of its
  own token 0, under the premises and with status OK. */
  lemma {:induction false} OverflowedStepIsWrong(root: real -> real, cap: nat, t: real, r: CertMath.Result)
    requires TameRoot(root) && cap >= 1 && t > 0.0 && Div(FirstLow(root), t) == INF
    requires IsLocalResult(TwoTokens(), TwoRows(t), root, cap, r)
    ensures Premised(TwoTokens(), TwoRows(t)) && StockLocal(TwoTokens(), TwoRows(t), 0) == (Ord(INF), 0)
    ensures r.status == OK && r.vals[0] == INF && r.idxs[0] == 1
  {
    hide InUnion, StockLocal, RefinedValue, FirstLow;
    OnlyTokenOne(root, t);
    ExactAccumulation(t);
    StockOfFirstRow(root, t);
    assert WinsListed(TwoTokens(), TwoRows(t), root, cap, 0, r.vals[0], r.idxs[0]);
  }
}
