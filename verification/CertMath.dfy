/** The certified local selection of overlay/cert_math.py and the per-step protocol over the ranks.

A one-byte screen of the weights plus a rigorous bound prunes the tokens; the survivors' logits are recomputed and
the winner is the stock winner, bit for bit.  Values are fp32 ordinals (Fp32), reals stand for float64. */
module CertMath {
  import opened Fp32
  import opened CertBound
  import opened Gumbel
  import opened Selection
  import opened Vectors

  /** A float64 that may be infinite or NaN. */
  datatype F64 = Num(r: real) | NotFinite

  datatype Sampling =
    | Greedy
    | Sampled(temps: seq<real>, noise: seq<seq<Ordinal>>, ulps: seq<seq<int>>)

  /** One rank's shard of the head: the bf16 weights W, the screening copy D, group width G, input width K. */
  datatype Shard = Shard(W: seq<Vec>, D: seq<Vec>, G: nat, K: nat)
  {
    ghost predicate Valid()
    {
      && |W| == |D| > 0 && |W| < INT_MAX && G > 0 && K % G == 0
      && forall v :: 0 <= v < |W| ==> |W[v]| == K && |D[v]| == K
    }
  }

  /** One step: input rows x, what the screen accumulated (sHat), what the stock GEMM accumulates (acc, a function of
  (row, token) only), the masked tokens of each row, and how the rows are sampled: per row a temperature, per (row,
  token) the noise and how many ulps the stock division is off. */
  datatype Step = Step(x: seq<seq<F64>>, sHat: seq<seq<F64>>, acc: seq<seq<real>>, mask: seq<seq<bool>>,
      sampling: Sampling)
  {
    ghost predicate Fits(h: Shard)
    {
      && |sHat| == |x| && |acc| == |x| && |mask| == |x|
      && (forall m :: 0 <= m < |x| ==> |x[m]| == h.K && |sHat[m]| == |h.W| && |acc[m]| == |h.W| && |mask[m]| == |h.W|)
      && (sampling.Sampled? ==>
            && |sampling.temps| == |sampling.noise| == |sampling.ulps| == |x|
            && forall m :: 0 <= m < |x| ==> RowSampled(h, sampling.temps[m], sampling.noise[m], sampling.ulps[m]))
    }

    /** The row is compared on quotients by its temperature: T = 0 and T = 1 do not divide. */
    predicate Divided(m: nat)
      requires m < |x| && (sampling.Sampled? ==> |sampling.temps| == |x|)
    {
      sampling.Sampled? && sampling.temps[m] != 0.0 && sampling.temps[m] != 1.0
    }

    predicate RowFinite(m: nat)
      requires m < |x| && m < |sHat|
    {
      (forall k :: 0 <= k < |x[m]| ==> x[m][k].Num?) && forall v :: 0 <= v < |sHat[m]| ==> sHat[m][v].Num?
    }

    predicate IsFinite()
      requires |sHat| == |x|
    {
      forall m :: 0 <= m < |x| ==> RowFinite(m)
    }

    function Row(m: nat): (r: Vec)
      requires m < |x|
      ensures |r| == |x[m]|
    {
      seq(|x[m]|, k requires 0 <= k < |x[m]| => if x[m][k].Num? then x[m][k].r else 0.0)
    }
  }

  /** Finite noise, and a division that is at most two ulps off. */
  ghost predicate RowSampled(h: Shard, t: real, g: seq<Ordinal>, ulps: seq<int>)
  {
    && t >= 0.0 && |g| == |ulps| == |h.W|
    && (forall v :: 0 <= v < |g| ==> Finite(g[v])) && forall v :: 0 <= v < |ulps| ==> -2 <= ulps[v] <= 2
  }

  /** The two accumulation premises: the stock GEMM on every row, the screen on every row it builds exactly. */
  ghost predicate AccumulationPremises(h: Shard, st: Step)
    requires h.Valid() && st.Fits(h)
  {
    forall m, v :: 0 <= m < |st.x| && 0 <= v < |h.W| ==> PremisesAt(h, st, m, v)
  }

  ghost predicate PremisesAt(h: Shard, st: Step, m: nat, v: nat)
    requires h.Valid() && st.Fits(h) && m < |st.x| && v < |h.W|
  {
    && Accumulates(CAcc(h.K), st.acc[m][v], h.W[v], st.Row(m))
    && (!UnsafeRow(h.D[v]) && st.sHat[m][v].Num? ==> Accumulates(CAcc(h.K), st.sHat[m][v].r, h.D[v], st.Row(m)))
  }

  // ---------------------------------------------------------------------------------------------- interval

  /** (|s| + B) * 2^-22 + 2^-126. */
  function Slop(s: real, b: real): real { (RealAbs(s) + b) / 4194304.0 + Value(STEPS) }

  /** A float64 cast to fp32 and rounded to bf16; for the stock accumulator, its logit. */
  function Logit(acc: real): Ordinal { Bf16(Round32(acc)) }

  /** interval: the bf16-rounded ends of s +- B, each moved out by the slop. */
  function Interval(s: real, b: Ext): (Ordinal, Ordinal)
  {
    if b.Fin? then (Logit(s - b.r - Slop(s, b.r)), Logit(s + b.r + Slop(s, b.r))) else (-INF, INF)
  }

  lemma {:induction false} IntervalContainsLogit(s: real, b: Ext, acc: real)
    requires b.Fin? ==> b.r >= 0.0 && RealAbs(acc - s) <= b.r
    ensures Interval(s, b).0 <= Logit(acc) <= Interval(s, b).1
  {
    hide Logit, Slop;
    if b.Fin? {
      SlopNonNegative(s, b.r);
      LogitMonotone(s - b.r - Slop(s, b.r), acc);
      LogitMonotone(acc, s + b.r + Slop(s, b.r));
    } else {
      LogitInRange(acc);
    }
  }

  /** The ends may be evaluated with rounding: an error of up to the slop is absorbed. */
  lemma {:induction false} SlopCoversRounding(s: real, b: real, acc: real, lo: real, hi: real)
    requires b >= 0.0 && RealAbs(acc - s) <= b
    requires RealAbs(lo - (s - b - Slop(s, b))) <= Slop(s, b) && RealAbs(hi - (s + b + Slop(s, b))) <= Slop(s, b)
    ensures Logit(lo) <= Logit(acc) <= Logit(hi)
  {
    LogitMonotone(lo, acc);
    LogitMonotone(acc, hi);
  }

  lemma {:induction false} LogitMonotone(x: real, y: real)
    requires x <= y
    ensures Logit(x) <= Logit(y)
  {
    Round32Monotone(x, y);
    Bf16Monotone(Round32(x), Round32(y));
  }

  lemma {:induction false} SlopNonNegative(s: real, b: real)
    requires b >= 0.0
    ensures Slop(s, b) >= 0.0
  {
    assert SignedUnits(STEPS) as real * QUANTUM >= 0.0;
  }

  lemma {:induction false} LogitInRange(acc: real)
    ensures -INF <= Logit(acc) <= INF
  {
    Bf16Monotone(-INF, Round32(acc));
    Bf16Monotone(Round32(acc), INF);
  }

  /** The bound of (row m, token v): infinite for an unsafe row. */
  function BoundAt(h: Shard, st: Step, root: real -> real, m: nat, v: nat): Ext
    requires h.Valid() && st.Fits(h) && IsRoot(root) && m < |st.x| && v < |h.W|
  {
    RowBound(st.Row(m), h.W[v], h.D[v], h.G, root)
  }

  /** lo and hi of (row m, token v); a masked token has both at -infinity. */
  function Ends(h: Shard, st: Step, root: real -> real, m: nat, v: nat): (Ordinal, Ordinal)
    requires h.Valid() && st.Fits(h) && IsRoot(root) && m < |st.x| && v < |h.W| && st.IsFinite()
  {
    if st.mask[m][v] then (-INF, -INF)
    else
      assert st.RowFinite(m);
      Interval(st.sHat[m][v].r, BoundAt(h, st, root, m, v))
  }

  /** The ends on the scale the rows are compared on. */
  function VEnds(h: Shard, st: Step, root: real -> real, m: nat, v: nat): (F32, F32)
    requires h.Valid() && st.Fits(h) && IsRoot(root) && m < |st.x| && v < |h.W| && st.IsFinite()
  {
    var e := Ends(h, st, root, m, v);
    match st.sampling
    case Greedy => (Ord(e.0), Ord(e.1))
    case Sampled(temps, noise, _) => GumbelInterval(e.0, e.1, temps[m], noise[m][v])
  }

  /** What the stock rank compares: the (masked) logit, or its Gumbel value. */
  function StockValue(h: Shard, st: Step, m: nat, v: nat): F32
    requires h.Valid() && st.Fits(h) && m < |st.x| && v < |h.W|
  {
    var l := if st.mask[m][v] then -INF else Logit(st.acc[m][v]);
    match st.sampling
    case Greedy => Ord(l)
    case Sampled(temps, noise, ulps) => GumbelValue(l, temps[m], noise[m][v], ulps[m][v])
  }

  function StockRow(h: Shard, st: Step, m: nat): (vs: seq<F32>)
    requires h.Valid() && st.Fits(h) && m < |st.x|
    ensures |vs| == |h.W|
  {
    seq(|h.W|, v requires 0 <= v < |h.W| => StockValue(h, st, m, v))
  }

  /** stock_local, one row: the maximum over the whole shard and its lowest id. */
  function StockLocal(h: Shard, st: Step, m: nat): (F32, nat)
    requires h.Valid() && st.Fits(h) && m < |st.x|
  {
    Select(StockRow(h, st, m), Range(|h.W|))
  }

  /** What the certified path compares after the exact recompute: the mask is applied last. */
  function RefinedValue(h: Shard, st: Step, m: nat, v: nat): F32
    requires h.Valid() && st.Fits(h) && m < |st.x| && v < |h.W|
  {
    var l := Logit(st.acc[m][v]);
    if st.mask[m][v] then Ord(-INF)
    else
      match st.sampling
      case Greedy => Ord(l)
      case Sampled(temps, noise, ulps) => GumbelValue(l, temps[m], noise[m][v], ulps[m][v])
  }

  // ---------------------------------------------------------------------------------------------- soundness

  /** What the certificate takes for granted: finite data and the two accumulation premises. */
  ghost predicate Premised(h: Shard, st: Step)
    requires h.Valid() && st.Fits(h)
  {
    st.IsFinite() && AccumulationPremises(h, st)
  }

  /** The quotient of the token's lower end stays below +infinity; greedy rows, T = 0 and T = 1 do not divide, and a
  masked token is at -infinity on both ends. */
  predicate LowerInRange(h: Shard, st: Step, root: real -> real, m: nat, v: nat)
    requires h.Valid() && st.Fits(h) && IsRoot(root) && m < |st.x| && v < |h.W| && st.IsFinite()
  {
    st.sampling.Sampled? ==> LowInRange(Ends(h, st, root, m, v).0, st.sampling.temps[m])
  }

  /** The quotient of the token's upper end stays above -infinity: never so for a masked token of a divided row. */
  predicate UpperInRange(h: Shard, st: Step, root: real -> real, m: nat, v: nat)
    requires h.Valid() && st.Fits(h) && IsRoot(root) && m < |st.x| && v < |h.W| && st.IsFinite()
  {
    st.sampling.Sampled? ==> HighInRange(Ends(h, st, root, m, v).1, st.sampling.temps[m])
  }

  /** No lower quotient of the row overflows. */
  predicate RowInRange(h: Shard, st: Step, root: real -> real, m: nat)
    requires h.Valid() && st.Fits(h) && IsRoot(root) && m < |st.x| && st.IsFinite()
  {
    forall v :: 0 <= v < |h.W| ==> LowerInRange(h, st, root, m, v)
  }

  lemma {:induction false} LogitInEnds(h: Shard, st: Step, root: real -> real, m: nat, v: nat)
    requires h.Valid() && st.Fits(h) && IsRoot(root) && m < |st.x| && v < |h.W|
    requires Premised(h, st)
    ensures var e := Ends(h, st, root, m, v);
            e.0 <= (if st.mask[m][v] then -INF else Logit(st.acc[m][v])) <= e.1
  {
    if !st.mask[m][v] {
      assert PremisesAt(h, st, m, v) && st.RowFinite(m);
      var b, s, acc := BoundAt(h, st, root, m, v), st.sHat[m][v].r, st.acc[m][v];
      if b.Fin? {
        FiniteBoundIsSafe(st.Row(m), h.W[v], h.D[v], h.G, root);
        BoundCovers(st.Row(m), h.W[v], h.D[v], h.G, root, s, acc);
      }
      IntervalContainsLogit(s, b, acc);
    }
  }

  /** Masked, greedy or sampled: each end of every (row, token) is on the right side of the stock value exactly when
  its quotient is in range. */
  lemma {:induction false} EndsContain(h: Shard, st: Step, root: real -> real, m: nat, v: nat)
    requires h.Valid() && st.Fits(h) && IsRoot(root) && m < |st.x| && v < |h.W|
    requires Premised(h, st)
    ensures StockValue(h, st, m, v).Ord?
    ensures StockValue(h, st, m, v).Ge(VEnds(h, st, root, m, v).0) <==> LowerInRange(h, st, root, m, v)
    ensures VEnds(h, st, root, m, v).1.Ge(StockValue(h, st, m, v)) <==> UpperInRange(h, st, root, m, v)
  {
    LogitInEnds(h, st, root, m, v);
    if st.sampling.Sampled? {
      assert RowSampled(h, st.sampling.temps[m], st.sampling.noise[m], st.sampling.ulps[m]);
      var e := Ends(h, st, root, m, v);
      var l := if st.mask[m][v] then -INF else Logit(st.acc[m][v]);
      var t, g, ulps := st.sampling.temps[m], st.sampling.noise[m][v], st.sampling.ulps[m][v];
      LowEndCovers(e.0, l, t, g, ulps);
      HighEndCovers(l, e.1, t, g, ulps);
    }
  }

  /** An end is a number exactly when its quotient is in range, whatever the screen accumulated. */
  lemma {:induction false} EndsAreNumbers(h: Shard, st: Step, root: real -> real, m: nat, v: nat)
    requires h.Valid() && st.Fits(h) && IsRoot(root) && m < |st.x| && v < |h.W| && st.IsFinite()
    ensures VEnds(h, st, root, m, v).0.Ord? <==> LowerInRange(h, st, root, m, v)
    ensures VEnds(h, st, root, m, v).1.Ord? <==> UpperInRange(h, st, root, m, v)
  {
    if st.sampling.Sampled? {
      assert RowSampled(h, st.sampling.temps[m], st.sampling.noise[m], st.sampling.ulps[m]);
      var e := Ends(h, st, root, m, v);
      LowEndCovers(e.0, e.0, st.sampling.temps[m], st.sampling.noise[m][v], 0);
      HighEndCovers(e.1, e.1, st.sampling.temps[m], st.sampling.noise[m][v], 0);
    }
  }

  /** The recompute gives the stock value of every unmasked token. A masked one it puts at -infinity, where the stock
  value of a masked token is too unless its division is off upwards. */
  lemma {:induction false} RecomputeIsStock(h: Shard, st: Step, m: nat, v: nat)
    requires h.Valid() && st.Fits(h) && m < |st.x| && v < |h.W|
    ensures StockValue(h, st, m, v).Ge(RefinedValue(h, st, m, v))
    ensures RefinedValue(h, st, m, v) == StockValue(h, st, m, v) <==>
            (st.mask[m][v] ==> StockValue(h, st, m, v) == Ord(-INF))
    ensures st.mask[m][v] && (!st.Divided(m) || st.sampling.ulps[m][v] <= 0) ==>
            StockValue(h, st, m, v) == Ord(-INF)
  {
    if st.sampling.Sampled? {
      assert RowSampled(h, st.sampling.temps[m], st.sampling.noise[m], st.sampling.ulps[m]);
      var l := if st.mask[m][v] then -INF else Logit(st.acc[m][v]);
      LowEndCovers(l, l, st.sampling.temps[m], st.sampling.noise[m][v], st.sampling.ulps[m][v]);
    }
  }

  /** A row with any group has a finite bound only if its screening copy is exact. */
  lemma {:induction false} FiniteBoundIsSafe(x: Vec, W: Vec, D: Vec, G: nat, root: real -> real)
    requires IsRoot(root) && G > 0 && |W| == |D| == |x| && |x| % G == 0
    requires RowBound(x, W, D, G, root).Fin?
    ensures !UnsafeRow(D)
  {
    BoundOfTables(x, W, D, G, root);
    assert |BuildRow(W, D, G, root).rt| == |Groups(Minus(W, D), G)|;
    assert D != [] ==> Groups(Minus(W, D), G) != [];
  }

  // ---------------------------------------------------------------------------------------------- candidates

  function VLo(h: Shard, st: Step, root: real -> real, m: nat): (vs: seq<F32>)
    requires h.Valid() && st.Fits(h) && IsRoot(root) && m < |st.x| && st.IsFinite()
    ensures |vs| == |h.W|
  {
    seq(|h.W|, v requires 0 <= v < |h.W| => VEnds(h, st, root, m, v).0)
  }

  /** candidates, one row: the upper end reaches the largest lower end. */
  predicate IsCandidate(h: Shard, st: Step, root: real -> real, m: nat, v: nat)
    requires h.Valid() && st.Fits(h) && IsRoot(root) && m < |st.x| && v < |h.W| && st.IsFinite()
  {
    VEnds(h, st, root, m, v).1.Ge(NpMax(VLo(h, st, root, m)))
  }

  /** A token is in the union if it is a candidate of some row. */
  predicate InUnion(h: Shard, st: Step, root: real -> real, v: nat)
    requires h.Valid() && st.Fits(h) && IsRoot(root) && v < |h.W| && st.IsFinite()
  {
    exists m :: 0 <= m < |st.x| && IsCandidate(h, st, root, m, v)
  }

  /** np.nonzero(union): the union's tokens in ascending order. */
  function UnionIds(h: Shard, st: Step, root: real -> real, n: nat): (ids: seq<nat>)
    requires h.Valid() && st.Fits(h) && IsRoot(root) && n <= |h.W| && st.IsFinite()
    ensures |ids| <= n
    ensures forall v: nat :: v in ids <==> v < n && InUnion(h, st, root, v)
  {
    if n == 0 then []
    else UnionIds(h, st, root, n - 1) + (if InUnion(h, st, root, n - 1) then [n - 1] else [])
  }

  /** The threshold is a number exactly when no lower quotient overflows. */
  lemma {:induction false} ThresholdIsNumber(h: Shard, st: Step, root: real -> real, m: nat)
    requires h.Valid() && st.Fits(h) && IsRoot(root) && m < |st.x| && st.IsFinite()
    ensures NaNFree(VLo(h, st, root, m)) <==> RowInRange(h, st, root, m)
    ensures NpMax(VLo(h, st, root, m)).Ord? <==> RowInRange(h, st, root, m)
  {
    var los := VLo(h, st, root, m);
    forall v | 0 <= v < |h.W|
      ensures los[v].Ord? <==> LowerInRange(h, st, root, m, v)
    {
      EndsAreNumbers(h, st, root, m, v);
    }
    if NaNFree(los) { NpMaxIsMax(los); } else { NpMaxOfNaN(los); }
  }

  /** Every token that ties for the stock maximum of a row survives the row's pruning exactly when no lower quotient of
  the row and not its own upper quotient is out of range. */
  lemma {:induction false} TiesAreCandidates(h: Shard, st: Step, root: real -> real, m: nat, u: nat)
    requires h.Valid() && st.Fits(h) && IsRoot(root) && m < |st.x| && u < |h.W|
    requires Premised(h, st)
    requires StockValue(h, st, m, u) == StockLocal(h, st, m).0
    ensures IsCandidate(h, st, root, m, u) <==> RowInRange(h, st, root, m) && UpperInRange(h, st, root, m, u)
  {
    ThresholdIsNumber(h, st, root, m);
    EndsAreNumbers(h, st, root, m, u);
    if RowInRange(h, st, root, m) && UpperInRange(h, st, root, m, u) {
      ThresholdBelowWinner(h, st, root, m);
      EndsContain(h, st, root, m, u);
    }
  }

  lemma {:induction false} ThresholdBelowWinner(h: Shard, st: Step, root: real -> real, m: nat)
    requires h.Valid() && st.Fits(h) && IsRoot(root) && m < |st.x|
    requires Premised(h, st) && RowInRange(h, st, root, m)
    ensures StockLocal(h, st, m).0.Ge(NpMax(VLo(h, st, root, m)))
  {
    WinnerSelected(h, st, m);
    ThresholdIsNumber(h, st, root, m);
    var los := VLo(h, st, root, m);
    NpMaxIsMax(los);
    var k :| 0 <= k < |h.W| && los[k] == NpMax(los);
    EndsContain(h, st, root, m, k);
    assert LowerInRange(h, st, root, m, k);
    assert Beats(StockLocal(h, st, m).0.o, StockLocal(h, st, m).1, StockRow(h, st, m)[k], Range(|h.W|)[k]);
  }

  /** The stock selection always has a winner: no stock value is NaN. */
  lemma {:induction false} WinnerSelected(h: Shard, st: Step, m: nat)
    requires h.Valid() && st.Fits(h) && m < |st.x|
    ensures NaNFree(StockRow(h, st, m)) && StockLocal(h, st, m).0.Ord? && StockLocal(h, st, m).1 < |h.W|
    ensures Selected(StockRow(h, st, m), Range(|h.W|), StockLocal(h, st, m).0.o, StockLocal(h, st, m).1)
    ensures StockValue(h, st, m, StockLocal(h, st, m).1) == StockLocal(h, st, m).0
  {
    var row, ids := StockRow(h, st, m), Range(|h.W|);
    forall v | 0 <= v < |h.W|
      ensures row[v].Ord?
    {
      RecomputeIsStock(h, st, m, v);
    }
    SelectIsSelected(row, ids);
  }

  /** The stock winner of the row is inside its own upper end: then nothing the row excludes can matter. */
  predicate RowUsable(h: Shard, st: Step, root: real -> real, m: nat)
    requires h.Valid() && st.Fits(h) && IsRoot(root) && m < |st.x| && st.IsFinite()
  {
    WinnerSelected(h, st, m);
    RowInRange(h, st, root, m) && UpperInRange(h, st, root, m, StockLocal(h, st, m).1)
  }

  /** The stock winner of a row survives the pruning exactly when the row is usable. */
  lemma {:induction false} WinnerIsCandidate(h: Shard, st: Step, root: real -> real, m: nat)
    requires h.Valid() && st.Fits(h) && IsRoot(root) && m < |st.x|
    requires Premised(h, st)
    ensures StockLocal(h, st, m).1 < |h.W|
    ensures IsCandidate(h, st, root, m, StockLocal(h, st, m).1) <==> RowUsable(h, st, root, m)
  {
    WinnerSelected(h, st, m);
    TiesAreCandidates(h, st, root, m, StockLocal(h, st, m).1);
  }

  /** Rows that do not divide are always usable. */
  lemma {:induction false} UndividedRowIsUsable(h: Shard, st: Step, root: real -> real, m: nat)
    requires h.Valid() && st.Fits(h) && IsRoot(root) && m < |st.x| && st.IsFinite()
    requires !st.Divided(m)
    ensures RowUsable(h, st, root, m)
  {
    WinnerSelected(h, st, m);
  }

  /** A divided row, masked or not, is usable once the ends show it: no lower quotient overflows, and the lower end of
  some token in range passes what the tokens out of range, the masked ones among them, can reach. */
  lemma {:induction false} AnchoredRowIsUsable(h: Shard, st: Step, root: real -> real, m: nat, u: nat)
    requires h.Valid() && st.Fits(h) && IsRoot(root) && m < |st.x| && u < |h.W|
    requires Premised(h, st) && st.sampling.Sampled?
    requires RowInRange(h, st, root, m)
    requires forall w :: 0 <= w < |h.W| && !UpperInRange(h, st, root, m, w) ==>
               !Bottom(st.sampling.noise[m][w]).Ge(VEnds(h, st, root, m, u).0)
    ensures RowUsable(h, st, root, m)
  {
    WinnerSelected(h, st, m);
    EndsContain(h, st, root, m, u);
    assert LowerInRange(h, st, root, m, u);
    var k := StockLocal(h, st, m).1;
    assert Beats(StockLocal(h, st, m).0.o, k, StockRow(h, st, m)[u], Range(|h.W|)[u]);
    if !UpperInRange(h, st, root, m, k) {
      OutOfRangeStock(h, st, root, m, k);
    }
  }

  lemma {:induction false} OutOfRangeStock(h: Shard, st: Step, root: real -> real, m: nat, w: nat)
    requires h.Valid() && st.Fits(h) && IsRoot(root) && m < |st.x| && w < |h.W|
    requires Premised(h, st) && !UpperInRange(h, st, root, m, w)
    ensures Bottom(st.sampling.noise[m][w]).Ge(StockValue(h, st, m, w))
  {
    assert RowSampled(h, st.sampling.temps[m], st.sampling.noise[m], st.sampling.ulps[m]);
    LogitInEnds(h, st, root, m, w);
    var l := if st.mask[m][w] then -INF else Logit(st.acc[m][w]);
    OutOfRangeIsBottom(l, Ends(h, st, root, m, w).1, st.sampling.temps[m], st.sampling.noise[m][w],
                       st.sampling.ulps[m][w]);
  }

  /** A token whose screening copy is not exact survives in every row that does not mask it, whatever the screen said
  about it, exactly when the row has a threshold. */
  lemma {:induction false} UnsafeRowsSurvive(h: Shard, st: Step, root: real -> real, m: nat, v: nat)
    requires h.Valid() && st.Fits(h) && IsRoot(root) && st.IsFinite() && m < |st.x| && v < |h.W|
    requires UnsafeRow(h.D[v]) && !st.mask[m][v]
    ensures IsCandidate(h, st, root, m, v) <==> RowInRange(h, st, root, m)
  {
    if BoundAt(h, st, root, m, v).Fin? {
      FiniteBoundIsSafe(st.Row(m), h.W[v], h.D[v], h.G, root);
    }
    assert Ends(h, st, root, m, v).1 == INF;
    if st.sampling.Sampled? {
      assert RowSampled(h, st.sampling.temps[m], st.sampling.noise[m], st.sampling.ulps[m]);
    }
    assert VEnds(h, st, root, m, v).1 == Ord(INF);
    ThresholdIsNumber(h, st, root, m);
  }

  /** One usable row keeps the union from being empty, so the fallback is then taken on overflow only. */
  lemma {:induction false} UnionNotEmpty(h: Shard, st: Step, root: real -> real, m: nat)
    requires h.Valid() && st.Fits(h) && IsRoot(root) && m < |st.x|
    requires Premised(h, st) && RowUsable(h, st, root, m)
    ensures UnionIds(h, st, root, |h.W|) != []
  {
    WinnerIsCandidate(h, st, root, m);
    assert StockLocal(h, st, m).1 in UnionIds(h, st, root, |h.W|);
  }

  // ---------------------------------------------------------------------------------------------- cert_local

  datatype Status = OK | LOCAL_STOCK | NONFINITE

  datatype Result = Result(vals: seq<Ordinal>, idxs: seq<nat>, union: nat, status: Status)

  function Refined(h: Shard, st: Step, m: nat): (vs: seq<F32>)
    requires h.Valid() && st.Fits(h) && m < |st.x|
    ensures |vs| == |h.W|
  {
    seq(|h.W|, v requires 0 <= v < |h.W| => RefinedValue(h, st, m, v))
  }

  /** An oversized or empty union: the whole shard is refined instead. */
  predicate FallsBack(h: Shard, st: Step, root: real -> real, cap: nat)
    requires h.Valid() && st.Fits(h) && IsRoot(root) && st.IsFinite()
  {
    |UnionIds(h, st, root, |h.W|)| > cap || UnionIds(h, st, root, |h.W|) == []
  }

  predicate Listed(h: Shard, st: Step, root: real -> real, cap: nat, v: nat)
    requires h.Valid() && st.Fits(h) && IsRoot(root) && st.IsFinite()
  {
    v < |h.W| && (FallsBack(h, st, root, cap) || InUnion(h, st, root, v))
  }

  /** (v, i) is the refined winner of row m among the listed tokens: the largest value, the lowest id that has it. */
  ghost predicate WinsListed(h: Shard, st: Step, root: real -> real, cap: nat, m: nat, v: Ordinal, i: nat)
    requires h.Valid() && st.Fits(h) && IsRoot(root) && m < |st.x| && st.IsFinite()
  {
    && Listed(h, st, root, cap, i) && RefinedValue(h, st, m, i) == Ord(v)
    && forall u: nat :: Listed(h, st, root, cap, u) ==> Beats(v, i, RefinedValue(h, st, m, u), u)
  }

  /** Row m of the result is the stock selection, value and id. */
  predicate RowIsStock(h: Shard, st: Step, m: nat, r: Result)
    requires h.Valid() && st.Fits(h) && m < |st.x| && |r.vals| == |r.idxs| == |st.x|
  {
    StockLocal(h, st, m) == (Ord(r.vals[m]), r.idxs[m])
  }

  /** What cert_local returns: placeholders for non-finite data, else per row the refined winner of the list. */
  ghost predicate IsLocalResult(h: Shard, st: Step, root: real -> real, cap: nat, r: Result)
    requires h.Valid() && st.Fits(h) && IsRoot(root)
  {
    && |r.vals| == |r.idxs| == |st.x|
    && (r.status == NONFINITE <==> !st.IsFinite())
    && (!st.IsFinite() ==> forall m :: 0 <= m < |st.x| ==> r.vals[m] == -INF && r.idxs[m] == 0)
    && (st.IsFinite() ==>
          && r.union == |UnionIds(h, st, root, |h.W|)|
          && (r.status == LOCAL_STOCK <==> FallsBack(h, st, root, cap))
          && forall m :: 0 <= m < |st.x| ==> WinsListed(h, st, root, cap, m, r.vals[m], r.idxs[m]))
  }

  /** cert_local: per row the value and id the stock arithmetic selects on this shard. The candidate list is refined
  in whatever order the device compacted it (shuffle); an empty or oversized list falls back to the whole shard. */
  method CertLocal(h: Shard, st: Step, root: real -> real, cap: nat, shuffle: seq<nat> -> seq<nat>) returns (r: Result)
    requires h.Valid() && st.Fits(h) && IsRoot(root)
    requires forall s: seq<nat> :: multiset(shuffle(s)) == multiset(s)
    ensures IsLocalResult(h, st, root, cap, r)
    ensures Premised(h, st) ==> forall m :: 0 <= m < |st.x| && RowUsable(h, st, root, m) ==> RowIsStock(h, st, m, r)
  {
    var M := |st.x|;
    if !st.IsFinite() {
      return Result(seq(M, _ => -INF), seq(M, _ => 0), 0, NONFINITE);
    }
    var union := UnionIds(h, st, root, |h.W|);
    var n := |union|;
    var fallback := n > cap || n == 0;
    var list := if fallback then Range(|h.W|) else union;
    var ids := shuffle(list);
    ListedIds(h, st, root, cap, ids, list);
    var vals, idxs := RefineRows(h, st, root, cap, ids);
    r := Result(vals, idxs, n, if fallback then LOCAL_STOCK else OK);
    if Premised(h, st) {
      forall m | 0 <= m < M && RowUsable(h, st, root, m)
        ensures RowIsStock(h, st, m, r)
      {
        UsableRowIsStock(h, st, root, cap, m, r);
      }
    }
  }

  /** The list in any order: exactly the listed tokens. */
  ghost predicate ListOf(h: Shard, st: Step, root: real -> real, cap: nat, ids: seq<nat>)
    requires h.Valid() && st.Fits(h) && IsRoot(root) && st.IsFinite()
  {
    && ids != [] && (forall v: nat :: v in ids <==> Listed(h, st, root, cap, v))
    && forall j :: 0 <= j < |ids| ==> ids[j] < |h.W|
  }

  /** The refine loop: per row the winner among the listed tokens. */
  method RefineRows(h: Shard, st: Step, ghost root: real -> real, ghost cap: nat, ids: seq<nat>)
    returns (vals: seq<Ordinal>, idxs: seq<nat>)
    requires h.Valid() && st.Fits(h) && IsRoot(root) && st.IsFinite()
    requires ListOf(h, st, root, cap, ids)
    ensures |vals| == |idxs| == |st.x|
    ensures forall m :: 0 <= m < |st.x| ==> WinsListed(h, st, root, cap, m, vals[m], idxs[m])
  {
    vals, idxs := [], [];
    while |vals| < |st.x|
      invariant |vals| == |idxs| <= |st.x|
      invariant forall k :: 0 <= k < |vals| ==> WinsListed(h, st, root, cap, k, vals[k], idxs[k])
    {
      var m := |vals|;
      var v, i := FinalSelect(At(Refined(h, st, m), ids), ids, 1024);
      RefinedWinner(h, st, root, cap, ids, m, v, i);
      vals, idxs := vals + [v], idxs + [i];
    }
  }

  lemma {:induction false} RefinedWinner(h: Shard, st: Step, root: real -> real, cap: nat, ids: seq<nat>, m: nat,
                                         v: Ordinal, i: nat)
    requires h.Valid() && st.Fits(h) && IsRoot(root) && st.IsFinite() && m < |st.x|
    requires ListOf(h, st, root, cap, ids)
    requires NaNFree(At(Refined(h, st, m), ids)) ==> Selected(At(Refined(h, st, m), ids), ids, v, i)
    ensures WinsListed(h, st, root, cap, m, v, i)
  {
    var vs := At(Refined(h, st, m), ids);
    forall j | 0 <= j < |ids|
      ensures vs[j].Ord?
    {
      RecomputeIsStock(h, st, m, ids[j]);
    }
    var a :| 0 <= a < |ids| && ids[a] == i && vs[a] == Ord(v);
    assert ids[a] in ids;
    forall u: nat | Listed(h, st, root, cap, u)
      ensures Beats(v, i, RefinedValue(h, st, m, u), u)
    {
      var j :| 0 <= j < |ids| && ids[j] == u;
      assert Beats(v, i, vs[j], ids[j]);
    }
  }

  /** A shuffled list has the same tokens. */
  lemma {:induction false} ListedIds(h: Shard, st: Step, root: real -> real, cap: nat, ids: seq<nat>, list: seq<nat>)
    requires h.Valid() && st.Fits(h) && IsRoot(root) && st.IsFinite()
    requires list == if FallsBack(h, st, root, cap) then Range(|h.W|) else UnionIds(h, st, root, |h.W|)
    requires multiset(ids) == multiset(list)
    ensures ListOf(h, st, root, cap, ids)
  {
    forall v: nat
      ensures v in ids <==> v in list
    {
      assert v in multiset(ids) <==> v in multiset(list);
    }
    if FallsBack(h, st, root, cap) {
      forall v | 0 <= v < |h.W|
        ensures v in list
      {
        assert Range(|h.W|)[v] == v;
      }
    }
    assert list[0] in list;
    assert ids != [];
    forall j | 0 <= j < |ids|
      ensures ids[j] < |h.W|
    {
      assert ids[j] in ids;
    }
  }

  /** The exact condition of one row, whatever the premises, the mask and the temperature: its result is the stock one
  if and only if its stock winner was listed, through the fallback or as a candidate of any row, and is not a masked
  token whose stock value is not -infinity. */
  lemma {:induction false} RowIsExact(h: Shard, st: Step, root: real -> real, cap: nat, m: nat, r: Result)
    requires h.Valid() && st.Fits(h) && IsRoot(root) && st.IsFinite() && m < |st.x|
    requires IsLocalResult(h, st, root, cap, r)
    ensures var w := StockLocal(h, st, m);
            && w.1 < |h.W|
            && (RowIsStock(h, st, m, r) <==>
                Listed(h, st, root, cap, w.1) && (st.mask[m][w.1] ==> w.0 == Ord(-INF)))
  {
    hide RefinedValue, StockValue, StockLocal;
    WinnerSelected(h, st, m);
    var w, k := StockLocal(h, st, m).0.o, StockLocal(h, st, m).1;
    var v, i := r.vals[m], r.idxs[m];
    assert WinsListed(h, st, root, cap, m, v, i);
    RecomputeIsStock(h, st, m, k);
    if Listed(h, st, root, cap, k) && RefinedValue(h, st, m, k) == Ord(w) {
      assert Beats(v, i, RefinedValue(h, st, m, k), k);
      RecomputeIsStock(h, st, m, i);
      assert Beats(w, k, StockRow(h, st, m)[i], Range(|h.W|)[i]);
    }
  }

  /** So a usable row is exact, through the candidates or the fallback. */
  lemma {:induction false} UsableRowIsStock(h: Shard, st: Step, root: real -> real, cap: nat, m: nat, r: Result)
    requires h.Valid() && st.Fits(h) && IsRoot(root) && m < |st.x|
    requires Premised(h, st) && RowUsable(h, st, root, m)
    requires IsLocalResult(h, st, root, cap, r)
    ensures RowIsStock(h, st, m, r)
  {
    RowIsExact(h, st, root, cap, m, r);
    WinnerIsCandidate(h, st, root, m);
    WinnerSelected(h, st, m);
    var k := StockLocal(h, st, m).1;
    assert InUnion(h, st, root, k);
    RecomputeIsStock(h, st, m, k);
    if st.Divided(m) { assert UpperInRange(h, st, root, m, k); assert !st.mask[m][k]; }
  }
}
