/** The error bound of the certified head (overlay/cert_math.py): grouped Cauchy-Schwarz over reals.

Norms are non-negative witnesses whose square is at least the sum of squares.  The square roots may be computed short;
the tables, the input norms and the bound carry the inflation factors of the source, which make up for it. */
module CertBound {
  import opened Arith
  import opened FloatGrid
  import opened Fp32
  import opened FpFormats
  import opened Vectors

  ghost predicate IsNorm(n: real, a: Vec) { n >= 0.0 && n * n >= SumSq(a) }

  // ---------------------------------------------------------------------------------------------- Cauchy-Schwarz

  lemma {:induction false} DotWithinAbsDot(a: Vec, b: Vec)
    requires |a| == |b|
    ensures RealAbs(Dot(a, b)) <= AbsDot(a, b)
  {
    if a != [] {
      DotWithinAbsDot(a[1..], b[1..]);
    }
  }

  lemma {:induction false} DotMinus(a: Vec, b: Vec, x: Vec)
    requires |a| == |b| == |x|
    ensures Dot(Minus(a, b), x) == Dot(a, x) - Dot(b, x)
  {
    if a != [] {
      DotMinus(a[1..], b[1..], x[1..]);
      assert Minus(a, b)[1..] == Minus(a[1..], b[1..]);
    }
  }

  /** sum (s |a_k| - t |b_k|)^2, expanded. */
  ghost predicate SquareExpansion(ss: real, st: real, tt: real, a: real, d: real, b: real)
  {
    ss * a - 2.0 * (st * d) + tt * b >= 0.0
  }

  lemma {:induction false} Discriminant(a: Vec, b: Vec, s: real, t: real)
    requires |a| == |b|
    ensures SquareExpansion(s * s, s * t, t * t, SumSq(a), AbsDot(a, b), SumSq(b))
  {
    if a != [] {
      hide SquareExpansion;
      Discriminant(a[1..], b[1..], s, t);
      DiscriminantTerm(a[0], b[0], s, t);
      AddExpansions(s * s, s * t, t * t, a[0] * a[0], RealAbs(a[0] * b[0]), b[0] * b[0],
                    SumSq(a[1..]), AbsDot(a[1..], b[1..]), SumSq(b[1..]));
    }
  }

  lemma {:induction false} DiscriminantTerm(x: real, y: real, s: real, t: real)
    ensures SquareExpansion(s * s, s * t, t * t, x * x, RealAbs(x * y), y * y)
  {
    var u, v := s * RealAbs(x), t * RealAbs(y);
    assert (u - v) * (u - v) == u * u - 2.0 * (u * v) + v * v;
    assert u * u == s * s * (x * x);
    assert v * v == t * t * (y * y);
    AbsOfProduct(x, y);
    assert u * v == s * t * (RealAbs(x) * RealAbs(y));
  }

  lemma {:induction false} AbsOfProduct(x: real, y: real)
    ensures RealAbs(x * y) == RealAbs(x) * RealAbs(y)
  {
  }

  lemma {:induction false} AddExpansions(ss: real, st: real, tt: real, a0: real, d0: real, b0: real, a: real,
      d: real, b: real)
    requires SquareExpansion(ss, st, tt, a0, d0, b0) && SquareExpansion(ss, st, tt, a, d, b)
    ensures SquareExpansion(ss, st, tt, a0 + a, d0 + d, b0 + b)
  {
    assert ss * (a0 + a) == ss * a0 + ss * a;
    assert st * (d0 + d) == st * d0 + st * d;
    assert tt * (b0 + b) == tt * b0 + tt * b;
  }

  /** Cauchy-Schwarz with norm witnesses. */
  lemma {:induction false} CauchySchwarz(a: Vec, b: Vec, na: real, nb: real)
    requires |a| == |b| && IsNorm(na, a) && IsNorm(nb, b)
    ensures AbsDot(a, b) <= na * nb
  {
    if na == 0.0 || nb == 0.0 {
      ZeroNorm(a, b);
    } else {
      Discriminant(a, b, nb, na);
      NormsBoundProduct(na, nb, SumSq(a), AbsDot(a, b), SumSq(b));
    }
  }

  lemma {:induction false} NormsBoundProduct(na: real, nb: real, a: real, d: real, b: real)
    requires na > 0.0 && nb > 0.0 && a <= na * na && b <= nb * nb
    requires SquareExpansion(nb * nb, nb * na, na * na, a, d, b)
    ensures d <= na * nb
  {
    var p := na * nb;
    ScaleBound(nb * nb, a, na * na);
    ScaleBound(na * na, b, nb * nb);
    assert nb * nb * (na * na) == p * p && na * na * (nb * nb) == p * p;
    assert p * d <= p * p;
    CancelFactor(p, d);
  }

  lemma {:induction false} ScaleBound(c: real, x: real, y: real)
    requires c >= 0.0 && x <= y
    ensures c * x <= c * y
  {
  }

  lemma {:induction false} CancelFactor(p: real, d: real)
    requires p > 0.0 && p * d <= p * p
    ensures d <= p
  {
    if d > p {
      PositiveProduct(p, d - p);
      assert false;
    }
  }

  lemma {:induction false} PositiveProduct(p: real, e: real)
    requires p > 0.0 && e > 0.0
    ensures p * e > 0.0 && p * (p + e) == p * p + p * e
  {
  }

  lemma {:induction false} ZeroNorm(a: Vec, b: Vec)
    requires |a| == |b| && (SumSq(a) <= 0.0 || SumSq(b) <= 0.0)
    ensures AbsDot(a, b) == 0.0
  {
    if a != [] {
      ZeroSquare(a[0]);
      ZeroSquare(b[0]);
      ZeroNorm(a[1..], b[1..]);
      assert a[0] * b[0] == 0.0;
    }
  }

  lemma {:induction false} ZeroSquare(x: real)
    ensures x * x > 0.0 || x == 0.0
  {
    var y := RealAbs(x);
    AbsOfProduct(x, x);
    if y > 0.0 { PositiveProduct(y, y); }
  }

  // ---------------------------------------------------------------------------------------------- groups

  /** reshape(K / G, G): the row cut into consecutive groups of G columns. */
  function Groups(a: Vec, G: nat): (gs: seq<Vec>)
    requires G > 0 && |a| % G == 0
    ensures a == [] <==> gs == []
  {
    if a == [] then []
    else
      RestOfGroups(|a|, G);
      [a[..G]] + Groups(a[G..], G)
  }

  lemma {:induction false} RestOfGroups(n: nat, G: nat)
    requires G > 0 && n % G == 0 && n > 0
    ensures n >= G && (n - G) % G == 0
  {
    var q := n / G;
    assert n == q * G;
    assert q >= 1;
    assert n - G == (q - 1) * G;
    DivUnique(n - G, q - 1, 0, G);
  }

  ghost predicate GroupNorms(ns: Vec, gs: seq<Vec>)
  {
    |ns| == |gs| && forall g :: 0 <= g < |ns| ==> IsNorm(ns[g], gs[g])
  }

  lemma {:induction false} SplitAbsDot(a: Vec, b: Vec, n: nat)
    requires |a| == |b| && n <= |a|
    ensures AbsDot(a, b) == AbsDot(a[..n], b[..n]) + AbsDot(a[n..], b[n..])
  {
    if n > 0 {
      SplitAbsDot(a[1..], b[1..], n - 1);
      assert a[1..][..n - 1] == a[..n][1..] && b[1..][..n - 1] == b[..n][1..];
      assert a[1..][n - 1..] == a[n..] && b[1..][n - 1..] == b[n..];
    } else {
      assert a[..0] == [] && a[0..] == a && b[0..] == b;
    }
  }

  lemma {:induction false} SplitSumSq(a: Vec, n: nat)
    requires n <= |a|
    ensures SumSq(a) == SumSq(a[..n]) + SumSq(a[n..])
  {
    if n > 0 {
      SplitSumSq(a[1..], n - 1);
      assert a[1..][..n - 1] == a[..n][1..] && a[1..][n - 1..] == a[n..];
    } else {
      assert a[0..] == a;
    }
  }

  /** Cauchy-Schwarz per group: the residual error is at most the sum of the products of the group norms. */
  lemma {:induction false} GroupedCauchySchwarz(a: Vec, b: Vec, na: Vec, nb: Vec, G: nat)
    requires G > 0 && |a| == |b| && |a| % G == 0
    requires GroupNorms(na, Groups(a, G)) && GroupNorms(nb, Groups(b, G))
    ensures |na| == |nb| && AbsDot(a, b) <= Dot(na, nb)
    decreases |a|
  {
    if a != [] {
      RestOfGroups(|a|, G);
      TailGroupNorms(a, na, G);
      TailGroupNorms(b, nb, G);
      GroupedCauchySchwarz(a[G..], b[G..], na[1..], nb[1..], G);
      CauchySchwarz(a[..G], b[..G], na[0], nb[0]);
      GroupStep(a, b, na, nb, G);
    }
  }

  lemma {:induction false} TailGroupNorms(a: Vec, na: Vec, G: nat)
    requires G > 0 && |a| % G == 0 && a != []
    requires GroupNorms(na, Groups(a, G))
    ensures |a| >= G && |a[G..]| % G == 0 && na != []
    ensures IsNorm(na[0], a[..G]) && GroupNorms(na[1..], Groups(a[G..], G))
  {
    RestOfGroups(|a|, G);
    assert Groups(a, G)[1..] == Groups(a[G..], G);
    assert IsNorm(na[0], Groups(a, G)[0]);
    forall g | 0 <= g < |na[1..]|
      ensures IsNorm(na[1..][g], Groups(a[G..], G)[g])
    {
      assert IsNorm(na[g + 1], Groups(a, G)[g + 1]);
    }
  }

  lemma {:induction false} GroupStep(a: Vec, b: Vec, na: Vec, nb: Vec, G: nat)
    requires |na| == |nb| > 0 && |a| == |b| && G <= |a|
    requires AbsDot(a[..G], b[..G]) <= na[0] * nb[0]
    requires AbsDot(a[G..], b[G..]) <= Dot(na[1..], nb[1..])
    ensures AbsDot(a, b) <= Dot(na, nb)
  {
    SplitAbsDot(a, b, G);
  }

  /** A norm of the group norms is a norm of the whole row. */
  lemma {:induction false} NormOfGroupNorms(a: Vec, ns: Vec, n: real, G: nat)
    requires G > 0 && |a| % G == 0 && GroupNorms(ns, Groups(a, G)) && IsNorm(n, ns)
    ensures IsNorm(n, a)
  {
    GroupSquares(a, ns, G);
  }

  lemma {:induction false} GroupSquares(a: Vec, ns: Vec, G: nat)
    requires G > 0 && |a| % G == 0 && GroupNorms(ns, Groups(a, G))
    ensures SumSq(a) <= SumSq(ns)
    decreases |a|
  {
    if a != [] {
      TailGroupNorms(a, ns, G);
      GroupSquares(a[G..], ns[1..], G);
      SplitSumSq(a, G);
    }
  }

  // ---------------------------------------------------------------------------------------------- tables and bounds

  /** Non-negative float64 values: 0 * inf is NaN. */
  datatype Ext = Fin(r: real) | Inf | NaN64
  {
    function Times(c: real): Ext
      requires c >= 0.0
    {
      match this
      case Fin(r) => Fin(c * r)
      case Inf => if c == 0.0 then NaN64 else Inf
      case NaN64 => NaN64
    }

    /** Multiplication by a positive factor. */
    function Map(f: real -> real): Ext { if Fin? then Fin(f(r)) else this }

    function Plus(other: Ext): Ext {
      if NaN64? || other.NaN64? then NaN64 else if Inf? || other.Inf? then Inf else Fin(r + other.r)
    }
  }

  // The inflation factors 1 + 2^-18, 1 + 2^-20, 1 + 2^-16 and 1 + 2^-40.
  function InflQ(r: real): real { r + r / 262144.0 }

  function InflB(r: real): real { r + r / 1048576.0 }

  function InflX(r: real): real { r + r / 65536.0 }

  function InflT(r: real): real { r + r / 1099511627776.0 }

  /** The assumed accumulation error per unit of the sum of magnitudes. */
  function CAcc(K: nat): (c: real)
    ensures c >= 0.0
  {
    K as real / 16.0 * 17.0 / 8388608.0
  }

  /** A computed square root of a computed sum of squares: it may be short by a relative 2^-40, and the stored norms
  are right because they are inflated by as much. */
  ghost predicate IsRoot(root: real -> real)
  {
    forall s: real :: s >= 0.0 ==> root(s) >= 0.0 && InflT(root(s)) * InflT(root(s)) >= s
  }

  /** The screening copy of a row is not exactly what the kernel builds. */
  predicate UnsafeRow(D: Vec)
  {
    exists k :: 0 <= k < |D| && (!Finite(Bf16(Round32(D[k]))) || Value(Bf16(Round32(D[k]))) != D[k])
  }

  function RoundUpExt(x: real): Ext
  {
    var f := Round32(x);
    var r := if Below(f, x) then NextAfter(f, 1) else f;
    if !Finite(r) then Inf else Fin(Value(r))
  }

  /** build_tables, one row: residual norms per group and the row norm, rounded up; +inf for an unsafe row. */
  datatype RowTable = RowTable(rt: seq<Ext>, nv: Ext, unsafe: bool)

  function StoredNorm(a: Vec, root: real -> real): Ext { RoundUpExt(InflT(root(SumSq(a)))) }

  function BuildRow(W: Vec, D: Vec, G: nat, root: real -> real): RowTable
    requires G > 0 && |W| == |D| && |W| % G == 0
  {
    var gs := Groups(Minus(W, D), G);
    var rt := seq(|gs|, g requires 0 <= g < |gs| => if UnsafeRow(D) then Inf else StoredNorm(gs[g], root));
    var w, d := root(SumSq(W)), root(SumSq(D));
    RowTable(rt, RoundUpExt(InflT(if w >= d then w else d)), UnsafeRow(D))
  }

  /** x_norms: a norm of each group of the input row, and of the whole row. */
  function GroupRoots(x: Vec, G: nat, root: real -> real): (xg: Vec)
    requires G > 0 && |x| % G == 0
  {
    var gs := Groups(x, G);
    seq(|gs|, g requires 0 <= g < |gs| => InflX(root(SumSq(gs[g]))))
  }

  function XNorm(xg: Vec, root: real -> real): real { InflX(root(SumSq(xg))) }

  function ExtDot(xg: Vec, rt: seq<Ext>): Ext
    requires |xg| == |rt| && forall g :: 0 <= g < |xg| ==> xg[g] >= 0.0
  {
    if xg == [] then Fin(0.0) else rt[0].Times(xg[0]).Plus(ExtDot(xg[1..], rt[1..]))
  }

  /** bounds, one (row, token), with c = C_ACC: NaN becomes +inf, so an unsafe row stays conservative. */
  function Bound(xg: Vec, xn: real, t: RowTable, c: real): Ext
    requires |xg| == |t.rt| && xn >= 0.0 && c >= 0.0 && forall g :: 0 <= g < |xg| ==> xg[g] >= 0.0
  {
    var q := ExtDot(xg, t.rt);
    var b := q.Map(r => InflQ(r)).Plus(t.nv.Times(2.0 * c * xn)).Map(r => InflB(r));
    if b.NaN64? then Inf else b
  }

  lemma {:induction false} RoundUpExtCovers(x: real)
    ensures RoundUpExt(x).Fin? ==> RoundUpExt(x).r >= x
    ensures !RoundUpExt(x).NaN64?
  {
    CastOrBump(x);
  }

  lemma {:induction false} WiderNorm(n: real, m: real, a: Vec)
    requires IsNorm(n, a) && m >= n
    ensures IsNorm(m, a)
  {
    assert m * m >= n * n;
  }

  lemma {:induction false} RootIsNorm(root: real -> real, a: Vec, wider: real)
    requires IsRoot(root) && wider >= InflT(root(SumSq(a)))
    ensures IsNorm(wider, a)
  {
    assert IsNorm(InflT(root(SumSq(a))), a);
    WiderNorm(InflT(root(SumSq(a))), wider, a);
  }

  /** The input norms are norms of the groups and of the whole row. */
  lemma {:induction false} InputNorms(x: Vec, G: nat, root: real -> real)
    requires IsRoot(root) && G > 0 && |x| % G == 0
    ensures var xg := GroupRoots(x, G, root); GroupNorms(xg, Groups(x, G)) && IsNorm(XNorm(xg, root), x)
  {
    var xg, gs := GroupRoots(x, G, root), Groups(x, G);
    forall g | 0 <= g < |xg|
      ensures IsNorm(xg[g], gs[g])
    {
      RootIsNorm(root, gs[g], xg[g]);
    }
    RootIsNorm(root, xg, XNorm(xg, root));
    NormOfGroupNorms(x, xg, XNorm(xg, root), G);
  }

  function Reals(rt: seq<Ext>): (v: Vec)
    ensures |v| == |rt|
  {
    seq(|rt|, g requires 0 <= g < |rt| => if rt[g].Fin? then rt[g].r else 0.0)
  }

  lemma {:induction false} ExtDotFinite(xg: Vec, rt: seq<Ext>)
    requires |xg| == |rt| && forall g :: 0 <= g < |xg| ==> xg[g] >= 0.0
    ensures ExtDot(xg, rt).Fin? ==> (forall g :: 0 <= g < |rt| ==> rt[g].Fin?) && ExtDot(xg, rt).r == Dot(xg, Reals(rt))
  {
    if xg != [] {
      ExtDotFinite(xg[1..], rt[1..]);
      assert Reals(rt)[1..] == Reals(rt[1..]);
    }
  }

  /** The stored residual norms of a safe row are norms of its residual groups, and the row norm covers both
  matrices. */
  lemma {:induction false} RowTableNorms(W: Vec, D: Vec, G: nat, root: real -> real)
    requires IsRoot(root) && G > 0 && |W| == |D| && |W| % G == 0
    requires var t := BuildRow(W, D, G, root); t.nv.Fin? && forall g :: 0 <= g < |t.rt| ==> t.rt[g].Fin?
    ensures var t := BuildRow(W, D, G, root);
            GroupNorms(Reals(t.rt), Groups(Minus(W, D), G)) && IsNorm(t.nv.r, W) && IsNorm(t.nv.r, D)
  {
    var t := BuildRow(W, D, G, root);
    ResidualNorms(Groups(Minus(W, D), G), t.rt, root);
    RowNormCovers(W, D, t.nv.r, root);
  }

  lemma {:induction false} ResidualNorms(gs: seq<Vec>, rt: seq<Ext>, root: real -> real)
    requires IsRoot(root) && |gs| == |rt|
    requires forall g :: 0 <= g < |rt| ==> rt[g].Fin? && rt[g] == StoredNorm(gs[g], root)
    ensures GroupNorms(Reals(rt), gs)
  {
    forall g | 0 <= g < |rt|
      ensures IsNorm(Reals(rt)[g], gs[g])
    {
      StoredNormCovers(gs[g], rt[g], root);
    }
  }

  lemma {:induction false} StoredNormCovers(a: Vec, e: Ext, root: real -> real)
    requires IsRoot(root) && e.Fin? && e == StoredNorm(a, root)
    ensures IsNorm(e.r, a)
  {
    RoundUpExtCovers(InflT(root(SumSq(a))));
    RootIsNorm(root, a, e.r);
  }

  lemma {:induction false} RowNormCovers(W: Vec, D: Vec, nv: real, root: real -> real)
    requires IsRoot(root)
    requires var w, d := root(SumSq(W)), root(SumSq(D)); RoundUpExt(InflT(if w >= d then w else d)) == Fin(nv)
    ensures IsNorm(nv, W) && IsNorm(nv, D)
  {
    var w, d := root(SumSq(W)), root(SumSq(D));
    var top := if w >= d then w else d;
    RoundUpExtCovers(InflT(top));
    RootIsNorm(root, W, nv);
    RootIsNorm(root, D, nv);
  }

  lemma {:induction false} SameGroups(a: Vec, b: Vec, G: nat)
    requires G > 0 && |a| == |b| && |a| % G == 0
    ensures |Groups(a, G)| == |Groups(b, G)|
    decreases |a|
  {
    if a != [] {
      RestOfGroups(|a|, G);
      SameGroups(a[G..], b[G..], G);
    }
  }

  /** The bound of one (row, token), from the input row and the weights. */
  function RowBound(x: Vec, W: Vec, D: Vec, G: nat, root: real -> real): (b: Ext)
    requires IsRoot(root) && G > 0 && |W| == |D| == |x| && |x| % G == 0
    ensures !b.NaN64?
  {
    var xg := GroupRoots(x, G, root);
    InputNorms(x, G, root);
    assert |Groups(x, G)| == |Groups(Minus(W, D), G)| by { SameGroups(x, Minus(W, D), G); }
    Bound(xg, XNorm(xg, root), BuildRow(W, D, G, root), CAcc(|x|))
  }

  /** What the two accumulations may be off by: the stated premises, not derived here. */
  ghost predicate Accumulates(c: real, y: real, a: Vec, x: Vec)
    requires |a| == |x|
  {
    RealAbs(y - Dot(a, x)) <= c * AbsDot(a, x)
  }

  /** |acc_v - s^_v| <= B_v for every row whose bound is finite. */
  lemma {:induction false} BoundCovers(x: Vec, W: Vec, D: Vec, G: nat, root: real -> real, s: real, acc: real)
    requires IsRoot(root) && G > 0 && |W| == |D| == |x| && |x| % G == 0
    requires Accumulates(CAcc(|x|), acc, W, x) && Accumulates(CAcc(|x|), s, D, x)
    requires RowBound(x, W, D, G, root).Fin?
    ensures RealAbs(acc - s) <= RowBound(x, W, D, G, root).r
  {
    BoundOfTables(x, W, D, G, root);
    TableProducts(x, W, D, G, root);
    var xg, t := GroupRoots(x, G, root), BuildRow(W, D, G, root);
    InflatedBound(CAcc(|x|), x, W, D, Dot(xg, Reals(t.rt)), XNorm(xg, root), t.nv.r, s, acc);
  }

  lemma {:induction false} TableProducts(x: Vec, W: Vec, D: Vec, G: nat, root: real -> real)
    requires IsRoot(root) && |W| == |D| == |x| && G > 0 && |x| % G == 0
    requires var t := BuildRow(W, D, G, root); t.nv.Fin? && forall g :: 0 <= g < |t.rt| ==> t.rt[g].Fin?
    ensures var xg, t := GroupRoots(x, G, root), BuildRow(W, D, G, root);
            |xg| == |t.rt| && TightProducts(x, W, D, Dot(xg, Reals(t.rt)), XNorm(xg, root), t.nv.r)
  {
    RowNorms(x, W, D, G, root);
    var xg, t := GroupRoots(x, G, root), BuildRow(W, D, G, root);
    NormsGiveProducts(x, W, D, G, xg, XNorm(xg, root), Reals(t.rt), t.nv.r);
  }

  lemma {:induction false} InflatedBound(c: real, x: Vec, W: Vec, D: Vec, q: real, xn: real, nv: real, s: real,
      acc: real)
    requires |W| == |D| == |x|
    requires c >= 0.0 && Accumulates(c, acc, W, x) && Accumulates(c, s, D, x)
    requires TightProducts(x, W, D, q, xn, nv)
    ensures RealAbs(acc - s) <= Inflated(q, c, xn, nv)
  {
    ExactBound(c, x, W, D, q, nv * xn, s, acc);
    AssembleBound(RealAbs(acc - s), q, c, xn, nv);
  }

  lemma {:induction false} BoundOfTables(x: Vec, W: Vec, D: Vec, G: nat, root: real -> real)
    requires IsRoot(root) && G > 0 && |W| == |D| == |x| && |x| % G == 0
    requires RowBound(x, W, D, G, root).Fin?
    ensures var xg, t := GroupRoots(x, G, root), BuildRow(W, D, G, root);
            && t.nv.Fin? && (forall g :: 0 <= g < |t.rt| ==> t.rt[g].Fin?) && |xg| == |t.rt|
            && RowBound(x, W, D, G, root).r ==
               Inflated(Dot(xg, Reals(t.rt)), CAcc(|x|), XNorm(xg, root), t.nv.r)
  {
    var xg, t := GroupRoots(x, G, root), BuildRow(W, D, G, root);
    SameGroups(x, Minus(W, D), G);
    InputNorms(x, G, root);
    FiniteBound(xg, XNorm(xg, root), t, CAcc(|x|));
  }

  /** Norms of the input row, of the residual groups and of both weight rows. */
  ghost predicate NormsOf(x: Vec, W: Vec, D: Vec, G: nat, xg: Vec, xn: real, rg: Vec, nv: real)
    requires |W| == |D| == |x| && G > 0 && |x| % G == 0
  {
    && |xg| == |rg|
    && GroupNorms(xg, Groups(x, G)) && IsNorm(xn, x)
    && GroupNorms(rg, Groups(Minus(W, D), G)) && IsNorm(nv, W) && IsNorm(nv, D)
  }

  lemma {:induction false} RowNorms(x: Vec, W: Vec, D: Vec, G: nat, root: real -> real)
    requires IsRoot(root) && |W| == |D| == |x| && G > 0 && |x| % G == 0
    requires var t := BuildRow(W, D, G, root); t.nv.Fin? && forall g :: 0 <= g < |t.rt| ==> t.rt[g].Fin?
    ensures var xg, t := GroupRoots(x, G, root), BuildRow(W, D, G, root);
            NormsOf(x, W, D, G, xg, XNorm(xg, root), Reals(t.rt), t.nv.r)
  {
    SameGroups(x, Minus(W, D), G);
    InputNorms(x, G, root);
    RowTableNorms(W, D, G, root);
  }

  /** What the norms say about the three sums of products that enter the error. */
  ghost predicate ProductsWithin(x: Vec, W: Vec, D: Vec, q: real, n: real)
    requires |W| == |D| == |x|
  {
    RealAbs(Dot(W, x) - Dot(D, x)) <= q && AbsDot(W, x) <= n && AbsDot(D, x) <= n
  }

  ghost predicate TightProducts(x: Vec, W: Vec, D: Vec, q: real, xn: real, nv: real)
    requires |W| == |D| == |x|
  {
    q >= 0.0 && xn >= 0.0 && nv >= 0.0 && ProductsWithin(x, W, D, q, nv * xn)
  }

  lemma {:induction false} NormsGiveProducts(x: Vec, W: Vec, D: Vec, G: nat, xg: Vec, xn: real, rg: Vec, nv: real)
    requires |W| == |D| == |x| && G > 0 && |x| % G == 0
    requires NormsOf(x, W, D, G, xg, xn, rg, nv)
    ensures TightProducts(x, W, D, Dot(xg, rg), xn, nv)
  {
    ResidualBound(x, W, D, G, xg, rg);
    CauchySchwarz(W, x, nv, xn);
    CauchySchwarz(D, x, nv, xn);
  }

  function Inflated(q: real, c: real, xn: real, nv: real): real { InflB(InflQ(q) + (2.0 * c * xn) * nv) }

  /** The bound may be evaluated with rounding: a computed sum of products q that falls short by no more than 2^-18 of
  itself, and a computed total b by no more than 2^-20, still give a bound on the error. */
  lemma {:induction false} InflationCoversRounding(c: real, x: Vec, W: Vec, D: Vec, q: real, exact: real, xn: real,
                                                   nv: real, s: real, acc: real, b: real)
    requires |W| == |D| == |x|
    requires c >= 0.0 && Accumulates(c, acc, W, x) && Accumulates(c, s, D, x)
    requires TightProducts(x, W, D, exact, xn, nv)
    requires InflQ(q) >= exact && InflB(b) >= InflQ(q) + (2.0 * c * xn) * nv
    ensures RealAbs(acc - s) <= InflB(b)
  {
    ExactBound(c, x, W, D, exact, nv * xn, s, acc);
    assert (2.0 * c * xn) * nv == c * (nv * xn) + c * (nv * xn);
  }

  lemma {:induction false} FiniteBound(xg: Vec, xn: real, t: RowTable, c: real)
    requires |xg| == |t.rt| && xn >= 0.0 && c >= 0.0 && forall g :: 0 <= g < |xg| ==> xg[g] >= 0.0
    requires Bound(xg, xn, t, c).Fin?
    ensures t.nv.Fin? && forall g :: 0 <= g < |t.rt| ==> t.rt[g].Fin?
    ensures Bound(xg, xn, t, c).r == Inflated(Dot(xg, Reals(t.rt)), c, xn, t.nv.r)
  {
    ExtDotFinite(xg, t.rt);
  }

  /** Residual, screen accumulation and stock accumulation together. */
  lemma {:induction false} ExactBound(c: real, x: Vec, W: Vec, D: Vec, q: real, n: real, s: real, acc: real)
    requires |W| == |D| == |x|
    requires c >= 0.0 && Accumulates(c, acc, W, x) && Accumulates(c, s, D, x)
    requires ProductsWithin(x, W, D, q, n)
    ensures RealAbs(acc - s) <= q + c * n + c * n
  {
    AccumulationBound(c, W, x, n, acc);
    AccumulationBound(c, D, x, n, s);
    ThreeTerms(acc, s, Dot(W, x), Dot(D, x));
  }

  lemma {:induction false} ResidualBound(x: Vec, W: Vec, D: Vec, G: nat, xg: Vec, rg: Vec)
    requires |W| == |D| == |x| && |xg| == |rg| && G > 0
    requires |x| % G == 0 && GroupNorms(xg, Groups(x, G)) && GroupNorms(rg, Groups(Minus(W, D), G))
    ensures RealAbs(Dot(W, x) - Dot(D, x)) <= Dot(xg, rg) && Dot(xg, rg) >= 0.0
  {
    GroupedCauchySchwarz(x, Minus(W, D), xg, rg, G);
    AbsDotSymmetric(x, Minus(W, D));
    DotWithinAbsDot(Minus(W, D), x);
    DotMinus(W, D, x);
  }

  lemma {:induction false} AccumulationBound(c: real, a: Vec, x: Vec, n: real, y: real)
    requires c >= 0.0 && |a| == |x| && Accumulates(c, y, a, x) && AbsDot(a, x) <= n
    ensures RealAbs(y - Dot(a, x)) <= c * n
  {
    ChainScale(RealAbs(y - Dot(a, x)), c, AbsDot(a, x), n);
  }

  lemma {:induction false} ChainScale(e: real, c: real, d: real, n: real)
    requires c >= 0.0 && e <= c * d && d <= n
    ensures e <= c * n
  {
    ScaleBound(c, d, n);
  }

  lemma {:induction false} ThreeTerms(acc: real, s: real, w: real, d: real)
    ensures RealAbs(acc - s) <= RealAbs(acc - w) + RealAbs(w - d) + RealAbs(s - d)
  {
  }

  lemma {:induction false} AbsDotSymmetric(a: Vec, b: Vec)
    requires |a| == |b|
    ensures AbsDot(a, b) == AbsDot(b, a)
  {
    if a != [] {
      AbsDotSymmetric(a[1..], b[1..]);
      assert a[0] * b[0] == b[0] * a[0];
    }
  }

  /** The inflation factors only widen the bound. */
  lemma {:induction false} AssembleBound(e: real, q: real, c: real, xn: real, nv: real)
    requires q >= 0.0 && c >= 0.0 && xn >= 0.0 && nv >= 0.0
    requires e <= q + c * (nv * xn) + c * (nv * xn)
    ensures e <= Inflated(q, c, xn, nv)
  {
    var p := nv * xn;
    assert (2.0 * c * xn) * nv == 2.0 * (c * p);
    assert c * p >= 0.0;
  }
}
