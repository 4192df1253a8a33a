/** The Hadamard rotation of overlay/glm5next_kpool_compress.py: butterfly stages with doubling strides, against the
matrix built by doubling.  Generalised from 128 to any power of two; the scale factor is a parameter. */
module Hadamard {
  import opened Vectors

  function TwoTo(k: nat): (n: nat)
    ensures n >= 1
  {
    if k == 0 then 1 else 2 * TwoTo(k - 1)
  }

  /** n is a whole number of tiles of width w. */
  predicate Tiled(n: nat, w: nat)
    requires w > 0
  {
    n == 0 || (n >= w && Tiled(n - w, w))
  }

  /** The pairs of one group: the sums, then the differences. */
  function Combine(p: Vec, q: Vec): (r: Vec)
    requires |p| == |q|
    ensures |r| == 2 * |p|
  {
    Plus(p, q) + Minus(p, q)
  }

  /** _fwht_stage: reshape to (groups, 2, stride) and replace each pair (a, b) by (a + b, a - b). */
  function Stage(x: Vec, stride: nat): (r: Vec)
    requires stride > 0 && Tiled(|x|, 2 * stride)
    ensures |r| == |x|
  {
    if x == [] then []
    else Combine(x[..stride], x[stride..2 * stride]) + Stage(x[2 * stride..], stride)
  }

  lemma {:induction false} TiledHalf(n: nat, w: nat)
    requires w > 0 && Tiled(n, 2 * w)
    ensures Tiled(n, w)
    decreases n
  {
    if n != 0 { TiledHalf(n - 2 * w, w); }
  }

  lemma {:induction false} TiledSum(n: nat, m: nat, w: nat)
    requires w > 0 && Tiled(n, w) && Tiled(m, w)
    ensures Tiled(n + m, w)
    decreases n
  {
    if n != 0 { TiledSum(n - w, m, w); }
  }

  /** The stages with strides 1, 2, ..., 2^(k-1), in that order. */
  function Fwht(x: Vec, k: nat): (r: Vec)
    requires Tiled(|x|, TwoTo(k))
    ensures |r| == |x|
  {
    if k == 0 then x
    else
      TiledHalf(|x|, TwoTo(k - 1));
      Stage(Fwht(x, k - 1), TwoTo(k - 1))
  }

  // ------------------------------------------------------------------------------------------ no pair crosses a tile

  lemma FirstGroup(x: Vec, y: Vec, stride: nat)
    requires 2 * stride <= |x|
    ensures (x + y)[..stride] == x[..stride] && (x + y)[stride..2 * stride] == x[stride..2 * stride]
    ensures (x + y)[2 * stride..] == x[2 * stride..] + y
  {
  }

  lemma {:induction false} StageAppend(x: Vec, y: Vec, stride: nat)
    requires stride > 0 && Tiled(|x|, 2 * stride) && Tiled(|y|, 2 * stride)
    ensures Tiled(|x + y|, 2 * stride) && Stage(x + y, stride) == Stage(x, stride) + Stage(y, stride)
    decreases |x|
  {
    TiledSum(|x|, |y|, 2 * stride);
    if x == [] {
      assert x + y == y;
    } else {
      hide Combine;
      StageAppend(x[2 * stride..], y, stride);
      FirstGroup(x, y, stride);
      Associate(Combine(x[..stride], x[stride..2 * stride]), Stage(x[2 * stride..], stride), Stage(y, stride));
    }
  }

  lemma Associate(a: Vec, b: Vec, c: Vec)
    ensures a + (b + c) == a + b + c
  {
  }

  lemma {:induction false} FwhtAppend(x: Vec, y: Vec, k: nat)
    requires Tiled(|x|, TwoTo(k)) && Tiled(|y|, TwoTo(k))
    ensures Tiled(|x + y|, TwoTo(k)) && Fwht(x + y, k) == Fwht(x, k) + Fwht(y, k)
  {
    TiledSum(|x|, |y|, TwoTo(k));
    if k > 0 {
      TiledHalf(|x|, TwoTo(k - 1));
      TiledHalf(|y|, TwoTo(k - 1));
      FwhtAppend(x, y, k - 1);
      StageAppend(Fwht(x, k - 1), Fwht(y, k - 1), TwoTo(k - 1));
    }
  }

  function Flatten(rows: seq<Vec>): (x: Vec)
  {
    if rows == [] then [] else rows[0] + Flatten(rows[1..])
  }

  predicate AreRows(rows: seq<Vec>, k: nat) { forall i :: 0 <= i < |rows| ==> |rows[i]| == TwoTo(k) }

  function FwhtRows(rows: seq<Vec>, k: nat): (r: seq<Vec>)
    requires AreRows(rows, k)
    ensures |r| == |rows|
  {
    seq(|rows|, i requires 0 <= i < |rows| => Fwht(rows[i], k))
  }

  /** Running the stages over the flattened rows is running them row by row. */
  lemma {:induction false} FlattenedIsRowByRow(rows: seq<Vec>, k: nat)
    requires AreRows(rows, k)
    ensures Tiled(|Flatten(rows)|, TwoTo(k)) && Fwht(Flatten(rows), k) == Flatten(FwhtRows(rows, k))
    decreases |rows|
  {
    if rows == [] {
      EmptyFwht(k);
    } else {
      FlattenedIsRowByRow(rows[1..], k);
      FwhtAppend(rows[0], Flatten(rows[1..]), k);
      assert FwhtRows(rows, k)[1..] == FwhtRows(rows[1..], k);
    }
  }

  lemma {:induction false} EmptyFwht(k: nat)
    ensures Fwht([], k) == []
  {
  }

  // ---------------------------------------------------------------------------------------------- one row

  function Left(x: Vec, k: nat): (a: Vec)
    requires k > 0 && |x| == TwoTo(k)
    ensures |a| == TwoTo(k - 1)
  {
    x[..TwoTo(k - 1)]
  }

  function Right(x: Vec, k: nat): (b: Vec)
    requires k > 0 && |x| == TwoTo(k)
    ensures |b| == TwoTo(k - 1) && Left(x, k) + b == x
  {
    x[TwoTo(k - 1)..]
  }

  /** The transform of one row, by halves. */
  function Transform(x: Vec, k: nat): (r: Vec)
    requires |x| == TwoTo(k)
    ensures |r| == |x|
    decreases k
  {
    if k == 0 then x else Combine(Transform(Left(x, k), k - 1), Transform(Right(x, k), k - 1))
  }

  /** The stages with doubling strides transform a row by halves. */
  lemma {:induction false} FwhtIsTransform(x: Vec, k: nat)
    requires |x| == TwoTo(k)
    ensures Tiled(|x|, TwoTo(k)) && Fwht(x, k) == Transform(x, k)
    decreases k
  {
    if k > 0 {
      var a, b := Left(x, k), Right(x, k);
      FwhtIsTransform(a, k - 1);
      FwhtIsTransform(b, k - 1);
      FwhtAppend(a, b, k - 1);
      OneStage(Transform(a, k - 1), Transform(b, k - 1), TwoTo(k - 1));
    }
  }

  lemma OneStage(p: Vec, q: Vec, stride: nat)
    requires stride > 0 && |p| == |q| == stride
    ensures Tiled(|p + q|, 2 * stride) && Stage(p + q, stride) == Combine(p, q)
  {
    var y := p + q;
    assert y[..stride] == p && y[stride..2 * stride] == q && y[2 * stride..] == [];
  }

  lemma Halves(a: Vec, b: Vec, k: nat)
    requires k > 0 && |a| == |b| == TwoTo(k - 1)
    ensures |a + b| == TwoTo(k) && Left(a + b, k) == a && Right(a + b, k) == b
  {
  }

  // ---------------------------------------------------------------------------------------------- the matrix

  function Zeros(n: nat): (z: Vec)
    ensures |z| == n
  {
    seq(n, _ => 0.0)
  }

  predicate IsMatrix(h: seq<Vec>, n: nat) { forall i :: 0 <= i < |h| ==> |h[i]| == n }

  /** torch.cat([g, h], dim=1). */
  function Beside(g: seq<Vec>, h: seq<Vec>): (r: seq<Vec>)
    requires |g| == |h|
    ensures |r| == |g|
  {
    seq(|g|, i requires 0 <= i < |g| => g[i] + h[i])
  }

  function Negated(h: seq<Vec>): (r: seq<Vec>)
    ensures |r| == |h|
  {
    seq(|h|, i requires 0 <= i < |h| => Neg(h[i]))
  }

  /** The matrix of the reference, built by doubling [[h, h], [h, -h]]. */
  function Sylvester(k: nat): (h: seq<Vec>)
    ensures |h| == TwoTo(k) && IsMatrix(h, TwoTo(k))
  {
    if k == 0 then [[1.0]]
    else
      var h := Sylvester(k - 1);
      Beside(h, h) + Beside(h, Negated(h))
  }

  /** x @ h: the combination of the rows of h with the entries of x. */
  function Product(x: Vec, h: seq<Vec>, n: nat): (r: Vec)
    requires |x| == |h| && IsMatrix(h, n)
    ensures |r| == n
    decreases |x|
  {
    if x == [] then Zeros(n) else Plus(Times(x[0], h[0]), Product(x[1..], h[1..], n))
  }

  lemma {:induction false} ProductAppend(x: Vec, y: Vec, g: seq<Vec>, h: seq<Vec>, n: nat)
    requires |x| == |g| && |y| == |h| && IsMatrix(g, n) && IsMatrix(h, n)
    ensures IsMatrix(g + h, n) && Product(x + y, g + h, n) == Plus(Product(x, g, n), Product(y, h, n))
    decreases |x|
  {
    if x == [] {
      assert x + y == y && g + h == h;
    } else {
      ProductAppend(x[1..], y, g[1..], h, n);
      assert (x + y)[1..] == x[1..] + y && (g + h)[1..] == g[1..] + h;
    }
  }

  lemma {:induction false} ProductBeside(x: Vec, g: seq<Vec>, h: seq<Vec>, n: nat)
    requires |x| == |g| == |h| && IsMatrix(g, n) && IsMatrix(h, n)
    ensures IsMatrix(Beside(g, h), 2 * n) && Product(x, Beside(g, h), 2 * n) == Product(x, g, n) + Product(x, h, n)
    decreases |x|
  {
    if x == [] {
      assert Zeros(2 * n) == Zeros(n) + Zeros(n);
    } else {
      ProductBeside(x[1..], g[1..], h[1..], n);
      assert Beside(g, h)[1..] == Beside(g[1..], h[1..]);
      TimesAppend(x[0], g[0], h[0]);
      PlusAppend(Times(x[0], g[0]), Product(x[1..], g[1..], n), Times(x[0], h[0]), Product(x[1..], h[1..], n));
    }
  }

  lemma TimesCons(c: real, y: real, a: Vec)
    ensures Times(c, [y] + a) == [Mul(c, y)] + Times(c, a)
  {
    var x := [y] + a;
    assert x[0] == y && x[1..] == a;
  }

  lemma {:induction false} TimesAppend(c: real, a: Vec, b: Vec)
    ensures Times(c, a + b) == Times(c, a) + Times(c, b)
    decreases |a|
  {
    if a == [] {
      assert a + b == b;
    } else {
      TimesAppend(c, a[1..], b);
      assert a + b == [a[0]] + (a[1..] + b);
      TimesCons(c, a[0], a[1..] + b);
    }
  }

  lemma PlusAppend(a: Vec, b: Vec, c: Vec, d: Vec)
    requires |a| == |b| && |c| == |d|
    ensures Plus(a + c, b + d) == Plus(a, b) + Plus(c, d)
  {
  }

  lemma {:induction false} TimesNeg(c: real, a: Vec)
    ensures Times(c, Neg(a)) == Neg(Times(c, a))
    decreases |a|
  {
    if a == [] {
      assert Neg(a) == [];
    } else {
      TimesNeg(c, a[1..]);
      assert Neg(a) == [-a[0]] + Neg(a[1..]);
      TimesCons(c, -a[0], Neg(a[1..]));
      NegProduct(c, a[0]);
      NegCons(Mul(c, a[0]), Times(c, a[1..]));
    }
  }

  lemma NegProduct(c: real, x: real)
    ensures Mul(c, -x) == -Mul(c, x)
  {
  }

  lemma NegCons(x: real, rest: Vec)
    ensures Neg([x] + rest) == [-x] + Neg(rest)
  {
  }

  lemma {:induction false} ProductNegated(x: Vec, h: seq<Vec>, n: nat)
    requires |x| == |h| && IsMatrix(h, n)
    ensures Product(x, Negated(h), n) == Neg(Product(x, h, n))
    decreases |x|
  {
    if x == [] {
      assert Neg(Zeros(n)) == Zeros(n);
    } else {
      ProductNegated(x[1..], h[1..], n);
      assert Negated(h)[1..] == Negated(h[1..]);
      TimesNeg(x[0], h[0]);
    }
  }

  /** The transform of a row is its product with the Hadamard matrix. */
  lemma {:induction false} TransformIsProduct(x: Vec, k: nat)
    requires |x| == TwoTo(k)
    ensures Transform(x, k) == Product(x, Sylvester(k), TwoTo(k))
    decreases k
  {
    if k == 0 {
      UnitProduct(x);
    } else {
      var a, b, h, n := Left(x, k), Right(x, k), Sylvester(k - 1), TwoTo(k - 1);
      TransformIsProduct(a, k - 1);
      TransformIsProduct(b, k - 1);
      BlockProduct(a, b, h, n);
    }
  }

  lemma UnitProduct(x: Vec)
    requires |x| == 1
    ensures Product(x, [[1.0]], 1) == x
  {
    var h: seq<Vec> := [[1.0]];
    assert x[1..] == [] && h[1..] == [];
    assert [1.0][1..] == [];
    assert Times(x[0], h[0]) == [Mul(x[0], 1.0)] + [];
  }

  lemma {:induction false} BlockProduct(a: Vec, b: Vec, h: seq<Vec>, n: nat)
    requires |a| == |b| == |h| && IsMatrix(h, n)
    ensures IsMatrix(Beside(h, h) + Beside(h, Negated(h)), 2 * n)
    ensures Product(a + b, Beside(h, h) + Beside(h, Negated(h)), 2 * n) == Combine(Product(a, h, n), Product(b, h, n))
  {
    var p, q := Product(a, h, n), Product(b, h, n);
    ProductBeside(a, h, h, n);
    ProductNegated(b, h, n);
    ProductBeside(b, h, Negated(h), n);
    ProductAppend(a, b, Beside(h, h), Beside(h, Negated(h)), 2 * n);
    PlusAppend(p, q, p, Neg(q));
    assert Plus(p, Neg(q)) == Minus(p, q);
  }

  /** The butterfly stages compute the product with the Hadamard matrix. */
  lemma {:induction false} FwhtIsProduct(x: Vec, k: nat)
    requires |x| == TwoTo(k)
    ensures Tiled(|x|, TwoTo(k)) && Fwht(x, k) == Product(x, Sylvester(k), TwoTo(k))
  {
    FwhtIsTransform(x, k);
    TransformIsProduct(x, k);
  }

  // ---------------------------------------------------------------------------------------------- inverse and isometry

  lemma {:induction false} TransformLinear(x: Vec, y: Vec, k: nat)
    requires |x| == |y| == TwoTo(k)
    ensures Transform(Plus(x, y), k) == Plus(Transform(x, k), Transform(y, k))
    ensures Transform(Minus(x, y), k) == Minus(Transform(x, k), Transform(y, k))
    decreases k
  {
    hide Combine, Left, Right;
    if k > 0 {
      var a, b, c, d := Left(x, k), Right(x, k), Left(y, k), Right(y, k);
      TransformLinear(a, c, k - 1);
      TransformLinear(b, d, k - 1);
      HalvesLinear(x, y, k);
      CombineLinear(Transform(a, k - 1), Transform(b, k - 1), Transform(c, k - 1), Transform(d, k - 1));
    }
  }

  lemma HalvesLinear(x: Vec, y: Vec, k: nat)
    requires k > 0 && |x| == |y| == TwoTo(k)
    ensures Left(Plus(x, y), k) == Plus(Left(x, k), Left(y, k)) &&
            Right(Plus(x, y), k) == Plus(Right(x, k), Right(y, k))
    ensures Left(Minus(x, y), k) == Minus(Left(x, k), Left(y, k)) &&
            Right(Minus(x, y), k) == Minus(Right(x, k), Right(y, k))
  {
  }

  lemma CombineLinear(a: Vec, b: Vec, c: Vec, d: Vec)
    requires |a| == |b| == |c| == |d|
    ensures Combine(Plus(a, c), Plus(b, d)) == Plus(Combine(a, b), Combine(c, d))
    ensures Combine(Minus(a, c), Minus(b, d)) == Minus(Combine(a, b), Combine(c, d))
  {
  }

  /** 2^k times x. */
  function Doubled(x: Vec, k: nat): (d: Vec)
    ensures |d| == |x|
  {
    if k == 0 then x else Plus(Doubled(x, k - 1), Doubled(x, k - 1))
  }

  lemma {:induction false} DoubledAppend(a: Vec, b: Vec, k: nat)
    ensures Doubled(a + b, k) == Doubled(a, k) + Doubled(b, k)
  {
    if k > 0 { DoubledAppend(a, b, k - 1); }
  }

  lemma {:induction false} DoubledAt(x: Vec, k: nat, i: nat)
    requires i < |x|
    ensures Doubled(x, k)[i] == TwoTo(k) as real * x[i]
  {
    if k > 0 {
      DoubledAt(x, k - 1, i);
      assert (2 * TwoTo(k - 1)) as real * x[i] == 2.0 * (TwoTo(k - 1) as real * x[i]);
    }
  }

  lemma {:induction false} TransformTwice(x: Vec, k: nat)
    requires |x| == TwoTo(k)
    ensures Transform(Transform(x, k), k) == Doubled(x, k)
    decreases k
  {
    if k > 0 {
      var a, b := Left(x, k), Right(x, k);
      TransformTwice(a, k - 1);
      TransformTwice(b, k - 1);
      TwiceStep(a, b, Transform(a, k - 1), Transform(b, k - 1), k);
    }
  }

  lemma {:induction false} TwiceStep(a: Vec, b: Vec, p: Vec, q: Vec, k: nat)
    requires k > 0 && |a| == |b| == |p| == |q| == TwoTo(k - 1)
    requires Transform(p, k - 1) == Doubled(a, k - 1) && Transform(q, k - 1) == Doubled(b, k - 1)
    ensures Transform(Combine(p, q), k) == Doubled(a + b, k)
  {
    Halves(Plus(p, q), Minus(p, q), k);
    TransformLinear(p, q, k - 1);
    DoubledAppend(a, b, k - 1);
    CombineTwice(Doubled(a, k - 1), Doubled(b, k - 1));
  }

  lemma CombineTwice(a: Vec, b: Vec)
    requires |a| == |b|
    ensures Combine(Plus(a, b), Minus(a, b)) == Plus(a + b, a + b)
  {
  }

  /** H (H x) == n x. */
  lemma {:induction false} FwhtTwice(x: Vec, k: nat)
    requires |x| == TwoTo(k)
    ensures Tiled(|x|, TwoTo(k)) && Fwht(Fwht(x, k), k) == Doubled(x, k)
  {
    FwhtIsTransform(x, k);
    FwhtIsTransform(Transform(x, k), k);
    TransformTwice(x, k);
  }

  lemma DotCons(x: real, a: Vec, y: real, b: Vec)
    requires |a| == |b|
    ensures Dot([x] + a, [y] + b) == x * y + Dot(a, b)
  {
    var u, v := [x] + a, [y] + b;
    assert u[0] == x && v[0] == y && u[1..] == a && v[1..] == b;
  }

  lemma ConsAppend(a: Vec, c: Vec)
    requires a != []
    ensures a + c == [a[0]] + (a[1..] + c)
  {
  }

  lemma {:induction false} DotAppend(a: Vec, b: Vec, c: Vec, d: Vec)
    requires |a| == |b| && |c| == |d|
    ensures Dot(a + c, b + d) == Dot(a, b) + Dot(c, d)
    decreases |a|
  {
    if a == [] {
      assert a + c == c && b + d == d;
    } else {
      DotAppend(a[1..], b[1..], c, d);
      ConsAppend(a, c);
      ConsAppend(b, d);
      DotCons(a[0], a[1..] + c, b[0], b[1..] + d);
    }
  }

  lemma PlusMinusCons(a: Vec, b: Vec)
    requires |a| == |b| > 0
    ensures Plus(a, b) == [a[0] + b[0]] + Plus(a[1..], b[1..]) && Minus(a, b) == [a[0] - b[0]] + Minus(a[1..], b[1..])
  {
  }

  lemma {:induction false} DotButterfly(a: Vec, b: Vec, c: Vec, d: Vec)
    requires |a| == |b| == |c| == |d|
    ensures Dot(Plus(a, b), Plus(c, d)) + Dot(Minus(a, b), Minus(c, d)) == 2.0 * (Dot(a, c) + Dot(b, d))
    decreases |a|
  {
    if a != [] {
      DotButterfly(a[1..], b[1..], c[1..], d[1..]);
      PlusMinusCons(a, b);
      PlusMinusCons(c, d);
      DotCons(a[0] + b[0], Plus(a[1..], b[1..]), c[0] + d[0], Plus(c[1..], d[1..]));
      DotCons(a[0] - b[0], Minus(a[1..], b[1..]), c[0] - d[0], Minus(c[1..], d[1..]));
      PairTerm(a[0], b[0], c[0], d[0]);
    }
  }

  lemma PairTerm(a: real, b: real, c: real, d: real)
    ensures (a + b) * (c + d) + (a - b) * (c - d) == 2.0 * (a * c + b * d)
  {
  }

  lemma {:induction false} CombineDot(p: Vec, q: Vec, r: Vec, s: Vec)
    requires |p| == |q| == |r| == |s|
    ensures Dot(Combine(p, q), Combine(r, s)) == 2.0 * (Dot(p, r) + Dot(q, s))
  {
    DotAppend(Plus(p, q), Plus(r, s), Minus(p, q), Minus(r, s));
    DotButterfly(p, q, r, s);
  }

  /** 2^k times d. */
  function Grown(d: real, k: nat): (r: real)
  {
    if k == 0 then d else 2.0 * Grown(d, k - 1)
  }

  lemma {:induction false} GrownSum(d: real, e: real, k: nat)
    ensures Grown(d + e, k) == Grown(d, k) + Grown(e, k)
  {
    if k > 0 { GrownSum(d, e, k - 1); }
  }

  lemma {:induction false} GrownIsProduct(d: real, k: nat)
    ensures Grown(d, k) == TwoTo(k) as real * d
  {
    if k > 0 {
      GrownIsProduct(d, k - 1);
      assert (2 * TwoTo(k - 1)) as real * d == 2.0 * (TwoTo(k - 1) as real * d);
    }
  }

  lemma {:induction false} TransformIsometry(x: Vec, y: Vec, k: nat)
    requires |x| == |y| == TwoTo(k)
    ensures Dot(Transform(x, k), Transform(y, k)) == Grown(Dot(x, y), k)
    decreases k
  {
    hide Dot, Combine;
    if k > 0 {
      var a, b, c, d := Left(x, k), Right(x, k), Left(y, k), Right(y, k);
      TransformIsometry(a, c, k - 1);
      TransformIsometry(b, d, k - 1);
      IsometryStep(Transform(a, k - 1), Transform(b, k - 1), Transform(c, k - 1), Transform(d, k - 1), a, b, c, d, k);
    }
  }

  lemma {:induction false} IsometryStep(p: Vec, q: Vec, r: Vec, s: Vec, a: Vec, b: Vec, c: Vec, d: Vec, k: nat)
    requires k > 0 && |p| == |q| == |r| == |s| && |a| == |c| && |b| == |d|
    requires Dot(p, r) == Grown(Dot(a, c), k - 1) && Dot(q, s) == Grown(Dot(b, d), k - 1)
    ensures Dot(Combine(p, q), Combine(r, s)) == Grown(Dot(a + b, c + d), k)
  {
    CombineDot(p, q, r, s);
    DotAppend(a, c, b, d);
    GrownSum(Dot(a, c), Dot(b, d), k - 1);
  }

  /** Inner products are preserved up to the factor n. */
  lemma {:induction false} FwhtIsometry(x: Vec, y: Vec, k: nat)
    requires |x| == |y| == TwoTo(k)
    ensures Tiled(|x|, TwoTo(k)) && Dot(Fwht(x, k), Fwht(y, k)) == Grown(Dot(x, y), k)
  {
    FwhtIsTransform(x, k);
    FwhtIsTransform(y, k);
    TransformIsometry(x, y, k);
  }

  /** The rotation with its scale: x * c after the butterflies. */
  function Rotate(x: Vec, k: nat, c: real): (r: Vec)
    requires Tiled(|x|, TwoTo(k))
    ensures |r| == |x|
  {
    Times(c, Fwht(x, k))
  }

  lemma {:induction false} DotTimes(c: real, a: Vec, b: Vec)
    requires |a| == |b|
    ensures Dot(Times(c, a), Times(c, b)) == Mul(c * c, Dot(a, b))
    decreases |a|
  {
    if a == [] {
      assert Mul(c * c, 0.0) == 0.0;
    } else {
      DotTimes(c, a[1..], b[1..]);
      DotCons(Mul(c, a[0]), Times(c, a[1..]), Mul(c, b[0]), Times(c, b[1..]));
      ScaledTerm(c, a[0], b[0], Dot(a[1..], b[1..]));
      assert Dot(a, b) == a[0] * b[0] + Dot(a[1..], b[1..]);
    }
  }

  lemma ScaledTerm(c: real, a: real, b: real, rest: real)
    ensures Mul(c, a) * Mul(c, b) + Mul(c * c, rest) == Mul(c * c, a * b + rest)
  {
    assert (c * a) * (c * b) == (c * c) * (a * b);
  }

  /** With n * c * c == 1 (the shipped constant stands for 1 / sqrt(128), n == 128) queries and keys rotated alike
  keep their inner product. */
  lemma {:induction false} RotationKeepsScores(q: Vec, key: Vec, k: nat, c: real)
    requires |q| == |key| == TwoTo(k) && Grown(c * c, k) == 1.0
    ensures Tiled(|q|, TwoTo(k)) && Dot(Rotate(q, k, c), Rotate(key, k, c)) == Dot(q, key)
  {
    FwhtIsometry(q, key, k);
    DotTimes(c, Fwht(q, k), Fwht(key, k));
    Cancel(c * c, Dot(q, key), k);
  }

  lemma Cancel(u: real, d: real, k: nat)
    requires Grown(u, k) == 1.0
    ensures Mul(u, Grown(d, k)) == d
  {
    GrownIsProduct(u, k);
    GrownIsProduct(d, k);
    var n := TwoTo(k) as real;
    assert u * (n * d) == (n * u) * d;
  }
}
