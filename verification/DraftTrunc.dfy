/** Draft truncation (overlay/glm_draft_trunc.py): the policy that picks how many drafts to verify, and the in-place
truncation of the scheduler's output.  Reals stand for float64. */
module DraftTrunc {
  import opened DraftSchedule
  import opened Basics
  import opened Vectors

  const ALPHA := 0.05

  /** The value every option is compared with first. */
  const WORST := -1000000000000000000000000000000.0

  type Conf = seq<real>

  /** The fitted table: per depth and confidence bin the chance that the draft is accepted; the step costs. */
  datatype Table = Table(edges: seq<real>, g: seq<seq<real>>, t1: seq<real>, rowMs: real)
  {
    predicate Valid()
    {
      && (forall s :: 0 <= s < |g| ==> |g[s]| == |edges| + 1)
      && (forall s, b :: 0 <= s < |g| && 0 <= b <= |edges| ==> 0.0 <= g[s][b] <= 1.0)
      && |t1| == 9 && (forall m :: 2 <= m <= 8 ==> t1[m] > 0.0) && rowMs >= 0.0
    }

    /** Step ms for a step of tot rows. */
    function StepMs(tot: nat): (ms: real)
      requires Valid()
    {
      t1[if tot < 2 then 2 else if tot > 8 then 8 else tot] + Mul(if tot > 8 then (tot - 8) as real else 0.0, rowMs)
    }

    /** Step ms for n requests of q rows each. */
    function Cost(n: nat, q: nat): (ms: real)
      requires Valid()
    {
      StepMs(n * q)
    }

    predicate Covers(conf: Conf) { |conf| <= |g| }
  }

  lemma CostPositive(tab: Table, n: nat, q: nat)
    requires tab.Valid()
    ensures tab.Cost(n, q) > 0.0
  {
    var tot := n * q;
    NonNegativeProduct(if tot > 8 then (tot - 8) as real else 0.0, tab.rowMs);
  }

  /** The confidence bin: how many edges lie at or below it. */
  function Bin(edges: seq<real>, lq: real): (b: nat)
    ensures b <= |edges|
  {
    if edges == [] then 0 else Bin(edges[..|edges| - 1], lq) + (if lq >= edges[|edges| - 1] then 1 else 0)
  }

  /** The chance that draft s is accepted when the earlier ones are. */
  function Chance(tab: Table, conf: Conf, s: nat): (p: real)
    requires tab.Valid() && tab.Covers(conf) && s < |conf|
    ensures 0.0 <= p <= 1.0
  {
    var b := Bin(tab.edges, conf[s]);
    assert 0 <= b <= |tab.edges| && 0 <= s < |tab.g|;
    tab.g[s][b]
  }

  /** The chance that the first s drafts are all accepted. */
  function Cum(tab: Table, conf: Conf, s: nat): (p: real)
    requires tab.Valid() && tab.Covers(conf) && s <= |conf|
  {
    if s == 0 then 1.0 else Mul(Cum(tab, conf, s - 1), Chance(tab, conf, s - 1))
  }

  /** The expected number of tokens when s drafts are verified: one, and one per accepted draft. */
  function Expected(tab: Table, conf: Conf, s: nat): (e: real)
    requires tab.Valid() && tab.Covers(conf) && s <= |conf|
  {
    if s == 0 then 1.0 else Expected(tab, conf, s - 1) + Cum(tab, conf, s)
  }

  lemma UnitProduct(a: real, b: real)
    requires 0.0 <= a <= 1.0 && 0.0 <= b <= 1.0
    ensures 0.0 <= Mul(a, b) <= 1.0
  {
    NonNegativeProduct(a, b);
    NonNegativeProduct(1.0 - a, b);
    assert Mul(1.0 - a, b) == b - Mul(a, b);
  }

  lemma {:induction false} CumBounded(tab: Table, conf: Conf, s: nat)
    requires tab.Valid() && tab.Covers(conf) && s <= |conf|
    ensures 0.0 <= Cum(tab, conf, s) <= 1.0
  {
    if s > 0 {
      CumBounded(tab, conf, s - 1);
      UnitProduct(Cum(tab, conf, s - 1), Chance(tab, conf, s - 1));
    }
  }

  lemma {:induction false} ExpectedBounded(tab: Table, conf: Conf, s: nat)
    requires tab.Valid() && tab.Covers(conf) && s <= |conf|
    ensures 1.0 <= Expected(tab, conf, s) <= 1.0 + s as real
  {
    if s > 0 {
      ExpectedBounded(tab, conf, s - 1);
      CumBounded(tab, conf, s);
    }
  }

  // ---------------------------------------------------------------------------------------------- the choice

  ghost predicate AllCover(tab: Table, confs: seq<Conf>, kmax: nat)
  {
    forall i :: 0 <= i < |confs| ==> kmax <= |confs[i]| <= |tab.g|
  }

  function SumExpected(tab: Table, confs: seq<Conf>, s: nat): (e: real)
    requires tab.Valid() && AllCover(tab, confs, s)
    decreases |confs|
  {
    if confs == [] then 0.0 else SumExpected(tab, confs[..|confs| - 1], s) + Expected(tab, confs[|confs| - 1], s)
  }

  /** What verifying L drafts is worth at the price lam of a millisecond. */
  function Worth(tab: Table, lam: real, confs: seq<Conf>, L: nat): (v: real)
    requires tab.Valid() && AllCover(tab, confs, L)
  {
    SumExpected(tab, confs, L) - Mul(lam, tab.Cost(|confs|, L + 1))
  }

  /** The worths of the lengths 1..kmax. */
  function Worths(tab: Table, lam: real, confs: seq<Conf>, kmax: nat): (vals: seq<real>)
    requires tab.Valid() && AllCover(tab, confs, kmax)
    ensures |vals| == kmax
  {
    seq(kmax, k requires 0 <= k < kmax => CoverShorter(tab, confs, kmax, k + 1); Worth(tab, lam, confs, k + 1))
  }

  lemma CoverShorter(tab: Table, confs: seq<Conf>, kmax: nat, L: nat)
    requires AllCover(tab, confs, kmax) && L <= kmax
    ensures AllCover(tab, confs, L)
  {
  }

  /** The scan over the first n worths: the best so far and the first length that has it. */
  function Scan(vals: seq<real>, n: nat): (r: (real, nat))
    requires n <= |vals|
    ensures r.1 == |vals| || 1 <= r.1 <= n
  {
    if n == 0 then (WORST, |vals|)
    else
      var r := Scan(vals, n - 1);
      if vals[n - 1] > r.0 then (vals[n - 1], n) else r
  }

  function BestLength(vals: seq<real>): (L: nat)
    requires vals != []
    ensures 1 <= L <= |vals|
  {
    Scan(vals, |vals|).1
  }

  /** L is the smallest length of the largest worth. */
  ghost predicate IsBest(vals: seq<real>, L: nat)
  {
    && 1 <= L <= |vals| && (forall M :: 0 <= M < |vals| ==> vals[M] <= vals[L - 1])
    && (forall M :: 0 <= M < L - 1 ==> vals[M] < vals[L - 1])
  }

  ghost predicate SomeWorth(vals: seq<real>) { exists M :: 0 <= M < |vals| && vals[M] > WORST }

  lemma {:induction false} ScanIsBest(vals: seq<real>, n: nat)
    requires n <= |vals|
    ensures var r := Scan(vals, n);
            && r.0 >= WORST && (forall M :: 0 <= M < n ==> vals[M] <= r.0)
            && (r.0 > WORST ==> 1 <= r.1 <= n && vals[r.1 - 1] == r.0 && forall M :: 0 <= M < r.1 - 1 ==> vals[M] < r.0)
            && (r.0 == WORST ==> r.1 == |vals|)
  {
    if n > 0 { ScanIsBest(vals, n - 1); }
  }

  /** The policy's length is the smallest that maximises the worth, as soon as any length beats the starting value;
  otherwise the full length is kept. */
  lemma {:induction false} ChoiceIsBest(vals: seq<real>)
    requires vals != []
    ensures SomeWorth(vals) ==> IsBest(vals, BestLength(vals))
    ensures !SomeWorth(vals) ==> BestLength(vals) == |vals|
  {
    ScanIsBest(vals, |vals|);
    var r := Scan(vals, |vals|);
    if r.0 > WORST { assert vals[r.1 - 1] > WORST; }
  }

  function Largest(vals: seq<real>): (m: real)
    requires vals != []
    ensures m in vals && forall k :: 0 <= k < |vals| ==> vals[k] <= m
  {
    if |vals| == 1 then vals[0]
    else
      var m := Largest(vals[..|vals| - 1]);
      if vals[|vals| - 1] > m then vals[|vals| - 1] else m
  }

  /** How clearly the full length beat every shorter one; absent when there is no shorter one. */
  function Margin(vals: seq<real>): (m: Option<real>)
    requires vals != []
  {
    if |vals| == 1 then None else Some(vals[|vals| - 1] - Largest(vals[..|vals| - 1]))
  }

  /** The gate's input means what it says: the margin is positive exactly when the full length is chosen. */
  lemma {:induction false} PositiveMarginIsFull(vals: seq<real>)
    requires |vals| > 1 && SomeWorth(vals)
    ensures Margin(vals).value > 0.0 <==> BestLength(vals) == |vals|
  {
    ChoiceIsBest(vals);
    var shorter := vals[..|vals| - 1];
    var k :| 0 <= k < |shorter| && shorter[k] == Largest(shorter);
    assert vals[k] == Largest(shorter);
    assert forall j :: 0 <= j < |shorter| ==> vals[j] == shorter[j];
  }

  /** One decision: the length, and the price after it, a moving average of tokens per millisecond. */
  function Choice(tab: Table, lam: real, confs: seq<Conf>, kmax: nat): (L: nat)
    requires tab.Valid() && kmax > 0 && AllCover(tab, confs, kmax)
    ensures 1 <= L <= kmax && AllCover(tab, confs, L)
  {
    BestLength(Worths(tab, lam, confs, kmax))
  }

  function NextLam(tab: Table, lam: real, confs: seq<Conf>, L: nat): (next: real)
    requires tab.Valid() && AllCover(tab, confs, L)
  {
    CostPositive(tab, |confs|, L + 1);
    Blend(lam, SumExpected(tab, confs, L), tab.Cost(|confs|, L + 1))
  }

  /** (1 - ALPHA) * lam + ALPHA * tokens / ms. */
  function Blend(lam: real, tokens: real, ms: real): real
    requires ms > 0.0
  {
    (1.0 - ALPHA) * lam + ALPHA * tokens / ms
  }

  /** The loop that finds a confidence's bin. */
  method CountEdges(edges: seq<real>, lq: real) returns (b: nat)
    ensures b == Bin(edges, lq)
  {
    b := 0;
    var e := 0;
    while e < |edges|
      invariant 0 <= e <= |edges| && b == Bin(edges[..e], lq)
    {
      assert edges[..e + 1][..e] == edges[..e];
      if lq >= edges[e] { b := b + 1; }
      e := e + 1;
    }
    assert edges[..e] == edges;
  }

  /** The policy object. `startLam` is the price before any decision for n requests. */
  class Policy {
    const tab: Table
    const startLam: nat -> real
    var lam: map<nat, real>
    var lastMargin: Option<real>

    constructor (tab: Table, startLam: nat -> real)
      ensures this.tab == tab && this.startLam == startLam && lam == map[]
    {
      this.tab, this.startLam := tab, startLam;
      lam, lastMargin := map[], None;
    }

    function LamFor(n: nat): real
      reads this
    {
      if n in lam then lam[n] else startLam(n)
    }

    /** A decision: the length chosen at the price of its size, and that price moved on. */
    ghost predicate Decides(before: map<nat, real>, confs: seq<Conf>, kmax: nat, L: nat, after: map<nat, real>)
    {
      var n := |confs|;
      var price := if n in before then before[n] else startLam(n);
      tab.Valid() && kmax > 0 && AllCover(tab, confs, kmax) && L == Choice(tab, price, confs, kmax)
      && after == before[n := NextLam(tab, price, confs, L)]
    }

    /** expect: the expected tokens per verified length. */
    method Expect(conf: Conf) returns (es: seq<real>)
      requires tab.Valid() && tab.Covers(conf)
      ensures |es| == |conf| + 1 && forall s :: 0 <= s <= |conf| ==> es[s] == Expected(tab, conf, s)
    {
      es := [1.0];
      var cum := 1.0;
      var s := 0;
      while s < |conf|
        invariant 0 <= s <= |conf| && |es| == s + 1
        invariant cum == Cum(tab, conf, s)
        invariant forall k :: 0 <= k <= s ==> es[k] == Expected(tab, conf, k)
      {
        cum := CumStep(conf, s, cum);
        es := es + [es[s] + cum];
        s := s + 1;
      }
    }

    /** One position: the chance that the drafts so far and this one are accepted. */
    method CumStep(conf: Conf, s: nat, cum: real) returns (next: real)
      requires tab.Valid() && tab.Covers(conf) && s < |conf| && cum == Cum(tab, conf, s)
      ensures next == Cum(tab, conf, s + 1)
    {
      var b := CountEdges(tab.edges, conf[s]);
      next := Mul(cum, tab.g[s][b]);
    }

    /** choose: the best length, then the price moves. */
    method Choose(confs: seq<Conf>, kmax: nat) returns (bL: nat)
      requires tab.Valid() && kmax > 0 && AllCover(tab, confs, kmax)
      modifies this
      ensures 1 <= bL <= kmax && Decides(old(lam), confs, kmax, bL, lam)
      ensures lastMargin == Margin(Worths(tab, old(LamFor(|confs|)), confs, kmax))
    {
      var n, price := |confs|, LamFor(|confs|);
      var vals;
      bL, vals := BestOf(confs, price, kmax);
      var next := PriceAfter(confs, price, bL);
      lastMargin := Margin(vals);
      lam := lam[n := next];
    }

    method PriceAfter(confs: seq<Conf>, price: real, L: nat) returns (next: real)
      requires tab.Valid() && AllCover(tab, confs, L)
      ensures next == NextLam(tab, price, confs, L)
    {
      var tokens := TokensOf(confs, L);
      CostPositive(tab, |confs|, L + 1);
      next := (1.0 - ALPHA) * price + ALPHA * tokens / tab.Cost(|confs|, L + 1);
    }

    /** The loop over the lengths, keeping the first best. */
    method BestOf(confs: seq<Conf>, price: real, kmax: nat) returns (bL: nat, vals: seq<real>)
      requires tab.Valid() && kmax > 0 && AllCover(tab, confs, kmax)
      ensures vals == Worths(tab, price, confs, kmax)
      ensures bL == Choice(tab, price, confs, kmax)
    {
      ghost var worths := Worths(tab, price, confs, kmax);
      var best := WORST;
      vals, bL := [], kmax;
      while |vals| < kmax
        invariant |vals| <= kmax && vals == worths[..|vals|] && (best, bL) == Scan(worths, |vals|)
      {
        var v := WorthOf(confs, price, |vals| + 1, kmax);
        assert v == worths[|vals|];
        vals := vals + [v];
        if v > best { best, bL := v, |vals|; }
      }
      assert vals == worths;
    }

    /** The sum of the requests' expected tokens. */
    method TokensOf(confs: seq<Conf>, L: nat) returns (sum: real)
      requires tab.Valid() && AllCover(tab, confs, L)
      ensures sum == SumExpected(tab, confs, L)
    {
      sum := 0.0;
      var i := 0;
      while i < |confs|
        invariant 0 <= i <= |confs| && AllCover(tab, confs[..i], L) && sum == SumExpected(tab, confs[..i], L)
      {
        var es := Expect(confs[i]);
        assert confs[..i + 1][..i] == confs[..i];
        sum := sum + es[L];
        i := i + 1;
      }
      assert confs[..i] == confs;
    }

    method WorthOf(confs: seq<Conf>, price: real, L: nat, kmax: nat) returns (v: real)
      requires tab.Valid() && L <= kmax && AllCover(tab, confs, kmax)
      ensures AllCover(tab, confs, L) && v == Worth(tab, price, confs, L)
    {
      CoverShorter(tab, confs, kmax, L);
      var sum := TokensOf(confs, L);
      v := sum - Mul(price, tab.Cost(|confs|, L + 1));
    }
  }

  // ----------------------------------------------------------------------------------------- the price stays bounded

  /** c is at most every cost of a step of n requests with at most kmax drafts. */
  ghost predicate CheapestStep(tab: Table, n: nat, kmax: nat, c: real)
    requires tab.Valid()
  {
    c > 0.0 && forall q: nat :: 2 <= q <= kmax + 1 ==> tab.Cost(n, q) >= c
  }

  lemma QuotientBound(e: real, top: real, cost: real, c: real)
    requires 0.0 < e <= top && 0.0 < c <= cost
    ensures 0.0 < e / cost <= top / c
  {
    var q := e / cost;
    assert q * cost == e;
    assert q > 0.0;
    assert q * c <= q * cost;
    assert q * c <= top;
    assert q == (q * c) / c;
  }

  lemma {:induction false} SumExpectedBounded(tab: Table, confs: seq<Conf>, s: nat)
    requires tab.Valid() && AllCover(tab, confs, s)
    ensures |confs| as real <= SumExpected(tab, confs, s) <= Mul(|confs| as real, 1.0 + s as real)
    decreases |confs|
  {
    if confs == [] {
      MulStep(0, 1.0 + s as real);
    } else {
      var rest := confs[..|confs| - 1];
      SumExpectedBounded(tab, rest, s);
      ExpectedBounded(tab, confs[|confs| - 1], s);
      MulStep(|rest|, 1.0 + s as real);
    }
  }

  lemma MulStep(n: nat, x: real)
    ensures Mul(0.0, x) == 0.0 && Mul((n + 1) as real, x) == Mul(n as real, x) + x
  {
  }

  /** A decision moves the price the fraction ALPHA of its way to the tokens per millisecond just expected. */
  lemma BlendMovesToRate(lam: real, tokens: real, ms: real)
    requires ms > 0.0
    ensures Blend(lam, tokens, ms) - lam == ALPHA * (tokens / ms - lam)
  {
    var rate := tokens / ms;
    assert rate * ms == tokens;
    assert (0.05 * rate) * ms == 0.05 * tokens;
  }

  lemma BlendBounded(lam: real, rate: real, tokens: real, ms: real, bound: real)
    requires ms > 0.0 && rate == tokens / ms && 0.0 < lam <= bound && 0.0 < rate <= bound
    ensures 0.0 < Blend(lam, tokens, ms) <= bound
  {
    assert rate * ms == tokens;
    assert (0.05 * rate) * ms == 0.05 * tokens;
  }

  /** The price stays between 0 and any bound that covers its start and the best rate there is. */
  lemma {:induction false} NextLamBounded(tab: Table, lam: real, confs: seq<Conf>, kmax: nat, L: nat, c: real,
      bound: real)
    requires tab.Valid() && 1 <= L <= kmax && AllCover(tab, confs, L) && confs != []
    requires CheapestStep(tab, |confs|, kmax, c) && 0.0 < lam <= bound
    requires Mul(|confs| as real, 1.0 + L as real) / c <= bound
    ensures 0.0 < NextLam(tab, lam, confs, L) <= bound
  {
    var e, cost := SumExpected(tab, confs, L), tab.Cost(|confs|, L + 1);
    SumExpectedBounded(tab, confs, L);
    QuotientBound(e, Mul(|confs| as real, 1.0 + L as real), cost, c);
    BlendBounded(lam, e / cost, e, cost, bound);
  }

  /** One call of choose. */
  datatype Decision = Decision(confs: seq<Conf>, kmax: nat)

  ghost predicate Decidable(tab: Table, d: Decision)
  {
    d.confs != [] && d.kmax > 0 && AllCover(tab, d.confs, d.kmax)
  }

  /** The prices of every number of requests after a run of decisions in one policy. */
  function PricesAfter(tab: Table, startLam: nat -> real, run: seq<Decision>): (lam: map<nat, real>)
    requires tab.Valid() && forall k :: 0 <= k < |run| ==> Decidable(tab, run[k])
    decreases |run|
  {
    if run == [] then map[]
    else
      var before, d := PricesAfter(tab, startLam, run[..|run| - 1]), run[|run| - 1];
      assert Decidable(tab, d);
      var price := PriceIn(startLam, before, |d.confs|);
      before[|d.confs| := NextLam(tab, price, d.confs, Choice(tab, price, d.confs, d.kmax))]
  }

  function PriceIn(startLam: nat -> real, lam: map<nat, real>, n: nat): real
  {
    if n in lam then lam[n] else startLam(n)
  }

  /** The policy object's calls are such a run. */
  lemma {:induction false} ChooseExtendsRun(policy: Policy, run: seq<Decision>, d: Decision, L: nat,
                                            after: map<nat, real>)
    requires policy.tab.Valid() && (forall k :: 0 <= k < |run| ==> Decidable(policy.tab, run[k]))
    requires Decidable(policy.tab, d)
    requires policy.Decides(PricesAfter(policy.tab, policy.startLam, run), d.confs, d.kmax, L, after)
    ensures after == PricesAfter(policy.tab, policy.startLam, run + [d])
  {
    var more := run + [d];
    assert more[..|more| - 1] == run;
    assert forall k :: 0 <= k < |more| ==> Decidable(policy.tab, more[k]);
  }

  /** Over every run of decisions, for requests in any numbers, the price of n requests stays between 0 and any bound
  that covers its start and the best rate n requests can have. */
  lemma {:induction false} RunPricesBounded(tab: Table, startLam: nat -> real, run: seq<Decision>, n: nat, kmax: nat,
                                            c: real, bound: real)
    requires tab.Valid() && n > 0
    requires forall k :: 0 <= k < |run| ==> Decidable(tab, run[k]) && (|run[k].confs| == n ==> run[k].kmax <= kmax)
    requires CheapestStep(tab, n, kmax, c) && 0.0 < startLam(n) <= bound
    requires Mul(n as real, 1.0 + kmax as real) / c <= bound
    ensures 0.0 < PriceIn(startLam, PricesAfter(tab, startLam, run), n) <= bound
    decreases |run|
  {
    if run != [] {
      var front, d := run[..|run| - 1], run[|run| - 1];
      RunPricesBounded(tab, startLam, front, n, kmax, c, bound);
      assert Decidable(tab, d);
      if |d.confs| == n {
        var price := PriceIn(startLam, PricesAfter(tab, startLam, front), n);
        var L := Choice(tab, price, d.confs, d.kmax);
        ShorterRate(n, L, kmax, c);
        NextLamBounded(tab, price, d.confs, kmax, L, c, bound);
      }
    }
  }

  lemma ShorterRate(n: nat, L: nat, kmax: nat, c: real)
    requires n > 0 && L <= kmax && c > 0.0
    ensures Mul(n as real, 1.0 + L as real) / c <= Mul(n as real, 1.0 + kmax as real) / c
  {
    NonNegativeProduct(n as real, (kmax - L) as real);
    NonNegativeProduct(n as real - 1.0, 1.0 + L as real);
    assert Mul(n as real, 1.0 + L as real) >= 1.0 + L as real;
    assert Mul(n as real, 1.0 + kmax as real) == Mul(n as real, 1.0 + L as real) + Mul(n as real, (kmax - L) as real);
    QuotientBound(Mul(n as real, 1.0 + L as real), Mul(n as real, 1.0 + kmax as real), c, c);
  }

  // ---------------------------------------------------------------------------------------------- truncation

  /** The live requests' confidences, in the scheduler's order. */
  function Inputs(s: Schedule, confs: map<nat, Conf>): (inputs: seq<Conf>)
    requires s.Valid() && Eligible(s, confs.Keys).Some?
    ensures |inputs| == |Live(s, s.drafted)| && forall i :: 0 <= i < |inputs| ==> inputs[i] in confs.Values
  {
    var live := Live(s, s.drafted);
    assert forall i :: 0 <= i < |live| ==> live[i] in live;
    seq(|live|, i requires 0 <= i < |live| => confs[live[i]])
  }

  lemma InputsCover(tab: Table, s: Schedule, known: set<nat>, inputs: seq<Conf>)
    requires s.Valid() && Eligible(s, known).Some? && forall r :: r in s.spec ==> |s.spec[r]| <= |tab.g|
    requires forall i :: 0 <= i < |inputs| ==> |inputs[i]| == |tab.g|
    ensures AllCover(tab, inputs, Eligible(s, known).value)
  {
    var r := Live(s, s.drafted)[0];
    assert r in Live(s, s.drafted);
  }

  /** truncate: nothing at all, or one common length for every live request. */
  method Truncate(so: SchedulerOutput, confs: map<nat, Conf>, policy: Policy) returns (r: Option<nat>)
    requires so.State().Valid() && policy.tab.Valid()
    requires forall q :: q in confs ==> |confs[q]| == |policy.tab.g|
    requires forall q :: q in so.spec ==> |so.spec[q]| <= |policy.tab.g|
    modifies so, policy
    ensures r.Some? <==> Eligible(old(so.State()), confs.Keys).Some?
    ensures r.None? ==> so.State() == old(so.State()) && policy.lam == old(policy.lam)
    ensures r.Some? ==> policy.Decides(old(policy.lam), Inputs(old(so.State()), confs), Eligible(old(so.State()),
            confs.Keys).value,
                                       r.value, policy.lam)
    ensures r.Some? ==> TruncatedTo(old(so.State()), so.State(), Eligible(old(so.State()), confs.Keys).value, r.value)
  {
    var before := so.State();
    var live := Live(before, so.drafted);
    var eligible := Eligible(before, confs.Keys);
    if eligible.None? { return None; }
    var kmax := eligible.value;
    var inputs := Inputs(before, confs);
    InputsCover(policy.tab, before, confs.Keys, inputs);
    LiveIsCuttable(before, confs.Keys, kmax);
    FullLengthKept(before, confs.Keys);
    var L := policy.Choose(inputs, kmax);
    if L < kmax {
      LiveIsCuttable(before, confs.Keys, L);
      so.CutTo(live, kmax, L);
      CutIsTruncated(before, so.State(), confs.Keys, L);
    }
    r := Some(L);
  }
}
