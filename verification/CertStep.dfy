/** The per-step protocol of the certified head over the ranks (overlay/cert_math.py, overlay/glm_cert_head.py): every
rank's local result is packed and gathered, and every rank decides the whole step from the same gathered pairs. */
module CertStep {
  import opened FloatGrid
  import opened Fp32
  import opened CertBound
  import opened Selection
  import opened CertMath

  datatype StepResult = Stock | Tokens(ids: seq<nat>)

  function Column<T>(rows: seq<seq<T>>, m: nat): (c: seq<T>)
    requires forall r :: 0 <= r < |rows| ==> m < |rows[r]|
    ensures |c| == |rows| && forall r :: 0 <= r < |rows| ==> c[r] == rows[r][m]
  {
    seq(|rows|, r requires 0 <= r < |rows| => rows[r][m])
  }

  function Vals(results: seq<Result>): (vs: seq<seq<Ordinal>>)
    ensures |vs| == |results| && forall r :: 0 <= r < |vs| ==> vs[r] == results[r].vals
  {
    seq(|results|, r requires 0 <= r < |results| => results[r].vals)
  }

  function Idxs(results: seq<Result>): (vs: seq<seq<nat>>)
    ensures |vs| == |results| && forall r :: 0 <= r < |vs| ==> vs[r] == results[r].idxs
  {
    seq(|results|, r requires 0 <= r < |results| => results[r].idxs)
  }

  ghost predicate RowsOf(results: seq<Result>, rows: nat)
  {
    forall r :: 0 <= r < |results| ==> |results[r].vals| == |results[r].idxs| == rows
  }

  /** step_tp: any non-finite rank sends the whole step to the stock sampler; otherwise each row is reduced over the
  ranks. */
  function StepTp(results: seq<Result>, starts: seq<nat>, rows: nat): StepResult
    requires |results| == |starts| > 0 && RowsOf(results, rows)
  {
    if exists r :: 0 <= r < |results| && results[r].status == NONFINITE then Stock
    else Tokens(seq(rows, m requires 0 <= m < rows =>
                      ReduceRanks(Column(Vals(results), m), Column(Idxs(results), m), starts)))
  }

  // ---------------------------------------------------------------------------------------------- on the device

  const PAIR_WIDTH: nat := 4

  /** The status column: 0.0, 1.0 or 2.0. */
  function StatusValue(s: Status): Ordinal
  {
    match s
    case OK => 0
    case LOCAL_STOCK => 127 * STEPS
    case NONFINITE => 128 * STEPS
  }

  /** pack_pairs, one row of one rank: value, global id as fp32, status, padding. */
  function Packed(r: Result, start: nat, m: nat): (p: seq<Ordinal>)
    requires m < |r.vals| == |r.idxs|
    ensures |p| == PAIR_WIDTH
  {
    [r.vals[m], Round32((r.idxs[m] + start) as real), StatusValue(r.status), 0]
  }

  function PackedRows(results: seq<Result>, starts: seq<nat>, m: nat): (rows: seq<seq<Ordinal>>)
    requires |results| == |starts| && forall r :: 0 <= r < |results| ==> m < |results[r].vals| == |results[r].idxs|
    ensures |rows| == |results|
    ensures forall r :: 0 <= r < |rows| ==> |rows[r]| == PAIR_WIDTH && rows[r] == Packed(results[r], starts[r], m)
  {
    seq(|results|, r requires 0 <= r < |results| => Packed(results[r], starts[r], m))
  }

  /** all_gather along the last dimension: the ranks' slices side by side, on every rank. */
  function SideBySide(rows: seq<seq<Ordinal>>): seq<Ordinal>
  {
    if rows == [] then [] else SideBySide(rows[..|rows| - 1]) + rows[|rows| - 1]
  }

  lemma {:induction false} GatheredWidth(rows: seq<seq<Ordinal>>)
    requires forall k :: 0 <= k < |rows| ==> |rows[k]| == PAIR_WIDTH
    ensures |SideBySide(rows)| == |rows| * PAIR_WIDTH
  {
    if rows != [] { GatheredWidth(rows[..|rows| - 1]); }
  }

  /** The cast of a packed id back to an integer. */
  function TokenOf(o: Ordinal): (id: nat)
  {
    if Finite(o) && Value(o) >= 0.0 then Value(o).Floor else 0
  }

  /** One column of the gathered row over the ranks. */
  function RankColumn(gathered: seq<Ordinal>, tp: nat, c: nat): (col: seq<Ordinal>)
    requires |gathered| == tp * PAIR_WIDTH && c < PAIR_WIDTH
    ensures |col| == tp && forall r :: 0 <= r < tp ==> col[r] == gathered[r * PAIR_WIDTH + c]
  {
    seq(tp, r requires 0 <= r < tp => gathered[r * PAIR_WIDTH + c])
  }

  /** Reading the gathered row as [rank, column] gives every rank's slice back. */
  lemma {:induction false} ViewOfGather(rows: seq<seq<Ordinal>>, r: nat, c: nat)
    requires (forall k :: 0 <= k < |rows| ==> |rows[k]| == PAIR_WIDTH) && r < |rows| && c < PAIR_WIDTH
    ensures |SideBySide(rows)| == |rows| * PAIR_WIDTH
    ensures RankColumn(SideBySide(rows), |rows|, c)[r] == rows[r][c]
  {
    GatheredWidth(rows);
    var n := |rows| - 1;
    GatheredWidth(rows[..n]);
    if r < n { ViewOfGather(rows[..n], r, c); }
  }

  /** What every rank does with the gathered pairs: the status column routes, reduce_pairs selects. */
  function DeviceStep(gathered: seq<seq<Ordinal>>, tp: nat): StepResult
    requires tp > 0 && forall m :: 0 <= m < |gathered| ==> |gathered[m]| == tp * PAIR_WIDTH
  {
    if exists m, r :: 0 <= m < |gathered| && 0 <= r < tp && RankColumn(gathered[m], tp, 2)[r] >= 128 * STEPS then Stock
    else Tokens(seq(|gathered|, m requires 0 <= m < |gathered| =>
                      TokenOf(RankColumn(gathered[m], tp, 1)[FirstMax(RankColumn(gathered[m], tp, 0))])))
  }

  function Gathered(results: seq<Result>, starts: seq<nat>, rows: nat): (g: seq<seq<Ordinal>>)
    requires |results| == |starts| > 0 && RowsOf(results, rows)
    ensures |g| == rows
    ensures forall m :: 0 <= m < rows ==> |g[m]| == |results| * PAIR_WIDTH
                                          && g[m] == SideBySide(PackedRows(results, starts, m))
  {
    forall m | 0 <= m < rows
      ensures |SideBySide(PackedRows(results, starts, m))| == |results| * PAIR_WIDTH
    {
      GatheredWidth(PackedRows(results, starts, m));
    }
    seq(rows, m requires 0 <= m < rows => SideBySide(PackedRows(results, starts, m)))
  }

  /** Ids up to 2^24 survive the cast to fp32 and back. */
  lemma {:induction false} IdIsExact(id: nat)
    requires id <= 2 * STEPS
    ensures TokenOf(Round32(id as real)) == id
  {
    hide Round32, Value;
    var o := IntegerIsValue(id);
    Round32Exact(o);
  }

  /** The packed protocol decides what step_tp decides, for every vocabulary whose ids fp32 can hold. */
  lemma {:induction false} DeviceStepIsStepTp(results: seq<Result>, starts: seq<nat>, rows: nat)
    requires |results| == |starts| > 0 && RowsOf(results, rows) && rows > 0
    requires forall r, m :: 0 <= r < |results| && 0 <= m < rows ==> results[r].idxs[m] + starts[r] <= 2 * STEPS
    ensures DeviceStep(Gathered(results, starts, rows), |results|) == StepTp(results, starts, rows)
  {
    hide RankColumn, SideBySide, FirstMax, TokenOf;
    var g, tp := Gathered(results, starts, rows), |results|;
    forall m | 0 <= m < rows
      ensures forall r :: 0 <= r < tp ==> RankColumn(g[m], tp, 2)[r] == StatusValue(results[r].status)
      ensures TokenOf(RankColumn(g[m], tp, 1)[FirstMax(RankColumn(g[m], tp, 0))]) ==
              ReduceRanks(Column(Vals(results), m), Column(Idxs(results), m), starts)
    {
      ColumnsOfGather(results, starts, rows, m);
      IdOfRow(results, starts, rows, m);
    }
    if exists r :: 0 <= r < tp && results[r].status == NONFINITE {
      var r :| 0 <= r < tp && results[r].status == NONFINITE;
      assert RankColumn(g[0], tp, 2)[r] >= 128 * STEPS;
    }
  }

  lemma {:induction false} IdOfRow(results: seq<Result>, starts: seq<nat>, rows: nat, m: nat)
    requires |results| == |starts| > 0 && RowsOf(results, rows) && m < rows
    requires forall r :: 0 <= r < |results| ==> results[r].idxs[m] + starts[r] <= 2 * STEPS
    ensures var g, tp := Gathered(results, starts, rows)[m], |results|;
            TokenOf(RankColumn(g, tp, 1)[FirstMax(RankColumn(g, tp, 0))]) ==
            ReduceRanks(Column(Vals(results), m), Column(Idxs(results), m), starts)
  {
    hide RankColumn, SideBySide, TokenOf;
    ColumnsOfGather(results, starts, rows, m);
    var r := FirstMax(Column(Vals(results), m));
    IdIsExact(results[r].idxs[m] + starts[r]);
  }

  lemma {:induction false} ColumnsOfGather(results: seq<Result>, starts: seq<nat>, rows: nat, m: nat)
    requires |results| == |starts| > 0 && RowsOf(results, rows) && m < rows
    ensures var g, tp := Gathered(results, starts, rows)[m], |results|;
            && RankColumn(g, tp, 0) == Column(Vals(results), m)
            && (forall r :: 0 <= r < tp ==>
                  && RankColumn(g, tp, 1)[r] == Round32((results[r].idxs[m] + starts[r]) as real)
                  && RankColumn(g, tp, 2)[r] == StatusValue(results[r].status))
  {
    hide Round32, SideBySide;
    var packed, tp := PackedRows(results, starts, m), |results|;
    GatheredWidth(packed);
    forall r, c | 0 <= r < tp && 0 <= c < PAIR_WIDTH
      ensures RankColumn(SideBySide(packed), tp, c)[r] == packed[r][c]
    {
      ViewOfGather(packed, r, c);
    }
  }

  // ---------------------------------------------------------------------------------------------- the whole step

  ghost predicate RanksFit(hs: seq<Shard>, sts: seq<Step>, results: seq<Result>, starts: seq<nat>,
      root: real -> real, cap: nat, rows: nat)
  {
    && |hs| == |sts| == |results| == |starts| > 0 && IsRoot(root)
    && forall r :: 0 <= r < |hs| ==> hs[r].Valid() && sts[r].Fits(hs[r]) && |sts[r].x| == rows
                                     && IsLocalResult(hs[r], sts[r], root, cap, results[r])
  }

  /** The stock values of row m over the whole vocabulary, shard by shard. */
  ghost function StockShards(hs: seq<Shard>, sts: seq<Step>, m: nat): (shards: seq<seq<F32>>)
    requires |hs| == |sts|
    requires forall r :: 0 <= r < |hs| ==> hs[r].Valid() && sts[r].Fits(hs[r]) && m < |sts[r].x|
    ensures |shards| == |hs| && forall r :: 0 <= r < |hs| ==> shards[r] == StockRow(hs[r], sts[r], m)
  {
    seq(|hs|, r requires 0 <= r < |hs| => StockRow(hs[r], sts[r], m))
  }

  /** The gathered results send the whole step to the stock sampler exactly when some rank saw non-finite data. */
  lemma {:induction false} RouteIsAgreed(hs: seq<Shard>, sts: seq<Step>, results: seq<Result>, starts: seq<nat>,
      root: real -> real, cap: nat, rows: nat)
    requires RanksFit(hs, sts, results, starts, root, cap, rows)
    ensures StepTp(results, starts, rows).Stock? <==> exists r :: 0 <= r < |hs| && !sts[r].IsFinite()
  {
    hide IsLocalResult;
    forall r | 0 <= r < |hs|
      ensures results[r].status == NONFINITE <==> !sts[r].IsFinite()
    {
      StatusOf(hs[r], sts[r], root, cap, results[r]);
    }
  }

  lemma {:induction false} StatusOf(h: Shard, st: Step, root: real -> real, cap: nat, r: Result)
    requires h.Valid() && st.Fits(h) && IsRoot(root) && IsLocalResult(h, st, root, cap, r)
    ensures |r.vals| == |r.idxs| == |st.x| && (r.status == NONFINITE <==> !st.IsFinite())
  {
  }

  /** One row over the ranks: it is enough that each rank's own row is the stock one. */
  lemma {:induction false} RowOverRanks(hs: seq<Shard>, sts: seq<Step>, results: seq<Result>, starts: seq<nat>,
      root: real -> real, cap: nat, rows: nat, m: nat)
    requires RanksFit(hs, sts, results, starts, root, cap, rows) && m < rows
    requires forall r :: 0 <= r < |hs| ==> RowIsStock(hs[r], sts[r], m, results[r])
    requires ContiguousStarts(StockShards(hs, sts, m), starts)
    ensures var vals := Column(Vals(results), m);
            GlobalWinner(StockShards(hs, sts, m), vals[FirstMax(vals)],
                         ReduceRanks(vals, Column(Idxs(results), m), starts))
  {
    var shards, vals, idxs := StockShards(hs, sts, m), Column(Vals(results), m), Column(Idxs(results), m);
    forall r | 0 <= r < |shards|
      ensures Selected(shards[r], Range(|shards[r]|), vals[r], idxs[r])
    {
      WinnerSelected(hs[r], sts[r], m);
    }
    ReduceRanksIsGlobal(shards, vals, idxs, starts);
  }

  /** The whole step: the token of every row that is usable on each rank is the lowest-id stock argmax over the whole
  vocabulary, whatever the other rows are. */
  lemma {:induction false} StepIsStockArgmax(hs: seq<Shard>, sts: seq<Step>, results: seq<Result>, starts: seq<nat>,
      root: real -> real, cap: nat, rows: nat, m: nat)
    requires RanksFit(hs, sts, results, starts, root, cap, rows) && m < rows
    requires forall r :: 0 <= r < |hs| ==> Premised(hs[r], sts[r]) && RowUsable(hs[r], sts[r], root, m)
    requires ContiguousStarts(StockShards(hs, sts, m), starts)
    ensures StepTp(results, starts, rows).Tokens? && |StepTp(results, starts, rows).ids| == rows
    ensures var vals := Column(Vals(results), m);
            GlobalWinner(StockShards(hs, sts, m), vals[FirstMax(vals)], StepTp(results, starts, rows).ids[m])
  {
    RouteIsAgreed(hs, sts, results, starts, root, cap, rows);
    forall r | 0 <= r < |hs|
      ensures RowIsStock(hs[r], sts[r], m, results[r])
    {
      UsableRowIsStock(hs[r], sts[r], root, cap, m, results[r]);
    }
    RowOverRanks(hs, sts, results, starts, root, cap, rows, m);
  }
}
