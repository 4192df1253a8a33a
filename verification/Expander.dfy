/** From selected pools to token ids (overlay/glm5next_kpool_compress.py): the two-step reference, the fused kernel,
and the number of tokens a row ends up attending (overlay/glm_early_plan.py). */
module Expander {
  import opened Arith

  /** The tokens of one selected pool, or -1 in every place of a pool that is not valid. */
  function PoolTokens(pid: int, valid: bool, pool: nat): (ids: seq<int>)
    ensures |ids| == pool
  {
    seq(pool, o requires 0 <= o < pool => if valid then pid * pool + o else -1)
  }

  predicate IsPool(pid: int, poolLen: nat) { 0 <= pid < poolLen }

  /** expand_pools_to_tokens on the identity path: the pools' token lists, one after the other. */
  function Expand(pids: seq<int>, poolLen: nat, pool: nat): (ids: seq<int>)
    ensures |ids| == |pids| * pool
  {
    if pids == [] then []
    else
      assert |pids| * pool == pool + |pids[1..]| * pool;
      PoolTokens(pids[0], IsPool(pids[0], poolLen), pool) + Expand(pids[1..], poolLen, pool)
  }

  /** append_tail_to_topk: pool - 1 more columns, holding the tokens of the incomplete last pool. */
  function AppendTail(history: seq<int>, seqLen: nat, poolLen: nat, pool: nat): (ids: seq<int>)
    requires pool > 0
    ensures |ids| == |history| + (pool - 1)
  {
    history + Tail(seqLen, poolLen, pool)
  }

  function Tail(seqLen: nat, poolLen: nat, pool: nat): (ids: seq<int>)
    requires pool > 0
    ensures |ids| == pool - 1
  {
    seq(pool - 1, o requires 0 <= o < pool - 1 => if o < seqLen - poolLen * pool then poolLen * pool + o else -1)
  }

  /** The two reference steps in sequence, with the pool count of the row. */
  function Reference(pids: seq<int>, seqLen: nat, pool: nat): (ids: seq<int>)
    requires pool > 0
    ensures |ids| == |pids| * pool + (pool - 1)
  {
    AppendTail(Expand(pids, seqLen / pool, pool), seqLen, seqLen / pool, pool)
  }

  // ---------------------------------------------------------------------------------------------- the fused kernel

  lemma {:induction false} ExpandAt(pids: seq<int>, poolLen: nat, pool: nat, c: nat)
    requires pool > 0 && c < |pids| * pool
    ensures c / pool < |pids|
    ensures Expand(pids, poolLen, pool)[c] ==
            if IsPool(pids[c / pool], poolLen) then pids[c / pool] * pool + c % pool else -1
    decreases |pids|
  {
    if pids == [] {
      assert false;
    } else if c < pool {
      DivUnique(c, 0, c, pool);
    } else {
      assert |pids| * pool == pool + |pids[1..]| * pool;
      ExpandAt(pids[1..], poolLen, pool, c - pool);
      NextQuotient(c, pool);
    }
  }

  lemma NextQuotient(c: nat, pool: nat)
    requires 0 < pool <= c
    ensures c / pool == (c - pool) / pool + 1 && c % pool == (c - pool) % pool
  {
    var q, r := (c - pool) / pool, (c - pool) % pool;
    assert c - pool == q * pool + r;
    assert c == (q + 1) * pool + r;
    DivUnique(c, q + 1, r, pool);
  }

  /** _expand_pools_and_append_tail_kernel, one row: the columns in tiles, each computed from its index alone. */
  method Fused(pids: seq<int>, seqLen: nat, pool: nat, tile: nat) returns (out: array<int>)
    requires pool > 0 && tile > 0
    ensures fresh(out) && out[..] == Reference(pids, seqLen, pool)
  {
    var topk := |pids| * pool;
    out := new int[topk + (pool - 1)];
    var c := 0;
    while c < out.Length
      invariant 0 <= c <= out.Length
      invariant out[..c] == Reference(pids, seqLen, pool)[..c]
      decreases out.Length - c
    {
      var end := if c + tile <= out.Length then c + tile else out.Length;
      while c < end
        invariant c <= end <= out.Length
        invariant out[..c] == Reference(pids, seqLen, pool)[..c]
      {
        out[c] := FusedColumn(pids, seqLen, pool, c);
        FusedColumnIsReference(pids, seqLen, pool, c);
        assert out[..c + 1] == out[..c] + [out[c]];
        c := c + 1;
      }
    }
    assert out[..] == out[..c];
  }

  function FusedColumn(pids: seq<int>, seqLen: nat, pool: nat, c: nat): (id: int)
    requires pool > 0 && c < |pids| * pool + (pool - 1)
  {
    var poolLen, topk := seqLen / pool, |pids| * pool;
    if c < topk then
      QuotientBelow(c, |pids|, pool);
      var pid := pids[c / pool];
      if pid >= 0 && pid < poolLen then pid * pool + c % pool else -1
    else if c - topk < seqLen - poolLen * pool then poolLen * pool + (c - topk)
    else -1
  }

  lemma QuotientBelow(c: nat, n: nat, pool: nat)
    requires pool > 0 && c < n * pool
    ensures c / pool < n
  {
    assert c == (c / pool) * pool + c % pool;
    if c / pool >= n { MulMonotone(pool, n, c / pool); }
  }

  lemma {:induction false} FusedColumnIsReference(pids: seq<int>, seqLen: nat, pool: nat, c: nat)
    requires pool > 0 && c < |pids| * pool + (pool - 1)
    ensures FusedColumn(pids, seqLen, pool, c) == Reference(pids, seqLen, pool)[c]
  {
    if c < |pids| * pool { ExpandAt(pids, seqLen / pool, pool, c); }
  }

  // ---------------------------------------------------------------------------------------------- what a row attends

  function CountTokens(ids: seq<int>): (n: nat)
  {
    if ids == [] then 0 else (if ids[0] >= 0 then 1 else 0) + CountTokens(ids[1..])
  }

  function CountPools(pids: seq<int>, poolLen: nat): (n: nat)
  {
    if pids == [] then 0 else (if IsPool(pids[0], poolLen) then 1 else 0) + CountPools(pids[1..], poolLen)
  }

  /** The real entries of a row are distinct. */
  ghost predicate Distinct(ids: seq<int>)
  {
    forall i, j :: 0 <= i < j < |ids| && ids[i] >= 0 ==> ids[i] != ids[j]
  }

  /** What the top-k over the row's pools delivers: distinct pools, and as many as there are up to the budget. */
  ghost predicate GoodSelection(pids: seq<int>, poolLen: nat)
  {
    && (forall i, j :: 0 <= i < j < |pids| && IsPool(pids[i], poolLen) ==> pids[i] != pids[j])
    && CountPools(pids, poolLen) == if poolLen <= |pids| then poolLen else |pids|
  }

  /** The planned length of a row with ctx tokens of context: all of them up to topk, else topk and the open pool. */
  function KvLen(ctx: int, topk: nat, pool: nat): (n: int)
    requires pool > 0
  {
    if ctx <= topk then ctx else topk + ctx % pool
  }

  lemma {:induction false} CountAppend(a: seq<int>, b: seq<int>)
    ensures CountTokens(a + b) == CountTokens(a) + CountTokens(b)
    decreases |a|
  {
    if a == [] {
      assert a + b == b;
    } else {
      CountAppend(a[1..], b);
      assert (a + b)[1..] == a[1..] + b;
    }
  }

  lemma {:induction false} CountAll(ids: seq<int>, k: nat)
    requires k <= |ids|
    requires (forall i :: 0 <= i < k ==> ids[i] >= 0) && (forall i :: k <= i < |ids| ==> ids[i] < 0)
    ensures CountTokens(ids) == k
    decreases |ids|
  {
    if ids != [] { CountAll(ids[1..], if k > 0 then k - 1 else 0); }
  }

  lemma PoolTokensSign(pid: int, poolLen: nat, pool: nat)
    ensures var ids := PoolTokens(pid, IsPool(pid, poolLen), pool);
            forall o :: 0 <= o < pool ==> (ids[o] >= 0 <==> IsPool(pid, poolLen))
  {
    if IsPool(pid, poolLen) { assert pid * pool >= 0; }
  }

  lemma {:induction false} CountExpand(pids: seq<int>, poolLen: nat, pool: nat)
    ensures CountTokens(Expand(pids, poolLen, pool)) == CountPools(pids, poolLen) * pool
    decreases |pids|
  {
    if pids == [] {
    } else {
      var ids := PoolTokens(pids[0], IsPool(pids[0], poolLen), pool);
      PoolTokensSign(pids[0], poolLen, pool);
      CountAll(ids, if IsPool(pids[0], poolLen) then pool else 0);
      CountExpand(pids[1..], poolLen, pool);
      CountAppend(ids, Expand(pids[1..], poolLen, pool));
      OneMore(CountPools(pids[1..], poolLen), pool);
    }
  }

  lemma OneMore(n: nat, pool: nat)
    ensures (1 + n) * pool == pool + n * pool
  {
  }

  /** The row holds exactly as many tokens as the host plans. */
  lemma {:induction false} RowHasPlannedLength(pids: seq<int>, seqLen: nat, pool: nat)
    requires pool > 0 && GoodSelection(pids, seqLen / pool)
    ensures CountTokens(Reference(pids, seqLen, pool)) == KvLen(seqLen, |pids| * pool, pool)
  {
    var poolLen := seqLen / pool;
    CountExpand(pids, poolLen, pool);
    CountTail(seqLen, pool);
    CountAppend(Expand(pids, poolLen, pool), Tail(seqLen, poolLen, pool));
    LengthCases(seqLen, |pids|, pool);
  }

  lemma {:induction false} CountTail(seqLen: nat, pool: nat)
    requires pool > 0
    ensures CountTokens(Tail(seqLen, seqLen / pool, pool)) == seqLen % pool
  {
    var start := (seqLen / pool) * pool;
    assert seqLen == start + seqLen % pool && start >= 0;
    CountAll(Tail(seqLen, seqLen / pool, pool), seqLen % pool);
  }

  lemma LengthCases(seqLen: nat, n: nat, pool: nat)
    requires pool > 0
    ensures var p := seqLen / pool;
            (if p <= n then p else n) * pool + seqLen % pool == KvLen(seqLen, n * pool, pool)
  {
    var p, r := seqLen / pool, seqLen % pool;
    assert seqLen == p * pool + r;
    if p < n {
      MulMonotone(pool, p + 1, n);
      assert (p + 1) * pool == p * pool + pool;
    } else if p > n {
      MulMonotone(pool, n + 1, p);
      assert (n + 1) * pool == n * pool + pool;
    }
  }

  /** Column c of an expanded history is token o of the pool selected a-th, for c == a * pool + o. */
  ghost predicate IsColumn(id: int, pids: seq<int>, poolLen: nat, pool: nat, c: nat, a: nat, o: nat)
  {
    a < |pids| && o < pool && c == a * pool + o && id == if IsPool(pids[a], poolLen) then pids[a] * pool + o else -1
  }

  lemma {:induction false} ColumnOf(pids: seq<int>, poolLen: nat, pool: nat, c: nat) returns (a: nat, o: nat)
    requires pool > 0 && c < |pids| * pool
    ensures IsColumn(Expand(pids, poolLen, pool)[c], pids, poolLen, pool, c, a, o)
  {
    a, o := c / pool, c % pool;
    assert c == a * pool + o;
    ExpandAt(pids, poolLen, pool, c);
  }

  lemma {:induction false} ColumnsDiffer(pids: seq<int>, poolLen: nat, pool: nat, i: nat, a: nat, o: nat, x: int,
      j: nat, b: nat, u: nat, y: int)
    requires GoodSelection(pids, poolLen) && i != j && x >= 0
    requires IsColumn(x, pids, poolLen, pool, i, a, o) && IsColumn(y, pids, poolLen, pool, j, b, u)
    ensures x != y
  {
    if a != b && IsPool(pids[a], poolLen) && IsPool(pids[b], poolLen) {
      DifferentPools(pids, poolLen, a, b);
      DifferentTokens(pids[a], o, pids[b], u, pool);
    }
  }

  lemma DifferentPools(pids: seq<int>, poolLen: nat, a: nat, b: nat)
    requires GoodSelection(pids, poolLen) && a < |pids| && b < |pids| && a != b && IsPool(pids[a], poolLen) &&
             IsPool(pids[b], poolLen)
    ensures pids[a] != pids[b]
  {
  }

  lemma DifferentTokens(p: int, o: nat, q: int, u: nat, pool: nat)
    requires p != q && o < pool && u < pool
    ensures p * pool + o != q * pool + u
  {
    if p * pool + o == q * pool + u {
      DivUnique(p * pool + o, p, o, pool);
      DivUnique(p * pool + o, q, u, pool);
    }
  }

  /** A history token lies in the pooled part of the context. */
  lemma {:induction false} ColumnInRange(pids: seq<int>, poolLen: nat, pool: nat, c: nat, a: nat, o: nat, x: int)
    requires IsColumn(x, pids, poolLen, pool, c, a, o)
    ensures x == -1 || 0 <= x < poolLen * pool
  {
    if IsPool(pids[a], poolLen) {
      MulMonotone(pool, pids[a] + 1, poolLen);
      assert (pids[a] + 1) * pool == pids[a] * pool + pool;
      assert pids[a] * pool >= 0;
    }
  }

  /** The expanded history: distinct tokens of the pooled part of the context. */
  lemma {:induction false} HistoryIsGood(pids: seq<int>, poolLen: nat, pool: nat)
    requires pool > 0 && GoodSelection(pids, poolLen)
    ensures var ids := Expand(pids, poolLen, pool);
            Distinct(ids) && forall i :: 0 <= i < |ids| ==> ids[i] == -1 || 0 <= ids[i] < poolLen * pool
  {
    var ids := Expand(pids, poolLen, pool);
    forall i, j | 0 <= i < j < |ids| && ids[i] >= 0
      ensures ids[i] != ids[j]
    {
      var a, o := ColumnOf(pids, poolLen, pool, i);
      var b, u := ColumnOf(pids, poolLen, pool, j);
      ColumnsDiffer(pids, poolLen, pool, i, a, o, ids[i], j, b, u, ids[j]);
    }
    forall i | 0 <= i < |ids|
      ensures ids[i] == -1 || 0 <= ids[i] < poolLen * pool
    {
      var a, o := ColumnOf(pids, poolLen, pool, i);
      ColumnInRange(pids, poolLen, pool, i, a, o, ids[i]);
    }
  }

  /** What the row attends: distinct tokens of the context, with the whole incomplete pool among them. */
  lemma {:induction false} RowAttendsDistinctTokens(pids: seq<int>, seqLen: nat, pool: nat)
    requires pool > 0 && GoodSelection(pids, seqLen / pool)
    ensures Distinct(Reference(pids, seqLen, pool))
    ensures forall t :: t in Reference(pids, seqLen, pool) ==> t == -1 || 0 <= t < seqLen
    ensures forall t :: seqLen - seqLen % pool <= t < seqLen ==> t in Reference(pids, seqLen, pool)
  {
    var poolLen, n := seqLen / pool, seqLen % pool;
    HistoryIsGood(pids, poolLen, pool);
    var start := TailEntries(seqLen, poolLen, pool, n);
    JoinTail(Expand(pids, poolLen, pool), Tail(seqLen, poolLen, pool), start, n);
  }

  lemma {:induction false} TailEntries(seqLen: nat, poolLen: nat, pool: nat, n: nat) returns (start: nat)
    requires pool > 0 && poolLen == seqLen / pool && n == seqLen % pool
    ensures start == poolLen * pool && seqLen == start + n && n < pool
    ensures forall o :: 0 <= o < pool - 1 ==> Tail(seqLen, poolLen, pool)[o] == if o < n then start + o else -1
  {
    assert seqLen == poolLen * pool + n;
    assert poolLen * pool >= 0;
    start := poolLen * pool;
  }

  lemma {:induction false} JoinTail(history: seq<int>, tail: seq<int>, start: nat, n: nat)
    requires Distinct(history) && (forall i :: 0 <= i < |history| ==> history[i] == -1 || 0 <= history[i] < start)
    requires n <= |tail| && forall o :: 0 <= o < |tail| ==> tail[o] == if o < n then start + o else -1
    ensures Distinct(history + tail)
    ensures forall t :: t in history + tail ==> t == -1 || 0 <= t < start + n
    ensures forall t :: start <= t < start + n ==> t in history + tail
  {
    forall t | start <= t < start + n
      ensures t in history + tail
    {
      assert (history + tail)[|history| + (t - start)] == t;
    }
  }
}
