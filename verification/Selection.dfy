/** Selecting the winner: the maximum value and the lowest id among the maxima (the stock tie order), in one pass,
in chunks, and over the ranks of a vocab-parallel head (overlay/cert_math.py). */
module Selection {
  import opened Fp32

  const INT_MAX: nat := 2147483647

  /** np.max: NaN if any element is NaN. */
  function NpMax(vs: seq<F32>): F32
    requires vs != []
  {
    if |vs| == 1 then vs[0]
    else
      var r := NpMax(vs[1..]);
      if vs[0].NaN? || r.NaN? then NaN else if vs[0].o >= r.o then vs[0] else r
  }

  /** The lowest id whose value equals v; INT_MAX if there is none. */
  function LowestId(vs: seq<F32>, ids: seq<nat>, v: F32): nat
    requires |vs| == |ids|
  {
    if vs == [] then INT_MAX
    else
      var r := LowestId(vs[1..], ids[1..], v);
      if vs[0].Ord? && vs[0] == v && ids[0] < r then ids[0] else r
  }

  /** (v, i) is the winner: v is the maximum and i the lowest id that has it. No value is NaN. */
  ghost predicate Selected(vs: seq<F32>, ids: seq<nat>, v: Ordinal, i: nat)
    requires |vs| == |ids|
  {
    && (exists j :: 0 <= j < |ids| && ids[j] == i && vs[j] == Ord(v))
    && (forall j :: 0 <= j < |ids| ==> Beats(v, i, vs[j], ids[j]))
  }

  predicate Beats(v: Ordinal, i: nat, w: F32, k: nat)
  {
    w.Ord? && (w.o < v || (w.o == v && i <= k))
  }

  predicate NaNFree(vs: seq<F32>) { forall j :: 0 <= j < |vs| ==> vs[j].Ord? }

  predicate IdsInRange(ids: seq<nat>) { forall j :: 0 <= j < |ids| ==> ids[j] < INT_MAX }

  lemma {:induction false} SelectedUnique(vs: seq<F32>, ids: seq<nat>, v: Ordinal, i: nat, w: Ordinal, k: nat)
    requires |vs| == |ids| && Selected(vs, ids, v, i) && Selected(vs, ids, w, k)
    ensures v == w && i == k
  {
    var a :| 0 <= a < |ids| && ids[a] == i && vs[a] == Ord(v);
    var b :| 0 <= b < |ids| && ids[b] == k && vs[b] == Ord(w);
    assert Beats(v, i, vs[b], ids[b]) && Beats(w, k, vs[a], ids[a]);
  }

  lemma {:induction false} NpMaxIsMax(vs: seq<F32>)
    requires vs != [] && NaNFree(vs)
    ensures NpMax(vs).Ord? && NpMax(vs) in vs && forall j :: 0 <= j < |vs| ==> vs[j].o <= NpMax(vs).o
  {
    if |vs| > 1 {
      NpMaxIsMax(vs[1..]);
      assert forall j :: 1 <= j < |vs| ==> vs[j] == vs[1..][j - 1];
    }
  }

  lemma {:induction false} NpMaxOfNaN(vs: seq<F32>)
    requires vs != [] && !NaNFree(vs)
    ensures NpMax(vs).NaN?
  {
    if |vs| > 1 && vs[0].Ord? {
      assert forall j :: 1 <= j < |vs| ==> vs[j] == vs[1..][j - 1];
      NpMaxOfNaN(vs[1..]);
    }
  }

  lemma {:induction false} LowestIdIsLowest(vs: seq<F32>, ids: seq<nat>, v: F32)
    requires |vs| == |ids| && IdsInRange(ids)
    ensures var r := LowestId(vs, ids, v);
            && (forall j :: 0 <= j < |vs| && vs[j].Ord? && vs[j] == v ==> r <= ids[j])
            && (r != INT_MAX ==> exists j :: 0 <= j < |vs| && ids[j] == r && vs[j].Ord? && vs[j] == v)
            && r <= INT_MAX
  {
    if vs != [] {
      LowestIdIsLowest(vs[1..], ids[1..], v);
      assert forall j :: 1 <= j < |vs| ==> vs[j] == vs[1..][j - 1] && ids[j] == ids[1..][j - 1];
      var r := LowestId(vs[1..], ids[1..], v);
      if r != INT_MAX {
        var j :| 0 <= j < |vs[1..]| && ids[1..][j] == r && vs[1..][j].Ord? && vs[1..][j] == v;
        assert ids[j + 1] == r && vs[j + 1] == v;
      }
    }
  }

  /** select: the maximum, and the lowest id among the places that have it. */
  function Select(vs: seq<F32>, ids: seq<nat>): (F32, nat)
    requires |vs| == |ids| > 0
  {
    (NpMax(vs), LowestId(vs, ids, NpMax(vs)))
  }

  lemma {:induction false} SelectIsSelected(vs: seq<F32>, ids: seq<nat>)
    requires |vs| == |ids| > 0 && NaNFree(vs) && IdsInRange(ids)
    ensures Select(vs, ids).0.Ord? && Selected(vs, ids, Select(vs, ids).0.o, Select(vs, ids).1)
  {
    NpMaxIsMax(vs);
    LowestIdIsLowest(vs, ids, NpMax(vs));
    var j :| 0 <= j < |vs| && vs[j] == NpMax(vs);
    assert LowestId(vs, ids, NpMax(vs)) <= ids[j] < INT_MAX;
  }

  /** The winner of two lists is the better of the two winners. */
  lemma {:induction false} SelectedAppend(vs: seq<F32>, ids: seq<nat>, n: nat, v: Ordinal, i: nat, w: Ordinal, k: nat)
    requires |vs| == |ids| && n <= |vs|
    requires Selected(vs[..n], ids[..n], v, i) && Selected(vs[n..], ids[n..], w, k)
    ensures if w > v || (w == v && k < i) then Selected(vs, ids, w, k) else Selected(vs, ids, v, i)
  {
    var a :| 0 <= a < n && ids[..n][a] == i && vs[..n][a] == Ord(v);
    var b :| 0 <= b < |vs| - n && ids[n..][b] == k && vs[n..][b] == Ord(w);
    assert ids[a] == i && vs[a] == Ord(v) && ids[n + b] == k && vs[n + b] == Ord(w);
    forall j | 0 <= j < |ids|
      ensures Beats(v, i, vs[j], ids[j]) || Beats(w, k, vs[j], ids[j])
    {
      if j < n { assert Beats(v, i, vs[..n][j], ids[..n][j]); } else { assert Beats(w, k, vs[n..][j - n],
          ids[n..][j - n]); }
    }
  }

  /** final_select: chunk by chunk, keeping the best value and the lowest id; NaN never matches, and an id that
  stayed at INT_MAX becomes local id 0. The result does not depend on the order of the list or on the chunk size. */
  method FinalSelect(vs: seq<F32>, ids: seq<nat>, chunk: nat) returns (bestV: Ordinal, bestI: nat)
    requires |vs| == |ids| && chunk > 0 && IdsInRange(ids)
    ensures vs != [] && NaNFree(vs) ==> Selected(vs, ids, bestV, bestI)
    ensures bestI in ids || bestI == 0
  {
    bestV, bestI := -INF, INT_MAX;
    var c := 0;
    while c < |vs|
      invariant 0 <= c <= |vs|
      invariant c == 0 ==> bestV == -INF && bestI == INT_MAX
      invariant c > 0 && NaNFree(vs) ==> Selected(vs[..c], ids[..c], bestV, bestI)
      invariant bestI in ids || bestI == INT_MAX
    {
      var e := if c + chunk < |vs| then c + chunk else |vs|;
      var mx := NpMax(vs[c..e]);
      var im := LowestId(vs[c..e], ids[c..e], mx);
      ChunkIds(vs, ids, c, e, mx);
      if NaNFree(vs) {
        ChunkWinner(vs, ids, c, e, bestV, bestI);
      }
      if mx.Ord? && (mx.o > bestV || (mx.o == bestV && im < bestI)) {
        bestV, bestI := mx.o, im;
      }
      c := e;
    }
    assert vs[..|vs|] == vs && ids[..|ids|] == ids;
    if bestI == INT_MAX {
      if vs != [] && NaNFree(vs) { SelectedInRange(vs, ids, bestV, bestI); }
      bestI := 0;
    }
  }

  lemma {:induction false} SelectedInRange(vs: seq<F32>, ids: seq<nat>, v: Ordinal, i: nat)
    requires |vs| == |ids| && IdsInRange(ids) && Selected(vs, ids, v, i)
    ensures i < INT_MAX
  {
  }

  lemma {:induction false} ChunkIds(vs: seq<F32>, ids: seq<nat>, c: nat, e: nat, mx: F32)
    requires |vs| == |ids| && c < e <= |vs| && IdsInRange(ids)
    ensures LowestId(vs[c..e], ids[c..e], mx) in ids || LowestId(vs[c..e], ids[c..e], mx) == INT_MAX
  {
    LowestIdIsLowest(vs[c..e], ids[c..e], mx);
  }

  /** One chunk of the loop, for NaN-free values. */
  lemma {:induction false} ChunkWinner(vs: seq<F32>, ids: seq<nat>, c: nat, e: nat, v: Ordinal, i: nat)
    requires |vs| == |ids| && c < e <= |vs| && NaNFree(vs) && IdsInRange(ids)
    requires if c == 0 then v == -INF && i == INT_MAX else Selected(vs[..c], ids[..c], v, i)
    ensures var mx := NpMax(vs[c..e]);
            var im := LowestId(vs[c..e], ids[c..e], mx);
            && mx.Ord?
            && if mx.o > v || (mx.o == v && im < i) then Selected(vs[..e], ids[..e], mx.o, im)
               else Selected(vs[..e], ids[..e], v, i)
  {
    SelectIsSelected(vs[c..e], ids[c..e]);
    var mx := NpMax(vs[c..e]);
    var im := LowestId(vs[c..e], ids[c..e], mx);
    SelectedInRange(vs[c..e], ids[c..e], mx.o, im);
    if c == 0 {
      assert vs[c..e] == vs[..e] && ids[c..e] == ids[..e];
    } else {
      assert vs[..e][..c] == vs[..c] && ids[..e][..c] == ids[..c];
      assert vs[..e][c..] == vs[c..e] && ids[..e][c..] == ids[c..e];
      SelectedAppend(vs[..e], ids[..e], c, v, i, mx.o, im);
    }
  }

  // ---------------------------------------------------------------------------------------------- sublists by id

  function Range(n: nat): (r: seq<nat>)
    ensures |r| == n && forall i :: 0 <= i < n ==> r[i] == i
  {
    seq(n, i => i)
  }

  /** The values of the listed ids. */
  function At(full: seq<F32>, ids: seq<nat>): (vs: seq<F32>)
    requires forall j :: 0 <= j < |ids| ==> ids[j] < |full|
    ensures |vs| == |ids| && forall j :: 0 <= j < |ids| ==> vs[j] == full[ids[j]]
  {
    seq(|ids|, j requires 0 <= j < |ids| => full[ids[j]])
  }

  /** A winner that survives in a sublist wins there, whatever else is in the list and in whatever order. */
  lemma {:induction false} WinnerOfSublist(full: seq<F32>, ids: seq<nat>, v: Ordinal, i: nat)
    requires Selected(full, Range(|full|), v, i)
    requires (forall j :: 0 <= j < |ids| ==> ids[j] < |full|) && i in ids
    ensures Selected(At(full, ids), ids, v, i)
  {
    var a :| 0 <= a < |full| && Range(|full|)[a] == i && full[a] == Ord(v);
    var j :| 0 <= j < |ids| && ids[j] == i;
    assert At(full, ids)[j] == Ord(v);
    forall k | 0 <= k < |ids|
      ensures Beats(v, i, At(full, ids)[k], ids[k])
    {
      assert Beats(v, i, full[ids[k]], Range(|full|)[ids[k]]);
    }
  }

  // ---------------------------------------------------------------------------------------------- ranks

  /** The concatenation of the shards, in rank order. */
  function Concat(shards: seq<seq<F32>>): seq<F32>
  {
    if shards == [] then [] else Concat(shards[..|shards| - 1]) + shards[|shards| - 1]
  }

  /** Where each shard starts in the vocabulary: contiguous and ascending. */
  ghost predicate ContiguousStarts(shards: seq<seq<F32>>, starts: seq<nat>)
  {
    |starts| == |shards| && forall r :: 0 <= r < |shards| ==> starts[r] == |Concat(shards[..r])|
  }

  /** reduce_ranks, one row: the first rank with the largest value, and its id plus the start of its shard. */
  function FirstMax(vals: seq<Ordinal>): (r: nat)
    requires vals != []
    ensures r < |vals|
    ensures forall k :: 0 <= k < |vals| ==> vals[k] <= vals[r] && (vals[k] == vals[r] ==> r <= k)
  {
    if |vals| == 1 then 0
    else
      var n := |vals| - 1;
      var r := FirstMax(vals[..n]);
      assert forall k :: 0 <= k < n ==> vals[k] == vals[..n][k];
      if vals[n] > vals[r] then n else r
  }

  function ReduceRanks(vals: seq<Ordinal>, idxs: seq<nat>, starts: seq<nat>): nat
    requires |vals| == |idxs| == |starts| > 0
  {
    idxs[FirstMax(vals)] + starts[FirstMax(vals)]
  }

  ghost predicate LocalWinners(shards: seq<seq<F32>>, vals: seq<Ordinal>, idxs: seq<nat>)
  {
    |vals| == |idxs| == |shards| &&
        forall r :: 0 <= r < |shards| ==> Selected(shards[r], Range(|shards[r]|), vals[r], idxs[r])
  }

  ghost predicate GlobalWinner(shards: seq<seq<F32>>, v: Ordinal, i: nat)
  {
    Selected(Concat(shards), Range(|Concat(shards)|), v, i)
  }

  /** The reduction of the local winners is the lowest-id argmax over the whole vocabulary. */
  lemma {:induction false} ReduceRanksIsGlobal(shards: seq<seq<F32>>, vals: seq<Ordinal>, idxs: seq<nat>,
      starts: seq<nat>)
    requires shards != [] && LocalWinners(shards, vals, idxs) && ContiguousStarts(shards, starts)
    ensures GlobalWinner(shards, vals[FirstMax(vals)], ReduceRanks(vals, idxs, starts))
    decreases |shards|
  {
    var n := |shards| - 1;
    LastRank(shards, vals, idxs, starts);
    if n == 0 {
      assert shards[..0] == [];
    } else {
      ShardsBefore(shards, vals, idxs, starts);
      ReduceRanksIsGlobal(shards[..n], vals[..n], idxs[..n], starts[..n]);
      AddRank(shards, vals, idxs, starts);
    }
  }

  /** The last rank's winner under global ids. */
  lemma {:induction false} LastRank(shards: seq<seq<F32>>, vals: seq<Ordinal>, idxs: seq<nat>, starts: seq<nat>)
    requires shards != [] && LocalWinners(shards, vals, idxs) && ContiguousStarts(shards, starts)
    ensures var n, full := |shards| - 1, Concat(shards);
            && starts[n] <= |full| && idxs[n] + starts[n] >= starts[n]
            && Selected(full[starts[n]..], Range(|full|)[starts[n]..], vals[n], idxs[n] + starts[n])
    ensures |shards| == 1 ==> GlobalWinner(shards, vals[0], idxs[0] + starts[0])
  {
    var n, full := |shards| - 1, Concat(shards);
    assert full[starts[n]..] == shards[n];
    ShiftWinner(shards[n], vals[n], idxs[n], starts[n], full);
    if n == 0 {
      assert shards[..0] == [];
      assert full[0..] == full && Range(|full|)[0..] == Range(|full|);
    }
  }

  lemma {:induction false} AddRank(shards: seq<seq<F32>>, vals: seq<Ordinal>, idxs: seq<nat>, starts: seq<nat>)
    requires |shards| > 1 && |vals| == |idxs| == |starts| == |shards|
    requires var n := |shards| - 1;
             && starts[n] == |Concat(shards[..n])|
             && Concat(shards)[..starts[n]] == Concat(shards[..n])
             && GlobalWinner(shards[..n], vals[..n][FirstMax(vals[..n])], ReduceRanks(vals[..n], idxs[..n],
                 starts[..n]))
             && Selected(Concat(shards)[starts[n]..], Range(|Concat(shards)|)[starts[n]..], vals[n],
                 idxs[n] + starts[n])
    ensures GlobalWinner(shards, vals[FirstMax(vals)], ReduceRanks(vals, idxs, starts))
  {
    var n := |shards| - 1;
    RankStep(vals, n);
    var r := FirstMax(vals[..n]);
    LastShard(Concat(shards), starts[n], vals[r], idxs[r] + starts[r], vals[n], idxs[n] + starts[n]);
  }

  lemma {:induction false} ShardsBefore(shards: seq<seq<F32>>, vals: seq<Ordinal>, idxs: seq<nat>, starts: seq<nat>)
    requires |shards| > 1 && LocalWinners(shards, vals, idxs) && ContiguousStarts(shards, starts)
    ensures var n := |shards| - 1;
            && LocalWinners(shards[..n], vals[..n], idxs[..n]) && ContiguousStarts(shards[..n], starts[..n])
            && Concat(shards)[..starts[n]] == Concat(shards[..n])
  {
    var n := |shards| - 1;
    assert forall r :: 0 <= r < n ==> shards[..n][..r] == shards[..r];
  }

  /** The winner before the last shard against the winner in it. */
  lemma {:induction false} LastShard(full: seq<F32>, m: nat, v: Ordinal, i: nat, w: Ordinal, k: nat)
    requires m <= |full| && k >= m
    requires Selected(full[..m], Range(m), v, i) && Selected(full[m..], Range(|full|)[m..], w, k)
    ensures if w > v then Selected(full, Range(|full|), w, k) else Selected(full, Range(|full|), v, i)
  {
    assert Range(|full|)[..m] == Range(m);
    WinnerBelow(full[..m], Range(m), v, i, m);
    SelectedAppend(full, Range(|full|), m, v, i, w, k);
  }

  lemma {:induction false} RankStep(vals: seq<Ordinal>, n: nat)
    requires |vals| == n + 1 && n > 0
    ensures var r := FirstMax(vals[..n]); FirstMax(vals) == if vals[n] > vals[r] then n else r
  {
  }

  lemma {:induction false} WinnerBelow(vs: seq<F32>, ids: seq<nat>, v: Ordinal, i: nat, m: nat)
    requires |vs| == |ids| && Selected(vs, ids, v, i) && forall j :: 0 <= j < |ids| ==> ids[j] < m
    ensures i < m
  {
  }

  /** A local winner is the winner of its stretch of the vocabulary under global ids. */
  lemma {:induction false} ShiftWinner(shard: seq<F32>, v: Ordinal, i: nat, start: nat, full: seq<F32>)
    requires Selected(shard, Range(|shard|), v, i)
    requires |full| == start + |shard| && full[start..] == shard
    ensures Selected(full[start..], Range(|full|)[start..], v, i + start)
  {
    var ids := Range(|full|)[start..];
    var a :| 0 <= a < |shard| && Range(|shard|)[a] == i && shard[a] == Ord(v);
    assert ids[a] == i + start;
    forall j | 0 <= j < |shard|
      ensures Beats(v, i + start, shard[j], ids[j])
    {
      assert Beats(v, i, shard[j], Range(|shard|)[j]);
    }
  }
}
