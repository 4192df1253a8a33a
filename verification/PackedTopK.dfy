/** The vocab-parallel top-k of overlay/glm_ds_draft.py: local top-k per shard, one packed gather, top-k again.
Values are totally ordered; their 16 bits travel beside the ids. */
module PackedTopK {
  import opened Basics

  // ---------------------------------------------------------------------------------------------- what a top-k returns

  function At(vals: seq<int>, sel: seq<nat>): (r: seq<int>)
    requires forall j :: 0 <= j < |sel| ==> sel[j] < |vals|
    ensures |r| == |sel| && forall j :: 0 <= j < |r| ==> r[j] == vals[sel[j]]
  {
    seq(|sel|, j requires 0 <= j < |sel| => vals[sel[j]])
  }

  ghost predicate Descending(s: seq<int>) { forall i, j :: 0 <= i < j < |s| ==> s[i] >= s[j] }

  /** _topk: k different positions in descending order of value, none left out being larger; ties broken anyhow. */
  ghost predicate IsTopK(vals: seq<int>, k: nat, sel: seq<nat>)
  {
    && |sel| == k && NoDup(sel) && (forall j :: 0 <= j < |sel| ==> sel[j] < |vals|)
    && Descending(At(vals, sel))
    && forall i: nat, j :: i < |vals| && i !in sel && 0 <= j < k ==> vals[i] <= vals[sel[j]]
  }

  // ---------------------------------------------------------------------------------------------- counting

  /** The positions of s with a value of at least t. */
  function Above(s: seq<int>, t: int): (p: set<nat>) { set i: nat | i < |s| && s[i] >= t }

  function Count(s: seq<int>, t: int): (n: nat) { |Above(s, t)| }

  function Below(n: nat): (p: set<nat>)
    ensures |p| == n && forall i: nat :: i in p <==> i < n
  {
    if n == 0 then {} else Below(n - 1) + {n - 1}
  }

  lemma {:induction false} SubsetSize(a: set<nat>, b: set<nat>)
    requires a <= b
    ensures |a| <= |b| && (|a| == |b| ==> a == b)
  {
    assert b == a + (b - a);
    assert |b| == |a| + |b - a|;
    if |a| == |b| { assert b - a == {}; }
  }

  lemma {:induction false} CountLast(s: seq<int>, x: int, t: int)
    ensures Count(s + [x], t) == Count(s, t) + if x >= t then 1 else 0
  {
    assert Above(s + [x], t) == Above(s, t) + if x >= t then {|s|} else {};
  }

  lemma {:induction false} CountAppend(a: seq<int>, b: seq<int>, t: int)
    ensures Count(a + b, t) == Count(a, t) + Count(b, t)
    decreases |b|
  {
    if b == [] {
      assert a + b == a;
    } else {
      var n := |b| - 1;
      CountAppend(a, b[..n], t);
      CountLast(a + b[..n], b[n], t);
      CountLast(b[..n], b[n], t);
      assert a + b[..n] + [b[n]] == a + b && b[..n] + [b[n]] == b;
    }
  }

  lemma {:induction false} CountAtMost(s: seq<int>, t: int)
    ensures Count(s, t) <= |s| && (Count(s, t) == |s| <==> forall j :: 0 <= j < |s| ==> s[j] >= t)
  {
    SubsetSize(Above(s, t), Below(|s|));
    if forall j :: 0 <= j < |s| ==> s[j] >= t { assert Above(s, t) == Below(|s|); }
    if Count(s, t) == |s| {
      forall j: nat | j < |s|
        ensures s[j] >= t
      {
        assert j in Below(|s|);
      }
    }
  }

  function Elements(sel: seq<nat>): (e: set<nat>) { set i | i in sel }

  /** The values from t on among the selected ones are those at selected positions. */
  lemma {:induction false} SelectedCount(vals: seq<int>, sel: seq<nat>, t: int)
    requires NoDup(sel) && forall j :: 0 <= j < |sel| ==> sel[j] < |vals|
    ensures Count(At(vals, sel), t) == |Above(vals, t) * Elements(sel)|
    decreases |sel|
  {
    if sel == [] {
      assert Above(vals, t) * Elements(sel) == {};
    } else {
      var n := |sel| - 1;
      var front, x := sel[..n], sel[n];
      SelectedCount(vals, front, t);
      CountLast(At(vals, front), vals[x], t);
      assert At(vals, sel) == At(vals, front) + [vals[x]];
      ElementsLast(sel);
      MeetLast(Above(vals, t), Elements(front), x);
    }
  }

  lemma ElementsLast(sel: seq<nat>)
    requires NoDup(sel) && sel != []
    ensures var n := |sel| - 1; sel[n] !in Elements(sel[..n]) && Elements(sel) == Elements(sel[..n]) + {sel[n]}
  {
    assert sel == sel[..|sel| - 1] + [sel[|sel| - 1]];
  }

  lemma MeetLast(a: set<nat>, e: set<nat>, x: nat)
    requires x !in e
    ensures |a * (e + {x})| == |a * e| + if x in a then 1 else 0
  {
    assert a * (e + {x}) == a * e + if x in a then {x} else {};
  }

  lemma LeftOutIsSmaller(vals: seq<int>, k: nat, sel: seq<nat>, i: nat, j: nat)
    requires IsTopK(vals, k, sel) && i < |vals| && i !in sel && j < k
    ensures vals[i] <= vals[sel[j]]
  {
  }

  /** A top-k holds as many values from t on as there are, up to k. */
  lemma {:induction false} TopKCount(vals: seq<int>, k: nat, sel: seq<nat>, t: int)
    requires IsTopK(vals, k, sel)
    ensures Count(At(vals, sel), t) == Min(k, Count(vals, t))
  {
    var picked, all := Above(vals, t) * Elements(sel), Above(vals, t);
    SelectedCount(vals, sel, t);
    SubsetSize(picked, all);
    CountAtMost(At(vals, sel), t);
    if |picked| < k {
      var low: nat :| low < k && vals[sel[low]] < t;
      forall i | i in all
        ensures i in picked
      {
        if i !in sel {
          LeftOutIsSmaller(vals, k, sel, i, low);
          assert false;
        }
      }
      assert picked == all;
    }
  }

  /** Descending lists with the same counts are the same list. */
  lemma {:induction false} CountsDetermine(a: seq<int>, b: seq<int>)
    requires Descending(a) && Descending(b) && |a| == |b| && forall t :: Count(a, t) == Count(b, t)
    ensures a == b
  {
    forall j: nat | j < |a|
      ensures a[j] == b[j]
    {
      NotLarger(a, b, j);
      NotLarger(b, a, j);
    }
  }

  lemma {:induction false} NotLarger(a: seq<int>, b: seq<int>, j: nat)
    requires Descending(a) && Descending(b) && |a| == |b| && j < |a| && Count(a, a[j]) == Count(b, a[j])
    ensures a[j] <= b[j]
  {
    SubsetSize(Below(j + 1), Above(a, a[j]));
    if a[j] > b[j] {
      SubsetSize(Above(b, a[j]), Below(j));
      assert false;
    }
  }

  // ---------------------------------------------------------------------------------------------- shards

  /** The rows side by side: the vocabulary of the shards, and what a gather delivers, rank by rank. */
  function Concat<T>(rows: seq<seq<T>>): (r: seq<T>)
  {
    if rows == [] then [] else Concat(rows[..|rows| - 1]) + rows[|rows| - 1]
  }

  /** What each shard sends: its own top-k values. */
  ghost predicate LocalTopKs(shards: seq<seq<int>>, k: nat, sels: seq<seq<nat>>, sent: seq<seq<int>>)
  {
    |sels| == |shards| == |sent| && forall r :: 0 <= r < |shards| ==>
            IsTopK(shards[r], k, sels[r]) && sent[r] == At(shards[r], sels[r])
  }

  /** Up to k, the shards' own top values are as many as the whole vocabulary's. */
  lemma {:induction false} SentCount(shards: seq<seq<int>>, k: nat, sels: seq<seq<nat>>, sent: seq<seq<int>>, t: int)
    requires LocalTopKs(shards, k, sels, sent)
    ensures Min(k, Count(Concat(sent), t)) == Min(k, Count(Concat(shards), t))
    decreases |shards|
  {
    if shards != [] {
      var n := |shards| - 1;
      SentCount(shards[..n], k, sels[..n], sent[..n], t);
      TopKCount(shards[n], k, sels[n], t);
      CountAppend(Concat(sent[..n]), sent[n], t);
      CountAppend(Concat(shards[..n]), shards[n], t);
    }
  }

  /** Top-k of the shards' top-ks: the same values as top-k of the whole vocabulary, whatever the ties. */
  lemma {:induction false} TwoStageIsTopK(shards: seq<seq<int>>, k: nat, sels: seq<seq<nat>>, sent: seq<seq<int>>,
      final: seq<nat>, whole: seq<nat>)
    requires LocalTopKs(shards, k, sels, sent)
    requires IsTopK(Concat(sent), k, final) && IsTopK(Concat(shards), k, whole)
    ensures At(Concat(sent), final) == At(Concat(shards), whole)
  {
    forall t
      ensures Count(At(Concat(sent), final), t) == Count(At(Concat(shards), whole), t)
    {
      TopKCount(Concat(sent), k, final, t);
      TopKCount(Concat(shards), k, whole, t);
      SentCount(shards, k, sels, sent, t);
    }
    CountsDetermine(At(Concat(sent), final), At(Concat(shards), whole));
  }

  /** The global ids that travel with the values: local position plus the shard's start. */
  function Ids(shards: seq<seq<int>>, sels: seq<seq<nat>>): (rows: seq<seq<int>>)
    requires |sels| == |shards|
    ensures |rows| == |shards|
    decreases |shards|
  {
    if shards == [] then []
    else
      var n := |shards| - 1;
      var start := |Concat(shards[..n])|;
      Ids(shards[..n], sels[..n]) + [seq(|sels[n]|, j requires 0 <= j < |sels[n]| => start + sels[n][j])]
  }

  /** Each id is a token of the vocabulary and has the value beside it. */
  ghost predicate Hold(all: seq<int>, ids: seq<int>, values: seq<int>)
  {
    |ids| == |values| && forall j :: 0 <= j < |ids| ==> 0 <= ids[j] < |all| && all[ids[j]] == values[j]
  }

  lemma HoldMore(all: seq<int>, shard: seq<int>, ids: seq<int>, values: seq<int>, row: seq<int>, top: seq<int>)
    requires Hold(all, ids, values) && Hold(all + shard, row, top)
    ensures Hold(all + shard, ids + row, values + top)
  {
  }

  /** Every gathered id really holds the value gathered beside it. */
  lemma {:induction false} IdsHoldValues(shards: seq<seq<int>>, k: nat, sels: seq<seq<nat>>, sent: seq<seq<int>>)
    requires LocalTopKs(shards, k, sels, sent)
    ensures Hold(Concat(shards), Concat(Ids(shards, sels)), Concat(sent))
    decreases |shards|
  {
    if shards != [] {
      var n := |shards| - 1;
      IdsHoldValues(shards[..n], k, sels[..n], sent[..n]);
      IdsRow(shards, sels, n);
      assert Ids(shards, sels)[..n] == Ids(shards[..n], sels[..n]);
      hide Hold;
      RowHolds(Concat(shards[..n]), shards[n], k, sels[n], Ids(shards, sels)[n]);
      HoldMore(Concat(shards[..n]), shards[n], Concat(Ids(shards[..n], sels[..n])), Concat(sent[..n]),
               Ids(shards, sels)[n], sent[n]);
    }
  }

  lemma RowHolds(before: seq<int>, shard: seq<int>, k: nat, sel: seq<nat>, row: seq<int>)
    requires IsTopK(shard, k, sel) && |row| == |sel| && forall j :: 0 <= j < |sel| ==> row[j] == |before| + sel[j]
    ensures Hold(before + shard, row, At(shard, sel))
  {
  }

  /** A position of the concatenation is a row and a place in it. */
  lemma {:induction false} PlaceInConcat<T>(rows: seq<seq<T>>, i: nat) returns (r: nat, j: nat)
    requires i < |Concat(rows)|
    ensures r < |rows| && j < |rows[r]| && i == |Concat(rows[..r])| + j && Concat(rows)[i] == rows[r][j]
    decreases |rows|
  {
    var n := |rows| - 1;
    if i < |Concat(rows[..n])| {
      r, j := PlaceInConcat(rows[..n], i);
      assert rows[..n][..r] == rows[..r];
    } else {
      r, j := n, i - |Concat(rows[..n])|;
    }
  }

  lemma {:induction false} RowInConcat<T>(rows: seq<seq<T>>, r: nat, j: nat)
    requires r < |rows| && j < |rows[r]|
    ensures |Concat(rows[..r])| + j < |Concat(rows)| && Concat(rows)[|Concat(rows[..r])| + j] == rows[r][j]
    decreases |rows|
  {
    var n := |rows| - 1;
    if r < n {
      RowInConcat(rows[..n], r, j);
      assert rows[..n][..r] == rows[..r];
    }
  }

  lemma {:induction false} PrefixesApart<T>(rows: seq<seq<T>>, r: nat, s: nat)
    requires r < s <= |rows|
    ensures |Concat(rows[..r])| + |rows[r]| <= |Concat(rows[..s])|
    decreases s
  {
    assert rows[..s][..s - 1] == rows[..s - 1];
    if r + 1 < s { PrefixesApart(rows, r, s - 1); }
  }

  /** The row of ids of one shard. */
  lemma {:induction false} IdsRow(shards: seq<seq<int>>, sels: seq<seq<nat>>, r: nat)
    requires |sels| == |shards| && r < |shards|
    ensures |Ids(shards, sels)[r]| == |sels[r]|
    ensures forall j :: 0 <= j < |sels[r]| ==> Ids(shards, sels)[r][j] == |Concat(shards[..r])| + sels[r][j]
    decreases |shards|
  {
    var n := |shards| - 1;
    if r < n {
      IdsRow(shards[..n], sels[..n], r);
      assert shards[..n][..r] == shards[..r];
    }
  }

  /** The gathered ids are all different. */
  lemma {:induction false} IdsDiffer(shards: seq<seq<int>>, k: nat, sels: seq<seq<nat>>, sent: seq<seq<int>>, i: nat,
                                     j: nat)
    requires LocalTopKs(shards, k, sels, sent) && i < j < |Concat(Ids(shards, sels))|
    ensures Concat(Ids(shards, sels))[i] != Concat(Ids(shards, sels))[j]
  {
    var rows := Ids(shards, sels);
    var r, a := PlaceInConcat(rows, i);
    var s, b := PlaceInConcat(rows, j);
    IdsRow(shards, sels, r);
    IdsRow(shards, sels, s);
    assert IsTopK(shards[r], k, sels[r]) && IsTopK(shards[s], k, sels[s]);
    if r < s {
      PrefixesApart(shards, r, s);
    } else if s < r {
      PrefixesApart(rows, s, r);
    } else {
      assert sels[r][a] != sels[r][b];
    }
  }

  /** The ids picked from the gathered ones: ids.gather(-1, selected). */
  function Picked(shards: seq<seq<int>>, k: nat, sels: seq<seq<nat>>, sent: seq<seq<int>>, final: seq<nat>)
    : (ids: seq<nat>)
    requires LocalTopKs(shards, k, sels, sent) && forall j :: 0 <= j < |final| ==> final[j] < |Concat(sent)|
    ensures |ids| == |final|
    ensures forall j :: 0 <= j < |ids| ==> ids[j] < |Concat(shards)| && Concat(shards)[ids[j]] == Concat(sent)[final[j]]
  {
    IdsHoldValues(shards, k, sels, sent);
    seq(|final|, j requires 0 <= j < |final| => Concat(Ids(shards, sels))[final[j]])
  }

  /** What a shard does not send is no larger than what it sends, so no larger than any of the final k. */
  lemma {:induction false} UnsentIsSmaller(shards: seq<seq<int>>, k: nat, sels: seq<seq<nat>>, sent: seq<seq<int>>,
                                           final: seq<nat>, r: nat, p: nat, f: nat)
    requires LocalTopKs(shards, k, sels, sent) && IsTopK(Concat(sent), k, final)
    requires r < |shards| && p < |shards[r]| && p !in sels[r] && f < k
    ensures shards[r][p] <= Concat(sent)[final[f]]
  {
    var x := shards[r][p];
    assert IsTopK(shards[r], k, sels[r]);
    if Concat(sent)[final[f]] < x {
      forall j | 0 <= j < k
        ensures sent[r][j] >= x
      {
        LeftOutIsSmaller(shards[r], k, sels[r], p, j);
      }
      CountAtMost(sent[r], x);
      ConcatCounts(sent, r, x);
      CountAtMost(At(Concat(sent), final), x);
      assert At(Concat(sent), final)[f] == Concat(sent)[final[f]];
      TopKCount(Concat(sent), k, final, x);
    }
  }

  lemma {:induction false} ConcatCounts(rows: seq<seq<int>>, r: nat, t: int)
    requires r < |rows|
    ensures Count(Concat(rows), t) >= Count(rows[r], t)
    decreases |rows|
  {
    var n := |rows| - 1;
    CountAppend(Concat(rows[..n]), rows[n], t);
    if r < n { ConcatCounts(rows[..n], r, t); }
  }

  /** The two-stage result is itself a top-k of the whole vocabulary: different tokens, in descending order of value,
  none left out being larger. */
  lemma {:induction false} PickedIsTopK(shards: seq<seq<int>>, k: nat, sels: seq<seq<nat>>, sent: seq<seq<int>>,
                                        final: seq<nat>)
    requires LocalTopKs(shards, k, sels, sent) && IsTopK(Concat(sent), k, final)
    ensures IsTopK(Concat(shards), k, Picked(shards, k, sels, sent, final))
  {
    var ids, all := Picked(shards, k, sels, sent, final), Concat(Ids(shards, sels));
    IdsHoldValues(shards, k, sels, sent);
    forall i, j | 0 <= i < j < k
      ensures ids[i] != ids[j]
    {
      IdsDiffer(shards, k, sels, sent, Min(final[i], final[j]), Max(final[i], final[j]));
    }
    assert At(Concat(shards), ids) == At(Concat(sent), final);
    forall v: nat, f | v < |Concat(shards)| && v !in ids && 0 <= f < k
      ensures Concat(shards)[v] <= Concat(shards)[ids[f]]
    {
      LeftOutOfBoth(shards, k, sels, sent, final, v, f);
    }
  }

  lemma {:induction false} LeftOutOfBoth(shards: seq<seq<int>>, k: nat, sels: seq<seq<nat>>, sent: seq<seq<int>>,
                                         final: seq<nat>, v: nat, f: nat)
    requires LocalTopKs(shards, k, sels, sent) && IsTopK(Concat(sent), k, final)
    requires v < |Concat(shards)| && v !in Picked(shards, k, sels, sent, final) && f < k
    ensures Concat(shards)[v] <= Concat(sent)[final[f]]
  {
    hide Concat, Ids;
    var r, p := PlaceInConcat(shards, v);
    if p in sels[r] {
      var j: nat :| j < |sels[r]| && sels[r][j] == p;
      var g := SentAt(shards, k, sels, sent, r, j);
      var ids := Picked(shards, k, sels, sent, final);
      assert forall h :: 0 <= h < |final| ==> ids[h] == Concat(Ids(shards, sels))[final[h]] && ids[h] in ids;
      LeftOutIsSmaller(Concat(sent), k, final, g, f);
    } else {
      UnsentIsSmaller(shards, k, sels, sent, final, r, p, f);
    }
  }

  /** Where the j-th value of shard r lies in the gathered values, and its id in the gathered ids. */
  lemma {:induction false} SentAt(shards: seq<seq<int>>, k: nat, sels: seq<seq<nat>>, sent: seq<seq<int>>, r: nat,
                                  j: nat)
    returns (g: nat)
    requires LocalTopKs(shards, k, sels, sent) && r < |shards| && j < |sels[r]|
    ensures g < |Concat(sent)| == |Concat(Ids(shards, sels))|
    ensures Concat(sent)[g] == shards[r][sels[r][j]]
    ensures Concat(Ids(shards, sels))[g] == |Concat(shards[..r])| + sels[r][j]
  {
    hide Concat, Ids, IsTopK;
    IdsHoldValues(shards, k, sels, sent);
    SameWidths(Ids(shards, sels), sent, shards, k, sels, r);
    IdsRow(shards, sels, r);
    RowInConcat(sent, r, j);
    RowInConcat(Ids(shards, sels), r, j);
    g := |Concat(sent[..r])| + j;
  }

  lemma {:induction false} SameWidths(ids: seq<seq<int>>, sent: seq<seq<int>>, shards: seq<seq<int>>, k: nat,
                                      sels: seq<seq<nat>>, r: nat)
    requires LocalTopKs(shards, k, sels, sent) && ids == Ids(shards, sels) && r <= |shards|
    ensures |Concat(ids[..r])| == |Concat(sent[..r])|
    decreases r
  {
    if r > 0 {
      SameWidths(ids, sent, shards, k, sels, r - 1);
      IdsRow(shards, sels, r - 1);
      assert ids[..r][..r - 1] == ids[..r - 1] && sent[..r][..r - 1] == sent[..r - 1];
    }
  }

  // ---------------------------------------------------------------------------------------------- the packed gather

  /** A 16-bit pattern read as a signed number, and a number cut to its low 16 bits. */
  function Widen(bits: nat): (v: int)
    requires bits < 65536
    ensures -32768 <= v < 32768
  {
    if bits >= 32768 then bits - 65536 else bits
  }

  function Narrow(v: int): (bits: nat)
    ensures bits < 65536
  {
    v % 65536
  }

  type Bits = b: nat | b < 65536

  /** pack_topk: one row's ids, then its value bits. */
  function Pack(values: seq<Bits>, ids: seq<int>): (row: seq<int>)
    requires |values| == |ids|
    ensures |row| == 2 * |ids|
  {
    ids + seq(|values|, j requires 0 <= j < |values| => Widen(values[j]))
  }

  function PackedRows(values: seq<seq<Bits>>, ids: seq<seq<int>>): (rows: seq<seq<int>>)
    requires |values| == |ids| && forall r :: 0 <= r < |ids| ==> |values[r]| == |ids[r]|
    ensures |rows| == |ids|
  {
    seq(|ids|, r requires 0 <= r < |ids| => Pack(values[r], ids[r]))
  }

  function Narrowed(s: seq<int>): (bits: seq<Bits>)
    ensures |bits| == |s|
  {
    seq(|s|, j requires 0 <= j < |s| => Narrow(s[j]))
  }

  /** n is tp stretches of w. */
  predicate Stretches(n: nat, w: nat, tp: nat)
  {
    if tp == 0 then n == 0 else n >= w && Stretches(n - w, w, tp - 1)
  }

  /** unpack_gathered: view as (rank, 2, k); the first half of each rank's stretch is ids, the second bits. */
  function Unpack(g: seq<int>, k: nat, tp: nat): (r: (seq<Bits>, seq<int>))
    requires Stretches(|g|, 2 * k, tp)
    decreases tp
  {
    if tp == 0 then ([], [])
    else
      var n := |g| - 2 * k;
      var rest := Unpack(g[..n], k, tp - 1);
      (rest.0 + Narrowed(g[n + k..]), rest.1 + g[n..n + k])
  }

  /** One more rank: the gather before it, its ids and its bits. */
  lemma {:induction false} UnpackLast(before: seq<int>, values: seq<Bits>, ids: seq<int>, tp: nat)
    requires |values| == |ids| && Stretches(|before|, 2 * |ids|, tp)
    ensures var g := before + Pack(values, ids);
            && Stretches(|g|, 2 * |ids|, tp + 1)
            && Unpack(g, |ids|, tp + 1) == (Unpack(before, |ids|, tp).0 + values, Unpack(before, |ids|, tp).1 + ids)
  {
    var g, n, k := before + Pack(values, ids), |before|, |ids|;
    assert g[..n] == before && g[n..n + k] == ids && g[n + k..] == Pack(values, ids)[k..];
    NarrowRow(values, ids);
  }

  /** The one packed gather unpacks to exactly what two gathers give, for every number of ranks and every k. */
  lemma {:induction false} OneGatherIsTwo(values: seq<seq<Bits>>, ids: seq<seq<int>>, k: nat)
    requires |values| == |ids| && forall r :: 0 <= r < |ids| ==> |values[r]| == |ids[r]| == k
    ensures var g := Concat(PackedRows(values, ids));
            Stretches(|g|, 2 * k, |ids|) && Unpack(g, k, |ids|) == (Concat(values), Concat(ids))
    decreases |ids|
  {
    if ids != [] {
      hide Unpack, Stretches, Pack;
      var r := |ids| - 1;
      OneGatherIsTwo(values[..r], ids[..r], k);
      assert PackedRows(values, ids)[..r] == PackedRows(values[..r], ids[..r]);
      UnpackLast(Concat(PackedRows(values[..r], ids[..r])), values[r], ids[r], r);
    } else {
      assert PackedRows(values, ids) == [];
    }
  }

  lemma {:induction false} NarrowRow(values: seq<Bits>, ids: seq<int>)
    requires |values| == |ids|
    ensures Narrowed(Pack(values, ids)[|ids|..]) == values
  {
    forall j | 0 <= j < |values|
      ensures Narrow(Widen(values[j])) == values[j]
    {
    }
  }
}
