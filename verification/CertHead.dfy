/** The candidate compaction of overlay/glm_cert_head.py (_select_kernel), under every interleaving of its blocks.

Each block counts its candidates, reserves that many slots with one atomic add, and every lane with a candidate stores
it at the reserved base plus its prefix sum.  Blocks run in any order and their stores interleave freely. */
module CertHead {
  import opened Arith
  import opened Basics
  import opened CertBound
  import CertMath

  // ---------------------------------------------------------------------------------------------- the blocks' lists

  /** The candidates in [lo, hi), in ascending order. */
  function Candidates(flags: seq<bool>, lo: nat, hi: nat): (c: seq<nat>)
    requires lo <= hi <= |flags|
    ensures forall v :: v in c ==> lo <= v < hi && flags[v]
  {
    if lo == hi then [] else Candidates(flags, lo, hi - 1) + (if flags[hi - 1] then [hi - 1] else [])
  }

  lemma {:induction false} CandidatesSplit(flags: seq<bool>, lo: nat, mid: nat, hi: nat)
    requires lo <= mid <= hi <= |flags|
    ensures Candidates(flags, lo, hi) == Candidates(flags, lo, mid) + Candidates(flags, mid, hi)
  {
    if mid < hi { CandidatesSplit(flags, lo, mid, hi - 1); }
  }

  /** The candidate list of every block of BS tokens from token lo on. */
  function BlockLists(flags: seq<bool>, lo: nat, BS: nat): seq<seq<nat>>
    requires lo <= |flags| && BS > 0
    decreases |flags| - lo
  {
    if lo == |flags| then []
    else
      var hi := if lo + BS < |flags| then lo + BS else |flags|;
      [Candidates(flags, lo, hi)] + BlockLists(flags, hi, BS)
  }

  function Flatten(blocks: seq<seq<nat>>): seq<nat>
  {
    if blocks == [] then [] else blocks[0] + Flatten(blocks[1..])
  }

  /** The blocks together hold the candidates in ascending order. */
  lemma {:induction false} BlocksHoldCandidates(flags: seq<bool>, lo: nat, BS: nat)
    requires lo <= |flags| && BS > 0
    ensures Flatten(BlockLists(flags, lo, BS)) == Candidates(flags, lo, |flags|)
    decreases |flags| - lo
  {
    if lo < |flags| {
      var hi := if lo + BS < |flags| then lo + BS else |flags|;
      BlocksHoldCandidates(flags, hi, BS);
      CandidatesSplit(flags, lo, hi, |flags|);
      assert BlockLists(flags, lo, BS)[1..] == BlockLists(flags, hi, BS);
    }
  }

  /** The first token of block b, and the end of the block. */
  function BlockStart(BS: nat, b: nat): nat { b * BS }

  function BlockEnd(flags: seq<bool>, BS: nat, b: nat): (hi: nat)
  {
    Min(BlockStart(BS, b) + BS, |flags|)
  }

  lemma BlockStartStep(BS: nat, b: nat)
    ensures BlockStart(BS, b) == if b == 0 then 0 else BS + BlockStart(BS, b - 1)
  {
    if b > 0 { MulSum(b - 1, 1, BS); }
  }

  /** Block b of the list covers those tokens. */
  lemma {:induction false} BlockAt(flags: seq<bool>, lo: nat, BS: nat, b: nat)
    requires BS > 0 && lo + BlockStart(BS, b) < |flags|
    ensures b < |BlockLists(flags, lo, BS)|
    ensures BlockLists(flags, lo, BS)[b] ==
            Candidates(flags, lo + BlockStart(BS, b), Min(lo + BlockStart(BS, b) + BS, |flags|))
    decreases b
  {
    hide BlockStart, BlockLists, Candidates;
    BlockStartStep(BS, b);
    FirstBlock(flags, lo, BS);
    if b > 0 { BlockAt(flags, lo + BS, BS, b - 1); }
  }

  lemma {:induction false} FirstBlock(flags: seq<bool>, lo: nat, BS: nat)
    requires BS > 0 && lo < |flags|
    ensures BlockLists(flags, lo, BS) ==
            [Candidates(flags, lo, Min(lo + BS, |flags|))] + BlockLists(flags, Min(lo + BS, |flags|), BS)
  {
  }

  /** tl.cumsum over the lanes: how many candidates there are in [lo, hi). */
  function Cumsum(flags: seq<bool>, lo: nat, hi: nat): (n: nat)
    requires lo <= hi <= |flags|
  {
    if lo == hi then 0 else Cumsum(flags, lo, hi - 1) + (if flags[hi - 1] then 1 else 0)
  }

  /** The lane's prefix sum is its token's place in the block's list, counted from 1. */
  lemma {:induction false} LanePlace(flags: seq<bool>, lo: nat, hi: nat, v: nat)
    requires lo <= v < hi <= |flags| && flags[v]
    ensures 1 <= Cumsum(flags, lo, v + 1) <= |Candidates(flags, lo, hi)|
    ensures Candidates(flags, lo, hi)[Cumsum(flags, lo, v + 1) - 1] == v
  {
    CountIsLength(flags, lo, v);
    CandidatesSplit(flags, lo, v + 1, hi);
  }

  lemma {:induction false} CountIsLength(flags: seq<bool>, lo: nat, hi: nat)
    requires lo <= hi <= |flags|
    ensures Cumsum(flags, lo, hi) == |Candidates(flags, lo, hi)|
  {
    if lo < hi { CountIsLength(flags, lo, hi - 1); }
  }

  lemma {:induction false} CandidatesDistinct(flags: seq<bool>, lo: nat, hi: nat)
    requires lo <= hi <= |flags|
    ensures NoDup(Candidates(flags, lo, hi))
  {
    if lo < hi {
      CandidatesDistinct(flags, lo, hi - 1);
      var c := Candidates(flags, lo, hi - 1);
      assert forall i :: 0 <= i < |c| ==> c[i] in c;
    }
  }

  /** Where block b's list starts in the flattened list. */
  ghost function Offset(blocks: seq<seq<nat>>, b: nat): nat
    requires b < |blocks|
  {
    if b == 0 then 0 else |blocks[0]| + Offset(blocks[1..], b - 1)
  }

  lemma {:induction false} TokenAtOffset(blocks: seq<seq<nat>>, b: nat, r: nat)
    requires b < |blocks| && r < |blocks[b]|
    ensures Offset(blocks, b) + r < |Flatten(blocks)| && Flatten(blocks)[Offset(blocks, b) + r] == blocks[b][r]
  {
    if b > 0 { TokenAtOffset(blocks[1..], b - 1, r); }
  }

  lemma {:induction false} OffsetsApart(blocks: seq<seq<nat>>, b: nat, c: nat)
    requires b < c < |blocks|
    ensures Offset(blocks, b) + |blocks[b]| <= Offset(blocks, c)
  {
    if b > 0 { OffsetsApart(blocks[1..], b - 1, c - 1); }
  }

  lemma {:induction false} PlaceOfToken(blocks: seq<seq<nat>>, v: nat) returns (b: nat, r: nat)
    requires v in Flatten(blocks)
    ensures b < |blocks| && r < |blocks[b]| && blocks[b][r] == v
  {
    if v in blocks[0] {
      var i :| 0 <= i < |blocks[0]| && blocks[0][i] == v;
      b, r := 0, i;
    } else {
      b, r := PlaceOfToken(blocks[1..], v);
      b := b + 1;
    }
  }

  /** Different places of a duplicate-free list hold different tokens. */
  lemma {:induction false} PlacesDiffer(blocks: seq<seq<nat>>, b: nat, r: nat, c: nat, s: nat)
    requires NoDup(Flatten(blocks)) && b < |blocks| && r < |blocks[b]| && c < |blocks| && s < |blocks[c]| &&
             (b, r) != (c, s)
    ensures blocks[b][r] != blocks[c][s]
  {
    TokenAtOffset(blocks, b, r);
    TokenAtOffset(blocks, c, s);
    if b < c { OffsetsApart(blocks, b, c); } else if c < b { OffsetsApart(blocks, c, b); }
    var i, j := Offset(blocks, b) + r, Offset(blocks, c) + s;
    assert i != j;
    assert if i < j then Flatten(blocks)[i] != Flatten(blocks)[j] else Flatten(blocks)[j] != Flatten(blocks)[i];
  }

  /** Two duplicate-free lists of the same tokens are permutations of each other. */
  lemma {:induction false} SameTokensSameMultiset(a: seq<nat>, b: seq<nat>)
    requires NoDup(a) && NoDup(b)
    requires forall v: nat :: v in a <==> v in b
    ensures multiset(a) == multiset(b)
  {
    forall v: nat
      ensures multiset(a)[v] == multiset(b)[v]
    {
      AtMostOnce(a, v);
      AtMostOnce(b, v);
      assert v in multiset(a) <==> v in a;
      assert v in multiset(b) <==> v in b;
    }
  }

  lemma {:induction false} AtMostOnce(a: seq<nat>, v: nat)
    requires NoDup(a)
    ensures multiset(a)[v] <= 1
  {
    if a != [] {
      AtMostOnce(a[1..], v);
      assert a == [a[0]] + a[1..];
      if a[0] == v {
        assert forall j :: 0 <= j < |a[1..]| ==> a[1..][j] == a[j + 1] != a[0];
        assert v !in a[1..];
        assert v !in multiset(a[1..]);
      }
    }
  }

  // ---------------------------------------------------------------------------------------------- the kernel

  ghost predicate IsCandidateOf(blocks: seq<seq<nat>>, bases: map<nat, nat>, b: nat, r: nat)
  {
    b in bases && b < |blocks| && r < |blocks[b]|
  }

  /** The reserved intervals are disjoint and tile [0, |owner|); owner names each slot's block. */
  ghost predicate Tiled(blocks: seq<seq<nat>>, bases: map<nat, nat>, owner: seq<nat>)
  {
    && (forall b :: b in bases ==> b < |blocks| && bases[b] + |blocks[b]| <= |owner|)
    && (forall k :: 0 <= k < |owner| ==>
          owner[k] in bases && bases[owner[k]] <= k < bases[owner[k]] + |blocks[owner[k]]|)
    && (forall b, k :: b in bases && bases[b] <= k < bases[b] + |blocks[b]| ==> owner[k] == b)
  }

  /** The stores so far are in place, as far as the list reaches. */
  ghost predicate StoredInPlace(blocks: seq<seq<nat>>, bases: map<nat, nat>, stored: set<(nat, nat)>, ids: seq<nat>)
  {
    forall b, r :: (b, r) in stored ==>
      IsCandidateOf(blocks, bases, b, r) && (bases[b] + r < |ids| ==> ids[bases[b] + r] == blocks[b][r])
  }

  lemma {:induction false} ReserveStep(blocks: seq<seq<nat>>, bases: map<nat, nat>, owner: seq<nat>,
                                       stored: set<(nat, nat)>, ids: seq<nat>, b: nat)
    requires Tiled(blocks, bases, owner) && StoredInPlace(blocks, bases, stored, ids) && b < |blocks| && b !in bases
    ensures Tiled(blocks, bases[b := |owner|], owner + seq(|blocks[b]|, _ => b))
    ensures StoredInPlace(blocks, bases[b := |owner|], stored, ids)
  {
  }

  lemma {:induction false} StoreStep(blocks: seq<seq<nat>>, bases: map<nat, nat>, owner: seq<nat>,
                                     stored: set<(nat, nat)>, before: seq<nat>, after: seq<nat>, b: nat, r: nat)
    requires Tiled(blocks, bases, owner) && StoredInPlace(blocks, bases, stored, before)
    requires IsCandidateOf(blocks, bases, b, r)
    requires after == if bases[b] + r < |before| then before[bases[b] + r := blocks[b][r]] else before
    ensures StoredInPlace(blocks, bases, stored + {(b, r)}, after)
  {
    forall c, s | (c, s) in stored && (c, s) != (b, r)
      ensures IsCandidateOf(blocks, bases, c, s) && bases[c] + s != bases[b] + r
    {
      assert owner[bases[c] + s] == c && owner[bases[b] + r] == b;
    }
  }

  class SelectKernel {
    const flags: seq<bool>              // the lanes' test: is the token a candidate of any row
    const BS: nat                       // tokens per block
    const cap: nat
    const ids: array<nat>               // IDS, cap slots
    var ctrl: nat                       // CTRL, the atomic counter
    var bases: map<nat, nat>            // what each block's atomic add returned
    ghost const blocks: seq<seq<nat>>   // the candidate list of each block
    ghost var owner: seq<nat>           // the block that reserved each slot
    ghost var stored: set<(nat, nat)>   // (block, rank) of the stores that have happened

    ghost predicate Valid()
      reads this, ids
    {
      && BS > 0 && blocks == BlockLists(flags, 0, BS)
      && ids.Length == cap && ctrl == |owner| && NoDup(Flatten(blocks))
      && Tiled(blocks, bases, owner)
      && StoredInPlace(blocks, bases, stored, ids[..])
    }

    constructor (flags: seq<bool>, BS: nat, cap: nat)
      requires BS > 0
      ensures Valid() && this.flags == flags && this.BS == BS && this.cap == cap
      ensures ctrl == 0 && bases == map[] && stored == {} && fresh(ids) && forall k :: 0 <= k < cap ==> ids[k] == 0
    {
      this.flags, this.BS, this.cap, blocks := flags, BS, cap, BlockLists(flags, 0, BS);
      ids := new nat[cap](_ => 0);
      ctrl, bases, owner, stored := 0, map[], [], {};
      BlocksHoldCandidates(flags, 0, BS);
      CandidatesDistinct(flags, 0, |flags|);
    }

    /** Block b counts its candidates; if it has any, its atomic add returns the counter before it. */
    method Reserve(b: nat)
      requires Valid() && BlockStart(BS, b) < |flags| && b !in bases
      modifies this
      ensures Valid() && stored == old(stored) && b < |blocks|
      ensures ctrl == old(ctrl) + |blocks[b]|
      ensures bases == if blocks[b] == [] then old(bases) else old(bases)[b := old(ctrl)]
    {
      hide BlockStart, BlockLists, Candidates, Flatten, Tiled, StoredInPlace;
      var lo, hi := BlockStart(BS, b), BlockEnd(flags, BS, b);
      var n := Cumsum(flags, lo, hi);
      BlockAt(flags, 0, BS, b);
      CountIsLength(flags, lo, hi);
      if n > 0 {
        ReserveStep(blocks, bases, owner, stored, ids[..], b);
        bases := bases[b := ctrl];
        ctrl := ctrl + n;
        owner := owner + seq(n, _ => b);
      }
    }

    /** The store of lane v of a block that has its base: at the base plus the lane's prefix sum, less one, unless that
    is beyond the list. It is the block's candidate of that rank. */
    method Store(b: nat, v: nat) returns (ghost r: nat)
      requires Valid() && b in bases && BlockStart(BS, b) <= v < BlockEnd(flags, BS, b) && flags[v]
      modifies ids, this`stored
      ensures Valid() && IsCandidateOf(blocks, bases, b, r) && blocks[b][r] == v && stored == old(stored) + {(b, r)}
      ensures ids[..] == if bases[b] + r < cap then old(ids[..])[bases[b] + r := v] else old(ids[..])
    {
      hide BlockStart, BlockLists, Candidates, Flatten, Tiled, StoredInPlace;
      var c := Cumsum(flags, BlockStart(BS, b), v + 1);
      BlockAt(flags, 0, BS, b);
      LanePlace(flags, BlockStart(BS, b), BlockEnd(flags, BS, b), v);
      r := c - 1;
      var p := bases[b] + c - 1;
      ghost var before := ids[..];
      if p < cap {
        ids[p] := v;
      }
      StoreStep(blocks, bases, owner, stored, before, ids[..], b, r);
      stored := stored + {(b, r)};
    }

    /** Every block with candidates has reserved and all its stores have happened. */
    ghost predicate Finished()
      reads this
    {
      forall b, r :: 0 <= b < |blocks| && 0 <= r < |blocks[b]| ==> (b, r) in stored
    }

    /** If the count fits, the list holds each candidate exactly once and nothing else: it is a permutation of the
    candidates in ascending order. */
    lemma {:induction false} ListIsExact()
      requires Valid() && Finished() && ctrl <= cap
      ensures multiset(ids[..ctrl]) == multiset(Flatten(blocks))
    {
      var list := ids[..ctrl];
      forall k | 0 <= k < ctrl
        ensures IsFrom(blocks, bases, owner, list, k)
      {
        assert (owner[k], k - bases[owner[k]]) in stored;
      }
      forall b, r | 0 <= b < |blocks| && 0 <= r < |blocks[b]|
        ensures blocks[b][r] in list
      {
        assert (b, r) in stored;
        assert list[bases[b] + r] == blocks[b][r];
      }
      ExactList(blocks, bases, owner, list);
    }
  }

  /** Slot k holds the token of its place in the block that owns it. */
  ghost predicate IsFrom(blocks: seq<seq<nat>>, bases: map<nat, nat>, owner: seq<nat>, list: seq<nat>, k: nat)
    requires k < |owner| == |list|
  {
    var b := owner[k];
    b in bases && b < |blocks| && bases[b] <= k < bases[b] + |blocks[b]| && list[k] == blocks[b][k - bases[b]]
  }

  lemma {:induction false} ExactList(blocks: seq<seq<nat>>, bases: map<nat, nat>, owner: seq<nat>, list: seq<nat>)
    requires NoDup(Flatten(blocks)) && |owner| == |list|
    requires forall k :: 0 <= k < |list| ==> IsFrom(blocks, bases, owner, list, k)
    requires forall b, r :: 0 <= b < |blocks| && 0 <= r < |blocks[b]| ==> blocks[b][r] in list
    ensures multiset(list) == multiset(Flatten(blocks))
  {
    forall k, l | 0 <= k < l < |list|
      ensures list[k] != list[l]
    {
      assert IsFrom(blocks, bases, owner, list, k) && IsFrom(blocks, bases, owner, list, l);
      PlacesDiffer(blocks, owner[k], k - bases[owner[k]], owner[l], l - bases[owner[l]]);
    }
    forall v: nat
      ensures v in list <==> v in Flatten(blocks)
    {
      if v in list {
        var k :| 0 <= k < |list| && list[k] == v;
        assert IsFrom(blocks, bases, owner, list, k);
        TokenAtOffset(blocks, owner[k], k - bases[owner[k]]);
      }
      if v in Flatten(blocks) {
        var b, r := PlaceOfToken(blocks, v);
      }
    }
    SameTokensSameMultiset(list, Flatten(blocks));
  }

  // ---------------------------------------------------------------------------------------------- the certified union

  /** What a lane tests: is the token a candidate of any row. */
  function UnionFlags(h: CertMath.Shard, st: CertMath.Step, root: real -> real): (flags: seq<bool>)
    requires h.Valid() && st.Fits(h) && IsRoot(root) && st.IsFinite()
    ensures |flags| == |h.W| && forall v :: 0 <= v < |flags| ==> flags[v] == CertMath.InUnion(h, st, root, v)
  {
    seq(|h.W|, v requires 0 <= v < |h.W| => CertMath.InUnion(h, st, root, v))
  }

  /** The candidates of those flags are the tokens the certificate lists. */
  lemma {:induction false} CandidatesAreUnion(h: CertMath.Shard, st: CertMath.Step, root: real -> real, n: nat)
    requires h.Valid() && st.Fits(h) && IsRoot(root) && st.IsFinite() && n <= |h.W|
    ensures Candidates(UnionFlags(h, st, root), 0, n) == CertMath.UnionIds(h, st, root, n)
  {
    hide CertMath.InUnion;
    if n > 0 { CandidatesAreUnion(h, st, root, n - 1); }
  }

  /** So a finished launch on them whose count fits holds, in some order, exactly the list that cert_local refines. */
  lemma {:induction false} KernelListsUnion(h: CertMath.Shard, st: CertMath.Step, root: real -> real, k: SelectKernel)
    requires h.Valid() && st.Fits(h) && IsRoot(root) && st.IsFinite()
    requires k.Valid() && k.flags == UnionFlags(h, st, root) && k.Finished() && k.ctrl <= k.cap
    ensures k.ctrl <= k.ids.Length
    ensures multiset(k.ids[..k.ctrl]) == multiset(CertMath.UnionIds(h, st, root, |h.W|))
  {
    hide CertMath.InUnion;
    k.ListIsExact();
    BlocksHoldCandidates(k.flags, 0, k.BS);
    CandidatesAreUnion(h, st, root, |h.W|);
  }
}
