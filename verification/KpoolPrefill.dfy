/** Compressing the pools of a prefill batch (overlay/sparse_attn_indexer_kpool.py): one program per token of the whole
batch, each gathering the pool that ends at it from the batch itself. */
module KpoolPrefill {
  import opened Arith
  import opened Basics
  import opened KpoolRing

  /** A program writes if its token has a cache slot and a whole pool lies before it in the batch. */
  predicate Writes<T>(g: Geometry, toks: seq<Token<T>>, t: nat)
    requires t < |toks|
  {
    toks[t].cacheLoc >= 0 && t + 1 >= g.pool
  }

  /** The pool it gathers: the batch's last g.pool tokens up to its own. */
  function Pooled<T>(g: Geometry, toks: seq<Token<T>>, t: nat): (items: seq<T>)
    requires g.Valid() && t < |toks| && Writes(g, toks, t)
    ensures |items| == g.pool
  {
    seq(g.pool, j requires 0 <= j < g.pool => toks[t + 1 - g.pool + j].item)
  }

  ghost predicate WritesApart<T>(g: Geometry, toks: seq<Token<T>>)
  {
    forall t: nat, u: nat :: t < u < |toks| && Writes(g, toks, t) && Writes(g, toks, u) ==>
      toks[t].cacheLoc != toks[u].cacheLoc
  }

  ghost predicate WritesTo<T>(g: Geometry, toks: seq<Token<T>>, t: nat, c: int)
    requires t < |toks|
  {
    Writes(g, toks, t) && toks[t].cacheLoc == c
  }

  /** The cache after the programs in `done`: their pools are in their slots, slots no program writes are as before. */
  ghost predicate Compressed<T>(g: Geometry, toks: seq<Token<T>>, done: seq<nat>, before: Cache<T>, after: Cache<T>)
    requires g.Valid() && forall i :: 0 <= i < |done| ==> done[i] < |toks|
  {
    && (forall t: nat, c: int :: t in done && WritesTo(g, toks, t, c) ==> c in after && after[c] == Pooled(g, toks, t))
    && (forall c: int :: (forall t: nat :: t < |toks| ==> !WritesTo(g, toks, t, c)) ==>
          (c in after <==> c in before) && (c in before ==> after[c] == before[c]))
  }

  lemma {:induction false} CompressStep<T>(g: Geometry, toks: seq<Token<T>>, done: seq<nat>, t: nat, start: Cache<T>,
                                           before: Cache<T>, after: Cache<T>)
    requires g.Valid() && WritesApart(g, toks) && t < |toks| && forall i :: 0 <= i < |done| ==> done[i] < |toks|
    requires Compressed(g, toks, done, start, before)
    requires after == if Writes(g, toks, t) then before[toks[t].cacheLoc := Pooled(g, toks, t)] else before
    ensures Compressed(g, toks, done + [t], start, after)
  {
    forall u: nat, c: int | u in done + [t] && WritesTo(g, toks, u, c)
      ensures c in after && after[c] == Pooled(g, toks, u)
    {
      if u != t { assert u in done && !WritesTo(g, toks, t, c); }
    }
    forall c: int | forall u: nat :: u < |toks| ==> !WritesTo(g, toks, u, c)
      ensures (c in after <==> c in start) && (c in start ==> after[c] == start[c])
    {
      assert !WritesTo(g, toks, t, c);
    }
  }

  /** The pool cache as the kernel updates it in place. */
  class PoolCache<T> {
    const g: Geometry
    var cache: Cache<T>

    constructor (g: Geometry, cache: Cache<T>)
      ensures this.g == g && this.cache == cache
    {
      this.g, this.cache := g, cache;
    }

    /** _kpool_compress_insert: nothing for a batch shorter than a pool, else one program per token, in whatever order
    they run. */
    method CompressInsert(toks: seq<Token<T>>, order: seq<nat>)
      requires g.Valid() && WritesApart(g, toks)
      requires (forall i :: 0 <= i < |order| ==> order[i] < |toks|) && forall t: nat :: t < |toks| ==> t in order
      modifies this
      ensures Compressed(g, toks, order, old(cache), cache)
    {
      if |toks| < g.pool { return; }
      ghost var start := cache;
      var i := 0;
      while i < |order|
        invariant 0 <= i <= |order| && Compressed(g, toks, order[..i], start, cache)
      {
        var t := order[i];
        ghost var before := cache;
        if Writes(g, toks, t) { cache := cache[toks[t].cacheLoc := Pooled(g, toks, t)]; }
        CompressStep(g, toks, order[..i], t, start, before, cache);
        assert order[..i + 1] == order[..i] + [t];
        i := i + 1;
      }
      assert order[..i] == order;
    }
  }

  // ---------------------------------------------------------------------------------------------- per request

  /** Padding has no cache slot. */
  ghost predicate NoSlots<T>(ws: seq<Work<T>>)
  {
    forall k :: 0 <= k < |ws| && ws[k].Padding? ==> ws[k].junk.cacheLoc < 0
  }

  /** No two programs of a batch write the same slot. */
  lemma {:induction false} PoolsAreApart<T>(g: Geometry, loc: (nat, nat) -> nat, ws: seq<Work<T>>)
    requires g.Valid() && Injective(loc) && NoSlots(ws) && Contiguous(ws)
    ensures WritesApart(g, TokensOf(g, loc, ws))
  {
    var toks := TokensOf(g, loc, ws);
    forall t: nat, u: nat | t < u < |toks| && Writes(g, toks, t) && Writes(g, toks, u)
      ensures toks[t].cacheLoc != toks[u].cacheLoc
    {
      var a, b := ws[t], ws[u];
      assert a.Real? && b.Real? && PoolEnd(g, a.pos) && PoolEnd(g, b.pos);
      if a.own == b.own {
        assert b.pos == a.pos + (u - t);
        DivApart(g, a.pos, b.pos);
      }
      assert loc(a.own, a.pos / g.pool) != loc(b.own, b.pos / g.pool);
    }
  }

  /** The slots of one request's pools in the cache. */
  ghost predicate SeesPools<T(!new)>(loc: (nat, nat) -> nat, all: Cache<T>, b: nat, cache: Cache<T>)
  {
    forall p: nat :: (loc(b, p) in all <==> p in cache) && (p in cache ==> all[loc(b, p)] == cache[p])
  }

  /** Token k of the chunk ends pool p. */
  ghost predicate Ends(g: Geometry, pos: nat, k: nat, p: nat)
    requires g.Valid()
  {
    PoolEnd(g, pos + k) && (pos + k) / g.pool == p
  }

  lemma {:induction false} ChunkHit<T>(g: Geometry, cache: Cache<T>, pos: nat, chunk: seq<T>, n: nat, k: nat, p: nat)
    requires g.Valid() && k < n <= |chunk| && Ends(g, pos, k, p) && k + 1 >= g.pool
    ensures p in CompressChunk(g, cache, pos, chunk, n)
    ensures CompressChunk(g, cache, pos, chunk, n)[p] == chunk[k + 1 - g.pool..k + 1]
  {
    if k + 1 < n {
      ChunkHit(g, cache, pos, chunk, n - 1, k, p);
      if PoolEnd(g, pos + n - 1) { DivApart(g, pos + n - 1, pos + k); }
    }
  }

  lemma {:induction false} ChunkMiss<T>(g: Geometry, cache: Cache<T>, pos: nat, chunk: seq<T>, n: nat, p: nat)
    requires g.Valid() && n <= |chunk| && forall k: nat :: k < n ==> !Ends(g, pos, k, p)
    ensures p in CompressChunk(g, cache, pos, chunk, n) <==> p in cache
    ensures p in cache ==> CompressChunk(g, cache, pos, chunk, n)[p] == cache[p]
  {
    if n > 0 {
      ChunkMiss(g, cache, pos, chunk, n - 1, p);
      assert !Ends(g, pos, n - 1, p);
    }
  }

  /** A program of the request's own chunk gathers the request's own items: the chunk starts on a pool boundary, so no
  token of the request before it in the batch is reached. */
  lemma {:induction false} OwnPool<T>(g: Geometry, loc: (nat, nat) -> nat, ws: seq<Work<T>>, b: nat, lo: nat, pos: nat,
                                      chunk: seq<T>, k: nat, p: nat)
    requires g.Valid() && Brings(ws, b, lo, pos, chunk) && pos % g.pool == 0 && k < |chunk| && Ends(g, pos, k, p)
    ensures k + 1 >= g.pool && WritesTo(g, TokensOf(g, loc, ws), lo + k, loc(b, p))
    ensures Pooled(g, TokensOf(g, loc, ws), lo + k) == chunk[k + 1 - g.pool..k + 1]
  {
    PoolEndAfter(g, pos, pos + k);
    BringsAt(ws, b, lo, pos, chunk, k);
    var toks, from := TokensOf(g, loc, ws), k + 1 - g.pool;
    forall t | lo + from <= t <= lo + k
      ensures toks[t].item == chunk[t - lo]
    {
      BringsAt(ws, b, lo, pos, chunk, t - lo);
    }
  }

  lemma {:induction false} ForeignWrites<T>(g: Geometry, loc: (nat, nat) -> nat, ws: seq<Work<T>>, b: nat, lo: nat,
                                            pos: nat, chunk: seq<T>, p: nat)
    requires g.Valid() && Injective(loc) && NoSlots(ws) && Brings(ws, b, lo, pos, chunk)
    requires forall k: nat :: k < |chunk| ==> !Ends(g, pos, k, p)
    ensures forall t: nat :: t < |ws| ==> !WritesTo(g, TokensOf(g, loc, ws), t, loc(b, p))
  {
    forall t: nat | t < |ws|
      ensures !WritesTo(g, TokensOf(g, loc, ws), t, loc(b, p))
    {
      if ws[t].Real? && PoolEnd(g, ws[t].pos) && loc(ws[t].own, ws[t].pos / g.pool) == loc(b, p) {
        BringsAt(ws, b, lo, pos, chunk, t - lo);
        assert Ends(g, pos, t - lo, p);
        assert false;
      }
    }
  }

  /** After the launch each request sees its own pools with its own chunk compressed, as it would alone; a request that
  brings nothing sees what it saw. */
  lemma {:induction false} CompressIsPerRequest<T(!new)>(g: Geometry, loc: (nat, nat) -> nat, ws: seq<Work<T>>,
      order: seq<nat>, before: Cache<T>, after: Cache<T>, b: nat, lo: nat, pos: nat, chunk: seq<T>, cache: Cache<T>)
    requires g.Valid() && Injective(loc) && NoSlots(ws) && Brings(ws, b, lo, pos, chunk) && pos % g.pool == 0
    requires (forall i :: 0 <= i < |order| ==> order[i] < |ws|) && forall t: nat :: t < |ws| ==> t in order
    requires Compressed(g, TokensOf(g, loc, ws), order, before, after) && SeesPools(loc, before, b, cache)
    ensures SeesPools(loc, after, b, CompressChunk(g, cache, pos, chunk, |chunk|))
  {
    var alone := CompressChunk(g, cache, pos, chunk, |chunk|);
    forall p: nat
      ensures (loc(b, p) in after <==> p in alone) && (p in alone ==> after[loc(b, p)] == alone[p])
    {
      if k: nat :| k < |chunk| && Ends(g, pos, k, p) {
        OwnPool(g, loc, ws, b, lo, pos, chunk, k, p);
        ChunkHit(g, cache, pos, chunk, |chunk|, k, p);
      } else {
        ForeignWrites(g, loc, ws, b, lo, pos, chunk, p);
        ChunkMiss(g, cache, pos, chunk, |chunk|, p);
      }
    }
  }
}
