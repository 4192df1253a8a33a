/** The tail ring of overlay/glm5next_kpool_compress.py: a circular buffer that keeps the raw keys and gate scores of
the pool being built, written by tokens that may still be rejected.

An item is one token's key and score. The compression of a pool is a function of its items, so a cache entry is kept
as the list of items it was computed from. */
module KpoolRing {
  import opened Arith
  import opened Basics

  /** index_kpool > 1, and a ring of at least one pool. */
  datatype Geometry = Geometry(pool: nat, ring: nat)
  {
    predicate Valid() { 2 <= pool <= ring }
  }

  type Cache<T> = map<int, seq<T>>

  // ---------------------------------------------------------------------------------------------- the decode kernel

  datatype Token<T> = Token(item: T, pos: int, tailSlot: int, cacheLoc: int)

  /** All the tail blocks and the pool cache. */
  datatype Memory<T> = Memory(rows: seq<seq<T>>, cache: Cache<T>)

  function BlockOf<T>(g: Geometry, tok: Token<T>): (b: nat)
    requires g.Valid()
  {
    Max(tok.tailSlot, 0) / g.ring
  }

  ghost predicate Shaped<T>(g: Geometry, mem: Memory<T>)
  {
    forall b :: 0 <= b < |mem.rows| ==> |mem.rows[b]| == g.ring
  }

  ghost predicate InBounds<T>(g: Geometry, mem: Memory<T>, toks: seq<Token<T>>)
    requires g.Valid()
  {
    forall t :: 0 <= t < |toks| ==> BlockOf(g, toks[t]) < |mem.rows|
  }

  /** What a pool-completing token compresses: the ring's copies of the pool's earlier tokens, and itself. */
  function Gather<T>(g: Geometry, row: seq<T>, pos: nat, item: T): (items: seq<T>)
    requires g.Valid() && |row| == g.ring && pos % g.pool == g.pool - 1
    ensures |items| == g.pool
  {
    PoolStartsInRange(g, pos);
    seq(g.pool, j requires 0 <= j < g.pool => if j == pos % g.pool then item
        else row[(pos - pos % g.pool + j) % g.ring])
  }

  lemma PoolStartsInRange(g: Geometry, pos: nat)
    requires g.Valid()
    ensures pos - pos % g.pool >= 0
  {
  }

  /** One token of the kernel: the completion reads the ring before the token itself is stashed. */
  function RunToken<T>(g: Geometry, mem: Memory<T>, tok: Token<T>): (r: Memory<T>)
    requires g.Valid() && Shaped(g, mem) && BlockOf(g, tok) < |mem.rows|
    ensures Shaped(g, r) && |r.rows| == |mem.rows|
  {
    var pos, b := Max(tok.pos, 0), BlockOf(g, tok);
    var cache := if tok.cacheLoc >= 0 && tok.pos >= 0 && pos % g.pool == g.pool - 1
                 then mem.cache[tok.cacheLoc := Gather(g, mem.rows[b], pos, tok.item)] else mem.cache;
    var rows := if tok.pos >= 0 && tok.tailSlot >= 0
                then mem.rows[b := mem.rows[b][pos % g.ring := tok.item]] else mem.rows;
    Memory(rows, cache)
  }

  function RunTokens<T>(g: Geometry, mem: Memory<T>, toks: seq<Token<T>>): (r: Memory<T>)
    requires g.Valid() && Shaped(g, mem) && InBounds(g, mem, toks)
    ensures Shaped(g, r) && |r.rows| == |mem.rows|
    decreases |toks|
  {
    if toks == [] then mem
    else
      assert InBounds(g, RunToken(g, mem, toks[0]), toks[1..]);
      RunTokens(g, RunToken(g, mem, toks[0]), toks[1..])
  }

  lemma {:induction false} RunTokensLast<T>(g: Geometry, mem: Memory<T>, toks: seq<Token<T>>, tok: Token<T>)
    requires g.Valid() && Shaped(g, mem) && InBounds(g, mem, toks + [tok])
    ensures InBounds(g, mem, toks) && BlockOf(g, tok) < |mem.rows|
    ensures RunTokens(g, mem, toks + [tok]) == RunToken(g, RunTokens(g, mem, toks), tok)
    decreases |toks|
  {
    assert (toks + [tok])[|toks|] == tok;
    assert forall t :: 0 <= t < |toks| ==> (toks + [tok])[t] == toks[t];
    if toks == [] {
      assert (toks + [tok])[1..] == [];
    } else {
      assert (toks + [tok])[1..] == toks[1..] + [tok];
      RunTokensLast(g, RunToken(g, mem, toks[0]), toks[1..], tok);
    }
  }

  /** The seed kernel keeps token t unless the token one pool ahead is in the same block. */
  predicate Kept<T>(g: Geometry, toks: seq<Token<T>>, t: nat)
    requires g.Valid() && t < |toks|
  {
    toks[t].tailSlot >= 0 &&
    !(t + g.pool < |toks| && toks[t + g.pool].tailSlot >= 0 && BlockOf(g, toks[t + g.pool]) == BlockOf(g, toks[t]))
  }

  ghost predicate KeptApart<T>(g: Geometry, toks: seq<Token<T>>)
    requires g.Valid()
  {
    forall t: nat, u: nat ::
      t < u < |toks| && Kept(g, toks, t) && Kept(g, toks, u) && BlockOf(g, toks[t]) == BlockOf(g, toks[u]) ==>
      toks[t].tailSlot % g.ring != toks[u].tailSlot % g.ring
  }

  ghost predicate Hits<T>(g: Geometry, toks: seq<Token<T>>, t: nat, b: nat, r: nat)
    requires g.Valid() && t < |toks|
  {
    Kept(g, toks, t) && BlockOf(g, toks[t]) == b && toks[t].tailSlot % g.ring == r
  }

  /** The blocks after the programs in `done` have run: their kept tokens are in place, the rest is as it was. */
  ghost predicate Overwritten<T>(g: Geometry, toks: seq<Token<T>>, done: seq<nat>, before: seq<seq<T>>,
      after: seq<seq<T>>)
    requires g.Valid() && (forall i :: 0 <= i < |done| ==> done[i] < |toks|)
  {
    && |after| == |before|
    && (forall b :: 0 <= b < |before| ==> |before[b]| == |after[b]| == g.ring)
    && (forall t: nat, b: nat, r: nat :: t in done && b < |after| && r < g.ring && Hits(g, toks, t, b, r) ==>
            after[b][r] == toks[t].item)
    && (forall b: nat, r: nat ::
          b < |after| && r < g.ring && (forall t: nat :: t < |toks| ==> !Hits(g, toks, t, b, r)) ==>
          after[b][r] == before[b][r])
  }

  ghost predicate Seeded<T>(g: Geometry, toks: seq<Token<T>>, before: seq<seq<T>>, after: seq<seq<T>>)
    requires g.Valid()
  {
    && |after| == |before|
    && (forall b :: 0 <= b < |before| ==> |before[b]| == |after[b]| == g.ring)
    && (forall t: nat, b: nat, r: nat :: t < |toks| && b < |after| && r < g.ring && Hits(g, toks, t, b, r) ==>
            after[b][r] == toks[t].item)
    && (forall b: nat, r: nat ::
          b < |after| && r < g.ring && (forall t: nat :: t < |toks| ==> !Hits(g, toks, t, b, r)) ==>
          after[b][r] == before[b][r])
  }

  lemma {:induction false} SeedStep<T>(g: Geometry, toks: seq<Token<T>>, done: seq<nat>, t: nat, start: seq<seq<T>>,
      before: seq<seq<T>>, after: seq<seq<T>>)
    requires g.Valid() && KeptApart(g, toks) && t < |toks| && (forall i :: 0 <= i < |done| ==> done[i] < |toks|)
    requires Overwritten(g, toks, done, start, before) && BlockOf(g, toks[t]) < |start|
    requires var b, r := BlockOf(g, toks[t]), toks[t].tailSlot % g.ring;
             after == if Kept(g, toks, t) then before[b := before[b][r := toks[t].item]] else before
    ensures Overwritten(g, toks, done + [t], start, after)
  {
    forall u: nat, b: nat, r: nat | u in done + [t] && b < |after| && r < g.ring && Hits(g, toks, u, b, r)
      ensures after[b][r] == toks[u].item
    {
      if u != t {
        assert u in done;
        assert !Hits(g, toks, t, b, r);
      }
    }
    forall b: nat, r: nat | b < |after| && r < g.ring && (forall u: nat :: u < |toks| ==> !Hits(g, toks, u, b, r))
      ensures after[b][r] == start[b][r]
    {
      assert !Hits(g, toks, t, b, r);
    }
  }

  /** The tail blocks and the pool cache as the kernels update them in place. */
  class TailCache<T(0)> {
    const g: Geometry
    const tail: array2<T>
    var cache: Cache<T>

    ghost predicate Valid() reads this { g.Valid() && tail.Length1 == g.ring }

    ghost function Contents(): (mem: Memory<T>)
      reads this, tail
      requires Valid()
      ensures Shaped(g, mem) && |mem.rows| == tail.Length0
    {
      Memory(Rows(tail), cache)
    }

    constructor (g: Geometry, blocks: nat)
      requires g.Valid()
      ensures Valid() && this.g == g && tail.Length0 == blocks && cache == map[] && fresh(tail)
    {
      this.g := g;
      tail := new T[blocks, g.ring];
      cache := map[];
    }

    /** The inner loop over the pool's slots. */
    method ReadPool(b: nat, pos: nat, item: T) returns (items: seq<T>)
      requires Valid() && b < tail.Length0 && pos % g.pool == g.pool - 1
      ensures items == Gather(g, Contents().rows[b], pos, item)
    {
      var slot := pos % g.pool;
      items := [];
      while |items| < g.pool
        invariant |items| <= g.pool
        invariant items == Gather(g, Contents().rows[b], pos, item)[..|items|]
      {
        var j := |items|;
        PoolStartsInRange(g, pos);
        items := items + [if j == slot then item else tail[b, (pos - slot + j) % g.ring]];
      }
    }

    /** _kpool_decode_update_batched_kernel: the tokens in order, each completing its pool before it is stashed. */
    method Decode(toks: seq<Token<T>>)
      requires Valid() && InBounds(g, Contents(), toks)
      modifies this`cache, tail
      ensures Valid() && Contents() == RunTokens(g, old(Contents()), toks)
    {
      ghost var start := Contents();
      var t := 0;
      while t < |toks|
        invariant 0 <= t <= |toks| && Valid()
        invariant InBounds(g, start, toks[..t]) && Contents() == RunTokens(g, start, toks[..t])
      {
        assert toks[..t + 1] == toks[..t] + [toks[t]];
        RunTokensLast(g, start, toks[..t], toks[t]);
        DecodeOne(toks[t]);
        t := t + 1;
      }
      assert toks[..t] == toks;
    }

    /** _kpool_tail_seed_kernel: one program per prefill token, in whatever order they run. */
    method Seed(toks: seq<Token<T>>, order: seq<nat>)
      requires Valid() && InBounds(g, Contents(), toks) && KeptApart(g, toks)
      requires forall i :: 0 <= i < |order| ==> order[i] < |toks|
      requires forall t: nat :: t < |toks| ==> t in order
      modifies tail
      ensures Valid() && Contents().cache == old(Contents()).cache
      ensures Seeded(g, toks, old(Contents()).rows, Contents().rows)
    {
      ghost var start := Contents().rows;
      var i := 0;
      while i < |order|
        invariant 0 <= i <= |order|
        invariant Overwritten(g, toks, order[..i], start, Contents().rows)
      {
        var t := order[i];
        ghost var before := Contents().rows;
        if Kept(g, toks, t) {
          tail[BlockOf(g, toks[t]), toks[t].tailSlot % g.ring] := toks[t].item;
          RowsAfterStore(before, Rows(tail), BlockOf(g, toks[t]), toks[t].tailSlot % g.ring, toks[t].item);
        }
        SeedStep(g, toks, order[..i], t, start, before, Contents().rows);
        assert order[..i + 1] == order[..i] + [t];
        i := i + 1;
      }
      assert order[..i] == order;
    }

    method DecodeOne(tok: Token<T>)
      requires Valid() && BlockOf(g, tok) < tail.Length0
      modifies this`cache, tail
      ensures Valid() && Contents() == RunToken(g, old(Contents()), tok)
    {
      ghost var start := Contents();
      var pos, b := Max(tok.pos, 0), BlockOf(g, tok);
      if tok.cacheLoc >= 0 && tok.pos >= 0 && pos % g.pool == g.pool - 1 {
        var items := ReadPool(b, pos, tok.item);
        cache := cache[tok.cacheLoc := items];
      }
      if tok.pos >= 0 && tok.tailSlot >= 0 {
        tail[b, pos % g.ring] := tok.item;
        RowsAfterStore(start.rows, Rows(tail), b, pos % g.ring, tok.item);
      }
    }
  }

  ghost function Rows<T>(tail: array2<T>): (rows: seq<seq<T>>)
    reads tail
    ensures |rows| == tail.Length0
    ensures forall b, r :: 0 <= b < tail.Length0 && 0 <= r < tail.Length1 ==>
            |rows[b]| == tail.Length1 && rows[b][r] == tail[b, r]
    ensures forall b :: 0 <= b < |rows| ==> |rows[b]| == tail.Length1
  {
    seq(tail.Length0, b requires 0 <= b < tail.Length0 reads tail =>
      seq(tail.Length1, r requires 0 <= r < tail.Length1 reads tail => tail[b, r]))
  }

  lemma RowsAfterStore<T>(before: seq<seq<T>>, after: seq<seq<T>>, b: nat, r: nat, item: T)
    requires b < |before| == |after| && r < |before[b]|
    requires forall c :: 0 <= c < |before| ==> |before[c]| == |after[c]|
    requires forall c, k :: 0 <= c < |before| && 0 <= k < |before[c]| && (c != b || k != r) ==>
            after[c][k] == before[c][k]
    requires after[b][r] == item
    ensures after == before[b := before[b][r := item]]
  {
    forall c | 0 <= c < |before|
      ensures after[c] == before[b := before[b][r := item]][c]
    {
      assert forall k :: 0 <= k < |before[c]| ==> after[c][k] == before[b := before[b][r := item]][c][k];
    }
  }

  // ---------------------------------------------------------------------------------------------- one request

  /** What one verify token does to its request's ring and pool cache (keyed by pool). */
  function VerifyOne<T>(g: Geometry, ring: seq<T>, cache: Cache<T>, pos: nat, item: T): (r: (seq<T>, Cache<T>))
    requires g.Valid() && |ring| == g.ring
    ensures |r.0| == g.ring
  {
    (ring[pos % g.ring := item],
     if pos % g.pool == g.pool - 1 then cache[pos / g.pool := Gather(g, ring, pos, item)] else cache)
  }

  /** What the scheduler hands the kernel for one real token, or a padding row. */
  datatype Work<T> = Real(own: nat, pos: nat, item: T) | Padding(junk: Token<T>)

  /** A padding row fails both gates. */
  predicate IsPadding<T>(tok: Token<T>) { tok.tailSlot < 0 && (tok.cacheLoc < 0 || tok.pos < 0) }

  /** The metadata of a real token: its own block's slot, and a cache slot on the last token of a pool only. */
  function TokenOf<T>(g: Geometry, loc: (nat, nat) -> nat, w: Work<T>): (tok: Token<T>)
    requires g.Valid()
  {
    match w
    case Real(own, pos, item) =>
      Token(item, pos, own * g.ring + pos % g.ring, if pos % g.pool == g.pool - 1 then loc(own, pos / g.pool) else -1)
    case Padding(junk) => junk
  }

  function TokensOf<T>(g: Geometry, loc: (nat, nat) -> nat, ws: seq<Work<T>>): (toks: seq<Token<T>>)
    requires g.Valid()
    ensures |toks| == |ws| && forall k :: 0 <= k < |ws| ==> toks[k] == TokenOf(g, loc, ws[k])
  {
    seq(|ws|, k requires 0 <= k < |ws| => TokenOf(g, loc, ws[k]))
  }

  /** The tokens of one request, in order. */
  function OwnWork<T>(ws: seq<Work<T>>, b: nat): (own: seq<(nat, T)>)
  {
    if ws == [] then []
    else (if ws[0].Real? && ws[0].own == b then [(ws[0].pos, ws[0].item)] else []) + OwnWork(ws[1..], b)
  }

  function VerifyEach<T>(g: Geometry, ring: seq<T>, cache: Cache<T>, work: seq<(nat, T)>): (r: (seq<T>, Cache<T>))
    requires g.Valid() && |ring| == g.ring
    ensures |r.0| == g.ring
    decreases |work|
  {
    if work == [] then (ring, cache)
    else
      var one := VerifyOne(g, ring, cache, work[0].0, work[0].1);
      VerifyEach(g, one.0, one.1, work[1..])
  }

  ghost predicate Injective(loc: (nat, nat) -> nat)
  {
    forall b: nat, p: nat, c: nat, q: nat :: loc(b, p) == loc(c, q) ==> b == c && p == q
  }

  /** The memory seen by one request: its row, and the cache slots of its pools. */
  ghost predicate Sees<T(!new)>(loc: (nat, nat) -> nat, mem: Memory<T>, b: nat, ring: seq<T>, cache: Cache<T>)
  {
    && b < |mem.rows| && mem.rows[b] == ring
    && (forall p: nat :: (loc(b, p) in mem.cache <==> p in cache) && (p in cache ==> mem.cache[loc(b, p)] == cache[p]))
  }

  ghost predicate OwnsBlocks<T>(g: Geometry, mem: Memory<T>, ws: seq<Work<T>>)
  {
    forall k :: 0 <= k < |ws| ==> (if ws[k].Real? then ws[k].own < |mem.rows| else IsPadding(ws[k].junk))
  }

  lemma {:induction false} BlockOfReal<T>(g: Geometry, loc: (nat, nat) -> nat, w: Work<T>)
    requires g.Valid()
    ensures w.Real? ==> BlockOf(g, TokenOf(g, loc, w)) == w.own && TokenOf(g, loc, w).tailSlot >= 0
    ensures w.Padding? && IsPadding(w.junk) ==> BlockOf(g, TokenOf(g, loc, w)) == 0
  {
    if w.Real? {
      SlotBlock(w.own, w.pos % g.ring, g.ring);
    } else if IsPadding(w.junk) {
      assert Max(w.junk.tailSlot, 0) == 0;
    }
  }

  lemma SlotBlock(own: nat, rem: nat, ring: nat)
    requires rem < ring
    ensures own * ring + rem >= 0 && (own * ring + rem) / ring == own
  {
    DivUnique(own * ring + rem, own, rem, ring);
  }

  /** One token of any request leaves every request seeing what that request alone would have computed. */
  lemma {:induction false} TokenIsLocal<T(!new)>(g: Geometry, loc: (nat, nat) -> nat, mem: Memory<T>, w: Work<T>,
      b: nat, ring: seq<T>, cache: Cache<T>)
    requires g.Valid() && Injective(loc) && Shaped(g, mem) && |ring| == g.ring
    requires if w.Real? then w.own < |mem.rows| else IsPadding(w.junk)
    requires Sees(loc, mem, b, ring, cache)
    ensures BlockOf(g, TokenOf(g, loc, w)) < |mem.rows|
    ensures var alone := Alone(g, ring, cache, w, b);
            Sees(loc, RunToken(g, mem, TokenOf(g, loc, w)), b, alone.0, alone.1)
  {
    BlockOfReal(g, loc, w);
    if w.Real? {
      RealToken(g, loc, mem, w);
      if w.pos % g.pool == g.pool - 1 {
        CacheIsLocal(loc, mem.cache, w.own, w.pos / g.pool, Gather(g, mem.rows[w.own], w.pos, w.item), b, cache);
      }
    }
  }

  /** What one request alone does with a token of its own. */
  function Alone<T>(g: Geometry, ring: seq<T>, cache: Cache<T>, w: Work<T>, b: nat): (r: (seq<T>, Cache<T>))
    requires g.Valid() && |ring| == g.ring
    ensures |r.0| == g.ring
  {
    if w.Real? && w.own == b then VerifyOne(g, ring, cache, w.pos, w.item) else (ring, cache)
  }

  lemma {:induction false} RealToken<T>(g: Geometry, loc: (nat, nat) -> nat, mem: Memory<T>, w: Work<T>)
    requires g.Valid() && Shaped(g, mem) && w.Real? && w.own < |mem.rows|
    ensures BlockOf(g, TokenOf(g, loc, w)) == w.own
    ensures RunToken(g, mem, TokenOf(g, loc, w)) ==
            Memory(mem.rows[w.own := mem.rows[w.own][w.pos % g.ring := w.item]],
                   if w.pos % g.pool == g.pool - 1
                   then mem.cache[loc(w.own, w.pos / g.pool) := Gather(g, mem.rows[w.own], w.pos,
                       w.item)] else mem.cache)
  {
    BlockOfReal(g, loc, w);
  }

  lemma {:induction false} CacheIsLocal<T(!new)>(loc: (nat, nat) -> nat, all: Cache<T>, own: nat, p0: nat,
      items: seq<T>, b: nat, cache: Cache<T>)
    requires Injective(loc)
    requires forall p: nat :: (loc(b, p) in all <==> p in cache) && (p in cache ==> all[loc(b, p)] == cache[p])
    ensures var after := all[loc(own, p0) := items];
            var alone := if own == b then cache[p0 := items] else cache;
            forall p: nat :: (loc(b, p) in after <==> p in alone) && (p in alone ==> after[loc(b, p)] == alone[p])
  {
    forall p: nat
      ensures loc(b, p) == loc(own, p0) <==> b == own && p == p0
    {
    }
  }

  /** A launch over any interleaving of the requests' tokens, with padding anywhere, gives every request exactly what
  its own tokens in order would have given it alone. */
  lemma {:induction false} LaunchIsPerRequest<T(!new)>(g: Geometry, loc: (nat, nat) -> nat, mem: Memory<T>,
      ws: seq<Work<T>>, b: nat, ring: seq<T>, cache: Cache<T>)
    requires g.Valid() && Injective(loc) && Shaped(g, mem) && |ring| == g.ring
    requires OwnsBlocks(g, mem, ws) && Sees(loc, mem, b, ring, cache)
    ensures InBounds(g, mem, TokensOf(g, loc, ws))
    ensures var alone := VerifyEach(g, ring, cache, OwnWork(ws, b));
            Sees(loc, RunTokens(g, mem, TokensOf(g, loc, ws)), b, alone.0, alone.1)
    decreases |ws|
  {
    LaunchInBounds(g, loc, mem, ws);
    if ws != [] {
      TokenIsLocal(g, loc, mem, ws[0], b, ring, cache);
      var one := Alone(g, ring, cache, ws[0], b);
      LaunchHead(g, loc, mem, ws);
      OwnHead(g, ring, cache, ws, b);
      LaunchIsPerRequest(g, loc, RunToken(g, mem, TokenOf(g, loc, ws[0])), ws[1..], b, one.0, one.1);
    }
  }

  lemma {:induction false} LaunchInBounds<T>(g: Geometry, loc: (nat, nat) -> nat, mem: Memory<T>, ws: seq<Work<T>>)
    requires g.Valid() && Shaped(g, mem) && OwnsBlocks(g, mem, ws) && |mem.rows| > 0
    ensures InBounds(g, mem, TokensOf(g, loc, ws))
  {
    forall t | 0 <= t < |ws|
      ensures BlockOf(g, TokensOf(g, loc, ws)[t]) < |mem.rows|
    {
      BlockOfReal(g, loc, ws[t]);
    }
  }

  lemma {:induction false} LaunchHead<T>(g: Geometry, loc: (nat, nat) -> nat, mem: Memory<T>, ws: seq<Work<T>>)
    requires g.Valid() && Shaped(g, mem) && OwnsBlocks(g, mem, ws) && ws != [] && |mem.rows| > 0
    requires InBounds(g, mem, TokensOf(g, loc, ws))
    ensures BlockOf(g, TokenOf(g, loc, ws[0])) < |mem.rows|
    ensures var after := RunToken(g, mem, TokenOf(g, loc, ws[0]));
            InBounds(g, after, TokensOf(g, loc, ws[1..])) &&
            RunTokens(g, mem, TokensOf(g, loc, ws)) == RunTokens(g, after, TokensOf(g, loc, ws[1..]))
  {
    assert TokensOf(g, loc, ws)[0] == TokenOf(g, loc, ws[0]);
    assert TokensOf(g, loc, ws)[1..] == TokensOf(g, loc, ws[1..]);
  }

  lemma {:induction false} OwnHead<T>(g: Geometry, ring: seq<T>, cache: Cache<T>, ws: seq<Work<T>>, b: nat)
    requires g.Valid() && |ring| == g.ring && ws != []
    ensures var one := Alone(g, ring, cache, ws[0], b);
            VerifyEach(g, ring, cache, OwnWork(ws, b)) == VerifyEach(g, one.0, one.1, OwnWork(ws[1..], b))
  {
    if ws[0].Real? && ws[0].own == b {
      assert OwnWork(ws, b)[0] == (ws[0].pos, ws[0].item);
      assert OwnWork(ws, b)[1..] == OwnWork(ws[1..], b);
    } else {
      assert OwnWork(ws, b) == OwnWork(ws[1..], b);
    }
  }

  // ---------------------------------------------------------------------------------------------- runs

  /** One request: the items of its committed tokens, its ring row and its pool cache. */
  datatype Request<T> = Request(hist: seq<T>, ring: seq<T>, cache: Cache<T>)

  /** A prefill chunk, or a verify step whose first `accepted` tokens are committed and whose rest is rejected. */
  datatype Event<T> = Prefill(chunk: seq<T>) | Verify(items: seq<T>, accepted: nat)

  function Numbered<T>(pos: nat, items: seq<T>): (work: seq<(nat, T)>)
    ensures |work| == |items| && forall k :: 0 <= k < |work| ==> work[k] == (pos + k, items[k])
  {
    seq(|items|, k requires 0 <= k < |items| => (pos + k, items[k]))
  }

  function Stash<T>(g: Geometry, ring: seq<T>, work: seq<(nat, T)>): (r: seq<T>)
    requires g.Valid() && |ring| == g.ring
    ensures |r| == g.ring
    decreases |work|
  {
    if work == [] then ring else Stash(g, ring[work[0].0 % g.ring := work[0].1], work[1..])
  }

  /** The tokens of a chunk the seed kernel keeps: the last pool's worth. */
  function Tail<T>(g: Geometry, pos: nat, chunk: seq<T>): (work: seq<(nat, T)>)
  {
    var from := Max(|chunk| - g.pool, 0);
    Numbered(pos + from, chunk[from..])
  }

  predicate PoolEnd(g: Geometry, pos: nat)
    requires g.Valid()
  {
    pos % g.pool == g.pool - 1
  }

  /** _kpool_compress_insert: every pool that starts and ends inside the first n tokens of the chunk. */
  function CompressChunk<T>(g: Geometry, cache: Cache<T>, pos: nat, chunk: seq<T>, n: nat): (c: Cache<T>)
    requires g.Valid() && n <= |chunk|
  {
    if n == 0 then cache
    else
      var c := CompressChunk(g, cache, pos, chunk, n - 1);
      if PoolEnd(g, pos + n - 1) && n >= g.pool then c[(pos + n - 1) / g.pool := chunk[n - g.pool..n]] else c
  }

  /** Chunks start on a pool boundary; a verify step has at most numSpec + 1 tokens and commits at least one. */
  predicate Legal<T>(g: Geometry, numSpec: nat, r: Request<T>, e: Event<T>)
    requires g.Valid()
  {
    match e
    case Prefill(_) => |r.hist| % g.pool == 0
    case Verify(items, accepted) => 1 <= accepted <= |items| <= numSpec + 1
  }

  function Apply<T>(g: Geometry, numSpec: nat, r: Request<T>, e: Event<T>): (q: Request<T>)
    requires g.Valid() && |r.ring| == g.ring && Legal(g, numSpec, r, e)
    ensures |q.ring| == g.ring
  {
    match e
    case Prefill(chunk) =>
      Request(r.hist + chunk, Stash(g, r.ring, Tail(g, |r.hist|, chunk)), CompressChunk(g, r.cache, |r.hist|, chunk,
          |chunk|))
    case Verify(items, accepted) =>
      var after := VerifyEach(g, r.ring, r.cache, Numbered(|r.hist|, items));
      Request(r.hist + items[..accepted], after.0, after.1)
  }

  predicate LegalRun<T>(g: Geometry, numSpec: nat, r: Request<T>, es: seq<Event<T>>)
    requires g.Valid() && |r.ring| == g.ring
    decreases |es|
  {
    es != [] ==> Legal(g, numSpec, r, es[0]) && LegalRun(g, numSpec, Apply(g, numSpec, r, es[0]), es[1..])
  }

  function Run<T>(g: Geometry, numSpec: nat, r: Request<T>, es: seq<Event<T>>): (q: Request<T>)
    requires g.Valid() && |r.ring| == g.ring && LegalRun(g, numSpec, r, es)
    ensures |q.ring| == g.ring
    decreases |es|
  {
    if es == [] then r else Run(g, numSpec, Apply(g, numSpec, r, es[0]), es[1..])
  }

  /** The pool ending at position e was compressed from its own committed items. */
  ghost predicate PoolExact<T>(g: Geometry, cache: Cache<T>, hist: seq<T>, e: nat)
    requires g.Valid() && e < |hist| && PoolEnd(g, e)
  {
    PoolStartsInRange(g, e);
    e / g.pool in cache && cache[e / g.pool] == hist[e - (g.pool - 1)..e + 1]
  }

  /** Every committed pool is exact. */
  ghost predicate Exact<T>(g: Geometry, cache: Cache<T>, hist: seq<T>)
    requires g.Valid()
  {
    forall e: nat :: e < |hist| && PoolEnd(g, e) ==> PoolExact(g, cache, hist, e)
  }

  function PoolStart(g: Geometry, n: nat): (lo: nat)
    requires g.Valid()
    ensures lo <= n < lo + g.pool
  {
    n - n % g.pool
  }

  /** The ring holds the last items of s from position lo on, as far back as a ring reaches. */
  ghost predicate Holds<T>(g: Geometry, ring: seq<T>, s: seq<T>, lo: nat)
    requires g.Valid() && |ring| == g.ring
  {
    forall q: nat :: lo <= q < |s| && |s| - q <= g.ring ==> At(g, ring, q) == s[q]
  }

  function At<T>(g: Geometry, ring: seq<T>, q: nat): (item: T)
    requires g.Valid() && |ring| == g.ring
  {
    ring[q % g.ring]
  }

  lemma {:induction false} StashOneHolds<T>(g: Geometry, ring: seq<T>, s: seq<T>, lo: nat, item: T)
    requires g.Valid() && |ring| == g.ring && Holds(g, ring, s, lo)
    ensures Holds(g, ring[|s| % g.ring := item], s + [item], lo)
  {
    var after := ring[|s| % g.ring := item];
    forall q: nat | lo <= q < |s| + 1 && |s| + 1 - q <= g.ring
      ensures At(g, after, q) == (s + [item])[q]
    {
      if q < |s| {
        ModApart(q, |s|, g.ring);
        assert At(g, ring, q) == s[q];
      }
    }
  }

  lemma {:induction false} StashHolds<T>(g: Geometry, ring: seq<T>, s: seq<T>, lo: nat, items: seq<T>)
    requires g.Valid() && |ring| == g.ring && Holds(g, ring, s, lo)
    ensures Holds(g, Stash(g, ring, Numbered(|s|, items)), s + items, lo)
    decreases |items|
  {
    if items == [] {
      assert s + items == s;
    } else {
      StashOneHolds(g, ring, s, lo, items[0]);
      NumberedTail(|s|, items);
      StashHolds(g, ring[|s| % g.ring := items[0]], s + [items[0]], lo, items[1..]);
      assert s + [items[0]] + items[1..] == s + items;
    }
  }

  lemma NumberedTail<T>(pos: nat, items: seq<T>)
    requires items != []
    ensures Numbered(pos, items)[0] == (pos, items[0]) && Numbered(pos, items)[1..] == Numbered(pos + 1, items[1..])
  {
  }

  /** The item of the pool's slot j, gathered at the pool's end, is the pool's own item j. */
  lemma {:induction false} GatherIsPool<T>(g: Geometry, ring: seq<T>, s: seq<T>, lo: nat, item: T)
    requires g.Valid() && |ring| == g.ring && Holds(g, ring, s, lo)
    requires PoolEnd(g, |s|) && lo <= |s| - (g.pool - 1)
    ensures Gather(g, ring, |s|, item) == (s + [item])[|s| - (g.pool - 1)..]
  {
    var from := |s| - (g.pool - 1);
    var items, own := Gather(g, ring, |s|, item), (s + [item])[from..];
    forall j | 0 <= j < |own|
      ensures items[j] == own[j]
    {
      if j < g.pool - 1 { assert At(g, ring, from + j) == s[from + j]; }
    }
  }

  lemma DivApart(g: Geometry, a: nat, b: nat)
    requires g.Valid() && PoolEnd(g, a) && PoolEnd(g, b) && a != b
    ensures a / g.pool != b / g.pool
  {
    assert a == (a / g.pool) * g.pool + a % g.pool;
    assert b == (b / g.pool) * g.pool + b % g.pool;
  }

  lemma PoolEndAfter(g: Geometry, n: nat, e: nat)
    requires g.Valid() && n <= e && PoolEnd(g, e)
    ensures PoolStart(g, n) <= e - (g.pool - 1)
  {
    var k, m := e / g.pool, n / g.pool;
    assert e == k * g.pool + g.pool - 1 && n == m * g.pool + n % g.pool;
    if m > k {
      assert (m - k) * g.pool == m * g.pool - k * g.pool;
      MulAtLeast(m - k, g.pool);
    } else {
      assert (m - k) * g.pool == m * g.pool - k * g.pool;
      MulAtMost(m - k, g.pool);
    }
  }

  /** One more item, with the pool it may complete entered into the cache. */
  lemma {:induction false} EnterPool<T>(g: Geometry, cache: Cache<T>, s: seq<T>, item: T, after: Cache<T>)
    requires g.Valid() && Exact(g, cache, s)
    requires PoolEnd(g, |s|) ==>
            |s| - (g.pool - 1) >= 0 && after == cache[|s| / g.pool := (s + [item])[|s| - (g.pool - 1)..]]
    requires !PoolEnd(g, |s|) ==> after == cache
    ensures Exact(g, after, s + [item])
  {
    var more := s + [item];
    forall e: nat | e < |more| && PoolEnd(g, e)
      ensures PoolExact(g, after, more, e)
    {
      PoolStartsInRange(g, e);
      if e < |s| {
        assert PoolExact(g, cache, s, e);
        assert more[e - (g.pool - 1)..e + 1] == s[e - (g.pool - 1)..e + 1];
        if PoolEnd(g, |s|) { DivApart(g, e, |s|); }
      }
    }
  }

  lemma {:induction false} VerifyOneKeeps<T>(g: Geometry, ring: seq<T>, cache: Cache<T>, s: seq<T>, lo: nat, item: T)
    requires g.Valid() && |ring| == g.ring && Holds(g, ring, s, lo) && Exact(g, cache, s)
    requires lo <= PoolStart(g, |s|)
    ensures var one := VerifyOne(g, ring, cache, |s|, item);
            Holds(g, one.0, s + [item], lo) && Exact(g, one.1, s + [item]) && lo <= PoolStart(g, |s| + 1)
  {
    StashOneHolds(g, ring, s, lo, item);
    if PoolEnd(g, |s|) {
      PoolEndAfter(g, |s|, |s|);
      GatherIsPool(g, ring, s, lo, item);
    }
    EnterPool(g, cache, s, item, VerifyOne(g, ring, cache, |s|, item).1);
    PoolStartMonotone(g, |s|);
  }

  /** A verify step: every pool ending in it is entered from the true items, accepted or not. */
  lemma {:induction false} VerifyKeeps<T>(g: Geometry, ring: seq<T>, cache: Cache<T>, s: seq<T>, lo: nat, items: seq<T>)
    requires g.Valid() && |ring| == g.ring && Holds(g, ring, s, lo) && Exact(g, cache, s)
    requires lo <= PoolStart(g, |s|)
    ensures var after := VerifyEach(g, ring, cache, Numbered(|s|, items));
            Holds(g, after.0, s + items, lo) && Exact(g, after.1, s + items)
    decreases |items|
  {
    if items == [] {
      assert s + items == s;
    } else {
      var one := VerifyOne(g, ring, cache, |s|, items[0]);
      VerifyOneKeeps(g, ring, cache, s, lo, items[0]);
      NumberedTail(|s|, items);
      VerifyKeeps(g, one.0, one.1, s + [items[0]], lo, items[1..]);
      assert s + [items[0]] + items[1..] == s + items;
    }
  }

  lemma PoolStartMonotone(g: Geometry, n: nat)
    requires g.Valid()
    ensures PoolStart(g, n) <= PoolStart(g, n + 1)
  {
    if n % g.pool == g.pool - 1 {
      assert PoolStart(g, n + 1) >= n + 1 - (g.pool - 1);
    } else {
      DivUnique(n + 1, n / g.pool, n % g.pool + 1, g.pool);
    }
  }

  lemma PoolStartUpTo(g: Geometry, n: nat, m: nat)
    requires g.Valid() && n <= m
    ensures PoolStart(g, n) <= PoolStart(g, m)
    decreases m
  {
    if n < m {
      PoolStartUpTo(g, n, m - 1);
      PoolStartMonotone(g, m - 1);
    }
  }

  /** Rejecting the items behind the accepted prefix costs nothing as long as none of them reached the open pool. */
  lemma {:induction false} RejectKeeps<T>(g: Geometry, numSpec: nat, ring: seq<T>, cache: Cache<T>, s: seq<T>,
      hist: seq<T>, lo: nat)
    requires g.Valid() && |ring| == g.ring && Holds(g, ring, s, lo) && Exact(g, cache, s)
    requires hist <= s && |s| - |hist| <= numSpec && g.ring >= g.pool + numSpec - 1
    requires lo <= PoolStart(g, |hist|)
    ensures Holds(g, ring, hist, PoolStart(g, |hist|)) && Exact(g, cache, hist)
  {
    forall q: nat | PoolStart(g, |hist|) <= q < |hist| && |hist| - q <= g.ring
      ensures At(g, ring, q) == hist[q]
    {
      assert |s| - q <= g.ring;
      assert At(g, ring, q) == s[q];
    }
    forall e: nat | e < |hist| && PoolEnd(g, e)
      ensures PoolExact(g, cache, hist, e)
    {
      assert PoolExact(g, cache, s, e);
      PoolStartsInRange(g, e);
      assert hist[e - (g.pool - 1)..e + 1] == s[e - (g.pool - 1)..e + 1];
    }
  }

  /** What every run keeps. */
  ghost predicate Sound<T>(g: Geometry, r: Request<T>)
    requires g.Valid()
  {
    |r.ring| == g.ring && Exact(g, r.cache, r.hist) && Holds(g, r.ring, r.hist, PoolStart(g, |r.hist|))
  }

  lemma {:induction false} VerifyIsSound<T>(g: Geometry, numSpec: nat, r: Request<T>, e: Event<T>)
    requires g.Valid() && g.ring >= g.pool + numSpec - 1 && Sound(g, r)
    requires e.Verify? && Legal(g, numSpec, r, e)
    ensures Sound(g, Apply(g, numSpec, r, e))
  {
    var lo := PoolStart(g, |r.hist|);
    VerifyKeeps(g, r.ring, r.cache, r.hist, lo, e.items);
    var q := Apply(g, numSpec, r, e);
    PoolStartUpTo(g, |r.hist|, |q.hist|);
    assert q.hist <= r.hist + e.items;
    RejectKeeps(g, numSpec, q.ring, q.cache, r.hist + e.items, q.hist, lo);
  }

  lemma {:induction false} CompressKeeps<T>(g: Geometry, cache: Cache<T>, hist: seq<T>, chunk: seq<T>, n: nat)
    requires g.Valid() && Exact(g, cache, hist) && |hist| % g.pool == 0 && n <= |chunk|
    ensures Exact(g, CompressChunk(g, cache, |hist|, chunk, n), hist + chunk[..n])
  {
    if n == 0 {
      assert hist + chunk[..n] == hist;
    } else {
      CompressKeeps(g, cache, hist, chunk, n - 1);
      var s, e := hist + chunk[..n - 1], |hist| + n - 1;
      if PoolEnd(g, e) {
        PoolEndAfter(g, |hist|, e);
        assert (s + [chunk[n - 1]])[e - (g.pool - 1)..] == chunk[n - g.pool..n];
      }
      EnterPool(g, CompressChunk(g, cache, |hist|, chunk, n - 1), s, chunk[n - 1], CompressChunk(g, cache, |hist|,
          chunk, n));
      assert s + [chunk[n - 1]] == hist + chunk[..n];
    }
  }

  lemma {:induction false} PrefillIsSound<T>(g: Geometry, numSpec: nat, r: Request<T>, e: Event<T>)
    requires g.Valid() && Sound(g, r) && e.Prefill? && Legal(g, numSpec, r, e)
    ensures Sound(g, Apply(g, numSpec, r, e))
  {
    CompressKeeps(g, r.cache, r.hist, e.chunk, |e.chunk|);
    assert e.chunk[..|e.chunk|] == e.chunk;
    SeedHolds(g, r.ring, r.hist, e.chunk);
  }

  lemma {:induction false} SeedHolds<T>(g: Geometry, ring: seq<T>, hist: seq<T>, chunk: seq<T>)
    requires g.Valid() && |ring| == g.ring && |hist| % g.pool == 0
    ensures Holds(g, Stash(g, ring, Tail(g, |hist|, chunk)), hist + chunk, PoolStart(g, |hist + chunk|))
  {
    var from := Max(|chunk| - g.pool, 0);
    var s := hist + chunk[..from];
    StashHolds(g, ring, s, |s|, chunk[from..]);
    SplitChunk(hist, chunk, from);
    SeedReaches(g, |hist|, |chunk|);
  }

  lemma SplitChunk<T>(hist: seq<T>, chunk: seq<T>, from: nat)
    requires from <= |chunk|
    ensures hist + chunk[..from] + chunk[from..] == hist + chunk
  {
  }

  lemma SeedReaches(g: Geometry, n: nat, k: nat)
    requires g.Valid() && n % g.pool == 0
    ensures n + Max(k - g.pool, 0) <= PoolStart(g, n + k)
  {
    PoolStartUpTo(g, n, n + k);
    assert PoolStart(g, n) == n;
  }

  /** Safety over whole runs: with a ring of at least pool + numSpec - 1 slots, after any run every committed pool was
  compressed from exactly its own committed items, whatever was drafted, stashed and rejected in between. */
  lemma {:induction false} RunIsExact<T>(g: Geometry, numSpec: nat, r: Request<T>, es: seq<Event<T>>)
    requires g.Valid() && g.ring >= g.pool + numSpec - 1 && Sound(g, r) && LegalRun(g, numSpec, r, es)
    ensures Sound(g, Run(g, numSpec, r, es))
    decreases |es|
  {
    if es != [] {
      if es[0].Verify? {
        VerifyIsSound(g, numSpec, r, es[0]);
      } else {
        PrefillIsSound(g, numSpec, r, es[0]);
      }
      RunIsExact(g, numSpec, Apply(g, numSpec, r, es[0]), es[1..]);
    }
  }

  // ---------------------------------------------------------------------------------------------- the ring's size

  function Fresh<T>(ring: seq<T>): (r: Request<T>) { Request([], ring, map[]) }

  /** A launch in which a request brings consecutive tokens is a verify step of that request. */
  lemma {:induction false} LaunchIsVerifyStep<T(!new)>(g: Geometry, numSpec: nat, loc: (nat, nat) -> nat,
                                                       mem: Memory<T>, ws: seq<Work<T>>, b: nat,
                                                       r: Request<T>, items: seq<T>, accepted: nat)
    requires g.Valid() && Injective(loc) && Shaped(g, mem) && OwnsBlocks(g, mem, ws) && |r.ring| == g.ring
    requires Sees(loc, mem, b, r.ring, r.cache) && OwnWork(ws, b) == Numbered(|r.hist|, items)
    requires Legal(g, numSpec, r, Verify(items, accepted))
    ensures InBounds(g, mem, TokensOf(g, loc, ws))
    ensures var q := Apply(g, numSpec, r, Verify(items, accepted));
            Sees(loc, RunTokens(g, mem, TokensOf(g, loc, ws)), b, q.ring, q.cache)
  {
    LaunchIsPerRequest(g, loc, mem, ws, b, r.ring, r.cache);
  }

  /** Every run from an empty request, whatever its ring held before, leaves every committed pool exact. */
  ghost predicate AllRunsExact(g: Geometry, numSpec: nat)
    requires g.Valid()
  {
    forall ring: seq<nat>, es: seq<Event<nat>> :: |ring| == g.ring && LegalRun(g, numSpec, Fresh(ring), es) ==>
      Exact(g, Run(g, numSpec, Fresh(ring), es).cache, Run(g, numSpec, Fresh(ring), es).hist)
  }

  lemma {:induction false} VerifyRing<T>(g: Geometry, ring: seq<T>, cache: Cache<T>, work: seq<(nat, T)>)
    requires g.Valid() && |ring| == g.ring
    ensures VerifyEach(g, ring, cache, work).0 == Stash(g, ring, work)
    decreases |work|
  {
    if work != [] {
      var one := VerifyOne(g, ring, cache, work[0].0, work[0].1);
      VerifyRing(g, one.0, one.1, work[1..]);
    }
  }

  function Repeat(n: nat, x: nat): (s: seq<nat>)
    ensures |s| == n && forall k :: 0 <= k < n ==> s[k] == x
  {
    seq(n, _ => x)
  }

  /** A step that commits the pool's last but one token and drafts on until a draft lands on the pool's first slot. */
  lemma {:induction false} DraftOverwritesPoolHead(g: Geometry, numSpec: nat, r: Request<nat>)
    requires g.Valid() && g.ring < g.pool + numSpec - 1 && |r.ring| == g.ring && r.hist == Repeat(g.pool - 2, 0)
    ensures var e := Verify([0] + Repeat(g.ring - g.pool + 2, 1), 1);
            Legal(g, numSpec, r, e) && Apply(g, numSpec, r, e).hist == Repeat(g.pool - 1, 0) &&
                At(g, Apply(g, numSpec, r, e).ring, 0) == 1
  {
    var items := [0] + Repeat(g.ring - g.pool + 2, 1);
    VerifyRing(g, r.ring, r.cache, Numbered(|r.hist|, items));
    StashHolds(g, r.ring, r.hist, |r.hist|, items);
    var s := r.hist + items;
    assert |s| == g.ring + 1 && s[g.ring] == 1;
    assert At(g, Apply(g, numSpec, r, Verify(items, 1)).ring, g.ring) == 1;
    DivUnique(g.ring, 1, 0, g.ring);
  }

  /** The redo of the rejected draft then compresses the draft's item in place of the committed one. */
  lemma {:induction false} RedoReadsDraft(g: Geometry, numSpec: nat, r: Request<nat>)
    requires g.Valid() && |r.ring| == g.ring && r.hist == Repeat(g.pool - 1, 0) && At(g, r.ring, 0) == 1
    ensures var e := Verify([0], 1);
            Legal(g, numSpec, r, e) && !Exact(g, Apply(g, numSpec, r, e).cache, Apply(g, numSpec, r, e).hist)
  {
    var q := Apply(g, numSpec, r, Verify([0], 1));
    var e := g.pool - 1;
    VerifySingle(g, r.ring, r.cache, e, 0);
    DivUnique(e, 0, e, g.pool);
    assert q.cache[0] == Gather(g, r.ring, e, 0);
    assert q.cache[0][0] == At(g, r.ring, 0) == 1;
    assert q.hist[e - (g.pool - 1)..e + 1][0] == 0;
    assert !PoolExact(g, q.cache, q.hist, e);
  }

  lemma {:induction false} VerifySingle<T>(g: Geometry, ring: seq<T>, cache: Cache<T>, pos: nat, item: T)
    requires g.Valid() && |ring| == g.ring
    ensures VerifyEach(g, ring, cache, Numbered(pos, [item])) == VerifyOne(g, ring, cache, pos, item)
  {
    assert Numbered(pos, [item])[1..] == [];
  }

  lemma {:induction false} SmallRingBreaks(g: Geometry, numSpec: nat, ring: seq<nat>) returns (es: seq<Event<nat>>)
    requires g.Valid() && g.ring < g.pool + numSpec - 1 && |ring| == g.ring
    ensures LegalRun(g, numSpec, Fresh(ring), es)
    ensures !Exact(g, Run(g, numSpec, Fresh(ring), es).cache, Run(g, numSpec, Fresh(ring), es).hist)
  {
    var e1, e2, e3 := Prefill(Repeat(g.pool - 2, 0)), Verify([0] + Repeat(g.ring - g.pool + 2, 1), 1), Verify([0], 1);
    var r1 := Apply(g, numSpec, Fresh(ring), e1);
    assert r1.hist == Repeat(g.pool - 2, 0);
    DraftOverwritesPoolHead(g, numSpec, r1);
    var r2 := Apply(g, numSpec, r1, e2);
    RedoReadsDraft(g, numSpec, r2);
    RunFirst(g, numSpec, r2, e3, []);
    RunFirst(g, numSpec, r1, e2, [e3] + []);
    RunFirst(g, numSpec, Fresh(ring), e1, [e2] + ([e3] + []));
    es := [e1] + ([e2] + ([e3] + []));
  }

  lemma {:induction false} RunFirst<T>(g: Geometry, numSpec: nat, r: Request<T>, e: Event<T>, es: seq<Event<T>>)
    requires g.Valid() && |r.ring| == g.ring && Legal(g, numSpec, r, e) &&
             LegalRun(g, numSpec, Apply(g, numSpec, r, e), es)
    ensures LegalRun(g, numSpec, r, [e] + es)
    ensures Run(g, numSpec, r, [e] + es) == Run(g, numSpec, Apply(g, numSpec, r, e), es)
  {
    assert ([e] + es)[1..] == es;
  }

  /** The exact condition on the ring: all runs are exact if and only if it has pool + numSpec - 1 slots. A one-pool
  ring is therefore enough up to one draft token and broken from two on. */
  lemma {:induction false} RingSizeIsExact(g: Geometry, numSpec: nat)
    requires g.Valid()
    ensures AllRunsExact(g, numSpec) <==> g.ring >= g.pool + numSpec - 1
  {
    if g.ring >= g.pool + numSpec - 1 {
      forall ring: seq<nat>, es: seq<Event<nat>> | |ring| == g.ring && LegalRun(g, numSpec, Fresh(ring), es)
        ensures Exact(g, Run(g, numSpec, Fresh(ring), es).cache, Run(g, numSpec, Fresh(ring), es).hist)
      {
        assert Sound(g, Fresh(ring));
        RunIsExact(g, numSpec, Fresh(ring), es);
      }
    } else {
      var ring := Repeat(g.ring, 0);
      var es := SmallRingBreaks(g, numSpec, ring);
      assert !AllRunsExact(g, numSpec);
    }
  }

  function Cdiv(a: nat, b: nat): (q: nat)
    requires b > 0
  {
    (a + b - 1) / b
  }

  /** The least power of two that is at least n. */
  function NextPowerOfTwo(n: nat, p: nat := 1): (q: nat)
    requires p > 0
    ensures q >= n && q >= p && (q == p || q < 2 * n)
    decreases n - p
  {
    if p >= n then p else NextPowerOfTwo(n, 2 * p)
  }

  /** get_kv_cache_spec: pool * next_power_of_2(cdiv(pool + numSpec, pool)). */
  function RingSize(pool: nat, numSpec: nat): (ring: nat)
    requires pool > 0
  {
    pool * NextPowerOfTwo(Cdiv(pool + numSpec, pool))
  }

  /** The shipped size meets the condition for every number of draft tokens. */
  lemma {:induction false} ShippedRingIsExact(pool: nat, numSpec: nat)
    requires pool >= 2
    ensures RingSize(pool, numSpec) >= pool + numSpec
    ensures var g := Geometry(pool, RingSize(pool, numSpec)); g.Valid() && AllRunsExact(g, numSpec)
  {
    var q, p := Cdiv(pool + numSpec, pool), NextPowerOfTwo(Cdiv(pool + numSpec, pool));
    assert pool + numSpec + pool - 1 == pool * q + (pool + numSpec + pool - 1) % pool;
    MulMonotone(pool, q, p);
    RingSizeIsExact(Geometry(pool, RingSize(pool, numSpec)), numSpec);
  }

  // ---------------------------------------------------------------------------------------------- seeding, per request

  /** In a prefill batch the tokens of one request are consecutive. */
  ghost predicate Contiguous<T>(ws: seq<Work<T>>)
  {
    forall i: nat, j: nat :: i < j < |ws| && ws[i].Real? && ws[j].Real? && ws[i].own == ws[j].own ==>
      ws[j].pos == ws[i].pos + (j - i) && forall k :: i < k < j ==> ws[k].Real? && ws[k].own == ws[i].own
  }

  /** The request with tail block b brings the chunk starting at position pos, at index lo of the batch. */
  ghost predicate Brings<T>(ws: seq<Work<T>>, b: nat, lo: nat, pos: nat, chunk: seq<T>)
  {
    && lo + |chunk| <= |ws|
    && (forall k :: 0 <= k < |chunk| ==> ws[lo + k] == Real(b, pos + k, chunk[k]))
    && (forall k :: 0 <= k < |ws| && ws[k].Real? && ws[k].own == b ==> lo <= k < lo + |chunk|)
  }

  ghost predicate PaddingOnly<T>(ws: seq<Work<T>>)
  {
    forall k :: 0 <= k < |ws| && ws[k].Padding? ==> ws[k].junk.tailSlot < 0
  }

  lemma {:induction false} KeptIsTail<T>(g: Geometry, loc: (nat, nat) -> nat, ws: seq<Work<T>>, t: nat)
    requires g.Valid() && t < |ws| && PaddingOnly(ws)
    ensures Kept(g, TokensOf(g, loc, ws), t) <==>
            ws[t].Real? && !(t + g.pool < |ws| && ws[t + g.pool].Real? && ws[t + g.pool].own == ws[t].own)
    ensures ws[t].Real? ==> TokensOf(g, loc, ws)[t].tailSlot % g.ring == ws[t].pos % g.ring
    ensures ws[t].Real? ==> BlockOf(g, TokensOf(g, loc, ws)[t]) == ws[t].own
  {
    BlockOfReal(g, loc, ws[t]);
    if ws[t].Real? { DivUnique(ws[t].own * g.ring + ws[t].pos % g.ring, ws[t].own, ws[t].pos % g.ring, g.ring); }
    if t + g.pool < |ws| { BlockOfReal(g, loc, ws[t + g.pool]); }
  }

  /** The programs of the seed kernel never write the same slot twice. */
  lemma {:induction false} SeedsAreApart<T>(g: Geometry, loc: (nat, nat) -> nat, ws: seq<Work<T>>)
    requires g.Valid() && PaddingOnly(ws) && Contiguous(ws)
    ensures KeptApart(g, TokensOf(g, loc, ws))
  {
    var toks := TokensOf(g, loc, ws);
    forall t: nat, u: nat | t < u < |toks| && Kept(g, toks, t) && Kept(g, toks, u) &&
        BlockOf(g, toks[t]) == BlockOf(g, toks[u])
      ensures toks[t].tailSlot % g.ring != toks[u].tailSlot % g.ring
    {
      KeptIsTail(g, loc, ws, t);
      KeptIsTail(g, loc, ws, u);
      assert ws[u].pos == ws[t].pos + (u - t);
      assert u - t < g.pool;
      ModApart(ws[t].pos, ws[u].pos, g.ring);
    }
  }

  lemma {:induction false} StashMiss<T>(g: Geometry, ring: seq<T>, work: seq<(nat, T)>, r: nat)
    requires g.Valid() && |ring| == g.ring && r < g.ring
    requires forall k :: 0 <= k < |work| ==> work[k].0 % g.ring != r
    ensures Stash(g, ring, work)[r] == ring[r]
    decreases |work|
  {
    if work != [] { StashMiss(g, ring[work[0].0 % g.ring := work[0].1], work[1..], r); }
  }

  lemma {:induction false} StashHit<T>(g: Geometry, ring: seq<T>, work: seq<(nat, T)>, k: nat)
    requires g.Valid() && |ring| == g.ring && k < |work|
    requires forall j :: k < j < |work| ==> work[j].0 % g.ring != work[k].0 % g.ring
    ensures Stash(g, ring, work)[work[k].0 % g.ring] == work[k].1
    decreases |work|
  {
    var first := ring[work[0].0 % g.ring := work[0].1];
    if k == 0 {
      StashMiss(g, first, work[1..], work[0].0 % g.ring);
    } else {
      StashHit(g, first, work[1..], k - 1);
    }
  }

  /** After the seed kernel each request's row is its row with the tail of its own chunk stashed. */
  lemma {:induction false} SeedIsPerRequest<T>(g: Geometry, loc: (nat, nat) -> nat, ws: seq<Work<T>>,
      before: seq<seq<T>>, after: seq<seq<T>>,
                                               b: nat, lo: nat, pos: nat, chunk: seq<T>)
    requires g.Valid() && PaddingOnly(ws) && Brings(ws, b, lo, pos, chunk) && b < |before|
    requires Seeded(g, TokensOf(g, loc, ws), before, after)
    ensures after[b] == Stash(g, before[b], Tail(g, pos, chunk))
  {
    var work := Tail(g, pos, chunk);
    forall r: nat | r < g.ring
      ensures after[b][r] == Stash(g, before[b], work)[r]
    {
      if k: nat :| k < |work| && work[k].0 % g.ring == r {
        SeedHit(g, loc, ws, before, after, b, lo, pos, chunk, k);
      } else {
        SeedMiss(g, loc, ws, b, lo, pos, chunk, r);
        StashMiss(g, before[b], work, r);
      }
    }
  }

  lemma {:induction false} SeedHit<T>(g: Geometry, loc: (nat, nat) -> nat, ws: seq<Work<T>>, before: seq<seq<T>>,
      after: seq<seq<T>>,
                                      b: nat, lo: nat, pos: nat, chunk: seq<T>, k: nat)
    requires g.Valid() && PaddingOnly(ws) && Brings(ws, b, lo, pos, chunk) && b < |before|
    requires Seeded(g, TokensOf(g, loc, ws), before, after) && k < |Tail(g, pos, chunk)|
    ensures var (q, item) := Tail(g, pos, chunk)[k];
            after[b][q % g.ring] == item == Stash(g, before[b], Tail(g, pos, chunk))[q % g.ring]
  {
    var work := Tail(g, pos, chunk);
    forall j | k < j < |work|
      ensures work[j].0 % g.ring != work[k].0 % g.ring
    {
      ModApart(work[k].0, work[j].0, g.ring);
    }
    StashHit(g, before[b], work, k);
    var t := lo + Max(|chunk| - g.pool, 0) + k;
    KeptIsTail(g, loc, ws, t);
    assert ws[t] == Real(b, work[k].0, work[k].1);
    assert Hits(g, TokensOf(g, loc, ws), t, b, work[k].0 % g.ring);
  }

  lemma BringsAt<T>(ws: seq<Work<T>>, b: nat, lo: nat, pos: nat, chunk: seq<T>, k: nat)
    requires Brings(ws, b, lo, pos, chunk) && k < |chunk|
    ensures ws[lo + k] == Real(b, pos + k, chunk[k])
  {
  }

  lemma {:induction false} KeptIsInTail<T>(g: Geometry, loc: (nat, nat) -> nat, ws: seq<Work<T>>, b: nat, lo: nat,
      pos: nat, chunk: seq<T>, t: nat)
    requires g.Valid() && PaddingOnly(ws) && Brings(ws, b, lo, pos, chunk) && t < |ws|
    requires ws[t].Real? && ws[t].own == b && Kept(g, TokensOf(g, loc, ws), t)
    ensures var k := t - lo - Max(|chunk| - g.pool, 0);
            0 <= k < |Tail(g, pos, chunk)| && Tail(g, pos, chunk)[k].0 == ws[t].pos
  {
    KeptIsTail(g, loc, ws, t);
    BringsAt(ws, b, lo, pos, chunk, t - lo);
    if t - lo + g.pool < |chunk| {
      BringsAt(ws, b, lo, pos, chunk, t - lo + g.pool);
      assert false;
    }
  }

  lemma {:induction false} SeedMiss<T>(g: Geometry, loc: (nat, nat) -> nat, ws: seq<Work<T>>, b: nat, lo: nat,
      pos: nat, chunk: seq<T>, r: nat)
    requires g.Valid() && PaddingOnly(ws) && Brings(ws, b, lo, pos, chunk) && r < g.ring
    requires forall k: nat :: k < |Tail(g, pos, chunk)| ==> Tail(g, pos, chunk)[k].0 % g.ring != r
    ensures forall t: nat :: t < |ws| ==> !Hits(g, TokensOf(g, loc, ws), t, b, r)
  {
    forall t: nat | t < |ws| && Kept(g, TokensOf(g, loc, ws), t) && ws[t].Real? && ws[t].own == b
      ensures ws[t].pos % g.ring != r
    {
      KeptIsInTail(g, loc, ws, b, lo, pos, chunk, t);
    }
    forall t: nat | t < |ws|
      ensures !Hits(g, TokensOf(g, loc, ws), t, b, r)
    {
      KeptIsTail(g, loc, ws, t);
    }
  }
}
