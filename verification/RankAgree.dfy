/** Collective agreement (overlay/glm_ds_split.py, overlay/glm_dense_fast.py): an all-reduce over the ranks' pass flags
decides what every rank switches on, so that all of them make the same gather calls. */
module RankAgree {
  import opened Arith

  // ---------------------------------------------------------------------------------------------- all-reduce

  function MinOf(xs: seq<int>): (m: int)
    requires xs != []
    ensures m in xs && forall r :: 0 <= r < |xs| ==> m <= xs[r]
  {
    if |xs| == 1 then xs[0]
    else
      var m := MinOf(xs[..|xs| - 1]);
      if xs[|xs| - 1] < m then xs[|xs| - 1] else m
  }

  /** The column of entry i over the ranks. */
  function Column(rows: seq<seq<int>>, i: nat): (c: seq<int>)
    requires forall r :: 0 <= r < |rows| ==> i < |rows[r]|
    ensures |c| == |rows| && forall r :: 0 <= r < |c| ==> c[r] == rows[r][i]
  {
    seq(|rows|, r requires 0 <= r < |rows| => rows[r][i])
  }

  ghost predicate SameLength(rows: seq<seq<int>>, n: nat)
  {
    rows != [] && forall r :: 0 <= r < |rows| ==> |rows[r]| == n
  }

  /** all_reduce(MIN): what every rank holds afterwards. */
  function AllMin(rows: seq<seq<int>>, n: nat): (m: seq<int>)
    requires SameLength(rows, n)
    ensures |m| == n
  {
    seq(n, i requires 0 <= i < n => MinOf(Column(rows, i)))
  }

  ghost predicate AreFlags(rows: seq<seq<int>>)
  {
    forall r, i :: 0 <= r < |rows| && 0 <= i < |rows[r]| ==> rows[r][i] == 0 || rows[r][i] == 1
  }

  ghost predicate AllEqual(xs: seq<int>)
  {
    forall r, q :: 0 <= r < |xs| && 0 <= q < |xs| ==> xs[r] == xs[q]
  }

  lemma {:induction false} AllMinIsOne(rows: seq<seq<int>>, n: nat, i: nat)
    requires SameLength(rows, n) && AreFlags(rows) && i < n
    ensures AllMin(rows, n)[i] == 1 <==> forall r :: 0 <= r < |rows| ==> rows[r][i] == 1
    ensures AllMin(rows, n)[i] == 0 || AllMin(rows, n)[i] == 1
  {
    var c := Column(rows, i);
    var r :| 0 <= r < |c| && c[r] == MinOf(c);
    assert rows[r][i] == MinOf(c);
    forall q | 0 <= q < |rows|
      ensures MinOf(c) <= rows[q][i]
    {
      assert c[q] == rows[q][i];
    }
  }

  /** agree: the minimum of the flags, or nothing at all when the dispatch tables' hashes differ. One rank alone keeps
  its flags. */
  function Agree(flags: seq<seq<int>>, hashes: seq<int>, n: nat): (agreed: seq<int>)
    requires SameLength(flags, n) && |hashes| == |flags|
    ensures |agreed| == n
  {
    if |flags| == 1 then flags[0]
    else
      var low, high := MinOf(hashes), -MinOf(Negated(hashes));
      if low != high then seq(n, _ => 0) else AllMin(flags, n)
  }

  function Negated(xs: seq<int>): (ys: seq<int>)
    ensures |ys| == |xs| && forall r :: 0 <= r < |ys| ==> ys[r] == -xs[r]
  {
    seq(|xs|, r requires 0 <= r < |xs| => -xs[r])
  }

  /** An entry is agreed on exactly when every rank passed it and, with more than one rank, all hold the same table. */
  lemma {:induction false} AgreedIffAllPass(flags: seq<seq<int>>, hashes: seq<int>, n: nat, i: nat)
    requires SameLength(flags, n) && AreFlags(flags) && |hashes| == |flags| && i < n
    ensures Agree(flags, hashes, n)[i] == 1 <==>
            (forall r :: 0 <= r < |flags| ==> flags[r][i] == 1) && AllEqual(hashes)
  {
    if |flags| > 1 {
      AllMinIsOne(flags, n, i);
      HashesEqual(hashes);
    }
  }

  lemma {:induction false} HashesEqual(hashes: seq<int>)
    requires hashes != []
    ensures MinOf(hashes) == -MinOf(Negated(hashes)) <==> AllEqual(hashes)
  {
    var neg := Negated(hashes);
    var r :| 0 <= r < |hashes| && hashes[r] == MinOf(hashes);
    var q :| 0 <= q < |neg| && neg[q] == MinOf(neg);
    forall k | 0 <= k < |hashes|
      ensures MinOf(hashes) <= hashes[k] <= -MinOf(neg)
    {
      assert neg[k] == -hashes[k];
    }
  }

  // ---------------------------------------------------------------------------------------------- the dense fast path

  /** How one entry's self-test can end on one rank: an exception inside it is a failure, one that escapes ends the
  whole self-test. */
  datatype Outcome = Passes | Fails | Raises | Escapes

  /** One rank: which entries its switches want, which have a layer here, whether the extension builds, how each
  self-test would end, and the hash of its table. */
  datatype Rank = Rank(wanted: seq<bool>, present: seq<bool>, builds: bool, outcomes: seq<Outcome>, hash: int)
  {
    /** The rank tests the entry, and takes it if it is agreed on. */
    predicate Takes(i: nat)
      requires i < |wanted| == |present|
    {
      wanted[i] && present[i]
    }

    predicate Aborts()
      requires |wanted| == |present| == |outcomes|
    {
      exists i :: 0 <= i < |wanted| && Takes(i) && outcomes[i].Escapes?
    }

    /** The flag the rank brings to the agreement: 1, the neutral one, for an entry it does not take. */
    function Flag(decode: seq<bool>, i: nat): (flag: int)
      requires |wanted| == |present| == |outcomes| == |decode| && i < |decode|
      ensures flag == 0 || flag == 1
    {
      if Aborts() then 0 else Tested(decode, i)
    }

    function Tested(decode: seq<bool>, i: nat): (flag: int)
      requires |wanted| == |present| == |outcomes| == |decode| && i < |decode|
    {
      if !Takes(i) then 1
      else if decode[i] && !builds then 0
      else if outcomes[i].Passes? then 1 else 0
    }
  }

  /** prepare: the self-tests in entry order, starting from neutral flags; an escaped exception turns all of them off,
  and the rank still goes to the agreement. */
  method SelfTestAll(decode: seq<bool>, rank: Rank) returns (flags: seq<int>)
    requires |rank.wanted| == |rank.present| == |rank.outcomes| == |decode|
    ensures |flags| == |decode| && forall i :: 0 <= i < |flags| ==> flags[i] == rank.Flag(decode, i)
  {
    flags := seq(|decode|, _ => 1);
    var i, escaped := 0, false;
    while i < |decode| && !escaped
      invariant 0 <= i <= |decode| == |flags|
      invariant escaped ==> rank.Aborts()
      invariant !escaped ==> forall j :: 0 <= j < i && rank.Takes(j) ==> !rank.outcomes[j].Escapes?
      invariant forall j :: i <= j < |flags| ==> flags[j] == 1
      invariant !escaped ==> forall j :: 0 <= j < i ==> flags[j] == rank.Tested(decode, j)
      decreases |decode| - i, if escaped then 0 else 1
    {
      if rank.Takes(i) {
        if rank.outcomes[i].Escapes? {
          escaped := true;
        } else if decode[i] && !rank.builds {
          flags := flags[i := 0];
        } else {
          flags := flags[i := if rank.outcomes[i].Passes? then 1 else 0];
        }
      }
      if !escaped { i := i + 1; }
    }
    if escaped { flags := seq(|decode|, _ => 0); }
  }

  /** All ranks walk the same entries. */
  ghost predicate AllFit(n: nat, ranks: seq<Rank>)
  {
    forall r :: 0 <= r < |ranks| ==> |ranks[r].wanted| == |ranks[r].present| == |ranks[r].outcomes| == n
  }

  function RankFlags(decode: seq<bool>, ranks: seq<Rank>): (flags: seq<seq<int>>)
    requires AllFit(|decode|, ranks)
    ensures |flags| == |ranks|
    ensures forall r :: 0 <= r < |flags| ==> |flags[r]| == |decode|
    ensures forall r, i :: 0 <= r < |flags| && 0 <= i < |decode| ==> flags[r][i] == ranks[r].Flag(decode, i)
  {
    seq(|ranks|, r requires 0 <= r < |ranks| =>
      seq(|decode|, i requires 0 <= i < |decode| => ranks[r].Flag(decode, i)))
  }

  function Hashes(ranks: seq<Rank>): (hs: seq<int>)
    ensures |hs| == |ranks| && forall r :: 0 <= r < |hs| ==> hs[r] == ranks[r].hash
  {
    seq(|ranks|, r requires 0 <= r < |ranks| => ranks[r].hash)
  }

  /** A rank tags the layers of an entry it takes when the agreed flag is set. */
  predicate Enabled(decode: seq<bool>, ranks: seq<Rank>, r: nat, i: nat)
    requires r < |ranks| && i < |decode| && AllFit(|decode|, ranks)
  {
    ranks[r].Takes(i) && Agree(RankFlags(decode, ranks), Hashes(ranks), |decode|)[i] != 0
  }

  /** Nothing stands in the way of entry i on any rank: the tables are the same, no rank's self-test ended early, and
  every rank that takes the entry passed it. */
  ghost predicate Unopposed(decode: seq<bool>, ranks: seq<Rank>, i: nat)
    requires i < |decode| && AllFit(|decode|, ranks)
  {
    && (forall r, q :: 0 <= r < |ranks| && 0 <= q < |ranks| ==> ranks[r].hash == ranks[q].hash)
    && (forall r :: 0 <= r < |ranks| ==> !ranks[r].Aborts())
    && (forall r :: 0 <= r < |ranks| && ranks[r].Takes(i) ==>
          ranks[r].outcomes[i].Passes? && (decode[i] ==> ranks[r].builds))
  }

  /** A rank has an entry on exactly when it takes it and nothing on any rank stands in its way. */
  lemma {:induction false} EnabledIffUnopposed(decode: seq<bool>, ranks: seq<Rank>, r: nat, i: nat)
    requires r < |ranks| && i < |decode| && AllFit(|decode|, ranks)
    ensures Enabled(decode, ranks, r, i) <==> ranks[r].Takes(i) && Unopposed(decode, ranks, i)
  {
    var flags, hashes := RankFlags(decode, ranks), Hashes(ranks);
    AgreedIffAllPass(flags, hashes, |decode|, i);
    AgreedIsFlag(flags, hashes, |decode|, i);
    FlagsAreOne(decode, ranks, i);
    assert AllEqual(hashes) <==>
           (forall q, s :: 0 <= q < |ranks| && 0 <= s < |ranks| ==> ranks[q].hash == ranks[s].hash);
  }

  lemma {:induction false} FlagsAreOne(decode: seq<bool>, ranks: seq<Rank>, i: nat)
    requires i < |decode| && AllFit(|decode|, ranks)
    ensures (forall r :: 0 <= r < |ranks| ==> RankFlags(decode, ranks)[r][i] == 1) <==>
            && (forall r :: 0 <= r < |ranks| ==> !ranks[r].Aborts())
            && (forall r :: 0 <= r < |ranks| && ranks[r].Takes(i) ==>
                  ranks[r].outcomes[i].Passes? && (decode[i] ==> ranks[r].builds))
  {
    forall r | 0 <= r < |ranks|
      ensures RankFlags(decode, ranks)[r][i] == 1 <==>
              && !ranks[r].Aborts()
              && (ranks[r].Takes(i) ==> ranks[r].outcomes[i].Passes? && (decode[i] ==> ranks[r].builds))
    {
      assert RankFlags(decode, ranks)[r][i] == ranks[r].Flag(decode, i);
    }
  }

  lemma {:induction false} AgreedIsFlag(flags: seq<seq<int>>, hashes: seq<int>, n: nat, i: nat)
    requires SameLength(flags, n) && AreFlags(flags) && |hashes| == |flags| && i < n
    ensures Agree(flags, hashes, n)[i] == 0 || Agree(flags, hashes, n)[i] == 1
  {
    if |flags| > 1 { AllMinIsOne(flags, n, i); }
  }

  /** An entry is on everywhere or nowhere if and only if something stands in its way or the ranks take it alike: with
  the same switches and the same model structure it always is. */
  lemma {:induction false} EnabledOnAllOrNone(decode: seq<bool>, ranks: seq<Rank>, i: nat)
    requires i < |decode| && AllFit(|decode|, ranks)
    ensures (forall r, q :: 0 <= r < |ranks| && 0 <= q < |ranks| ==>
               Enabled(decode, ranks, r, i) == Enabled(decode, ranks, q, i))
            <==> (!Unopposed(decode, ranks, i) || forall r, q :: 0 <= r < |ranks| && 0 <= q < |ranks| ==>
                    ranks[r].Takes(i) == ranks[q].Takes(i))
  {
    forall r | 0 <= r < |ranks|
      ensures Enabled(decode, ranks, r, i) <==> ranks[r].Takes(i) && Unopposed(decode, ranks, i)
    {
      EnabledIffUnopposed(decode, ranks, r, i);
    }
  }

  // ---------------------------------------------------------------------------------------------- the column split

  /** What one rank found for one candidate layer: ineligible, or the outcome of the bit-exact check per row count. */
  datatype Local = Skipped | Checked(ok: seq<bool>)

  /** The rank's flags for the layer over maxRows row counts. */
  function FlagsOf(l: Local, maxRows: nat): (flags: seq<int>)
    ensures |flags| == maxRows && forall i :: 0 <= i < maxRows ==> flags[i] == 0 || flags[i] == 1
  {
    seq(maxRows, i requires 0 <= i < maxRows => if l.Checked? && i < |l.ok| && l.ok[i] then 1 else 0)
  }

  function AllFlags(ranks: seq<Local>, maxRows: nat): (rows: seq<seq<int>>)
    ensures |rows| == |ranks| && forall r :: 0 <= r < |rows| ==> rows[r] == FlagsOf(ranks[r], maxRows)
  {
    seq(|ranks|, r requires 0 <= r < |ranks| => FlagsOf(ranks[r], maxRows))
  }

  /** split_model: a rank splits a layer at a row count when it has a slice, the count is within the part's limit, and
  the agreed flag is set. */
  predicate Splits(ranks: seq<Local>, maxRows: nat, r: nat, lim: nat, rows: nat)
    requires r < |ranks| && lim <= maxRows
  {
    ranks[r].Checked? && 1 <= rows <= lim && AllMin(AllFlags(ranks, maxRows), maxRows)[rows - 1] == 1
  }

  /** For any local outcomes a (layer, row count) is split on every rank or on none, and only where every rank's check
  passed. */
  lemma {:induction false} SplitOnAllOrNone(ranks: seq<Local>, maxRows: nat, lim: nat, rows: nat, r: nat, q: nat)
    requires r < |ranks| && q < |ranks| && lim <= maxRows
    ensures Splits(ranks, maxRows, r, lim, rows) == Splits(ranks, maxRows, q, lim, rows)
    ensures Splits(ranks, maxRows, r, lim, rows) <==>
            && 1 <= rows <= lim
            && forall s :: 0 <= s < |ranks| ==>
                 ranks[s].Checked? && rows <= |ranks[s].ok| && ranks[s].ok[rows - 1]
  {
    if 1 <= rows <= lim {
      var flags := AllFlags(ranks, maxRows);
      AllMinIsOne(flags, maxRows, rows - 1);
      assert forall s :: 0 <= s < |ranks| ==> flags[s][rows - 1] == FlagsOf(ranks[s], maxRows)[rows - 1];
      if AllMin(flags, maxRows)[rows - 1] == 1 {
        assert flags[r][rows - 1] == 1 && flags[q][rows - 1] == 1;
      }
    }
  }

  /** The gather calls of one forward pass: one per split layer, in layer order. */
  function Gathers(layers: seq<seq<Local>>, maxRows: nat, lims: seq<nat>, r: nat, rows: nat): (calls: seq<nat>)
    requires |lims| == |layers| && forall i :: 0 <= i < |layers| ==> r < |layers[i]| && lims[i] <= maxRows
    decreases |layers|
  {
    if layers == [] then []
    else
      var n := |layers| - 1;
      Gathers(layers[..n], maxRows, lims[..n], r, rows) + if Splits(layers[n], maxRows, r, lims[n],
          rows) then [n] else []
  }

  /** No rank waits in a gather its peers do not make. */
  lemma {:induction false} SameGathers(layers: seq<seq<Local>>, maxRows: nat, lims: seq<nat>, r: nat, q: nat, rows: nat)
    requires |lims| == |layers|
    requires forall i :: 0 <= i < |layers| ==> r < |layers[i]| && q < |layers[i]| && lims[i] <= maxRows
    ensures Gathers(layers, maxRows, lims, r, rows) == Gathers(layers, maxRows, lims, q, rows)
    decreases |layers|
  {
    if layers != [] {
      var n := |layers| - 1;
      SameGathers(layers[..n], maxRows, lims[..n], r, q, rows);
      SplitOnAllOrNone(layers[n], maxRows, lims[n], rows, r, q);
    }
  }

  // ---------------------------------------------------------------------------------------------- the columns

  /** col_range: rank r's columns when the world divides them. */
  function ColRange(loc: nat, rank: nat): (c: (nat, nat))
    ensures c.0 <= c.1 && c.1 - c.0 == loc
  {
    MulSum(rank, 1, loc);
    (rank * loc, (rank + 1) * loc)
  }

  /** The product of one row with the weight rows c0 .. c1, the rows being the output columns. */
  function Columns<T>(dot: nat -> T, c0: nat, c1: nat): (y: seq<T>)
    requires c0 <= c1
    ensures |y| == c1 - c0 && forall j :: 0 <= j < |y| ==> y[j] == dot(c0 + j)
  {
    seq(c1 - c0, j requires 0 <= j < c1 - c0 => dot(c0 + j))
  }

  /** The gather: the ranks' slices side by side. */
  function Gathered<T>(dot: nat -> T, loc: nat, world: nat): (y: seq<T>)
  {
    if world == 0 then []
    else
      var c := ColRange(loc, world - 1);
      Gathered(dot, loc, world - 1) + Columns(dot, c.0, c.1)
  }

  /** Gathering the slice products gives the full product. */
  lemma {:induction false} GatheredIsFull<T>(dot: nat -> T, loc: nat, world: nat)
    ensures Gathered(dot, loc, world) == Columns(dot, 0, world * loc)
  {
    if world > 0 {
      GatheredIsFull(dot, loc, world - 1);
      MulSum(world - 1, 1, loc);
    }
  }
}
