/** The adaptive draft length (overlay/adaptive_k_scheduler.py): a moving average per request with hysteresis, and a
bounded ring of hand-outs.  Reals stand for float64. */
module AdaptiveK {
  import opened Basics
  import opened Vectors

  /** What the configuration check accepts. */
  datatype Config = Config(kLo: nat, kHi: nat, up: real, down: real, alpha: real, seed: real, pos: bool, uniform: bool)
  {
    predicate Valid()
    {
      1 <= kLo <= kHi && 0.0 <= down <= up <= 1.0 && 0.0 < alpha <= 1.0 && 0.0 <= seed <= 1.0
    }

    /** The hysteresis: high from up on, low from down on, and no change in between; a new request starts high. */
    function KFor(ema: real, current: Option<nat>): (k: nat)
    {
      if ema >= up then kHi else if ema <= down then kLo else if current.None? then kHi else current.value
    }
  }

  datatype ReqState = ReqState(ema: real, k: nat)

  /** The per-step signal from the accepted prefix, over the positions that are always drafted. */
  function Signal(cfg: Config, accepted: int, drafted: int): (s: real)
    requires cfg.Valid()
    ensures 0.0 <= s <= 1.0
  {
    var denom := Min(cfg.kLo, Max(drafted, 1));
    var got := Min(Max(accepted, 0), denom);
    if cfg.pos then (if got >= denom then 1.0 else 0.0)
    else
      ProperFraction(got, denom);
      got as real / denom as real
  }

  lemma ProperFraction(a: nat, b: nat)
    requires a <= b && b > 0
    ensures 0.0 <= a as real / b as real <= 1.0
  {
    var q := a as real / b as real;
    assert q * b as real == a as real;
  }

  function Fresh(cfg: Config): ReqState { ReqState(cfg.seed, cfg.KFor(cfg.seed, None)) }

  function Observed(cfg: Config, s: ReqState, accepted: int, drafted: int): (r: ReqState)
    requires cfg.Valid()
  {
    if drafted <= 0 then s
    else s.(ema := Mul(cfg.alpha, Signal(cfg, accepted, drafted)) + Mul(1.0 - cfg.alpha, s.ema))
  }

  function Asked(cfg: Config, s: ReqState): (r: ReqState) { s.(k := cfg.KFor(s.ema, Some(s.k))) }

  ghost predicate Sound(cfg: Config, s: ReqState) { 0.0 <= s.ema <= 1.0 && (s.k == cfg.kLo || s.k == cfg.kHi) }

  lemma {:induction false} ObservedSound(cfg: Config, s: ReqState, accepted: int, drafted: int)
    requires cfg.Valid() && Sound(cfg, s)
    ensures Sound(cfg, Observed(cfg, s, accepted, drafted))
  {
    MixBounds(cfg.alpha, Signal(cfg, accepted, drafted), s.ema);
  }

  /** A weighted mean of two numbers in [0, 1]: in [0, 1], and at least each part. */
  lemma MixBounds(a: real, x: real, y: real)
    requires 0.0 <= a <= 1.0 && 0.0 <= x <= 1.0 && 0.0 <= y <= 1.0
    ensures 0.0 <= Mul(a, x) <= a && 0.0 <= Mul(1.0 - a, y) <= 1.0 - a && 0.0 <= Mul(1.0 - a, 1.0 - y)
    ensures Mul(a, x) + Mul(1.0 - a, y) >= Mul(1.0 - a, y)
    ensures 1.0 - (Mul(a, x) + Mul(1.0 - a, y)) >= Mul(1.0 - a, 1.0 - y)
  {
    NonNegativeProduct(a, x);
    NonNegativeProduct(a, 1.0 - x);
    NonNegativeProduct(1.0 - a, y);
    NonNegativeProduct(1.0 - a, 1.0 - y);
    assert Mul(a, 1.0 - x) == a - Mul(a, x);
    assert Mul(1.0 - a, 1.0 - y) == (1.0 - a) - Mul(1.0 - a, y);
  }

  /** The policy object. */
  class Policy {
    const cfg: Config
    var state: map<nat, ReqState>
    var observations: nat
    var switches: nat

    ghost predicate Valid()
      reads this
    {
      cfg.Valid() && forall r :: r in state ==> Sound(cfg, state[r])
    }

    function StateOf(r: nat): ReqState
      reads this
    {
      if r in state then state[r] else Fresh(cfg)
    }

    constructor (cfg: Config)
      requires cfg.Valid()
      ensures Valid() && this.cfg == cfg && state == map[] && observations == 0 && switches == 0
    {
      this.cfg, state, observations, switches := cfg, map[], 0, 0;
    }

    method Observe(r: nat, accepted: int, drafted: int) returns (ema: real)
      requires Valid()
      modifies this`state, this`observations
      ensures Valid() && state.Keys == old(state.Keys) + {r} && ema == state[r].ema && state[r].k == old(StateOf(r)).k
      ensures forall q :: q in state && q != r ==> state[q] == old(state)[q]
      ensures state[r] == Observed(cfg, old(StateOf(r)), accepted, drafted)
      ensures observations == old(observations) + if drafted > 0 then 1 else 0
    {
      var st := StateOf(r);
      ObservedSound(cfg, st, accepted, drafted);
      if drafted > 0 {
        st := st.(ema := cfg.alpha * Signal(cfg, accepted, drafted) + (1.0 - cfg.alpha) * st.ema);
        observations := observations + 1;
      }
      state := state[r := st];
      ema := st.ema;
    }

    method Decide(r: nat) returns (k: nat)
      requires Valid()
      modifies this`state, this`switches
      ensures Valid() && state == old(state)[r := Asked(cfg, old(StateOf(r)))] && k == state[r].k
      ensures switches == old(switches) + if k != old(StateOf(r)).k then 1 else 0
    {
      var st := StateOf(r);
      k := cfg.KFor(st.ema, Some(st.k));
      if k != st.k { switches := switches + 1; }
      state := state[r := st.(k := k)];
    }

    method Evict(r: nat)
      requires Valid()
      modifies this`state
      ensures Valid() && state == old(state) - {r}
    {
      state := state - {r};
    }

    /** Every listed request is asked once; others keep their state. */
    method DecideEach(ids: seq<nat>) returns (ks: seq<nat>)
      requires Valid() && forall i, j :: 0 <= i < j < |ids| ==> ids[i] != ids[j]
      modifies this`state, this`switches
      ensures Valid() && |ks| == |ids|
      ensures forall i :: 0 <= i < |ids| ==>
                ids[i] in state && state[ids[i]] == Asked(cfg, old(StateOf(ids[i]))) && ks[i] == state[ids[i]].k
      ensures forall r :: r !in ids ==> (r in state <==> r in old(state)) && (r in state ==> state[r] == old(state)[r])
    {
      ks := [];
      while |ks| < |ids|
        invariant |ks| <= |ids| && Valid()
        invariant forall i :: 0 <= i < |ks| ==>
                    ids[i] in state && state[ids[i]] == Asked(cfg, old(StateOf(ids[i]))) && ks[i] == state[ids[i]].k
        invariant forall r :: r !in ids[..|ks|] ==>
                    (r in state <==> r in old(state)) && (r in state ==> state[r] == old(state)[r])
      {
        assert ids[|ks|] !in ids[..|ks|];
        var k := Decide(ids[|ks|]);
        assert ids[..|ks| + 1] == ids[..|ks|] + [ids[|ks|]];
        ks := ks + [k];
      }
      assert ids[..|ks|] == ids;
    }

    /** assign_lengths: never more than the engine drafts; in the uniform mode one length for all, the high one only if
    every request is high. */
    method AssignLengths(ids: seq<nat>, engineK: int) returns (lens: map<nat, nat>)
      requires Valid() && forall i, j :: 0 <= i < j < |ids| ==> ids[i] != ids[j]
      modifies this`state, this`switches
      ensures Valid() && (forall r :: r in lens <==> r in ids)
      ensures forall r :: r in lens ==> lens[r] <= Max(0, engineK)
      ensures forall r :: r in ids ==> r in state && state[r] == Asked(cfg, old(StateOf(r)))
      ensures !cfg.uniform ==> forall r :: r in lens ==> lens[r] == Max(0, Min(state[r].k, engineK))
      ensures cfg.uniform ==> forall r :: r in lens ==>
                lens[r] == Max(0, Min(if forall q :: q in ids ==>
                    state[q].k == cfg.kHi then cfg.kHi else cfg.kLo, engineK))
    {
      var ks := DecideEach(ids);
      if cfg.uniform {
        var low := exists i :: 0 <= i < |ks| && ks[i] != cfg.kHi;
        ks := seq(|ks|, _ => if low then cfg.kLo else cfg.kHi);
      }
      lens := Placeholders(ids, ks, engineK);
    }
  }

  /** The mapping from request to length. */
  method Placeholders(ids: seq<nat>, ks: seq<nat>, engineK: int) returns (lens: map<nat, nat>)
    requires |ids| == |ks| && forall i, j :: 0 <= i < j < |ids| ==> ids[i] != ids[j]
    ensures forall r :: r in lens <==> r in ids
    ensures forall i :: 0 <= i < |ids| ==> ids[i] in lens && lens[ids[i]] == Placeholder(ks[i], engineK)
  {
    lens := map[];
    var i := 0;
    while i < |ids|
      invariant 0 <= i <= |ids|
      invariant forall r :: r in lens <==> r in ids[..i]
      invariant forall j :: 0 <= j < i ==> ids[j] in lens && lens[ids[j]] == Placeholder(ks[j], engineK)
    {
      lens := lens[ids[i] := Placeholder(ks[i], engineK)];
      assert ids[..i + 1] == ids[..i] + [ids[i]];
      i := i + 1;
    }
    assert ids[..i] == ids;
  }

  /** placeholder_len. */
  function Placeholder(k: nat, engineK: int): (n: nat)
    ensures n <= Max(0, engineK)
  {
    Max(0, Min(k, engineK))
  }

  // ---------------------------------------------------------------------------------------------- hysteresis over runs

  /** What happens to one request while it is tracked: a step's outcome is observed, or a length is asked for. */
  datatype Event = Seen(accepted: int, drafted: int) | Query

  function After(cfg: Config, s: ReqState, e: Event): (r: ReqState)
    requires cfg.Valid()
  {
    match e
    case Seen(accepted, drafted) => Observed(cfg, s, accepted, drafted)
    case Query => Asked(cfg, s)
  }

  function Run(cfg: Config, s: ReqState, es: seq<Event>): (r: ReqState)
    requires cfg.Valid()
    decreases |es|
  {
    if es == [] then s else Run(cfg, After(cfg, s, es[0]), es[1..])
  }

  lemma {:induction false} RunSound(cfg: Config, s: ReqState, es: seq<Event>)
    requires cfg.Valid() && Sound(cfg, s)
    ensures Sound(cfg, Run(cfg, s, es))
    decreases |es|
  {
    if es != [] {
      if es[0].Seen? { ObservedSound(cfg, s, es[0].accepted, es[0].drafted); }
      RunSound(cfg, After(cfg, s, es[0]), es[1..]);
    }
  }

  /** The observations that count. */
  function Observations(es: seq<Event>): (n: nat)
  {
    if es == [] then 0 else (if es[0].Seen? && es[0].drafted > 0 then 1 else 0) + Observations(es[1..])
  }

  /** (1 - alpha)^n * x. */
  function Decayed(alpha: real, x: real, n: nat): (r: real)
    decreases n
  {
    if n == 0 then x else Decayed(alpha, Mul(1.0 - alpha, x), n - 1)
  }

  lemma {:induction false} DecayedMonotone(alpha: real, x: real, y: real, n: nat)
    requires 0.0 < alpha <= 1.0 && 0.0 <= x <= y
    ensures 0.0 <= Decayed(alpha, x, n) <= Decayed(alpha, y, n)
    decreases n
  {
    if n > 0 {
      NonNegativeProduct(1.0 - alpha, x);
      NonNegativeProduct(1.0 - alpha, y - x);
      assert Mul(1.0 - alpha, y - x) == Mul(1.0 - alpha, y) - Mul(1.0 - alpha, x);
      DecayedMonotone(alpha, Mul(1.0 - alpha, x), Mul(1.0 - alpha, y), n - 1);
    }
  }

  /** An observation moves the average by no more than its weight allows, in either direction. */
  lemma {:induction false} RunMovesSlowly(cfg: Config, s: ReqState, es: seq<Event>)
    requires cfg.Valid() && Sound(cfg, s)
    ensures 1.0 - Run(cfg, s, es).ema >= Decayed(cfg.alpha, 1.0 - s.ema, Observations(es))
    ensures Run(cfg, s, es).ema >= Decayed(cfg.alpha, s.ema, Observations(es))
    decreases |es|
  {
    if es != [] {
      var next := After(cfg, s, es[0]);
      if es[0].Seen? && es[0].drafted > 0 {
        ObservedSound(cfg, s, es[0].accepted, es[0].drafted);
        OneObservation(cfg, s, es[0], Observations(es[1..]));
      }
      RunMovesSlowly(cfg, next, es[1..]);
    }
  }

  lemma {:induction false} OneObservation(cfg: Config, s: ReqState, e: Event, n: nat)
    requires cfg.Valid() && Sound(cfg, s) && e.Seen? && e.drafted > 0
    ensures Decayed(cfg.alpha, 1.0 - s.ema, n + 1) <= Decayed(cfg.alpha, 1.0 - After(cfg, s, e).ema, n)
    ensures Decayed(cfg.alpha, s.ema, n + 1) <= Decayed(cfg.alpha, After(cfg, s, e).ema, n)
  {
    MixBounds(cfg.alpha, Signal(cfg, e.accepted, e.drafted), s.ema);
    DecayedMonotone(cfg.alpha, Mul(1.0 - cfg.alpha, 1.0 - s.ema), 1.0 - After(cfg, s, e).ema, n);
    DecayedMonotone(cfg.alpha, Mul(1.0 - cfg.alpha, s.ema), After(cfg, s, e).ema, n);
  }

  /** A query that lowers, or raises, the request's length. */
  ghost predicate SwitchesDown(cfg: Config, s: ReqState) { cfg.kLo < cfg.kHi && s.k == cfg.kHi &&
      Asked(cfg, s).k == cfg.kLo }

  ghost predicate SwitchesUp(cfg: Config, s: ReqState) { cfg.kLo < cfg.kHi && s.k == cfg.kLo &&
      Asked(cfg, s).k == cfg.kHi }

  /** j observations cannot lead from the lower threshold to the upper one, or back. */
  ghost predicate TooFewToRise(cfg: Config, j: nat) { Decayed(cfg.alpha, 1.0 - cfg.down, j) > 1.0 - cfg.up }

  ghost predicate TooFewToFall(cfg: Config, j: nat) { Decayed(cfg.alpha, cfg.up, j) > cfg.down }

  /** Between a switch down and the next switch up at least n observations count, n being the first at which
  (1 - alpha)^n * (1 - down) has come down to 1 - up. */
  lemma {:induction false} UpwardDwell(cfg: Config, s: ReqState, es: seq<Event>, n: nat)
    requires cfg.Valid() && Sound(cfg, s) && SwitchesDown(cfg, s) && SwitchesUp(cfg, Run(cfg, Asked(cfg, s), es))
    requires forall j: nat :: j < n ==> TooFewToRise(cfg, j)
    ensures Observations(es) >= n
  {
    RunMovesSlowly(cfg, Asked(cfg, s), es);
    DecayedMonotone(cfg.alpha, 1.0 - cfg.down, 1.0 - s.ema, Observations(es));
    assert !TooFewToRise(cfg, Observations(es));
  }

  /** Between a switch up and the next switch down, likewise with (1 - alpha)^n * up against down. */
  lemma {:induction false} DownwardDwell(cfg: Config, s: ReqState, es: seq<Event>, n: nat)
    requires cfg.Valid() && Sound(cfg, s) && SwitchesUp(cfg, s) && SwitchesDown(cfg, Run(cfg, Asked(cfg, s), es))
    requires forall j: nat :: j < n ==> TooFewToFall(cfg, j)
    ensures Observations(es) >= n
  {
    RunMovesSlowly(cfg, Asked(cfg, s), es);
    DecayedMonotone(cfg.alpha, cfg.up, s.ema, Observations(es));
    assert !TooFewToFall(cfg, Observations(es));
  }

  /** n drafts of the shorter length, all accepted in full or all rejected. */
  function Streak(cfg: Config, accepted: bool, n: nat): (es: seq<Event>)
    ensures |es| == n
  {
    seq(n, _ => Seen(if accepted then cfg.kLo else 0, cfg.kLo))
  }

  /** Both bounds are reached: after full acceptances the distance to 1, and after full rejections the distance to 0,
  is exactly the decayed one. */
  lemma {:induction false} StreakIsFastest(cfg: Config, s: ReqState, accepted: bool, n: nat)
    requires cfg.Valid() && Sound(cfg, s)
    ensures var es := Streak(cfg, accepted, n);
            && Observations(es) == n && Run(cfg, s, es).k == s.k
            && (accepted ==> 1.0 - Run(cfg, s, es).ema == Decayed(cfg.alpha, 1.0 - s.ema, n))
            && (!accepted ==> Run(cfg, s, es).ema == Decayed(cfg.alpha, s.ema, n))
    decreases n
  {
    if n > 0 {
      hide Observed, Mul, Sound;
      var e := Seen(if accepted then cfg.kLo else 0, cfg.kLo);
      assert Streak(cfg, accepted, n) == [e] + Streak(cfg, accepted, n - 1);
      ExtremeObservation(cfg, s, e.accepted);
      ObservedSound(cfg, s, e.accepted, cfg.kLo);
      StreakIsFastest(cfg, After(cfg, s, e), accepted, n - 1);
    }
  }

  lemma ExtremeObservation(cfg: Config, s: ReqState, accepted: nat)
    requires cfg.Valid()
    ensures Observed(cfg, s, accepted, cfg.kLo).k == s.k
    ensures accepted == cfg.kLo ==> 1.0 - Observed(cfg, s, accepted, cfg.kLo).ema == Mul(1.0 - cfg.alpha, 1.0 - s.ema)
    ensures accepted == 0 ==> Observed(cfg, s, accepted, cfg.kLo).ema == Mul(1.0 - cfg.alpha, s.ema)
  {
    assert cfg.kLo as real / cfg.kLo as real == 1.0;
    assert Mul(cfg.alpha, 1.0) == cfg.alpha && Mul(cfg.alpha, 0.0) == 0.0;
    assert Mul(1.0 - cfg.alpha, 1.0 - s.ema) == (1.0 - cfg.alpha) - Mul(1.0 - cfg.alpha, s.ema);
  }

  /** So neither dwell can be stated longer: from an average right at the threshold, as many full acceptances, or
  rejections, as the bound asks for do switch. */
  lemma {:induction false} DwellIsTight(cfg: Config, s: ReqState, n: nat)
    requires cfg.Valid() && Sound(cfg, s) && cfg.kLo < cfg.kHi
    ensures s == ReqState(cfg.down, cfg.kLo) && !TooFewToRise(cfg, n) ==>
              SwitchesUp(cfg, Run(cfg, s, Streak(cfg, true, n))) && Observations(Streak(cfg, true, n)) == n
    ensures s == ReqState(cfg.up, cfg.kHi) && !TooFewToFall(cfg, n) && cfg.down < cfg.up ==>
              SwitchesDown(cfg, Run(cfg, s, Streak(cfg, false, n))) && Observations(Streak(cfg, false, n)) == n
  {
    StreakIsFastest(cfg, s, true, n);
    StreakIsFastest(cfg, s, false, n);
  }

  // ---------------------------------------------------------------------------------------------- the hand-out ring

  /** The last n elements. */
  function LastOf<T>(s: seq<T>, n: nat): (t: seq<T>)
    ensures |t| == Min(|s|, n)
  {
    if |s| <= n then s else s[|s| - n..]
  }

  class DraftedRing {
    const slots: nat
    var ring: seq<set<nat>>

    constructor (slots: nat)
      requires slots >= 1
      ensures this.slots == slots && ring == []
    {
      this.slots, ring := slots, [];
    }

    method Push(ids: set<nat>)
      requires 1 <= slots && |ring| <= slots
      modifies this
      ensures ring == LastOf(old(ring) + [ids], slots) && |ring| <= slots
    {
      ring := ring + [ids];
      if |ring| > slots { ring := ring[1..]; }
    }

    method Contains(r: nat) returns (b: bool)
      ensures b <==> exists i :: 0 <= i < |ring| && r in ring[i]
    {
      var i := 0;
      while i < |ring|
        invariant 0 <= i <= |ring| && forall j :: 0 <= j < i ==> r !in ring[j]
      {
        if r in ring[i] { return true; }
        i := i + 1;
      }
      b := false;
    }
  }

  function Pushed(ring: seq<set<nat>>, slots: nat, handouts: seq<set<nat>>): (r: seq<set<nat>>)
    decreases |handouts|
  {
    if handouts == [] then ring else Pushed(LastOf(ring + [handouts[0]], slots), slots, handouts[1..])
  }

  lemma LastOfJoin<T>(a: seq<T>, b: seq<T>, n: nat)
    ensures LastOf(LastOf(a, n) + b, n) == LastOf(a + b, n)
  {
    if |a| > n {
      assert (a[|a| - n..] + b)[|b|..] == (a + b)[|a| + |b| - n..];
    }
  }

  /** After any hand-outs the ring is the last `slots` of all of them: membership means handed out that recently. */
  lemma {:induction false} RingIsLastHandouts(ring: seq<set<nat>>, slots: nat, handouts: seq<set<nat>>)
    requires slots >= 1 && |ring| <= slots
    ensures Pushed(ring, slots, handouts) == LastOf(ring + handouts, slots)
    decreases |handouts|
  {
    if handouts == [] {
      assert ring + handouts == ring;
    } else {
      hide LastOf;
      RingIsLastHandouts(LastOf(ring + [handouts[0]], slots), slots, handouts[1..]);
      LastOfJoin(ring + [handouts[0]], handouts[1..], slots);
      assert ring + [handouts[0]] + handouts[1..] == ring + handouts;
    }
  }
}
