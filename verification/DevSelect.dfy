/** Device-side selection (overlay/glm_devselect.py): a kernel makes the policy's decision for one request, and the
price of a millisecond, kept on both sides, is passed back and forth by a dirty flag. */
module DevSelect {
  import opened Arith
  import opened DraftTrunc
  import opened Fifo
  import opened Basics
  import opened Vectors

  const KMAX: int := 7

  /** A table with one row of chances per draft position of the selected shape. */
  predicate Fits(tab: Table) { tab.Valid() && |tab.g| == KMAX }

  lemma {:induction false} OneCover(tab: Table, conf: Conf, kmax: nat)
    requires Fits(tab) && |conf| == KMAX && kmax <= KMAX
    ensures AllCover(tab, [conf], kmax)
  {
  }

  /** For one request the worth of a length is its expected tokens minus the priced table entry. */
  lemma {:induction false} WorthOfOne(tab: Table, lam: real, conf: Conf, L: nat)
    requires Fits(tab) && |conf| == KMAX && 1 <= L <= KMAX
    ensures AllCover(tab, [conf], L)
    ensures SumExpected(tab, [conf], L) == Expected(tab, conf, L) && tab.Cost(1, L + 1) == tab.t1[L + 1]
    ensures Worth(tab, lam, [conf], L) == Expected(tab, conf, L) - Mul(lam, tab.t1[L + 1])
  {
    assert [conf][..0] == [];
    assert SumExpected(tab, [conf], L) == 0.0 + Expected(tab, conf, L);
    assert Mul(0.0, tab.rowMs) == 0.0;
  }

  /** The single-request decision of the host policy. */
  function Choice1(tab: Table, lam: real, conf: Conf, kmax: nat): (L: nat)
    requires Fits(tab) && |conf| == KMAX && 1 <= kmax <= KMAX
    ensures 1 <= L <= kmax
  {
    OneCover(tab, conf, kmax);
    Choice(tab, lam, [conf], kmax)
  }

  function Next1(tab: Table, lam: real, conf: Conf, L: nat): (next: real)
    requires Fits(tab) && |conf| == KMAX && 1 <= L <= KMAX
  {
    OneCover(tab, conf, L);
    NextLam(tab, lam, [conf], L)
  }

  function Worths1(tab: Table, lam: real, conf: Conf, kmax: nat): (vals: seq<real>)
    requires Fits(tab) && |conf| == KMAX && kmax <= KMAX
    ensures |vals| == kmax
  {
    OneCover(tab, conf, kmax);
    Worths(tab, lam, [conf], kmax)
  }

  /** What the kernel's running expected value is after the scan: that of the chosen length, or the initial one. */
  function KernelTokens(tab: Table, lam: real, conf: Conf): (e: real)
    requires Fits(tab) && |conf| == KMAX
  {
    if Scan(Worths1(tab, lam, conf, KMAX), KMAX).0 > WORST then Expected(tab, conf, Choice1(tab, lam, conf,
        KMAX)) else 1.0
  }

  /** The device tensors one graph set owns. */
  class Selector {
    const tab: Table
    var lam: real
    const pred: array<bool>
    const ring: array<nat>
    var cnt: nat
    const hist: array<nat>

    ghost predicate Valid()
      reads this
    {
      Fits(tab) && pred.Length == KMAX + 3 && ring.Length > 0 && hist.Length == KMAX + 2 && ring != hist
    }

    constructor (tab: Table, lam: real, slots: nat)
      requires Fits(tab) && slots > 0
      ensures Valid() && this.tab == tab && this.lam == lam
    {
      this.tab, this.lam, cnt := tab, lam, 0;
      pred := new bool[KMAX + 3](_ => false);
      ring := new nat[slots](_ => 0);
      hist := new nat[KMAX + 2](_ => 0);
    }

    /** select_kernel: one scan over the depths, the price, the one-hot predicates, the ring and the histogram. */
    method Select(conf: Conf, valid: bool, force: int) returns (sel: nat)
      requires Valid() && |conf| == KMAX && force <= KMAX
      modifies this`lam, this`cnt, pred, ring, hist
      ensures Valid()
      ensures sel == if force >= 1 then force else if valid then Choice1(tab, old(lam), conf, KMAX) else KMAX
      ensures lam == if valid then Blend(old(lam), KernelTokens(tab, old(lam), conf), tab.t1[Choice1(tab, old(lam),
              conf, KMAX) + 1]) else old(lam)
      ensures forall m :: 2 <= m <= KMAX + 1 ==> (pred[m] <==> m == sel + 1)
      ensures cnt == old(cnt) + 1 && ring[old(cnt) % ring.Length] == sel
      ensures forall i :: 0 <= i < ring.Length && i != old(cnt) % ring.Length ==> ring[i] == old(ring[i])
      ensures hist[sel] == old(hist[sel]) + 1
      ensures forall i :: 0 <= i < hist.Length && i != sel ==> hist[i] == old(hist[i])
    {
      var bL, bE := ScanDepths(conf);
      sel := if force >= 1 then force else if valid then bL else KMAX;
      if valid { lam := (1.0 - ALPHA) * lam + ALPHA * bE / tab.t1[bL + 1]; }
      var m := 2;
      while m < KMAX + 2
        invariant 2 <= m <= KMAX + 2
        invariant forall k :: 2 <= k < m ==> (pred[k] <==> k == sel + 1)
        modifies pred
      {
        pred[m] := sel + 1 == m;
        m := m + 1;
      }
      ring[cnt % ring.Length] := sel;
      cnt := cnt + 1;
      hist[sel] := hist[sel] + 1;
    }

    /** The loop over the depths. */
    method ScanDepths(conf: Conf) returns (bL: nat, bE: real)
      requires Valid() && |conf| == KMAX
      ensures bL == Choice1(tab, lam, conf, KMAX) && bE == KernelTokens(tab, lam, conf)
    {
      ghost var worths := Worths1(tab, lam, conf, KMAX);
      var e, cum, best := 1.0, 1.0, WORST;
      bL, bE := KMAX, 1.0;
      var s := 0;
      while s < KMAX
        invariant 0 <= s <= KMAX && e == Expected(tab, conf, s) && cum == Cum(tab, conf, s)
        invariant (best, bL) == Scan(worths, s)
        invariant best >= WORST && bE == if best > WORST then Expected(tab, conf, bL) else 1.0
      {
        var b := CountEdges(tab.edges, conf[s]);
        cum := Mul(cum, tab.g[s][b]);
        e := e + cum;
        var v := e - Mul(lam, tab.t1[s + 2]);
        WorthOfOne(tab, lam, conf, s + 1);
        assert v == worths[s];
        if v > best { best, bL, bE := v, s + 1, e; }
        s := s + 1;
      }
    }
  }

  /** The kernel's price is the policy's exactly when some length beats the starting value, or full acceptance of the
  drafts is worth nothing: otherwise the kernel keeps the initial expected value where the policy takes the full
  length's. */
  lemma {:induction false} KernelPriceIsPolicyPrice(tab: Table, lam: real, conf: Conf)
    requires Fits(tab) && |conf| == KMAX
    ensures var L := Choice1(tab, lam, conf, KMAX);
            Blend(lam, KernelTokens(tab, lam, conf), tab.t1[L + 1]) == Next1(tab, lam, conf, L)
            <==> SomeWorth(Worths1(tab, lam, conf, KMAX)) || Expected(tab, conf, KMAX) == 1.0
  {
    var vals, L := Worths1(tab, lam, conf, KMAX), Choice1(tab, lam, conf, KMAX);
    ScanIsBest(vals, KMAX);
    ChoiceIsBest(vals);
    WorthOfOne(tab, lam, conf, L);
    if Scan(vals, KMAX).0 > WORST {
      assert vals[Scan(vals, KMAX).1 - 1] > WORST;
    }
    BlendInjective(lam, KernelTokens(tab, lam, conf), Expected(tab, conf, L), tab.t1[L + 1]);
  }

  /** A step cost beyond every worth, and drafts that are always accepted. */
  const DEAR: Table := Table([], seq(KMAX, _ => [1.0]), seq(9, _ => 10000000000000000000000000000000.0), 0.0)

  /** The prices do differ: with that table no length beats the start of the scan, and the kernel expects one token
  where the policy expects eight. */
  lemma {:induction false} KernelPriceCanDiffer(conf: Conf)
    requires |conf| == KMAX
    ensures Fits(DEAR)
    ensures var L := Choice1(DEAR, 1.0, conf, KMAX);
            L == KMAX && Blend(1.0, KernelTokens(DEAR, 1.0, conf), DEAR.t1[L + 1]) != Next1(DEAR, 1.0, conf, L)
  {
    var vals := Worths1(DEAR, 1.0, conf, KMAX);
    forall M | 0 <= M < KMAX
      ensures vals[M] <= WORST
    {
      WorthOfOne(DEAR, 1.0, conf, M + 1);
      ExpectedBounded(DEAR, conf, M + 1);
    }
    ChoiceIsBest(vals);
    assert Cum(DEAR, conf, 1) == Mul(Cum(DEAR, conf, 0), 1.0) == 1.0;
    MoreIsExpected(DEAR, conf, 1, KMAX);
    KernelPriceIsPolicyPrice(DEAR, 1.0, conf);
  }

  lemma {:induction false} MoreIsExpected(tab: Table, conf: Conf, s: nat, t: nat)
    requires tab.Valid() && tab.Covers(conf) && s <= t <= |conf|
    ensures Expected(tab, conf, s) <= Expected(tab, conf, t)
  {
    if s < t {
      MoreIsExpected(tab, conf, s, t - 1);
      CumBounded(tab, conf, t);
    }
  }

  lemma BlendInjective(lam: real, a: real, b: real, ms: real)
    requires ms > 0.0
    ensures Blend(lam, a, ms) == Blend(lam, b, ms) <==> a == b
  {
    var p, q := ALPHA * a / ms, ALPHA * b / ms;
    assert p * ms == 0.05 * a && q * ms == 0.05 * b;
  }

  /** A price with a representable product rules the odd case out. */
  lemma {:induction false} SanePriceHasWorth(tab: Table, lam: real, conf: Conf, kmax: nat)
    requires Fits(tab) && |conf| == KMAX && 1 <= kmax <= KMAX && Mul(lam, tab.t1[2]) <= -WORST
    ensures SomeWorth(Worths1(tab, lam, conf, kmax))
  {
    WorthOfOne(tab, lam, conf, 1);
    ExpectedBounded(tab, conf, 1);
    assert Worths1(tab, lam, conf, kmax)[0] > WORST;
  }

  // --------------------------------------------------------------------------------------- one price on two sides

  /** The scores of one draft, one per position, and a table of that shape. */
  type Scores = c: Conf | |c| == KMAX witness seq(KMAX, _ => 0.0)

  type Fitted = t: Table | Fits(t) witness Table([], seq(KMAX, _ => [1.0]), seq(9, _ => 1.0), 0.0)

  /** What reaches the device: a proposal's scores (for the kernel, and into a pinned slot), a selection, the
  publication of the device price, a price written back. */
  datatype Command =
    | Propose(conf: Scores, valid: bool)
    | Keep(slot: nat, rows: seq<Scores>)
    | Selection(k: nat)
    | Publish
    | Fill(price: real)

  datatype Device =
    Device(lam: real, conf: Scores, valid: bool, pin: real, slots: seq<seq<Scores>>, lens: map<nat, nat>)

  function Perform(tab: Fitted, d: Device, c: Command): (r: Device)
    ensures |r.slots| == |d.slots|
  {
    match c
    case Propose(conf, valid) => if valid then d.(conf := conf, valid := true) else d.(valid := false)
    case Keep(slot, rows) => if slot < |d.slots| then d.(slots := d.slots[slot := rows]) else d
    case Selection(k) =>
      if d.valid then
        var L := Choice1(tab, d.lam, d.conf, KMAX);
        d.(lam := Blend(d.lam, KernelTokens(tab, d.lam, d.conf), tab.t1[L + 1]), lens := d.lens[k := L])
      else d.(lens := d.lens[k := KMAX])
    case Publish => d.(pin := d.lam)
    case Fill(price) => d.(lam := price)
  }

  function Runner(tab: Fitted): (Device, Command) -> Device { (d, c) => Perform(tab, d, c) }

  /** A draft of one or more requests whose scores lie in a pinned slot, a row per request. */
  datatype Draft = Draft(event: nat, index: nat, rows: seq<Scores>)

  /** A draft to be scored afterwards: the rows of the requests that are live, and their scheduled drafts. */
  datatype Gated = Gated(draft: Draft, live: seq<nat>, kmax: nat)

  /** The scores of one request of a draft. */
  function RowAt(rows: seq<Scores>, i: nat): Scores { if i < |rows| then rows[i] else seq(KMAX, _ => 0.0) }

  /** Both sides. `decided` is history: the scores and lengths offered to every decision made so far, in program
  order; hostLens holds the lengths the host chose, the device log those the kernel chose. */
  datatype World =
    World(dev: Device, pending: seq<Op<Command>>, hostLam: Option<real>, dirty: bool, pend: Option<Draft>,
          unscored: Option<Gated>, index: nat, proposed: bool, hostLens: map<nat, nat>, decided: seq<(Scores, nat)>)

  /** The event of the published price; drafts use the events behind it. */
  const LAM_EVENT: int := 0

  datatype Mode = OnDevice(launched: bool) | Gate(live: seq<nat>, kmax: nat) | Decide(live: seq<nat>, kmax: nat) | Skip

  datatype Action = Drafted(rows: seq<Scores>) | NoDraft | Execute(mode: Mode) | DeviceStep

  function Enqueue(w: World, c: Command): World { w.(pending := w.pending + [Work(c)]) }

  function Await(tab: Fitted, w: World, event: nat): (r: World)
    ensures |r.dev.slots| == |w.dev.slots|
  {
    KeepsSlots(tab, w.dev, w.pending[..Awaited(w.pending, event)]);
    w.(dev := Ran(Runner(tab), w.dev, w.pending, event), pending := Left(w.pending, event))
  }

  lemma {:induction false} KeepsSlots(tab: Fitted, d: Device, ops: seq<Op<Command>>)
    ensures |RunOps(Runner(tab), d, ops).slots| == |d.slots|
    decreases |ops|
  {
    if ops != [] { KeepsSlots(tab, if ops[0].Work? then Runner(tab)(d, ops[0].op) else d, ops[1..]); }
  }

  function HostPrice(start: real, w: World): real { if w.hostLam.Some? then w.hostLam.value else start }

  /** lam_pull: adopt the device price if a device decision was made since the last exchange. */
  function Pull(tab: Fitted, w: World): (r: World)
    ensures |r.dev.slots| == |w.dev.slots|
  {
    if w.dirty then
      var r := Await(tab, w, LAM_EVENT);
      r.(hostLam := Some(r.dev.pin), dirty := false)
    else w
  }

  /** A host decision on one row of the draft's slot: pull, choose, push. */
  function HostDecision(tab: Fitted, start: real, w: World, d: Draft, row: nat, kmax: nat): (r: World)
    requires |w.dev.slots| > 0 && 1 <= kmax <= KMAX
    ensures |r.dev.slots| == |w.dev.slots|
  {
    var read := Await(tab, w, d.event);
    var conf := RowAt(read.dev.slots[d.index % |w.dev.slots|], row);
    var pulled := Pull(tab, read);
    var lam := HostPrice(start, pulled);
    var L := Choice1(tab, lam, conf, kmax);
    var next := Next1(tab, lam, conf, L);
    Enqueue(pulled, Fill(next)).(hostLam := Some(next), hostLens := w.hostLens[|w.decided| := L],
        decided := w.decided + [(RowAt(d.rows, row), kmax)])
  }

  /** The live requests decide together. One alone shares its price with the device; several wait for the scores too,
  but decide at the price of their number, which the device does not hold. */
  function LiveDecision(tab: Fitted, start: real, w: World, d: Draft, live: seq<nat>, kmax: nat): (r: World)
    requires |w.dev.slots| > 0 && 1 <= kmax <= KMAX
    ensures |r.dev.slots| == |w.dev.slots|
  {
    if |live| == 1 then HostDecision(tab, start, w, d, live[0], kmax) else Await(tab, w, d.event)
  }

  /** propose: the scores of a single request go to the kernel's input, those of every draft to the next pinned slot;
  then the draft's event is recorded. */
  function AfterDraft(w: World, rows: seq<Scores>): World
    requires |w.dev.slots| > 0
  {
    var event := w.index + 1;
    var queued := Enqueue(Enqueue(w, Propose(RowAt(rows, 0), |rows| == 1)), Keep(w.index % |w.dev.slots|, rows));
    queued.(pending := queued.pending + [Record(event)], pend := Some(Draft(event, w.index, rows)),
        index := w.index + 1, proposed := true)
  }

  /** Scoring a draft that was gated in the step before. */
  function PostHoc(tab: Fitted, start: real, w: World): (r: World)
    requires |w.dev.slots| > 0 && (w.unscored.Some? ==> 1 <= w.unscored.value.kmax <= KMAX)
    ensures |r.dev.slots| == |w.dev.slots| && r.unscored.None?
  {
    if w.unscored.None? then w
    else
      var g := w.unscored.value;
      LiveDecision(tab, start, w, g.draft, g.live, g.kmax).(unscored := None)
  }

  /** The decision on the draft that is pending now. */
  function OnPending(tab: Fitted, start: real, w: World, d: Draft, mode: Mode): World
    requires |w.dev.slots| > 0 && ModeOk(mode)
  {
    match mode
    case OnDevice(launched) =>
      if launched then
        var queued := Enqueue(Enqueue(w, Selection(|w.decided|)), Publish);
        queued.(pending := queued.pending + [Record(LAM_EVENT)], dirty := true,
            decided := w.decided + [(RowAt(d.rows, 0), KMAX)])
      else w
    case Gate(live, kmax) => w.(unscored := Some(Gated(d, live, kmax)))
    case Decide(live, kmax) => LiveDecision(tab, start, w, d, live, kmax)
    case Skip => w
  }

  predicate ModeOk(mode: Mode) { (mode.Gate? || mode.Decide?) ==> 1 <= mode.kmax <= KMAX }

  /** execute_model: score what was gated, then act on the pending draft, which is used up. */
  function Executed(tab: Fitted, start: real, w: World, mode: Mode): World
    requires |w.dev.slots| > 0 && ModeOk(mode) && (w.unscored.Some? ==> 1 <= w.unscored.value.kmax <= KMAX)
  {
    var scored := PostHoc(tab, start, w).(pend := None, proposed := false);
    if w.pend.None? then scored else OnPending(tab, start, scored, w.pend.value, mode)
  }

  /** The rows are those of requests in the draft. */
  predicate LiveIn(live: seq<nat>, d: Draft) { forall i :: 0 <= i < |live| ==> live[i] < |d.rows| }

  /** One draft per step at most; the device decides only on the pending draft of a single request, the host on any of
  the drafted requests. */
  ghost predicate Legal(w: World, a: Action)
  {
    match a
    case Drafted(_) => !w.proposed
    case NoDraft => !w.proposed
    case Execute(mode) =>
      && ModeOk(mode) && (mode.OnDevice? ==> w.pend.Some? && |w.pend.value.rows| == 1)
      && ((mode.Gate? || mode.Decide?) && w.pend.Some? ==> LiveIn(mode.live, w.pend.value))
    case DeviceStep => w.pending != []
  }

  ghost predicate Shape(w: World)
  {
    |w.dev.slots| > 0 && (w.unscored.Some? ==> 1 <= w.unscored.value.kmax <= KMAX)
  }

  function Next(tab: Fitted, start: real, w: World, a: Action): World
    requires Shape(w) && Legal(w, a)
  {
    match a
    case Drafted(rows) => AfterDraft(w, rows)
    case NoDraft => w.(pend := None, proposed := true)
    case Execute(mode) => Executed(tab, start, w, mode)
    case DeviceStep => w.(dev := RunOps(Runner(tab), w.dev, w.pending[..1]), pending := w.pending[1..])
  }

  // ---------------------------------------------------------------------------------------- the sequential policy

  /** The price after a list of decisions by one sequential policy. */
  function PriceAfter(tab: Fitted, start: real, decided: seq<(Scores, nat)>): (lam: real)
    requires forall k :: 0 <= k < |decided| ==> 1 <= decided[k].1 <= KMAX
    decreases |decided|
  {
    if decided == [] then start
    else
      var n := |decided| - 1;
      var lam := PriceAfter(tab, start, decided[..n]);
      Next1(tab, lam, decided[n].0, Choice1(tab, lam, decided[n].0, decided[n].1))
  }

  /** The length the sequential policy chooses at decision k. */
  function LengthAt(tab: Fitted, start: real, decided: seq<(Scores, nat)>, k: nat): (L: nat)
    requires k < |decided| && forall k :: 0 <= k < |decided| ==> 1 <= decided[k].1 <= KMAX
  {
    Choice1(tab, PriceAfter(tab, start, decided[..k]), decided[k].0, decided[k].1)
  }

  // ---------------------------------------------------------------------------------------------- what every run keeps

  /** The device when everything enqueued has run. */
  function Logical(tab: Fitted, w: World): (d: Device)
    ensures |d.slots| == |w.dev.slots|
  {
    KeepsSlots(tab, w.dev, w.pending);
    RunOps(Runner(tab), w.dev, w.pending)
  }

  predicate IsKeep(op: Op<Command>, slot: nat) { op.Work? && op.op.Keep? && op.op.slot == slot }

  ghost predicate KeepBehind(ops: seq<Op<Command>>, slot: nat, event: nat)
  {
    forall p :: Awaited(ops, event) <= p < |ops| ==> !IsKeep(ops[p], slot)
  }

  ghost predicate PublishBehind(ops: seq<Op<Command>>)
  {
    forall p :: Awaited(ops, LAM_EVENT) <= p < |ops| ==> ops[p] != Work(Publish)
  }

  lemma {:induction false} LogicalAppend(tab: Fitted, w: World, c: Command)
    ensures Logical(tab, Enqueue(w, c)) == Perform(tab, Logical(tab, w), c)
  {
    RunAppend(Runner(tab), w.dev, w.pending, Work(c));
  }

  lemma {:induction false} LogicalRecord(tab: Fitted, w: World, event: nat)
    ensures Logical(tab, w.(pending := w.pending + [Record(event)])) == Logical(tab, w)
  {
    RunAppend(Runner(tab), w.dev, w.pending, Record(event));
  }

  /** The device has run n more operations. */
  function Ahead(tab: Fitted, w: World, n: nat): (r: World)
    requires n <= |w.pending|
    ensures |r.dev.slots| == |w.dev.slots|
  {
    KeepsSlots(tab, w.dev, w.pending[..n]);
    w.(dev := RunOps(Runner(tab), w.dev, w.pending[..n]), pending := w.pending[n..])
  }

  lemma {:induction false} LogicalAhead(tab: Fitted, w: World, n: nat)
    requires n <= |w.pending|
    ensures Logical(tab, Ahead(tab, w, n)) == Logical(tab, w)
  {
    RunSplit(Runner(tab), w.dev, w.pending, n);
  }

  lemma {:induction false} BehindAhead(ops: seq<Op<Command>>, n: nat, slot: nat, event: nat)
    requires n <= |ops|
    ensures KeepBehind(ops, slot, event) ==> KeepBehind(ops[n..], slot, event)
    ensures PublishBehind(ops) ==> PublishBehind(ops[n..])
  {
    AwaitedRest(ops, n, event);
    AwaitedRest(ops, n, LAM_EVENT);
  }

  lemma {:induction false} QuietSlot(tab: Fitted, d: Device, ops: seq<Op<Command>>, slot: nat)
    requires slot < |d.slots| && forall p :: 0 <= p < |ops| ==> !IsKeep(ops[p], slot)
    ensures |RunOps(Runner(tab), d, ops).slots| == |d.slots| && RunOps(Runner(tab), d, ops).slots[slot] == d.slots[slot]
    decreases |ops|
  {
    if ops != [] {
      assert !IsKeep(ops[0], slot);
      QuietSlot(tab, if ops[0].Work? then Runner(tab)(d, ops[0].op) else d, ops[1..], slot);
    }
  }

  lemma {:induction false} QuietPin(tab: Fitted, d: Device, ops: seq<Op<Command>>)
    requires forall p :: 0 <= p < |ops| ==> ops[p] != Work(Publish)
    ensures RunOps(Runner(tab), d, ops).pin == d.pin
    decreases |ops|
  {
    if ops != [] {
      assert ops[0] != Work(Publish);
      QuietPin(tab, if ops[0].Work? then Runner(tab)(d, ops[0].op) else d, ops[1..]);
    }
  }

  /** After waiting for a draft its slot holds its own scores. */
  lemma {:induction false} SlotAfterAwait(tab: Fitted, w: World, slot: nat, event: nat)
    requires slot < |w.dev.slots| && KeepBehind(w.pending, slot, event)
    ensures Await(tab, w, event).dev.slots[slot] == Logical(tab, w).slots[slot]
  {
    var n := Awaited(w.pending, event);
    LogicalAhead(tab, w, n);
    QuietSlot(tab, Ahead(tab, w, n).dev, w.pending[n..], slot);
  }

  lemma {:induction false} PinAfterAwait(tab: Fitted, w: World)
    requires PublishBehind(w.pending)
    ensures Await(tab, w, LAM_EVENT).dev.pin == Logical(tab, w).pin
  {
    var n := Awaited(w.pending, LAM_EVENT);
    LogicalAhead(tab, w, n);
    QuietPin(tab, Ahead(tab, w, n).dev, w.pending[n..]);
  }

  /** The draft's scores are, or will be, in its slot when its event fires. */
  ghost predicate Held(tab: Fitted, w: World, d: Draft)
    requires |w.dev.slots| > 0
  {
    && d.event == d.index + 1 && d.index < w.index
    && Logical(tab, w).slots[d.index % |w.dev.slots|] == d.rows
    && KeepBehind(w.pending, d.index % |w.dev.slots|, d.event)
  }

  ghost predicate DraftsOk(tab: Fitted, w: World)
    requires |w.dev.slots| > 0
  {
    && (w.pend.Some? ==>
          var d := w.pend.value;
          && Held(tab, w, d) && d.index + 1 == w.index && w.proposed
          && (|d.rows| == 1 ==> Logical(tab, w).conf == d.rows[0] && Logical(tab, w).valid))
    && (w.unscored.Some? ==>
          var g := w.unscored.value;
          && Held(tab, w, g.draft) && LiveIn(g.live, g.draft) && 1 <= g.kmax <= KMAX
          && w.index <= g.draft.index + 2 && (w.index == g.draft.index + 2 ==> w.proposed))
  }

  ghost predicate DecidedOk(decided: seq<(Scores, nat)>) { forall k :: 0 <= k < |decided| ==>
      1 <= decided[k].1 <= KMAX }

  /** The device's price is always the sequential policy's; the host's is, unless it is marked stale, and then the
  published copy is. */
  ghost predicate PriceOk(tab: Fitted, start: real, w: World)
  {
    && DecidedOk(w.decided) && Logical(tab, w).lam == PriceAfter(tab, start, w.decided)
    && (w.dirty ==> Logical(tab, w).pin == PriceAfter(tab, start, w.decided) && PublishBehind(w.pending))
    && (!w.dirty ==> HostPrice(start, w) == PriceAfter(tab, start, w.decided))
  }

  /** Every decision, on either side, chose what the sequential policy chooses. */
  ghost predicate LensOk(tab: Fitted, start: real, w: World)
    requires DecidedOk(w.decided)
  {
    && (forall k :: k in w.hostLens ==> k < |w.decided|)
    && (forall k: nat :: k < |w.decided| ==> ChoseRight(tab, start, w, k))
  }

  ghost predicate ChoseRight(tab: Fitted, start: real, w: World, k: nat)
    requires DecidedOk(w.decided) && k < |w.decided|
  {
    if k in w.hostLens then w.hostLens[k] == LengthAt(tab, start, w.decided, k)
    else k in Logical(tab, w).lens && Logical(tab, w).lens[k] == LengthAt(tab, start, w.decided, k)
  }

  ghost predicate Coherent(tab: Fitted, start: real, w: World)
  {
    |w.dev.slots| >= 2 && DraftsOk(tab, w) && PriceOk(tab, start, w) && LensOk(tab, start, w)
  }

  lemma {:induction false} AheadKeeps(tab: Fitted, start: real, w: World, n: nat)
    requires Coherent(tab, start, w) && n <= |w.pending|
    ensures Coherent(tab, start, Ahead(tab, w, n))
    ensures forall d: Draft :: Held(tab, w, d) ==> Held(tab, Ahead(tab, w, n), d)
  {
    var r := Ahead(tab, w, n);
    LogicalAhead(tab, w, n);
    forall d: Draft | Held(tab, w, d)
      ensures Held(tab, r, d)
    {
      BehindAhead(w.pending, n, d.index % |w.dev.slots|, d.event);
    }
    BehindAhead(w.pending, n, 0, 0);
    forall k: nat | k < |w.decided|
      ensures ChoseRight(tab, start, r, k)
    {
      assert ChoseRight(tab, start, w, k);
    }
  }

  // ---------------------------------------------------------------------------------------------- a sane price

  /** The table keeps the price small enough for the kernel's scan to start: c bounds the step costs from below, bound
  covers the start and the best rate, and its product with the cheapest length's cost is representable. */
  ghost predicate Sane(tab: Fitted, start: real, c: real, bound: real)
  {
    && CheapestStep(tab, 1, KMAX, c) && 0.0 < start <= bound && 8.0 / c <= bound && Mul(bound, tab.t1[2]) <= -WORST
  }

  lemma {:induction false} PriceBounded(tab: Fitted, start: real, c: real, bound: real, decided: seq<(Scores, nat)>)
    requires Sane(tab, start, c, bound) && DecidedOk(decided)
    ensures 0.0 < PriceAfter(tab, start, decided) <= bound
    decreases |decided|
  {
    if decided != [] {
      var n := |decided| - 1;
      var before, conf := decided[..n], decided[n].0;
      PriceBounded(tab, start, c, bound, before);
      var lam := PriceAfter(tab, start, before);
      var L := Choice1(tab, lam, conf, decided[n].1);
      OneCover(tab, conf, L);
      RateBound(L, c, bound);
      NextLamBounded(tab, lam, [conf], KMAX, L, c, bound);
    }
  }

  lemma RateBound(L: nat, c: real, bound: real)
    requires L <= KMAX && c > 0.0 && 8.0 / c <= bound
    ensures Mul(1.0, 1.0 + L as real) / c <= bound
  {
    QuotientBound(1.0 + L as real, 8.0, c, c);
  }

  lemma {:induction false} KernelIsPolicy(tab: Fitted, start: real, c: real, bound: real, decided: seq<(Scores,
      nat)>, conf: Scores)
    requires Sane(tab, start, c, bound) && DecidedOk(decided)
    ensures var lam := PriceAfter(tab, start, decided);
            var L := Choice1(tab, lam, conf, KMAX);
            Blend(lam, KernelTokens(tab, lam, conf), tab.t1[L + 1]) == Next1(tab, lam, conf, L)
  {
    var lam := PriceAfter(tab, start, decided);
    PriceBounded(tab, start, c, bound, decided);
    ScaleMul(lam, bound, tab.t1[2]);
    SanePriceHasWorth(tab, lam, conf, KMAX);
    KernelPriceIsPolicyPrice(tab, lam, conf);
  }

  lemma ScaleMul(a: real, b: real, c: real)
    requires a <= b && c > 0.0
    ensures Mul(a, c) <= Mul(b, c)
  {
  }

  /** The lengths of earlier decisions do not depend on later ones. */
  ghost predicate SamePast(tab: Fitted, start: real, decided: seq<(Scores, nat)>, more: seq<(Scores, nat)>)
    requires DecidedOk(decided) && DecidedOk(more) && |decided| <= |more|
  {
    forall k: nat :: k < |decided| ==> LengthAt(tab, start, more, k) == LengthAt(tab, start, decided, k)
  }

  lemma {:induction false} OneMoreDecision(tab: Fitted, start: real, decided: seq<(Scores, nat)>, d: (Scores, nat))
    requires DecidedOk(decided) && 1 <= d.1 <= KMAX
    ensures DecidedOk(decided + [d]) && SamePast(tab, start, decided, decided + [d])
    ensures var more, lam := decided + [d], PriceAfter(tab, start, decided);
            && PriceAfter(tab, start, more) == Next1(tab, lam, d.0, Choice1(tab, lam, d.0, d.1))
            && LengthAt(tab, start, more, |decided|) == Choice1(tab, lam, d.0, d.1)
  {
    var more := decided + [d];
    assert more[..|decided|] == decided;
    forall k: nat | k < |decided|
      ensures LengthAt(tab, start, more, k) == LengthAt(tab, start, decided, k)
    {
      assert more[..k] == decided[..k];
    }
  }

  // ---------------------------------------------------------------------------------------------- the steps

  /** A drafted request's slot is only written again when the ring has come round. */
  lemma {:induction false} EnqueueHeld(tab: Fitted, w: World, c: Command, d: Draft)
    requires |w.dev.slots| > 0 && Held(tab, w, d) && (c.Keep? ==> c.slot != d.index % |w.dev.slots|)
    ensures Held(tab, Enqueue(w, c), d)
  {
    LogicalAppend(tab, w, c);
    AwaitedAppend(w.pending, Work(c), d.event);
  }

  lemma {:induction false} RecordHeld(tab: Fitted, w: World, event: nat, d: Draft)
    requires |w.dev.slots| > 0 && Held(tab, w, d)
    ensures Held(tab, w.(pending := w.pending + [Record(event)]), d)
  {
    LogicalRecord(tab, w, event);
    AwaitedAppend(w.pending, Record(event), d.event);
  }

  /** A new draft is held; the price, its copy and the log are as they were. */
  lemma {:induction false} DraftedHolds(tab: Fitted, w: World, rows: seq<Scores>)
    requires |w.dev.slots| >= 2
    ensures var r := AfterDraft(w, rows);
            && |r.dev.slots| == |w.dev.slots| && r.pend.Some? && Held(tab, r, r.pend.value)
            && (|rows| == 1 ==> Logical(tab, r).conf == rows[0] && Logical(tab, r).valid)
            && Logical(tab, r).lam == Logical(tab, w).lam && Logical(tab, r).pin == Logical(tab, w).pin &&
                Logical(tab, r).lens == Logical(tab, w).lens
  {
    var slot, event := w.index % |w.dev.slots|, w.index + 1;
    var w1 := Enqueue(w, Propose(RowAt(rows, 0), |rows| == 1));
    var w2 := Enqueue(w1, Keep(slot, rows));
    LogicalAppend(tab, w, Propose(RowAt(rows, 0), |rows| == 1));
    LogicalAppend(tab, w1, Keep(slot, rows));
    LogicalRecord(tab, w2, event);
    AwaitedAppend(w2.pending, Record(event), event);
  }

  lemma {:induction false} PublishAppend(ops: seq<Op<Command>>, op: Op<Command>)
    requires PublishBehind(ops) && op != Work(Publish)
    ensures PublishBehind(ops + [op])
  {
    AwaitedAppend(ops, op, LAM_EVENT);
  }

  lemma {:induction false} DraftedPublish(w: World, rows: seq<Scores>)
    requires |w.dev.slots| >= 2 && PublishBehind(w.pending)
    ensures PublishBehind(AfterDraft(w, rows).pending)
  {
    var w1 := Enqueue(w, Propose(RowAt(rows, 0), |rows| == 1));
    var w2 := Enqueue(w1, Keep(w.index % |w.dev.slots|, rows));
    PublishAppend(w.pending, Work(Propose(RowAt(rows, 0), |rows| == 1)));
    PublishAppend(w1.pending, Work(Keep(w.index % |w.dev.slots|, rows)));
    PublishAppend(w2.pending, Record(w.index + 1));
  }

  lemma {:induction false} OlderHolds(tab: Fitted, w: World, rows: seq<Scores>, d: Draft)
    requires |w.dev.slots| >= 2 && Held(tab, w, d) && w.index <= d.index + 1
    ensures Held(tab, AfterDraft(w, rows), d)
  {
    var slot := w.index % |w.dev.slots|;
    ModApart(d.index, w.index, |w.dev.slots|);
    var w1 := Enqueue(w, Propose(RowAt(rows, 0), |rows| == 1));
    var w2 := Enqueue(w1, Keep(slot, rows));
    EnqueueHeld(tab, w, Propose(RowAt(rows, 0), |rows| == 1), d);
    EnqueueHeld(tab, w1, Keep(slot, rows), d);
    RecordHeld(tab, w2, w.index + 1, d);
    SameQueueHeld(tab, w2.(pending := w2.pending + [Record(w.index + 1)]), AfterDraft(w, rows), d);
  }

  lemma {:induction false} SameQueueHeld(tab: Fitted, w: World, r: World, d: Draft)
    requires |w.dev.slots| > 0 && Held(tab, w, d)
    requires r.dev == w.dev && r.pending == w.pending && r.index >= w.index
    ensures Held(tab, r, d)
  {
  }

  /** The log and the prices depend on the device, the decisions and the host only. */
  lemma {:induction false} SameDecisions(tab: Fitted, start: real, w: World, r: World)
    requires PriceOk(tab, start, w) && LensOk(tab, start, w)
    requires r.decided == w.decided && r.hostLens == w.hostLens && r.hostLam == w.hostLam && r.dirty == w.dirty
    requires Logical(tab, r).lam == Logical(tab, w).lam && Logical(tab, r).pin == Logical(tab, w).pin &&
             Logical(tab, r).lens == Logical(tab, w).lens
    requires PublishBehind(w.pending) ==> PublishBehind(r.pending)
    ensures PriceOk(tab, start, r) && LensOk(tab, start, r)
  {
    forall k: nat | k < |w.decided|
      ensures ChoseRight(tab, start, r, k)
    {
      assert ChoseRight(tab, start, w, k);
    }
  }

  lemma {:induction false} DraftedKeeps(tab: Fitted, start: real, w: World, rows: seq<Scores>)
    requires Coherent(tab, start, w) && !w.proposed
    ensures Coherent(tab, start, AfterDraft(w, rows))
  {
    DraftedHolds(tab, w, rows);
    if PublishBehind(w.pending) { DraftedPublish(w, rows); }
    if w.unscored.Some? { OlderHolds(tab, w, rows, w.unscored.value.draft); }
    SameDecisions(tab, start, w, AfterDraft(w, rows));
  }

  /** lam_pull leaves the host with the sequential policy's price. */
  lemma {:induction false} PullIsCurrent(tab: Fitted, start: real, w: World)
    requires Coherent(tab, start, w)
    ensures var r := Pull(tab, w);
            && Coherent(tab, start, r) && !r.dirty && HostPrice(start, r) == PriceAfter(tab, start, w.decided)
            && (forall d: Draft :: Held(tab, w, d) ==> Held(tab, r, d))
  {
    if w.dirty {
      PinAfterAwait(tab, w);
      var n := Awaited(w.pending, LAM_EVENT);
      AheadKeeps(tab, start, w, n);
      var a, r := Ahead(tab, w, n), Pull(tab, w);
      assert Logical(tab, a) == Logical(tab, w) by { LogicalAhead(tab, w, n); }
      assert r == a.(hostLam := Some(a.dev.pin), dirty := false);
      assert Logical(tab, r) == Logical(tab, a);
      forall d: Draft | Held(tab, w, d)
        ensures Held(tab, r, d)
      {
        assert Held(tab, a, d);
      }
      forall k: nat | k < |w.decided|
        ensures ChoseRight(tab, start, r, k)
      {
        assert ChoseRight(tab, start, a, k);
      }
    }
  }

  /** The policy's decision and its write-back, from a current price. */
  function Decided(tab: Fitted, start: real, w: World, conf: Scores, kmax: nat): World
    requires 1 <= kmax <= KMAX
  {
    var lam := HostPrice(start, w);
    var L := Choice1(tab, lam, conf, kmax);
    var next := Next1(tab, lam, conf, L);
    Enqueue(w, Fill(next)).(hostLam := Some(next), hostLens := w.hostLens[|w.decided| := L],
        decided := w.decided + [(conf, kmax)])
  }

  lemma {:induction false} DecidedKeeps(tab: Fitted, start: real, w: World, conf: Scores, kmax: nat)
    requires Coherent(tab, start, w) && !w.dirty && 1 <= kmax <= KMAX
    ensures Coherent(tab, start, Decided(tab, start, w, conf, kmax))
  {
    hide Next1, Choice1, PriceAfter, LengthAt, DraftsOk;
    var r := Decided(tab, start, w, conf, kmax);
    var lam := HostPrice(start, w);
    var next := Next1(tab, lam, conf, Choice1(tab, lam, conf, kmax));
    OneMoreDecision(tab, start, w.decided, (conf, kmax));
    LogicalAppend(tab, w, Fill(next));
    assert Logical(tab, r) == Perform(tab, Logical(tab, w), Fill(next));
    DecidedDrafts(tab, w, r, next);
    forall k: nat | k < |r.decided|
      ensures ChoseRight(tab, start, r, k)
    {
      if k < |w.decided| { assert ChoseRight(tab, start, w, k); }
    }
  }

  lemma {:induction false} DecidedDrafts(tab: Fitted, w: World, r: World, next: real)
    requires |w.dev.slots| > 0 && DraftsOk(tab, w)
    requires r.dev == w.dev && r.pending == w.pending + [Work(Fill(next))]
    requires r.pend == w.pend && r.unscored == w.unscored && r.index == w.index && r.proposed == w.proposed
    ensures DraftsOk(tab, r)
  {
    LogicalAppend(tab, w, Fill(next));
    var e := Enqueue(w, Fill(next));
    assert Logical(tab, r) == Logical(tab, e);
    if w.pend.Some? { EnqueueHeld(tab, w, Fill(next), w.pend.value); }
    if w.unscored.Some? { EnqueueHeld(tab, w, Fill(next), w.unscored.value.draft); }
  }

  /** A host decision on a held draft is the sequential policy's next decision. */
  lemma {:induction false} HostDecisionKeeps(tab: Fitted, start: real, w: World, d: Draft, row: nat, kmax: nat)
    requires Coherent(tab, start, w) && Held(tab, w, d) && row < |d.rows| && 1 <= kmax <= KMAX
    ensures Coherent(tab, start, HostDecision(tab, start, w, d, row, kmax))
    ensures HostDecision(tab, start, w, d, row, kmax).decided == w.decided + [(d.rows[row], kmax)]
  {
    SlotAfterAwait(tab, w, d.index % |w.dev.slots|, d.event);
    var read := Await(tab, w, d.event);
    AheadKeeps(tab, start, w, Awaited(w.pending, d.event));
    assert read == Ahead(tab, w, Awaited(w.pending, d.event));
    PullIsCurrent(tab, start, read);
    var pulled := Pull(tab, read);
    DecidedKeeps(tab, start, pulled, d.rows[row], kmax);
    assert HostDecision(tab, start, w, d, row, kmax) == Decided(tab, start, pulled, d.rows[row], kmax);
  }

  /** The live requests' decision: exactly the sequential policy's next one when there is one live request, and none at
  this price otherwise. */
  lemma {:induction false} LiveDecisionKeeps(tab: Fitted, start: real, w: World, d: Draft, live: seq<nat>, kmax: nat)
    requires Coherent(tab, start, w) && Held(tab, w, d) && LiveIn(live, d) && 1 <= kmax <= KMAX
    ensures Coherent(tab, start, LiveDecision(tab, start, w, d, live, kmax))
    ensures LiveDecision(tab, start, w, d, live, kmax).decided ==
            w.decided + if |live| == 1 then [(d.rows[live[0]], kmax)] else []
  {
    if |live| == 1 {
      HostDecisionKeeps(tab, start, w, d, live[0], kmax);
    } else {
      AheadKeeps(tab, start, w, Awaited(w.pending, d.event));
      assert Await(tab, w, d.event) == Ahead(tab, w, Awaited(w.pending, d.event));
    }
  }

  /** The device after a launched selection: the kernel's decision, its price, and the price published. */
  lemma {:induction false} SelectionDevice(tab: Fitted, w: World, d: Draft)
    requires |w.dev.slots| > 0 && Logical(tab, w).valid
    ensures var r, before := OnPending(tab, 0.0, w, d, OnDevice(true)), Logical(tab, w);
            var after := Perform(tab, before, Selection(|w.decided|));
            Logical(tab, r) == after.(pin := after.lam) && PublishBehind(r.pending)
  {
    var w1 := Enqueue(w, Selection(|w.decided|));
    var w2 := Enqueue(w1, Publish);
    LogicalAppend(tab, w, Selection(|w.decided|));
    LogicalAppend(tab, w1, Publish);
    LogicalRecord(tab, w2, LAM_EVENT);
    AwaitedAppend(w2.pending, Record(LAM_EVENT), LAM_EVENT);
  }

  /** From the sequential policy's price the kernel chooses its length and leaves its next price, published too. */
  lemma {:induction false} SelectionIsPolicy(tab: Fitted, start: real, c: real, bound: real, w: World, d: Draft)
    requires |w.dev.slots| > 0 && Sane(tab, start, c, bound) && DecidedOk(w.decided) && |d.rows| == 1
    requires Logical(tab, w).conf == d.rows[0] && Logical(tab, w).valid
    requires Logical(tab, w).lam == PriceAfter(tab, start, w.decided)
    ensures var r, lam := OnPending(tab, start, w, d, OnDevice(true)), PriceAfter(tab, start, w.decided);
            var L := Choice1(tab, lam, d.rows[0], KMAX);
            && Logical(tab, r).lens == Logical(tab, w).lens[|w.decided| := L]
            && Logical(tab, r).lam == Logical(tab, r).pin == Next1(tab, lam, d.rows[0], L)
            && PublishBehind(r.pending)
  {
    hide KernelTokens, Blend, Next1, Choice1, PriceAfter;
    SelectionDevice(tab, w, d);
    assert OnPending(tab, start, w, d, OnDevice(true)) == OnPending(tab, 0.0, w, d, OnDevice(true));
    KernelIsPolicy(tab, start, c, bound, w.decided, d.rows[0]);
  }

  lemma {:induction false} OnDeviceKeeps(tab: Fitted, start: real, c: real, bound: real, w: World, d: Draft)
    requires Coherent(tab, start, w) && Sane(tab, start, c, bound) && w.pend.None? && w.unscored.None?
    requires |d.rows| == 1 && Logical(tab, w).conf == d.rows[0] && Logical(tab, w).valid
    ensures Coherent(tab, start, OnPending(tab, start, w, d, OnDevice(true)))
  {
    hide Logical, Next1, Choice1, PriceAfter, LengthAt, LensOk, DraftsOk;
    var lam, r := PriceAfter(tab, start, w.decided), OnPending(tab, start, w, d, OnDevice(true));
    SelectionIsPolicy(tab, start, c, bound, w, d);
    OneMoreDecision(tab, start, w.decided, (d.rows[0], KMAX));
    KernelDecisionCounts(tab, start, w, r, d.rows[0], lam);
  }

  lemma {:induction false} KernelDecisionCounts(tab: Fitted, start: real, w: World, r: World, conf: Scores, lam: real)
    requires Coherent(tab, start, w) && lam == PriceAfter(tab, start, w.decided)
    requires r.decided == w.decided + [(conf, KMAX)] && r.hostLens == w.hostLens && r.dirty && r.pend.None? &&
             r.unscored.None?
    requires DecidedOk(r.decided) && PublishBehind(r.pending) && |r.dev.slots| == |w.dev.slots|
    requires LengthAt(tab, start, r.decided, |w.decided|) == Choice1(tab, lam, conf, KMAX)
    requires SamePast(tab, start, w.decided, r.decided)
    requires Logical(tab, r).lens == Logical(tab, w).lens[|w.decided| := Choice1(tab, lam, conf, KMAX)]
    requires Logical(tab, r).lam == Logical(tab, r).pin == PriceAfter(tab, start, r.decided)
    ensures Coherent(tab, start, r)
  {
    forall k: nat | k < |r.decided|
      ensures ChoseRight(tab, start, r, k)
    {
      if k < |w.decided| { assert ChoseRight(tab, start, w, k); }
    }
  }

  /** Using up the pending draft, or the gated one, changes no decision. */
  lemma {:induction false} ForgetKeeps(tab: Fitted, start: real, w: World, unscored: Option<Gated>, proposed: bool)
    requires Coherent(tab, start, w)
    requires unscored.Some? ==>
             var g := unscored.value;
             Held(tab, w, g.draft) && LiveIn(g.live, g.draft) && 1 <= g.kmax <= KMAX && g.draft.index + 1 == w.index
    ensures Coherent(tab, start, w.(pend := None, unscored := unscored, proposed := proposed))
  {
    var r := w.(pend := None, unscored := unscored, proposed := proposed);
    assert Logical(tab, r) == Logical(tab, w);
    SameDecisions(tab, start, w, r);
  }

  /** Scoring the gated draft of the step before. */
  lemma {:induction false} PostHocKeeps(tab: Fitted, start: real, w: World)
    requires Coherent(tab, start, w)
    ensures var r := PostHoc(tab, start, w);
            Coherent(tab, start, r) && r.pend == w.pend && r.index == w.index && r.proposed == w.proposed
  {
    if w.unscored.Some? {
      var g := w.unscored.value;
      LiveDecisionKeeps(tab, start, w, g.draft, g.live, g.kmax);
      Unscored(tab, start, LiveDecision(tab, start, w, g.draft, g.live, g.kmax));
    }
  }

  lemma {:induction false} Unscored(tab: Fitted, start: real, w: World)
    requires Coherent(tab, start, w)
    ensures Coherent(tab, start, w.(unscored := None))
  {
    var r := w.(unscored := None);
    assert Logical(tab, r) == Logical(tab, w);
    SameDecisions(tab, start, w, r);
  }

  lemma {:induction false} ExecutedKeeps(tab: Fitted, start: real, c: real, bound: real, w: World, mode: Mode)
    requires Coherent(tab, start, w) && Sane(tab, start, c, bound) && Legal(w, Execute(mode))
    ensures Coherent(tab, start, Executed(tab, start, w, mode))
  {
    PostHocKeeps(tab, start, w);
    var p := PostHoc(tab, start, w);
    ForgetKeeps(tab, start, p, None, false);
    var scored := p.(pend := None, proposed := false);
    if w.pend.Some? {
      var d := w.pend.value;
      assert Logical(tab, scored) == Logical(tab, p);
      assert Held(tab, p, d) && Held(tab, scored, d);
      match mode
      case OnDevice(launched) => if launched { OnDeviceKeeps(tab, start, c, bound, scored, d); }
      case Gate(live, kmax) => ForgetKeeps(tab, start, p, Some(Gated(d, live, kmax)), false);
      case Decide(live, kmax) => LiveDecisionKeeps(tab, start, scored, d, live, kmax);
      case Skip =>
    }
  }

  lemma {:induction false} NextKeeps(tab: Fitted, start: real, c: real, bound: real, w: World, a: Action)
    requires Coherent(tab, start, w) && Sane(tab, start, c, bound) && Legal(w, a)
    ensures Coherent(tab, start, Next(tab, start, w, a))
  {
    match a
    case Drafted(rows) => DraftedKeeps(tab, start, w, rows);
    case NoDraft => ForgottenDraft(tab, start, w);
    case Execute(mode) => ExecutedKeeps(tab, start, c, bound, w, mode);
    case DeviceStep => AheadKeeps(tab, start, w, 1);
  }

  lemma {:induction false} ForgottenDraft(tab: Fitted, start: real, w: World)
    requires Coherent(tab, start, w)
    ensures Coherent(tab, start, w.(pend := None, proposed := true))
  {
    var r := w.(pend := None, proposed := true);
    assert Logical(tab, r) == Logical(tab, w);
    SameDecisions(tab, start, w, r);
  }

  ghost predicate LegalRun(tab: Fitted, start: real, w: World, run: seq<Action>)
    decreases |run|
  {
    run != [] ==> Shape(w) && Legal(w, run[0]) && LegalRun(tab, start, Next(tab, start, w, run[0]), run[1..])
  }

  function Run(tab: Fitted, start: real, w: World, run: seq<Action>): World
    requires LegalRun(tab, start, w, run)
    decreases |run|
  {
    if run == [] then w else Run(tab, start, Next(tab, start, w, run[0]), run[1..])
  }

  lemma {:induction false} RunKeeps(tab: Fitted, start: real, c: real, bound: real, w: World, run: seq<Action>)
    requires Coherent(tab, start, w) && Sane(tab, start, c, bound) && LegalRun(tab, start, w, run)
    ensures Coherent(tab, start, Run(tab, start, w, run))
    decreases |run|
  {
    if run != [] {
      NextKeeps(tab, start, c, bound, w, run[0]);
      RunKeeps(tab, start, c, bound, Next(tab, start, w, run[0]), run[1..]);
    }
  }

  /** Both sides as built: the same starting price, nothing drafted. */
  ghost predicate Boots(start: real, w: World)
  {
    && w.dev.lam == start && w.pending == [] && w.hostLam.None? && !w.dirty && w.pend.None? && w.unscored.None?
    && w.hostLens == map[] && w.decided == [] && |w.dev.slots| >= 2
  }

  /** Over every interleaving of device selections, host decisions and gated drafts scored afterwards, with any device
  timing, the lengths chosen on both sides and the price are those of one sequential policy; an exchange of the price
  always hands over the current one. */
  lemma {:induction false} OneSequentialPolicy(tab: Fitted, start: real, c: real, bound: real, w: World,
      run: seq<Action>)
    requires Boots(start, w) && Sane(tab, start, c, bound) && LegalRun(tab, start, w, run)
    ensures var r := Run(tab, start, w, run);
            && DecidedOk(r.decided)
            && Logical(tab, r).lam == PriceAfter(tab, start, r.decided)
            && HostPrice(start, Pull(tab, r)) == PriceAfter(tab, start, r.decided)
            && forall k: nat :: k < |r.decided| ==> ChoseRight(tab, start, r, k)
  {
    assert Coherent(tab, start, w);
    RunKeeps(tab, start, c, bound, w, run);
    PullIsCurrent(tab, start, Run(tab, start, w, run));
  }

  /** The ring of pinned slots needs a second slot: with one, the draft after a gated one takes its place before the
  gated one is scored. */
  lemma {:induction false} OneSlotOverwrites(tab: Fitted, start: real, w: World, first: seq<Scores>,
                                             second: seq<Scores>, live: seq<nat>, kmax: nat)
    requires w.pending == [] && w.pend.None? && w.unscored.None? && !w.proposed && |w.dev.slots| == 1
    requires 1 <= kmax <= KMAX
    ensures var gated := Executed(tab, start, AfterDraft(w, first), Gate(live, kmax));
            var late := AfterDraft(gated, second);
            late.unscored.Some? && late.unscored.value.draft.rows == first && Logical(tab, late).slots[0] == second
  {
    var gated := Executed(tab, start, AfterDraft(w, first), Gate(live, kmax));
    var slot := gated.index % |gated.dev.slots|;
    var propose := Propose(RowAt(second, 0), |second| == 1);
    var w1 := Enqueue(gated, propose);
    var w2 := Enqueue(w1, Keep(slot, second));
    LogicalAppend(tab, gated, propose);
    LogicalAppend(tab, w1, Keep(slot, second));
    LogicalRecord(tab, w2, gated.index + 1);
  }
}
