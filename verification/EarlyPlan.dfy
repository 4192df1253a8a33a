/** The early plan of overlay/glm_early_plan.py: the host mirrors the device's num_computed_tokens through snapshots,
and a fence guards the pinned memory its uploads read. */
module EarlyPlan {
  import opened Expander
  import opened Fifo
  import opened Basics

  // ------------------------------------------------------------------------------------------ the host's bookkeeping

  /** The input batch as prepare_inputs leaves it. */
  datatype Batch = Batch(numReqs: nat, reqIds: seq<nat>, qsl: seq<int>, idx: seq<int>, host: seq<int>)

  datatype Snapshot = Snapshot(serial: nat, event: nat, slot: nat)

  datatype Core = Core(serial: nat, batch: Option<(nat, Batch)>, snap: Option<Snapshot>, added: set<nat>,
      desync: bool, inRealStep: bool)

  datatype Reason =
    DESYNC | NO_BATCH | NO_SNAPSHOT | ROW_MISMATCH | QSL_MISMATCH | BATCH_SHAPE | FILTERED_ROW | IDX_RANGE

  datatype Plan = Bases(bases: seq<int>) | Fallback(reason: Reason)

  function BeginStep(c: Core, isReal: bool): Core
  {
    c.(batch := None, inRealStep := isReal, serial := if isReal then c.serial + 1 else c.serial)
  }

  function NoteBatch(c: Core, ib: Batch): Core
  {
    if c.inRealStep then c.(batch := Some((c.serial, ib))) else c
  }

  function NoteSnapshot(c: Core, event: nat, slot: nat): Core
  {
    if c.inRealStep then c.(snap := Some(Snapshot(c.serial, event, slot)), added := {}) else c
  }

  function Upto<T>(s: seq<T>, n: nat): (t: seq<T>)
  {
    if n <= |s| then s[..n] else s
  }

  /** The guards of plan_bases before it waits for the snapshot. */
  function Refused(c: Core, numReqs: nat, qsl: seq<int>): (r: Option<Reason>)
    ensures r.None? ==> c.batch.Some? && c.snap.Some? && c.snap.value.serial == c.serial - 1
    ensures r.None? ==> var ib := c.batch.value.1;
                        ib.numReqs == numReqs && numReqs <= |ib.reqIds| && numReqs <= |ib.idx| && numReqs <= |ib.host|
                        && Upto(ib.qsl, numReqs + 1) == Upto(qsl, numReqs + 1)
                        && forall k :: 0 <= k < numReqs ==> ib.idx[k] >= 0
  {
    if c.desync then Some(DESYNC)
    else if c.batch.None? || c.batch.value.0 != c.serial then Some(NO_BATCH)
    else if c.snap.None? || c.snap.value.serial != c.serial - 1 then Some(NO_SNAPSHOT)
    else
      var ib := c.batch.value.1;
      if ib.numReqs != numReqs then Some(ROW_MISMATCH)
      else if Upto(ib.qsl, numReqs + 1) != Upto(qsl, numReqs + 1) then Some(QSL_MISMATCH)
      else if |ib.reqIds| < numReqs || |ib.idx| < numReqs || |ib.host| < numReqs then Some(BATCH_SHAPE)
      else if exists k :: 0 <= k < numReqs && ib.idx[k] < 0 then Some(FILTERED_ROW)
      else None
  }

  /** One row's base: the host mirror for a request added since the snapshot, else the snapshot. */
  function BaseOf(added: set<nat>, ib: Batch, dev: seq<int>, k: nat): (b: Option<int>)
    requires k < |ib.reqIds| && k < |ib.idx| && k < |ib.host| && ib.idx[k] >= 0
  {
    if ib.reqIds[k] in added then Some(ib.host[k])
    else if ib.idx[k] < |dev| then Some(dev[ib.idx[k]])
    else None
  }

  /** plan_bases, given what the snapshot's reader returns after the wait. */
  predicate IsPlan(p: Plan, c: Core, numReqs: nat, qsl: seq<int>, dev: seq<int>)
  {
    if Refused(c, numReqs, qsl).Some? then p == Fallback(Refused(c, numReqs, qsl).value)
    else
      var ib := c.batch.value.1;
      match p
      case Bases(bs) => |bs| == numReqs && forall k :: 0 <= k < numReqs ==> BaseOf(c.added, ib, dev, k) == Some(bs[k])
      case Fallback(r) => r == IDX_RANGE && exists k :: 0 <= k < numReqs && BaseOf(c.added, ib, dev, k).None?
  }

  /** The device as the host meets it: wait for an event, read a pinned slot. */
  datatype Command = Set(upd: map<nat, int>) | Copy(slot: nat)

  /** num_computed_tokens on the device and the pinned slots, and what is enqueued. */
  datatype Memory = Memory(nct: seq<int>, slots: seq<seq<int>>)

  datatype Device = Device(mem: Memory, pending: seq<Op<Command>>)

  function Updated(nct: seq<int>, upd: map<nat, int>): (r: seq<int>)
    ensures |r| == |nct|
  {
    seq(|nct|, i requires 0 <= i < |nct| => if i in upd then upd[i] else nct[i])
  }

  function Perform(m: Memory, c: Command): (r: Memory)
    ensures |r.nct| == |m.nct| && |r.slots| == |m.slots|
  {
    match c
    case Set(upd) => m.(nct := Updated(m.nct, upd))
    case Copy(slot) => if slot < |m.slots| then m.(slots := m.slots[slot := m.nct]) else m
  }

  function Runner(): (Memory, Command) -> Memory { (m, c) => Perform(m, c) }

  lemma {:induction false} KeepsSizes(m: Memory, ops: seq<Op<Command>>)
    ensures var r := RunOps(Runner(), m, ops); |r.nct| == |m.nct| && |r.slots| == |m.slots|
    decreases |ops|
  {
    if ops != [] { KeepsSizes(if ops[0].Work? then Runner()(m, ops[0].op) else m, ops[1..]); }
  }

  /** The device has run its oldest n operations. */
  function Advance(d: Device, n: nat): (r: Device)
    requires n <= |d.pending|
    ensures |r.mem.nct| == |d.mem.nct| && |r.mem.slots| == |d.mem.slots|
  {
    KeepsSizes(d.mem, d.pending[..n]);
    Device(RunOps(Runner(), d.mem, d.pending[..n]), d.pending[n..])
  }

  function Wait(d: Device, event: nat): (r: Device)
    ensures |r.mem.nct| == |d.mem.nct| && |r.mem.slots| == |d.mem.slots|
  {
    Advance(d, Awaited(d.pending, event))
  }

  /** What the device will hold when everything enqueued has run. */
  function Logical(d: Device): (r: Memory)
    ensures |r.nct| == |d.mem.nct| && |r.slots| == |d.mem.slots|
  {
    KeepsSizes(d.mem, d.pending);
    RunOps(Runner(), d.mem, d.pending)
  }

  lemma {:induction false} AdvanceByOne(d: Device, n: nat)
    requires 0 < n <= |d.pending|
    ensures Advance(Advance(d, 1), n - 1) == Advance(d, n)
  {
    var ops := d.pending[..n];
    RunSplit(Runner(), d.mem, ops, 1);
    assert ops[..1] == d.pending[..1] && ops[1..] == d.pending[1..][..n - 1];
  }

  class Stream {
    var d: Device

    constructor (d: Device)
      ensures this.d == d
    {
      this.d := d;
    }

    method WaitFor(event: nat)
      modifies this
      ensures d == Wait(old(d), event)
    {
      var n := Awaited(d.pending, event);
      while n > 0
        invariant 0 <= n <= |d.pending|
        invariant Advance(d, n) == Wait(old(d), event)
      {
        AdvanceByOne(d, n);
        d := Advance(d, 1);
        n := n - 1;
      }
    }
  }

  /** The class of the worker, with the fields it updates in place. */
  class EarlyPlanCore {
    var serial: nat
    var batch: Option<(nat, Batch)>
    var snap: Option<Snapshot>
    var added: set<nat>
    var desync: bool
    var inRealStep: bool

    function State(): Core
      reads this
    {
      Core(serial, batch, snap, added, desync, inRealStep)
    }

    constructor ()
      ensures State() == Core(0, None, None, {}, false, false)
    {
      serial, batch, snap, added, desync, inRealStep := 0, None, None, {}, false, false;
    }

    method Begin(isReal: bool)
      modifies this
      ensures State() == BeginStep(old(State()), isReal)
    {
      batch := None;
      inRealStep := isReal;
      if isReal { serial := serial + 1; }
    }

    method AddRequest(rid: nat)
      modifies this
      ensures State() == old(State()).(added := old(added) + {rid})
    {
      added := added + {rid};
    }

    method PrepareInputs(ib: Batch)
      modifies this
      ensures State() == NoteBatch(old(State()), ib)
    {
      if inRealStep { batch := Some((serial, ib)); }
    }

    method TakeSnapshot(event: nat, slot: nat)
      modifies this
      ensures State() == NoteSnapshot(old(State()), event, slot)
    {
      if !inRealStep { return; }
      snap := Some(Snapshot(serial, event, slot));
      added := {};
    }

    method DropSnapshot()
      modifies this
      ensures State() == old(State()).(snap := None)
    {
      snap := None;
    }

    /** plan_bases: wait for the snapshot's event, then read its slot, only if some row needs it. */
    method PlanBases(numReqs: nat, qsl: seq<int>, stream: Stream) returns (p: Plan)
      requires snap.Some? ==> snap.value.slot < |stream.d.mem.slots|
      modifies stream
      ensures State() == old(State())
      ensures stream.d == if Refused(State(), numReqs, qsl).None? then Wait(old(stream.d),
              snap.value.event) else old(stream.d)
      ensures IsPlan(p, State(), numReqs, qsl, if snap.Some? then stream.d.mem.slots[snap.value.slot] else [])
    {
      var refused := Refused(State(), numReqs, qsl);
      if refused.Some? { return Fallback(refused.value); }
      stream.WaitFor(snap.value.event);
      var ib := batch.value.1;
      var bases: seq<int> := [];
      while |bases| < numReqs
        invariant |bases| <= numReqs
        invariant forall k :: 0 <= k < |bases| ==>
            BaseOf(added, ib, stream.d.mem.slots[snap.value.slot], k) == Some(bases[k])
      {
        var k := |bases|;
        if ib.reqIds[k] in added {
          bases := bases + [ib.host[k]];
        } else {
          var dev := stream.d.mem.slots[snap.value.slot];
          if ib.idx[k] >= |dev| {
            assert BaseOf(added, ib, dev, k).None?;
            return Fallback(IDX_RANGE);
          }
          bases := bases + [dev[ib.idx[k]]];
        }
      }
      p := Bases(bases);
    }
  }

  // ---------------------------------------------------------------------------------------------- runs

  /** Phases of one step: requests come and go, the batch is fixed and planned, the device state is post-updated. */
  datatype Phase = OPEN | PREPARED | POSTED

  /** A live request: its state index and the value add_request staged. */
  datatype Entry = Entry(idx: nat, staged: int)

  /** The worker and its device. `taken` and `posted` are history: what the latest snapshot saw, and whether the
  device has been post-updated since. */
  datatype World = World(core: Core, dev: Device, table: map<nat, Entry>, phase: Phase, ringI: nat, events: nat,
                         taken: seq<int>, posted: bool)

  /** The snapshot after the post-update: taken, not tried, or failed before or after its copy was enqueued. */
  datatype Outcome = TAKEN | MISSED | FAILED(copied: bool)

  datatype Action =
    | Begin(isReal: bool, desync: bool)
    | Add(rid: nat, idx: nat, value: int)
    | Remove(rid: nat)
    | Prepare(ib: Batch)
    | PlanStep(numReqs: nat, qsl: seq<int>)
    | Post(upd: map<nat, int>, outcome: Outcome)
    | DeviceStep

  function Enqueue(d: Device, op: Op<Command>): Device { d.(pending := d.pending + [op]) }

  /** The rows of a batch are those of live requests; a request added since the snapshot still has its staged value. */
  ghost predicate RowsMatch(w: World, ib: Batch)
  {
    forall k :: 0 <= k < |ib.reqIds| && k < |ib.idx| && k < |ib.host| && ib.idx[k] >= 0 ==>
      && ib.reqIds[k] in w.table && ib.idx[k] == w.table[ib.reqIds[k]].idx
      && (ib.reqIds[k] in w.core.added ==> ib.host[k] == w.table[ib.reqIds[k]].staged)
  }

  ghost predicate Legal(w: World, a: Action)
  {
    match a
    case Begin(_, _) => true
    case Add(rid, idx, _) =>
      w.phase != PREPARED && idx < |w.dev.mem.nct| && forall r :: r in w.table && r != rid ==> w.table[r].idx != idx
    case Remove(_) => w.phase != PREPARED
    case Prepare(ib) => w.phase == OPEN && RowsMatch(w, ib)
    case PlanStep(_, _) => w.phase == PREPARED
    case Post(_, _) => w.core.inRealStep && w.phase == PREPARED
    case DeviceStep => w.dev.pending != []
  }

  function Next(w: World, a: Action): World
    requires |w.dev.mem.slots| > 0
    requires a.DeviceStep? ==> w.dev.pending != []
  {
    match a
    case Begin(isReal, desync) => w.(core := BeginStep(w.core, isReal).(desync := desync), phase := OPEN)
    case Add(rid, idx, value) =>
      w.(core := w.core.(added := w.core.added + {rid}), table := w.table[rid := Entry(idx, value)],
         dev := Enqueue(w.dev, Work(Set(map[idx := value]))))
    case Remove(rid) => w.(table := w.table - {rid})
    case Prepare(ib) => w.(core := NoteBatch(w.core, ib), phase := PREPARED)
    case PlanStep(numReqs, qsl) =>
      if Refused(w.core, numReqs, qsl).None? then w.(dev := Wait(w.dev, w.core.snap.value.event)) else w
    case Post(upd, TAKEN) =>
      var slot := w.ringI % |w.dev.mem.slots|;
      w.(core := NoteSnapshot(w.core, w.events, slot), phase := POSTED, ringI := w.ringI + 1, events := w.events + 1,
         dev := Enqueue(Enqueue(Enqueue(w.dev, Work(Set(upd))), Work(Copy(slot))), Record(w.events)),
         taken := Updated(Logical(w.dev).nct, upd), posted := false)
    case Post(upd, MISSED) => w.(dev := Enqueue(w.dev, Work(Set(upd))), phase := POSTED, posted := true)
    case Post(upd, FAILED(copied)) =>
      var updated := Enqueue(w.dev, Work(Set(upd)));
      w.(core := w.core.(snap := None), phase := POSTED, ringI := w.ringI + 1, posted := true,
         dev := if copied then Enqueue(updated, Work(Copy(w.ringI % |w.dev.mem.slots|))) else updated)
    case DeviceStep => w.(dev := Advance(w.dev, 1))
  }

  ghost predicate LegalRun(w: World, run: seq<Action>)
    requires |w.dev.mem.slots| > 0
    decreases |run|
  {
    run != [] ==> Legal(w, run[0]) && LegalRun(Next(w, run[0]), run[1..])
  }

  function Run(w: World, run: seq<Action>): (r: World)
    requires |w.dev.mem.slots| > 0
    requires LegalRun(w, run)
    decreases |run|
  {
    if run == [] then w else Run(Next(w, run[0]), run[1..])
  }

  // ---------------------------------------------------------------------------------------------- what every run keeps

  lemma {:induction false} LogicalAppend(d: Device, op: Op<Command>)
    ensures Logical(Enqueue(d, op)) == if op.Work? then Perform(Logical(d), op.op) else Logical(d)
  {
    RunAppend(Runner(), d.mem, d.pending, op);
  }

  /** Progress on the device changes nothing the host can order itself after. */
  lemma {:induction false} LogicalAdvance(d: Device, n: nat)
    requires n <= |d.pending|
    ensures Logical(Advance(d, n)) == Logical(d)
  {
    RunSplit(Runner(), d.mem, d.pending, n);
  }

  /** No copy into the slot is pending behind the event. */
  ghost predicate SlotBehind(pending: seq<Op<Command>>, slot: nat, event: nat)
  {
    forall p :: Awaited(pending, event) <= p < |pending| ==> pending[p] != Work(Copy(slot))
  }

  lemma {:induction false} QuietSlot(m: Memory, ops: seq<Op<Command>>, slot: nat)
    requires slot < |m.slots| && forall p :: 0 <= p < |ops| ==> ops[p] != Work(Copy(slot))
    ensures |RunOps(Runner(), m, ops).slots| == |m.slots| && RunOps(Runner(), m, ops).slots[slot] == m.slots[slot]
    decreases |ops|
  {
    if ops != [] {
      assert ops[0] != Work(Copy(slot));
      QuietSlot(if ops[0].Work? then Runner()(m, ops[0].op) else m, ops[1..], slot);
    }
  }

  /** After the wait the slot holds what it will hold for good: neither an older nor a newer snapshot. */
  lemma {:induction false} SlotAfterWait(d: Device, slot: nat, event: nat)
    requires slot < |d.mem.slots| && SlotBehind(d.pending, slot, event)
    ensures Wait(d, event).mem.slots[slot] == Logical(d).slots[slot]
  {
    var n := Awaited(d.pending, event);
    LogicalAdvance(d, n);
    QuietSlot(Wait(d, event).mem, d.pending[n..], slot);
  }

  /** A live request's device value: its staged value if it was added since the snapshot, else the snapshot's. */
  ghost predicate Tracks(w: World, rid: nat)
    requires rid in w.table && |w.taken| == |w.dev.mem.nct|
  {
    var e := w.table[rid];
    e.idx < |w.dev.mem.nct| && Logical(w.dev).nct[e.idx] == if rid in w.core.added then e.staged else w.taken[e.idx]
  }

  ghost predicate TableOk(w: World)
  {
    && (forall r :: r in w.table ==> w.table[r].idx < |w.dev.mem.nct|)
    && (forall r, q :: r in w.table && q in w.table && r != q ==> w.table[r].idx != w.table[q].idx)
  }

  ghost predicate BatchOk(w: World)
  {
    && (w.phase == OPEN ==> w.core.batch.None?)
    && (w.phase == PREPARED && w.core.batch.Some? ==> w.core.inRealStep && RowsMatch(w, w.core.batch.value.1))
  }

  /** How old the snapshot may be. */
  ghost predicate SerialOk(w: World)
  {
    w.core.snap.Some? ==>
      var s := w.core.snap.value;
      && s.serial <= w.core.serial
      && (w.core.inRealStep && w.phase != POSTED ==> s.serial < w.core.serial)
      && (w.posted ==> s.serial < w.core.serial && (s.serial == w.core.serial - 1 ==>
              w.phase == POSTED || !w.core.inRealStep))
  }

  ghost predicate SlotOk(w: World)
  {
    w.core.snap.Some? ==>
      var s := w.core.snap.value;
      s.slot < |w.dev.mem.slots| && Logical(w.dev).slots[s.slot] == w.taken &&
          SlotBehind(w.dev.pending, s.slot, s.event)
  }

  ghost predicate ValuesOk(w: World)
  {
    w.core.snap.Some? ==> |w.taken| == |w.dev.mem.nct| && (!w.posted ==> forall r :: r in w.table ==> Tracks(w, r))
  }

  ghost predicate Inv(w: World)
  {
    |w.dev.mem.slots| > 0 && TableOk(w) && BatchOk(w) && SerialOk(w) && SlotOk(w) && ValuesOk(w)
  }

  /** An added request's write changes no other live request's value: their state indices differ. */
  lemma {:induction false} AddTracks(w: World, rid: nat, idx: nat, value: int, r: nat)
    requires TableOk(w) && Legal(w, Add(rid, idx, value)) && |w.taken| == |w.dev.mem.nct| && |w.dev.mem.slots| > 0
    requires r == rid || (r in w.table && Tracks(w, r))
    ensures Tracks(Next(w, Add(rid, idx, value)), r)
  {
    LogicalAppend(w.dev, Work(Set(map[idx := value])));
    assert Logical(Next(w, Add(rid, idx, value)).dev).nct == Updated(Logical(w.dev).nct, map[idx := value]);
  }

  lemma {:induction false} AddSlots(w: World, rid: nat, idx: nat, value: int)
    requires |w.dev.mem.slots| > 0 && SlotOk(w)
    ensures SlotOk(Next(w, Add(rid, idx, value)))
  {
    var op: Op<Command> := Work(Set(map[idx := value]));
    LogicalAppend(w.dev, op);
    if w.core.snap.Some? { AwaitedAppend(w.dev.pending, op, w.core.snap.value.event); }
  }

  lemma {:induction false} AddValues(w: World, rid: nat, idx: nat, value: int)
    requires Inv(w) && Legal(w, Add(rid, idx, value))
    ensures ValuesOk(Next(w, Add(rid, idx, value)))
  {
    if w.core.snap.Some? && !w.posted {
      forall r | r in w.table[rid := Entry(idx, value)]
        ensures Tracks(Next(w, Add(rid, idx, value)), r)
      {
        AddTracks(w, rid, idx, value, r);
      }
    }
  }

  lemma {:induction false} AddKeeps(w: World, rid: nat, idx: nat, value: int)
    requires Inv(w) && Legal(w, Add(rid, idx, value))
    ensures Inv(Next(w, Add(rid, idx, value)))
  {
    AddSlots(w, rid, idx, value);
    AddValues(w, rid, idx, value);
    assert TableOk(Next(w, Add(rid, idx, value)));
  }

  /** The device after a snapshot: updated, and copied into the slot before the event fires. */
  lemma {:induction false} SnapshotDevice(d: Device, upd: map<nat, int>, slot: nat, event: nat)
    requires slot < |d.mem.slots|
    ensures var more := Enqueue(Enqueue(Enqueue(d, Work(Set(upd))), Work(Copy(slot))), Record(event));
            && Logical(more).nct == Updated(Logical(d).nct, upd)
            && Logical(more).slots[slot] == Logical(more).nct
            && SlotBehind(more.pending, slot, event)
  {
    var d1 := Enqueue(d, Work(Set(upd)));
    var d2 := Enqueue(d1, Work(Copy(slot)));
    LogicalAppend(d, Work(Set(upd)));
    LogicalAppend(d1, Work(Copy(slot)));
    LogicalAppend(d2, Record(event));
    AwaitedAppend(d2.pending, Record(event), event);
  }

  lemma {:induction false} TakenKeeps(w: World, upd: map<nat, int>)
    requires Inv(w) && Legal(w, Post(upd, TAKEN))
    ensures Inv(Next(w, Post(upd, TAKEN)))
  {
    SnapshotDevice(w.dev, upd, w.ringI % |w.dev.mem.slots|, w.events);
    var after := Next(w, Post(upd, TAKEN));
    forall r | r in after.table
      ensures Tracks(after, r)
    {
    }
  }

  lemma {:induction false} MissedKeeps(w: World, upd: map<nat, int>)
    requires Inv(w) && Legal(w, Post(upd, MISSED))
    ensures Inv(Next(w, Post(upd, MISSED)))
  {
    LogicalAppend(w.dev, Work(Set(upd)));
    if w.core.snap.Some? { AwaitedAppend(w.dev.pending, Work(Set(upd)), w.core.snap.value.event); }
  }

  lemma {:induction false} DeviceKeeps(w: World, n: nat)
    requires Inv(w) && n <= |w.dev.pending|
    ensures Inv(w.(dev := Advance(w.dev, n)))
  {
    var r := w.(dev := Advance(w.dev, n));
    LogicalAdvance(w.dev, n);
    if w.core.snap.Some? { AwaitedRest(w.dev.pending, n, w.core.snap.value.event); }
    forall q | q in w.table && |w.taken| == |w.dev.mem.nct| && Tracks(w, q)
      ensures Tracks(r, q)
    {
    }
  }

  lemma {:induction false} HostKeeps(w: World, a: Action)
    requires Inv(w) && Legal(w, a) && (a.Begin? || a.Remove? || a.Prepare?)
    ensures Inv(Next(w, a))
  {
    var after := Next(w, a);
    forall r | r in after.table && |w.taken| == |w.dev.mem.nct| && Tracks(w, r)
      ensures Tracks(after, r)
    {
    }
  }

  lemma {:induction false} NextKeeps(w: World, a: Action)
    requires Inv(w) && Legal(w, a)
    ensures Inv(Next(w, a))
  {
    match a
    case Add(rid, idx, value) => AddKeeps(w, rid, idx, value);
    case PlanStep(numReqs, qsl) =>
      if Refused(w.core, numReqs, qsl).None? { DeviceKeeps(w, Awaited(w.dev.pending, w.core.snap.value.event)); }
    case Post(upd, TAKEN) => TakenKeeps(w, upd);
    case Post(upd, MISSED) => MissedKeeps(w, upd);
    case Post(upd, FAILED(_)) =>
    case DeviceStep => DeviceKeeps(w, 1);
    case _ => HostKeeps(w, a);
  }

  lemma {:induction false} RunKeeps(w: World, run: seq<Action>)
    requires Inv(w) && LegalRun(w, run)
    ensures Inv(Run(w, run))
    decreases |run|
  {
    if run != [] {
      NextKeeps(w, run[0]);
      RunKeeps(Next(w, run[0]), run[1..]);
    }
  }

  /** Whenever plan_bases returns bases they are the device's current values of the batch's rows. */
  lemma {:induction false} BasesAreExact(w: World, numReqs: nat, qsl: seq<int>, p: Plan)
    requires Inv(w) && Legal(w, PlanStep(numReqs, qsl))
    requires var s := w.core.snap;
             IsPlan(p, w.core, numReqs, qsl, if s.Some? then Next(w, PlanStep(numReqs,
                 qsl)).dev.mem.slots[s.value.slot] else [])
    ensures p.Bases? ==> |p.bases| == numReqs && w.core.batch.Some? && numReqs <= |w.core.batch.value.1.idx|
                         && forall k :: 0 <= k < numReqs ==> IsDeviceValue(w, k, p.bases[k])
    ensures p != Fallback(IDX_RANGE)
  {
    if Refused(w.core, numReqs, qsl).None? {
      var s, ib := w.core.snap.value, w.core.batch.value.1;
      SlotAfterWait(w.dev, s.slot, s.event);
      forall k | 0 <= k < numReqs
        ensures BaseOf(w.core.added, ib, w.taken, k).Some? &&
                IsDeviceValue(w, k, BaseOf(w.core.added, ib, w.taken, k).value)
      {
        assert ib.reqIds[k] in w.table && Tracks(w, ib.reqIds[k]);
      }
    }
  }

  /** b is what the device's num_computed_tokens of the batch's row k is, in stream order. */
  ghost predicate IsDeviceValue(w: World, k: nat, b: int)
  {
    w.core.batch.Some? && k < |w.core.batch.value.1.idx| && 0 <= w.core.batch.value.1.idx[k] < |w.dev.mem.nct| &&
    b == Logical(w.dev).nct[w.core.batch.value.1.idx[k]]
  }

  ghost predicate Boots(w: World)
  {
    w.core == Core(0, None, None, {}, w.core.desync, false) && w.table == map[] && w.phase == OPEN &&
        |w.dev.mem.slots| > 0
  }

  /** Exactness over whole runs of real and dummy steps, additions, removals, state-index reuse, taken, missed and
  dropped snapshots and any device timing, for a snapshot ring of any size. */
  lemma {:induction false} RunBasesAreExact(w: World, run: seq<Action>, numReqs: nat, qsl: seq<int>, p: Plan)
    requires Boots(w) && LegalRun(w, run) && Legal(Run(w, run), PlanStep(numReqs, qsl))
    requires var last, s := Run(w, run), Run(w, run).core.snap;
             |last.dev.mem.slots| > 0 && (s.Some? ==> s.value.slot < |last.dev.mem.slots|) &&
             IsPlan(p, last.core, numReqs, qsl, if s.Some? then Next(last, PlanStep(numReqs,
                 qsl)).dev.mem.slots[s.value.slot] else [])
    ensures p.Bases? ==> |p.bases| == numReqs && forall k :: 0 <= k < numReqs ==>
            IsDeviceValue(Run(w, run), k, p.bases[k])
    ensures p != Fallback(IDX_RANGE)
  {
    RunKeeps(w, run);
    BasesAreExact(Run(w, run), numReqs, qsl, p);
  }

  // ---------------------------------------------------------------------------------------------- the planned lengths

  /** The lengths of the rows first .. last of a request whose rows start at `start`. */
  function RowLens(base: int, start: int, first: int, last: int, topk: nat, pool: nat): (lens: seq<int>)
    requires pool > 0
    ensures |lens| == if first <= last then last - first else 0
    decreases last - first
  {
    if first >= last then [] else [KvLen(base + (first - start) + 1, topk, pool)] + RowLens(base, start, first + 1,
        last, topk, pool)
  }

  function Lens(bases: seq<int>, qsl: seq<int>, topk: nat, pool: nat): (lens: seq<int>)
    requires pool > 0 && |qsl| > |bases|
    decreases |bases|
  {
    if bases == [] then []
    else
      var r := |bases| - 1;
      Lens(bases[..r], qsl, topk, pool) + RowLens(bases[r], qsl[r], qsl[r], qsl[r + 1], topk, pool)
  }

  lemma {:induction false} RowLensLast(base: int, start: int, first: int, last: int, topk: nat, pool: nat)
    requires pool > 0 && first <= last
    ensures RowLens(base, start, first, last + 1, topk, pool) ==
            RowLens(base, start, first, last, topk, pool) + [KvLen(base + (last - start) + 1, topk, pool)]
    decreases last - first
  {
    if first < last {
      RowLensLast(base, start, first + 1, last, topk, pool);
    } else {
      assert RowLens(base, start, first + 1, first + 1, topk, pool) == [];
    }
  }

  /** lens_from_bases: request by request, row by row. */
  method LensFromBases(bases: seq<int>, qsl: seq<int>, indexTopk: nat, indexKpool: int) returns (out: seq<int>)
    requires |qsl| > |bases|
    ensures out == Lens(bases, qsl, indexTopk, if indexKpool >= 1 then indexKpool else 1)
  {
    var pool := if indexKpool >= 1 then indexKpool else 1;
    out := [];
    var r := 0;
    while r < |bases|
      invariant 0 <= r <= |bases|
      invariant out == Lens(bases[..r], qsl, indexTopk, pool)
    {
      out := AppendRows(out, bases[r], qsl[r], qsl[r + 1], indexTopk, pool);
      assert bases[..r + 1][..r] == bases[..r];
      r := r + 1;
    }
    assert bases[..r] == bases;
  }

  /** The loop over one request's rows. */
  method AppendRows(out: seq<int>, base: int, start: int, end: int, topk: nat, pool: nat) returns (more: seq<int>)
    requires pool > 0
    ensures more == out + RowLens(base, start, start, end, topk, pool)
  {
    more := out;
    var j := start;
    while j < end
      invariant start <= j && (j <= end || j == start)
      invariant more == out + RowLens(base, start, start, j, topk, pool)
    {
      var ctx := base + (j - start) + 1;
      RowLensLast(base, start, start, j, topk, pool);
      more := more + [if ctx <= topk then ctx else topk + ctx % pool];
      j := j + 1;
    }
  }

  ghost predicate Starts(qsl: seq<int>, n: nat)
  {
    |qsl| > n && qsl[0] == 0 && forall r :: 0 <= r < n ==> qsl[r] <= qsl[r + 1]
  }

  lemma {:induction false} RowLensAt(base: int, start: int, first: int, last: int, topk: nat, pool: nat, j: int)
    requires pool > 0 && first <= j < last
    ensures RowLens(base, start, first, last, topk, pool)[j - first] == KvLen(base + (j - start) + 1, topk, pool)
    decreases last - first
  {
    if first < j { RowLensAt(base, start, first + 1, last, topk, pool, j); }
  }

  lemma {:induction false} LensSize(bases: seq<int>, qsl: seq<int>, topk: nat, pool: nat)
    requires pool > 0 && Starts(qsl, |bases|)
    ensures |Lens(bases, qsl, topk, pool)| == qsl[|bases|]
    decreases |bases|
  {
    if bases != [] { LensSize(bases[..|bases| - 1], qsl, topk, pool); }
  }

  /** Row j of request r is planned for the request's base and its place in the step. */
  lemma {:induction false} LensAt(bases: seq<int>, qsl: seq<int>, topk: nat, pool: nat, r: nat, j: nat)
    requires pool > 0 && Starts(qsl, |bases|) && r < |bases| && qsl[r] <= j < qsl[r + 1]
    ensures j < |Lens(bases, qsl, topk, pool)|
    ensures Lens(bases, qsl, topk, pool)[j] == KvLen(bases[r] + (j - qsl[r]) + 1, topk, pool)
    decreases |bases|
  {
    var n := |bases| - 1;
    LensSize(bases[..n], qsl, topk, pool);
    if r < n {
      LensAt(bases[..n], qsl, topk, pool, r, j);
    } else {
      RowLensAt(bases[n], qsl[n], qsl[n], qsl[n + 1], topk, pool, j);
    }
  }

  /** The early lengths are those of the device path, which takes position nct + (j - qsl) for row j. */
  lemma {:induction false} EarlyLensAreExact(w: World, run: seq<Action>, numReqs: nat, qsl: seq<int>, p: Plan,
      topk: nat, pool: nat, r: nat, j: nat)
    requires Boots(w) && LegalRun(w, run) && Legal(Run(w, run), PlanStep(numReqs, qsl))
    requires var last, s := Run(w, run), Run(w, run).core.snap;
             |last.dev.mem.slots| > 0 && (s.Some? ==> s.value.slot < |last.dev.mem.slots|) &&
             IsPlan(p, last.core, numReqs, qsl, if s.Some? then Next(last, PlanStep(numReqs,
                 qsl)).dev.mem.slots[s.value.slot] else [])
    requires p.Bases? && pool > 0 && |p.bases| == numReqs && Starts(qsl, numReqs) && r < numReqs &&
             qsl[r] <= j < qsl[r + 1]
    ensures IsDeviceValue(Run(w, run), r, p.bases[r]) && j < |Lens(p.bases, qsl, topk, pool)|
    ensures var idx := Run(w, run).core.batch.value.1.idx[r];
            Lens(p.bases, qsl, topk, pool)[j] == KvLen(Logical(Run(w, run).dev).nct[idx] + (j - qsl[r]) + 1, topk, pool)
  {
    RunBasesAreExact(w, run, numReqs, qsl, p);
    LensAt(p.bases, qsl, topk, pool, r, j);
  }
}
