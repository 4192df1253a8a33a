/** The plan fence of overlay/glm_early_plan.py: host rewrites of the pinned plan memory wait for the uploads that
still read it. */
module PlanFence {
  import opened Fifo
  import opened Basics

  /** What an upload reads: the shared pinned workspace or one of the pinned input slots. */
  datatype Source = Workspace | Slot(i: nat)

  datatype Job = Upload(source: Source) | Compute

  type Queue = seq<Op<Job>>

  predicate IsUpload(op: Op<Job>) { op.Work? && op.op.Upload? }

  predicate Quiet(pending: Queue) { forall p :: 0 <= p < |pending| ==> !IsUpload(pending[p]) }

  /** Waiting for an event lets the stream run up to it; nothing to do for no event or one that has fired. */
  function Drained(pending: Queue, event: Option<nat>): (rest: Queue)
  {
    if event.None? then pending else pending[Awaited(pending, event.value)..]
  }

  datatype Fence = Fence(i: nat, last: Option<nat>, slotEvents: seq<Option<nat>>)

  function FirstSlot(f: Fence): (slot: nat)
    requires |f.slotEvents| > 0
    ensures slot < |f.slotEvents|
  {
    f.i % |f.slotEvents|
  }

  /** before(): the queue as it is when the host may rewrite the workspace and the chosen slot. */
  function Before(f: Fence, pending: Queue): (rest: Queue)
    requires |f.slotEvents| > 0
  {
    Drained(Drained(pending, f.last), f.slotEvents[FirstSlot(f)])
  }

  function After(f: Fence, slot: nat, event: nat): (g: Fence)
    requires slot < |f.slotEvents|
    ensures |g.slotEvents| == |f.slotEvents|
  {
    Fence(f.i + 1, Some(event), f.slotEvents[slot := Some(event)])
  }

  class Stream {
    var pending: Queue

    constructor ()
      ensures pending == []
    {
      pending := [];
    }

    method WaitFor(event: nat)
      modifies this
      ensures pending == Drained(old(pending), Some(event))
    {
      var n := Awaited(pending, event);
      while n > 0
        invariant 0 <= n <= |pending|
        invariant pending[n..] == Drained(old(pending), Some(event))
      {
        pending := pending[1..];
        n := n - 1;
      }
    }
  }

  /** The fence object, with the fields it updates in place. */
  class Guard {
    var i: nat
    var last: Option<nat>
    var slotEvents: seq<Option<nat>>

    function State(): Fence
      reads this
    {
      Fence(i, last, slotEvents)
    }

    constructor (nslots: nat)
      ensures State() == Fence(0, None, seq(nslots, _ => None))
    {
      i, last, slotEvents := 0, None, seq(nslots, _ => None);
    }

    method BeforePlan(stream: Stream) returns (slot: nat)
      requires |slotEvents| > 0
      modifies stream
      ensures State() == old(State()) && slot == FirstSlot(State())
      ensures stream.pending == Before(State(), old(stream.pending))
    {
      slot := i % |slotEvents|;
      if last.Some? { stream.WaitFor(last.value); }
      if slotEvents[slot].Some? { stream.WaitFor(slotEvents[slot].value); }
    }

    method AfterPlan(slot: nat, event: nat)
      requires slot < |slotEvents|
      modifies this
      ensures State() == After(old(State()), slot, event)
    {
      last := Some(event);
      slotEvents := slotEvents[slot := Some(event)];
      i := i + 1;
    }
  }

  // ---------------------------------------------------------------------------------------------- runs

  /** A plan with the switch on or off, any other device work, or one step of the device. */
  datatype Action = Planned(on: bool, uploads: seq<Source>) | Launch | DeviceStep

  datatype World = World(fence: Fence, pending: Queue, events: nat)

  function Uploads(sources: seq<Source>): (ops: Queue)
    ensures |ops| == |sources| && forall k :: 0 <= k < |ops| ==> ops[k] == Work(Upload(sources[k]))
  {
    seq(|sources|, k requires 0 <= k < |sources| => Work(Upload(sources[k])))
  }

  /** A plan with the switch on is fenced on both sides; with it off it only uploads. */
  function Next(w: World, a: Action): (after: World)
    requires |w.fence.slotEvents| > 0
    ensures |after.fence.slotEvents| == |w.fence.slotEvents|
  {
    match a
    case Planned(true, uploads) =>
      World(After(w.fence, FirstSlot(w.fence), w.events),
            Before(w.fence, w.pending) + Uploads(uploads) + [Record(w.events)], w.events + 1)
    case Planned(false, uploads) => w.(pending := w.pending + Uploads(uploads))
    case Launch => w.(pending := w.pending + [Work(Compute)])
    case DeviceStep => if w.pending == [] then w else w.(pending := w.pending[1..])
  }

  /** Every pending upload is ahead of the last plan's event. */
  ghost predicate Fenced(w: World)
  {
    |w.fence.slotEvents| > 0 &&
    forall p :: (if w.fence.last.Some? then Awaited(w.pending, w.fence.last.value) else 0) <= p < |w.pending| ==>
        !IsUpload(w.pending[p])
  }

  function Run(w: World, run: seq<Action>): (after: World)
    requires |w.fence.slotEvents| > 0
    ensures |after.fence.slotEvents| == |w.fence.slotEvents|
    decreases |run|
  {
    if run == [] then w else Run(Next(w, run[0]), run[1..])
  }

  lemma {:induction false} RunLast(w: World, run: seq<Action>)
    requires |w.fence.slotEvents| > 0 && run != []
    ensures Run(w, run) == Next(Run(w, run[..|run| - 1]), run[|run| - 1])
    decreases |run|
  {
    if |run| > 1 {
      RunLast(Next(w, run[0]), run[1..]);
      assert run[1..][..|run| - 2] == run[..|run| - 1][1..];
    }
  }

  function Start(nslots: nat): World { World(Fence(0, None, seq(nslots, _ => None)), [], 0) }

  // ---------------------------------------------------------------------------------------------- safety

  /** When a fenced plan rewrites its memory no upload of any earlier plan is pending, whatever it reads. */
  lemma {:induction false} RewriteIsSafe(w: World)
    requires Fenced(w)
    ensures Quiet(Before(w.fence, w.pending))
  {
    var once := Drained(w.pending, w.fence.last);
    assert Quiet(once);
  }

  /** A fenced plan puts its event behind everything pending, uploads of unfenced plans among it. */
  lemma {:induction false} PlannedOnFences(w: World, uploads: seq<Source>)
    requires |w.fence.slotEvents| > 0
    ensures Fenced(Next(w, Planned(true, uploads)))
  {
    AwaitedAppend(Before(w.fence, w.pending) + Uploads(uploads), Record(w.events), w.events);
  }

  predicate UploadsUnfenced(a: Action) { a.Planned? && !a.on && a.uploads != [] }

  lemma {:induction false} NextKeeps(w: World, a: Action)
    requires Fenced(w) && !UploadsUnfenced(a)
    ensures Fenced(Next(w, a))
  {
    match a
    case Planned(true, uploads) => PlannedOnFences(w, uploads);
    case Planned(false, uploads) => assert w.pending + Uploads(uploads) == w.pending;
    case Launch => if w.fence.last.Some? { AwaitedAppend(w.pending, Work(Compute), w.fence.last.value); }
    case DeviceStep =>
  }

  /** Some unfenced plan has uploaded since the last fenced plan, or since the start. */
  predicate Exposed(run: seq<Action>)
    decreases |run|
  {
    run != [] &&
    var a := run[|run| - 1];
    (UploadsUnfenced(a) || (!(a.Planned? && a.on) && Exposed(run[..|run| - 1])))
  }

  lemma {:induction false} RunKeeps(nslots: nat, run: seq<Action>)
    requires nslots > 0 && !Exposed(run)
    ensures Fenced(Run(Start(nslots), run))
    decreases |run|
  {
    if run != [] {
      var a, before := run[|run| - 1], Run(Start(nslots), run[..|run| - 1]);
      RunLast(Start(nslots), run);
      if a.Planned? && a.on {
        PlannedOnFences(before, a.uploads);
      } else {
        RunKeeps(nslots, run[..|run| - 1]);
        NextKeeps(before, a);
      }
    }
  }

  /** Safety over whole runs, for any number of slots and any completion timing. */
  lemma {:induction false} RunIsSafe(nslots: nat, run: seq<Action>)
    requires nslots > 0 && !Exposed(run)
    ensures Quiet(Before(Run(Start(nslots), run).fence, Run(Start(nslots), run).pending))
  {
    RunKeeps(nslots, run);
    RewriteIsSafe(Run(Start(nslots), run));
  }

  predicate SwitchOn(run: seq<Action>) { forall k :: 0 <= k < |run| && run[k].Planned? ==> run[k].on }

  /** In particular while the switch stays on. */
  lemma {:induction false} SwitchOnIsCovered(run: seq<Action>)
    requires SwitchOn(run)
    ensures !Exposed(run)
    decreases |run|
  {
    if run != [] { SwitchOnIsCovered(run[..|run| - 1]); }
  }

  // ---------------------------------------------------------------------------------------------- exactness

  /** An upload is pending that no event follows. */
  ghost predicate Loose(pending: Queue)
  {
    exists p :: 0 <= p < |pending| && IsUpload(pending[p]) && forall q :: p <= q < |pending| ==> pending[q].Work?
  }

  lemma {:induction false} LooseOutlasts(pending: Queue, event: Option<nat>)
    requires Loose(pending)
    ensures Loose(Drained(pending, event))
  {
    if event.Some? {
      var p :| 0 <= p < |pending| && IsUpload(pending[p]) && forall q :: p <= q < |pending| ==> pending[q].Work?;
      var n := Awaited(pending, event.value);
      assert n > 0 ==> n - 1 < p;
      assert IsUpload(Drained(pending, event)[p - n]);
    }
  }

  lemma {:induction false} LooseAppend(pending: Queue, more: Queue)
    requires Loose(pending) && forall k :: 0 <= k < |more| ==> more[k].Work?
    ensures Loose(pending + more)
  {
    var p :| 0 <= p < |pending| && IsUpload(pending[p]) && forall q :: p <= q < |pending| ==> pending[q].Work?;
    assert IsUpload((pending + more)[p]);
  }

  /** Uploads enqueued by an unfenced plan outlast both waits of the next fenced plan, for every state of the fence and
  the stream, unless the device gets to them in time on its own. */
  lemma {:induction false} UnfencedPlanBreaks(w: World, uploads: seq<Source>)
    requires |w.fence.slotEvents| > 0 && uploads != []
    ensures var after := Next(w, Planned(false, uploads));
            Loose(after.pending) && !Quiet(Before(after.fence, after.pending))
  {
    var after := Next(w, Planned(false, uploads));
    assert IsUpload(after.pending[|w.pending|]);
    LooseOutlasts(after.pending, after.fence.last);
    LooseOutlasts(Drained(after.pending, after.fence.last), after.fence.slotEvents[FirstSlot(after.fence)]);
  }

  /** If the device makes no step, an exposed run ends with a loose upload. */
  lemma {:induction false} ExposedIsLoose(nslots: nat, run: seq<Action>)
    requires nslots > 0 && Exposed(run) && DeviceStep !in run
    ensures Loose(Run(Start(nslots), run).pending)
    decreases |run|
  {
    var a, before := run[|run| - 1], Run(Start(nslots), run[..|run| - 1]);
    RunLast(Start(nslots), run);
    if UploadsUnfenced(a) {
      UnfencedPlanBreaks(before, a.uploads);
    } else {
      ExposedIsLoose(nslots, run[..|run| - 1]);
      LooseAppend(before.pending, if a.Launch? then [Work(Compute)] else Uploads(a.uploads));
    }
  }

  /** The host's part of a run. */
  function HostOf(run: seq<Action>): (host: seq<Action>)
    ensures DeviceStep !in host
    decreases |run|
  {
    if run == [] then []
    else HostOf(run[..|run| - 1]) + (if run[|run| - 1].DeviceStep? then [] else [run[|run| - 1]])
  }

  lemma {:induction false} ExposedByHost(run: seq<Action>)
    ensures Exposed(HostOf(run)) <==> Exposed(run)
    decreases |run|
  {
    if run != [] {
      var host, front := HostOf(run), HostOf(run[..|run| - 1]);
      ExposedByHost(run[..|run| - 1]);
      assert run[|run| - 1].DeviceStep? ==> host == front;
      assert !run[|run| - 1].DeviceStep? ==> host[..|host| - 1] == front && host[|host| - 1] == run[|run| - 1];
    }
  }

  lemma {:induction false} HostOfHost(host: seq<Action>)
    requires DeviceStep !in host
    ensures HostOf(host) == host
    decreases |host|
  {
    if host != [] { HostOfHost(host[..|host| - 1]); }
  }

  /** For every timing of the device, the fenced plan that follows these host actions rewrites quiet memory. */
  ghost predicate AlwaysQuiet(nslots: nat, host: seq<Action>)
    requires nslots > 0
  {
    forall run :: HostOf(run) == host ==>
      Quiet(Before(Run(Start(nslots), run).fence, Run(Start(nslots), run).pending))
  }

  /** The fence protects a rewrite in every timing if and only if no unfenced plan has uploaded since the last fenced
  one, or since the start: it need not have been on all along. */
  lemma {:induction false} FenceIsExact(nslots: nat, host: seq<Action>)
    requires nslots > 0 && DeviceStep !in host
    ensures AlwaysQuiet(nslots, host) <==> !Exposed(host)
  {
    if Exposed(host) {
      var w := Run(Start(nslots), host);
      ExposedIsLoose(nslots, host);
      HostOfHost(host);
      LooseOutlasts(w.pending, w.fence.last);
      LooseOutlasts(Drained(w.pending, w.fence.last), w.fence.slotEvents[FirstSlot(w.fence)]);
    } else {
      forall run | HostOf(run) == host
        ensures Quiet(Before(Run(Start(nslots), run).fence, Run(Start(nslots), run).pending))
      {
        ExposedByHost(run);
        RunIsSafe(nslots, run);
      }
    }
  }
}
