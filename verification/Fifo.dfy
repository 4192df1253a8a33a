/** A device stream: operations run in the order they were enqueued, events are recorded among them, and the host may
wait for an event. */
module Fifo {
  datatype Op<T> = Work(op: T) | Record(event: nat)

  /** How many operations run before a wait for the event returns: up to its last record, none if it has fired. */
  function Awaited<T(==)>(ops: seq<Op<T>>, event: nat): (n: nat)
    ensures n <= |ops|
    ensures forall k :: n <= k < |ops| ==> ops[k] != Record(event)
    ensures n > 0 ==> ops[n - 1] == Record(event)
  {
    if ops == [] then 0
    else
      var n := Awaited(ops[1..], event);
      if n > 0 then n + 1 else if ops[0] == Record(event) then 1 else 0
  }

  lemma {:induction false} AwaitedAppend<T>(ops: seq<Op<T>>, op: Op<T>, event: nat)
    ensures Awaited(ops + [op], event) == if op == Record(event) then |ops| + 1 else Awaited(ops, event)
    decreases |ops|
  {
    if ops == [] {
      assert (ops + [op])[1..] == [];
    } else {
      AwaitedAppend(ops[1..], op, event);
      assert (ops + [op])[1..] == ops[1..] + [op];
    }
  }

  /** Running operations on a state: the work changes it, a record does not. */
  function RunOps<S, T>(f: (S, T) -> S, s: S, ops: seq<Op<T>>): (r: S)
    decreases |ops|
  {
    if ops == [] then s
    else RunOps(f, if ops[0].Work? then f(s, ops[0].op) else s, ops[1..])
  }

  lemma {:induction false} RunAppend<S, T>(f: (S, T) -> S, s: S, ops: seq<Op<T>>, op: Op<T>)
    ensures RunOps(f, s, ops + [op]) == if op.Work? then f(RunOps(f, s, ops), op.op) else RunOps(f, s, ops)
    decreases |ops|
  {
    if ops == [] {
      assert (ops + [op])[1..] == [];
    } else {
      assert (ops + [op])[1..] == ops[1..] + [op];
      RunAppend(f, if ops[0].Work? then f(s, ops[0].op) else s, ops[1..], op);
    }
  }

  /** How far the device has got makes no difference to where it ends. */
  lemma {:induction false} RunSplit<S, T>(f: (S, T) -> S, s: S, ops: seq<Op<T>>, n: nat)
    requires n <= |ops|
    ensures RunOps(f, RunOps(f, s, ops[..n]), ops[n..]) == RunOps(f, s, ops)
    decreases n
  {
    if n == 0 {
      assert ops[..0] == [] && ops[0..] == ops;
    } else {
      assert ops[..n][1..] == ops[1..][..n - 1] && ops[n..] == ops[1..][n - 1..];
      RunSplit(f, if ops[0].Work? then f(s, ops[0].op) else s, ops[1..], n - 1);
    }
  }

  /** After the wait: what ran, and what is still pending. */
  function Ran<S, T(==)>(f: (S, T) -> S, s: S, ops: seq<Op<T>>, event: nat): (r: S)
  {
    RunOps(f, s, ops[..Awaited(ops, event)])
  }

  function Left<T(==)>(ops: seq<Op<T>>, event: nat): (rest: seq<Op<T>>)
  {
    ops[Awaited(ops, event)..]
  }

  /** Once n operations have run, that many fewer are awaited. */
  lemma {:induction false} AwaitedRest<T>(ops: seq<Op<T>>, n: nat, event: nat)
    requires n <= |ops|
    ensures Awaited(ops[n..], event) == if Awaited(ops, event) >= n then Awaited(ops, event) - n else 0
    decreases n
  {
    if n == 0 {
      assert ops[0..] == ops;
    } else {
      assert ops[n..] == ops[1..][n - 1..];
      AwaitedRest(ops[1..], n - 1, event);
    }
  }
}
