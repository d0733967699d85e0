// The sequential specifications that the concurrent structures refine.

/** A first-in first-out queue, bounded or not. */
module Fifo {
  import opened Base

  datatype Bound = Unbounded | AtMost(slots: nat)

  /** What one operation does to the queue at the instant it takes effect. */
  datatype Op =
    | Put(kv: Kv)
    | Take(kv: Kv)
    | Miss    // a reader is told the queue is empty
    | Refuse  // a writer is told the queue is full

  predicate Room(q: seq<Kv>, bound: Bound) {
    bound.AtMost? ==> |q| < bound.slots
  }

  /** The queue after op, or None when a FIFO could not have answered so. */
  function Do(q: seq<Kv>, bound: Bound, op: Op): Option<seq<Kv>> {
    match op
    case Put(kv) => if Room(q, bound) then Some(q + [kv]) else None
    case Take(kv) => if q != [] && q[0] == kv then Some(q[1..]) else None
    case Miss => if q == [] then Some(q) else None
    case Refuse => if Room(q, bound) then None else Some(q)
  }

  /** The queue that remains after a history of operations on an empty queue. */
  function Replay(bound: Bound, ops: seq<Op>): Option<seq<Kv>> {
    if ops == [] then Some([]) else
      match Replay(bound, ops[..|ops| - 1])
      case None => None
      case Some(q) => Do(q, bound, ops[|ops| - 1])
  }

  function Puts(ops: seq<Op>): seq<Kv> {
    if ops == [] then [] else
      var before := Puts(ops[..|ops| - 1]);
      if ops[|ops| - 1].Put? then before + [ops[|ops| - 1].kv] else before
  }

  function Takes(ops: seq<Op>): seq<Kv> {
    if ops == [] then [] else
      var before := Takes(ops[..|ops| - 1]);
      if ops[|ops| - 1].Take? then before + [ops[|ops| - 1].kv] else before
  }

  /** A history a FIFO accepts takes out exactly what was put in, in the order it was put in. */
  lemma {:induction false} TakesArePrefixOfPuts(bound: Bound, ops: seq<Op>)
    requires Replay(bound, ops).Some?
    ensures Puts(ops) == Takes(ops) + Replay(bound, ops).value
    ensures bound.AtMost? ==> |Replay(bound, ops).value| <= bound.slots
  {
    if ops != [] {
      TakesArePrefixOfPuts(bound, ops[..|ops| - 1]);
    }
  }

  /** One more operation at the end of a history. */
  lemma ReplayAppend(bound: Bound, ops: seq<Op>, op: Op)
    requires Replay(bound, ops).Some?
    ensures Replay(bound, ops + [op]) == Do(Replay(bound, ops).value, bound, op)
  {
    assert (ops + [op])[..|ops|] == ops;
  }

  /** A history grows by the operation a step completes, if it completes one. */
  function Append(ops: seq<Op>, op: Option<Op>): seq<Op> {
    match op case None => ops case Some(o) => ops + [o]
  }

  lemma PutsAppend(ops: seq<Op>, op: Option<Op>)
    ensures Puts(Append(ops, op)) == if op.Some? && op.value.Put? then Puts(ops) + [op.value.kv] else Puts(ops)
  {
    if op.Some? {
      assert (ops + [op.value])[..|ops|] == ops;
    }
  }

  /** A step that acts on the abstract queue as its operation says keeps the history in step. */
  lemma Extend(bound: Bound, ops: seq<Op>, op: Option<Op>, q: seq<Kv>, q': seq<Kv>)
    requires Replay(bound, ops) == Some(q)
    requires match op case None => q' == q case Some(o) => Do(q, bound, o) == Some(q')
    ensures Replay(bound, Append(ops, op)) == Some(q')
  {
    if op.Some? {
      ReplayAppend(bound, ops, op.value);
    }
  }
}

/** A last-in first-out stack; the top is at index 0. */
module Lifo {
  import opened Base

  datatype Op =
    | Push(kv: Kv)
    | Pop(kv: Kv)
    | Miss  // a reader is told the stack is empty

  function Do(q: seq<Kv>, op: Op): Option<seq<Kv>> {
    match op
    case Push(kv) => Some([kv] + q)
    case Pop(kv) => if q != [] && q[0] == kv then Some(q[1..]) else None
    case Miss => if q == [] then Some(q) else None
  }

  function Replay(ops: seq<Op>): Option<seq<Kv>> {
    if ops == [] then Some([]) else
      match Replay(ops[..|ops| - 1])
      case None => None
      case Some(q) => Do(q, ops[|ops| - 1])
  }

  lemma ReplayAppend(ops: seq<Op>, op: Op)
    requires Replay(ops).Some?
    ensures Replay(ops + [op]) == Do(Replay(ops).value, op)
  {
    assert (ops + [op])[..|ops|] == ops;
  }

  function Append(ops: seq<Op>, op: Option<Op>): seq<Op> {
    match op case None => ops case Some(o) => ops + [o]
  }

  lemma Extend(ops: seq<Op>, op: Option<Op>, q: seq<Kv>, q': seq<Kv>)
    requires Replay(ops) == Some(q)
    requires match op case None => q' == q case Some(o) => Do(q, o) == Some(q')
    ensures Replay(Append(ops, op)) == Some(q')
  {
    if op.Some? {
      ReplayAppend(ops, op.value);
    }
  }
}
