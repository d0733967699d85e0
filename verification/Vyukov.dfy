// Vyukov's bounded multi-producer multi-consumer queue (include/ds_vyukhov.h) as a
// machine whose every step is one atomic access of one thread.

module Vyukov {
  import opened Base
  import opened Words
  import Fifo

  const MAX_RETRIES: nat := 100

  datatype Cell = Cell(sequence: nat, key: nat, value: nat)

  datatype Memory = Memory(
    enqueuePos: nat,
    dequeuePos: nat,
    mask: nat,
    cells: seq<Cell>,
    count: nat)

  /** Where a thread stands in insert or pop, with its local variables. `first` records the
      position the call loaded first; it steers nothing. */
  datatype Pc =
    | Idle
    | InsStart(kv: Kv)
    | InsSeq(kv: Kv, pos: nat, tries: nat, first: nat)
    | InsCas(kv: Kv, pos: nat, tries: nat, first: nat)
    | InsReload(kv: Kv, tries: nat, first: nat)
    | InsKey(kv: Kv, pos: nat)
    | InsValue(kv: Kv, pos: nat)
    | InsPublish(kv: Kv, pos: nat)
    | InsCount(kv: Kv, pos: nat)
    | Inserted(result: Result, at: nat, kv: Kv)
    | PopStart
    | PopSeq(pos: nat, tries: nat, first: nat)
    | PopCas(pos: nat, tries: nat, first: nat)
    | PopReload(tries: nat, first: nat)
    | PopKey(pos: nat)
    | PopValue(pos: nat, key: nat)
    | PopRelease(pos: nat, kv: Kv)
    | PopCount(pos: nat, kv: Kv)
    | Popped(result: Result, at: nat, kv: Kv)

  /** History variables: per claimed position its pair, its producer and its consumer,
      and per cell the position it currently serves. No step reads them. */
  datatype Log = Log(puts: seq<Kv>, producers: seq<nat>, consumers: seq<nat>, serving: seq<nat>)

  datatype State = State(mem: Memory, threads: seq<Pc>, log: Log)

  datatype Event =
    | CallInsert(t: nat, kv: Kv)
    | CallPop(t: nat)
    | Tick(t: nat)

  predicate Shape(m: Memory) {
    1 <= m.mask && m.mask + 1 < TWO32 && IsPow2(m.mask + 1) && |m.cells| == m.mask + 1
  }

  function Capacity(m: Memory): nat { m.mask + 1 }

  /** The cell of a position; the code computes it with the mask, see SlotIsMask. */
  function Slot(m: Memory, pos: nat): (i: nat)
    requires Shape(m)
    ensures i < |m.cells|
  {
    pos % Capacity(m)
  }

  lemma SlotIsMask(m: Memory, pos: nat)
    requires Shape(m)
    ensures BitAnd(pos, m.mask) == Slot(m, pos)
  {
    MaskIsMod(pos, m.mask + 1);
  }

  /** The signed distance the code branches on. */
  function Dif(sequence: nat, pos: nat): int { Signed64(sequence) - Signed64(pos) }

  function Goto(s: State, t: nat, pc: Pc): State
    requires t < |s.threads|
  {
    s.(threads := s.threads[t := pc])
  }

  function SetCell(m: Memory, i: nat, c: Cell): Memory
    requires i < |m.cells|
  {
    m.(cells := m.cells[i := c])
  }

  /** One access of thread t inside insert. */
  function InsertStep(s: State, t: nat): State
    requires Shape(s.mem) && t < |s.threads|
  {
    var m := s.mem;
    match s.threads[t]
    case InsStart(kv) => Goto(s, t, InsSeq(kv, m.enqueuePos, 0, m.enqueuePos))
    case InsSeq(kv, pos, tries, first) =>
      var dif := Dif(m.cells[Slot(m, pos)].sequence, pos);
      if dif == 0 then Goto(s, t, InsCas(kv, pos, tries, first))
      else if dif < 0 then Goto(s, t, Inserted(NoMem, pos, kv))
      else Goto(s, t, InsReload(kv, tries + 1, first))
    case InsCas(kv, pos, tries, first) =>
      if m.enqueuePos == pos then
        Goto(s, t, InsKey(kv, pos)).(
          mem := m.(enqueuePos := Add64(pos, 1)),
          log := s.log.(puts := s.log.puts + [kv], producers := s.log.producers + [t]))
      else Goto(s, t, InsReload(kv, tries + 1, first))
    case InsReload(kv, tries, first) =>
      if tries < MAX_RETRIES then Goto(s, t, InsSeq(kv, m.enqueuePos, tries, first))
      else Goto(s, t, Inserted(Busy, first, kv))
    case InsKey(kv, pos) =>
      var i := Slot(m, pos);
      Goto(s, t, InsValue(kv, pos)).(mem := SetCell(m, i, m.cells[i].(key := kv.key)))
    case InsValue(kv, pos) =>
      var i := Slot(m, pos);
      Goto(s, t, InsPublish(kv, pos)).(mem := SetCell(m, i, m.cells[i].(value := kv.value)))
    case InsPublish(kv, pos) =>
      var i := Slot(m, pos);
      Goto(s, t, InsCount(kv, pos)).(mem := SetCell(m, i, m.cells[i].(sequence := Add64(pos, 1))))
    case InsCount(kv, pos) =>
      Goto(s, t, Inserted(Success, pos, kv)).(mem := m.(count := Add64(m.count, 1)))
    case _ => s
  }

  /** One access of thread t inside pop. */
  function PopStep(s: State, t: nat): State
    requires Shape(s.mem) && t < |s.threads|
  {
    var m := s.mem;
    match s.threads[t]
    case PopStart => Goto(s, t, PopSeq(m.dequeuePos, 0, m.dequeuePos))
    case PopSeq(pos, tries, first) =>
      var dif := Dif(m.cells[Slot(m, pos)].sequence, Add64(pos, 1));
      if dif == 0 then Goto(s, t, PopCas(pos, tries, first))
      else if dif < 0 then Goto(s, t, Popped(NotFound, pos, Kv(0, 0)))
      else Goto(s, t, PopReload(tries + 1, first))
    case PopCas(pos, tries, first) =>
      if m.dequeuePos == pos then
        Goto(s, t, PopKey(pos)).(
          mem := m.(dequeuePos := Add64(pos, 1)),
          log := s.log.(consumers := s.log.consumers + [t]))
      else Goto(s, t, PopReload(tries + 1, first))
    case PopReload(tries, first) =>
      if tries < MAX_RETRIES then Goto(s, t, PopSeq(m.dequeuePos, tries, first))
      else Goto(s, t, Popped(Busy, first, Kv(0, 0)))
    case PopKey(pos) => Goto(s, t, PopValue(pos, m.cells[Slot(m, pos)].key))
    case PopValue(pos, key) => Goto(s, t, PopRelease(pos, Kv(key, m.cells[Slot(m, pos)].value)))
    case PopRelease(pos, kv) =>
      var i := Slot(m, pos);
      var next := Add64(pos, Add64(m.mask, 1));
      var serving := if i < |s.log.serving| then s.log.serving[i := next] else s.log.serving;
      Goto(s, t, PopCount(pos, kv)).(
        mem := SetCell(m, i, m.cells[i].(sequence := next)), log := s.log.(serving := serving))
    case PopCount(pos, kv) =>
      Goto(s, t, Popped(Success, pos, kv)).(mem := m.(count := Sub64(m.count, 1)))
    case _ => s
  }

  predicate Resting(pc: Pc) { pc.Idle? || pc.Inserted? || pc.Popped? }

  predicate Popping(pc: Pc) {
    pc.PopStart? || pc.PopSeq? || pc.PopCas? || pc.PopReload? ||
    pc.PopKey? || pc.PopValue? || pc.PopRelease? || pc.PopCount?
  }

  /** The effect of one event; an event that is not enabled changes nothing. */
  function Apply(s: State, e: Event): (r: State)
    requires Shape(s.mem)
    ensures Shape(r.mem) && r.mem.mask == s.mem.mask && |r.threads| == |s.threads|
  {
    if e.t >= |s.threads| then s else
      match e
      case CallInsert(t, kv) => if Resting(s.threads[t]) then Goto(s, t, InsStart(kv)) else s
      case CallPop(t) => if Resting(s.threads[t]) then Goto(s, t, PopStart) else s
      case Tick(t) => if Popping(s.threads[t]) then PopStep(s, t) else InsertStep(s, t)
  }

  function Run(s: State, es: seq<Event>): (r: State)
    requires Shape(s.mem)
    ensures Shape(r.mem) && r.mem.mask == s.mem.mask && |r.threads| == |s.threads|
  {
    if es == [] then s else Apply(Run(s, es[..|es| - 1]), es[|es| - 1])
  }

  /** The abstract operation an event completes: a successful compare-and-swap on a counter.
      The value taken is what the cell holds at that instant. */
  function Effect(s: State, e: Event): Option<Fifo.Op>
    requires Shape(s.mem)
  {
    if !e.Tick? || e.t >= |s.threads| then None else
      match s.threads[e.t]
      case InsCas(kv, pos, _, _) => if s.mem.enqueuePos == pos then Some(Fifo.Put(kv)) else None
      case PopCas(pos, _, _) =>
        var c := s.mem.cells[Slot(s.mem, pos)];
        if s.mem.dequeuePos == pos then Some(Fifo.Take(Kv(c.key, c.value))) else None
      case _ => None
  }

  function Trace(s: State, es: seq<Event>): seq<Fifo.Op>
    requires Shape(s.mem)
  {
    if es == [] then [] else
      var before := es[..|es| - 1];
      Fifo.Append(Trace(s, before), Effect(Run(s, before), es[|es| - 1]))
  }

  /** The state ds_vyukhov_init leaves behind, for any number of threads. */
  predicate Initial(s: State) {
    && Shape(s.mem)
    && s.mem.enqueuePos == s.mem.dequeuePos == s.mem.count == 0
    && (forall i :: 0 <= i < |s.mem.cells| ==> s.mem.cells[i].sequence == i)
    && (forall t :: 0 <= t < |s.threads| ==> s.threads[t] == Idle)
    && s.log == Log([], [], [], seq(Capacity(s.mem), i => i))
  }
}
