// The three single-producer single-consumer rings (include/ds_io_uring.h, include/ds_ck_ring_spsc.h,
// include/ds_folly_spsc.h) as one machine. They make the same accesses in the same order and differ
// in how a 32-bit index advances, how it selects a slot and how it tells that the ring is full.

module SpscRing {
  import opened Base
  import opened Words
  import Fifo

  datatype Kind =
    | IoUring  // free-running indices, masked on access; every slot is used
    | Ck       // masked indices; one slot stays empty
    | Folly    // indices that a branch sends back to 0; one slot stays empty

  /** Sizes the init functions accept. */
  predicate Legal(kind: Kind, n: nat) {
    && n < TWO32
    && match kind
       case IoUring => IsPow2(n)
       case Ck => 2 <= n && IsPow2(n)
       case Folly => 2 <= n
  }

  function Capacity(kind: Kind, n: nat): int { if kind.IoUring? then n else n - 1 }

  // ---- 32-bit index arithmetic ----

  function Inc32(i: nat): nat { if i + 1 < TWO32 then i + 1 else i + 1 - TWO32 }

  function Sub32(x: nat, y: nat): nat
    requires y <= TWO32
  {
    if y <= x then x - y else x - y + TWO32
  }

  function Next(kind: Kind, n: nat, i: nat): nat
    requires 0 < n
  {
    match kind
    case IoUring => Inc32(i)
    case Ck => BitAnd(Inc32(i), n - 1)
    case Folly => if Inc32(i) >= n then 0 else Inc32(i)
  }

  function Slot(kind: Kind, n: nat, i: nat): nat
    requires 0 < n
  {
    if kind.IoUring? then BitAnd(i, n - 1) else i
  }

  predicate IsFull(kind: Kind, n: nat, tail: nat, head: nat)
    requires 0 < n && head <= TWO32
  {
    if kind.IoUring? then Sub32(tail, head) >= n else Next(kind, n, tail) == head
  }

  // ---- The machine ----

  /** `full` is the flag bit the io_uring producer raises and clears. */
  datatype Memory = Memory(kind: Kind, n: nat, tail: nat, head: nat, full: bool, slots: seq<Kv>)

  datatype Producer =
    | Resting(result: Result)
    | Check(kv: Kv)
    | Key(kv: Kv, tail: nat)
    | Value(kv: Kv, tail: nat)
    | Publish(kv: Kv, tail: nat)
    | Flag(result: Result)

  /** `out` tells whether the caller asked for the pair. */
  datatype Consumer =
    | Waiting(result: Result, out: bool, pair: Kv)
    | Look(out: bool)
    | ReadKey(head: nat)
    | ReadValue(head: nat, key: nat)
    | Release(out: bool, head: nat, pair: Kv)

  /** History variables: all pairs ever published, and how many were released. */
  datatype State = State(mem: Memory, producer: Producer, consumer: Consumer, puts: seq<Kv>, taken: nat)

  datatype Event = CallInsert(kv: Kv) | CallPop(out: bool) | Produce | Consume

  function At(slots: seq<Kv>, i: nat): Kv { if i < |slots| then slots[i] else Kv(0, 0) }

  function Put(slots: seq<Kv>, i: nat, kv: Kv): seq<Kv> { if i < |slots| then slots[i := kv] else slots }

  function AfterInsert(kind: Kind, result: Result): Producer {
    if kind.IoUring? then Flag(result) else Resting(result)
  }

  /** One access of the producer; a load of its own index goes with the load of the other's. */
  function ProducerStep(s: State): State
    requires 0 < s.mem.n && s.mem.head <= TWO32
  {
    var m := s.mem;
    match s.producer
    case Check(kv) =>
      s.(producer := if IsFull(m.kind, m.n, m.tail, m.head) then AfterInsert(m.kind, Full) else Key(kv, m.tail))
    case Key(kv, tail) =>
      var i := Slot(m.kind, m.n, tail);
      s.(mem := m.(slots := Put(m.slots, i, At(m.slots, i).(key := kv.key))), producer := Value(kv, tail))
    case Value(kv, tail) =>
      var i := Slot(m.kind, m.n, tail);
      s.(mem := m.(slots := Put(m.slots, i, At(m.slots, i).(value := kv.value))), producer := Publish(kv, tail))
    case Publish(kv, tail) =>
      s.(mem := m.(tail := Next(m.kind, m.n, tail)), puts := s.puts + [kv], producer := AfterInsert(m.kind, Success))
    case Flag(result) => s.(mem := m.(full := result == Full), producer := Resting(result))
    case _ => s
  }

  /** One access of the consumer. */
  function ConsumerStep(s: State): State
    requires 0 < s.mem.n
  {
    var m := s.mem;
    match s.consumer
    case Look(out) =>
      s.(consumer := if m.head == m.tail then Waiting(NotFound, out, Kv(0, 0))
                     else if out then ReadKey(m.head) else Release(out, m.head, Kv(0, 0)))
    case ReadKey(head) => s.(consumer := ReadValue(head, At(m.slots, Slot(m.kind, m.n, head)).key))
    case ReadValue(head, key) =>
      s.(consumer := Release(true, head, Kv(key, At(m.slots, Slot(m.kind, m.n, head)).value)))
    case Release(out, head, pair) =>
      s.(mem := m.(head := Next(m.kind, m.n, head)), taken := s.taken + 1, consumer := Waiting(Success, out, pair))
    case _ => s
  }

  /** The effect of one event; an event that is not enabled changes nothing. */
  function Apply(s: State, e: Event): State
    requires 0 < s.mem.n && s.mem.head <= TWO32
  {
    match e
    case CallInsert(kv) => if s.producer.Resting? then s.(producer := Check(kv)) else s
    case CallPop(out) => if s.consumer.Waiting? then s.(consumer := Look(out)) else s
    case Produce => ProducerStep(s)
    case Consume => ConsumerStep(s)
  }

  /** The abstract operation an event completes: the store to the tail puts a pair, the store to the
      head takes the pair in its slot, and a look at the other side's index may refuse or miss. */
  function Effect(s: State, e: Event): Option<Fifo.Op>
    requires 0 < s.mem.n && s.mem.head <= TWO32
  {
    var m := s.mem;
    if e.Produce? && s.producer.Publish? then Some(Fifo.Put(s.producer.kv))
    else if e.Produce? && s.producer.Check? && IsFull(m.kind, m.n, m.tail, m.head) then Some(Fifo.Refuse)
    else if e.Consume? && s.consumer.Release? then Some(Fifo.Take(At(m.slots, Slot(m.kind, m.n, s.consumer.head))))
    else if e.Consume? && s.consumer.Look? && m.head == m.tail then Some(Fifo.Miss)
    else None
  }

  /** The state the init functions leave behind; the slots hold anything. */
  predicate Initial(s: State) {
    var m := s.mem;
    && Legal(m.kind, m.n) && |m.slots| == m.n && m.tail == m.head == 0 && !m.full
    && s.producer.Resting? && s.producer.result != Full
    && s.consumer == Waiting(NotFound, false, Kv(0, 0)) && s.puts == [] && s.taken == 0
  }
}
