// The single-producer single-consumer FIFO with node recycling (include/ds_ck_fifo_spsc.h) as a
// machine whose every step is one access to memory that the other side may touch. Accesses to
// fields that only one side uses are taken together with the access they belong to.

module CkFifo {
  import opened Base
  import Fifo

  type Addr = nat
  const NULL: Addr := 0

  /** `value` points to the payload inside an entry and is named by that entry's address. */
  datatype Entry = Entry(value: Addr, next: Addr, kv: Kv)

  datatype Memory = Memory(head: Addr, tail: Addr, snapshot: Addr, garbage: Addr, entries: map<Addr, Entry>)

  datatype Producer =
    | Resting(result: Result)
    | Recycle(kv: Kv)
    | Reload(kv: Kv)
    | Unlink(kv: Kv)
    | Alloc(kv: Kv)
    | Key(kv: Kv, entry: Addr)
    | Value(kv: Kv, entry: Addr)
    | Payload(kv: Kv, entry: Addr)
    | Next(kv: Kv, entry: Addr)
    | Link(kv: Kv, entry: Addr)
    | Tail(kv: Kv, entry: Addr)

  /** `out` tells whether the caller asked for the pair. */
  datatype Consumer =
    | Waiting(result: Result, out: bool, pair: Kv)
    | Head(out: bool)
    | Successor(out: bool, head: Addr)
    | Pointer(out: bool, entry: Addr)
    | Advance(out: bool, entry: Addr, value: Addr)
    | ReadKey(value: Addr)
    | ReadValue(value: Addr, key: nat)

  /** History variables: every entry ever linked, in order and with its pair (an address occurs again
      after it was recycled), the latest place of each address, and the places of the three cursors. */
  datatype Log = Log(chain: seq<Addr>, puts: seq<Kv>, index: map<Addr, nat>, garbage: nat, snapshot: nat, head: nat)

  datatype State = State(mem: Memory, producer: Producer, consumer: Consumer, log: Log)

  datatype Event =
    | CallInsert(kv: Kv)
    | CallDelete(out: bool)
    | Grant(entry: Addr, junk: Entry)  // the allocator answers; NULL when out of memory
    | Produce
    | Consume

  function Deref(m: Memory, a: Addr): Entry {
    if a in m.entries then m.entries[a] else Entry(NULL, NULL, Kv(0, 0))
  }

  function Store(m: Memory, a: Addr, e: Entry): Memory { m.(entries := m.entries[a := e]) }

  /** One step of the producer inside insert. */
  function ProducerStep(s: State): State {
    var m := s.mem;
    match s.producer
    case Recycle(kv) => s.(producer := if m.snapshot == m.garbage then Reload(kv) else Unlink(kv))
    case Reload(kv) =>
      s.(mem := m.(snapshot := m.head), log := s.log.(snapshot := s.log.head),
         producer := if m.head == m.garbage then Alloc(kv) else Unlink(kv))
    case Unlink(kv) =>
      s.(mem := m.(garbage := Deref(m, m.garbage).next), log := s.log.(garbage := s.log.garbage + 1),
         producer := Key(kv, m.garbage))
    case Key(kv, a) =>
      s.(mem := Store(m, a, Deref(m, a).(kv := Deref(m, a).kv.(key := kv.key))), producer := Value(kv, a))
    case Value(kv, a) =>
      s.(mem := Store(m, a, Deref(m, a).(kv := Deref(m, a).kv.(value := kv.value))), producer := Payload(kv, a))
    case Payload(kv, a) => s.(mem := Store(m, a, Deref(m, a).(value := a)), producer := Next(kv, a))
    case Next(kv, a) => s.(mem := Store(m, a, Deref(m, a).(next := NULL)), producer := Link(kv, a))
    case Link(kv, a) =>
      s.(mem := Store(m, m.tail, Deref(m, m.tail).(next := a)), producer := Tail(kv, a),
         log := s.log.(chain := s.log.chain + [a], puts := s.log.puts + [kv], index := s.log.index[a := |s.log.chain|]))
    case Tail(kv, a) => s.(mem := m.(tail := a), producer := Resting(Success))
    case _ => s
  }

  /** One step of the consumer inside delete. */
  function ConsumerStep(s: State): State {
    var m := s.mem;
    match s.consumer
    case Head(out) => s.(consumer := Successor(out, m.head))
    case Successor(out, head) =>
      var entry := Deref(m, head).next;
      s.(consumer := if entry == NULL then Waiting(NotFound, out, Kv(0, 0)) else Pointer(out, entry))
    case Pointer(out, entry) => s.(consumer := Advance(out, entry, Deref(m, entry).value))
    case Advance(out, entry, value) =>
      s.(mem := m.(head := entry), log := s.log.(head := s.log.head + 1),
         consumer := if !out then Waiting(Success, out, Kv(0, 0))
                     else if value == NULL then Waiting(Corrupt, out, Kv(0, 0))
                     else ReadKey(value))
    case ReadKey(value) => s.(consumer := ReadValue(value, Deref(m, value).kv.key))
    case ReadValue(value, key) => s.(consumer := Waiting(Success, true, Kv(key, Deref(m, value).kv.value)))
    case _ => s
  }

  /** The effect of one event; an event that is not enabled changes nothing. The allocator grants no
      address that is still part of the structure. */
  function Apply(s: State, e: Event): State {
    match e
    case CallInsert(kv) => if s.producer.Resting? then s.(producer := Recycle(kv)) else s
    case CallDelete(out) => if s.consumer.Waiting? then s.(consumer := Head(out)) else s
    case Grant(a, junk) =>
      if !s.producer.Alloc? then s
      else if a == NULL then s.(producer := Resting(NoMem))
      else if a in s.mem.entries then s
      else s.(mem := Store(s.mem, a, junk), producer := Key(s.producer.kv, a))
    case Produce => ProducerStep(s)
    case Consume => ConsumerStep(s)
  }

  function Run(s: State, es: seq<Event>): State {
    if es == [] then s else Apply(Run(s, es[..|es| - 1]), es[|es| - 1])
  }

  /** The abstract operation an event completes: the store to tail->next puts a pair, the store to head
      takes the pair then in the new head, and the load of head->next that sees NULL finds no pair. */
  function Effect(s: State, e: Event): Option<Fifo.Op> {
    if e.Produce? && s.producer.Link? then Some(Fifo.Put(s.producer.kv))
    else if e.Consume? && s.consumer.Advance? then Some(Fifo.Take(Deref(s.mem, s.consumer.entry).kv))
    else if e.Consume? && s.consumer.Successor? && Deref(s.mem, s.consumer.head).next == NULL then Some(Fifo.Miss)
    else None
  }

  function Trace(s: State, es: seq<Event>): seq<Fifo.Op> {
    if es == [] then [] else
      var before := es[..|es| - 1];
      Fifo.Append(Trace(s, before), Effect(Run(s, before), es[|es| - 1]))
  }

  /** The state ds_ck_fifo_spsc_init leaves behind: one stub entry. */
  predicate Initial(s: State) {
    var stub := s.mem.head;
    && stub != NULL
    && s.mem == Memory(stub, stub, stub, stub, map[stub := Entry(NULL, NULL, Kv(0, 0))])
    && s.producer.Resting? && s.consumer == Waiting(NotFound, false, Kv(0, 0))
    && s.log == Log([stub], [Kv(0, 0)], map[stub := 0], 0, 0, 0)
  }
}
