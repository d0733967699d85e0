// The Michael-Scott queue (include/ds_msqueue.h) as a machine whose every step is one atomic
// access of one thread. Node addresses are never issued twice.

module MsQueue {
  import opened Base
  import Fifo

  const MAX_RETRIES: nat := 10

  type Addr = nat
  const NULL: Addr := 0

  datatype Node = Node(next: Addr, data: Kv)

  datatype Memory = Memory(head: Addr, tail: Addr, count: nat, nodes: map<Addr, Node>)

  /** Where a thread stands, with its local variables. `from` and `seen` record progress of the
      whole queue at the start of the call and of the round; they steer nothing. */
  datatype Pc =
    | Idle
    | InsAlloc(kv: Kv)
    | InsKey(kv: Kv, node: Addr)
    | InsValue(kv: Kv, node: Addr)
    | InsNext(kv: Kv, node: Addr)
    | InsTail(kv: Kv, node: Addr, tries: nat, from: nat)
    | InsPeek(kv: Kv, node: Addr, tries: nat, from: nat, tail: Addr, seen: nat)
    | InsHelp(kv: Kv, node: Addr, tries: nat, from: nat, tail: Addr, seen: nat, next: Addr)
    | InsLink(kv: Kv, node: Addr, tries: nat, from: nat, tail: Addr, seen: nat)
    | InsCount(kv: Kv, node: Addr, tail: Addr)
    | InsSwing(kv: Kv, node: Addr, tail: Addr)
    | InsFree(kv: Kv, node: Addr, from: nat)
    | Inserted(result: Result, kv: Kv, node: Addr)
    | PopHead(tries: nat, from: nat)
    | PopTail(tries: nat, from: nat, head: Addr, seen: nat)
    | PopNext(tries: nat, from: nat, head: Addr, seen: nat, tail: Addr)
    | PopCheck(tries: nat, from: nat, head: Addr, seen: nat, tail: Addr, next: Addr)
    | PopHelp(tries: nat, from: nat, head: Addr, seen: nat, tail: Addr, next: Addr)
    | PopKey(tries: nat, from: nat, head: Addr, seen: nat, next: Addr)
    | PopValue(tries: nat, from: nat, head: Addr, seen: nat, next: Addr, key: nat)
    | PopCas(tries: nat, from: nat, head: Addr, seen: nat, next: Addr, kv: Kv)
    | PopFree(head: Addr, kv: Kv)
    | PopCount(head: Addr, kv: Kv)
    | Popped(result: Result, kv: Kv, head: Addr)

  /** History variables: all nodes ever linked, in order, with their pair and the thread that
      linked or unlinked them; how far the tail got; who made a node; what was freed. */
  datatype Log = Log(
    chain: seq<Addr>,
    index: map<Addr, nat>,
    puts: seq<Kv>,
    linkers: seq<nat>,
    poppers: seq<nat>,
    last: nat,
    maker: map<Addr, nat>,
    freed: set<Addr>)

  datatype State = State(mem: Memory, threads: seq<Pc>, log: Log)

  datatype Event =
    | CallInsert(t: nat, kv: Kv)
    | CallPop(t: nat)
    | Grant(t: nat, node: Addr, junk: Node)  // the allocator answers; NULL when out of memory
    | Tick(t: nat)

  function Deref(m: Memory, a: Addr): Node {
    if a in m.nodes then m.nodes[a] else Node(NULL, Kv(0, 0))
  }

  function Store(m: Memory, a: Addr, n: Node): Memory { m.(nodes := m.nodes[a := n]) }

  function Goto(s: State, t: nat, pc: Pc): State
    requires t < |s.threads|
  {
    s.(threads := s.threads[t := pc])
  }

  function InsRetry(kv: Kv, node: Addr, tries: nat, from: nat): Pc {
    if tries + 1 < MAX_RETRIES then InsTail(kv, node, tries + 1, from) else InsFree(kv, node, from)
  }

  function PopRetry(tries: nat, from: nat): Pc {
    if tries + 1 < MAX_RETRIES then PopHead(tries + 1, from) else Popped(Invalid, Kv(0, 0), NULL)
  }

  /** A compare-and-swap on the tail pointer. */
  function SwingTail(s: State, expected: Addr, desired: Addr): State {
    if s.mem.tail == expected then s.(mem := s.mem.(tail := desired), log := s.log.(last := s.log.last + 1)) else s
  }

  /** One access of thread t inside insert. */
  function InsertStep(s: State, t: nat): (r: State)
    requires t < |s.threads|
    ensures |r.threads| == |s.threads|
  {
    var m := s.mem;
    match s.threads[t]
    case InsKey(kv, a) =>
      Goto(s, t, InsValue(kv, a)).(mem := Store(m, a, Deref(m, a).(data := Deref(m, a).data.(key := kv.key))))
    case InsValue(kv, a) =>
      Goto(s, t, InsNext(kv, a)).(mem := Store(m, a, Deref(m, a).(data := Deref(m, a).data.(value := kv.value))))
    case InsNext(kv, a) =>
      Goto(s, t, InsTail(kv, a, 0, |s.log.chain|)).(mem := Store(m, a, Deref(m, a).(next := NULL)))
    case InsTail(kv, a, tries, from) => Goto(s, t, InsPeek(kv, a, tries, from, m.tail, |s.log.chain|))
    case InsPeek(kv, a, tries, from, tail, seen) =>
      var next := Deref(m, tail).next;
      Goto(s, t, if next != NULL then InsHelp(kv, a, tries, from, tail, seen, next)
                 else InsLink(kv, a, tries, from, tail, seen))
    case InsHelp(kv, a, tries, from, tail, seen, next) =>
      Goto(SwingTail(s, tail, next), t, InsRetry(kv, a, tries, from))
    case InsLink(kv, a, tries, from, tail, seen) =>
      if Deref(m, tail).next != NULL then Goto(s, t, InsRetry(kv, a, tries, from)) else
        Goto(s, t, InsCount(kv, a, tail)).(
          mem := Store(m, tail, Deref(m, tail).(next := a)),
          log := s.log.(chain := s.log.chain + [a], index := s.log.index[a := |s.log.chain|],
                        puts := s.log.puts + [kv], linkers := s.log.linkers + [t]))
    case InsCount(kv, a, tail) =>
      Goto(s, t, InsSwing(kv, a, tail)).(mem := m.(count := Add64(m.count, 1)))
    case InsSwing(kv, a, tail) => Goto(SwingTail(s, tail, a), t, Inserted(Success, kv, a))
    case InsFree(kv, a, from) =>
      Goto(s, t, Inserted(Invalid, kv, a)).(log := s.log.(freed := s.log.freed + {a}))
    case _ => s
  }

  /** One access of thread t inside pop. */
  function PopStep(s: State, t: nat): (r: State)
    requires t < |s.threads|
    ensures |r.threads| == |s.threads|
  {
    var m := s.mem;
    match s.threads[t]
    case PopHead(tries, from) => Goto(s, t, PopTail(tries, from, m.head, s.log.last))
    case PopTail(tries, from, head, seen) =>
      Goto(s, t, if head == NULL || m.tail == NULL then Popped(Invalid, Kv(0, 0), NULL)
                 else PopNext(tries, from, head, seen, m.tail))
    case PopNext(tries, from, head, seen, tail) =>
      Goto(s, t, PopCheck(tries, from, head, seen, tail, Deref(m, head).next))
    case PopCheck(tries, from, head, seen, tail, next) =>
      Goto(s, t, if m.head != head then PopRetry(tries, from)
                 else if next == NULL then Popped(NotFound, Kv(0, 0), NULL)
                 else if head == tail then PopHelp(tries, from, head, seen, tail, next)
                 else PopKey(tries, from, head, seen, next))
    case PopHelp(tries, from, head, seen, tail, next) =>
      Goto(SwingTail(s, tail, next), t, PopRetry(tries, from))
    case PopKey(tries, from, head, seen, next) =>
      Goto(s, t, PopValue(tries, from, head, seen, next, Deref(m, next).data.key))
    case PopValue(tries, from, head, seen, next, key) =>
      Goto(s, t, PopCas(tries, from, head, seen, next, Kv(key, Deref(m, next).data.value)))
    case PopCas(tries, from, head, seen, next, kv) =>
      if m.head != head then Goto(s, t, PopRetry(tries, from)) else
        Goto(s, t, PopFree(head, kv)).(
          mem := m.(head := next), log := s.log.(poppers := s.log.poppers + [t]))
    case PopFree(head, kv) =>
      Goto(s, t, PopCount(head, kv)).(log := s.log.(freed := s.log.freed + {head}))
    case PopCount(head, kv) =>
      Goto(s, t, Popped(Success, kv, head)).(mem := m.(count := Sub64(m.count, 1)))
    case _ => s
  }

  predicate Resting(pc: Pc) { pc.Idle? || pc.Inserted? || pc.Popped? }

  predicate Popping(pc: Pc) {
    pc.PopHead? || pc.PopTail? || pc.PopNext? || pc.PopCheck? || pc.PopHelp? || pc.PopKey? ||
    pc.PopValue? || pc.PopCas? || pc.PopFree? || pc.PopCount?
  }

  /** The effect of one event; an event that is not enabled changes nothing. The allocator never
      grants an address it has granted before. */
  function Apply(s: State, e: Event): (r: State)
    ensures |r.threads| == |s.threads|
  {
    if e.t >= |s.threads| then s else
      match e
      case CallInsert(t, kv) => if Resting(s.threads[t]) then Goto(s, t, InsAlloc(kv)) else s
      case CallPop(t) =>
        if Resting(s.threads[t]) then Goto(s, t, PopHead(0, |s.log.poppers| + s.log.last)) else s
      case Grant(t, a, junk) =>
        if !s.threads[t].InsAlloc? then s
        else if a == NULL then Goto(s, t, Inserted(NoMem, s.threads[t].kv, NULL))
        else if a in s.mem.nodes then s
        else Goto(s, t, InsKey(s.threads[t].kv, a)).(
          mem := Store(s.mem, a, junk), log := s.log.(maker := s.log.maker[a := t]))
      case Tick(t) => if Popping(s.threads[t]) then PopStep(s, t) else InsertStep(s, t)
  }

  function Run(s: State, es: seq<Event>): (r: State)
    ensures |r.threads| == |s.threads|
  {
    if es == [] then s else Apply(Run(s, es[..|es| - 1]), es[|es| - 1])
  }

  /** The abstract operation an event completes: the link CAS puts the new node's pair, the head CAS
      takes the pair copied before it, and the load of head->next that sees NULL finds no pair. */
  function Effect(s: State, e: Event): Option<Fifo.Op> {
    if !e.Tick? || e.t >= |s.threads| then None else
      match s.threads[e.t]
      case InsLink(kv, _, _, _, tail, _) => if Deref(s.mem, tail).next == NULL then Some(Fifo.Put(kv)) else None
      case PopCas(_, _, head, _, _, kv) => if s.mem.head == head then Some(Fifo.Take(kv)) else None
      case PopNext(_, _, head, _, _) => if Deref(s.mem, head).next == NULL then Some(Fifo.Miss) else None
      case _ => None
  }

  function Trace(s: State, es: seq<Event>): seq<Fifo.Op> {
    if es == [] then [] else
      var before := es[..|es| - 1];
      Fifo.Append(Trace(s, before), Effect(Run(s, before), es[|es| - 1]))
  }

  /** The state ds_msqueue_init leaves behind: one dummy node. */
  predicate Initial(s: State) {
    var dummy := s.mem.head;
    && dummy != NULL
    && s.mem == Memory(dummy, dummy, 0, map[dummy := Node(NULL, Kv(420, 69))])
    && s.log == Log([dummy], map[dummy := 0], [Kv(420, 69)], [0], [], 0, map[], {})
    && (forall t :: 0 <= t < |s.threads| ==> s.threads[t] == Idle)
  }
}
