// The Treiber stack (include/ds_ck_stack_upmc.h) as a machine whose every step is one atomic access
// of one thread. A thread may push an entry it allocated, and no entry is pushed successfully twice.

module CkStack {
  import opened Base
  import Lifo

  type Addr = nat
  const NULL: Addr := 0

  datatype Entry = Entry(next: Addr, data: Kv)

  datatype Memory = Memory(head: Addr, count: nat, entries: map<Addr, Entry>)

  /** Where a thread stands. `once` marks trypush and trypop, which give up when a CAS fails; they
      answer false, and Busy stands for that answer. */
  datatype Pc =
    | Idle
    | PushKey(entry: Addr, kv: Kv, once: bool)
    | PushValue(entry: Addr, kv: Kv, once: bool)
    | PushLoad(entry: Addr, kv: Kv, once: bool)
    | PushNext(entry: Addr, kv: Kv, once: bool, head: Addr)
    | PushCas(entry: Addr, kv: Kv, once: bool, head: Addr)
    | PushCount(entry: Addr, kv: Kv)
    | Pushed(result: Result, entry: Addr, kv: Kv)
    | PopLoad(once: bool)
    | PopNext(once: bool, head: Addr)
    | PopCas(once: bool, head: Addr, next: Addr)
    | PopCount(head: Addr)
    | PopKey(head: Addr)
    | PopValue(head: Addr, key: nat)
    | Popped(result: Result, head: Addr, kv: Kv)

  /** History variables: the stacked entries and their pairs, top first; who allocated an entry; the
      pair an entry was pushed with and its height in the stack; who popped it. */
  datatype Log = Log(
    stack: seq<Addr>,
    pairs: seq<Kv>,
    owner: map<Addr, nat>,
    pairOf: map<Addr, Kv>,
    height: map<Addr, nat>,
    takenBy: map<Addr, nat>)

  datatype State = State(mem: Memory, threads: seq<Pc>, log: Log)

  datatype Event =
    | Grant(t: nat, entry: Addr, junk: Entry)  // the allocator hands a new entry to thread t
    | CallPush(t: nat, entry: Addr, kv: Kv, once: bool)
    | CallPop(t: nat, once: bool)
    | Tick(t: nat)

  function Deref(m: Memory, a: Addr): Entry {
    if a in m.entries then m.entries[a] else Entry(NULL, Kv(0, 0))
  }

  function Store(m: Memory, a: Addr, e: Entry): Memory { m.(entries := m.entries[a := e]) }

  function Goto(s: State, t: nat, pc: Pc): State
    requires t < |s.threads|
  {
    s.(threads := s.threads[t := pc])
  }

  /** One access of thread t inside push or trypush. */
  function PushStep(s: State, t: nat): (r: State)
    requires t < |s.threads|
    ensures |r.threads| == |s.threads|
  {
    var m, g := s.mem, s.log;
    match s.threads[t]
    case PushKey(a, kv, once) =>
      Goto(s, t, PushValue(a, kv, once)).(mem := Store(m, a, Deref(m, a).(data := Deref(m, a).data.(key := kv.key))))
    case PushValue(a, kv, once) =>
      Goto(s, t, PushLoad(a, kv, once)).(mem := Store(m, a, Deref(m, a).(data := Deref(m, a).data.(value := kv.value))))
    case PushLoad(a, kv, once) => Goto(s, t, PushNext(a, kv, once, m.head))
    case PushNext(a, kv, once, head) =>
      Goto(s, t, PushCas(a, kv, once, head)).(mem := Store(m, a, Deref(m, a).(next := head)))
    case PushCas(a, kv, once, head) =>
      if m.head != head then Goto(s, t, if once then Pushed(Busy, a, kv) else PushNext(a, kv, once, m.head)) else
        Goto(s, t, PushCount(a, kv)).(
          mem := m.(head := a),
          log := g.(stack := [a] + g.stack, pairs := [kv] + g.pairs,
                    pairOf := g.pairOf[a := kv], height := g.height[a := |g.stack|]))
    case PushCount(a, kv) => Goto(s, t, Pushed(Success, a, kv)).(mem := m.(count := Add64(m.count, 1)))
    case _ => s
  }

  /** One access of thread t inside pop or trypop. */
  function PopStep(s: State, t: nat): (r: State)
    requires t < |s.threads|
    ensures |r.threads| == |s.threads|
  {
    var m, g := s.mem, s.log;
    match s.threads[t]
    case PopLoad(once) =>
      Goto(s, t, if m.head == NULL then Popped(NotFound, NULL, Kv(0, 0)) else PopNext(once, m.head))
    case PopNext(once, head) => Goto(s, t, PopCas(once, head, Deref(m, head).next))
    case PopCas(once, head, next) =>
      if m.head != head then
        Goto(s, t, if once then Popped(Busy, NULL, Kv(0, 0))
                   else if m.head == NULL then Popped(NotFound, NULL, Kv(0, 0))
                   else PopNext(once, m.head))
      else
        Goto(s, t, PopCount(head)).(
          mem := m.(head := next),
          log := g.(stack := if g.stack == [] then [] else g.stack[1..],
                    pairs := if g.pairs == [] then [] else g.pairs[1..],
                    takenBy := g.takenBy[head := t]))
    case PopCount(head) => Goto(s, t, PopKey(head)).(mem := m.(count := Sub64(m.count, 1)))
    case PopKey(head) => Goto(s, t, PopValue(head, Deref(m, head).data.key))
    case PopValue(head, key) => Goto(s, t, Popped(Success, head, Kv(key, Deref(m, head).data.value)))
    case _ => s
  }

  /** Where a thread may make a call. At PopKey it holds an entry it has unlinked: trypop ends there, and
      whether the pair is read is up to its caller. */
  predicate Resting(pc: Pc) { pc.Idle? || pc.Pushed? || pc.Popped? || pc.PopKey? }

  predicate Popping(pc: Pc) {
    pc.PopLoad? || pc.PopNext? || pc.PopCas? || pc.PopCount? || pc.PopKey? || pc.PopValue?
  }

  /** Whether thread t may push entry a: it allocated a, and a was never pushed. */
  predicate MayPush(g: Log, t: nat, a: Addr) {
    a in g.owner && g.owner[a] == t && a !in g.pairOf
  }

  /** The effect of one event; an event that is not enabled changes nothing. */
  function Apply(s: State, e: Event): (r: State)
    ensures |r.threads| == |s.threads|
  {
    if e.t >= |s.threads| then s else
      match e
      case Grant(t, a, junk) =>
        if !Resting(s.threads[t]) || a == NULL || a in s.mem.entries then s else
          s.(mem := Store(s.mem, a, junk), log := s.log.(owner := s.log.owner[a := t]))
      case CallPush(t, a, kv, once) =>
        if Resting(s.threads[t]) && MayPush(s.log, t, a) then Goto(s, t, PushKey(a, kv, once)) else s
      case CallPop(t, once) => if Resting(s.threads[t]) then Goto(s, t, PopLoad(once)) else s
      case Tick(t) => if Popping(s.threads[t]) then PopStep(s, t) else PushStep(s, t)
  }

  function Run(s: State, es: seq<Event>): (r: State)
    ensures |r.threads| == |s.threads|
  {
    if es == [] then s else Apply(Run(s, es[..|es| - 1]), es[|es| - 1])
  }

  /** The abstract operation an event completes: a CAS that succeeds pushes or pops, and the load or
      the failed CAS that makes a pop return NULL finds no entry. */
  function Effect(s: State, e: Event): Option<Lifo.Op> {
    if !e.Tick? || e.t >= |s.threads| then None else
      match s.threads[e.t]
      case PushCas(_, kv, _, head) => if s.mem.head == head then Some(Lifo.Push(kv)) else None
      case PopCas(once, head, _) =>
        if s.mem.head == head then Some(Lifo.Pop(Deref(s.mem, head).data))
        else if !once && s.mem.head == NULL then Some(Lifo.Miss)
        else None
      case PopLoad(_) => if s.mem.head == NULL then Some(Lifo.Miss) else None
      case _ => None
  }

  function Trace(s: State, es: seq<Event>): seq<Lifo.Op> {
    if es == [] then [] else
      var before := es[..|es| - 1];
      Lifo.Append(Trace(s, before), Effect(Run(s, before), es[|es| - 1]))
  }

  /** The state ds_ck_stack_upmc_init leaves behind. */
  predicate Initial(s: State) {
    && s.mem == Memory(NULL, 0, map[])
    && s.log == Log([], [], map[], map[], map[], map[])
    && (forall t :: 0 <= t < |s.threads| ==> s.threads[t] == Idle)
  }
}
