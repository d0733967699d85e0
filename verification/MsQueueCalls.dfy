// The code of ds_msqueue_init, ds_msqueue_insert, __msqueue_add_node and ds_msqueue_pop on real fields,
// with other threads running between any two accesses of a call.

module MsQueueCalls {
  import opened Base
  import opened Calls
  import opened MsQueue
  import opened MsQueueProof
  import Fifo

  /** Nodes linked, and how far head and tail have advanced together. */
  function Advanced(g: Log): nat { |g.poppers| + g.last }

  lemma InsertGrows(s: State, t: nat)
    requires t < |s.threads| && !Popping(s.threads[t])
    ensures var r := InsertStep(s, t).log; |s.log.chain| <= |r.chain| && Advanced(s.log) <= Advanced(r)
    ensures forall u :: 0 <= u < |s.threads| && u != t ==> InsertStep(s, t).threads[u] == s.threads[u]
  {
  }

  lemma PopGrows(s: State, t: nat)
    requires t < |s.threads| && Popping(s.threads[t])
    ensures var r := PopStep(s, t).log; |s.log.chain| <= |r.chain| && Advanced(s.log) <= Advanced(r)
    ensures forall u :: 0 <= u < |s.threads| && u != t ==> PopStep(s, t).threads[u] == s.threads[u]
  {
  }

  lemma OtherStep(s: State, t: nat, e: Event)
    requires t < |s.threads| && e.t != t
    ensures var r := Apply(s, e);
            && r.threads[t] == s.threads[t]
            && |s.log.chain| <= |r.log.chain| && Advanced(s.log) <= Advanced(r.log)
  {
    if e.Tick? && e.t < |s.threads| {
      if Popping(s.threads[e.t]) {
        PopGrows(s, e.t);
      } else {
        InsertGrows(s, e.t);
      }
    }
  }

  /** The link CAS, when it succeeds. */
  lemma LinkStep(s: State, t: nat)
    requires t < |s.threads| && s.threads[t].InsLink? && Deref(s.mem, s.threads[t].tail).next == NULL
    ensures var InsLink(kv, node, tries, from, last, seen) := s.threads[t];
            && Apply(s, Tick(t)) == State(
                 Store(s.mem, last, Deref(s.mem, last).(next := node)),
                 s.threads[t := InsCount(kv, node, last)],
                 s.log.(chain := s.log.chain + [node], index := s.log.index[node := |s.log.chain|],
                        puts := s.log.puts + [kv], linkers := s.log.linkers + [t]))
            && Effect(s, Tick(t)) == Some(Fifo.Put(kv))
  {
  }

  lemma LinkFails(s: State, t: nat)
    requires t < |s.threads| && s.threads[t].InsLink? && Deref(s.mem, s.threads[t].tail).next != NULL
    ensures var InsLink(kv, node, tries, from, last, seen) := s.threads[t];
            Apply(s, Tick(t)) == Goto(s, t, InsRetry(kv, node, tries, from)) && Effect(s, Tick(t)) == None
  {
  }

  lemma CountStep(s: State, t: nat)
    requires t < |s.threads| && s.threads[t].InsCount?
    ensures var InsCount(kv, node, last) := s.threads[t];
            && Apply(s, Tick(t)) == Goto(s, t, InsSwing(kv, node, last)).(mem := s.mem.(count := Add64(s.mem.count, 1)))
            && Effect(s, Tick(t)) == None
  {
  }

  lemma FreeStep(s: State, t: nat)
    requires t < |s.threads| && s.threads[t].InsFree?
    ensures var InsFree(kv, node, from) := s.threads[t];
            && Apply(s, Tick(t)) ==
               Goto(s, t, Inserted(Invalid, kv, node)).(log := s.log.(freed := s.log.freed + {node}))
            && Effect(s, Tick(t)) == None
  {
  }

  lemma SwingStep(s: State, t: nat)
    requires t < |s.threads| && s.threads[t].InsSwing?
    ensures var InsSwing(kv, node, last) := s.threads[t];
            && Apply(s, Tick(t)) == Goto(SwingTail(s, last, node), t, Inserted(Success, kv, node))
            && Effect(s, Tick(t)) == None
  {
  }

  /** The CAS on the tail that helps. */
  lemma HelpStep(s: State, t: nat)
    requires t < |s.threads| && s.threads[t].InsHelp?
    ensures var InsHelp(kv, node, tries, from, last, seen, next) := s.threads[t];
            && Apply(s, Tick(t)) == Goto(SwingTail(s, last, next), t, InsRetry(kv, node, tries, from))
            && Effect(s, Tick(t)) == None
  {
  }

  /** Event e is a step of thread t that finds the queue empty. */
  predicate Misses(s: State, e: Event, t: nat) { e.t == t && Effect(s, e) == Some(Fifo.Miss) }

  class Queue {
    var head: Addr
    var tail: Addr
    var count: nat
    var nodes: map<Addr, Node>

    // The rest of the system: where each thread stands, and the history.
    var threads: seq<Pc>
    var log: Log

    // How often each thread has found the queue empty.
    ghost var saw: seq<nat>

    function Mem(): Memory
      reads this
    {
      Memory(head, tail, count, nodes)
    }

    function Now(): State
      reads this
    {
      State(Mem(), threads, log)
    }

    ghost predicate Valid()
      reads this
    {
      Inv(Now()) && First(log) < |log.puts| && |saw| == |threads|
    }

    /** The pairs in the queue, oldest first. */
    ghost function Pairs(): seq<Kv>
      reads this
      requires Valid()
    {
      Contents(Now())
    }

    /** Thread t stands at pc. */
    twostate predicate Moved(t: nat, pc: Pc)
      reads this
    {
      && Valid() && |threads| == old(|threads|) && t < |threads| && threads[t] == pc
      && t < old(|saw|) && old(saw)[t] <= saw[t]
      && old(|log.chain|) <= |log.chain| && old(Advanced(log)) <= Advanced(log)
    }

    /** Nothing happened to the queue. */
    twostate predicate Alone()
      reads this
    {
      head == old(head) && tail == old(tail) && count == old(count) && log == old(log)
    }

    /** No pair came or went. */
    twostate predicate Steady()
      reads this
    {
      count == old(count) && log.puts == old(log.puts) && log.poppers == old(log.poppers)
    }

    /** kv was appended; the rest of the history of puts and pops is the same. */
    twostate predicate Gained(kv: Kv)
      reads this
    {
      log.puts == old(log.puts) + [kv] && log.poppers == old(log.poppers)
    }

    /** The front pair, kv, was removed. */
    twostate predicate Lost(kv: Kv)
      reads this
    {
      && log.puts == old(log.puts) && |log.poppers| == old(|log.poppers|) + 1
      && |log.poppers| < |log.puts| && kv == log.puts[|log.poppers|]
    }

    /** ds_msqueue_init: `dummy` is what the allocator hands out, if anything. */
    static method Init(dummy: Addr, n: nat) returns (r: Result, q: Queue?)
      ensures r == if dummy == NULL then NoMem else Success
      ensures r == Success <==> q != null
      ensures q != null ==> fresh(q) && Initial(q.Now()) && q.Valid() && q.Pairs() == [] && |q.threads| == n
    {
      if dummy == NULL {
        return NoMem, null;
      }
      q := new Queue.Fresh(dummy, n);
      r := Success;
    }

    constructor Fresh(dummy: Addr, n: nat)
      requires dummy != NULL
      ensures Initial(Now()) && Valid() && Pairs() == [] && |threads| == n
    {
      head, tail, count := dummy, dummy, 0;
      nodes := map[dummy := Node(NULL, Kv(420, 69))];
      threads := seq(n, _ => Idle);
      log := Log([dummy], map[dummy := 0], [Kv(420, 69)], [0], [], 0, map[], {});
      saw := seq(n, _ => 0);
      new;
      InitialInv(Now());
    }

    /** The code just did what event e does. A step that finds the queue empty is counted, and only such a
        step: when it happens, there are no pairs. */
    ghost method Record(was: State, e: Event)
      requires Inv(was) && |saw| == |was.threads| && Now() == Apply(was, e)
      modifies this`saw
      ensures Valid() && |saw| == old(|saw|)
      ensures forall t :: 0 <= t < |saw| ==> saw[t] == old(saw)[t] + if Misses(was, e, t) then 1 else 0
    {
      StepRefines(was, e);
      if Effect(was, e) == Some(Fifo.Miss) {
        assert Contents(was) == [];
        saw := saw[e.t := saw[e.t] + 1];
      }
    }

    method Others(t: nat, es: seq<Event>)
      requires Valid() && t < |threads|
      modifies this
      ensures Moved(t, old(threads[t]))
      ensures es == [] ==> Now() == old(Now())
    {
      var i := 0;
      while i < |es|
        invariant 0 <= i <= |es| && Moved(t, old(threads[t]))
        invariant i == 0 ==> Now() == old(Now())
      {
        if es[i].t != t {
          Other(t, es[i]);
        }
        i := i + 1;
      }
    }

    method Other(t: nat, e: Event)
      requires Valid() && t < |threads| && e.t != t
      modifies this
      ensures Moved(t, old(threads[t]))
    {
      ghost var s := Now();
      OtherStep(s, t, e);
      var next := Apply(Now(), e);
      head, tail, count, nodes := next.mem.head, next.mem.tail, next.mem.count, next.mem.nodes;
      threads, log := next.threads, next.log;
      assert Now() == next;
      Record(s, e);
    }

    // ---- The accesses of insert ----

    /** The call, and the allocator's answer, which is a new address or NULL. */
    method Obtain(t: nat, kv: Kv, granted: Addr, junk: Node)
      requires Valid() && t < |threads| && Resting(threads[t]) && granted !in nodes
      modifies this
      ensures Moved(t, if granted == NULL then Inserted(NoMem, kv, NULL) else InsKey(kv, granted))
      ensures head == old(head) && tail == old(tail) && count == old(count) && log == old(log).(maker := log.maker)
    {
      ghost var s := Now();
      threads := Apply(Now(), CallInsert(t, kv)).threads;
      Record(s, CallInsert(t, kv));
      s := Now();
      var next := Apply(Now(), Grant(t, granted, junk));
      threads, log := next.threads, next.log;
      if granted != NULL {
        nodes := nodes[granted := junk];
      }
      assert Now() == next;
      Record(s, Grant(t, granted, junk));
    }

    method StoreKey(t: nat, kv: Kv, node: Addr, others: seq<Event>)
      requires Valid() && t < |threads| && threads[t] == InsKey(kv, node)
      modifies this
      ensures Moved(t, InsValue(kv, node))
      ensures others == [] ==> Alone()
    {
      Others(t, others);
      ghost var s := Now();
      assert ThreadOk(s.mem, s.log, t, s.threads[t]);
      threads := Apply(Now(), Tick(t)).threads;
      nodes := nodes[node := nodes[node].(data := nodes[node].data.(key := kv.key))];
      Record(s, Tick(t));
    }

    method StoreValue(t: nat, kv: Kv, node: Addr, others: seq<Event>)
      requires Valid() && t < |threads| && threads[t] == InsValue(kv, node)
      modifies this
      ensures Moved(t, InsNext(kv, node))
      ensures others == [] ==> Alone()
    {
      Others(t, others);
      ghost var s := Now();
      assert ThreadOk(s.mem, s.log, t, s.threads[t]);
      threads := Apply(Now(), Tick(t)).threads;
      nodes := nodes[node := nodes[node].(data := nodes[node].data.(value := kv.value))];
      Record(s, Tick(t));
    }

    method StoreNull(t: nat, kv: Kv, node: Addr, others: seq<Event>) returns (ghost from: nat)
      requires Valid() && t < |threads| && threads[t] == InsNext(kv, node)
      modifies this
      ensures Moved(t, InsTail(kv, node, 0, from)) && old(|log.chain|) <= from
      ensures others == [] ==> Alone()
    {
      Others(t, others);
      ghost var s := Now();
      assert ThreadOk(s.mem, s.log, t, s.threads[t]);
      from := |log.chain|;
      threads := Apply(Now(), Tick(t)).threads;
      nodes := nodes[node := nodes[node].(next := NULL)];
      Record(s, Tick(t));
    }

    method LoadTail(t: nat, kv: Kv, node: Addr, tries: nat, ghost from: nat, others: seq<Event>)
      returns (last: Addr, ghost seen: nat)
      requires Valid() && t < |threads| && threads[t] == InsTail(kv, node, tries, from)
      modifies this
      ensures Moved(t, InsPeek(kv, node, tries, from, last, seen))
      ensures others == [] ==> Alone() && last == tail
    {
      Others(t, others);
      ghost var s := Now();
      last, seen := tail, |log.chain|;
      threads := Apply(Now(), Tick(t)).threads;
      Record(s, Tick(t));
    }

    method Peek(t: nat, kv: Kv, node: Addr, tries: nat, ghost from: nat, last: Addr, ghost seen: nat,
                others: seq<Event>)
      returns (next: Addr)
      requires Valid() && t < |threads| && threads[t] == InsPeek(kv, node, tries, from, last, seen)
      modifies this
      ensures Moved(t, if next != NULL then InsHelp(kv, node, tries, from, last, seen, next)
                       else InsLink(kv, node, tries, from, last, seen))
      ensures others == [] ==> Alone() && next == Deref(Mem(), last).next
    {
      Others(t, others);
      ghost var s := Now();
      next := Deref(Mem(), last).next;
      threads := Apply(Now(), Tick(t)).threads;
      Record(s, Tick(t));
    }

    /** Helps a lagging tail on. */
    method Help(t: nat, kv: Kv, node: Addr, tries: nat, ghost from: nat, last: Addr, ghost seen: nat, next: Addr,
                others: seq<Event>)
      requires Valid() && t < |threads| && threads[t] == InsHelp(kv, node, tries, from, last, seen, next)
      modifies this
      ensures Moved(t, InsRetry(kv, node, tries, from))
      ensures others == [] ==> Steady() && |log.chain| == old(|log.chain|)
      ensures others == [] && last == old(tail) ==> log.last == old(log.last) + 1
    {
      Others(t, others);
      ghost var s := Now();
      HelpStep(s, t);
      var after := Apply(Now(), Tick(t));
      threads, log := after.threads, after.log;
      if tail == last {
        tail := next;
      }
      assert Now() == after;
      Record(s, Tick(t));
    }

    method Link(t: nat, kv: Kv, node: Addr, tries: nat, ghost from: nat, last: Addr, ghost seen: nat,
                others: seq<Event>)
      returns (linked: bool)
      requires Valid() && t < |threads| && threads[t] == InsLink(kv, node, tries, from, last, seen)
      modifies this
      ensures Moved(t, if linked then InsCount(kv, node, last) else InsRetry(kv, node, tries, from))
      ensures others == [] ==> linked == (old(Deref(Mem(), last)).next == NULL) && (!linked ==> Alone())
      ensures others == [] && linked ==> Gained(kv) && count == old(count)
    {
      Others(t, others);
      ghost var s := Now();
      linked := Deref(Mem(), last).next == NULL;
      var after := Apply(Now(), Tick(t));
      if linked {
        LinkStep(s, t);
        nodes := nodes[last := Deref(Mem(), last).(next := node)];
      } else {
        LinkFails(s, t);
      }
      threads, log := after.threads, after.log;
      assert Now() == after;
      Record(s, Tick(t));
    }

    method CountUp(t: nat, kv: Kv, node: Addr, last: Addr, others: seq<Event>)
      requires Valid() && t < |threads| && threads[t] == InsCount(kv, node, last)
      modifies this
      ensures Moved(t, InsSwing(kv, node, last))
      ensures others == [] ==> head == old(head) && count == Add64(old(count), 1) && log == old(log)
    {
      Others(t, others);
      ghost var s := Now();
      CountStep(s, t);
      threads := Apply(Now(), Tick(t)).threads;
      count := Add64(count, 1);
      Record(s, Tick(t));
    }

    method Swing(t: nat, kv: Kv, node: Addr, last: Addr, others: seq<Event>)
      requires Valid() && t < |threads| && threads[t] == InsSwing(kv, node, last)
      modifies this
      ensures Moved(t, Inserted(Success, kv, node))
      ensures others == [] ==> Steady()
    {
      Others(t, others);
      ghost var s := Now();
      SwingStep(s, t);
      var after := Apply(Now(), Tick(t));
      threads, log := after.threads, after.log;
      if tail == last {
        tail := node;
      }
      assert Now() == after;
      Record(s, Tick(t));
    }

    method FreeNode(t: nat, kv: Kv, node: Addr, ghost from: nat, others: seq<Event>)
      requires Valid() && t < |threads| && threads[t] == InsFree(kv, node, from)
      modifies this
      ensures Moved(t, Inserted(Invalid, kv, node)) && from + 5 <= |log.chain|
    {
      Others(t, others);
      ghost var s := Now();
      GivingUpMeansOvertaken(s, t);
      FreeStep(s, t);
      threads, log := Apply(Now(), Tick(t)).threads, Apply(Now(), Tick(t)).log;
      Record(s, Tick(t));
    }

    // ---- The accesses of pop ----

    method LoadHead(t: nat, tries: nat, ghost from: nat, others: seq<Event>) returns (h: Addr, ghost seen: nat)
      requires Valid() && t < |threads| && threads[t] == PopHead(tries, from)
      modifies this
      ensures Moved(t, PopTail(tries, from, h, seen))
      ensures others == [] ==> Alone() && h == head
    {
      Others(t, others);
      ghost var s := Now();
      h, seen := head, log.last;
      threads := Apply(Now(), Tick(t)).threads;
      Record(s, Tick(t));
    }

    /** The source's test for NULL never fires. */
    method LoadTailToo(t: nat, tries: nat, ghost from: nat, h: Addr, ghost seen: nat, others: seq<Event>)
      returns (last: Addr)
      requires Valid() && t < |threads| && threads[t] == PopTail(tries, from, h, seen)
      modifies this
      ensures Moved(t, PopNext(tries, from, h, seen, last)) && h != NULL && last != NULL
      ensures others == [] ==> Alone() && last == tail
    {
      Others(t, others);
      ghost var s := Now();
      Ends(s);
      LoadedHead(s, t);
      last := tail;
      threads := Apply(Now(), Tick(t)).threads;
      Record(s, Tick(t));
    }

    method LoadNext(t: nat, tries: nat, ghost from: nat, h: Addr, ghost seen: nat, last: Addr, others: seq<Event>)
      returns (next: Addr)
      requires Valid() && t < |threads| && threads[t] == PopNext(tries, from, h, seen, last)
      modifies this
      ensures Moved(t, PopCheck(tries, from, h, seen, last, next))
      ensures next == NULL ==> old(saw)[t] < saw[t]
      ensures others == [] ==> Alone() && (next == NULL <==> Deref(Mem(), h).next == NULL)
    {
      Others(t, others);
      ghost var s := Now();
      next := Deref(Mem(), h).next;
      threads := Apply(Now(), Tick(t)).threads;
      Record(s, Tick(t));
    }

    method CheckHead(t: nat, tries: nat, ghost from: nat, h: Addr, ghost seen: nat, last: Addr, next: Addr,
                     others: seq<Event>)
      returns (same: bool)
      requires Valid() && t < |threads| && threads[t] == PopCheck(tries, from, h, seen, last, next)
      modifies this
      ensures Moved(t, if !same then PopRetry(tries, from)
                       else if next == NULL then Popped(NotFound, Kv(0, 0), NULL)
                       else if h == last then PopHelp(tries, from, h, seen, last, next)
                       else PopKey(tries, from, h, seen, next))
      ensures !same ==> from + tries + 1 <= Advanced(log)
      ensures others == [] ==> Alone() && same == (head == h)
    {
      Others(t, others);
      ghost var s := Now();
      same := head == h;
      MovedHeadPays(s, t);
      threads := Apply(Now(), Tick(t)).threads;
      Record(s, Tick(t));
    }

    /** Helps a lagging tail on. */
    method HelpPop(t: nat, tries: nat, ghost from: nat, h: Addr, ghost seen: nat, last: Addr, next: Addr,
                   others: seq<Event>)
      requires Valid() && t < |threads| && threads[t] == PopHelp(tries, from, h, seen, last, next)
      modifies this
      ensures Moved(t, PopRetry(tries, from)) && from + tries + 1 <= Advanced(log)
      ensures others == [] ==> Steady() && |log.chain| == old(|log.chain|)
      ensures others == [] && last == old(tail) ==> log.last == old(log.last) + 1
    {
      Others(t, others);
      ghost var s := Now();
      HelpPays(s, t);
      var after := Apply(Now(), Tick(t));
      threads, log := after.threads, after.log;
      if tail == last {
        tail := next;
      }
      assert Now() == after;
      Record(s, Tick(t));
    }

    method LoadKey(t: nat, tries: nat, ghost from: nat, h: Addr, ghost seen: nat, next: Addr, others: seq<Event>)
      returns (key: nat)
      requires Valid() && t < |threads| && threads[t] == PopKey(tries, from, h, seen, next)
      modifies this
      ensures Moved(t, PopValue(tries, from, h, seen, next, key))
      ensures others == [] ==> Alone()
    {
      Others(t, others);
      ghost var s := Now();
      key := Deref(Mem(), next).data.key;
      threads := Apply(Now(), Tick(t)).threads;
      Record(s, Tick(t));
    }

    method LoadValue(t: nat, tries: nat, ghost from: nat, h: Addr, ghost seen: nat, next: Addr, key: nat,
                     others: seq<Event>)
      returns (value: nat)
      requires Valid() && t < |threads| && threads[t] == PopValue(tries, from, h, seen, next, key)
      modifies this
      ensures Moved(t, PopCas(tries, from, h, seen, next, Kv(key, value)))
      ensures others == [] ==> Alone()
    {
      Others(t, others);
      ghost var s := Now();
      value := Deref(Mem(), next).data.value;
      threads := Apply(Now(), Tick(t)).threads;
      Record(s, Tick(t));
    }

    method CasHead(t: nat, tries: nat, ghost from: nat, h: Addr, ghost seen: nat, next: Addr, kv: Kv,
                   others: seq<Event>)
      returns (won: bool)
      requires Valid() && t < |threads| && threads[t] == PopCas(tries, from, h, seen, next, kv)
      modifies this
      ensures Moved(t, if won then PopFree(h, kv) else PopRetry(tries, from))
      ensures !won ==> from + tries + 1 <= Advanced(log)
      ensures others == [] ==> won == (old(head) == h) && count == old(count)
      ensures others == [] && won ==> Lost(kv)
    {
      Others(t, others);
      ghost var s := Now();
      var after := Apply(Now(), Tick(t));
      won := head == h;
      if won {
        TakeStep(s, t);
        TakesFront(s, t);
        head := next;
      } else {
        TakeFails(s, t);
        MovedHeadPays(s, t);
      }
      threads, log := after.threads, after.log;
      assert Now() == after;
      Record(s, Tick(t));
    }

    method FreeHead(t: nat, h: Addr, kv: Kv, others: seq<Event>)
      requires Valid() && t < |threads| && threads[t] == PopFree(h, kv)
      modifies this
      ensures Moved(t, PopCount(h, kv))
      ensures others == [] ==> count == old(count) && log == old(log).(freed := log.freed)
    {
      Others(t, others);
      ghost var s := Now();
      threads, log := Apply(Now(), Tick(t)).threads, Apply(Now(), Tick(t)).log;
      Record(s, Tick(t));
    }

    method CountDown(t: nat, h: Addr, kv: Kv, others: seq<Event>)
      requires Valid() && t < |threads| && threads[t] == PopCount(h, kv)
      modifies this
      ensures Moved(t, Popped(Success, kv, h))
      ensures others == [] ==> count == Sub64(old(count), 1) && log == old(log)
    {
      Others(t, others);
      ghost var s := Now();
      threads := Apply(Now(), Tick(t)).threads;
      count := Sub64(count, 1);
      Record(s, Tick(t));
    }

    // ---- Insert ----

    method Prepare(t: nat, kv: Kv, node: Addr, env: Interference<Event>) returns (ghost from: nat)
      requires Valid() && t < |threads| && threads[t] == InsKey(kv, node)
      modifies this
      ensures Moved(t, InsTail(kv, node, 0, from)) && old(|log.chain|) <= from
      ensures env == [] ==> Alone()
    {
      StoreKey(t, kv, node, At(env, 0));
      StoreValue(t, kv, node, At(env, 1));
      from := StoreNull(t, kv, node, At(env, 2));
    }

    method Look(t: nat, kv: Kv, node: Addr, tries: nat, ghost from: nat, env: Interference<Event>, k: nat)
      returns (last: Addr, next: Addr, ghost seen: nat)
      requires Valid() && t < |threads| && threads[t] == InsTail(kv, node, tries, from)
      modifies this
      ensures Moved(t, if next != NULL then InsHelp(kv, node, tries, from, last, seen, next)
                       else InsLink(kv, node, tries, from, last, seen))
      ensures env == [] ==> Alone() && last == tail && next == Deref(Mem(), last).next
    {
      last, seen := LoadTail(t, kv, node, tries, from, At(env, k));
      next := Peek(t, kv, node, tries, from, last, seen, At(env, k + 1));
    }

    /** One round of the loop: links the node behind the tail, or helps a lagging tail on, or loses a
        race. Alone, it links if the tail is the last node and makes it the last node otherwise. */
    method Round(t: nat, kv: Kv, node: Addr, tries: nat, ghost from: nat, env: Interference<Event>, k: nat)
      returns (linked: bool, last: Addr)
      requires Valid() && t < |threads| && threads[t] == InsTail(kv, node, tries, from)
      modifies this
      ensures Moved(t, if linked then InsCount(kv, node, last) else InsRetry(kv, node, tries, from))
      ensures env == [] && !linked ==> Steady() && old(TailLags(log)) && !TailLags(log)
      ensures env == [] && linked ==> Gained(kv) && count == old(count)
    {
      ghost var seen;
      var next;
      TailNext(Now());
      last, next, seen := Look(t, kv, node, tries, from, env, k);
      TailNext(Now());
      if next != NULL {
        Help(t, kv, node, tries, from, last, seen, next, At(env, k + 2));
        linked := false;
      } else {
        linked := Link(t, kv, node, tries, from, last, seen, At(env, k + 2));
      }
    }

    /** The loop of __msqueue_add_node, up to ten rounds. */
    method Rounds(t: nat, kv: Kv, node: Addr, ghost from: nat, env: Interference<Event>)
      returns (linked: bool, last: Addr, k: nat)
      requires Valid() && t < |threads| && threads[t] == InsTail(kv, node, 0, from)
      modifies this
      ensures Moved(t, if linked then InsCount(kv, node, last) else InsFree(kv, node, from))
      ensures env == [] ==> linked && Gained(kv) && count == old(count)
    {
      hide Inv;
      var retries := 0;
      linked, last, k := false, NULL, 3;
      while retries < MAX_RETRIES
        invariant retries <= MAX_RETRIES && !linked
        invariant Moved(t, if retries == 0 then InsTail(kv, node, 0, from) else InsRetry(kv, node, retries - 1, from))
        invariant env == [] ==> Steady() && retries <= 1 && (retries == 1 ==> !TailLags(log))
      {
        linked, last := Round(t, kv, node, retries, from, env, k);
        k := k + 3;
        if linked {
          return;
        }
        retries := retries + 1;
      }
    }

    method Finish(t: nat, kv: Kv, node: Addr, last: Addr, env: Interference<Event>, k: nat)
      requires Valid() && t < |threads| && threads[t] == InsCount(kv, node, last)
      modifies this
      ensures Moved(t, Inserted(Success, kv, node))
      ensures env == [] ==>
                count == Add64(old(count), 1) && log.puts == old(log.puts) && log.poppers == old(log.poppers)
    {
      CountUp(t, kv, node, last, At(env, k));
      Swing(t, kv, node, last, At(env, k + 1));
    }

    /** __msqueue_add_node, and the free when it gives up. */
    method AddNode(t: nat, kv: Kv, node: Addr, ghost from: nat, env: Interference<Event>) returns (r: Result)
      requires Valid() && t < |threads| && threads[t] == InsTail(kv, node, 0, from)
      modifies this
      ensures r in {Success, Invalid} && Moved(t, Inserted(r, kv, node))
      ensures r == Invalid ==> from + 5 <= |log.chain|
      ensures env == [] ==> r == Success && Gained(kv) && count == Add64(old(count), 1)
    {
      var linked, last, k := Rounds(t, kv, node, from, env);
      if linked {
        Finish(t, kv, node, last, env, k);
        return Success;
      }
      FreeNode(t, kv, node, from, At(env, k));
      r := Invalid;
    }

    /** Appends kv: if it succeeds, the node it was granted carries kv at the place where t linked it. It
        gives up only if at least five nodes were linked meanwhile; alone it succeeds. */
    method Insert(t: nat, kv: Kv, granted: Addr, junk: Node, env: Interference<Event>) returns (r: Result)
      requires Valid() && t < |threads| && Resting(threads[t]) && granted !in nodes
      modifies this
      ensures r in {Success, NoMem, Invalid} && (r == NoMem <==> granted == NULL)
      ensures Moved(t, Inserted(r, kv, granted))
      ensures r == Success ==> Gave(log, t, granted, kv) && granted !in old(log.index)
      ensures r == Invalid ==> old(|log.chain|) + 5 <= |log.chain|
      ensures env == [] ==> Pairs() == if r == Success then old(Pairs()) + [kv] else old(Pairs())
      ensures env == [] && r == Success ==> count == Add64(old(count), 1)
      ensures env == [] ==> r == if granted == NULL then NoMem else Success
    {
      Obtain(t, kv, granted, junk);
      if granted == NULL {
        return NoMem;
      }
      r := FillAndAdd(t, kv, granted, env);
    }

    method FillAndAdd(t: nat, kv: Kv, node: Addr, env: Interference<Event>) returns (r: Result)
      requires Valid() && t < |threads| && threads[t] == InsKey(kv, node)
      modifies this
      ensures r in {Success, Invalid} && Moved(t, Inserted(r, kv, node))
      ensures r == Success ==> Gave(log, t, node, kv)
      ensures r == Invalid ==> old(|log.chain|) + 5 <= |log.chain|
      ensures env == [] ==> r == Success && Gained(kv) && count == Add64(old(count), 1)
    {
      ghost var from := Prepare(t, kv, node, env);
      r := AddNode(t, kv, node, from, env);
      assert ThreadOk(Mem(), log, t, threads[t]);
    }

    // ---- Pop ----

    /** The loads of a round, up to the one of head->next ... */
    method LoadThree(t: nat, tries: nat, ghost from: nat, env: Interference<Event>, k: nat)
      returns (h: Addr, last: Addr, next: Addr, ghost seen: nat)
      requires Valid() && t < |threads| && threads[t] == PopHead(tries, from)
      modifies this
      ensures Moved(t, PopCheck(tries, from, h, seen, last, next))
      ensures next == NULL ==> old(saw)[t] < saw[t]
      ensures env == [] ==> Alone() && h == head && last == tail && (next == NULL <==> Pairs() == [])
    {
      h, seen := LoadHead(t, tries, from, At(env, k));
      last := LoadTailToo(t, tries, from, h, seen, At(env, k + 1));
      next := LoadNext(t, tries, from, h, seen, last, At(env, k + 2));
      HeadNext(Now());
    }

    /** ... and the one that tells whether the head is still the same. */
    method Inspect(t: nat, tries: nat, ghost from: nat, env: Interference<Event>, k: nat)
      returns (h: Addr, last: Addr, next: Addr, same: bool, ghost seen: nat)
      requires Valid() && t < |threads| && threads[t] == PopHead(tries, from)
      modifies this
      ensures Moved(t, if !same then PopRetry(tries, from)
                       else if next == NULL then Popped(NotFound, Kv(0, 0), NULL)
                       else if h == last then PopHelp(tries, from, h, seen, last, next)
                       else PopKey(tries, from, h, seen, next))
      ensures !same ==> from + tries + 1 <= Advanced(log)
      ensures next == NULL ==> old(saw)[t] < saw[t]
      ensures env == [] ==> Alone() && same && h == head && last == tail && (next == NULL <==> Pairs() == [])
    {
      h, last, next, seen := LoadThree(t, tries, from, env, k);
      same := CheckHead(t, tries, from, h, seen, last, next, At(env, k + 3));
    }

    method Copy(t: nat, tries: nat, ghost from: nat, h: Addr, ghost seen: nat, next: Addr, env: Interference<Event>,
                k: nat)
      returns (kv: Kv)
      requires Valid() && t < |threads| && threads[t] == PopKey(tries, from, h, seen, next)
      modifies this
      ensures Moved(t, PopCas(tries, from, h, seen, next, kv))
      ensures env == [] ==> Alone()
    {
      var key := LoadKey(t, tries, from, h, seen, next, At(env, k + 4));
      var value := LoadValue(t, tries, from, h, seen, next, key, At(env, k + 5));
      kv := Kv(key, value);
    }

    /** Copies the pair of the next node and tries to make that node the head. */
    method Claim(t: nat, tries: nat, ghost from: nat, h: Addr, ghost seen: nat, next: Addr, env: Interference<Event>,
                 k: nat)
      returns (won: bool, kv: Kv)
      requires Valid() && t < |threads| && threads[t] == PopKey(tries, from, h, seen, next)
      modifies this
      ensures Moved(t, if won then PopFree(h, kv) else PopRetry(tries, from))
      ensures !won ==> from + tries + 1 <= Advanced(log)
      ensures env == [] ==> won == (old(head) == h)
      ensures env == [] && won ==> Lost(kv) && count == old(count)
    {
      kv := Copy(t, tries, from, h, seen, next, env, k);
      won := CasHead(t, tries, from, h, seen, next, kv, At(env, k + 6));
    }

    /** One round of the loop: None means try again. Alone, it takes the front pair unless there is none or
        the tail must be helped off the head first. */
    method PopRound(t: nat, tries: nat, ghost from: nat, env: Interference<Event>, k: nat)
      returns (r: Option<Result>, h: Addr, kv: Kv)
      requires Valid() && t < |threads| && threads[t] == PopHead(tries, from)
      modifies this
      ensures match r
              case None => Moved(t, PopRetry(tries, from)) && from + tries + 1 <= Advanced(log)
              case Some(x) =>
                x in {Success, NotFound} && Moved(t, if x == Success then PopFree(h, kv) else Popped(x, kv, h))
      ensures r == Some(NotFound) ==> old(saw)[t] < saw[t]
      ensures env == [] ==> match r
              case None => Steady() && old(Stuck(log)) && !Stuck(log)
              case Some(x) =>
                if x == Success then Lost(kv) && count == old(count) else Alone() && Pairs() == []
    {
      ghost var seen;
      var last, next, same;
      HeadNext(Now());
      h, last, next, same, seen := Inspect(t, tries, from, env, k);
      kv := Kv(0, 0);
      if !same {
        return None, h, kv;
      }
      if next == NULL {
        return Some(NotFound), NULL, kv;
      }
      if h == last {
        HelpPop(t, tries, from, h, seen, last, next, At(env, k + 4));
        return None, h, kv;
      }
      var won;
      won, kv := Claim(t, tries, from, h, seen, next, env, k);
      r := if won then Some(Success) else None;
    }

    /** The loop of pop, up to ten rounds. */
    method PopRounds(t: nat, ghost from: nat, env: Interference<Event>) returns (r: Result, h: Addr, kv: Kv, k: nat)
      requires Valid() && t < |threads| && threads[t] == PopHead(0, from)
      modifies this
      ensures r in {Success, NotFound, Invalid} && Moved(t, if r == Success then PopFree(h, kv) else Popped(r, kv, h))
      ensures r == Invalid ==> from + 10 <= Advanced(log)
      ensures r == NotFound ==> old(saw)[t] < saw[t]
      ensures env == [] ==>
                && r != Invalid
                && if r == Success then Lost(kv) && count == old(count) else Steady() && Pairs() == []
    {
      hide Inv;
      var retries := 0;
      h, kv, k := NULL, Kv(0, 0), 0;
      while retries < MAX_RETRIES
        invariant retries <= MAX_RETRIES
        invariant Moved(t, if retries == 0 then PopHead(0, from) else PopRetry(retries - 1, from))
        invariant retries == 0 || from + retries <= Advanced(log)
        invariant env == [] ==> Steady() && retries <= 1 && (retries == 1 ==> !Stuck(log))
      {
        var outcome;
        outcome, h, kv := PopRound(t, retries, from, env, k);
        k := k + 7;
        if outcome.Some? {
          return outcome.value, h, kv, k;
        }
        retries := retries + 1;
      }
      return Invalid, NULL, Kv(0, 0), k;
    }

    method EnterPop(t: nat) returns (ghost from: nat)
      requires Valid() && t < |threads| && Resting(threads[t])
      modifies this
      ensures Moved(t, PopHead(0, from)) && Alone() && from == Advanced(log)
    {
      ghost var s := Now();
      from := Advanced(log);
      threads := Apply(Now(), CallPop(t)).threads;
      Record(s, CallPop(t));
    }

    method Retire(t: nat, h: Addr, kv: Kv, env: Interference<Event>, k: nat)
      requires Valid() && t < |threads| && threads[t] == PopFree(h, kv)
      modifies this
      ensures Moved(t, Popped(Success, kv, h))
      ensures env == [] ==>
                count == Sub64(old(count), 1) && log.puts == old(log.puts) && log.poppers == old(log.poppers)
    {
      FreeHead(t, h, kv, At(env, k));
      CountDown(t, h, kv, At(env, k + 1));
    }

    /** Removes the front pair: if it succeeds, t unlinked node h and returns the pair of its successor. It
        gives up only if head and tail have advanced ten times meanwhile, and answers NotFound only if it
        found the queue empty during the call; alone it does not give up, and answers NotFound exactly when
        the queue is empty. */
    method Pop(t: nat, env: Interference<Event>) returns (r: Result, kv: Kv, h: Addr)
      requires Valid() && t < |threads| && Resting(threads[t])
      modifies this
      ensures r in {Success, NotFound, Invalid} && Moved(t, Popped(r, kv, h))
      ensures r == Success ==> Took(log, t, h, kv)
      ensures r == Invalid ==> old(Advanced(log)) + 10 <= Advanced(log)
      ensures r == NotFound ==> old(saw)[t] < saw[t]
      ensures env == [] ==> r == if old(Pairs()) == [] then NotFound else Success
      ensures env == [] && r == Success ==>
                kv == old(Pairs())[0] && Pairs() == old(Pairs())[1..] && count == Sub64(old(count), 1)
      ensures env == [] && r == NotFound ==> Pairs() == []
    {
      ghost var from := EnterPop(t);
      r, kv, h := PopAndRetire(t, from, env);
      assert ThreadOk(Mem(), log, t, threads[t]);
    }

    method PopAndRetire(t: nat, ghost from: nat, env: Interference<Event>) returns (r: Result, kv: Kv, h: Addr)
      requires Valid() && t < |threads| && threads[t] == PopHead(0, from)
      modifies this
      ensures r in {Success, NotFound, Invalid} && Moved(t, Popped(r, kv, h))
      ensures r == Invalid ==> from + 10 <= Advanced(log)
      ensures r == NotFound ==> old(saw)[t] < saw[t]
      ensures env == [] ==> r != Invalid
      ensures env == [] && r == Success ==> Lost(kv) && count == Sub64(old(count), 1)
      ensures env == [] && r == NotFound ==> Steady() && Pairs() == []
    {
      var k;
      r, h, kv, k := PopRounds(t, from, env);
      if r == Success {
        Retire(t, h, kv, env, k);
      }
    }
  }

  /** The tail is not the last node. */
  predicate TailLags(g: Log) { g.last + 1 != |g.chain| }

  /** Head and tail are the same node. */
  predicate Stuck(g: Log) { |g.poppers| == g.last }

  lemma LoadedHead(s: State, t: nat)
    requires Inv(s) && t < |s.threads| && s.threads[t].PopTail?
    ensures s.threads[t].head != NULL
  {
    assert ThreadOk(s.mem, s.log, t, s.threads[t]);
    NodeAt(s, s.threads[t].head);
  }

  /** Every round of a pop that fails is paid for by an advance of the head ... */
  lemma MovedHeadPays(s: State, t: nat)
    requires Inv(s) && t < |s.threads| && (s.threads[t].PopCheck? || s.threads[t].PopCas?)
    ensures s.mem.head != s.threads[t].head ==> s.threads[t].from + s.threads[t].tries + 1 <= Advanced(s.log)
  {
    assert ThreadOk(s.mem, s.log, t, s.threads[t]);
    Ends(s);
    NodeAt(s, s.threads[t].head);
  }

  /** ... or of the tail. */
  lemma HelpPays(s: State, t: nat)
    requires Inv(s) && t < |s.threads| && s.threads[t].PopHelp?
    ensures var PopHelp(tries, from, h, seen, last, next) := s.threads[t];
            && Apply(s, Tick(t)) == Goto(SwingTail(s, last, next), t, PopRetry(tries, from))
            && Effect(s, Tick(t)) == None
            && from + tries + 1 <= Advanced(SwingTail(s, last, next).log)
  {
    assert ThreadOk(s.mem, s.log, t, s.threads[t]);
    SwingAdvances(s, s.threads[t].tail, s.threads[t].next);
  }

  /** The CAS on the head, when it succeeds, and when it does not. */
  lemma TakeStep(s: State, t: nat)
    requires t < |s.threads| && s.threads[t].PopCas? && s.mem.head == s.threads[t].head
    ensures var PopCas(tries, from, h, seen, next, kv) := s.threads[t];
            && Apply(s, Tick(t)) ==
               State(s.mem.(head := next), s.threads[t := PopFree(h, kv)], s.log.(poppers := s.log.poppers + [t]))
            && Effect(s, Tick(t)) == Some(Fifo.Take(kv))
  {
  }

  lemma TakesFront(s: State, t: nat)
    requires Inv(s) && t < |s.threads| && s.threads[t].PopCas? && s.mem.head == s.threads[t].head
    ensures First(s.log) + 1 < |s.log.puts| && s.threads[t].kv == s.log.puts[First(s.log) + 1]
  {
    assert ThreadOk(s.mem, s.log, t, s.threads[t]);
    Ends(s);
  }

  lemma TakeFails(s: State, t: nat)
    requires t < |s.threads| && s.threads[t].PopCas? && s.mem.head != s.threads[t].head
    ensures Apply(s, Tick(t)) == Goto(s, t, PopRetry(s.threads[t].tries, s.threads[t].from))
    ensures Effect(s, Tick(t)) == None
  {
  }

  lemma HeadNext(s: State)
    requires Inv(s) && First(s.log) < |s.log.puts|
    ensures Deref(s.mem, s.mem.head).next == NULL <==> Contents(s) == []
    ensures s.mem.head == s.mem.tail <==> Stuck(s.log)
  {
    Ends(s);
    NodeAt(s, s.mem.head);
  }

  lemma TailNext(s: State)
    requires Inv(s)
    ensures Deref(s.mem, s.mem.tail).next != NULL <==> TailLags(s.log)
    ensures s.log.last < |s.log.chain| <= s.log.last + 2
  {
    Ends(s);
    NodeAt(s, s.mem.tail);
  }
}
