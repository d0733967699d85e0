// The code of ds_ck_stack_upmc_push_upmc, _trypush_upmc, _pop_upmc, _trypop_upmc and _pop on real
// fields, with other threads running between any two accesses of a call.

module CkStackCalls {
  import opened Base
  import opened Calls
  import opened CkStack
  import opened CkStackProof
  import Lifo

  /** The operations of thread t, when who[i] did ops[i]. */
  function Of(ops: seq<Lifo.Op>, who: seq<nat>, t: nat): seq<Lifo.Op>
    requires |ops| == |who|
  {
    if ops == [] then [] else
      var n := |ops| - 1;
      Of(ops[..n], who[..n], t) + if who[n] == t then [ops[n]] else []
  }

  lemma OfAppend(ops: seq<Lifo.Op>, who: seq<nat>, op: Lifo.Op, u: nat, t: nat)
    requires |ops| == |who|
    ensures Of(ops + [op], who + [u], t) == Of(ops, who, t) + if u == t then [op] else []
  {
    assert (ops + [op])[..|ops|] == ops && (who + [u])[..|ops|] == who;
  }

  /** What was pushed stays recorded. */
  predicate Keeps(g: Log, g': Log) {
    forall a :: a in g.pairOf ==> a in g'.pairOf && g'.pairOf[a] == g.pairOf[a]
  }

  lemma OtherStep(s: State, t: nat, e: Event)
    requires Inv(s) && t < |s.threads| && e.t != t
    ensures Apply(s, e).threads[t] == s.threads[t] && Keeps(s.log, Apply(s, e).log)
  {
    forall a | a in s.log.pairOf ensures a in Apply(s, e).log.pairOf && Apply(s, e).log.pairOf[a] == s.log.pairOf[a] {
      StepKeepsPushed(s, e, a);
    }
  }

  /** How many CASs have succeeded: each pushed a new entry or popped one. */
  function Wins(g: Log): nat { |g.pairOf| + |g.takenBy| }

  /** The head changes only by a CAS that succeeds. */
  lemma WinsStep(s: State, e: Event)
    requires Inv(s)
    ensures Wins(s.log) <= Wins(Apply(s, e).log)
    ensures Apply(s, e).mem.head != s.mem.head || Winning(s, e) ==> Wins(s.log) < Wins(Apply(s, e).log)
  {
    if Winning(s, e) {
      assert ThreadOk(s.mem, s.log, e.t, s.threads[e.t]);
      if s.threads[e.t].PushCas? {
        PushWins(s, e.t);
      } else {
        PopIsTop(s, e.t);
        PopWins(s, e.t);
      }
    } else {
      Loses(s, e);
    }
  }

  /** The event is a CAS that finds the head it expects. */
  predicate Winning(s: State, e: Event) {
    && e.Tick? && e.t < |s.threads| && (s.threads[e.t].PushCas? || s.threads[e.t].PopCas?)
    && s.mem.head == s.threads[e.t].head
  }

  lemma PushWins(s: State, t: nat)
    requires Winning(s, Tick(t)) && s.threads[t].PushCas? && s.threads[t].entry !in s.log.pairOf
    ensures Wins(Apply(s, Tick(t)).log) == Wins(s.log) + 1
  {
    NewKey(s.log.pairOf, s.threads[t].entry, s.threads[t].kv);
  }

  lemma PopWins(s: State, t: nat)
    requires Winning(s, Tick(t)) && s.threads[t].PopCas? && s.threads[t].head !in s.log.takenBy
    ensures Wins(Apply(s, Tick(t)).log) == Wins(s.log) + 1
  {
    NewKey(s.log.takenBy, s.threads[t].head, t);
  }

  lemma Loses(s: State, e: Event)
    requires !Winning(s, e)
    ensures Apply(s, e).mem.head == s.mem.head
    ensures Apply(s, e).log.pairOf == s.log.pairOf && Apply(s, e).log.takenBy == s.log.takenBy
  {
  }

  lemma NewKey<V>(m: map<Addr, V>, a: Addr, v: V)
    requires a !in m
    ensures |m[a := v]| == |m| + 1
  {
    assert m[a := v].Keys == m.Keys + {a};
    assert |m[a := v]| == |m[a := v].Keys| && |m| == |m.Keys|;
  }

  lemma NullHead(s: State)
    requires Inv(s)
    ensures s.mem.head == NULL <==> s.log.pairs == []
  {
    if s.log.stack != [] {
      assert EntryOk(s.mem, s.log, 0);
    }
  }

  class Stack {
    var head: Addr
    var count: nat
    var entries: map<Addr, Entry>

    // The rest of the system: where each thread stands, and the history.
    var threads: seq<Pc>
    var log: Log

    // The operations that have taken effect, and whose they are.
    ghost var ops: seq<Lifo.Op>
    ghost var who: seq<nat>

    function Mem(): Memory
      reads this
    {
      Memory(head, count, entries)
    }

    function Now(): State
      reads this
    {
      State(Mem(), threads, log)
    }

    /** The history is one of a stack, and leaves the pairs that are on it now. */
    ghost predicate Valid()
      reads this
    {
      Inv(Now()) && |who| == |ops| && Lifo.Replay(ops) == Some(log.pairs)
    }

    /** The operations of thread t so far. */
    ghost function Done(t: nat): seq<Lifo.Op>
      reads this
      requires |ops| == |who|
    {
      Of(ops, who, t)
    }

    /** Thread t stands at pc; the history only grew. */
    twostate predicate Stands(t: nat, pc: Pc)
      reads this
    {
      && Valid() && |threads| == old(|threads|) && t < |threads| && threads[t] == pc && old(ops) <= ops
      && old(Wins(log)) <= Wins(log)
    }

    /** Thread t stands at pc, and none of its own operations has taken effect; if the head is another, a
        CAS of another thread has succeeded. */
    twostate predicate Moved(t: nat, pc: Pc)
      reads this
      requires old(|ops| == |who|)
    {
      Stands(t, pc) && Done(t) == old(Done(t)) && (head != old(head) ==> old(Wins(log)) < Wins(log))
    }

    /** Thread t stands at pc, and one operation of its own has taken effect. */
    twostate predicate Acted(t: nat, pc: Pc, op: Lifo.Op)
      reads this
      requires old(|ops| == |who|)
    {
      Stands(t, pc) && Done(t) == old(Done(t)) + [op]
    }

    /** Nothing happened to the stack. */
    twostate predicate Alone()
      reads this
    {
      head == old(head) && count == old(count) && log == old(log)
    }

    constructor (n: nat)
      ensures Valid() && Initial(Now()) && |threads| == n && ops == []
    {
      head, count, entries := NULL, 0, map[];
      threads := seq(n, _ => Idle);
      log := Log([], [], map[], map[], map[], map[]);
      ops, who := [], [];
    }

    /** Memory just changed as event e says; the rest of the system follows. */
    ghost method Record(was: State, e: Event, t: nat)
      requires Inv(was) && Now() == Apply(was, e)
      requires |who| == |ops| && Lifo.Replay(ops) == Some(was.log.pairs)
      modifies this`ops, this`who
      ensures Valid() && old(ops) <= ops
      ensures Done(t) == if e.t == t then Lifo.Append(old(Done(t)), Effect(was, e)) else old(Done(t))
      ensures Effect(was, e) == None ==> ops == old(ops) && who == old(who)
      ensures Wins(was.log) <= Wins(log) && (head != was.mem.head || Winning(was, e) ==> Wins(was.log) < Wins(log))
    {
      WinsStep(was, e);
      StepRefines(was, e);
      var op := Effect(was, e);
      Lifo.Extend(ops, op, was.log.pairs, log.pairs);
      if op.Some? {
        OfAppend(ops, who, op.value, e.t, t);
        ops, who := ops + [op.value], who + [e.t];
      }
    }

    method Others(t: nat, es: seq<Event>)
      requires Valid() && t < |threads|
      modifies this
      ensures Moved(t, old(threads[t])) && Keeps(old(log), log)
      ensures es == [] ==> Now() == old(Now())
    {
      var i := 0;
      while i < |es|
        invariant 0 <= i <= |es| && Moved(t, old(threads[t])) && Keeps(old(log), log)
        invariant i == 0 ==> Now() == old(Now())
      {
        if es[i].t != t {
          Other(t, es[i]);
        }
        i := i + 1;
      }
    }

    method Other(t: nat, e: Event)
      requires Valid() && t < |threads| && e.t != t
      modifies this
      ensures Moved(t, old(threads[t])) && Keeps(old(log), log)
    {
      ghost var s := Now();
      OtherStep(s, t, e);
      var next := Apply(Now(), e);
      head, count, entries := next.mem.head, next.mem.count, next.mem.entries;
      threads, log := next.threads, next.log;
      assert Now() == next;
      Record(s, e, t);
    }

    /** The call itself. */
    method Enter(t: nat, e: Event)
      requires Valid() && t < |threads| && e.t == t && (e.CallPush? || e.CallPop?) && Resting(threads[t])
      requires e.CallPush? ==> MayPush(log, t, e.entry)
      modifies this
      ensures Moved(t, if e.CallPush? then PushKey(e.entry, e.kv, e.once) else PopLoad(e.once))
      ensures Alone()
    {
      ghost var s := Now();
      threads := Apply(Now(), e).threads;
      Record(s, e, t);
    }

    // ---- The accesses of push ----

    method StoreKey(t: nat, a: Addr, kv: Kv, once: bool, others: seq<Event>)
      requires Valid() && t < |threads| && threads[t] == PushKey(a, kv, once)
      modifies this
      ensures Moved(t, PushValue(a, kv, once))
      ensures others == [] ==> Alone()
    {
      Others(t, others);
      ghost var s := Now();
      threads := Apply(Now(), Tick(t)).threads;
      assert ThreadOk(s.mem, s.log, t, s.threads[t]);
      entries := entries[a := entries[a].(data := entries[a].data.(key := kv.key))];
      Record(s, Tick(t), t);
    }

    method StoreValue(t: nat, a: Addr, kv: Kv, once: bool, others: seq<Event>)
      requires Valid() && t < |threads| && threads[t] == PushValue(a, kv, once)
      modifies this
      ensures Moved(t, PushLoad(a, kv, once))
      ensures others == [] ==> Alone()
    {
      Others(t, others);
      ghost var s := Now();
      threads := Apply(Now(), Tick(t)).threads;
      assert ThreadOk(s.mem, s.log, t, s.threads[t]);
      entries := entries[a := entries[a].(data := entries[a].data.(value := kv.value))];
      Record(s, Tick(t), t);
    }

    method StorePair(t: nat, a: Addr, kv: Kv, once: bool, before: seq<Event>, between: seq<Event>)
      requires Valid() && t < |threads| && threads[t] == PushKey(a, kv, once)
      modifies this
      ensures Moved(t, PushLoad(a, kv, once))
      ensures before == between == [] ==> Alone()
    {
      StoreKey(t, a, kv, once, before);
      StoreValue(t, a, kv, once, between);
    }

    method LoadForPush(t: nat, a: Addr, kv: Kv, once: bool, others: seq<Event>) returns (h: Addr)
      requires Valid() && t < |threads| && threads[t] == PushLoad(a, kv, once)
      modifies this
      ensures Moved(t, PushNext(a, kv, once, h)) && h == head
      ensures others == [] ==> Alone()
    {
      Others(t, others);
      ghost var s := Now();
      h := head;
      threads := Apply(Now(), Tick(t)).threads;
      Record(s, Tick(t), t);
    }

    method StoreNext(t: nat, a: Addr, kv: Kv, once: bool, h: Addr, others: seq<Event>)
      requires Valid() && t < |threads| && threads[t] == PushNext(a, kv, once, h)
      modifies this
      ensures Moved(t, PushCas(a, kv, once, h))
      ensures others == [] ==> Alone()
    {
      Others(t, others);
      ghost var s := Now();
      threads := Apply(Now(), Tick(t)).threads;
      assert ThreadOk(s.mem, s.log, t, s.threads[t]);
      entries := entries[a := entries[a].(next := h)];
      Record(s, Tick(t), t);
    }

    method CasPush(t: nat, a: Addr, kv: Kv, once: bool, h: Addr, others: seq<Event>) returns (observed: Addr)
      requires Valid() && t < |threads| && threads[t] == PushCas(a, kv, once, h)
      modifies this
      ensures observed == h ==> Acted(t, PushCount(a, kv), Lifo.Push(kv))
      ensures observed != h ==>
                && Moved(t, if once then Pushed(Busy, a, kv) else PushNext(a, kv, once, observed))
                && observed == head && MayPush(log, t, a)
      ensures observed == h ==> old(Wins(log)) < Wins(log)
      ensures others == [] ==> observed == old(head) && (observed != h ==> Alone())
      ensures others == [] && observed == h ==> PushedAlone(kv) && count == old(count)
    {
      Others(t, others);
      ghost var s := Now();
      threads, log := Apply(Now(), Tick(t)).threads, Apply(Now(), Tick(t)).log;
      observed := head;
      if observed == h {
        head := a;
      }
      Record(s, Tick(t), t);
      assert ThreadOk(Mem(), log, t, threads[t]);
    }

    twostate predicate PushedAlone(kv: Kv)
      reads this
    {
      && log.pairs == [kv] + old(log.pairs)
    }

    method CountUp(t: nat, a: Addr, kv: Kv, others: seq<Event>)
      requires Valid() && t < |threads| && threads[t] == PushCount(a, kv)
      modifies this
      ensures Moved(t, Pushed(Success, a, kv))
      ensures others == [] ==>
                log == old(log) && count == Add64(old(count), 1)
    {
      Others(t, others);
      ghost var s := Now();
      threads := Apply(Now(), Tick(t)).threads;
      count := Add64(count, 1);
      Record(s, Tick(t), t);
    }

    /** Writes the pair into the entry and loads the head. */
    method Prepare(t: nat, a: Addr, kv: Kv, once: bool, env: Interference<Event>) returns (h: Addr)
      requires Valid() && t < |threads| && Resting(threads[t]) && MayPush(log, t, a)
      modifies this
      ensures Moved(t, PushNext(a, kv, once, h)) && h == head
      ensures env == [] ==> Alone()
    {
      Enter(t, CallPush(t, a, kv, once));
      StorePair(t, a, kv, once, At(env, 0), At(env, 1));
      h := LoadForPush(t, a, kv, once, At(env, 2));
    }

    /** One round: links the entry to the head last seen and tries to become the head. */
    method Attempt(t: nat, a: Addr, kv: Kv, once: bool, h: Addr, env: Interference<Event>, k: nat)
      returns (observed: Addr)
      requires Valid() && t < |threads| && threads[t] == PushNext(a, kv, once, h)
      modifies this
      ensures observed == h ==> Acted(t, PushCount(a, kv), Lifo.Push(kv))
      ensures observed != h ==>
                && Moved(t, if once then Pushed(Busy, a, kv) else PushNext(a, kv, once, observed))
                && observed == head && MayPush(log, t, a)
      ensures observed == h ==> old(Wins(log)) < Wins(log)
      ensures |env| <= k ==> observed == old(head) && (observed == h ==> PushedAlone(kv) && count == old(count))
    {
      StoreNext(t, a, kv, once, h, At(env, k));
      observed := CasPush(t, a, kv, once, h, At(env, k + 1));
    }

    /** Retries until the entry is the head. */
    method Link(t: nat, a: Addr, kv: Kv, env: Interference<Event>) returns (k: nat, ghost failed: nat)
      requires Valid() && t < |threads| && Resting(threads[t]) && MayPush(log, t, a)
      modifies this
      ensures Acted(t, PushCount(a, kv), Lifo.Push(kv))
      ensures old(Wins(log)) + failed + 1 <= Wins(log)
      ensures env == [] ==> PushedAlone(kv) && count == old(count)
    {
      var h := Prepare(t, a, kv, false, env);
      k, failed := 3, 0;
      while true
        invariant Moved(t, PushNext(a, kv, false, h)) && h == head
        invariant env == [] ==> Alone()
        invariant old(Wins(log)) + failed <= Wins(log)
        decreases if k < |env| then |env| - k else 0
      {
        var observed := Attempt(t, a, kv, false, h, env, k);
        if observed == h {
          break;
        }
        h, k, failed := observed, k + 2, failed + 1;
      }
      k := k + 2;
    }

    /** Pushes an entry; the call takes effect exactly once, between its start and its end. At least as many
        CASs of other threads succeed meanwhile as its own CAS fails. */
    method Push(t: nat, a: Addr, kv: Kv, env: Interference<Event>) returns (ghost failed: nat)
      requires Valid() && t < |threads| && Resting(threads[t]) && MayPush(log, t, a)
      modifies this
      ensures Acted(t, Pushed(Success, a, kv), Lifo.Push(kv))
      ensures old(Wins(log)) + failed + 1 <= Wins(log)
      ensures env == [] ==> PushedAlone(kv) && count == Add64(old(count), 1)
    {
      var k;
      k, failed := Link(t, a, kv, env);
      CountUp(t, a, kv, At(env, k));
    }

    /** Pushes an entry unless a CAS of another thread succeeds meanwhile; then the caller keeps the entry. */
    method TryPush(t: nat, a: Addr, kv: Kv, env: Interference<Event>) returns (ok: bool)
      requires Valid() && t < |threads| && Resting(threads[t]) && MayPush(log, t, a)
      modifies this
      ensures if ok then Acted(t, Pushed(Success, a, kv), Lifo.Push(kv))
              else Moved(t, Pushed(Busy, a, kv)) && MayPush(log, t, a)
      ensures !ok ==> old(Wins(log)) < Wins(log)
      ensures env == [] ==> ok && PushedAlone(kv) && count == Add64(old(count), 1)
    {
      ok := LinkOnce(t, a, kv, env);
      if ok {
        CountUp(t, a, kv, At(env, 5));
      }
    }

    method LinkOnce(t: nat, a: Addr, kv: Kv, env: Interference<Event>) returns (ok: bool)
      requires Valid() && t < |threads| && Resting(threads[t]) && MayPush(log, t, a)
      modifies this
      ensures if ok then Acted(t, PushCount(a, kv), Lifo.Push(kv))
              else Moved(t, Pushed(Busy, a, kv)) && MayPush(log, t, a)
      ensures !ok ==> old(Wins(log)) < Wins(log)
      ensures env == [] ==> ok && PushedAlone(kv) && count == old(count)
    {
      var h := Prepare(t, a, kv, true, env);
      var observed := Attempt(t, a, kv, true, h, env, 3);
      ok := observed == h;
    }

    // ---- The accesses of pop ----

    method LoadForPop(t: nat, once: bool, others: seq<Event>) returns (h: Addr)
      requires Valid() && t < |threads| && threads[t] == PopLoad(once)
      modifies this
      ensures h == head
      ensures h == NULL ==>
                Acted(t, Popped(NotFound, NULL, Kv(0, 0)), Lifo.Miss)
      ensures h != NULL ==> Moved(t, PopNext(once, h))
      ensures others == [] ==> Alone()
    {
      Others(t, others);
      ghost var s := Now();
      h := head;
      threads := Apply(Now(), Tick(t)).threads;
      Record(s, Tick(t), t);
    }

    method LoadNext(t: nat, once: bool, h: Addr, others: seq<Event>) returns (next: Addr)
      requires Valid() && t < |threads| && threads[t] == PopNext(once, h)
      modifies this
      ensures Moved(t, PopCas(once, h, next))
      ensures others == [] ==> Alone()
    {
      Others(t, others);
      ghost var s := Now();
      assert ThreadOk(s.mem, s.log, t, s.threads[t]);
      next := entries[h].next;
      threads := Apply(Now(), Tick(t)).threads;
      Record(s, Tick(t), t);
    }

    method CasPop(t: nat, once: bool, h: Addr, next: Addr, others: seq<Event>) returns (observed: Addr)
      requires Valid() && t < |threads| && threads[t] == PopCas(once, h, next)
      modifies this
      ensures observed == h ==>
                && h in log.pairOf && h in entries && old(Wins(log)) < Wins(log)
                && Acted(t, PopCount(h), Lifo.Pop(log.pairOf[h]))
      ensures observed != h && observed == NULL && !once ==> Acted(t, Popped(NotFound, NULL, Kv(0, 0)), Lifo.Miss)
      ensures observed != h && once ==> Moved(t, Popped(Busy, NULL, Kv(0, 0)))
      ensures observed != h && observed != NULL && !once ==> Moved(t, PopNext(once, observed))
      ensures observed != h ==> observed == head && (old(head) == h ==> old(Wins(log)) < Wins(log))
      ensures others == [] ==> observed == old(head)
      ensures others == [] && observed == h ==> PoppedAlone(h)
    {
      Others(t, others);
      observed := CasHead(t, once, h, next);
    }

    method CasHead(t: nat, once: bool, h: Addr, next: Addr) returns (observed: Addr)
      requires Valid() && t < |threads| && threads[t] == PopCas(once, h, next)
      modifies this
      ensures observed == old(head)
      ensures observed == h ==>
                && h in log.pairOf && h in entries && old(Wins(log)) < Wins(log)
                && Acted(t, PopCount(h), Lifo.Pop(log.pairOf[h])) && PoppedAlone(h)
      ensures observed != h && observed == NULL && !once ==> Acted(t, Popped(NotFound, NULL, Kv(0, 0)), Lifo.Miss)
      ensures observed != h && once ==> Moved(t, Popped(Busy, NULL, Kv(0, 0)))
      ensures observed != h && observed != NULL && !once ==> Moved(t, PopNext(once, observed))
      ensures observed != h ==> head == old(head)
    {
      ghost var s := Now();
      if head == h {
        PopIsTop(s, t);
      }
      threads, log := Apply(Now(), Tick(t)).threads, Apply(Now(), Tick(t)).log;
      observed := head;
      if observed == h {
        head := next;
      }
      Record(s, Tick(t), t);
    }

    /** The top pair is gone; h is the entry that held it. */
    twostate predicate PoppedAlone(h: Addr)
      reads this
    {
      && count == old(count) && old(log.pairs) != [] && log.pairs == old(log.pairs)[1..]
      && h in log.pairOf && log.pairOf[h] == old(log.pairs)[0]
    }

    method CountDown(t: nat, h: Addr, others: seq<Event>)
      requires Valid() && t < |threads| && threads[t] == PopCount(h) && h in log.pairOf
      modifies this
      ensures Moved(t, PopKey(h))
      ensures h in log.pairOf && log.pairOf[h] == old(log.pairOf[h])
      ensures others == [] ==>
                log == old(log) && count == Sub64(old(count), 1)
    {
      Others(t, others);
      ghost var s := Now();
      threads := Apply(Now(), Tick(t)).threads;
      count := Sub64(count, 1);
      Record(s, Tick(t), t);
    }

    method ReadKey(t: nat, h: Addr, others: seq<Event>) returns (key: nat)
      requires Valid() && t < |threads| && threads[t] == PopKey(h) && h in log.pairOf
      modifies this
      ensures Moved(t, PopValue(h, key)) && h in log.pairOf
      ensures log.pairOf[h] == old(log.pairOf[h]) && key == log.pairOf[h].key
      ensures others == [] ==> Alone()
    {
      Others(t, others);
      ghost var s := Now();
      assert ThreadOk(s.mem, s.log, t, s.threads[t]);
      key := entries[h].data.key;
      threads := Apply(Now(), Tick(t)).threads;
      Record(s, Tick(t), t);
    }

    method ReadValue(t: nat, h: Addr, key: nat, others: seq<Event>) returns (value: nat)
      requires Valid() && t < |threads| && threads[t] == PopValue(h, key) && h in log.pairOf
      modifies this
      ensures Moved(t, Popped(Success, h, Kv(key, value)))
      ensures value == old(log.pairOf[h]).value
      ensures others == [] ==> Alone()
    {
      Others(t, others);
      ghost var s := Now();
      assert ThreadOk(s.mem, s.log, t, s.threads[t]);
      value := entries[h].data.value;
      threads := Apply(Now(), Tick(t)).threads;
      Record(s, Tick(t), t);
    }

    /** One round: reads the successor of the head last seen and tries to make it the head. */
    method Round(t: nat, once: bool, h: Addr, env: Interference<Event>, k: nat) returns (observed: Addr)
      requires Valid() && t < |threads| && threads[t] == PopNext(once, h)
      modifies this
      ensures observed == h ==> h in log.pairOf && Acted(t, PopCount(h), Lifo.Pop(log.pairOf[h]))
      ensures observed != h && observed == NULL && !once ==> Acted(t, Popped(NotFound, NULL, Kv(0, 0)), Lifo.Miss)
      ensures observed != h && once ==> Moved(t, Popped(Busy, NULL, Kv(0, 0)))
      ensures observed != h && observed != NULL && !once ==> Moved(t, PopNext(once, observed))
      ensures observed != h ==> observed == head
      ensures observed == h ==> old(Wins(log)) < Wins(log)
      ensures observed != h && old(head) == h ==> old(Wins(log)) < Wins(log)
      ensures |env| <= k ==> observed == old(head) && (observed == h ==> PoppedAlone(h))
    {
      var next := LoadNext(t, once, h, At(env, k));
      observed := CasPop(t, once, h, next, At(env, k + 1));
    }

    /** The call and the first load of the head. */
    method Start(t: nat, once: bool, others: seq<Event>) returns (h: Addr)
      requires Valid() && t < |threads| && Resting(threads[t])
      modifies this
      ensures h == head
      ensures h == NULL ==> Acted(t, Popped(NotFound, NULL, Kv(0, 0)), Lifo.Miss)
      ensures h != NULL ==> Moved(t, PopNext(once, h))
      ensures others == [] ==> Alone()
    {
      Enter(t, CallPop(t, once));
      h := LoadForPop(t, once, others);
    }

    /** Retries until the top entry is unlinked or the stack is seen empty (NULL). */
    method Unlink(t: nat, env: Interference<Event>) returns (h: Addr, k: nat, ghost failed: nat)
      requires Valid() && t < |threads| && Resting(threads[t])
      modifies this
      ensures h == NULL ==> Acted(t, Popped(NotFound, NULL, Kv(0, 0)), Lifo.Miss) && head == NULL
      ensures h != NULL ==> h in log.pairOf && Acted(t, PopCount(h), Lifo.Pop(log.pairOf[h]))
      ensures old(Wins(log)) + failed + (if h == NULL then 0 else 1) <= Wins(log)
      ensures env == [] ==> if h == NULL then Alone() else PoppedAlone(h)
    {
      h := Start(t, false, At(env, 0));
      k, failed := 1, 0;
      while h != NULL
        invariant h != NULL ==> Moved(t, PopNext(false, h))
        invariant h == NULL ==> Acted(t, Popped(NotFound, NULL, Kv(0, 0)), Lifo.Miss)
        invariant h == head && (env == [] ==> Alone())
        invariant old(Wins(log)) + failed <= Wins(log)
        decreases if k < |env| then |env| - k else 0, h != NULL
      {
        var observed := Round(t, false, h, env, k);
        k := k + 2;
        if observed == h {
          break;
        }
        h, failed := observed, failed + 1;
      }
    }

    /** Unlinks the top entry; NULL tells that there was none when the head was last seen. At least as many
        CASs of other threads succeed meanwhile as its own CAS fails. */
    method PopEntry(t: nat, env: Interference<Event>) returns (h: Addr, k: nat, ghost failed: nat)
      requires Valid() && t < |threads| && Resting(threads[t])
      modifies this
      ensures h == NULL ==> Acted(t, Popped(NotFound, NULL, Kv(0, 0)), Lifo.Miss) && head == NULL
      ensures h != NULL ==> h in log.pairOf && Acted(t, PopKey(h), Lifo.Pop(log.pairOf[h]))
      ensures old(Wins(log)) + failed + (if h == NULL then 0 else 1) <= Wins(log)
      ensures env == [] ==> if h == NULL then Alone() else PoppedOne(h)
    {
      h, k, failed := Unlink(t, env);
      if h != NULL {
        CountDown(t, h, At(env, k));
        k := k + 1;
      }
    }

    twostate predicate PoppedOne(h: Addr)
      reads this
    {
      && count == Sub64(old(count), 1) && old(log.pairs) != [] && log.pairs == old(log.pairs)[1..]
      && h in log.pairOf && log.pairOf[h] == old(log.pairs)[0]
    }

    /** Pops a pair; the call takes effect exactly once, between its start and its end. */
    method Pop(t: nat, env: Interference<Event>) returns (r: Result, kv: Kv, entry: Addr)
      requires Valid() && t < |threads| && Resting(threads[t])
      modifies this
      ensures r == NotFound || r == Success
      ensures Acted(t, Popped(r, entry, kv), if r == Success then Lifo.Pop(kv) else Lifo.Miss)
      ensures env == [] ==>
                if old(log.pairs) == [] then r == NotFound && log.pairs == []
                else r == Success && kv == old(log.pairs)[0] && log.pairs == old(log.pairs)[1..]
                     && count == Sub64(old(count), 1)
    {
      var k;
      ghost var failed;
      entry, k, failed := PopEntry(t, env);
      if entry == NULL {
        NullHead(Now());
        return NotFound, Kv(0, 0), NULL;
      }
      var key := ReadKey(t, entry, At(env, k));
      var value := ReadValue(t, entry, key, At(env, k + 1));
      kv := Kv(key, value);
      r := Success;
    }

    /** Unlinks the top entry unless there is none or a CAS of another thread succeeds meanwhile; `empty` tells which.
        The entry is the caller's, and the thread may make its next call. */
    method TryPop(t: nat, env: Interference<Event>) returns (ok: bool, h: Addr, ghost empty: bool)
      requires Valid() && t < |threads| && Resting(threads[t])
      modifies this
      ensures ok ==> h in log.pairOf && Acted(t, PopKey(h), Lifo.Pop(log.pairOf[h]))
      ensures !ok && empty ==> Acted(t, Popped(NotFound, NULL, Kv(0, 0)), Lifo.Miss)
      ensures !ok && !empty ==> Moved(t, Popped(Busy, NULL, Kv(0, 0))) && old(Wins(log)) < Wins(log)
      ensures t < |threads| && Resting(threads[t])
      ensures env == [] ==> if ok then PoppedOne(h) else empty && Alone() && log.pairs == []
    {
      ok, h, empty := UnlinkOnce(t, env);
      if ok {
        CountDown(t, h, At(env, 3));
      } else {
        NullHead(Now());
      }
    }

    method UnlinkOnce(t: nat, env: Interference<Event>) returns (ok: bool, h: Addr, ghost empty: bool)
      requires Valid() && t < |threads| && Resting(threads[t])
      modifies this
      ensures ok ==> h in log.pairOf && Acted(t, PopCount(h), Lifo.Pop(log.pairOf[h]))
      ensures !ok && empty ==> Acted(t, Popped(NotFound, NULL, Kv(0, 0)), Lifo.Miss)
      ensures !ok && !empty ==> Moved(t, Popped(Busy, NULL, Kv(0, 0))) && old(Wins(log)) < Wins(log)
      ensures env == [] ==> if ok then PoppedAlone(h) else empty && Alone() && head == NULL
    {
      h := Start(t, true, At(env, 0));
      if h == NULL {
        return false, h, true;
      }
      var observed := Round(t, true, h, env, 1);
      ok, empty := observed == h, false;
    }
  }
}
