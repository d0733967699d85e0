// Shape, refinement and counting for the Treiber stack, in every interleaving of any number of
// threads. The head may return to an earlier value between a load and a CAS; that is harmless,
// because neither the next pointer nor the pair of an entry changes once it has been pushed.

module CkStackProof {
  import opened Base
  import opened Words
  import opened Tally
  import opened CkStack
  import Lifo

  // ---- The inductive invariant ----

  /** The entry i places below the top. */
  predicate EntryOk(m: Memory, g: Log, i: nat)
    requires i < |g.stack| == |g.pairs|
  {
    var a := g.stack[i];
    && a in g.pairOf && a in m.entries && g.pairOf[a] == g.pairs[i] && a !in g.takenBy
    && a in g.height && g.height[a] == |g.stack| - 1 - i
    && m.entries[a].next == if i + 1 < |g.stack| then g.stack[i + 1] else NULL
  }

  predicate Frame(m: Memory, g: Log) {
    && |g.stack| == |g.pairs| && m.head == (if g.stack == [] then NULL else g.stack[0])
    && (forall i :: 0 <= i < |g.stack| ==> EntryOk(m, g, i))
    && (forall a :: a in g.pairOf ==> a != NULL && a in m.entries && m.entries[a].data == g.pairOf[a])
    && g.owner.Keys <= m.entries.Keys && NULL !in m.entries
    && g.takenBy.Keys <= g.pairOf.Keys
  }

  predicate Took(g: Log, t: nat, a: Addr) { a in g.pairOf && a in g.takenBy && g.takenBy[a] == t }

  predicate ThreadOk(m: Memory, g: Log, t: nat, pc: Pc) {
    match pc
    case Idle => true
    case PushKey(a, kv, _) => MayPush(g, t, a) && a in m.entries
    case PushValue(a, kv, _) => MayPush(g, t, a) && a in m.entries && m.entries[a].data.key == kv.key
    case PushLoad(a, kv, _) => MayPush(g, t, a) && a in m.entries && m.entries[a].data == kv
    case PushNext(a, kv, _, _) => MayPush(g, t, a) && a in m.entries && m.entries[a].data == kv
    case PushCas(a, kv, _, head) => MayPush(g, t, a) && a in m.entries && m.entries[a] == Entry(head, kv)
    case PushCount(a, kv) => a in g.pairOf && g.pairOf[a] == kv
    case Pushed(result, a, kv) => if result == Success then a in g.pairOf && g.pairOf[a] == kv else MayPush(g, t, a)
    case PopLoad(_) => true
    case PopNext(_, head) => head in g.pairOf
    case PopCas(_, head, next) => head in g.pairOf && head in m.entries && next == m.entries[head].next
    case PopCount(head) => Took(g, t, head)
    case PopKey(head) => Took(g, t, head)
    case PopValue(head, key) => Took(g, t, head) && key == g.pairOf[head].key
    case Popped(result, head, kv) => result == Success ==> Took(g, t, head) && kv == g.pairOf[head]
  }

  predicate Inv(s: State) {
    && Frame(s.mem, s.log)
    && (forall t :: 0 <= t < |s.threads| ==> ThreadOk(s.mem, s.log, t, s.threads[t]))
  }

  /** The pairs on the stack, top first. */
  function Contents(s: State): seq<Kv> { s.log.pairs }

  lemma InitialInv(s: State)
    requires Initial(s)
    ensures Inv(s) && Contents(s) == []
  {
  }

  /** Another thread's standing survives a step that leaves pushed entries and t's own entries alone. */
  lemma OtherThread(s: State, m: Memory, g: Log, t: nat)
    requires Inv(s) && t < |s.threads|
    requires forall a :: a in s.log.pairOf ==> a in g.pairOf && g.pairOf[a] == s.log.pairOf[a]
    requires forall a :: a in s.log.takenBy ==> a in g.takenBy && g.takenBy[a] == s.log.takenBy[a]
    requires forall a :: a in s.mem.entries ==> a in m.entries
    requires forall a :: a in s.log.pairOf && a in s.mem.entries ==> m.entries[a] == s.mem.entries[a]
    requires forall a :: MayPush(s.log, t, a) ==> MayPush(g, t, a)
    requires forall a :: MayPush(s.log, t, a) && a in s.mem.entries ==> m.entries[a] == s.mem.entries[a]
    ensures ThreadOk(m, g, t, s.threads[t])
  {
    assert ThreadOk(s.mem, s.log, t, s.threads[t]);
  }

  lemma KeepPush(s: State, t: nat)
    requires Inv(s) && t < |s.threads| && !Popping(s.threads[t]) && !s.threads[t].PushCas?
    ensures Inv(PushStep(s, t))
  {
    var s' := PushStep(s, t);
    assert ThreadOk(s.mem, s.log, t, s.threads[t]);
    forall i | 0 <= i < |s.log.stack| ensures EntryOk(s'.mem, s'.log, i) {
      assert EntryOk(s.mem, s.log, i);
    }
    forall u | 0 <= u < |s.threads| ensures ThreadOk(s'.mem, s'.log, u, s'.threads[u]) {
      if u != t {
        OtherThread(s, s'.mem, s'.log, u);
      }
    }
  }

  lemma KeepPushCas(s: State, t: nat)
    requires Inv(s) && t < |s.threads| && s.threads[t].PushCas?
    ensures Inv(PushStep(s, t))
  {
    var s', a := PushStep(s, t), s.threads[t].entry;
    assert ThreadOk(s.mem, s.log, t, s.threads[t]);
    if s.mem.head == s.threads[t].head {
      forall i | 0 <= i < |s'.log.stack| ensures EntryOk(s'.mem, s'.log, i) {
        if i > 0 {
          assert EntryOk(s.mem, s.log, i - 1);
        }
      }
    }
    forall u | 0 <= u < |s.threads| ensures ThreadOk(s'.mem, s'.log, u, s'.threads[u]) {
      if u != t {
        OtherThread(s, s'.mem, s'.log, u);
      }
    }
  }

  /** A CAS that finds the head it loaded takes the top entry, whatever happened in between: the next
      pointer read earlier is still the one of that entry. */
  lemma PopIsTop(s: State, t: nat)
    requires Inv(s) && t < |s.threads| && s.threads[t].PopCas? && s.mem.head == s.threads[t].head
    ensures s.log.stack != [] && s.log.stack[0] == s.threads[t].head
    ensures s.threads[t].next == if |s.log.stack| == 1 then NULL else s.log.stack[1]
    ensures Deref(s.mem, s.threads[t].head).data == s.log.pairs[0]
    ensures s.threads[t].head !in s.log.takenBy
  {
    assert ThreadOk(s.mem, s.log, t, s.threads[t]);
    assert EntryOk(s.mem, s.log, 0);
  }

  lemma KeepPopCas(s: State, t: nat)
    requires Inv(s) && t < |s.threads| && s.threads[t].PopCas? && s.mem.head == s.threads[t].head
    ensures Inv(PopStep(s, t))
  {
    var s' := PopStep(s, t);
    PopIsTop(s, t);
    assert ThreadOk(s.mem, s.log, t, s.threads[t]);
    assert EntryOk(s.mem, s.log, 0);
    forall i | 0 <= i < |s'.log.stack| ensures EntryOk(s'.mem, s'.log, i) {
      assert EntryOk(s.mem, s.log, i + 1);
    }
    forall u | 0 <= u < |s.threads| ensures ThreadOk(s'.mem, s'.log, u, s'.threads[u]) {
      if u != t {
        OtherThread(s, s'.mem, s'.log, u);
      }
    }
  }

  lemma KeepPop(s: State, t: nat)
    requires Inv(s) && t < |s.threads| && Popping(s.threads[t])
    requires s.threads[t].PopCas? ==> s.mem.head != s.threads[t].head
    ensures Inv(PopStep(s, t))
  {
    var s' := PopStep(s, t);
    assert ThreadOk(s.mem, s.log, t, s.threads[t]);
    if s.log.stack != [] {
      assert EntryOk(s.mem, s.log, 0);
    }
    forall i | 0 <= i < |s.log.stack| ensures EntryOk(s'.mem, s'.log, i) {
      assert EntryOk(s.mem, s.log, i);
    }
    forall u | 0 <= u < |s.threads| ensures ThreadOk(s'.mem, s'.log, u, s'.threads[u]) {
      if u != t {
        OtherThread(s, s'.mem, s'.log, u);
      }
    }
  }

  lemma KeepCall(s: State, e: Event)
    requires Inv(s) && !e.Tick?
    ensures Inv(Apply(s, e))
  {
    var s' := Apply(s, e);
    forall i | 0 <= i < |s.log.stack| ensures EntryOk(s'.mem, s'.log, i) {
      assert EntryOk(s.mem, s.log, i);
    }
    forall u | 0 <= u < |s.threads| ensures ThreadOk(s'.mem, s'.log, u, s'.threads[u]) {
      OtherThread(s, s'.mem, s'.log, u);
    }
  }

  /** Every step of every thread keeps the invariant. */
  lemma KeepInv(s: State, e: Event)
    requires Inv(s)
    ensures Inv(Apply(s, e))
  {
    if !e.Tick? || e.t >= |s.threads| {
      if !e.Tick? { KeepCall(s, e); }
    } else if s.threads[e.t].PushCas? {
      KeepPushCas(s, e.t);
    } else if !Popping(s.threads[e.t]) {
      KeepPush(s, e.t);
    } else if s.threads[e.t].PopCas? && s.mem.head == s.threads[e.t].head {
      KeepPopCas(s, e.t);
    } else {
      KeepPop(s, e.t);
    }
  }

  // ---- Refinement ----

  /** Each step does to the contents what its abstract operation does. */
  lemma StepRefines(s: State, e: Event)
    requires Inv(s)
    ensures Inv(Apply(s, e))
    ensures match Effect(s, e)
            case None => Contents(Apply(s, e)) == Contents(s)
            case Some(op) => Lifo.Do(Contents(s), op) == Some(Contents(Apply(s, e)))
  {
    KeepInv(s, e);
    if s.log.stack != [] {
      assert EntryOk(s.mem, s.log, 0);
    }
    if e.Tick? && e.t < |s.threads| && s.threads[e.t].PopCas? && s.mem.head == s.threads[e.t].head {
      PopIsTop(s, e.t);
    }
  }

  /** Every run is a history of one stack, ending in the contents. */
  lemma {:induction false} RunRefines(s: State, es: seq<Event>)
    requires Initial(s)
    ensures Inv(Run(s, es))
    ensures Lifo.Replay(Trace(s, es)) == Some(Contents(Run(s, es)))
  {
    if es == [] {
      InitialInv(s);
    } else {
      var before, e := es[..|es| - 1], es[|es| - 1];
      RunRefines(s, before);
      StepRefines(Run(s, before), e);
      Lifo.Extend(Trace(s, before), Effect(Run(s, before), e), Contents(Run(s, before)), Contents(Run(s, es)));
    }
  }

  /** Once pushed, an entry keeps its next pointer and its pair for ever, on the stack and after. */
  lemma {:induction false} PushedIsFrozen(s: State, es: seq<Event>, a: Addr)
    requires Inv(s) && a in s.log.pairOf
    ensures Inv(Run(s, es)) && a in Run(s, es).log.pairOf && Run(s, es).log.pairOf[a] == s.log.pairOf[a]
    ensures Deref(Run(s, es).mem, a) == Deref(s.mem, a)
    ensures a in s.log.takenBy ==> a in Run(s, es).log.takenBy && Run(s, es).log.takenBy[a] == s.log.takenBy[a]
  {
    if es != [] {
      var r, e := Run(s, es[..|es| - 1]), es[|es| - 1];
      PushedIsFrozen(s, es[..|es| - 1], a);
      KeepInv(r, e);
      StepKeepsPushed(r, e, a);
    }
  }

  lemma StepKeepsPushed(s: State, e: Event, a: Addr)
    requires Inv(s) && a in s.log.pairOf
    ensures a in Apply(s, e).log.pairOf && Apply(s, e).log.pairOf[a] == s.log.pairOf[a]
    ensures Deref(Apply(s, e).mem, a) == Deref(s.mem, a)
    ensures a in s.log.takenBy ==> a in Apply(s, e).log.takenBy && Apply(s, e).log.takenBy[a] == s.log.takenBy[a]
  {
    if e.t < |s.threads| {
      assert ThreadOk(s.mem, s.log, e.t, s.threads[e.t]);
      if e.Tick? && s.threads[e.t].PopCas? && s.mem.head == s.threads[e.t].head {
        PopIsTop(s, e.t);
      }
    }
  }

  /** Entries popped by two threads, or by one thread twice, are different entries; and a pop, which
      reads the pair after it has unlinked the entry, returns the pair its own CAS removed. */
  lemma PopDelivers(s: State, t: nat, es: seq<Event>)
    requires Inv(s) && t < |s.threads| && s.threads[t].PopCas? && s.mem.head == s.threads[t].head
    ensures var head, r := s.threads[t].head, Run(Apply(s, Tick(t)), es);
            && Effect(s, Tick(t)) == Some(Lifo.Pop(Contents(s)[0]))
            && head !in s.log.takenBy && head in r.log.takenBy && r.log.takenBy[head] == t
            && (r.threads[t].Popped? && r.threads[t].result == Success && r.threads[t].head == head ==>
                  r.threads[t].kv == Contents(s)[0])
  {
    var s' := Apply(s, Tick(t));
    PopIsTop(s, t);
    KeepInv(s, Tick(t));
    assert EntryOk(s.mem, s.log, 0);
    PushedIsFrozen(s', es, s.threads[t].head);
    var r := Run(s', es);
    assert ThreadOk(r.mem, r.log, t, r.threads[t]);
  }

  // ---- The element counter ----

  /** Updates of the counter a thread still owes after its CAS. */
  function Owed(pc: Pc): int {
    if pc.PushCount? then 1 else if pc.PopCount? then -1 else 0
  }

  predicate Counted(s: State) {
    s.mem.count == Wrap64(|s.log.stack| - Sum(s.threads, Owed))
  }

  /** What a step adds to the counter is what it takes off the thread's debt. */
  predicate Balanced(s: State, s': State, t: nat)
    requires t < |s.threads| == |s'.threads|
  {
    var pc := s.threads[t];
    && s'.threads == s.threads[t := s'.threads[t]]
    && s'.mem.count == (if pc.PushCount? then Add64(s.mem.count, 1)
                        else if pc.PopCount? then Sub64(s.mem.count, 1)
                        else s.mem.count)
    && |s'.log.stack| - Owed(s'.threads[t]) == |s.log.stack|
  }

  lemma BalancedCounts(s: State, t: nat, s': State)
    requires t < |s.threads| == |s'.threads| && Counted(s) && Balanced(s, s', t)
    ensures Counted(s')
  {
    SumUpdate(s.threads, t, s'.threads[t], Owed);
    ModShift(|s.log.stack| - Sum(s.threads, Owed), Owed(s.threads[t]), TWO64);
  }

  lemma StepBalances(s: State, t: nat)
    requires Inv(s) && t < |s.threads|
    ensures Balanced(s, Apply(s, Tick(t)), t)
  {
    if s.threads[t].PopCas? && s.mem.head == s.threads[t].head {
      PopIsTop(s, t);
    }
  }

  lemma KeepCounted(s: State, e: Event)
    requires Inv(s) && Counted(s)
    ensures Counted(Apply(s, e))
  {
    if e.t < |s.threads| {
      if e.Tick? {
        StepBalances(s, e.t);
        BalancedCounts(s, e.t, Apply(s, e));
      } else if Apply(s, e).threads != s.threads {
        SumUpdate(s.threads, e.t, Apply(s, e).threads[e.t], Owed);
      }
    }
  }

  /** In every run the counter, modulo its width, is the height of the stack less the increments and
      plus the decrements that threads still owe. */
  lemma {:induction false} RunCounted(s: State, es: seq<Event>)
    requires Initial(s)
    ensures Counted(Run(s, es))
  {
    if es == [] {
      SumZero(s.threads, Owed);
    } else {
      RunCounted(s, es[..|es| - 1]);
      RunRefines(s, es[..|es| - 1]);
      KeepCounted(Run(s, es[..|es| - 1]), es[|es| - 1]);
    }
  }

  /** Between operations the counter is the height, modulo its width. */
  lemma RestIsExact(s: State)
    requires Inv(s) && Counted(s) && forall t :: 0 <= t < |s.threads| ==> Resting(s.threads[t])
    ensures s.mem.count == Wrap64(|Contents(s)|)
  {
    SumZero(s.threads, Owed);
  }
}
