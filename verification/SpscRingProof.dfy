// Index arithmetic, invariant and refinement for the three rings: each is a FIFO of its capacity,
// under every interleaving of its producer and its consumer and across any number of wraps.

module SpscRingProof {
  import opened Base
  import opened Words
  import opened SpscRing
  import Fifo

  // ---- Indices stand for positions ----

  /** The index that stands for position p; positions count all pairs ever published. */
  function Index(kind: Kind, n: nat, p: nat): nat
    requires 0 < n
  {
    if kind.IoUring? then p % TWO32 else p % n
  }

  /** Advancing the index is advancing the position. */
  lemma NextIsNext(kind: Kind, n: nat, p: nat)
    requires Legal(kind, n)
    ensures Next(kind, n, Index(kind, n, p)) == Index(kind, n, p + 1)
  {
    ModNext(p, TWO32);
    ModNext(p, n);
    if kind.Ck? {
      var i := p % n;
      assert Inc32(i) == i + 1;
      MaskIsMod(i + 1, n);
      if i + 1 < n { DivModUnique(i + 1, n, 0, i + 1); } else { DivModUnique(i + 1, n, 1, 0); }
    }
  }

  /** The slot of a position is the position modulo the number of slots, wraps of the index included. */
  lemma SlotIsMod(kind: Kind, n: nat, p: nat)
    requires Legal(kind, n)
    ensures Slot(kind, n, Index(kind, n, p)) == p % n < n
  {
    if kind.IoUring? {
      Pow2Of32();
      MaskIsMod(p % TWO32, n);
      Pow2Divides(n, TWO32);
      ModOfMod(p, TWO32, n);
    }
  }

  lemma Distance32(t: nat, h: nat)
    requires h <= t < h + TWO32
    ensures Sub32(t % TWO32, h % TWO32) == t - h
  {
  }

  /** The tests on indices are exact tests on positions. */
  lemma TestsAreExact(kind: Kind, n: nat, t: nat, h: nat)
    requires Legal(kind, n) && h <= t <= h + Capacity(kind, n)
    ensures IsFull(kind, n, Index(kind, n, t), Index(kind, n, h)) <==> t == h + Capacity(kind, n)
    ensures Index(kind, n, t) == Index(kind, n, h) <==> t == h
  {
    if kind.IoUring? {
      Distance32(t, h);
    } else {
      NextIsNext(kind, n, t);
      if (t + 1) % n == h % n {
        if t + 1 < h + n { ModUnique(t + 1, h, n); }
      } else if t + 1 == h + n {
        ModLap(h, n);
      }
      if t % n == h % n {
        ModUnique(t, h, n);
      }
    }
  }

  predicate StandsFor(kind: Kind, n: nat, t: nat, h: nat, tail: nat, head: nat)
    requires 0 < n
  {
    h <= t <= h + Capacity(kind, n) && tail == Index(kind, n, t) && head == Index(kind, n, h)
  }

  /** These indices stand for positions that a ring may have. */
  ghost predicate Stands(kind: Kind, n: nat, tail: nat, head: nat)
    requires 0 < n
  {
    exists t: nat, h: nat :: StandsFor(kind, n, t, h, tail, head)
  }

  lemma FreeRunningStands(n: nat, tail: nat, head: nat)
    requires 0 < n < TWO32 && tail < TWO32 && head < TWO32
    ensures Stands(IoUring, n, tail, head) <==> Sub32(tail, head) <= n
  {
    if Sub32(tail, head) <= n {
      assert StandsFor(IoUring, n, head + Sub32(tail, head), head, tail, head);
    }
    if t: nat, h: nat :| StandsFor(IoUring, n, t, h, tail, head) {
      Distance32(t, h);
    }
  }

  lemma WrappedStands(kind: Kind, n: nat, tail: nat, head: nat)
    requires Legal(kind, n) && !kind.IoUring?
    ensures Stands(kind, n, tail, head) <==> tail < n && head < n
  {
    if tail < n && head < n {
      var t := if head <= tail then tail else tail + n;
      DivModUnique(head, n, 0, head);
      DivModUnique(t, n, if head <= tail then 0 else 1, tail);
      assert StandsFor(kind, n, t, head, tail, head);
    }
  }

  // ---- The inductive invariant ----

  /** The slot of every unreleased position holds its pair. */
  predicate Stored(n: nat, slots: seq<Kv>, puts: seq<Kv>, taken: nat)
    requires 0 < n
  {
    |slots| == n && forall p :: taken <= p < |puts| ==> slots[p % n] == puts[p]
  }

  predicate Frame(s: State) {
    var m := s.mem;
    && Legal(m.kind, m.n) && Stored(m.n, m.slots, s.puts, s.taken)
    && s.taken <= |s.puts| <= s.taken + Capacity(m.kind, m.n)
    && m.tail == Index(m.kind, m.n, |s.puts|) && m.head == Index(m.kind, m.n, s.taken)
  }

  predicate ProducerOk(s: State)
    requires Frame(s)
  {
    var m, t := s.mem, |s.puts|;
    match s.producer
    case Resting(result) => m.kind.IoUring? ==> (m.full <==> result == Full)
    case Check(_) => true
    case Key(_, tail) => tail == m.tail && t < s.taken + Capacity(m.kind, m.n)
    case Value(kv, tail) =>
      tail == m.tail && t < s.taken + Capacity(m.kind, m.n) && m.slots[t % m.n].key == kv.key
    case Publish(kv, tail) =>
      tail == m.tail && t < s.taken + Capacity(m.kind, m.n) && m.slots[t % m.n] == kv
    case Flag(_) => true
  }

  predicate ConsumerOk(s: State)
    requires Frame(s)
  {
    match s.consumer
    case Waiting(result, out, pair) =>
      result == Success ==> 0 < s.taken && (out ==> pair == s.puts[s.taken - 1])
    case Look(_) => true
    case ReadKey(head) => head == s.mem.head && s.taken < |s.puts|
    case ReadValue(head, key) => head == s.mem.head && s.taken < |s.puts| && key == s.puts[s.taken].key
    case Release(out, head, pair) =>
      head == s.mem.head && s.taken < |s.puts| && (out ==> pair == s.puts[s.taken])
  }

  predicate Inv(s: State) { Frame(s) && ProducerOk(s) && ConsumerOk(s) }

  /** The pairs in the ring, oldest first. */
  function Contents(s: State): seq<Kv>
    requires Inv(s)
  {
    s.puts[s.taken..]
  }

  function Bound(s: State): Fifo.Bound
    requires Inv(s)
  {
    Fifo.AtMost(Capacity(s.mem.kind, s.mem.n))
  }

  lemma InitialInv(s: State)
    requires Initial(s)
    ensures Inv(s) && Contents(s) == []
  {
    SlotIsMod(s.mem.kind, s.mem.n, 0);
    DivModUnique(0, s.mem.n, 0, 0);
  }

  /** Writing the slot of the tail disturbs no unreleased position. */
  lemma StoreAtTail(n: nat, slots: seq<Kv>, puts: seq<Kv>, taken: nat, kv: Kv)
    requires 0 < n && Stored(n, slots, puts, taken) && |puts| < taken + n
    ensures Stored(n, slots[|puts| % n := kv], puts, taken)
  {
    forall p | taken <= p < |puts| ensures p % n != |puts| % n {
      if p % n == |puts| % n {
        ModUnique(p, |puts|, n);
      }
    }
  }

  lemma StoredMore(n: nat, slots: seq<Kv>, puts: seq<Kv>, taken: nat, kv: Kv)
    requires 0 < n && Stored(n, slots, puts, taken) && slots[|puts| % n] == kv
    ensures Stored(n, slots, puts + [kv], taken)
  {
  }

  lemma KeepProduce(s: State)
    requires Inv(s)
    ensures Inv(ProducerStep(s))
  {
    var m, t := s.mem, |s.puts|;
    SlotIsMod(m.kind, m.n, t);
    TestsAreExact(m.kind, m.n, t, s.taken);
    match s.producer
    case Key(kv, _) => StoreAtTail(m.n, m.slots, s.puts, s.taken, m.slots[t % m.n].(key := kv.key));
    case Value(kv, _) => StoreAtTail(m.n, m.slots, s.puts, s.taken, m.slots[t % m.n].(value := kv.value));
    case Publish(kv, _) =>
      NextIsNext(m.kind, m.n, t);
      StoredMore(m.n, m.slots, s.puts, s.taken, kv);
    case _ =>
  }

  lemma KeepConsume(s: State)
    requires Inv(s)
    ensures Inv(ConsumerStep(s))
  {
    SlotIsMod(s.mem.kind, s.mem.n, s.taken);
    TestsAreExact(s.mem.kind, s.mem.n, |s.puts|, s.taken);
    NextIsNext(s.mem.kind, s.mem.n, s.taken);
  }

  /** Every step of either side keeps the invariant. */
  lemma KeepInv(s: State, e: Event)
    requires Inv(s)
    ensures Inv(Apply(s, e)) && Apply(s, e).mem.kind == s.mem.kind && Apply(s, e).mem.n == s.mem.n
  {
    if e.Produce? {
      KeepProduce(s);
    } else if e.Consume? {
      KeepConsume(s);
    }
  }

  function Run(s: State, es: seq<Event>): (r: State)
    requires Inv(s)
    ensures Inv(r) && r.mem.kind == s.mem.kind && r.mem.n == s.mem.n
  {
    if es == [] then s else
      var before := Run(s, es[..|es| - 1]);
      KeepInv(before, es[|es| - 1]);
      Apply(before, es[|es| - 1])
  }

  function Trace(s: State, es: seq<Event>): seq<Fifo.Op>
    requires Inv(s)
  {
    if es == [] then [] else
      var before := es[..|es| - 1];
      Fifo.Append(Trace(s, before), Effect(Run(s, before), es[|es| - 1]))
  }

  // ---- Reading and writing never meet ----

  predicate Writing(s: State) { s.producer.Key? || s.producer.Value? || s.producer.Publish? }

  predicate Reading(s: State) { s.consumer.ReadKey? || s.consumer.ReadValue? || s.consumer.Release? }

  /** The slot being written is never the slot being read, nor any other that holds a pair; the index
      the other side loaded may be out of date by then. */
  lemma SlotsApart(s: State, p: nat)
    requires Inv(s) && Writing(s) && s.taken <= p < |s.puts|
    ensures Slot(s.mem.kind, s.mem.n, s.producer.tail) < s.mem.n
    ensures Slot(s.mem.kind, s.mem.n, s.producer.tail) != Slot(s.mem.kind, s.mem.n, Index(s.mem.kind, s.mem.n, p))
    ensures Reading(s) ==>
              Slot(s.mem.kind, s.mem.n, s.producer.tail) != Slot(s.mem.kind, s.mem.n, s.consumer.head)
  {
    var kind, n, t := s.mem.kind, s.mem.n, |s.puts|;
    SlotIsMod(kind, n, t);
    SlotIsMod(kind, n, p);
    SlotIsMod(kind, n, s.taken);
    if p % n == t % n { ModUnique(p, t, n); }
    if s.taken % n == t % n { ModUnique(s.taken, t, n); }
  }

  // ---- Refinement ----

  lemma ProducerRefines(s: State)
    requires Inv(s) && Inv(ProducerStep(s))
    ensures Contents(ProducerStep(s)) ==
              if s.producer.Publish? then Contents(s) + [s.producer.kv] else Contents(s)
    ensures Writing(s) ==> |Contents(s)| < Capacity(s.mem.kind, s.mem.n)
    ensures IsFull(s.mem.kind, s.mem.n, s.mem.tail, s.mem.head) <==> |Contents(s)| == Capacity(s.mem.kind, s.mem.n)
  {
    TestsAreExact(s.mem.kind, s.mem.n, |s.puts|, s.taken);
  }

  lemma ConsumerRefines(s: State)
    requires Inv(s) && Inv(ConsumerStep(s))
    ensures var q := Contents(s);
            && (s.mem.head == s.mem.tail <==> q == [])
            && if s.consumer.Release?
               then && q != [] && q[0] == At(s.mem.slots, Slot(s.mem.kind, s.mem.n, s.consumer.head))
                    && Contents(ConsumerStep(s)) == q[1..]
               else Contents(ConsumerStep(s)) == q
  {
    SlotIsMod(s.mem.kind, s.mem.n, s.taken);
    TestsAreExact(s.mem.kind, s.mem.n, |s.puts|, s.taken);
  }

  /** Each step does to the contents what its abstract operation does; a refusal is truthful at the
      load of the other side's index, and so is a miss. */
  lemma StepRefines(s: State, e: Event)
    requires Inv(s)
    ensures Inv(Apply(s, e)) && Bound(Apply(s, e)) == Bound(s)
    ensures match Effect(s, e)
            case None => Contents(Apply(s, e)) == Contents(s)
            case Some(op) => Fifo.Do(Contents(s), Bound(s), op) == Some(Contents(Apply(s, e)))
  {
    KeepInv(s, e);
    if e.Produce? {
      ProducerRefines(s);
    } else if e.Consume? {
      ConsumerRefines(s);
    }
  }

  /** Every run of every ring is a history of one FIFO with room for Capacity pairs. */
  lemma {:induction false} RunRefines(s: State, es: seq<Event>)
    requires Initial(s)
    ensures Inv(s) && Inv(Run(s, es))
    ensures Fifo.Replay(Fifo.AtMost(Capacity(s.mem.kind, s.mem.n)), Trace(s, es)) == Some(Contents(Run(s, es)))
    ensures Fifo.Puts(Trace(s, es)) == Run(s, es).puts
  {
    InitialInv(s);
    if es != [] {
      var before, e := es[..|es| - 1], es[|es| - 1];
      RunRefines(s, before);
      var r := Run(s, before);
      StepRefines(r, e);
      var bound := Fifo.AtMost(Capacity(s.mem.kind, s.mem.n));
      Fifo.Extend(bound, Trace(s, before), Effect(r, e), Contents(r), Contents(Run(s, es)));
      Fifo.PutsAppend(Trace(s, before), Effect(r, e));
    }
  }

  /** A pop that has returned a pair returns the one its store to the head took from the FIFO, though
      it copied it before. */
  lemma DeliversWhatItTook(s: State, es: seq<Event>)
    requires Initial(s)
    ensures Inv(s)
    ensures var r, takes := Run(s, es).consumer, Fifo.Takes(Trace(s, es));
            r.Waiting? && r.result == Success && r.out ==> takes != [] && takes[|takes| - 1] == r.pair
  {
    RunRefines(s, es);
    var r := Run(s, es);
    Fifo.TakesArePrefixOfPuts(Fifo.AtMost(Capacity(s.mem.kind, s.mem.n)), Trace(s, es));
    FrontOf(r.puts, r.taken, Fifo.Takes(Trace(s, es)));
  }

  lemma FrontOf(puts: seq<Kv>, taken: nat, takes: seq<Kv>)
    requires taken <= |puts| && puts == takes + puts[taken..]
    ensures |takes| == taken && (0 < taken ==> takes[taken - 1] == puts[taken - 1])
  {
  }

  // ---- The first access of a call ----

  /** An insert goes on exactly when the ring has room. */
  lemma InsertBegins(s: State, kv: Kv)
    requires Inv(s) && s.producer.Resting?
    ensures var full := |Contents(s)| == Capacity(s.mem.kind, s.mem.n);
            && (IsFull(s.mem.kind, s.mem.n, s.mem.tail, s.mem.head) <==> full)
            && Apply(Apply(s, CallInsert(kv)), Produce) ==
                 s.(producer := if full then AfterInsert(s.mem.kind, Full) else Key(kv, s.mem.tail))
            && Inv(Apply(Apply(s, CallInsert(kv)), Produce))
  {
    TestsAreExact(s.mem.kind, s.mem.n, |s.puts|, s.taken);
    KeepProduce(Apply(s, CallInsert(kv)));
  }

  /** A pop goes on exactly when the ring holds a pair. */
  lemma PopBegins(s: State, out: bool)
    requires Inv(s) && s.consumer.Waiting?
    ensures (s.mem.head == s.mem.tail <==> Contents(s) == [])
    ensures Apply(Apply(s, CallPop(out)), Consume) ==
              s.(consumer := if Contents(s) == [] then Waiting(NotFound, out, Kv(0, 0))
                             else if out then ReadKey(s.mem.head) else Release(out, s.mem.head, Kv(0, 0)))
    ensures Inv(Apply(Apply(s, CallPop(out)), Consume))
  {
    TestsAreExact(s.mem.kind, s.mem.n, |s.puts|, s.taken);
    KeepConsume(Apply(s, CallPop(out)));
  }

  /** The indices of every reachable ring stand for its positions, between any two accesses. */
  lemma ReachableStands(s: State)
    requires Inv(s)
    ensures Stands(s.mem.kind, s.mem.n, s.mem.tail, s.mem.head)
  {
    assert StandsFor(s.mem.kind, s.mem.n, |s.puts|, s.taken, s.mem.tail, s.mem.head);
  }
}
