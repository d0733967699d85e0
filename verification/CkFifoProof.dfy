// Order of the chain, safe recycling, refinement and the memory bound for the recycling FIFO, in
// every interleaving of its producer and its consumer.

module CkFifoProof {
  import opened Base
  import opened CkFifo
  import Fifo

  // ---- The inductive invariant ----

  /** The i-th entry ever linked, as long as it has not been recycled. */
  predicate EntryOk(m: Memory, g: Log, i: nat)
    requires i < |g.chain| == |g.puts|
  {
    var a := g.chain[i];
    && a != NULL && a in g.index && g.index[a] == i && a in m.entries
    && m.entries[a].next == (if i + 1 < |g.chain| then g.chain[i + 1] else NULL)
    && m.entries[a].kv == g.puts[i]
    && (i > 0 ==> m.entries[a].value == a)
  }

  /** Whether the producer has an entry in hand that is not linked. */
  predicate Holds(p: Producer) { p.Key? || p.Value? || p.Payload? || p.Next? || p.Link? }

  /** The chain keeps the order garbage, snapshot, head, last entry; everything from garbage on is
      intact, and every entry ever allocated is there or in the producer's hand. */
  predicate Frame(m: Memory, g: Log, p: Producer) {
    && |g.chain| == |g.puts| && g.garbage <= g.snapshot <= g.head < |g.chain|
    && m.garbage == g.chain[g.garbage] && m.snapshot == g.chain[g.snapshot] && m.head == g.chain[g.head]
    && (forall i :: g.garbage <= i < |g.chain| ==> EntryOk(m, g, i))
    && (forall a :: a in g.index ==> g.index[a] < |g.chain|)
    && |m.entries| == |g.chain| - g.garbage + (if Holds(p) then 1 else 0)
    && g.index.Keys <= m.entries.Keys
  }

  /** An entry nobody but the producer can reach. */
  predicate Private(m: Memory, g: Log, a: Addr) {
    a != NULL && a in m.entries && (a in g.index ==> g.index[a] < g.garbage)
  }

  predicate ProducerOk(m: Memory, g: Log, p: Producer)
    requires |g.chain| == |g.puts| && 0 < |g.chain|
  {
    var n := |g.chain|;
    && (!p.Tail? ==> m.tail == g.chain[n - 1])
    && match p
       case Unlink(_) => g.garbage < g.snapshot
       case Key(_, a) => Private(m, g, a)
       case Value(kv, a) => Private(m, g, a) && m.entries[a].kv.key == kv.key
       case Payload(kv, a) => Private(m, g, a) && m.entries[a].kv == kv
       case Next(kv, a) => Private(m, g, a) && m.entries[a].kv == kv && m.entries[a].value == a
       case Link(kv, a) => Private(m, g, a) && m.entries[a] == Entry(a, NULL, kv)
       case Tail(kv, a) => g.garbage + 1 < n && m.tail == g.chain[n - 2] && a == g.chain[n - 1] && kv == g.puts[n - 1]
       case _ => true
  }

  predicate ConsumerOk(g: Log, c: Consumer)
    requires |g.chain| == |g.puts| && g.head < |g.chain|
  {
    match c
    case Waiting(result, out, pair) =>
      result != Corrupt && (result == Success && out ==> 0 < g.head && pair == g.puts[g.head])
    case Head(_) => true
    case Successor(_, head) => head == g.chain[g.head]
    case Pointer(_, entry) => g.head + 1 < |g.chain| && entry == g.chain[g.head + 1]
    case Advance(_, entry, value) => g.head + 1 < |g.chain| && entry == g.chain[g.head + 1] && value == entry
    case ReadKey(value) => 0 < g.head && value == g.chain[g.head]
    case ReadValue(value, key) => 0 < g.head && value == g.chain[g.head] && key == g.puts[g.head].key
  }

  predicate Inv(s: State) {
    Frame(s.mem, s.log, s.producer) && ProducerOk(s.mem, s.log, s.producer) && ConsumerOk(s.log, s.consumer)
  }

  /** The pairs in the queue, oldest first. */
  function Contents(s: State): seq<Kv>
    requires Inv(s)
  {
    s.log.puts[s.log.head + 1..]
  }

  lemma InitialInv(s: State)
    requires Initial(s)
    ensures Inv(s) && Contents(s) == []
  {
  }

  lemma KeepAdvance(s: State)
    requires Inv(s) && s.consumer.Advance?
    ensures Inv(ConsumerStep(s))
  {
    var s' := ConsumerStep(s);
    assert EntryOk(s.mem, s.log, s.log.head + 1);
    forall i | s.log.garbage <= i < |s.log.chain| ensures EntryOk(s'.mem, s'.log, i) {
      assert EntryOk(s.mem, s.log, i);
    }
  }

  lemma KeepConsume(s: State)
    requires Inv(s) && !s.consumer.Advance?
    ensures Inv(ConsumerStep(s))
  {
    assert EntryOk(s.mem, s.log, s.log.head);
    if s.log.head + 1 < |s.log.chain| {
      assert EntryOk(s.mem, s.log, s.log.head + 1);
    }
    assert ConsumerStep(s) == s.(consumer := ConsumerStep(s).consumer);
    assert ConsumerOk(s.log, ConsumerStep(s).consumer);
  }

  lemma SameSize(entries: map<Addr, Entry>, a: Addr, e: Entry)
    requires a in entries
    ensures |entries[a := e]| == |entries| && entries[a := e].Keys == entries.Keys
  {
    assert entries[a := e].Keys == entries.Keys;
    assert |entries[a := e]| == |entries[a := e].Keys| && |entries| == |entries.Keys|;
  }

  /** Filling in the entry in hand touches no linked entry. */
  lemma KeepFill(s: State)
    requires Inv(s) && (s.producer.Key? || s.producer.Value? || s.producer.Payload? || s.producer.Next?)
    ensures Inv(ProducerStep(s))
  {
    var s', a := ProducerStep(s), s.producer.entry;
    SameSize(s.mem.entries, a, Deref(s'.mem, a));
    forall i | s.log.garbage <= i < |s.log.chain| ensures EntryOk(s'.mem, s'.log, i) {
      assert EntryOk(s.mem, s.log, i);
    }
  }

  lemma KeepRecycle(s: State)
    requires Inv(s) && (s.producer.Recycle? || s.producer.Reload? || s.producer.Unlink? || s.producer.Tail?)
    ensures Inv(ProducerStep(s))
  {
    var s', g := ProducerStep(s), s.log;
    assert EntryOk(s.mem, g, g.garbage) && EntryOk(s.mem, g, g.snapshot) && EntryOk(s.mem, g, g.head);
    forall i | s'.log.garbage <= i < |g.chain| ensures EntryOk(s'.mem, s'.log, i) {
      assert EntryOk(s.mem, g, i);
    }
  }

  lemma KeepLink(s: State)
    requires Inv(s) && s.producer.Link?
    ensures Inv(ProducerStep(s))
  {
    var s', g, a := ProducerStep(s), s.log, s.producer.entry;
    var n := |g.chain|;
    assert EntryOk(s.mem, g, n - 1);
    SameSize(s.mem.entries, s.mem.tail, Deref(s'.mem, s.mem.tail));
    forall i | g.garbage <= i < n + 1 ensures EntryOk(s'.mem, s'.log, i) {
      if i < n {
        assert EntryOk(s.mem, g, i);
      }
    }
  }

  lemma KeepGrant(s: State, a: Addr, junk: Entry)
    requires Inv(s)
    ensures Inv(Apply(s, Grant(a, junk)))
  {
    var s' := Apply(s, Grant(a, junk));
    if s'.producer.Key? && s.producer.Alloc? {
      assert s'.mem.entries.Keys == s.mem.entries.Keys + {a};
      assert |s'.mem.entries| == |s'.mem.entries.Keys| && |s.mem.entries| == |s.mem.entries.Keys|;
      forall i | s.log.garbage <= i < |s.log.chain| ensures EntryOk(s'.mem, s'.log, i) {
        assert EntryOk(s.mem, s.log, i);
      }
    }
  }

  /** Every step of either side keeps the invariant. */
  lemma KeepInv(s: State, e: Event)
    requires Inv(s)
    ensures Inv(Apply(s, e))
  {
    match e
    case CallInsert(kv) =>
    case CallDelete(out) =>
    case Grant(a, junk) => KeepGrant(s, a, junk);
    case Consume => if s.consumer.Advance? { KeepAdvance(s); } else { KeepConsume(s); }
    case Produce =>
      if s.producer.Link? {
        KeepLink(s);
      } else if s.producer.Key? || s.producer.Value? || s.producer.Payload? || s.producer.Next? {
        KeepFill(s);
      } else if s.producer.Recycle? || s.producer.Reload? || s.producer.Unlink? || s.producer.Tail? {
        KeepRecycle(s);
      }
  }

  // ---- Recycling ----

  /** The entries the consumer still looks at, or may come to look at. */
  predicate Live(s: State, a: Addr)
    requires Inv(s)
  {
    || (exists i :: s.log.head <= i < |s.log.chain| && s.log.chain[i] == a)
    || (s.consumer.Successor? && s.consumer.head == a)
    || ((s.consumer.Pointer? || s.consumer.Advance?) && s.consumer.entry == a)
    || ((s.consumer.Advance? || s.consumer.ReadKey? || s.consumer.ReadValue?) && s.consumer.value == a)
  }

  /** While the producer fills in an entry, fresh or recycled, that entry is neither the head nor any
      entry behind it nor the payload a delete is still copying. */
  lemma EntryInHandIsDead(s: State)
    requires Inv(s) && Holds(s.producer)
    ensures s.producer.entry != s.mem.head && !Live(s, s.producer.entry)
  {
    assert EntryOk(s.mem, s.log, s.log.head);
    if s.log.head + 1 < |s.log.chain| {
      assert EntryOk(s.mem, s.log, s.log.head + 1);
    }
    forall i | s.log.head <= i < |s.log.chain| ensures s.log.chain[i] != s.producer.entry {
      assert EntryOk(s.mem, s.log, i);
    }
  }

  // ---- Refinement ----

  lemma ProducerRefines(s: State)
    requires Inv(s) && Inv(ProducerStep(s))
    ensures Contents(ProducerStep(s)) == if s.producer.Link? then Contents(s) + [s.producer.kv] else Contents(s)
  {
    var n := s.log.head + 1;
    if s.producer.Link? {
      assert (s.log.puts + [s.producer.kv])[n..] == s.log.puts[n..] + [s.producer.kv];
    } else {
      assert ProducerStep(s).log.puts == s.log.puts && ProducerStep(s).log.head == s.log.head;
    }
  }

  lemma ConsumerRefines(s: State)
    requires Inv(s) && Inv(ConsumerStep(s))
    ensures var q, r := Contents(s), Contents(ConsumerStep(s));
            if s.consumer.Advance? then q != [] && q[0] == Deref(s.mem, s.consumer.entry).kv && r == q[1..]
            else r == q && (s.consumer.Successor? && Deref(s.mem, s.consumer.head).next == NULL ==> q == [])
  {
    assert EntryOk(s.mem, s.log, s.log.head);
    if s.log.head + 1 < |s.log.chain| {
      assert EntryOk(s.mem, s.log, s.log.head + 1);
    }
  }

  /** Each step does to the contents what its abstract operation does. */
  lemma StepRefines(s: State, e: Event)
    requires Inv(s)
    ensures Inv(Apply(s, e))
    ensures match Effect(s, e)
            case None => Contents(Apply(s, e)) == Contents(s)
            case Some(op) => Fifo.Do(Contents(s), Fifo.Unbounded, op) == Some(Contents(Apply(s, e)))
  {
    match e
    case Produce => ProduceRefines(s);
    case Consume => ConsumeRefines(s);
    case CallInsert(_) => CallRefines(s, e);
    case CallDelete(_) => CallRefines(s, e);
    case Grant(_, _) => CallRefines(s, e);
  }

  lemma CallRefines(s: State, e: Event)
    requires Inv(s) && !e.Produce? && !e.Consume?
    ensures Inv(Apply(s, e)) && Effect(s, e) == None && Contents(Apply(s, e)) == Contents(s)
  {
    KeepInv(s, e);
  }

  lemma ProduceRefines(s: State)
    requires Inv(s)
    ensures Inv(ProducerStep(s))
    ensures match Effect(s, Produce)
            case None => Contents(ProducerStep(s)) == Contents(s)
            case Some(op) => Fifo.Do(Contents(s), Fifo.Unbounded, op) == Some(Contents(ProducerStep(s)))
  {
    KeepInv(s, Produce);
    ProducerRefines(s);
  }

  lemma ConsumeRefines(s: State)
    requires Inv(s)
    ensures Inv(ConsumerStep(s))
    ensures match Effect(s, Consume)
            case None => Contents(ConsumerStep(s)) == Contents(s)
            case Some(op) => Fifo.Do(Contents(s), Fifo.Unbounded, op) == Some(Contents(ConsumerStep(s)))
  {
    KeepInv(s, Consume);
    ConsumerRefines(s);
  }

  /** Every run is a history of one FIFO, ending in the contents. */
  lemma {:induction false} RunRefines(s: State, es: seq<Event>)
    requires Initial(s)
    ensures Inv(Run(s, es))
    ensures Fifo.Replay(Fifo.Unbounded, Trace(s, es)) == Some(Contents(Run(s, es)))
  {
    if es == [] {
      InitialInv(s);
    } else {
      var before, e := es[..|es| - 1], es[|es| - 1];
      RunRefines(s, before);
      var r := Run(s, before);
      StepRefines(r, e);
      Fifo.Extend(Fifo.Unbounded, Trace(s, before), Effect(r, e), Contents(r), Contents(Run(s, es)));
    }
  }

  lemma PutLogged(s: State, e: Event)
    requires 0 < |s.log.puts|
    ensures var r, op := Apply(s, e).log.puts, Effect(s, e);
            0 < |r| && r[1..] == if op.Some? && op.value.Put? then s.log.puts[1..] + [op.value.kv] else s.log.puts[1..]
  {
  }

  /** The puts of a run are the pairs logged behind the stub's. */
  lemma {:induction false} RunLogs(s: State, es: seq<Event>)
    requires Initial(s)
    ensures 0 < |Run(s, es).log.puts|
    ensures Fifo.Puts(Trace(s, es)) == Run(s, es).log.puts[1..]
  {
    if es != [] {
      var before, e := es[..|es| - 1], es[|es| - 1];
      RunLogs(s, before);
      Fifo.PutsAppend(Trace(s, before), Effect(Run(s, before), e));
      PutLogged(Run(s, before), e);
    }
  }

  /** A delete that has returned a pair, copied after head had moved, returns the pair its store to
      head took from the abstract queue; and a payload pointer is never NULL. */
  lemma DeliversWhatItTook(s: State, es: seq<Event>)
    requires Initial(s)
    ensures var r, takes := Run(s, es).consumer, Fifo.Takes(Trace(s, es));
            r.Waiting? ==>
              && r.result != Corrupt
              && (r.result == Success && r.out ==> takes != [] && takes[|takes| - 1] == r.pair)
  {
    RunRefines(s, es);
    RunLogs(s, es);
    var r, ops := Run(s, es), Trace(s, es);
    Fifo.TakesArePrefixOfPuts(Fifo.Unbounded, ops);
    LastTaken(r.log.puts, r.log.head, Fifo.Takes(ops));
  }

  lemma LastTaken(puts: seq<Kv>, head: nat, takes: seq<Kv>)
    requires head < |puts| && puts[1..] == takes + puts[head + 1..]
    ensures |takes| == head && (0 < head ==> takes[head - 1] == puts[head])
  {
    assert |takes| == head;
    if 0 < head {
      assert puts[1..][head - 1] == puts[head];
    }
  }

  // ---- Memory bound ----

  /** The greatest length the abstract queue has had in a run. */
  function Peak(s: State, es: seq<Event>): nat
    requires Initial(s)
  {
    RunRefines(s, es);
    var now := |Contents(Run(s, es))|;
    if es == [] then now else
      var before := Peak(s, es[..|es| - 1]);
      if before < now then now else before
  }

  /** An insert asks the allocator only after it found garbage equal to head, and a run never has more
      entries, stub included, than its greatest length plus two. */
  lemma {:induction false} MemoryBound(s: State, es: seq<Event>)
    requires Initial(s)
    ensures var r := Run(s, es);
            && |r.mem.entries| <= Peak(s, es) + 2
            && (r.producer.Alloc? ==> |r.mem.entries| <= Peak(s, es) + 1)
  {
    RunRefines(s, es);
    if es != [] {
      var before, e := es[..|es| - 1], es[|es| - 1];
      MemoryBound(s, before);
      RunRefines(s, before);
      var r := Run(s, before);
      AllocOnlyWhenNoGarbage(r, e);
    }
  }

  lemma AllocOnlyWhenNoGarbage(s: State, e: Event)
    requires Inv(s)
    ensures var r := Apply(s, e);
            && Inv(r)
            && (!s.producer.Alloc? ==> |r.mem.entries| == |s.mem.entries|)
            && (r.producer.Alloc? && !s.producer.Alloc? ==>
                  s.mem.garbage == s.mem.head && |r.mem.entries| == |Contents(s)| + 1)
            && (r.producer.Alloc? && s.producer.Alloc? ==> |r.mem.entries| == |s.mem.entries|)
            && |r.mem.entries| <= |s.mem.entries| + 1
            && (Contents(r) == Contents(s) || !r.producer.Alloc? || s.producer.Alloc?)
  {
    KeepInv(s, e);
    assert EntryOk(s.mem, s.log, s.log.head);
    assert EntryOk(s.mem, s.log, s.log.garbage);
  }
}
