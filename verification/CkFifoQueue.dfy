// The code of ds_ck_fifo_spsc_recycle, _enqueue, _insert, _delete and _verify on real fields. Each
// call runs while the other side is stopped anywhere inside a call of its own.

module CkFifoQueue {
  import opened Base
  import opened CkFifo
  import opened CkFifoProof
  import Links

  const MAX_STEPS: nat := 100000

  class Queue {
    var head: Addr
    var tail: Addr
    var snapshot: Addr
    var garbage: Addr
    var entries: map<Addr, Entry>

    // Where the two sides stand, and the history.
    ghost var producer: Producer
    ghost var consumer: Consumer
    ghost var log: Log

    function Mem(): Memory
      reads this
    {
      Memory(head, tail, snapshot, garbage, entries)
    }

    ghost function Now(): State
      reads this
    {
      State(Mem(), producer, consumer, log)
    }

    ghost predicate Valid()
      reads this
    {
      Inv(Now())
    }

    /** The pairs in the queue, oldest first. */
    ghost function Pairs(): seq<Kv>
      reads this
      requires Valid()
    {
      Contents(Now())
    }

    /** ds_ck_fifo_spsc_init: `stub` is what the allocator hands out, if anything. */
    static method Init(stub: Addr) returns (r: Result, q: Queue?)
      ensures r == if stub == NULL then NoMem else Success
      ensures r == Success <==> q != null
      ensures q != null ==> fresh(q) && Initial(q.Now()) && q.Valid() && q.Pairs() == [] && q.head == stub
    {
      if stub == NULL {
        return NoMem, null;
      }
      q := new Queue.Fresh(stub);
      r := Success;
    }

    constructor Fresh(stub: Addr)
      requires stub != NULL
      ensures Valid() && Initial(Now()) && Pairs() == [] && head == stub
    {
      head, tail, snapshot, garbage := stub, stub, stub, stub;
      entries := map[stub := Entry(NULL, NULL, Kv(0, 0))];
      producer, consumer := Resting(Success), Waiting(NotFound, false, Kv(0, 0));
      log := Log([stub], [Kv(0, 0)], map[stub := 0], 0, 0, 0);
    }

    /** The code just did to memory what event e does; the rest of the state follows. */
    ghost method Follow(was: State, e: Event)
      requires Inv(was) && Mem() == Apply(was, e).mem
      modifies this`producer, this`consumer, this`log
      ensures Now() == Apply(was, e) && Valid()
    {
      KeepInv(was, e);
      var now := Apply(was, e);
      producer, consumer, log := now.producer, now.consumer, now.log;
    }

    /** Everything an insert leaves alone before it links. */
    twostate predicate QueueUnchanged()
      reads this
    {
      head == old(head) && consumer == old(consumer) && log.puts == old(log.puts) && log.head == old(log.head)
    }

    /** Takes the oldest entry behind head, if there is one. */
    method Recycle(ghost kv: Kv) returns (a: Addr)
      requires Valid() && producer == CkFifo.Recycle(kv)
      modifies this
      ensures Valid() && QueueUnchanged() && entries == old(entries)
      ensures a == NULL <==> old(garbage == head)
      ensures a == NULL ==> producer == Alloc(kv)
      ensures a != NULL ==> producer == Key(kv, a) && a == old(garbage)
    {
      CursorsDiffer(Now());
      ghost var s := Now();
      var same := snapshot == garbage;
      Follow(s, Produce);
      if same {
        s := Now();
        snapshot := head;
        Follow(s, Produce);
        if snapshot == garbage {
          return NULL;
        }
      }
      s := Now();
      a := garbage;
      garbage := Deref(Mem(), a).next;
      Follow(s, Produce);
    }

    method Enqueue(a: Addr, value: Addr, ghost kv: Kv)
      requires Valid() && producer == Payload(kv, a) && value == a
      modifies this
      ensures Valid() && producer == Resting(Success)
      ensures head == old(head) && consumer == old(consumer) && log.head == old(log.head)
      ensures log.puts == old(log.puts) + [kv] && |entries| == old(|entries|)
    {
      ghost var s := Now();
      SameSize(entries, a, entries[a].(value := value));
      entries := entries[a := entries[a].(value := value)];
      Follow(s, Produce);
      s := Now();
      SameSize(entries, a, entries[a].(next := NULL));
      entries := entries[a := entries[a].(next := NULL)];
      Follow(s, Produce);
      LinkBehindTail(a, kv);
    }

    method LinkBehindTail(a: Addr, ghost kv: Kv)
      requires Valid() && producer == Link(kv, a)
      modifies this
      ensures Valid() && producer == Resting(Success)
      ensures head == old(head) && consumer == old(consumer) && log.head == old(log.head)
      ensures log.puts == old(log.puts) + [kv] && |entries| == old(|entries|)
    {
      ghost var s := Now();
      assert EntryOk(Mem(), log, |log.chain| - 1);
      SameSize(entries, tail, entries[tail].(next := a));
      entries := entries[tail := entries[tail].(next := a)];
      Follow(s, Produce);
      s := Now();
      tail := a;
      Follow(s, Produce);
    }

    /** An entry to fill in: recycled if there is one behind head, else from the allocator. */
    method Obtain(kv: Kv, granted: Addr, junk: Entry) returns (a: Addr)
      requires Valid() && producer == CkFifo.Recycle(kv) && granted !in entries
      modifies this
      ensures Valid() && QueueUnchanged()
      ensures a == if old(garbage == head) then granted else old(garbage)
      ensures producer == if a == NULL then Resting(NoMem) else Key(kv, a)
      ensures |entries| == old(|entries|) + if a != NULL && old(garbage == head) then 1 else 0
    {
      a := Recycle(kv);
      if a == NULL {
        ghost var s := Now();
        a := granted;
        if a != NULL {
          OneMore(entries, a, junk);
          entries := entries[a := junk];
        }
        Follow(s, Grant(a, junk));
      }
    }

    /** Appends kv; the allocator's answer is used only when no entry can be recycled. */
    method Insert(kv: Kv, granted: Addr, junk: Entry) returns (r: Result)
      requires Valid() && producer.Resting? && granted !in entries
      modifies this
      ensures Valid() && producer == Resting(r) && head == old(head) && consumer == old(consumer)
      ensures r == if granted == NULL && old(garbage == head) then NoMem else Success
      ensures Pairs() == if r == Success then old(Pairs()) + [kv] else old(Pairs())
      ensures |entries| == old(|entries|) + if r == Success && old(garbage == head) then 1 else 0
    {
      CursorsDiffer(Now());
      Follow(Now(), CallInsert(kv));
      var a := Obtain(kv, granted, junk);
      if a == NULL {
        return NoMem;
      }
      Fill(a, kv);
      Enqueue(a, a, kv);
      r := Success;
    }

    /** Writes the pair into the entry in hand. */
    method Fill(a: Addr, kv: Kv)
      requires Valid() && producer == Key(kv, a)
      modifies this
      ensures Valid() && producer == Payload(kv, a) && QueueUnchanged() && |entries| == old(|entries|)
    {
      ghost var s := Now();
      SameSize(entries, a, entries[a].(kv := entries[a].kv.(key := kv.key)));
      entries := entries[a := entries[a].(kv := entries[a].kv.(key := kv.key))];
      Follow(s, Produce);
      s := Now();
      SameSize(entries, a, entries[a].(kv := entries[a].kv.(value := kv.value)));
      entries := entries[a := entries[a].(kv := entries[a].kv.(value := kv.value))];
      Follow(s, Produce);
    }

    method LoadSuccessor(ghost out: bool) returns (entry: Addr)
      requires Valid() && consumer == Head(out)
      modifies this
      ensures Valid() && producer == old(producer) && Mem() == old(Mem()) && log == old(log)
      ensures entry == NULL <==> Pairs() == []
      ensures consumer == if entry == NULL then Waiting(NotFound, out, Kv(0, 0)) else Pointer(out, entry)
    {
      ghost var s := Now();
      var h := head;
      Follow(s, Consume);
      s := Now();
      NoSuccessor(s);
      entry := Deref(Mem(), h).next;
      Follow(s, Consume);
    }

    /** Moves head on and hands over the pointer to the payload. */
    method Dequeue(ghost out: bool) returns (ok: bool, value: Addr)
      requires Valid() && consumer == Head(out)
      modifies this
      ensures Valid() && producer == old(producer) && entries == old(entries)
      ensures ok <==> old(Pairs()) != []
      ensures !ok ==> consumer == Waiting(NotFound, out, Kv(0, 0)) && Pairs() == old(Pairs())
      ensures ok ==> Pairs() == old(Pairs())[1..] && value == head != NULL && head in entries
      ensures ok ==> entries[value].kv == old(Pairs())[0]
      ensures ok ==> consumer == if out then ReadKey(value) else Waiting(Success, false, Kv(0, 0))
    {
      var entry := LoadSuccessor(out);
      if entry == NULL {
        return false, NULL;
      }
      ghost var s := Now();
      value := Deref(Mem(), entry).value;
      Follow(s, Consume);
      s := Now();
      FrontPair(s);
      head := entry;
      Follow(s, Consume);
      ok := true;
    }

    /** Removes the front pair. */
    method Delete(out: bool) returns (r: Result, pair: Kv)
      requires Valid() && consumer.Waiting?
      modifies this
      ensures Valid() && consumer == Waiting(r, out, pair) && producer == old(producer) && entries == old(entries)
      ensures r == if old(Pairs()) == [] then NotFound else Success
      ensures r == NotFound ==> Pairs() == old(Pairs())
      ensures r == Success ==> Pairs() == old(Pairs())[1..] && (out ==> pair == old(Pairs())[0])
    {
      pair := Kv(0, 0);
      ghost var s := Now();
      Follow(s, CallDelete(out));
      var ok, value := Dequeue(out);
      if !ok {
        return NotFound, pair;
      }
      if !out {
        return Success, pair;
      }
      s := Now();
      var key := entries[value].kv.key;
      Follow(s, Consume);
      s := Now();
      pair := Kv(key, entries[value].kv.value);
      Follow(s, Consume);
      r := Success;
    }

    /** Walks from head and succeeds if it reaches tail among the first 100000 entries; this holds of
        any memory, intact or not. */
    method Verify() returns (r: Result)
      ensures r == Success || r == Corrupt
      ensures r == Success <==>
                garbage != NULL && tail != NULL && Links.Meets(Nexts(Mem()), head, 100000, tail)
      ensures Valid() && !producer.Tail? ==> (r == Success <==> |Pairs()| < 100000)
    {
      if Valid() {
        VerdictIs(Now());
      }
      if head == NULL || tail == NULL || garbage == NULL {
        return Corrupt;
      }
      var cursor, i := head, 0;
      while i < MAX_STEPS
        invariant 0 <= i <= MAX_STEPS && cursor != NULL
        invariant Links.Meets(Nexts(Mem()), head, MAX_STEPS, tail)
             <==> Links.Meets(Nexts(Mem()), cursor, MAX_STEPS - i, tail)
      {
        if cursor == tail {
          return Success;
        }
        cursor := Deref(Mem(), cursor).next;
        if cursor == NULL {
          return Corrupt;
        }
        i := i + 1;
      }
      return Corrupt;
    }
  }

  function Nexts(m: Memory): Links.Heap { map a | a in m.entries :: m.entries[a].next }

  lemma OneMore(entries: map<Addr, Entry>, a: Addr, e: Entry)
    requires a !in entries
    ensures |entries[a := e]| == |entries| + 1
  {
    assert entries[a := e].Keys == entries.Keys + {a};
    assert |entries[a := e]| == |entries[a := e].Keys| && |entries| == |entries.Keys|;
  }

  /** Cursors are equal as pointers exactly when they stand at the same place. */
  lemma CursorsDiffer(s: State)
    requires Inv(s)
    ensures s.mem.garbage == s.mem.head <==> s.log.garbage == s.log.head
    ensures s.mem.garbage == s.mem.snapshot <==> s.log.garbage == s.log.snapshot
    ensures s.mem.garbage != NULL
  {
    assert EntryOk(s.mem, s.log, s.log.garbage) && EntryOk(s.mem, s.log, s.log.snapshot);
    assert EntryOk(s.mem, s.log, s.log.head);
  }

  lemma NoSuccessor(s: State)
    requires Inv(s) && s.consumer.Successor?
    ensures Deref(s.mem, s.consumer.head).next == NULL <==> Contents(s) == []
  {
    assert EntryOk(s.mem, s.log, s.log.head);
    if s.log.head + 1 < |s.log.chain| {
      assert EntryOk(s.mem, s.log, s.log.head + 1);
    }
  }

  lemma FrontPair(s: State)
    requires Inv(s) && s.consumer.Advance?
    ensures Contents(s) != [] && s.consumer.value == s.consumer.entry != NULL && s.consumer.entry in s.mem.entries
    ensures Deref(s.mem, s.consumer.entry).kv == Contents(s)[0] && s.log.puts[s.log.head + 2..] == Contents(s)[1..]
  {
    assert EntryOk(s.mem, s.log, s.log.head + 1);
  }

  /** The place of the tail pointer: it trails by one in the middle of an enqueue. */
  function TailAt(s: State): int { |s.log.chain| - if s.producer.Tail? then 2 else 1 }

  lemma {:induction false} ListFromHead(s: State, k: nat)
    requires Inv(s) && s.log.head + k < |s.log.chain|
    ensures Links.Nth(Nexts(s.mem), s.mem.head, k) == s.log.chain[s.log.head + k]
  {
    assert EntryOk(s.mem, s.log, s.log.head + k);
    if k > 0 {
      ListFromHead(s, k - 1);
      assert EntryOk(s.mem, s.log, s.log.head + k - 1);
    }
  }

  /** In every reachable state verify succeeds exactly when tail does not trail head and fewer than
      100000 pairs lie between them; at rest that is when the queue holds fewer than 100000 pairs. */
  lemma VerdictIs(s: State)
    requires Inv(s)
    ensures s.mem.garbage != NULL && s.mem.tail != NULL
    ensures Links.Meets(Nexts(s.mem), s.mem.head, 100000, s.mem.tail) <==>
              s.log.head <= TailAt(s) < s.log.head + 100000
    ensures !s.producer.Tail? ==> TailAt(s) - s.log.head == |Contents(s)|
    ensures TailAt(s) < s.log.head <==> s.producer.Tail? && Contents(s) == []
  {
    CursorsDiffer(s);
    var next, at := Nexts(s.mem), TailAt(s);
    assert EntryOk(s.mem, s.log, at);
    forall k | 0 <= k < |s.log.chain| - s.log.head
      ensures Links.Nth(next, s.mem.head, k) != NULL
      ensures Links.Nth(next, s.mem.head, k) == s.mem.tail <==> s.log.head + k == at
    {
      ListFromHead(s, k);
      assert EntryOk(s.mem, s.log, s.log.head + k);
    }
    if s.log.head <= at < s.log.head + MAX_STEPS {
      Links.MeetsAt(next, s.mem.head, MAX_STEPS, at - s.log.head);
    }
    if Links.Meets(next, s.mem.head, MAX_STEPS, s.mem.tail) {
      var k := Links.MeetsOnly(next, s.mem.head, MAX_STEPS, s.mem.tail);
      EndOfList(s);
      assert k < |s.log.chain| - s.log.head;
    }
  }

  lemma EndOfList(s: State)
    requires Inv(s)
    ensures Links.Nth(Nexts(s.mem), s.mem.head, |s.log.chain| - s.log.head) == NULL
  {
    var k := |s.log.chain| - s.log.head - 1;
    ListFromHead(s, k);
    assert EntryOk(s.mem, s.log, s.log.head + k);
  }
}
