// ds_io_uring_init, _insert, _pop and _verify on real fields. Each call runs while the other side is
// stopped anywhere inside a call of its own.

module IoUringRing {
  import opened Base
  import opened Words
  import opened SpscRing
  import opened SpscRingProof

  class Ring {
    var tail: nat        // prod.tail
    var head: nat        // cons.head
    var ringEntries: nat
    var ringMask: nat
    var sqFull: bool     // bit 0 of sq_flags, the only bit in use
    var entries: array<Kv>

    // The abstract machine this ring is a state of.
    ghost var s: State

    ghost function Mem(): Memory
      reads this, entries
    {
      Memory(IoUring, ringEntries, tail, head, sqFull, entries[..])
    }

    ghost predicate Valid()
      reads this, entries
    {
      s.mem == Mem() && Inv(s) && ringMask == ringEntries - 1
    }

    /** The pairs in the ring, oldest first. */
    ghost function Pairs(): seq<Kv>
      reads this
      requires Inv(s)
    {
      Contents(s)
    }

    constructor ()
    {
      entries := new Kv[0];
    }

    /** Accepts exactly the powers of two; granted tells whether the allocator has room. From 2^28 on the
        request comes to 0 bytes, which it never grants. */
    method Init(n: nat, granted: bool) returns (r: Result)
      requires n < TWO32
      modifies this
      ensures r == if !IsPow2(n) then Invalid else if granted && n < 0x1000_0000 then Success else NoMem
      ensures r == Success ==> Valid() && fresh(entries) && Initial(s) && ringEntries == n && Pairs() == []
      ensures r != Success ==> unchanged(this)
    {
      if n == 0 {
        return Invalid;
      }
      PowerOfTwoTest(n);
      if BitAnd(n, n - 1) != 0 {
        return Invalid;
      }
      SixteenTimes(n);
      var bytes := Request(n, KV_BYTES);
      if bytes == 0 || !granted {
        return NoMem;
      }
      entries := new Kv[n];
      ringEntries, ringMask := n, n - 1;
      tail, head, sqFull := 0, 0, false;
      s := State(Mem(), Resting(Success), Waiting(NotFound, false, Kv(0, 0)), [], 0);
      InitialInv(s);
      r := Success;
    }

    /** Appends kv, or refuses when all slots hold a pair; the flag says which it was. */
    method Insert(kv: Kv) returns (r: Result)
      requires Valid() && s.producer.Resting?
      modifies this, entries
      ensures Valid() && entries == old(entries) && s.consumer == old(s.consumer) && s.producer == Resting(r)
      ensures r == if |old(Pairs())| == ringEntries then Full else Success
      ensures Pairs() == if r == Success then old(Pairs()) + [kv] else old(Pairs())
      ensures sqFull <==> r == Full
    {
      InsertBegins(s, kv);
      s := Apply(Apply(s, CallInsert(kv)), Produce);
      var t := tail;
      var h := head;
      if Sub32(t, h) >= ringEntries {
        sqFull := true;
        s := Apply(s, Produce);
        return Full;
      }
      Store(kv, t);
      Publish(kv, t);
      r := Success;
    }

    method Publish(kv: Kv, t: nat)
      requires Valid() && s.producer == SpscRing.Publish(kv, t)
      modifies this`tail, this`sqFull, this`s
      ensures Valid() && s.consumer == old(s.consumer) && s.producer == Resting(Success) && !sqFull
      ensures s.puts == old(s.puts) + [kv] && s.taken == old(s.taken)
    {
      KeepProduce(s);
      tail := Inc32(t);
      s := Apply(s, Produce);
      sqFull := false;
      s := Apply(s, Produce);
    }

    method Store(kv: Kv, t: nat)
      requires Valid() && s.producer == Key(kv, t)
      modifies this`s, entries
      ensures Valid() && s.puts == old(s.puts) && s.taken == old(s.taken) && s.consumer == old(s.consumer)
      ensures s.producer == SpscRing.Publish(kv, t)
    {
      StoreKey(kv, t);
      StoreValue(kv, t);
    }

    method StoreKey(kv: Kv, t: nat)
      requires Valid() && s.producer == Key(kv, t)
      modifies this`s, entries
      ensures Valid() && s.puts == old(s.puts) && s.taken == old(s.taken) && s.consumer == old(s.consumer)
      ensures s.producer == Value(kv, t)
    {
      SlotIsMod(IoUring, ringEntries, |s.puts|);
      var i := BitAnd(t, ringMask);
      KeepProduce(s);
      entries[i] := entries[i].(key := kv.key);
      s := Apply(s, Produce);
      assert s.mem == Mem();
    }

    method StoreValue(kv: Kv, t: nat)
      requires Valid() && s.producer == Value(kv, t)
      modifies this`s, entries
      ensures Valid() && s.puts == old(s.puts) && s.taken == old(s.taken) && s.consumer == old(s.consumer)
      ensures s.producer == SpscRing.Publish(kv, t)
    {
      SlotIsMod(IoUring, ringEntries, |s.puts|);
      var i := BitAnd(t, ringMask);
      KeepProduce(s);
      entries[i] := entries[i].(value := kv.value);
      s := Apply(s, Produce);
      assert s.mem == Mem();
    }

    /** Removes the front pair. */
    method Pop(out: bool) returns (r: Result, pair: Kv)
      requires Valid() && s.consumer.Waiting?
      modifies this
      ensures Valid() && s.producer == old(s.producer) && s.consumer == Waiting(r, out, pair)
      ensures entries == old(entries) && entries[..] == old(entries[..])
      ensures r == if old(Pairs()) == [] then NotFound else Success
      ensures Pairs() == if r == Success then old(Pairs())[1..] else old(Pairs())
      ensures r == Success && out ==> pair == old(Pairs())[0]
    {
      PopBegins(s, out);
      s := Apply(Apply(s, CallPop(out)), Consume);
      pair := Kv(0, 0);
      var h := head;
      var t := tail;
      if h == t {
        return NotFound, pair;
      }
      if out {
        pair := Copy(h);
      }
      KeepConsume(s);
      head := Inc32(h);
      s := Apply(s, Consume);
      r := Success;
    }

    method Copy(h: nat) returns (pair: Kv)
      requires Valid() && s.consumer == ReadKey(h)
      modifies this`s
      ensures Valid() && s == old(s).(consumer := Release(true, h, pair)) && pair == Pairs()[0]
    {
      SlotIsMod(IoUring, ringEntries, s.taken);
      var i := BitAnd(h, ringMask);
      var key := entries[i].key;
      KeepConsume(s);
      s := Apply(s, Consume);
      var value := entries[i].value;
      KeepConsume(s);
      s := Apply(s, Consume);
      pair := Kv(key, value);
    }

    /** Succeeds exactly on fields that stand for some occupancy a ring may have. */
    method Verify() returns (r: Result)
      requires ringEntries < TWO32 && tail < TWO32 && head < TWO32
      ensures r == Success || r == Corrupt
      ensures r == Success <==>
                IsPow2(ringEntries) && ringMask == ringEntries - 1 && Stands(IoUring, ringEntries, tail, head)
      ensures Valid() ==> r == Success
    {
      if Valid() {
        ReachableStands(s);
      }
      if ringEntries == 0 {
        return Corrupt;
      }
      PowerOfTwoTest(ringEntries);
      if BitAnd(ringEntries, ringEntries - 1) != 0 {
        return Corrupt;
      }
      if ringMask != ringEntries - 1 {
        return Corrupt;
      }
      FreeRunningStands(ringEntries, tail, head);
      if Sub32(tail, head) > ringEntries {
        return Corrupt;
      }
      return Success;
    }
  }
}
