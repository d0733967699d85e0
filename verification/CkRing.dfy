// ds_ck_ring_spsc_init, _insert, _delete, _size, _is_empty, _is_full and _verify on real fields. Each
// call runs while the other side is stopped anywhere inside a call of its own.

module CkRing {
  import opened Base
  import opened Words
  import opened SpscRing
  import opened SpscRingProof

  /** The source's test for the capacities it accepts. */
  predicate IsPowerOfTwo(value: nat) { value >= 2 && BitAnd(value, value - 1) == 0 }

  class Ring {
    var capacity: nat
    var mask: nat
    var consHead: nat           // c_head
    var prodTail: nat           // p_tail
    var slots: array?<Kv>

    // The abstract machine this ring is a state of.
    ghost var s: State

    ghost function Mem(): Memory
      reads this, slots
    {
      Memory(Ck, capacity, prodTail, consHead, false, if slots == null then [] else slots[..])
    }

    ghost predicate Valid()
      reads this, slots
    {
      s.mem == Mem() && Inv(s) && slots != null && mask == capacity - 1
    }

    /** The pairs in the ring, oldest first. */
    ghost function Pairs(): seq<Kv>
      reads this
      requires Inv(s)
    {
      Contents(s)
    }

    constructor ()
      ensures slots == null
    {
      slots := null;
    }

    /** Accepts exactly the powers of two from 2 on; granted tells whether the allocator has room. From 2^28 on
        the request comes to 0 bytes, which it never grants. */
    method Init(n: nat, granted: bool) returns (r: Result)
      requires n < TWO32
      modifies this
      ensures r == if !(2 <= n && IsPow2(n)) then Invalid else if granted && n < 0x1000_0000 then Success else NoMem
      ensures r == Success ==> Valid() && fresh(slots) && Initial(s) && capacity == n && Pairs() == []
      ensures r != Success ==> unchanged(this)
    {
      if n >= 2 {
        PowerOfTwoTest(n);
      }
      if !IsPowerOfTwo(n) {
        return Invalid;
      }
      SixteenTimes(n);
      var bytes := Request(n, KV_BYTES);
      if bytes == 0 || !granted {
        return NoMem;
      }
      slots := new Kv[n];
      capacity, mask, consHead, prodTail := n, n - 1, 0, 0;
      s := State(Mem(), Resting(Success), Waiting(NotFound, false, Kv(0, 0)), [], 0);
      InitialInv(s);
      r := Success;
    }

    /** Appends kv, or refuses when capacity - 1 slots hold a pair. */
    method Insert(kv: Kv) returns (r: Result)
      requires slots != null ==> Valid() && s.producer.Resting?
      modifies this, slots
      ensures r == if old(slots) == null then Invalid else if |old(Pairs())| == old(capacity) - 1 then Full else Success
      ensures r == Invalid ==> unchanged(this)
      ensures r != Invalid ==> Valid() && slots == old(slots)
      ensures r != Invalid ==> s.consumer == old(s.consumer) && s.producer == Resting(r)
      ensures r == Full ==> Pairs() == old(Pairs())
      ensures r == Success ==> Pairs() == old(Pairs()) + [kv]
    {
      if slots == null {
        return Invalid;
      }
      InsertBegins(s, kv);
      s := Apply(Apply(s, CallInsert(kv)), Produce);
      var consumer := consHead;
      var producer := prodTail;
      var next := BitAnd(Inc32(producer), mask);
      if next == consumer {
        return Full;
      }
      Store(kv, producer);
      KeepProduce(s);
      prodTail := next;
      s := Apply(s, Produce);
      r := Success;
    }

    method Store(kv: Kv, i: nat)
      requires Valid() && s.producer == Key(kv, i)
      modifies this`s, slots
      ensures Valid() && s.puts == old(s.puts) && s.taken == old(s.taken) && s.consumer == old(s.consumer)
      ensures s.producer == Publish(kv, i)
    {
      SlotIsMod(Ck, capacity, |s.puts|);
      KeepProduce(s);
      slots[i] := slots[i].(key := kv.key);
      s := Apply(s, Produce);
      assert s.mem == Mem();
      KeepProduce(s);
      slots[i] := slots[i].(value := kv.value);
      s := Apply(s, Produce);
      assert s.mem == Mem();
    }

    /** Removes the front pair. */
    method Delete(out: bool) returns (r: Result, pair: Kv)
      requires slots != null ==> Valid() && s.consumer.Waiting?
      modifies this
      ensures slots == old(slots)
      ensures r == if slots == null then Invalid else if old(Pairs()) == [] then NotFound else Success
      ensures r == Invalid ==> unchanged(this)
      ensures r != Invalid ==> Valid() && s.producer == old(s.producer) && s.consumer == Waiting(r, out, pair)
      ensures r == NotFound ==> Pairs() == []
      ensures r == Success ==> Pairs() == old(Pairs())[1..] && (out ==> pair == old(Pairs())[0])
    {
      pair := Kv(0, 0);
      if slots == null {
        return Invalid, pair;
      }
      PopBegins(s, out);
      s := Apply(Apply(s, CallPop(out)), Consume);
      var consumer := consHead;
      var producer := prodTail;
      if consumer == producer {
        return NotFound, pair;
      }
      if out {
        pair := Copy(consumer);
      }
      KeepConsume(s);
      var next := BitAnd(Inc32(consumer), mask);
      consHead := next;
      s := Apply(s, Consume);
      r := Success;
    }

    method Copy(i: nat) returns (pair: Kv)
      requires Valid() && s.consumer == ReadKey(i)
      modifies this`s
      ensures Valid() && s == old(s).(consumer := Release(true, i, pair)) && pair == Pairs()[0]
    {
      SlotIsMod(Ck, capacity, s.taken);
      var key := slots[i].key;
      KeepConsume(s);
      s := Apply(s, Consume);
      var value := slots[i].value;
      KeepConsume(s);
      s := Apply(s, Consume);
      pair := Kv(key, value);
    }

    /** The number of pairs. */
    method Size() returns (n: nat)
      requires Valid()
      ensures n == |Pairs()|
    {
      SizeIsExact(capacity, |s.puts|, s.taken);
      n := BitAnd(Sub32(prodTail, consHead), mask);
    }

    method IsEmpty() returns (b: bool)
      requires Valid()
      ensures b <==> Pairs() == []
    {
      TestsAreExact(Ck, capacity, |s.puts|, s.taken);
      b := consHead == prodTail;
    }

    method IsFullNow() returns (b: bool)
      requires Valid()
      ensures b <==> |Pairs()| == capacity - 1
    {
      TestsAreExact(Ck, capacity, |s.puts|, s.taken);
      var next := BitAnd(Inc32(prodTail), mask);
      b := next == consHead;
    }

    /** Succeeds exactly on fields that stand for some occupancy a ring may have. */
    method Verify() returns (r: Result)
      requires capacity < TWO32 && consHead < TWO32 && prodTail < TWO32
      ensures r == Success || r == Corrupt
      ensures r == Success <==>
                slots != null && Legal(Ck, capacity) && mask == capacity - 1 && Stands(Ck, capacity, prodTail, consHead)
      ensures Valid() ==> r == Success
    {
      if Valid() {
        ReachableStands(s);
      }
      if slots == null {
        return Corrupt;
      }
      if capacity >= 2 {
        PowerOfTwoTest(capacity);
      }
      if !IsPowerOfTwo(capacity) {
        return Corrupt;
      }
      if mask != capacity - 1 {
        return Corrupt;
      }
      WrappedStands(Ck, capacity, prodTail, consHead);
      MaskKeeps(consHead, capacity);
      MaskKeeps(prodTail, capacity);
      if BitAnd(consHead, mask) != consHead {
        return Corrupt;
      }
      if BitAnd(prodTail, mask) != prodTail {
        return Corrupt;
      }
      var size := BitAnd(Sub32(prodTail, consHead), mask);
      MaskIsMod(Sub32(prodTail, consHead), capacity);
      if size > mask {
        return Corrupt;
      }
      return Success;
    }
  }

  lemma MaskKeeps(i: nat, n: nat)
    requires IsPow2(n)
    ensures BitAnd(i, n - 1) == i <==> i < n
  {
    MaskIsMod(i, n);
    if i < n {
      DivModUnique(i, n, 0, i);
    }
  }

  /** The masked difference of two indices is the distance of their positions. */
  lemma SizeIsExact(n: nat, t: nat, h: nat)
    requires Legal(Ck, n) && h <= t < h + n
    ensures BitAnd(Sub32(Index(Ck, n, t), Index(Ck, n, h)), n - 1) == t - h
  {
    var a, b := t % n, h % n;
    var laps := t / n - h / n;
    assert a - b == -laps * n + (t - h);
    DivModUnique(a - b, n, -laps, t - h);
    Pow2Of32();
    Pow2Divides(n, TWO32);
    ModOfMod(a - b, TWO32, n);
    assert Sub32(a, b) == (a - b) % TWO32;
    MaskIsMod(Sub32(a, b), n);
  }
}
