// ds_spsc_init, _insert, _delete, _size, _is_empty, _is_full and _verify on real fields. Each call
// runs while the other side is stopped anywhere inside a call of its own.

module FollyRing {
  import opened Base
  import opened Words
  import opened SpscRing
  import opened SpscRingProof

  const TWO31: nat := 0x8000_0000

  /** A 32-bit word converted to int. */
  function Int32(x: nat): int
    requires x < TWO32
  {
    if x < TWO31 then x else x - TWO32
  }

  /** Whether the signed difference of two indices is defined. */
  predicate NoOverflow(w: nat, r: nat)
    requires w < TWO32 && r < TWO32
  {
    var d := Int32(w) - Int32(r);
    0 - TWO31 <= d < TWO31
  }

  /** Whether both indices convert to int with the same sign. */
  predicate SameHalf(w: nat, r: nat) { w < TWO31 <==> r < TWO31 }

  /** How many slots lie from index r up to index w. */
  function Between(n: nat, w: nat, r: nat): int { if r <= w then w - r else w - r + n }

  /** The size as the source computes it, in signed arithmetic. */
  function SizeGuess(n: nat, w: nat, r: nat): int
    requires w < TWO32 && r < TWO32
  {
    var d := Int32(w) - Int32(r);
    if d < 0 then Int32(Wrap32(d + n)) else d
  }

  lemma GuessIs(n: nat, w: nat, r: nat)
    requires n < TWO32 && w < n && r < n && NoOverflow(w, r)
    ensures Wrap32(SizeGuess(n, w, r)) == Between(n, w, r) <==> SameHalf(w, r)
    ensures !SameHalf(w, r) ==>
              Wrap32(SizeGuess(n, w, r)) == Wrap32(if r < w then Between(n, w, r) + n else Between(n, w, r) - n)
  {
  }

  /** The answer of the source's verify. */
  function Verdict(n: nat, w: nat, r: nat): Result
    requires 0 <= n < TWO32 && w < TWO32 && r < TWO32
  {
    if r >= n || w >= n then Corrupt
    else if SizeGuess(n, w, r) > Int32(n - 1) then Corrupt
    else Success
  }

  /** When it accepts indices that are in bounds. */
  predicate Passes(n: nat, w: nat, r: nat) {
    || n <= TWO31
    || (SameHalf(w, r) && TWO31 <= Between(n, w, r))
    || (r < TWO31 <= w && TWO32 + TWO31 <= n + w - r)
  }

  lemma VerdictIs(n: nat, w: nat, r: nat)
    requires n < TWO32 && w < TWO32 && r < TWO32 && NoOverflow(w, r)
    ensures Verdict(n, w, r) == Success <==> r < n && w < n && Passes(n, w, r)
  {
  }

  class Ring {
    var writeIdx: nat
    var readIdx: nat
    var size: nat
    var records: array<Kv>

    // The abstract machine this ring is a state of.
    ghost var s: State

    ghost function Mem(): Memory
      reads this, records
    {
      Memory(Folly, size, writeIdx, readIdx, false, records[..])
    }

    ghost predicate Valid()
      reads this, records
    {
      s.mem == Mem() && Inv(s)
    }

    /** The pairs in the ring, oldest first. */
    ghost function Pairs(): seq<Kv>
      reads this
      requires Inv(s)
    {
      Contents(s)
    }

    constructor ()
    {
      records := new Kv[0];
    }

    /** Granted tells whether the allocator has room. The array it gives has the slots that the request comes to,
        so the ring is sound exactly when it was not cut down. */
    method Init(n: nat, granted: bool) returns (r: Result)
      requires n < TWO32
      modifies this
      ensures r == if n < 2 then Invalid else if granted && Request(n, KV_BYTES) != 0 then Success else NoMem
      ensures r == Success ==>
                && size == n && readIdx == writeIdx == 0 && fresh(records)
                && records.Length == Request(n, KV_BYTES) / KV_BYTES
                && (Valid() <==> n < 0x1000_0000)
      ensures r == Success && n < 0x1000_0000 ==> Initial(s) && Pairs() == []
      ensures r != Success ==> unchanged(this)
    {
      if n < 2 {
        return Invalid;
      }
      var bytes := Request(n, KV_BYTES);
      if bytes == 0 || !granted {
        return NoMem;
      }
      records := new Kv[bytes / KV_BYTES];
      size, readIdx, writeIdx := n, 0, 0;
      s := State(Mem(), Resting(Success), Waiting(NotFound, false, Kv(0, 0)), [], 0);
      if n < 0x1000_0000 {
        InitialInv(s);
      } else {
        assert records.Length < n;
      }
      r := Success;
    }

    /** Appends kv, or refuses when size - 1 slots hold a pair. */
    method Insert(kv: Kv) returns (r: Result)
      requires Valid() && s.producer.Resting?
      modifies this, records
      ensures Valid() && records == old(records) && s.consumer == old(s.consumer) && s.producer == Resting(r)
      ensures r == if |old(Pairs())| == size - 1 then Full else Success
      ensures Pairs() == if r == Success then old(Pairs()) + [kv] else old(Pairs())
    {
      InsertBegins(s, kv);
      s := Apply(Apply(s, CallInsert(kv)), Produce);
      var currentWrite := writeIdx;
      var nextRecord := Inc32(currentWrite);
      if nextRecord >= size {
        nextRecord := 0;
      }
      var currentRead := readIdx;
      if nextRecord != currentRead {
        Store(kv, currentWrite);
        KeepProduce(s);
        writeIdx := nextRecord;
        s := Apply(s, Produce);
        return Success;
      }
      return Full;
    }

    method Store(kv: Kv, i: nat)
      requires Valid() && s.producer == Key(kv, i)
      modifies this`s, records
      ensures Valid() && s.puts == old(s.puts) && s.taken == old(s.taken) && s.consumer == old(s.consumer)
      ensures s.producer == Publish(kv, i)
    {
      SlotIsMod(Folly, size, |s.puts|);
      KeepProduce(s);
      records[i] := records[i].(key := kv.key);
      s := Apply(s, Produce);
      assert s.mem == Mem();
      KeepProduce(s);
      records[i] := records[i].(value := kv.value);
      s := Apply(s, Produce);
      assert s.mem == Mem();
    }

    /** Removes the front pair. */
    method Delete(out: bool) returns (r: Result, pair: Kv)
      requires Valid() && s.consumer.Waiting?
      modifies this
      ensures Valid() && s.producer == old(s.producer) && s.consumer == Waiting(r, out, pair)
      ensures records == old(records) && records[..] == old(records[..])
      ensures r == if old(Pairs()) == [] then NotFound else Success
      ensures Pairs() == if r == Success then old(Pairs())[1..] else old(Pairs())
      ensures r == Success && out ==> pair == old(Pairs())[0]
    {
      PopBegins(s, out);
      s := Apply(Apply(s, CallPop(out)), Consume);
      pair := Kv(0, 0);
      var currentRead := readIdx;
      var currentWrite := writeIdx;
      if currentRead == currentWrite {
        return NotFound, pair;
      }
      if out {
        pair := Copy(currentRead);
      }
      var nextRecord := Inc32(currentRead);
      if nextRecord >= size {
        nextRecord := 0;
      }
      KeepConsume(s);
      readIdx := nextRecord;
      s := Apply(s, Consume);
      r := Success;
    }

    method Copy(i: nat) returns (pair: Kv)
      requires Valid() && s.consumer == ReadKey(i)
      modifies this`s
      ensures Valid() && s == old(s).(consumer := Release(true, i, pair)) && pair == Pairs()[0]
    {
      SlotIsMod(Folly, size, s.taken);
      var key := records[i].key;
      KeepConsume(s);
      s := Apply(s, Consume);
      var value := records[i].value;
      KeepConsume(s);
      s := Apply(s, Consume);
      pair := Kv(key, value);
    }

    /** The number of pairs, exactly when both indices convert to int with the same sign. */
    method Size() returns (n: nat)
      requires Valid() && NoOverflow(writeIdx, readIdx)
      ensures n == |Pairs()| <==> SameHalf(writeIdx, readIdx)
      ensures !SameHalf(writeIdx, readIdx) ==>
                n == Wrap32(if readIdx < writeIdx then |Pairs()| + size else |Pairs()| - size)
    {
      Distance(size, |s.puts|, s.taken);
      GuessIs(size, writeIdx, readIdx);
      hide Inv, Wrap32, SizeGuess, SameHalf;
      n := Wrap32(SizeGuess(size, writeIdx, readIdx));
    }

    method IsEmpty() returns (b: bool)
      requires Valid()
      ensures b <==> Pairs() == []
    {
      TestsAreExact(Folly, size, |s.puts|, s.taken);
      b := readIdx == writeIdx;
    }

    method IsFullNow() returns (b: bool)
      requires Valid()
      ensures b <==> |Pairs()| == size - 1
    {
      TestsAreExact(Folly, size, |s.puts|, s.taken);
      var nextWrite := Inc32(writeIdx);
      if nextWrite >= size {
        nextWrite := 0;
      }
      b := nextWrite == readIdx;
    }

    /** Checks the indices and, up to 2^31 slots, nothing else; in a larger ring the conversions to int
        make it reject every occupancy below 2^31, and some others. */
    method Verify() returns (r: Result)
      requires size < TWO32 && readIdx < TWO32 && writeIdx < TWO32 && NoOverflow(writeIdx, readIdx)
      ensures r == Verdict(size, writeIdx, readIdx) && r in {Success, Corrupt}
      ensures r == Success <==> readIdx < size && writeIdx < size && Passes(size, writeIdx, readIdx)
      ensures Valid() && size <= TWO31 ==> r == Success
      ensures Valid() && TWO31 < size && |Pairs()| < TWO31 ==> r == Corrupt
    {
      VerdictIs(size, writeIdx, readIdx);
      if Valid() {
        if size <= TWO31 {
          SmallRing(s);
        } else if |Pairs()| < TWO31 {
          LargeRing(s);
        }
      }
      if readIdx >= size || writeIdx >= size {
        return Corrupt;
      }
      var sizeGuess := SizeGuess(size, writeIdx, readIdx);
      if sizeGuess > Int32(size - 1) {
        return Corrupt;
      }
      return Success;
    }
  }

  lemma Distance(n: nat, t: nat, h: nat)
    requires 0 < n && h <= t < h + n
    ensures Between(n, t % n, h % n) == t - h
  {
    var laps := t / n - h / n;
    assert t - h == laps * n + (t % n - h % n);
    Magnitude(laps, n);
    Magnitude(laps - 1, n);
    assert laps * n == (laps - 1) * n + n;
  }

  /** In a ring of at most 2^31 slots all indices have the same sign and no difference overflows; verify
      succeeds in every reachable state. */
  lemma SmallRing(s: State)
    requires Inv(s) && s.mem.kind.Folly? && s.mem.n <= TWO31
    ensures s.mem.tail < s.mem.n && s.mem.head < s.mem.n
    ensures NoOverflow(s.mem.tail, s.mem.head) && SameHalf(s.mem.tail, s.mem.head)
    ensures Verdict(s.mem.n, s.mem.tail, s.mem.head) == Success
  {
  }

  /** On the indices alone, since no ring of that size gets its array: a reachable ring of more than 2^31
      slots that holds fewer than 2^31 pairs fails its own check. */
  lemma LargeRing(s: State)
    requires Inv(s) && s.mem.kind.Folly? && TWO31 < s.mem.n && |Contents(s)| < TWO31
    requires s.mem.tail < TWO32 && s.mem.head < TWO32 && NoOverflow(s.mem.tail, s.mem.head)
    ensures Verdict(s.mem.n, s.mem.tail, s.mem.head) == Corrupt
  {
    Distance(s.mem.n, |s.puts|, s.taken);
    VerdictIs(s.mem.n, s.mem.tail, s.mem.head);
  }

  // ---- Rings on which the checks go wrong: the second is one of indices without their slots ----

  /** A ring of 2^31 + 1 slots is rejected as soon as init has finished. */
  lemma FreshLargeRingFails(s: State)
    requires Initial(s) && s.mem.kind.Folly? && s.mem.n == TWO31 + 1
    ensures Verdict(s.mem.n, s.mem.tail, s.mem.head) == Corrupt
  {
  }

  /** k calls of insert, one after the other. */
  function Fill(k: nat, kv: Kv): seq<Event> { if k == 0 then [] else AndInsert(Fill(k - 1, kv), kv) }

  function AndInsert(es: seq<Event>, kv: Kv): seq<Event> {
    es + [CallInsert(kv)] + [Produce] + [Produce] + [Produce] + [Produce]
  }

  /** The ring holds k pairs, none of which was ever taken, and the producer is idle. */
  predicate Holds(s: State, k: nat) { s.producer.Resting? && |s.puts| == k && s.taken == 0 }

  lemma RunThen(s: State, es: seq<Event>, e: Event)
    requires Inv(s)
    ensures Run(s, es + [e]) == Apply(Run(s, es), e)
  {
    assert (es + [e])[..|es|] == es;
  }

  lemma OneInsert(s: State, kv: Kv)
    requires Inv(s) && s.mem.kind.Folly? && s.producer.Resting? && |Contents(s)| < s.mem.n - 1
    ensures var a := Apply(s, CallInsert(kv));
            var b := ProducerStep(a);
            && Inv(a) && Inv(b)
            && var c := ProducerStep(b);
               && Inv(c)
               && var d := ProducerStep(c);
                  Inv(d) && ProducerStep(d).producer.Resting? && ProducerStep(d).puts == s.puts + [kv]
                  && ProducerStep(d).taken == s.taken
  {
    var a := Apply(s, CallInsert(kv));
    InsertBegins(s, kv);
    var b := ProducerStep(a);
    KeepProduce(b);
    KeepProduce(ProducerStep(b));
  }

  lemma {:induction false} Filled(s: State, k: nat, kv: Kv)
    requires Initial(s) && s.mem.kind.Folly? && k < s.mem.n
    ensures Inv(s)
    ensures Holds(Run(s, Fill(k, kv)), k)
  {
    InitialInv(s);
    if k > 0 {
      Filled(s, k - 1, kv);
      OneMore(s, Fill(k - 1, kv), kv, k - 1);
    }
  }

  lemma OneMore(s: State, es: seq<Event>, kv: Kv, k: nat)
    requires Inv(s) && s.mem.kind.Folly? && Holds(Run(s, es), k) && k + 1 < s.mem.n
    ensures Holds(Run(s, AndInsert(es, kv)), k + 1)
  {
    OneInsert(Run(s, es), kv);
    var es1 := es + [CallInsert(kv)];
    var es2 := es1 + [Produce];
    var es3 := es2 + [Produce];
    var es4 := es3 + [Produce];
    RunThen(s, es, CallInsert(kv));
    RunThen(s, es1, Produce);
    RunThen(s, es2, Produce);
    RunThen(s, es3, Produce);
    RunThen(s, es4, Produce);
  }

  /** On the indices alone, like LargeRing: a ring of 2^31 + 2 slots that has been filled with 2^31 pairs
      reports a size of 2. */
  lemma FullerRingMiscounts(s: State, kv: Kv)
    requires Initial(s) && s.mem.kind.Folly? && s.mem.n == TWO31 + 2
    ensures Inv(s)
    ensures var r := Run(s, Fill(TWO31, kv));
            && |Contents(r)| == TWO31 && r.mem.tail == TWO31 && r.mem.head == 0
            && NoOverflow(r.mem.tail, r.mem.head)
            && Wrap32(SizeGuess(r.mem.n, r.mem.tail, r.mem.head)) == 2
  {
    Filled(s, TWO31, kv);
    DivModUnique(TWO31, TWO31 + 2, 0, TWO31);
    DivModUnique(0, TWO31 + 2, 0, 0);
  }
}
