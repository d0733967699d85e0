// The code of ds_vyukhov_init, ds_vyukhov_insert, ds_vyukhov_pop and ds_vyukhov_verify on real
// fields and a real array, with other threads running between any two accesses of a call.

module VyukovQueue {
  import opened Base
  import opened Calls
  import opened Words
  import opened Vyukov
  import opened VyukovProof

  /** Room for k more claims before positions come near the sign bit. */
  predicate RoomFor(m: Memory, k: nat) { m.enqueuePos + k + Capacity(m) < TWO63 }

  /** The events of threads other than t, as long as positions stay clear of the sign bit. */
  function OthersRun(s: State, t: nat, es: seq<Event>): (r: State)
    requires Inv(s) && t < |s.threads|
    ensures Inv(r) && |r.threads| == |s.threads| && r.threads[t] == s.threads[t]
    ensures r.mem.mask == s.mem.mask
    ensures s.mem.enqueuePos <= r.mem.enqueuePos && s.mem.dequeuePos <= r.mem.dequeuePos
    ensures s.log.puts <= r.log.puts
    ensures r.mem.enqueuePos == s.mem.enqueuePos || RoomFor(r.mem, 2)
  {
    if es == [] then s else
      var r := OthersRun(s, t, es[..|es| - 1]);
      var e := es[|es| - 1];
      if e.t == t || !RoomFor(r.mem, 3) then r else
        OtherStep(r, t, e);
        Apply(r, e)
  }

  lemma PutsGrow(s: State, e: Event)
    requires Shape(s.mem)
    ensures s.log.puts <= Apply(s, e).log.puts
  {
    if Effect(s, e).None? {
      QuietStep(s, e);
    }
  }

  lemma OtherStep(s: State, t: nat, e: Event)
    requires Inv(s) && t < |s.threads| && e.t != t && RoomFor(s.mem, 3)
    ensures var r := Apply(s, e);
            && Inv(r) && r.threads[t] == s.threads[t] && RoomFor(r.mem, 2)
            && s.mem.enqueuePos <= r.mem.enqueuePos && s.mem.dequeuePos <= r.mem.dequeuePos
            && s.log.puts <= r.log.puts
  {
    KeepInv(s, e);
    CountersGrow(s, e);
    PutsGrow(s, e);
  }

  class Queue {
    var enqueuePos: nat
    var dequeuePos: nat
    var mask: nat
    var count: nat
    var buffer: array<Cell>

    // The rest of the system: where each thread stands, and the history.
    var threads: seq<Pc>
    var log: Log

    function Mem(): Memory
      reads this, buffer
    {
      Memory(enqueuePos, dequeuePos, mask, buffer[..], count)
    }

    function Now(): State
      reads this, buffer
    {
      State(Mem(), threads, log)
    }

    ghost predicate Valid()
      reads this, buffer
    {
      Inv(Now()) && Headroom(Mem())
    }

    /** The pairs in the queue, oldest first. */
    ghost function Pairs(): seq<Kv>
      reads this, buffer
      requires Valid()
    {
      Contents(Now())
    }

    /** Thread t stands at pc; room for two more claims is not used up. */
    twostate predicate Moved(t: nat, pc: Pc)
      reads this, buffer
    {
      && Valid() && |threads| == old(|threads|) && t < |threads| && threads[t] == pc
      && buffer == old(buffer) && mask == old(mask)
      && old(enqueuePos) <= enqueuePos && old(dequeuePos) <= dequeuePos && old(log.puts) <= log.puts
      && (enqueuePos == old(enqueuePos) || RoomFor(Mem(), 2))
    }

    /** Nothing happened but that thread t moved on. */
    twostate predicate Still(t: nat)
      reads this, buffer
      requires t < |threads| == old(|threads|)
    {
      && log.puts == old(log.puts) && dequeuePos == old(dequeuePos)
      && (forall u :: 0 <= u < |threads| && u != t ==> threads[u] == old(threads[u]))
    }

    method Interfere(t: nat, es: seq<Event>)
      requires Valid() && t < |threads|
      modifies this, buffer
      ensures Moved(t, old(threads[t]))
      ensures es == [] ==> Now() == old(Now())
    {
      var next := OthersRun(Now(), t, es);
      enqueuePos, dequeuePos, count := next.mem.enqueuePos, next.mem.dequeuePos, next.mem.count;
      forall i | 0 <= i < buffer.Length {
        buffer[i] := next.mem.cells[i];
      }
      threads, log := next.threads, next.log;
      assert buffer[..] == next.mem.cells;
    }

    // ---- The accesses of insert ----

    method LoadEnqueue(t: nat, others: seq<Event>) returns (pos: nat)
      requires Valid() && t < |threads| && (threads[t].InsStart? || threads[t].InsReload?)
      modifies this, buffer
      ensures Moved(t, var pc := old(threads[t]);
                if pc.InsStart? then InsSeq(pc.kv, pos, 0, pos)
                else if pc.tries < MAX_RETRIES then InsSeq(pc.kv, pos, pc.tries, pc.first)
                else Inserted(Busy, pc.first, pc.kv))
      ensures others == [] ==> Still(t)
      ensures old(enqueuePos) <= pos
    {
      Interfere(t, others);
      var next := Apply(Now(), Tick(t));
      KeepInv(Now(), Tick(t));
      pos := enqueuePos;
      threads, log := next.threads, next.log;
      assert Now() == next;
    }

    method LoadForInsert(t: nat, pos: nat, others: seq<Event>) returns (dif: int)
      requires Valid() && t < |threads| && threads[t].InsSeq? && threads[t].pos == pos
      modifies this, buffer
      ensures Moved(t, var pc := old(threads[t]);
                if dif == 0 then InsCas(pc.kv, pos, pc.tries, pc.first)
                else if dif < 0 then Inserted(NoMem, pos, pc.kv)
                else InsReload(pc.kv, pc.tries + 1, pc.first))
      ensures others == [] ==> Still(t)
      ensures dif < 0 ==> FullHere(Now(), pos)
    {
      Interfere(t, others);
      var next := Apply(Now(), Tick(t));
      KeepInv(Now(), Tick(t));
      SlotIsMask(Mem(), pos);
      RefusedHere(Now(), t);
      dif := Signed64(buffer[BitAnd(pos, mask)].sequence) - Signed64(pos);
      threads, log := next.threads, next.log;
      assert Now() == next;
    }

    method ClaimEnqueue(t: nat, pos: nat, others: seq<Event>) returns (claimed: bool)
      requires Valid() && t < |threads| && threads[t].InsCas? && threads[t].pos == pos
      requires RoomFor(Mem(), 1)
      modifies this, buffer
      ensures !claimed ==> Moved(t, var pc := old(threads[t]); InsReload(pc.kv, pc.tries + 1, pc.first))
      ensures claimed ==> Valid() && |threads| == old(|threads|) && buffer == old(buffer) && mask == old(mask)
      ensures claimed ==> threads[t] == InsKey(old(threads[t].kv), pos)
      ensures claimed ==> old(dequeuePos) <= dequeuePos && old(log.puts) <= log.puts
      ensures others == [] && claimed ==>
                Appended(t, old(threads[t].kv))
      ensures others == [] && !claimed ==> Still(t)
    {
      Interfere(t, others);
      var next := Apply(Now(), Tick(t));
      KeepInv(Now(), Tick(t));
      claimed := enqueuePos == pos;
      if claimed {
        enqueuePos := Add64(pos, 1);
      }
      threads, log := next.threads, next.log;
      assert Now() == next;
    }

    method StoreKey(t: nat, kv: Kv, pos: nat, others: seq<Event>)
      requires Valid() && t < |threads| && threads[t] == InsKey(kv, pos)
      modifies this, buffer
      ensures Moved(t, InsValue(kv, pos))
      ensures others == [] ==> Still(t)
    {
      Interfere(t, others);
      var next := Apply(Now(), Tick(t));
      KeepInv(Now(), Tick(t));
      SlotIsMask(Mem(), pos);
      var i := BitAnd(pos, mask);
      buffer[i] := buffer[i].(key := kv.key);
      threads, log := next.threads, next.log;
      assert Now() == next;
    }

    method StoreValue(t: nat, kv: Kv, pos: nat, others: seq<Event>)
      requires Valid() && t < |threads| && threads[t] == InsValue(kv, pos)
      modifies this, buffer
      ensures Moved(t, InsPublish(kv, pos))
      ensures others == [] ==> Still(t)
    {
      Interfere(t, others);
      var next := Apply(Now(), Tick(t));
      KeepInv(Now(), Tick(t));
      SlotIsMask(Mem(), pos);
      var i := BitAnd(pos, mask);
      buffer[i] := buffer[i].(value := kv.value);
      threads, log := next.threads, next.log;
      assert Now() == next;
    }

    method Publish(t: nat, kv: Kv, pos: nat, others: seq<Event>)
      requires Valid() && t < |threads| && threads[t] == InsPublish(kv, pos)
      modifies this, buffer
      ensures Moved(t, InsCount(kv, pos))
      ensures others == [] ==> Still(t)
    {
      Interfere(t, others);
      var next := Apply(Now(), Tick(t));
      KeepInv(Now(), Tick(t));
      SlotIsMask(Mem(), pos);
      var i := BitAnd(pos, mask);
      buffer[i] := buffer[i].(sequence := Add64(pos, 1));
      threads, log := next.threads, next.log;
      assert Now() == next;
    }

    method CountUp(t: nat, kv: Kv, pos: nat, others: seq<Event>)
      requires Valid() && t < |threads| && threads[t] == InsCount(kv, pos)
      modifies this, buffer
      ensures Moved(t, Inserted(Success, pos, kv))
      ensures others == [] ==> Still(t)
    {
      Interfere(t, others);
      var next := Apply(Now(), Tick(t));
      KeepInv(Now(), Tick(t));
      count := Add64(count, 1);
      threads, log := next.threads, next.log;
      assert Now() == next;
    }

    // ---- The accesses of pop ----

    method LoadDequeue(t: nat, others: seq<Event>) returns (pos: nat)
      requires Valid() && t < |threads| && (threads[t].PopStart? || threads[t].PopReload?)
      modifies this, buffer
      ensures Moved(t, var pc := old(threads[t]);
                if pc.PopStart? then PopSeq(pos, 0, pos)
                else if pc.tries < MAX_RETRIES then PopSeq(pos, pc.tries, pc.first)
                else Popped(Busy, pc.first, Kv(0, 0)))
      ensures others == [] ==> Still(t)
      ensures old(dequeuePos) <= pos
    {
      Interfere(t, others);
      var next := Apply(Now(), Tick(t));
      KeepInv(Now(), Tick(t));
      pos := dequeuePos;
      threads, log := next.threads, next.log;
      assert Now() == next;
    }

    method LoadForPop(t: nat, pos: nat, others: seq<Event>) returns (dif: int)
      requires Valid() && t < |threads| && threads[t].PopSeq? && threads[t].pos == pos
      modifies this, buffer
      ensures Moved(t, var pc := old(threads[t]);
                if dif == 0 then PopCas(pos, pc.tries, pc.first)
                else if dif < 0 then Popped(NotFound, pos, Kv(0, 0))
                else PopReload(pc.tries + 1, pc.first))
      ensures others == [] ==> Still(t)
      ensures dif < 0 ==> EmptyHere(Now(), pos)
    {
      Interfere(t, others);
      var next := Apply(Now(), Tick(t));
      KeepInv(Now(), Tick(t));
      SlotIsMask(Mem(), pos);
      RefusedHere(Now(), t);
      dif := Signed64(buffer[BitAnd(pos, mask)].sequence) - Signed64(Add64(pos, 1));
      threads, log := next.threads, next.log;
      assert Now() == next;
    }

    method ClaimDequeue(t: nat, pos: nat, others: seq<Event>) returns (claimed: bool)
      requires Valid() && t < |threads| && threads[t].PopCas? && threads[t].pos == pos
      modifies this, buffer
      ensures Moved(t, var pc := old(threads[t]);
                if claimed then PopKey(pos) else PopReload(pc.tries + 1, pc.first))
      ensures others == [] && !claimed ==> Still(t)
      ensures others == [] && claimed ==>
                && log.puts == old(log.puts) && dequeuePos == old(dequeuePos) + 1 == pos + 1
                && (forall u :: 0 <= u < |threads| && u != t ==> threads[u] == old(threads[u]))
    {
      Interfere(t, others);
      var next := Apply(Now(), Tick(t));
      KeepInv(Now(), Tick(t));
      CountersGrow(Now(), Tick(t));
      claimed := dequeuePos == pos;
      if claimed {
        dequeuePos := Add64(pos, 1);
      }
      threads, log := next.threads, next.log;
      assert Now() == next;
    }

    method LoadKey(t: nat, pos: nat, others: seq<Event>) returns (key: nat)
      requires Valid() && t < |threads| && threads[t] == PopKey(pos)
      modifies this, buffer
      ensures Moved(t, PopValue(pos, key))
      ensures others == [] ==> Still(t)
    {
      Interfere(t, others);
      var next := Apply(Now(), Tick(t));
      KeepInv(Now(), Tick(t));
      SlotIsMask(Mem(), pos);
      key := buffer[BitAnd(pos, mask)].key;
      threads, log := next.threads, next.log;
      assert Now() == next;
    }

    method LoadValue(t: nat, pos: nat, key: nat, others: seq<Event>) returns (value: nat)
      requires Valid() && t < |threads| && threads[t] == PopValue(pos, key)
      modifies this, buffer
      ensures Moved(t, PopRelease(pos, Kv(key, value)))
      ensures others == [] ==> Still(t)
    {
      Interfere(t, others);
      var next := Apply(Now(), Tick(t));
      KeepInv(Now(), Tick(t));
      SlotIsMask(Mem(), pos);
      value := buffer[BitAnd(pos, mask)].value;
      threads, log := next.threads, next.log;
      assert Now() == next;
    }

    method Release(t: nat, pos: nat, kv: Kv, others: seq<Event>)
      requires Valid() && t < |threads| && threads[t] == PopRelease(pos, kv)
      modifies this, buffer
      ensures Moved(t, PopCount(pos, kv))
      ensures others == [] ==> Still(t)
    {
      Interfere(t, others);
      var next := Apply(Now(), Tick(t));
      KeepInv(Now(), Tick(t));
      SlotIsMask(Mem(), pos);
      var i := BitAnd(pos, mask);
      buffer[i] := buffer[i].(sequence := Add64(pos, Add64(mask, 1)));
      threads, log := next.threads, next.log;
      assert Now() == next;
    }

    method CountDown(t: nat, pos: nat, kv: Kv, others: seq<Event>)
      requires Valid() && t < |threads| && threads[t] == PopCount(pos, kv)
      modifies this, buffer
      ensures Moved(t, Popped(Success, pos, kv))
      ensures others == [] ==> Still(t)
    {
      Interfere(t, others);
      var next := Apply(Now(), Tick(t));
      KeepInv(Now(), Tick(t));
      count := Sub64(count, 1);
      threads, log := next.threads, next.log;
      assert Now() == next;
    }

    // ---- The operations ----

    method Begin(t: nat, pc: Pc)
      requires Valid() && t < |threads| && Resting(threads[t]) && (pc.InsStart? || pc.PopStart?)
      modifies `threads
      ensures Moved(t, pc) && Still(t)
    {
      LocalStep(Now(), t, pc);
      threads := threads[t := pc];
    }

    /** Fill, publish and count a claimed position. */
    method Commit(t: nat, kv: Kv, pos: nat, env: Interference<Event>, k: nat)
      requires Valid() && t < |threads| && threads[t] == InsKey(kv, pos)
      modifies this, buffer
      ensures Moved(t, Inserted(Success, pos, kv))
      ensures env == [] ==> Still(t)
    {
      hide Inv;
      StoreKey(t, kv, pos, At(env, k));
      StoreValue(t, kv, pos, At(env, k + 1));
      Publish(t, kv, pos, At(env, k + 2));
      CountUp(t, kv, pos, At(env, k + 3));
    }

    /** Room, buffer and thread count after t reached pc, possibly by claiming a position. */
    twostate predicate Ended(t: nat, pc: Pc)
      reads this, buffer
    {
      && Valid() && |threads| == old(|threads|) && t < |threads| && threads[t] == pc
      && buffer == old(buffer) && mask == old(mask)
      && old(dequeuePos) <= dequeuePos && old(log.puts) <= log.puts
    }

    /** Alone, t appended kv and did nothing else. */
    twostate predicate Appended(t: nat, kv: Kv)
      reads this, buffer
      requires t < |threads| == old(|threads|)
    {
      && log.puts == old(log.puts) + [kv] && dequeuePos == old(dequeuePos)
      && (forall u :: 0 <= u < |threads| && u != t ==> threads[u] == old(threads[u]))
    }

    /** Claim pos and, if that succeeds, put the pair there. */
    method ClaimAndFill(t: nat, pos: nat, env: Interference<Event>, k: nat) returns (claimed: bool)
      requires Valid() && t < |threads| && threads[t].InsCas? && threads[t].pos == pos && RoomFor(Mem(), 2)
      modifies this, buffer
      ensures var pc := old(threads[t]);
              if claimed then Ended(t, Inserted(Success, pos, pc.kv))
              else Moved(t, InsReload(pc.kv, pc.tries + 1, pc.first))
      ensures env == [] ==> if claimed then Appended(t, old(threads[t].kv)) else Still(t)
    {
      var kv := threads[t].kv;
      claimed := ClaimEnqueue(t, pos, At(env, k));
      if claimed {
        Commit(t, kv, pos, env, k + 1);
      }
    }

    /** One round of insert's retry loop; None means the next round. */
    method TryInsert(t: nat, pos: nat, env: Interference<Event>, k: nat) returns (r: Option<Result>)
      requires Valid() && t < |threads| && threads[t].InsSeq? && threads[t].pos == pos && RoomFor(Mem(), 2)
      modifies this, buffer
      ensures var pc := old(threads[t]);
              match r
              case None => Moved(t, InsReload(pc.kv, pc.tries + 1, pc.first))
              case Some(x) => x in {Success, NoMem} && Ended(t, Inserted(x, pos, pc.kv))
      ensures r == Some(NoMem) ==> FullHere(Now(), pos)
      ensures env == [] ==> if r == Some(Success) then Appended(t, old(threads[t].kv)) else Still(t)
    {
      r := None;
      var dif := LoadForInsert(t, pos, At(env, k));
      if dif == 0 {
        var claimed := ClaimAndFill(t, pos, env, k + 1);
        if claimed {
          r := Some(Success);
        }
      } else if dif < 0 {
        r := Some(NoMem);
      }
    }

    /** Where insert stands after `tries` rounds. */
    static function Standing(kv: Kv, pos: nat, tries: nat, first: nat): Pc {
      if tries < MAX_RETRIES then InsSeq(kv, pos, tries, first) else Inserted(Busy, first, kv)
    }

    /** A round that ends in a retry loads the position again. */
    method InsertRound(t: nat, pos: nat, env: Interference<Event>, k: nat) returns (r: Option<Result>, again: nat)
      requires Valid() && t < |threads| && threads[t].InsSeq? && threads[t].pos == pos && RoomFor(Mem(), 2)
      modifies this, buffer
      ensures var pc := old(threads[t]);
              match r
              case None => Moved(t, Standing(pc.kv, again, pc.tries + 1, pc.first))
              case Some(x) => x in {Success, NoMem} && Ended(t, Inserted(x, pos, pc.kv))
      ensures r == Some(NoMem) ==> FullHere(Now(), pos)
      ensures env == [] ==> if r == Some(Success) then Appended(t, old(threads[t].kv)) else Still(t)
    {
      again := pos;
      r := TryInsert(t, pos, env, k);
      if r.None? {
        again := LoadEnqueue(t, At(env, k + 6));
      }
    }

    /** The retry loop of insert. */
    method InsertLoop(t: nat, kv: Kv, env: Interference<Event>) returns (r: Result, at: nat)
      requires Valid() && t < |threads| && threads[t].InsSeq?
      requires threads[t] == InsSeq(kv, threads[t].pos, 0, threads[t].pos)
      requires RoomFor(Mem(), 2)
      modifies this, buffer
      ensures Ended(t, Inserted(r, at, kv)) && r in {Success, NoMem, Busy}
      ensures r == NoMem ==> FullHere(Now(), at)
      ensures r == Busy ==> at == old(threads[t].pos)
      ensures env == [] ==> if r == Success then Appended(t, kv) else Still(t)
    {
      var pos, retries, k := threads[t].pos, 0, 1;
      at := pos;
      while retries < MAX_RETRIES
        invariant Ended(t, Standing(kv, pos, retries, at)) && RoomFor(Mem(), 2) && retries <= MAX_RETRIES
        invariant at == old(threads[t].pos)
        invariant env == [] ==> Still(t)
      {
        var outcome, again := InsertRound(t, pos, env, k);
        if outcome.Some? {
          return outcome.value, pos;
        }
        pos, retries, k := again, retries + 1, k + 7;
      }
      r := Busy;
    }

    /** ds_vyukhov_insert by thread t, whatever the others do meanwhile. */
    method Insert(t: nat, kv: Kv, env: Interference<Event>) returns (r: Result, at: nat)
      requires Valid() && t < |threads| && Resting(threads[t]) && RoomFor(Mem(), 2)
      modifies this, buffer
      ensures Ended(t, Inserted(r, at, kv)) && r in {Success, NoMem, Busy}
      ensures r == Success ==> Gave(log, t, at, kv)
      ensures r == NoMem ==> FullHere(Now(), at)
      ensures r == Busy ==> old(enqueuePos) + 100 <= enqueuePos
      ensures env == [] ==> if r == Success then Appended(t, kv) else Still(t)
    {
      Begin(t, InsStart(kv));
      var pos := LoadEnqueue(t, At(env, 0));
      r, at := InsertLoop(t, kv, env);
      assert ThreadOk(Mem(), log, t, threads[t]);
    }

    /** Copy out, release and count a claimed position. */
    method CopyOut(t: nat, pos: nat, env: Interference<Event>, k: nat) returns (kv: Kv)
      requires Valid() && t < |threads| && threads[t] == PopKey(pos)
      modifies this, buffer
      ensures Moved(t, Popped(Success, pos, kv))
      ensures env == [] ==> Still(t)
    {
      hide Inv;
      var key := LoadKey(t, pos, At(env, k));
      var value := LoadValue(t, pos, key, At(env, k + 1));
      kv := Kv(key, value);
      Release(t, pos, kv, At(env, k + 2));
      CountDown(t, pos, kv, At(env, k + 3));
    }

    /** Alone, t removed the oldest pair and did nothing else. */
    twostate predicate Removed(t: nat, at: nat)
      reads this, buffer
      requires t < |threads| == old(|threads|)
    {
      && log.puts == old(log.puts) && dequeuePos == old(dequeuePos) + 1 == at + 1
      && (forall u :: 0 <= u < |threads| && u != t ==> threads[u] == old(threads[u]))
    }

    method ClaimAndCopy(t: nat, pos: nat, env: Interference<Event>, k: nat) returns (claimed: bool, kv: Kv)
      requires Valid() && t < |threads| && threads[t].PopCas? && threads[t].pos == pos
      modifies this, buffer
      ensures var pc := old(threads[t]);
              Moved(t, if claimed then Popped(Success, pos, kv) else PopReload(pc.tries + 1, pc.first))
      ensures env == [] ==> if claimed then Removed(t, pos) else Still(t)
    {
      kv := Kv(0, 0);
      claimed := ClaimDequeue(t, pos, At(env, k));
      if claimed {
        kv := CopyOut(t, pos, env, k + 1);
      }
    }

    /** One round of pop's retry loop; None means the next round. */
    method TryPop(t: nat, pos: nat, env: Interference<Event>, k: nat) returns (r: Option<Result>, kv: Kv)
      requires Valid() && t < |threads| && threads[t].PopSeq? && threads[t].pos == pos
      modifies this, buffer
      ensures var pc := old(threads[t]);
              match r
              case None => Moved(t, PopReload(pc.tries + 1, pc.first))
              case Some(x) => x in {Success, NotFound} && Moved(t, Popped(x, pos, kv))
      ensures r == Some(NotFound) ==> EmptyHere(Now(), pos)
      ensures env == [] ==> if r == Some(Success) then Removed(t, pos) else Still(t)
    {
      r, kv := None, Kv(0, 0);
      var dif := LoadForPop(t, pos, At(env, k));
      if dif == 0 {
        var claimed;
        claimed, kv := ClaimAndCopy(t, pos, env, k + 1);
        if claimed {
          r := Some(Success);
        }
      } else if dif < 0 {
        r := Some(NotFound);
      }
    }

    /** Where pop stands after `tries` rounds. */
    static function PopStanding(pos: nat, tries: nat, first: nat): Pc {
      if tries < MAX_RETRIES then PopSeq(pos, tries, first) else Popped(Busy, first, Kv(0, 0))
    }

    method PopRound(t: nat, pos: nat, env: Interference<Event>, k: nat) returns (r: Option<Result>, again: nat, kv: Kv)
      requires Valid() && t < |threads| && threads[t].PopSeq? && threads[t].pos == pos
      modifies this, buffer
      ensures var pc := old(threads[t]);
              match r
              case None => Moved(t, PopStanding(again, pc.tries + 1, pc.first))
              case Some(x) => x in {Success, NotFound} && Moved(t, Popped(x, pos, kv))
      ensures r == Some(NotFound) ==> EmptyHere(Now(), pos)
      ensures r == None ==> pos <= again
      ensures env == [] ==> if r == Some(Success) then Removed(t, pos) else Still(t)
    {
      again := pos;
      assert ThreadOk(Mem(), log, t, threads[t]);
      r, kv := TryPop(t, pos, env, k);
      if r.None? {
        again := LoadDequeue(t, At(env, k + 6));
      }
    }

    /** The retry loop of pop. */
    method PopLoop(t: nat, env: Interference<Event>) returns (r: Result, at: nat, kv: Kv)
      requires Valid() && t < |threads| && threads[t].PopSeq? && threads[t] == PopSeq(threads[t].pos, 0, threads[t].pos)
      modifies this, buffer
      ensures Ended(t, Popped(r, at, kv)) && r in {Success, NotFound, Busy}
      ensures r == NotFound ==> EmptyHere(Now(), at)
      ensures r == Busy ==> at == old(threads[t].pos)
      ensures r == Success ==> old(threads[t].pos) <= at
      ensures env == [] ==> if r == Success then Removed(t, at) else Still(t)
    {
      var pos, retries, k := threads[t].pos, 0, 1;
      at := pos;
      while retries < MAX_RETRIES
        invariant Ended(t, PopStanding(pos, retries, at)) && retries <= MAX_RETRIES
        invariant at == old(threads[t].pos) <= pos
        invariant env == [] ==> Still(t)
      {
        var outcome, again, out := PopRound(t, pos, env, k);
        if outcome.Some? {
          return outcome.value, pos, out;
        }
        pos, retries, k := again, retries + 1, k + 7;
      }
      r, kv := Busy, Kv(0, 0);
    }

    /** ds_vyukhov_pop by thread t, whatever the others do meanwhile. */
    method Pop(t: nat, env: Interference<Event>) returns (r: Result, at: nat, kv: Kv)
      requires Valid() && t < |threads| && Resting(threads[t])
      modifies this, buffer
      ensures Ended(t, Popped(r, at, kv)) && r in {Success, NotFound, Busy}
      ensures r == Success ==> Took(log, t, at, kv) && old(dequeuePos) <= at < dequeuePos
      ensures r == NotFound ==> EmptyHere(Now(), at)
      ensures r == Busy ==> old(dequeuePos) + 100 <= dequeuePos
      ensures env == [] ==> if r == Success then Removed(t, at) else Still(t)
    {
      Begin(t, PopStart);
      var pos := LoadDequeue(t, At(env, 0));
      r, at, kv := PopLoop(t, env);
      assert ThreadOk(Mem(), log, t, threads[t]);
    }

    // ---- Calls that nothing interrupts ----

    ghost predicate Calm()
      reads this, buffer
    {
      Valid() && 0 < |threads| && AtRest(Now())
    }

    /** Alone, insert appends the pair, and refuses exactly when the queue is full. */
    method InsertAlone(kv: Kv) returns (r: Result)
      requires Calm() && RoomFor(Mem(), 2)
      modifies this, buffer
      ensures Calm() && buffer == old(buffer) && mask == old(mask) && |threads| == old(|threads|)
      ensures r == if |old(Pairs())| == mask + 1 then NoMem else Success
      ensures Pairs() == if r == Success then old(Pairs()) + [kv] else old(Pairs())
      ensures enqueuePos == old(enqueuePos) + if r == Success then 1 else 0
    {
      var at;
      r, at := Insert(0, kv, []);
    }

    /** Alone, pop removes and returns the oldest pair, and refuses exactly when there is none. */
    method PopAlone() returns (r: Result, kv: Kv)
      requires Calm()
      modifies this, buffer
      ensures Calm() && buffer == old(buffer) && mask == old(mask) && |threads| == old(|threads|)
      ensures r == if old(Pairs()) == [] then NotFound else Success
      ensures r == Success ==> kv == old(Pairs())[0] && Pairs() == old(Pairs())[1..]
      ensures r != Success ==> Pairs() == []
      ensures enqueuePos == old(enqueuePos)
    {
      var at;
      r, at, kv := Pop(0, []);
    }

    // ---- Initialisation and verification ----

    constructor Fresh(capacity: nat, memory: array<Cell>, n: nat)
      requires 0 < capacity
      ensures Mem() == Memory(0, 0, capacity - 1, memory[..], 0) && buffer == memory
      ensures threads == seq(n, i => Idle) && log == Log([], [], [], seq(capacity, i => i))
    {
      enqueuePos, dequeuePos, mask, count, buffer := 0, 0, capacity - 1, 0, memory;
      threads, log := seq(n, i => Idle), Log([], [], [], seq(capacity, i => i));
    }

    /** ds_vyukhov_init: `memory` is what the arena hands out, if anything. */
    static method Init(capacity: nat, memory: array?<Cell>, n: nat) returns (r: Result, q: Queue?)
      requires capacity < TWO32
      requires memory != null ==> memory.Length == capacity
      modifies memory
      ensures r == if capacity < 2 || !IsPow2(capacity) then Invalid else if memory == null then NoMem else Success
      ensures r == Success <==> q != null
      ensures q != null ==> fresh(q) && q.buffer == memory && |q.threads| == n && q.mask + 1 == capacity
      ensures q != null ==> Initial(q.Now()) && q.Valid() && q.Pairs() == []
    {
      q := null;
      if 0 < capacity {
        PowerOfTwoTest(capacity);
      }
      if capacity < 2 || BitAnd(capacity, capacity - 1) != 0 {
        return Invalid, null;
      }
      if memory == null {
        return NoMem, null;
      }
      for i := 0 to capacity
        invariant forall j :: 0 <= j < i ==> memory[j].sequence == j
      {
        memory[i] := memory[i].(sequence := i);
      }
      q := new Queue.Fresh(capacity, memory, n);
      InitialInv(q.Now());
      r := Success;
    }

    /** ds_vyukhov_verify: succeeds exactly when the positions are at most the capacity apart and the counter
        does not exceed it. On any queue that nobody uses it succeeds. */
    method Check() returns (r: Result)
      ensures r == Verify(Mem()) && r in {Success, Corrupt}
      ensures r == Success <==> dequeuePos <= enqueuePos <= dequeuePos + mask + 1 && count <= mask + 1
      ensures Valid() && Counted(Now()) && AtRest(Now()) ==> r == Success && count == |Pairs()|
    {
      if Valid() && Counted(Now()) && AtRest(Now()) {
        RestIsExact(Now());
      }
      var enq, deq := enqueuePos, dequeuePos;
      if deq > enq {
        return Corrupt;
      }
      var size, capacity := enq - deq, mask + 1;
      if size > capacity {
        return Corrupt;
      }
      if count > capacity {
        return Corrupt;
      }
      return Success;
    }
  }
}
