// The relay thread of src/skeleton_vyukhov.c while other threads use the KU lane inside its calls: pops meet
// any interference, so they may answer busy, or empty while a producer is about to publish.

module RelayWorker {
  import opened Base
  import opened Calls
  import opened Vyukov
  import opened VyukovProof
  import opened VyukovQueue
  import Relay
  import RelayDrain

  /** What happens on the KU lane during the pop of a round, and during its push to the UK lane. */
  datatype Load = Load(pop: Interference<Event>, push: seq<Event>)

  class Worker {
    var dequeued: nat  // ku_dequeued_count
    var enqueued: nat  // uk_enqueued_count

    constructor ()
      ensures dequeued == enqueued == 0
    {
      dequeued, enqueued := 0, 0;
    }

    /** Thread t may call on the KU lane; the UK lane, another queue, is idle. */
    ghost predicate Lanes(ku: Queue, uk: Queue, t: nat)
      reads ku, uk, ku.buffer, uk.buffer
    {
      && ku != uk && ku.buffer != uk.buffer
      && ku.Valid() && t < |ku.threads| && Resting(ku.threads[t])
      && uk.Calm()
    }

    /** A pop that succeeds takes the pair at a position no earlier one reached. */
    method Take(ku: Queue, uk: Queue, t: nat, env: Interference<Event>, ghost from: nat, ghost taken: seq<Kv>)
      returns (found: bool, kv: Kv)
      requires Lanes(ku, uk, t) && from <= ku.dequeuePos
      requires InOrder(ku.log.puts, from, ku.dequeuePos, taken)
      modifies this`dequeued, ku, ku.buffer
      ensures Lanes(ku, uk, t) && ku.buffer == old(ku.buffer) && from <= ku.dequeuePos
      ensures dequeued == old(dequeued) + if found then 1 else 0
      ensures InOrder(ku.log.puts, from, ku.dequeuePos, if found then taken + [kv] else taken)
      ensures env == [] ==> (AtRest(ku.Now()) <==> old(AtRest(ku.Now())))
      ensures env == [] && old(AtRest(ku.Now())) ==>
                && (found <==> old(ku.Pairs()) != [])
                && if found then old(ku.Pairs()) == [kv] + ku.Pairs() else ku.Pairs() == []
    {
      ghost var puts, reached := ku.log.puts, ku.dequeuePos;
      var r, at;
      r, at, kv := ku.Pop(t, env);
      found := r == Success;
      if found {
        dequeued := dequeued + 1;
        TakenOn(puts, ku.log.puts, from, reached, at, ku.dequeuePos, taken);
      } else {
        NoneTaken(puts, ku.log.puts, from, reached, ku.dequeuePos, taken);
      }
    }

    /** While the UK lane is used, the KU lane goes on. */
    method Give(ku: Queue, uk: Queue, t: nat, es: seq<Event>, kv: Kv, ghost from: nat, ghost taken: seq<Kv>)
      returns (ok: bool)
      requires Lanes(ku, uk, t) && RoomFor(uk.Mem(), 2) && from <= ku.dequeuePos
      requires InOrder(ku.log.puts, from, ku.dequeuePos, taken)
      modifies this`enqueued, ku, ku.buffer, uk, uk.buffer
      ensures Lanes(ku, uk, t) && ku.buffer == old(ku.buffer) && uk.buffer == old(uk.buffer) && from <= ku.dequeuePos
      ensures uk.mask == old(uk.mask) && uk.enqueuePos <= old(uk.enqueuePos) + 1
      ensures InOrder(ku.log.puts, from, ku.dequeuePos, taken)
      ensures ok <==> |old(uk.Pairs())| <= uk.mask
      ensures uk.Pairs() == if ok then old(uk.Pairs()) + [kv] else old(uk.Pairs())
      ensures enqueued == old(enqueued) + if ok then 1 else 0
      ensures es == [] ==> ku.Now() == old(ku.Now())
    {
      var r := uk.InsertAlone(kv);
      ok := r == Success;
      if ok {
        enqueued := enqueued + 1;
      }
      Meanwhile(ku, uk, t, es, from, taken);
    }

    method Meanwhile(ku: Queue, uk: Queue, t: nat, es: seq<Event>, ghost from: nat, ghost taken: seq<Kv>)
      requires Lanes(ku, uk, t) && from <= ku.dequeuePos && InOrder(ku.log.puts, from, ku.dequeuePos, taken)
      modifies ku, ku.buffer
      ensures Lanes(ku, uk, t) && ku.buffer == old(ku.buffer) && from <= ku.dequeuePos
      ensures InOrder(ku.log.puts, from, ku.dequeuePos, taken)
      ensures es == [] ==> ku.Now() == old(ku.Now())
    {
      ghost var puts, reached := ku.log.puts, ku.dequeuePos;
      ku.Interfere(t, es);
      NoneTaken(puts, ku.log.puts, from, reached, ku.dequeuePos, taken);
    }

    /** One round of the loop: what it takes it pushes, unless the UK lane is full. */
    method Round(ku: Queue, uk: Queue, t: nat, load: Load, ghost from: nat, ghost taken: seq<Kv>)
      returns (ghost got: seq<Kv>, ghost given: seq<Kv>)
      requires Lanes(ku, uk, t) && RoomFor(uk.Mem(), 2) && from <= ku.dequeuePos
      requires InOrder(ku.log.puts, from, ku.dequeuePos, taken)
      modifies this, ku, ku.buffer, uk, uk.buffer
      ensures Lanes(ku, uk, t) && ku.buffer == old(ku.buffer) && uk.buffer == old(uk.buffer) && from <= ku.dequeuePos
      ensures uk.mask == old(uk.mask) && uk.enqueuePos <= old(uk.enqueuePos) + 1
      ensures InOrder(ku.log.puts, from, ku.dequeuePos, taken + got) && |got| <= 1
      ensures given == if |old(uk.Pairs())| <= uk.mask then got else []
      ensures uk.Pairs() == old(uk.Pairs()) + given
      ensures dequeued == old(dequeued) + |got| && enqueued == old(enqueued) + |given|
      ensures load == Load([], []) ==> (AtRest(ku.Now()) <==> old(AtRest(ku.Now())))
      ensures load == Load([], []) && old(AtRest(ku.Now())) ==>
                && old(ku.Pairs()) == got + ku.Pairs() && (got == [] ==> ku.Pairs() == [])
    {
      got, given := [], [];
      assert taken + got == taken;
      var found, kv := Take(ku, uk, t, load.pop, from, taken);
      if found {
        got := [kv];
        var ok := Give(ku, uk, t, load.push, kv, from, taken + got);
        if ok {
          given := [kv];
        }
      }
    }

    /** The relay has taken and pushed these pairs since the KU lane stood at `from` and the UK lane held
        `before`: it pushed the first it took, as many as there was room for. */
    ghost predicate Kept(ku: Queue, uk: Queue, from: nat, before: seq<Kv>, taken: seq<Kv>, pushed: seq<Kv>)
      reads ku, uk, ku.buffer, uk.buffer
      requires ku.Valid() && uk.Valid()
    {
      && from <= ku.dequeuePos && InOrder(ku.log.puts, from, ku.dequeuePos, taken)
      && |before| <= uk.mask + 1 && pushed == taken[..AtMost(|taken|, uk.mask + 1 - |before|)]
      && uk.Pairs() == before + pushed
    }

    /** It has had i rounds alone on the KU lane, which held `queued`. */
    ghost predicate AloneKept(ku: Queue, queued: seq<Kv>, i: nat, taken: seq<Kv>)
      reads ku, ku.buffer
      requires ku.Valid()
    {
      AtRest(ku.Now()) && |taken| == AtMost(i, |queued|) && queued == taken + ku.Pairs()
    }

    /** Unless somebody is inside a call on the KU lane: the lane is empty, or each of the last rounds that the relay
        had alone, n of them, has taken a pair. */
    ghost predicate Diligent(ku: Queue, n: nat, taken: seq<Kv>)
      reads ku, ku.buffer
      requires ku.Valid()
    {
      AtRest(ku.Now()) ==> ku.Pairs() == [] || n <= |taken|
    }

    method NextRound(ku: Queue, uk: Queue, t: nat, load: Load, ghost from: nat, ghost before: seq<Kv>,
                     ghost taken: seq<Kv>, ghost pushed: seq<Kv>)
      returns (ghost taken': seq<Kv>, ghost pushed': seq<Kv>)
      requires Lanes(ku, uk, t) && RoomFor(uk.Mem(), 2) && Kept(ku, uk, from, before, taken, pushed)
      modifies this, ku, ku.buffer, uk, uk.buffer
      ensures Lanes(ku, uk, t) && ku.buffer == old(ku.buffer) && uk.buffer == old(uk.buffer)
      ensures uk.mask == old(uk.mask) && uk.enqueuePos <= old(uk.enqueuePos) + 1
      ensures Kept(ku, uk, from, before, taken', pushed')
      ensures dequeued - old(dequeued) == |taken'| - |taken| && enqueued - old(enqueued) == |pushed'| - |pushed|
      ensures forall queued, i: nat :: load == Load([], []) && old(AloneKept(ku, queued, i, taken)) ==>
                AloneKept(ku, queued, i + 1, taken')
      ensures forall n: nat :: load == Load([], []) && old(Diligent(ku, n, taken)) ==> Diligent(ku, n + 1, taken')
      ensures Diligent(ku, 0, taken')
    {
      hide Inv, InOrder;
      ghost var got, given := Round(ku, uk, t, load, from, taken);
      FirstOf(taken, got, uk.mask + 1 - |before|);
      taken', pushed' := taken + got, pushed + given;
    }

    /** As many rounds as there are loads. The pairs taken are pairs of the KU lane, at increasing positions; the
        pairs pushed are the first of them, up to the room there was on the UK lane. If nobody else uses the KU
        lane, every round takes its front pair until it is empty; and whatever came before, so does every one of the
        last rounds in which nobody else uses it. */
    method RelayLoop(ku: Queue, uk: Queue, t: nat, loads: seq<Load>)
      returns (ghost taken: seq<Kv>, ghost pushed: seq<Kv>)
      requires Lanes(ku, uk, t) && RoomFor(uk.Mem(), |loads| + 2)
      modifies this, ku, ku.buffer, uk, uk.buffer
      ensures Lanes(ku, uk, t) && uk.buffer == old(uk.buffer) && uk.mask == old(uk.mask)
      ensures InOrder(ku.log.puts, old(ku.dequeuePos), ku.dequeuePos, taken)
      ensures |old(uk.Pairs())| <= uk.mask + 1
      ensures pushed == taken[..AtMost(|taken|, uk.mask + 1 - |old(uk.Pairs())|)]
      ensures uk.Pairs() == old(uk.Pairs()) + pushed
      ensures dequeued == old(dequeued) + |taken| && enqueued == old(enqueued) + |pushed|
      ensures Alone(loads) && old(AtRest(ku.Now())) ==>
                |taken| == AtMost(|loads|, |old(ku.Pairs())|) && old(ku.Pairs()) == taken + ku.Pairs()
      ensures Diligent(ku, LastAlone(loads), taken)
    {
      ghost var from, queued := ku.dequeuePos, ku.Pairs();
      NoneYet(ku.Now());
      NoneYet(uk.Now());
      taken, pushed := [], [];
      assert Diligent(ku, LastAlone(loads[..0]), taken);
      hide Inv, InOrder, Diligent, LastAlone;
      var i := 0;
      while i < |loads|
        invariant 0 <= i <= |loads| && Lanes(ku, uk, t)
        invariant ku.buffer == old(ku.buffer) && uk.buffer == old(uk.buffer) && uk.mask == old(uk.mask)
        invariant Kept(ku, uk, from, old(uk.Pairs()), taken, pushed)
        invariant dequeued == old(dequeued) + |taken| && enqueued == old(enqueued) + |pushed|
        invariant uk.enqueuePos <= old(uk.enqueuePos) + i
        invariant Alone(loads) && old(AtRest(ku.Now())) ==> AloneKept(ku, queued, i, taken)
        invariant Diligent(ku, LastAlone(loads[..i]), taken)
      {
        OneMoreLoad(loads, i);
        taken, pushed := NextRound(ku, uk, t, loads[i], from, old(uk.Pairs()), taken, pushed);
        i := i + 1;
      }
      assert loads[..|loads|] == loads;
    }

    /** The life of the process: the relay runs until the stop signal and joins, then the main thread drains
        the UK lane. The kernel gets the first pairs that the relay took, as many as the lane holds, in the order
        of the KU lane. */
    method RelayThenDrain(ku: Queue, uk: Queue, t: nat, loads: seq<Load>, kernel: RelayDrain.Kernel)
      returns (attempts: nat, ghost taken: seq<Kv>)
      requires Lanes(ku, uk, t) && RoomFor(uk.Mem(), |loads| + 2) && uk.Pairs() == [] && enqueued == 0
      modifies this, ku, ku.buffer, uk, uk.buffer, kernel
      ensures ku.Valid() && InOrder(ku.log.puts, old(ku.dequeuePos), ku.dequeuePos, taken)
      ensures dequeued == old(dequeued) + |taken| && enqueued == AtMost(|taken|, old(uk.mask) + 1)
      ensures kernel.taken == old(kernel.taken) + taken[..enqueued]
      ensures kernel.consumed == old(kernel.consumed) + enqueued
      ensures uk.Valid() && uk.Pairs() == []
      ensures attempts == if enqueued == 0 then 1 else enqueued
      ensures Alone(loads) && old(AtRest(ku.Now())) ==>
                taken == old(ku.Pairs())[..AtMost(|loads|, |old(ku.Pairs())|)]
    {
      ghost var pushed;
      taken, pushed := RelayLoop(ku, uk, t, loads);
      attempts := kernel.TriggerOnExit(uk, enqueued);
    }
  }

  /** Nobody but the relay uses the KU lane meanwhile. */
  predicate Alone(loads: seq<Load>) { forall i :: 0 <= i < |loads| ==> loads[i] == Load([], []) }

  /** How many of the last rounds the relay has alone. */
  function LastAlone(loads: seq<Load>): nat {
    if loads == [] || loads[|loads| - 1] != Load([], []) then 0 else LastAlone(loads[..|loads| - 1]) + 1
  }

  lemma OneMoreLoad(loads: seq<Load>, i: nat)
    requires i < |loads|
    ensures LastAlone(loads[..i + 1]) == if loads[i] == Load([], []) then LastAlone(loads[..i]) + 1 else 0
  {
    assert loads[..i + 1][..i] == loads[..i];
  }

  /** The smaller of two lengths. */
  function AtMost(n: nat, bound: int): (r: int)
    requires 0 <= bound
    ensures 0 <= r <= n
  {
    if n <= bound then n else bound
  }

  lemma NoneYet(s: State)
    requires Inv(s)
    ensures InOrder(s.log.puts, s.mem.dequeuePos, s.mem.dequeuePos, [])
    ensures s.mem.dequeuePos <= |s.log.puts| && |Contents(s)| <= Capacity(s.mem)
  {
  }

  lemma FirstOf(taken: seq<Kv>, got: seq<Kv>, room: nat)
    requires |got| <= 1
    ensures var pushed := taken[..AtMost(|taken|, room)];
            pushed + (if |pushed| < room then got else []) == (taken + got)[..AtMost(|taken + got|, room)]
  {
  }

  /** The pairs taken are, in order, among those put at the positions from `from` up to `to`. */
  ghost predicate InOrder(puts: seq<Kv>, from: nat, to: nat, taken: seq<Kv>) {
    from <= to <= |puts| && Relay.Subsequence(taken, puts[from..to])
  }

  lemma NoneTaken(puts: seq<Kv>, puts': seq<Kv>, from: nat, to: nat, to': nat, taken: seq<Kv>)
    requires puts <= puts' && to <= to' <= |puts'| && InOrder(puts, from, to, taken)
    ensures InOrder(puts', from, to', taken)
  {
    assert puts'[from..to'] == puts[from..to] + puts'[to..to'];
    Relay.MoreBehind(taken, puts[from..to], puts'[to..to']);
  }

  lemma TakenOn(puts: seq<Kv>, puts': seq<Kv>, from: nat, to: nat, at: nat, to': nat, taken: seq<Kv>)
    requires puts <= puts' && to <= at < to' <= |puts'| && InOrder(puts, from, to, taken)
    ensures InOrder(puts', from, to', taken + [puts'[at]])
  {
    NoneTaken(puts, puts', from, to, at, taken);
    Relay.Longer(taken, puts'[from..at], puts'[at]);
    assert puts'[from..at + 1] == puts'[from..at] + [puts'[at]];
    NoneTaken(puts', puts', from, at + 1, to', taken + [puts'[at]]);
  }
}
