// Ownership, refinement, refusals, progress and counting for the Vyukov queue,
// in every interleaving of any number of producers and consumers.

module VyukovProof {
  import opened Base
  import opened Calls
  import opened Words
  import opened Tally
  import opened Vyukov
  import Fifo

  // ---- The inductive invariant ----

  /** The thread has claimed pos for writing and has not published it yet. */
  predicate Writing(pc: Pc, pos: nat) {
    (pc.InsKey? || pc.InsValue? || pc.InsPublish?) && pc.pos == pos
  }

  /** The thread has claimed pos for reading and has not released it yet. */
  predicate Reading(pc: Pc, pos: nat) {
    (pc.PopKey? || pc.PopValue? || pc.PopRelease?) && pc.pos == pos
  }

  predicate Frame(m: Memory, g: Log, n: nat) {
    && Shape(m)
    && |g.puts| == |g.producers| == m.enqueuePos
    && |g.consumers| == m.dequeuePos <= m.enqueuePos <= m.dequeuePos + Capacity(m)
    && |g.serving| == Capacity(m)
    && (forall q :: 0 <= q < |g.producers| ==> g.producers[q] < n)
    && (forall q :: 0 <= q < |g.consumers| ==> g.consumers[q] < n)
  }

  /** The cell waits for its position to be written, or its claimant is writing it. */
  predicate Vacant(m: Memory, g: Log, threads: seq<Pc>, i: nat)
    requires Frame(m, g, |threads|) && i < Capacity(m)
  {
    var p := g.serving[i];
    && m.cells[i].sequence == p
    && m.dequeuePos <= p < m.dequeuePos + Capacity(m)
    && m.enqueuePos <= p + Capacity(m)
    && (p < m.enqueuePos ==> Writing(threads[g.producers[p]], p))
  }

  /** The cell holds the pair of its position, or its claimant is reading it. */
  predicate Occupied(m: Memory, g: Log, threads: seq<Pc>, i: nat)
    requires Frame(m, g, |threads|) && i < Capacity(m)
  {
    var p := g.serving[i];
    && m.cells[i].sequence == p + 1
    && p < m.enqueuePos <= p + Capacity(m)
    && m.dequeuePos <= p + Capacity(m)
    && Kv(m.cells[i].key, m.cells[i].value) == g.puts[p]
    && (p < m.dequeuePos ==> Reading(threads[g.consumers[p]], p))
  }

  predicate CellOk(m: Memory, g: Log, threads: seq<Pc>, i: nat)
    requires Frame(m, g, |threads|) && i < Capacity(m)
  {
    Slot(m, g.serving[i]) == i && (Vacant(m, g, threads, i) || Occupied(m, g, threads, i))
  }

  predicate Serves(m: Memory, g: Log, pos: nat, sequence: nat)
    requires Shape(m) && |g.serving| == Capacity(m)
  {
    g.serving[Slot(m, pos)] == pos && m.cells[Slot(m, pos)].sequence == sequence
  }

  predicate ThreadOk(m: Memory, g: Log, t: nat, pc: Pc)
    requires Shape(m) && |g.serving| == Capacity(m)
  {
    match pc
    case Idle => true
    case InsStart(_) => true
    case InsSeq(_, pos, tries, first) =>
      tries < MAX_RETRIES && first + tries <= pos <= m.enqueuePos && NoneBy(g.producers, first, t)
    case InsCas(_, pos, tries, first) =>
      && tries < MAX_RETRIES && first + tries <= pos <= m.enqueuePos && NoneBy(g.producers, first, t)
      && pos <= m.cells[Slot(m, pos)].sequence
    case InsReload(_, tries, first) =>
      tries <= MAX_RETRIES && first + tries <= m.enqueuePos && NoneBy(g.producers, first, t)
    case InsKey(kv, pos) => Holds(m, g, t, kv, pos)
    case InsValue(kv, pos) => Holds(m, g, t, kv, pos) && m.cells[Slot(m, pos)].key == kv.key
    case InsPublish(kv, pos) =>
      && Holds(m, g, t, kv, pos)
      && m.cells[Slot(m, pos)].key == kv.key && m.cells[Slot(m, pos)].value == kv.value
    case InsCount(kv, pos) => Gave(g, t, pos, kv)
    case Inserted(result, at, kv) =>
      && (result == Success ==> Gave(g, t, at, kv))
      && (result == Busy ==> at + MAX_RETRIES <= m.enqueuePos)
    case PopStart => true
    case PopSeq(pos, tries, first) =>
      tries < MAX_RETRIES && first + tries <= pos <= m.dequeuePos && NoneBy(g.consumers, first, t)
    case PopCas(pos, tries, first) =>
      && tries < MAX_RETRIES && first + tries <= pos <= m.dequeuePos && NoneBy(g.consumers, first, t)
      && pos + 1 <= m.cells[Slot(m, pos)].sequence
    case PopReload(tries, first) =>
      tries <= MAX_RETRIES && first + tries <= m.dequeuePos && NoneBy(g.consumers, first, t)
    case PopKey(pos) => Drains(m, g, t, pos)
    case PopValue(pos, key) => Drains(m, g, t, pos) && pos < |g.puts| && key == g.puts[pos].key
    case PopRelease(pos, kv) => Drains(m, g, t, pos) && pos < |g.puts| && kv == g.puts[pos]
    case PopCount(pos, kv) => Took(g, t, pos, kv)
    case Popped(result, at, kv) =>
      && (result == Success ==> Took(g, t, at, kv))
      && (result == Busy ==> at + MAX_RETRIES <= m.dequeuePos)
  }

  predicate Holds(m: Memory, g: Log, t: nat, kv: Kv, pos: nat)
    requires Shape(m) && |g.serving| == Capacity(m)
  {
    && pos < |g.producers| && g.producers[pos] == t && pos < |g.puts| && g.puts[pos] == kv
    && Serves(m, g, pos, pos)
  }

  predicate Drains(m: Memory, g: Log, t: nat, pos: nat)
    requires Shape(m) && |g.serving| == Capacity(m)
  {
    pos < |g.consumers| && g.consumers[pos] == t && Serves(m, g, pos, pos + 1)
  }

  /** t produced position pos and put kv there. */
  predicate Gave(g: Log, t: nat, pos: nat, kv: Kv) {
    pos < |g.producers| && g.producers[pos] == t && pos < |g.puts| && kv == g.puts[pos]
  }

  /** t consumed position pos and copied out kv, the pair its producer put there. */
  predicate Took(g: Log, t: nat, pos: nat, kv: Kv) {
    && pos < |g.consumers| && g.consumers[pos] == t
    && pos < |g.puts| && kv == g.puts[pos]
  }

  predicate Inv(s: State) {
    && Frame(s.mem, s.log, |s.threads|)
    && (forall i :: 0 <= i < Capacity(s.mem) ==> CellOk(s.mem, s.log, s.threads, i))
    && (forall t :: 0 <= t < |s.threads| ==> ThreadOk(s.mem, s.log, t, s.threads[t]))
  }

  /** Positions stay clear of the sign bit, so 64-bit arithmetic is exact. */
  predicate Headroom(m: Memory) { m.enqueuePos + Capacity(m) < TWO63 }

  /** The queue a caller sees: pairs claimed for writing and not yet claimed for reading. */
  function Contents(s: State): seq<Kv>
    requires s.mem.dequeuePos <= |s.log.puts|
  {
    s.log.puts[s.mem.dequeuePos..]
  }

  // ---- What a cell's sequence number says about a position ----

  /** Whatever its phase, the cell of pos serves pos, an earlier lap of it or a later one. */
  lemma CellOfPosition(s: State, pos: nat)
    requires Inv(s)
    ensures var p := s.log.serving[Slot(s.mem, pos)];
            && s.mem.cells[Slot(s.mem, pos)].sequence in {p, p + 1}
            && (pos - Capacity(s.mem) < p < pos + Capacity(s.mem) ==> p == pos)
  {
    var i := Slot(s.mem, pos);
    assert CellOk(s.mem, s.log, s.threads, i);
    var p := s.log.serving[i];
    if pos - Capacity(s.mem) < p < pos + Capacity(s.mem) {
      ModUnique(pos, p, Capacity(s.mem));
    }
  }

  /** The cell under enqueue_pos is vacant for it, or still busy with the previous lap. */
  lemma CellAtEnqueue(s: State)
    requires Inv(s)
    ensures var e := s.mem.enqueuePos;
            var i := Slot(s.mem, e);
            var p := s.log.serving[i];
            || (p == e && Vacant(s.mem, s.log, s.threads, i))
            || (p == e - Capacity(s.mem) && s.mem.cells[i].sequence <= p + 1)
  {
    var e, c := s.mem.enqueuePos, Capacity(s.mem);
    var i := Slot(s.mem, e);
    var p := s.log.serving[i];
    CellOfPosition(s, e);
    assert CellOk(s.mem, s.log, s.threads, i);
    if p != e {
      ModLap(e, c);
      ModUnique(e - c, p, c);
    }
  }

  /** The cell under dequeue_pos is occupied by it, or still waits for it. */
  lemma CellAtDequeue(s: State)
    requires Inv(s)
    ensures var d := s.mem.dequeuePos;
            var i := Slot(s.mem, d);
            || s.log.serving[i] == d
            || (&& d == s.mem.enqueuePos && s.log.serving[i] == d - Capacity(s.mem)
                && Occupied(s.mem, s.log, s.threads, i))
  {
    var d, c := s.mem.dequeuePos, Capacity(s.mem);
    var i := Slot(s.mem, d);
    var p := s.log.serving[i];
    CellOfPosition(s, d);
    assert CellOk(s.mem, s.log, s.threads, i);
    if p != d {
      ModLap(d, c);
      ModUnique(d - c, p, c);
    }
  }

  /** The signed subtraction of two nearby 64-bit words overflows exactly when the sign bit changes between
      them; otherwise it is the true difference. */
  lemma DifIsExact(a: nat, b: nat)
    requires a < TWO64 && b < TWO64 && a < b + TWO63 && b < a + TWO63
    ensures 0 - TWO63 <= Dif(a, b) < TWO63 <==> (a < TWO63 <==> b < TWO63)
    ensures Dif(a, b) == a - b <==> (a < TWO63 <==> b < TWO63)
  {
  }

  /** What a producer standing at pos learns from the cell's sequence number. */
  lemma SequenceForWriter(s: State, pos: nat)
    requires Inv(s) && Headroom(s.mem) && pos <= s.mem.enqueuePos
    ensures var sequence := s.mem.cells[Slot(s.mem, pos)].sequence;
            && Dif(sequence, pos) == sequence - pos
            && (pos < sequence ==> pos < s.mem.enqueuePos)
            && (sequence < pos ==> pos == s.mem.enqueuePos
                                   && s.log.serving[Slot(s.mem, pos)] == pos - Capacity(s.mem))
  {
    CellOfPosition(s, pos);
    CellAtEnqueue(s);
    assert CellOk(s.mem, s.log, s.threads, Slot(s.mem, pos));
  }

  /** What a consumer standing at pos learns from the cell's sequence number. */
  lemma SequenceForReader(s: State, pos: nat)
    requires Inv(s) && Headroom(s.mem) && pos <= s.mem.dequeuePos
    ensures var sequence := s.mem.cells[Slot(s.mem, pos)].sequence;
            && Dif(sequence, Add64(pos, 1)) == sequence - (pos + 1)
            && (pos + 1 < sequence ==> pos < s.mem.dequeuePos)
            && (sequence < pos + 1 ==> pos == s.mem.dequeuePos)
  {
    CellOfPosition(s, pos);
    CellAtDequeue(s);
    assert CellOk(s.mem, s.log, s.threads, Slot(s.mem, pos));
  }

  // ---- Every step keeps the invariant ----

  /** A step that only moves t between places where it owns no cell. */
  lemma LocalStep(s: State, t: nat, pc: Pc)
    requires Inv(s) && t < |s.threads|
    requires forall p: nat :: !Writing(s.threads[t], p) && !Reading(s.threads[t], p)
    requires ThreadOk(s.mem, s.log, t, pc)
    ensures Inv(Goto(s, t, pc))
  {
    var s' := Goto(s, t, pc);
    forall i | 0 <= i < Capacity(s'.mem)
      ensures CellOk(s'.mem, s'.log, s'.threads, i)
    {
      assert CellOk(s.mem, s.log, s.threads, i);
    }
  }

  lemma KeepInsertLoop(s: State, t: nat)
    requires Inv(s) && Headroom(s.mem) && t < |s.threads|
    requires var pc := s.threads[t]; pc.InsStart? || pc.InsSeq? || pc.InsReload?
    ensures Inv(InsertStep(s, t))
  {
    match s.threads[t]
    case InsStart(kv) => LocalStep(s, t, InsSeq(kv, s.mem.enqueuePos, 0, s.mem.enqueuePos));
    case InsReload(kv, tries, first) =>
      LocalStep(s, t, InsertStep(s, t).threads[t]);
    case InsSeq(kv, pos, tries, first) =>
      SequenceForWriter(s, pos);
      LocalStep(s, t, InsertStep(s, t).threads[t]);
  }

  /** What a thread relies on survives a step of another thread that moves the counters, logs
      and sequence numbers only forward and keeps off the cell the thread owns. */
  lemma ThreadFrame(m: Memory, g: Log, m': Memory, g': Log, u: nat, pc: Pc)
    requires Shape(m) && Shape(m') && m.mask == m'.mask
    requires |g.serving| == |g'.serving| == Capacity(m)
    requires ThreadOk(m, g, u, pc)
    requires m.enqueuePos <= m'.enqueuePos && m.dequeuePos <= m'.dequeuePos
    requires g.puts <= g'.puts && g.producers <= g'.producers && g.consumers <= g'.consumers
    requires NoneBy(g'.producers, |g.producers|, u) && NoneBy(g'.consumers, |g.consumers|, u)
    requires forall i :: 0 <= i < Capacity(m) ==> m.cells[i].sequence <= m'.cells[i].sequence
    requires forall pos: nat :: Writing(pc, pos) || Reading(pc, pos) ==>
               var i := Slot(m, pos); m'.cells[i] == m.cells[i] && g'.serving[i] == g.serving[i]
    ensures ThreadOk(m', g', u, pc)
  {
  }

  lemma KeepInsertClaim(s: State, t: nat)
    requires Inv(s) && Headroom(s.mem) && t < |s.threads| && s.threads[t].InsCas?
    ensures Inv(InsertStep(s, t))
  {
    var pc := s.threads[t];
    if s.mem.enqueuePos != pc.pos {
      LocalStep(s, t, InsReload(pc.kv, pc.tries + 1, pc.first));
    } else {
      CellAtEnqueue(s);
      var s' := InsertStep(s, t);
      assert Frame(s'.mem, s'.log, |s'.threads|);
      forall i | 0 <= i < Capacity(s'.mem) ensures CellOk(s'.mem, s'.log, s'.threads, i) {
        ClaimedCell(s, t, i);
      }
      forall u | 0 <= u < |s'.threads| && u != t ensures ThreadOk(s'.mem, s'.log, u, s'.threads[u]) {
        ThreadFrame(s.mem, s.log, s'.mem, s'.log, u, s.threads[u]);
      }
    }
  }

  lemma ClaimedCell(s: State, t: nat, i: nat)
    requires Inv(s) && Headroom(s.mem) && t < |s.threads| && i < Capacity(s.mem)
    requires s.threads[t].InsCas? && s.threads[t].pos == s.mem.enqueuePos
    requires var s' := InsertStep(s, t); Frame(s'.mem, s'.log, |s'.threads|)
    ensures var s' := InsertStep(s, t); CellOk(s'.mem, s'.log, s'.threads, i)
  {
    CellAtEnqueue(s);
    assert CellOk(s.mem, s.log, s.threads, i);
    if i != Slot(s.mem, s.mem.enqueuePos) {
      OtherCell(s, i);
    }
  }

  /** Only the cell under enqueue_pos can be vacant for it. */
  lemma OtherCell(s: State, i: nat)
    requires Inv(s) && i < Capacity(s.mem) && i != Slot(s.mem, s.mem.enqueuePos)
    ensures s.log.serving[i] != s.mem.enqueuePos
    ensures s.log.serving[i] + Capacity(s.mem) != s.mem.enqueuePos
  {
    assert CellOk(s.mem, s.log, s.threads, i);
    ModLap(s.log.serving[i], Capacity(s.mem));
  }

  /** Two threads never own the same cell, and nobody writes a cell that another reads. */
  lemma OneOwner(s: State, t: nat, u: nat, p: nat, q: nat)
    requires Inv(s) && t < |s.threads| && u < |s.threads| && t != u
    requires Writing(s.threads[t], p) || Reading(s.threads[t], p)
    requires Writing(s.threads[u], q) || Reading(s.threads[u], q)
    ensures Slot(s.mem, p) != Slot(s.mem, q)
  {
    assert ThreadOk(s.mem, s.log, t, s.threads[t]) && ThreadOk(s.mem, s.log, u, s.threads[u]);
  }

  /** The owner of the cell of pos rewrites it and moves on to pc'. */
  function Rewrite(s: State, t: nat, pos: nat, c: Cell, next: nat, pc: Pc): State
    requires Shape(s.mem) && |s.log.serving| == Capacity(s.mem) && t < |s.threads|
  {
    var j := Slot(s.mem, pos);
    Goto(s, t, pc).(mem := SetCell(s.mem, j, c), log := s.log.(serving := s.log.serving[j := next]))
  }

  lemma RewriteKeeps(s: State, t: nat, pos: nat, c: Cell, next: nat, pc: Pc)
    requires Inv(s) && t < |s.threads|
    requires Writing(s.threads[t], pos) || Reading(s.threads[t], pos)
    requires s.mem.cells[Slot(s.mem, pos)].sequence <= c.sequence
    requires var s' := Rewrite(s, t, pos, c, next, pc);
             && CellOk(s'.mem, s'.log, s'.threads, Slot(s.mem, pos))
             && ThreadOk(s'.mem, s'.log, t, pc)
    ensures Inv(Rewrite(s, t, pos, c, next, pc))
  {
    var s' := Rewrite(s, t, pos, c, next, pc);
    forall i | 0 <= i < Capacity(s'.mem) && i != Slot(s.mem, pos)
      ensures CellOk(s'.mem, s'.log, s'.threads, i)
    {
      RewriteOtherCell(s, t, pos, c, next, pc, i);
    }
    forall u | 0 <= u < |s'.threads| && u != t ensures ThreadOk(s'.mem, s'.log, u, s'.threads[u]) {
      OthersOffCell(s, t, u, pos);
      ThreadFrame(s.mem, s.log, s'.mem, s'.log, u, s.threads[u]);
    }
  }

  lemma RewriteOtherCell(s: State, t: nat, pos: nat, c: Cell, next: nat, pc: Pc, i: nat)
    requires Inv(s) && t < |s.threads| && i < Capacity(s.mem) && i != Slot(s.mem, pos)
    requires Writing(s.threads[t], pos) || Reading(s.threads[t], pos)
    ensures var s' := Rewrite(s, t, pos, c, next, pc); CellOk(s'.mem, s'.log, s'.threads, i)
  {
    assert CellOk(s.mem, s.log, s.threads, i);
    assert ThreadOk(s.mem, s.log, t, s.threads[t]);
  }

  lemma KeepFill(s: State, t: nat)
    requires Inv(s) && t < |s.threads| && (s.threads[t].InsKey? || s.threads[t].InsValue?)
    ensures Inv(InsertStep(s, t))
  {
    var s', pos := InsertStep(s, t), s.threads[t].pos;
    var j := Slot(s.mem, pos);
    assert ThreadOk(s.mem, s.log, t, s.threads[t]);
    assert CellOk(s.mem, s.log, s.threads, j);
    assert s.log.serving[j := pos] == s.log.serving;
    RewriteKeeps(s, t, pos, s'.mem.cells[j], pos, s'.threads[t]);
  }

  lemma KeepPublish(s: State, t: nat)
    requires Inv(s) && Headroom(s.mem) && t < |s.threads| && s.threads[t].InsPublish?
    ensures Inv(InsertStep(s, t))
  {
    var pos := s.threads[t].pos;
    var j := Slot(s.mem, pos);
    var c := s.mem.cells[j].(sequence := pos + 1);
    PublishedCell(s, t, pos, c);
    RewriteKeeps(s, t, pos, c, pos, InsCount(s.threads[t].kv, pos));
    PublishIsRewrite(s, t, pos, c);
  }

  lemma PublishIsRewrite(s: State, t: nat, pos: nat, c: Cell)
    requires Shape(s.mem) && |s.log.serving| == Capacity(s.mem) && t < |s.threads|
    requires s.threads[t].InsPublish? && pos == s.threads[t].pos && pos + 1 < TWO64
    requires s.log.serving[Slot(s.mem, pos)] == pos
    requires c == s.mem.cells[Slot(s.mem, pos)].(sequence := pos + 1)
    ensures InsertStep(s, t) == Rewrite(s, t, pos, c, pos, InsCount(s.threads[t].kv, pos))
  {
    assert s.log.serving[Slot(s.mem, pos) := pos] == s.log.serving;
  }

  lemma PublishedCell(s: State, t: nat, pos: nat, c: Cell)
    requires Inv(s) && t < |s.threads| && s.threads[t].InsPublish? && pos == s.threads[t].pos
    requires c == s.mem.cells[Slot(s.mem, pos)].(sequence := pos + 1)
    ensures s.mem.cells[Slot(s.mem, pos)].sequence == pos == s.log.serving[Slot(s.mem, pos)]
    ensures var s' := Rewrite(s, t, pos, c, pos, InsCount(s.threads[t].kv, pos));
            && CellOk(s'.mem, s'.log, s'.threads, Slot(s.mem, pos))
            && ThreadOk(s'.mem, s'.log, t, InsCount(s.threads[t].kv, pos))
  {
    assert ThreadOk(s.mem, s.log, t, s.threads[t]);
    assert CellOk(s.mem, s.log, s.threads, Slot(s.mem, pos));
  }

  lemma OthersOffCell(s: State, t: nat, u: nat, p: nat)
    requires Inv(s) && t < |s.threads| && u < |s.threads| && t != u
    requires Writing(s.threads[t], p) || Reading(s.threads[t], p)
    ensures forall q: nat :: Writing(s.threads[u], q) || Reading(s.threads[u], q) ==> Slot(s.mem, q) != Slot(s.mem, p)
  {
    forall q: nat | Writing(s.threads[u], q) || Reading(s.threads[u], q)
      ensures Slot(s.mem, q) != Slot(s.mem, p)
    {
      OneOwner(s, t, u, p, q);
    }
  }

  lemma KeepPopLoop(s: State, t: nat)
    requires Inv(s) && Headroom(s.mem) && t < |s.threads|
    requires var pc := s.threads[t]; pc.PopStart? || pc.PopSeq? || pc.PopReload?
    ensures Inv(PopStep(s, t))
  {
    var pc := s.threads[t];
    if pc.PopSeq? {
      PopLook(s, t);
    }
    LocalStep(s, t, PopStep(s, t).threads[t]);
  }

  lemma PopLook(s: State, t: nat)
    requires Inv(s) && Headroom(s.mem) && t < |s.threads| && s.threads[t].PopSeq?
    ensures ThreadOk(s.mem, s.log, t, PopStep(s, t).threads[t])
  {
    assert ThreadOk(s.mem, s.log, t, s.threads[t]);
    SequenceForReader(s, s.threads[t].pos);
  }

  lemma KeepPopClaim(s: State, t: nat)
    requires Inv(s) && Headroom(s.mem) && t < |s.threads| && s.threads[t].PopCas?
    ensures Inv(PopStep(s, t))
  {
    var pc := s.threads[t];
    if s.mem.dequeuePos != pc.pos {
      LocalStep(s, t, PopReload(pc.tries + 1, pc.first));
    } else {
      ReadyAtDequeue(s, t);
      var s' := PopStep(s, t);
      assert Frame(s'.mem, s'.log, |s'.threads|);
      forall i | 0 <= i < Capacity(s'.mem) ensures CellOk(s'.mem, s'.log, s'.threads, i) {
        DrainedCell(s, t, i);
      }
      forall u | 0 <= u < |s'.threads| && u != t ensures ThreadOk(s'.mem, s'.log, u, s'.threads[u]) {
        ThreadFrame(s.mem, s.log, s'.mem, s'.log, u, s.threads[u]);
      }
    }
  }

  /** When a consumer's claim succeeds, the pair of that position is in the cell. */
  lemma ReadyAtDequeue(s: State, t: nat)
    requires Inv(s) && t < |s.threads| && s.threads[t].PopCas? && s.threads[t].pos == s.mem.dequeuePos
    ensures s.mem.dequeuePos < s.mem.enqueuePos
    ensures Serves(s.mem, s.log, s.mem.dequeuePos, s.mem.dequeuePos + 1)
    ensures var c := s.mem.cells[Slot(s.mem, s.mem.dequeuePos)]; Kv(c.key, c.value) == s.log.puts[s.mem.dequeuePos]
  {
    CellAtDequeue(s);
    assert ThreadOk(s.mem, s.log, t, s.threads[t]);
    assert CellOk(s.mem, s.log, s.threads, Slot(s.mem, s.mem.dequeuePos));
  }

  lemma DrainedCell(s: State, t: nat, i: nat)
    requires Inv(s) && Headroom(s.mem) && t < |s.threads| && i < Capacity(s.mem)
    requires s.threads[t].PopCas? && s.threads[t].pos == s.mem.dequeuePos < s.mem.enqueuePos
    requires Serves(s.mem, s.log, s.mem.dequeuePos, s.mem.dequeuePos + 1)
    requires var s' := PopStep(s, t); Frame(s'.mem, s'.log, |s'.threads|)
    ensures var s' := PopStep(s, t); CellOk(s'.mem, s'.log, s'.threads, i)
  {
    var d := s.mem.dequeuePos;
    assert CellOk(s.mem, s.log, s.threads, i);
    if i != Slot(s.mem, d) {
      ModLap(s.log.serving[i], Capacity(s.mem));
      assert s.log.serving[i] != d && s.log.serving[i] + Capacity(s.mem) != d;
    }
  }

  lemma KeepCopyOut(s: State, t: nat)
    requires Inv(s) && t < |s.threads| && (s.threads[t].PopKey? || s.threads[t].PopValue?)
    ensures Inv(PopStep(s, t))
  {
    var s', pos := PopStep(s, t), s.threads[t].pos;
    assert ThreadOk(s.mem, s.log, t, s.threads[t]);
    assert CellOk(s.mem, s.log, s.threads, Slot(s.mem, pos));
    forall i | 0 <= i < Capacity(s'.mem) ensures CellOk(s'.mem, s'.log, s'.threads, i) {
      assert CellOk(s.mem, s.log, s.threads, i);
    }
  }

  lemma KeepRelease(s: State, t: nat)
    requires Inv(s) && Headroom(s.mem) && t < |s.threads| && s.threads[t].PopRelease?
    ensures Inv(PopStep(s, t))
  {
    var PopRelease(pos, kv) := s.threads[t];
    var j, next := Slot(s.mem, pos), pos + Capacity(s.mem);
    var c := s.mem.cells[j].(sequence := next);
    ReleasedCell(s, t, pos, kv, c);
    RewriteKeeps(s, t, pos, c, next, PopCount(pos, kv));
    ReleaseIsRewrite(s, t, pos, kv, c);
  }

  lemma ReleaseIsRewrite(s: State, t: nat, pos: nat, kv: Kv, c: Cell)
    requires Shape(s.mem) && |s.log.serving| == Capacity(s.mem) && t < |s.threads|
    requires s.threads[t] == PopRelease(pos, kv) && pos + Capacity(s.mem) < TWO64
    requires c == s.mem.cells[Slot(s.mem, pos)].(sequence := pos + Capacity(s.mem))
    ensures PopStep(s, t) == Rewrite(s, t, pos, c, pos + Capacity(s.mem), PopCount(pos, kv))
  {
  }

  lemma ReleasedCell(s: State, t: nat, pos: nat, kv: Kv, c: Cell)
    requires Inv(s) && t < |s.threads| && s.threads[t] == PopRelease(pos, kv)
    requires c == s.mem.cells[Slot(s.mem, pos)].(sequence := pos + Capacity(s.mem))
    ensures s.mem.cells[Slot(s.mem, pos)].sequence <= c.sequence && pos < s.mem.dequeuePos
    ensures var s' := Rewrite(s, t, pos, c, pos + Capacity(s.mem), PopCount(pos, kv));
            && CellOk(s'.mem, s'.log, s'.threads, Slot(s.mem, pos))
            && ThreadOk(s'.mem, s'.log, t, PopCount(pos, kv))
  {
    assert ThreadOk(s.mem, s.log, t, s.threads[t]);
    assert CellOk(s.mem, s.log, s.threads, Slot(s.mem, pos));
    ModLap(pos, Capacity(s.mem));
  }

  lemma KeepCount(s: State, t: nat)
    requires Inv(s) && t < |s.threads| && (s.threads[t].InsCount? || s.threads[t].PopCount?)
    ensures Inv(Apply(s, Tick(t)))
  {
    var s' := Apply(s, Tick(t));
    assert ThreadOk(s.mem, s.log, t, s.threads[t]);
    LocalStep(s, t, s'.threads[t]);
    Recount(Goto(s, t, s'.threads[t]), s'.mem.count);
  }

  lemma Recount(s: State, count: nat)
    requires Inv(s)
    ensures Inv(s.(mem := s.mem.(count := count)))
  {
    var m' := s.mem.(count := count);
    forall i | 0 <= i < Capacity(m') ensures CellOk(m', s.log, s.threads, i) {
      assert CellOk(s.mem, s.log, s.threads, i);
    }
    forall u | 0 <= u < |s.threads| ensures ThreadOk(m', s.log, u, s.threads[u]) {
      ThreadFrame(s.mem, s.log, m', s.log, u, s.threads[u]);
    }
  }

  /** Every event of every thread keeps the invariant. */
  lemma KeepInv(s: State, e: Event)
    requires Inv(s) && Headroom(s.mem)
    ensures Inv(Apply(s, e))
  {
    if e.t < |s.threads| {
      var pc := s.threads[e.t];
      match e
      case CallInsert(t, kv) => if Resting(pc) { LocalStep(s, t, InsStart(kv)); }
      case CallPop(t) => if Resting(pc) { LocalStep(s, t, PopStart); }
      case Tick(t) =>
        match pc
        case InsStart(_) => KeepInsertLoop(s, t);
        case InsSeq(_, _, _, _) => KeepInsertLoop(s, t);
        case InsReload(_, _, _) => KeepInsertLoop(s, t);
        case InsCas(_, _, _, _) => KeepInsertClaim(s, t);
        case InsKey(_, _) => KeepFill(s, t);
        case InsValue(_, _) => KeepFill(s, t);
        case InsPublish(_, _) => KeepPublish(s, t);
        case InsCount(_, _) => KeepCount(s, t);
        case PopStart => KeepPopLoop(s, t);
        case PopSeq(_, _, _) => KeepPopLoop(s, t);
        case PopReload(_, _) => KeepPopLoop(s, t);
        case PopCas(_, _, _) => KeepPopClaim(s, t);
        case PopKey(_) => KeepCopyOut(s, t);
        case PopValue(_, _) => KeepCopyOut(s, t);
        case PopRelease(_, _) => KeepRelease(s, t);
        case PopCount(_, _) => KeepCount(s, t);
        case _ =>
    }
  }

  // ---- What one step does to the counters ----

  /** Updates of the counter a thread still owes: one up after a claim for writing, one down after
      a claim for reading. */
  function Owed(pc: Pc): int {
    if pc.InsKey? || pc.InsValue? || pc.InsPublish? || pc.InsCount? then 1
    else if pc.PopKey? || pc.PopValue? || pc.PopRelease? || pc.PopCount? then -1
    else 0
  }

  function CountChange(pc: Pc): int {
    if pc.InsCount? then 1 else if pc.PopCount? then -1 else 0
  }

  /** What a step adds to the counter is what it takes off the thread's debt. */
  predicate Balanced(m: Memory, pc: Pc, m': Memory, pc': Pc) {
    && m'.count == (if pc.InsCount? then Add64(m.count, 1) else if pc.PopCount? then Sub64(m.count, 1) else m.count)
    && m'.enqueuePos - m'.dequeuePos - Owed(pc') == m.enqueuePos - m.dequeuePos - Owed(pc) + CountChange(pc)
    && m.enqueuePos <= m'.enqueuePos <= m.enqueuePos + 1
    && m.dequeuePos <= m'.dequeuePos
  }

  lemma InsertBalances(s: State, t: nat)
    requires Shape(s.mem) && t < |s.threads| && !Popping(s.threads[t]) && s.mem.enqueuePos < TWO63
    ensures Balanced(s.mem, s.threads[t], InsertStep(s, t).mem, InsertStep(s, t).threads[t])
    ensures InsertStep(s, t).threads == s.threads[t := InsertStep(s, t).threads[t]]
  {
    match s.threads[t] {
      case InsCas(_, pos, _, _) =>
      case _ =>
    }
  }

  lemma PopBalances(s: State, t: nat)
    requires Shape(s.mem) && t < |s.threads| && Popping(s.threads[t]) && s.mem.dequeuePos < TWO63
    ensures Balanced(s.mem, s.threads[t], PopStep(s, t).mem, PopStep(s, t).threads[t])
    ensures PopStep(s, t).threads == s.threads[t := PopStep(s, t).threads[t]]
  {
    match s.threads[t] {
      case PopCas(pos, _, _) =>
      case _ =>
    }
  }

  // ---- Refinement of the bounded FIFO ----

  /** Events other than a successful claim leave counters and history alone. */
  lemma QuietStep(s: State, e: Event)
    requires Shape(s.mem) && Effect(s, e).None?
    ensures Apply(s, e).log.puts == s.log.puts && Apply(s, e).mem.dequeuePos == s.mem.dequeuePos
  {
  }

  lemma PutRefines(s: State, t: nat)
    requires Inv(s) && Headroom(s.mem) && t < |s.threads|
    requires s.threads[t].InsCas? && s.threads[t].pos == s.mem.enqueuePos
    ensures var s' := Apply(s, Tick(t));
            && s.mem.dequeuePos == s'.mem.dequeuePos <= |s'.log.puts|
            && Contents(s') == Contents(s) + [s.threads[t].kv]
            && |Contents(s)| < Capacity(s.mem)
  {
    CellAtEnqueue(s);
    assert ThreadOk(s.mem, s.log, t, s.threads[t]);
  }

  lemma TakeRefines(s: State, t: nat)
    requires Inv(s) && Headroom(s.mem) && t < |s.threads|
    requires s.threads[t].PopCas? && s.threads[t].pos == s.mem.dequeuePos
    ensures var s' := Apply(s, Tick(t));
            var c := s.mem.cells[Slot(s.mem, s.mem.dequeuePos)];
            && s'.mem.dequeuePos <= |s'.log.puts|
            && Contents(s) == [Kv(c.key, c.value)] + Contents(s')
  {
    ReadyAtDequeue(s, t);
  }

  /** Each event is exactly one abstract operation on the contents, or none. */
  lemma StepRefines(s: State, e: Event)
    requires Inv(s) && Headroom(s.mem)
    ensures Inv(Apply(s, e))
    ensures match Effect(s, e)
            case None => Contents(Apply(s, e)) == Contents(s)
            case Some(op) =>
              Fifo.Do(Contents(s), Fifo.AtMost(Capacity(s.mem)), op) == Some(Contents(Apply(s, e)))
  {
    KeepInv(s, e);
    match Effect(s, e)
    case None => QuietStep(s, e);
    case Some(op) =>
      if op.Put? {
        PutRefines(s, e.t);
      } else {
        TakeRefines(s, e.t);
      }
  }

  lemma InitialInv(s: State)
    requires Initial(s)
    ensures Inv(s)
  {
    forall i | 0 <= i < Capacity(s.mem) ensures CellOk(s.mem, s.log, s.threads, i) {
      DivModUnique(i, Capacity(s.mem), 0, i);
    }
  }

  lemma CountersGrow(s: State, e: Event)
    requires Inv(s) && Headroom(s.mem)
    ensures s.mem.enqueuePos <= Apply(s, e).mem.enqueuePos <= s.mem.enqueuePos + 1
    ensures s.mem.dequeuePos <= Apply(s, e).mem.dequeuePos
  {
    if e.Tick? && e.t < |s.threads| {
      if Popping(s.threads[e.t]) {
        PopBalances(s, e.t);
      } else {
        InsertBalances(s, e.t);
      }
    }
  }

  /** Positions stay clear of the sign bit up to the last step of a run, however many steps it has. */
  predicate Clear(s: State, es: seq<Event>)
    requires Shape(s.mem)
  {
    es == [] || (Clear(s, es[..|es| - 1]) && Headroom(Run(s, es[..|es| - 1]).mem))
  }

  /** A run of less than 2^63 - 2^32 steps is clear, whatever the steps are. */
  lemma {:induction false} ShortRunIsClear(s: State, es: seq<Event>)
    requires Initial(s) && |es| + TWO32 < TWO63
    ensures Clear(s, es) && Run(s, es).mem.enqueuePos <= |es|
  {
    if es != [] {
      var before := es[..|es| - 1];
      ShortRunIsClear(s, before);
      RunRefines(s, before);
      CountersGrow(Run(s, before), es[|es| - 1]);
    }
  }

  /** Every run keeps the invariant, and its compare-and-swaps, in the order they succeed, are a history
      of one bounded FIFO ending in the contents. */
  lemma {:induction false} RunRefines(s: State, es: seq<Event>)
    requires Initial(s) && Clear(s, es)
    ensures Inv(Run(s, es))
    ensures Fifo.Replay(Fifo.AtMost(Capacity(s.mem)), Trace(s, es)) == Some(Contents(Run(s, es)))
  {
    if es == [] {
      InitialInv(s);
    } else {
      var before, e := es[..|es| - 1], es[|es| - 1];
      RunRefines(s, before);
      StepRefines(Run(s, before), e);
      var r := Run(s, before);
      Fifo.Extend(Fifo.AtMost(Capacity(s.mem)), Trace(s, before), Effect(r, e), Contents(r), Contents(Run(s, es)));
    }
  }

  /** The k-th successful claim for reading takes the k-th pair claimed for writing, and the thread
      that made it returns that pair, whatever it was interleaved with. */
  lemma RunDelivers(s: State, es: seq<Event>)
    requires Initial(s) && Clear(s, es)
    ensures var r := Run(s, es);
            && Fifo.Puts(Trace(s, es)) == r.log.puts
            && |Fifo.Takes(Trace(s, es))| == r.mem.dequeuePos
            && (forall t :: 0 <= t < |r.threads| && r.threads[t].Popped? && r.threads[t].result == Success ==>
                  && r.threads[t].at < r.mem.dequeuePos == |r.log.consumers|
                  && r.log.consumers[r.threads[t].at] == t
                  && r.threads[t].kv == Fifo.Takes(Trace(s, es))[r.threads[t].at])
  {
    RunRefines(s, es);
    var r, ops := Run(s, es), Trace(s, es);
    LogIsPuts(s, es);
    Fifo.TakesArePrefixOfPuts(Fifo.AtMost(Capacity(s.mem)), ops);
    assert r.log.puts == Fifo.Takes(ops) + r.log.puts[r.mem.dequeuePos..];
    forall t | 0 <= t < |r.threads| && r.threads[t].Popped? && r.threads[t].result == Success
      ensures r.threads[t].at < r.mem.dequeuePos == |r.log.consumers| && r.log.consumers[r.threads[t].at] == t
      ensures r.threads[t].kv == Fifo.Takes(ops)[r.threads[t].at]
    {
      assert ThreadOk(r.mem, r.log, t, r.threads[t]);
    }
  }

  lemma {:induction false} LogIsPuts(s: State, es: seq<Event>)
    requires Initial(s)
    ensures Fifo.Puts(Trace(s, es)) == Run(s, es).log.puts
  {
    if es != [] {
      var before, e := es[..|es| - 1], es[|es| - 1];
      LogIsPuts(s, before);
      PutsOfStep(Run(s, before), e, Trace(s, before));
    }
  }

  lemma PutsOfStep(s: State, e: Event, ops: seq<Fifo.Op>)
    requires Shape(s.mem) && Fifo.Puts(ops) == s.log.puts
    ensures Fifo.Puts(Fifo.Append(ops, Effect(s, e))) == Apply(s, e).log.puts
  {
    match Effect(s, e)
    case None => QuietStep(s, e);
    case Some(op) => assert (ops + [op])[..|ops|] == ops;
  }

  // ---- Refusals tell the truth ----

  /** insert answers "full" exactly when it stands at enqueue_pos itself and the position one lap
      earlier is not released: nobody claimed it for reading, or its reader is still copying. */
  lemma FullIsTruthful(s: State, t: nat)
    requires Inv(s) && Headroom(s.mem) && t < |s.threads| && s.threads[t].InsSeq?
    ensures var pos := s.threads[t].pos;
            var lap := pos - Capacity(s.mem);
            Apply(s, Tick(t)).threads[t] == Inserted(NoMem, pos, s.threads[t].kv)
            <==> pos == s.mem.enqueuePos && 0 <= lap && s.log.serving[Slot(s.mem, pos)] == lap
    ensures var pos := s.threads[t].pos;
            var lap := pos - Capacity(s.mem);
            Apply(s, Tick(t)).threads[t] == Inserted(NoMem, pos, s.threads[t].kv) ==>
              || |Contents(s)| == Capacity(s.mem)
              || (lap < s.mem.dequeuePos && Reading(s.threads[s.log.consumers[lap]], lap))
  {
    var pos := s.threads[t].pos;
    assert ThreadOk(s.mem, s.log, t, s.threads[t]);
    SequenceForWriter(s, pos);
    CellOfPosition(s, pos);
    assert CellOk(s.mem, s.log, s.threads, Slot(s.mem, pos));
  }

  /** pop answers "empty" exactly when it stands at dequeue_pos itself and that position is not
      published: nobody claimed it for writing, or its writer has not stored its sequence yet. */
  lemma EmptyIsTruthful(s: State, t: nat)
    requires Inv(s) && Headroom(s.mem) && t < |s.threads| && s.threads[t].PopSeq?
    ensures var pos := s.threads[t].pos;
            Apply(s, Tick(t)).threads[t] == Popped(NotFound, pos, Kv(0, 0))
            <==> pos == s.mem.dequeuePos && s.mem.cells[Slot(s.mem, pos)].sequence <= pos
    ensures var pos := s.threads[t].pos;
            Apply(s, Tick(t)).threads[t] == Popped(NotFound, pos, Kv(0, 0)) ==>
              Contents(s) == [] || Writing(s.threads[s.log.producers[pos]], pos)
  {
    var pos := s.threads[t].pos;
    assert ThreadOk(s.mem, s.log, t, s.threads[t]);
    SequenceForReader(s, pos);
    CellAtDequeue(s);
    assert CellOk(s.mem, s.log, s.threads, Slot(s.mem, pos));
  }

  /** The queue is full, or the reader of the position one lap before enqueue_pos still copies. */
  predicate FullHere(s: State, pos: nat)
    requires s.mem.dequeuePos <= |s.log.puts|
  {
    && pos == s.mem.enqueuePos
    && (|Contents(s)| == Capacity(s.mem) ||
        (Capacity(s.mem) <= pos && exists u :: 0 <= u < |s.threads| && Reading(s.threads[u], pos - Capacity(s.mem))))
  }

  /** The queue is empty, or the writer of the position at dequeue_pos has not published it. */
  predicate EmptyHere(s: State, pos: nat)
    requires s.mem.dequeuePos <= |s.log.puts|
  {
    && pos == s.mem.dequeuePos
    && (Contents(s) == [] || exists u :: 0 <= u < |s.threads| && Writing(s.threads[u], pos))
  }

  /** The refusing thread touches nothing, so its reason still stands when it returns. */
  lemma RefusedHere(s: State, t: nat)
    requires Inv(s) && Headroom(s.mem) && t < |s.threads|
    ensures var pc, s' := s.threads[t], Apply(s, Tick(t));
            && (pc.InsSeq? && s'.threads[t] == Inserted(NoMem, pc.pos, pc.kv) ==>
                  s' == Goto(s, t, s'.threads[t]) && FullHere(s', pc.pos))
            && (pc.PopSeq? && s'.threads[t] == Popped(NotFound, pc.pos, Kv(0, 0)) ==>
                  s' == Goto(s, t, s'.threads[t]) && EmptyHere(s', pc.pos))
  {
    var pc, s' := s.threads[t], Apply(s, Tick(t));
    if pc.InsSeq? && s'.threads[t] == Inserted(NoMem, pc.pos, pc.kv) {
      FullIsTruthful(s, t);
      var lap := pc.pos - Capacity(s.mem);
      if |Contents(s)| != Capacity(s.mem) {
        assert Reading(s'.threads[s.log.consumers[lap]], lap);
      }
    } else if pc.PopSeq? && s'.threads[t] == Popped(NotFound, pc.pos, Kv(0, 0)) {
      EmptyIsTruthful(s, t);
      if Contents(s) != [] {
        assert Writing(s'.threads[s.log.producers[pc.pos]], pc.pos);
      }
    }
  }

  // ---- Progress ----

  /** A call gives up with BUSY exactly after 100 rounds, and was then overtaken by at least 100 claims of
      other threads on the same counter since its first load. */
  lemma BusyMeansOvertaken(s: State, t: nat)
    requires Inv(s) && t < |s.threads|
    ensures var pc := s.threads[t];
            pc.InsReload? && Apply(s, Tick(t)).threads[t] == Inserted(Busy, pc.first, pc.kv) ==>
              pc.tries == 100 && pc.first + 100 <= s.mem.enqueuePos && NoneBy(s.log.producers, pc.first, t)
    ensures var pc := s.threads[t];
            pc.PopReload? && Apply(s, Tick(t)).threads[t] == Popped(Busy, pc.first, Kv(0, 0)) ==>
              pc.tries == 100 && pc.first + 100 <= s.mem.dequeuePos && NoneBy(s.log.consumers, pc.first, t)
  {
    assert ThreadOk(s.mem, s.log, t, s.threads[t]);
  }

  /** How many accesses thread t makes in a run. */
  function Accesses(es: seq<Event>, t: nat): nat {
    if es == [] then 0 else
      Accesses(es[..|es| - 1], t) + if es[|es| - 1] == Tick(t) then 1 else 0
  }

  /** Thread t makes no new call. */
  predicate NoCall(es: seq<Event>, t: nat) {
    forall i :: 0 <= i < |es| && es[i].t == t ==> es[i].Tick?
  }

  /** An upper bound on the accesses that a call has left, whatever the memory holds. */
  function StepsLeft(pc: Pc): int {
    match pc
    case InsStart(_) => 304
    case InsSeq(_, _, tries, _) => 303 - 3 * tries
    case InsCas(_, _, tries, _) => 302 - 3 * tries
    case InsReload(_, tries, _) => 304 - 3 * tries
    case InsKey(_, _) => 4
    case InsValue(_, _) => 3
    case InsPublish(_, _) => 2
    case InsCount(_, _) => 1
    case PopStart => 304
    case PopSeq(_, tries, _) => 303 - 3 * tries
    case PopCas(_, tries, _) => 302 - 3 * tries
    case PopReload(tries, _) => 304 - 3 * tries
    case PopKey(_) => 4
    case PopValue(_, _) => 3
    case PopRelease(_, _) => 2
    case PopCount(_, _) => 1
    case _ => 0
  }

  /** At most 100 rounds have failed so far; every step keeps this. */
  predicate TriesOk(pc: Pc) {
    && (pc.InsSeq? || pc.InsCas? || pc.PopSeq? || pc.PopCas? ==> pc.tries < 100)
    && (pc.InsReload? || pc.PopReload? ==> pc.tries <= 100)
  }

  /** A step from pc to pc' uses up one access. */
  predicate UsesOne(pc: Pc, pc': Pc) { TriesOk(pc') && 0 <= StepsLeft(pc') < StepsLeft(pc) }

  lemma InsertUsesOne(s: State, t: nat)
    requires Shape(s.mem) && t < |s.threads| && TriesOk(s.threads[t])
    requires !Resting(s.threads[t]) && !Popping(s.threads[t])
    ensures UsesOne(s.threads[t], InsertStep(s, t).threads[t])
  {
    hide Dif, SetCell;
  }

  lemma PopUsesOne(s: State, t: nat)
    requires Shape(s.mem) && t < |s.threads| && TriesOk(s.threads[t]) && Popping(s.threads[t])
    ensures UsesOne(s.threads[t], PopStep(s, t).threads[t])
  {
    hide Dif, SetCell;
  }

  lemma OthersKeepPc(s: State, e: Event, t: nat)
    requires Shape(s.mem) && t < |s.threads| && e.t != t
    ensures Apply(s, e).threads[t] == s.threads[t]
  {
    hide Dif, SetCell;
  }

  lemma StepCounts(s: State, e: Event, t: nat)
    requires Shape(s.mem) && t < |s.threads| && TriesOk(s.threads[t]) && (e.t == t ==> e.Tick?)
    ensures var pc, pc' := s.threads[t], Apply(s, e).threads[t];
            && (!Resting(pc) ==> 0 < StepsLeft(pc))
            && if e.t == t && !Resting(pc) then UsesOne(pc, pc') else pc' == pc
  {
    if e.t != t {
      OthersKeepPc(s, e, t);
    } else if Popping(s.threads[t]) {
      PopUsesOne(s, t);
    } else if !Resting(s.threads[t]) {
      InsertUsesOne(s, t);
    }
  }

  /** Both operations are wait-free: after 304 accesses of its own a call has returned, whatever the other
      threads do. */
  lemma CallReturns(s: State, es: seq<Event>, t: nat)
    requires Shape(s.mem) && t < |s.threads| && (s.threads[t].InsStart? || s.threads[t].PopStart?)
    requires NoCall(es, t) && 304 <= Accesses(es, t)
    ensures Resting(Run(s, es).threads[t])
  {
    CallLeft(s, es, t);
    StepCounts(Run(s, es), Tick(t), t);
  }

  lemma {:induction false} CallLeft(s: State, es: seq<Event>, t: nat)
    requires Shape(s.mem) && t < |s.threads| && TriesOk(s.threads[t]) && NoCall(es, t)
    ensures var pc := Run(s, es).threads[t];
            TriesOk(pc) && (Resting(pc) || Accesses(es, t) + StepsLeft(pc) <= StepsLeft(s.threads[t]))
  {
    if es != [] {
      var before, e := es[..|es| - 1], es[|es| - 1];
      CallLeft(s, before, t);
      StepCounts(Run(s, before), e, t);
    }
  }

  // ---- Sequence numbers and ownership ----

  /** No event lowers a sequence number. */
  lemma SequenceGrows(s: State, e: Event, i: nat)
    requires Inv(s) && Headroom(s.mem) && i < Capacity(s.mem)
    ensures s.mem.cells[i].sequence <= Apply(s, e).mem.cells[i].sequence
  {
    if e.Tick? && e.t < |s.threads| {
      var pc := s.threads[e.t];
      assert ThreadOk(s.mem, s.log, e.t, pc);
      if pc.InsPublish? || pc.PopRelease? {
        assert pc.pos < s.mem.enqueuePos;
      }
    }
  }

  /** Modulo the capacity, the sequence number alone tells the phase of the cell. */
  lemma PhaseFromSequence(s: State, i: nat)
    requires Inv(s) && i < Capacity(s.mem)
    ensures s.mem.cells[i].sequence % Capacity(s.mem) == i <==> Vacant(s.mem, s.log, s.threads, i)
    ensures s.mem.cells[i].sequence % Capacity(s.mem) != i <==> Occupied(s.mem, s.log, s.threads, i)
  {
    assert CellOk(s.mem, s.log, s.threads, i);
    ModNext(s.log.serving[i], Capacity(s.mem));
  }

  // ---- The element counter ----

  predicate Counted(s: State) {
    s.mem.count == Wrap64(s.mem.enqueuePos - s.mem.dequeuePos - Sum(s.threads, Owed))
  }

  lemma BalancedCounts(s: State, t: nat, s': State)
    requires t < |s.threads| == |s'.threads| && Counted(s)
    requires s'.threads == s.threads[t := s'.threads[t]]
    requires Balanced(s.mem, s.threads[t], s'.mem, s'.threads[t])
    ensures Counted(s')
  {
    SumUpdate(s.threads, t, s'.threads[t], Owed);
    ModShift(s.mem.enqueuePos - s.mem.dequeuePos - Sum(s.threads, Owed), CountChange(s.threads[t]), TWO64);
  }

  lemma KeepCounted(s: State, e: Event)
    requires Shape(s.mem) && s.mem.dequeuePos <= s.mem.enqueuePos < TWO63 && Counted(s)
    ensures Counted(Apply(s, e))
  {
    if e.t < |s.threads| {
      if e.CallInsert? {
        SumUpdate(s.threads, e.t, InsStart(e.kv), Owed);
      } else if e.CallPop? {
        SumUpdate(s.threads, e.t, PopStart, Owed);
      } else if Popping(s.threads[e.t]) {
        PopBalances(s, e.t);
        BalancedCounts(s, e.t, PopStep(s, e.t));
      } else {
        InsertBalances(s, e.t);
        BalancedCounts(s, e.t, InsertStep(s, e.t));
      }
    }
  }

  predicate AtRest(s: State) {
    forall t :: 0 <= t < |s.threads| ==> Resting(s.threads[t])
  }

  /** ds_vyukhov_verify on an allocated buffer. */
  function Verify(m: Memory): Result {
    if m.dequeuePos > m.enqueuePos then Corrupt
    else if m.enqueuePos - m.dequeuePos > Capacity(m) then Corrupt
    else if m.count > Capacity(m) then Corrupt
    else Success
  }

  lemma {:induction false} SumBounded(threads: seq<Pc>)
    ensures 0 - |threads| <= Sum(threads, Owed) <= |threads|
  {
    if threads != [] {
      SumBounded(threads[..|threads| - 1]);
    }
  }

  /** In every reachable state verify answers by the counter alone: it succeeds if and only if the length, less
      the increments and plus the decrements that calls under way still owe, is an occupancy the queue may have. */
  lemma VerdictInFlight(s: State)
    requires Inv(s) && Counted(s) && |s.threads| < TWO63
    ensures Verify(s.mem) == (if 0 <= |Contents(s)| - Sum(s.threads, Owed) <= Capacity(s.mem) then Success else Corrupt)
  {
    SumBounded(s.threads);
    WrapSmall(|Contents(s)| - Sum(s.threads, Owed));
  }

  lemma WrapSmall(x: int)
    requires 0 - TWO63 < x < TWO63 + TWO32
    ensures Wrap64(x) == if x < 0 then x + TWO64 else x
  {
  }

  /** Between operations the counter is the length, every cell is settled and verify succeeds. */
  lemma RestIsExact(s: State)
    requires Inv(s) && Counted(s) && AtRest(s)
    ensures s.mem.count == |Contents(s)| && Verify(s.mem) == Success
    ensures forall i :: 0 <= i < Capacity(s.mem) ==>
              s.log.serving[i] >= s.mem.enqueuePos || Occupied(s.mem, s.log, s.threads, i)
    ensures forall i :: 0 <= i < Capacity(s.mem) && Occupied(s.mem, s.log, s.threads, i) ==>
              s.mem.dequeuePos <= s.log.serving[i]
  {
    SumZero(s.threads, Owed);
    forall i | 0 <= i < Capacity(s.mem)
      ensures s.log.serving[i] >= s.mem.enqueuePos || Occupied(s.mem, s.log, s.threads, i)
      ensures Occupied(s.mem, s.log, s.threads, i) ==> s.mem.dequeuePos <= s.log.serving[i]
    {
      assert CellOk(s.mem, s.log, s.threads, i);
    }
  }

  /** Counting holds in every run; at rest verify therefore succeeds after any history. */
  lemma {:induction false} RunCounted(s: State, es: seq<Event>)
    requires Initial(s) && Clear(s, es)
    ensures Counted(Run(s, es))
    ensures AtRest(Run(s, es)) ==> Verify(Run(s, es).mem) == Success
  {
    RunRefines(s, es);
    if es == [] {
      SumZero(s.threads, Owed);
    } else {
      var before := es[..|es| - 1];
      RunCounted(s, before);
      RunRefines(s, before);
      KeepCounted(Run(s, before), es[|es| - 1]);
    }
    if AtRest(Run(s, es)) {
      RestIsExact(Run(s, es));
    }
  }

  // ---- A queue that verify rejects ----

  lemma Then(s: State, es: seq<Event>, e: Event) returns (es': seq<Event>)
    requires Shape(s.mem)
    ensures es' == es + [e] && Run(s, es') == Apply(Run(s, es), e)
  {
    es' := es + [e];
    assert es'[..|es|] == es;
  }

  /** Thread 0 has published its pair and has not counted it yet. */
  predicate Uncounted(s: State, kv: Kv) {
    && Shape(s.mem) && 2 <= |s.threads| && s.threads[0] == InsCount(kv, 0) && s.threads[1] == Idle
    && s.mem.enqueuePos == 1 && s.mem.dequeuePos == s.mem.count == 0
    && s.mem.cells[0] == Cell(1, kv.key, kv.value)
  }

  lemma Publishes(s: State, kv: Kv) returns (es: seq<Event>)
    requires Initial(s) && 2 <= |s.threads|
    ensures |es| == 7 && Uncounted(Run(s, es), kv)
  {
    es := Then(s, [], CallInsert(0, kv));
    ClaimsFirst(s, kv);
    hide Apply;
    es := Then(s, es, Tick(0));
    es := Then(s, es, Tick(0));
    es := Then(s, es, Tick(0));
    FillsFirst(Run(s, es), kv);
    hide Run;
    es := Then(s, es, Tick(0));
    es := Then(s, es, Tick(0));
    es := Then(s, es, Tick(0));
  }

  predicate Claimed(s: State, kv: Kv) {
    && Shape(s.mem) && 2 <= |s.threads| && s.threads[0] == InsKey(kv, 0) && s.threads[1] == Idle
    && s.mem.enqueuePos == 1 && s.mem.dequeuePos == s.mem.count == 0
  }

  lemma ClaimsFirst(s: State, kv: Kv)
    requires Initial(s) && 2 <= |s.threads|
    ensures Claimed(Apply(Apply(Apply(Apply(s, CallInsert(0, kv)), Tick(0)), Tick(0)), Tick(0)), kv)
  {
    DivModUnique(0, Capacity(s.mem), 0, 0);
  }

  lemma FillsFirst(s: State, kv: Kv)
    requires Claimed(s, kv)
    ensures Uncounted(Apply(Apply(Apply(s, Tick(0)), Tick(0)), Tick(0)), kv)
  {
    DivModUnique(0, Capacity(s.mem), 0, 0);
  }

  predicate Reads(s: State, kv: Kv) {
    && Shape(s.mem) && 2 <= |s.threads| && s.threads[1] == PopKey(0) && s.mem.count == 0
    && s.mem.cells[0] == Cell(1, kv.key, kv.value)
  }

  lemma ClaimsForPop(s: State, kv: Kv)
    requires Uncounted(s, kv)
    ensures Reads(Apply(Apply(Apply(Apply(s, CallPop(1)), Tick(1)), Tick(1)), Tick(1)), kv)
  {
    DivModUnique(0, Capacity(s.mem), 0, 0);
  }

  lemma CopiesOut(s: State, kv: Kv)
    requires Reads(s, kv)
    ensures var r := Apply(Apply(Apply(Apply(s, Tick(1)), Tick(1)), Tick(1)), Tick(1));
            r.mem.count == TWO64 - 1 && r.threads[1] == Popped(Success, 0, kv)
  {
    DivModUnique(0, Capacity(s.mem), 0, 0);
  }

  lemma Overtakes(s: State, es: seq<Event>, kv: Kv) returns (all: seq<Event>)
    requires Shape(s.mem) && Uncounted(Run(s, es), kv)
    ensures |all| == |es| + 8 && Run(s, all).mem.count == TWO64 - 1 && Run(s, all).threads[1] == Popped(Success, 0, kv)
  {
    ClaimsForPop(Run(s, es), kv);
    hide Apply, Run;
    all := Then(s, es, CallPop(1));
    all := Then(s, all, Tick(1));
    all := Then(s, all, Tick(1));
    all := Then(s, all, Tick(1));
    CopiesOut(Run(s, all), kv);
    all := Then(s, all, Tick(1));
    all := Then(s, all, Tick(1));
    all := Then(s, all, Tick(1));
    all := Then(s, all, Tick(1));
  }

  /** A consumer that takes and counts down a pair before its producer has counted it up: verify, run at that
      moment, calls a queue corrupt in which nothing is wrong. */
  lemma VerifyCanFail(s: State, kv: Kv) returns (es: seq<Event>)
    requires Initial(s) && 2 <= |s.threads|
    ensures Clear(s, es) && Inv(Run(s, es)) && Verify(Run(s, es).mem) == Corrupt
    ensures Run(s, es).threads[1] == Popped(Success, 0, kv)
  {
    es := Publishes(s, kv);
    es := Overtakes(s, es, kv);
    ShortRunIsClear(s, es);
    RunRefines(s, es);
  }
}
