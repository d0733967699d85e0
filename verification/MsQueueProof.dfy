// Shape, refinement, progress, counting and reclamation for the Michael-Scott queue, in every
// interleaving of any number of threads.

module MsQueueProof {
  import opened Base
  import opened Calls
  import opened Words
  import opened Tally
  import opened MsQueue
  import Fifo
  import Links

  // ---- The inductive invariant ----

  /** How many pairs have been removed: the position of the dummy node in the chain. */
  function First(g: Log): nat { |g.poppers| }

  /** The i-th node ever linked: its place, its pair and its successor are fixed. */
  predicate NodeOk(m: Memory, g: Log, i: nat)
    requires i < |g.chain| == |g.puts|
  {
    var a := g.chain[i];
    && a != NULL && a in g.index && g.index[a] == i
    && a in m.nodes && m.nodes[a] == Node(if i + 1 < |g.chain| then g.chain[i + 1] else NULL, g.puts[i])
    && (First(g) <= i ==> a !in g.freed)
  }

  predicate Frame(m: Memory, g: Log) {
    && |g.chain| == |g.puts| == |g.linkers|
    && First(g) <= g.last < |g.chain| <= g.last + 2
    && m.head == g.chain[First(g)] && m.tail == g.chain[g.last]
    && (forall a :: a in g.index ==> g.index[a] < |g.chain| && g.chain[g.index[a]] == a)
    && (forall i :: 0 <= i < |g.chain| ==> NodeOk(m, g, i))
    && NULL !in m.nodes && g.freed <= m.nodes.Keys && g.maker.Keys <= m.nodes.Keys && g.index.Keys <= m.nodes.Keys
  }

  /** A node that only its maker can reach. */
  predicate Private(m: Memory, g: Log, t: nat, a: Addr) {
    && a != NULL && a in m.nodes && a !in g.index && a !in g.freed
    && a in g.maker && g.maker[a] == t
  }

  predicate Ready(m: Memory, g: Log, t: nat, a: Addr, kv: Kv, tries: nat, from: nat) {
    && Private(m, g, t, a) && m.nodes[a] == Node(NULL, kv)
    && tries < MAX_RETRIES && from <= |g.chain|
    && NoneBy(g.linkers, from, t)
  }

  /** t linked node a, which carries kv, right behind tail. */
  predicate Linked(g: Log, t: nat, a: Addr, tail: Addr, kv: Kv) {
    && Gave(g, t, a, kv) && 0 < g.index[a] && g.chain[g.index[a] - 1] == tail
  }

  predicate Gave(g: Log, t: nat, a: Addr, kv: Kv) {
    && a in g.index && g.index[a] < |g.chain| && g.index[a] < |g.linkers| && g.index[a] < |g.puts|
    && g.linkers[g.index[a]] == t && g.puts[g.index[a]] == kv
  }

  /** The head a pop loaded, with the tail's progress at that time. */
  predicate AtHead(g: Log, tries: nat, from: nat, head: Addr, seen: nat) {
    && tries < MAX_RETRIES && head in g.index && g.index[head] <= First(g)
    && g.index[head] <= seen <= g.last && from + tries <= g.index[head] + seen
  }

  predicate Behind(g: Log, head: Addr, next: Addr)
    requires head in g.index
  {
    g.index[head] + 1 < |g.chain| && next == g.chain[g.index[head] + 1]
  }

  /** t unlinked node head and returns kv, the pair of its successor. */
  predicate Took(g: Log, t: nat, head: Addr, kv: Kv) {
    && head in g.index && g.index[head] < |g.poppers| && g.poppers[g.index[head]] == t
    && g.index[head] + 1 < |g.puts| && kv == g.puts[g.index[head] + 1]
  }

  predicate ThreadOk(m: Memory, g: Log, t: nat, pc: Pc) {
    match pc
    case Idle => true
    case InsAlloc(_) => true
    case InsKey(kv, a) => Private(m, g, t, a)
    case InsValue(kv, a) => Private(m, g, t, a) && m.nodes[a].data.key == kv.key
    case InsNext(kv, a) => Private(m, g, t, a) && m.nodes[a].data == kv
    case InsTail(kv, a, tries, from) =>
      Ready(m, g, t, a, kv, tries, from) && 2 * from - 2 + tries <= g.last + |g.chain|
    case InsPeek(kv, a, tries, from, tail, seen) =>
      && Ready(m, g, t, a, kv, tries, from) && tail in g.index && g.index[tail] <= g.last
      && seen <= |g.chain| && 2 * from - 2 + tries <= g.index[tail] + seen
    case InsHelp(kv, a, tries, from, tail, seen, next) =>
      && Ready(m, g, t, a, kv, tries, from) && tail in g.index && g.index[tail] <= g.last && Behind(g, tail, next)
      && seen <= |g.chain| && 2 * from - 2 + tries <= g.index[tail] + seen
    case InsLink(kv, a, tries, from, tail, seen) =>
      && Ready(m, g, t, a, kv, tries, from) && tail in g.index && g.index[tail] <= g.last
      && seen <= g.index[tail] + 1 && 2 * from - 2 + tries <= g.index[tail] + seen
    case InsCount(kv, a, tail) => Linked(g, t, a, tail, kv)
    case InsSwing(kv, a, tail) => Linked(g, t, a, tail, kv)
    case InsFree(kv, a, from) => Private(m, g, t, a) && from + 5 <= |g.chain| && NoneBy(g.linkers, from, t)
    case Inserted(result, kv, a) => result == Success ==> Gave(g, t, a, kv)
    case PopHead(tries, from) => tries < MAX_RETRIES && from + tries <= First(g) + g.last
    case PopTail(tries, from, head, seen) => AtHead(g, tries, from, head, seen)
    case PopNext(tries, from, head, seen, tail) =>
      AtHead(g, tries, from, head, seen) && tail in g.index && seen <= g.index[tail] <= g.last
    case PopCheck(tries, from, head, seen, tail, next) =>
      && AtHead(g, tries, from, head, seen) && tail in g.index && seen <= g.index[tail] <= g.last
      && (next != NULL ==> Behind(g, head, next))
    case PopHelp(tries, from, head, seen, tail, next) =>
      AtHead(g, tries, from, head, seen) && tail == head && seen <= g.index[tail] && Behind(g, head, next)
    case PopKey(tries, from, head, seen, next) =>
      AtHead(g, tries, from, head, seen) && g.index[head] < g.last && Behind(g, head, next)
    case PopValue(tries, from, head, seen, next, key) =>
      && AtHead(g, tries, from, head, seen) && g.index[head] < g.last && Behind(g, head, next)
      && g.index[head] + 1 < |g.puts| && key == g.puts[g.index[head] + 1].key
    case PopCas(tries, from, head, seen, next, kv) =>
      && AtHead(g, tries, from, head, seen) && g.index[head] < g.last && Behind(g, head, next)
      && g.index[head] + 1 < |g.puts| && kv == g.puts[g.index[head] + 1]
    case PopFree(head, kv) => Took(g, t, head, kv) && head !in g.freed
    case PopCount(head, kv) => Took(g, t, head, kv)
    case Popped(result, kv, head) => result == Success ==> Took(g, t, head, kv)
  }

  /** Between its link and its swing, a thread stands for the tail's lag. */
  predicate Swinging(pc: Pc, a: Addr, tail: Addr) {
    (pc.InsCount? || pc.InsSwing?) && pc.node == a && pc.tail == tail
  }

  /** The tail lags behind only while the thread that linked the last node has not swung it. */
  predicate LagOk(s: State)
    requires Frame(s.mem, s.log)
  {
    var n := |s.log.chain|;
    s.log.last + 2 == n ==>
      && s.log.linkers[n - 1] < |s.threads|
      && Swinging(s.threads[s.log.linkers[n - 1]], s.log.chain[n - 1], s.log.chain[n - 2])
  }

  predicate Inv(s: State) {
    && Frame(s.mem, s.log)
    && LagOk(s)
    && (forall t :: 0 <= t < |s.threads| ==> ThreadOk(s.mem, s.log, t, s.threads[t]))
  }

  /** The pairs in the queue, oldest first. */
  function Contents(s: State): seq<Kv>
    requires First(s.log) < |s.log.puts|
  {
    s.log.puts[First(s.log) + 1..]
  }

  // ---- Steps ----

  /** A step that only moves t between places that do not stand for the tail's lag. */
  lemma LocalStep(s: State, t: nat, pc: Pc)
    requires Inv(s) && t < |s.threads| && !s.threads[t].InsCount? && !s.threads[t].InsSwing?
    requires ThreadOk(s.mem, s.log, t, pc)
    ensures Inv(Goto(s, t, pc))
  {
  }

  /** The history g' extends g, seen from thread u. */
  ghost predicate Extends(m: Memory, g: Log, m': Memory, g': Log, u: nat) {
    && |g.chain| == |g.puts| == |g.linkers| && |g'.chain| == |g'.puts| == |g'.linkers|
    && g.chain <= g'.chain && g.puts <= g'.puts && g.linkers <= g'.linkers && g.poppers <= g'.poppers
    && g.last <= g'.last
    && NoneBy(g'.linkers, |g.linkers|, u)
    && (forall a :: a in g.index ==> a in g'.index && g'.index[a] == g.index[a])
    && (forall a :: a in g.maker ==> a in g'.maker && g'.maker[a] == g.maker[a])
    && (forall a :: Private(m, g, u, a) ==>
          a in m'.nodes && m'.nodes[a] == m.nodes[a] && a !in g'.index && a !in g'.freed)
  }

  lemma InsertFrame(m: Memory, g: Log, m': Memory, g': Log, u: nat, pc: Pc)
    requires ThreadOk(m, g, u, pc) && Extends(m, g, m', g', u) && !Popping(pc)
    ensures ThreadOk(m', g', u, pc)
  {
  }

  lemma PopFrame(m: Memory, g: Log, m': Memory, g': Log, u: nat, pc: Pc)
    requires ThreadOk(m, g, u, pc) && Extends(m, g, m', g', u) && Popping(pc)
    requires pc.PopFree? ==> pc.head !in g'.freed
    ensures ThreadOk(m', g', u, pc)
  {
  }

  /** What a thread relies on survives steps of others that extend the history and keep off the
      node it owns. */
  lemma ThreadFrame(m: Memory, g: Log, m': Memory, g': Log, u: nat, pc: Pc)
    requires ThreadOk(m, g, u, pc) && Extends(m, g, m', g', u)
    requires pc.PopFree? ==> pc.head !in g'.freed
    ensures ThreadOk(m', g', u, pc)
  {
    if Popping(pc) {
      PopFrame(m, g, m', g', u, pc);
    } else {
      InsertFrame(m, g, m', g', u, pc);
    }
  }

  lemma NodeAt(s: State, a: Addr)
    requires Inv(s) && a in s.log.index
    ensures s.log.index[a] < |s.log.chain| && s.log.chain[s.log.index[a]] == a
    ensures NodeOk(s.mem, s.log, s.log.index[a])
    ensures Deref(s.mem, a).next != NULL <==> s.log.index[a] + 1 < |s.log.chain|
    ensures Deref(s.mem, a).next != NULL ==> Behind(s.log, a, Deref(s.mem, a).next)
  {
    assert NodeOk(s.mem, s.log, s.log.index[a]);
    if s.log.index[a] + 1 < |s.log.chain| {
      assert NodeOk(s.mem, s.log, s.log.index[a] + 1);
    }
  }

  /** Head and tail sit where the history says. */
  lemma Ends(s: State)
    requires Inv(s)
    ensures s.mem.head in s.log.index && s.log.index[s.mem.head] == First(s.log) && s.mem.head != NULL
    ensures s.mem.tail in s.log.index && s.log.index[s.mem.tail] == s.log.last && s.mem.tail != NULL
  {
    assert NodeOk(s.mem, s.log, First(s.log)) && NodeOk(s.mem, s.log, s.log.last);
  }

  lemma KeepInsertLook(s: State, t: nat)
    requires Inv(s) && t < |s.threads| && (s.threads[t].InsTail? || s.threads[t].InsPeek?)
    ensures Inv(InsertStep(s, t))
  {
    Ends(s);
    if s.threads[t].InsPeek? {
      NodeAt(s, s.threads[t].tail);
    }
    LocalStep(s, t, InsertStep(s, t).threads[t]);
  }

  /** The owner of a private node rewrites it. */
  lemma KeepOwnStore(s: State, t: nat, a: Addr, n: Node, pc: Pc)
    requires Inv(s) && t < |s.threads| && Private(s.mem, s.log, t, a)
    requires !s.threads[t].InsCount? && !s.threads[t].InsSwing?
    requires var m' := Store(s.mem, a, n); ThreadOk(m', s.log, t, pc)
    ensures Inv(Goto(s, t, pc).(mem := Store(s.mem, a, n)))
  {
    var m' := Store(s.mem, a, n);
    forall i | 0 <= i < |s.log.chain| ensures NodeOk(m', s.log, i) {
      assert NodeOk(s.mem, s.log, i);
    }
    forall u | 0 <= u < |s.threads| && u != t ensures ThreadOk(m', s.log, u, s.threads[u]) {
      ThreadFrame(s.mem, s.log, m', s.log, u, s.threads[u]);
    }
  }

  lemma KeepFill(s: State, t: nat)
    requires Inv(s) && t < |s.threads|
    requires var pc := s.threads[t]; pc.InsKey? || pc.InsValue? || pc.InsNext?
    ensures Inv(InsertStep(s, t))
  {
    var a, s' := s.threads[t].node, InsertStep(s, t);
    KeepOwnStore(s, t, a, s'.mem.nodes[a], s'.threads[t]);
  }

  /** A compare-and-swap that may advance the tail from `tail` to the node behind it. */
  lemma KeepSwing(s: State, t: nat, tail: Addr, next: Addr, pc: Pc)
    requires Inv(s) && t < |s.threads| && tail in s.log.index && Behind(s.log, tail, next)
    requires s.threads[t].InsCount? || s.threads[t].InsSwing? ==> Swinging(s.threads[t], next, tail)
    requires ThreadOk(SwingTail(s, tail, next).mem, SwingTail(s, tail, next).log, t, pc)
    ensures Inv(Goto(SwingTail(s, tail, next), t, pc))
  {
    var s1 := SwingTail(s, tail, next);
    var s' := Goto(s1, t, pc);
    Ends(s);
    NodeAt(s, tail);
    forall i | 0 <= i < |s.log.chain| ensures NodeOk(s'.mem, s'.log, i) {
      assert NodeOk(s.mem, s.log, i);
    }
    assert Frame(s'.mem, s'.log);
    forall u | 0 <= u < |s.threads| && u != t ensures ThreadOk(s'.mem, s'.log, u, s'.threads[u]) {
      ThreadFrame(s.mem, s.log, s'.mem, s'.log, u, s.threads[u]);
    }
  }

  lemma SwingAdvances(s: State, tail: Addr, next: Addr)
    requires Inv(s) && tail in s.log.index && s.log.index[tail] <= s.log.last
    ensures var g := SwingTail(s, tail, next).log;
            g == s.log.(last := g.last) && s.log.index[tail] + 1 <= g.last && s.log.last <= g.last
  {
    Ends(s);
    NodeAt(s, tail);
  }

  lemma KeepInsertHelp(s: State, t: nat)
    requires Inv(s) && t < |s.threads| && s.threads[t].InsHelp?
    ensures Inv(InsertStep(s, t))
  {
    var InsHelp(kv, a, tries, from, tail, seen, next) := s.threads[t];
    HelpedRetry(s, t);
    KeepSwing(s, t, tail, next, InsRetry(kv, a, tries, from));
  }

  lemma HelpedRetry(s: State, t: nat)
    requires Inv(s) && t < |s.threads| && s.threads[t].InsHelp?
    ensures var InsHelp(kv, a, tries, from, tail, seen, next) := s.threads[t];
            var s1 := SwingTail(s, tail, next);
            && tail in s.log.index && Behind(s.log, tail, next)
            && ThreadOk(s1.mem, s1.log, t, InsRetry(kv, a, tries, from))
  {
    assert ThreadOk(s.mem, s.log, t, s.threads[t]);
    SwingAdvances(s, s.threads[t].tail, s.threads[t].next);
  }

  lemma KeepInsertSwing(s: State, t: nat)
    requires Inv(s) && t < |s.threads| && s.threads[t].InsSwing?
    ensures Inv(InsertStep(s, t))
  {
    var InsSwing(kv, a, tail) := s.threads[t];
    assert ThreadOk(s.mem, s.log, t, s.threads[t]);
    assert NodeOk(s.mem, s.log, s.log.index[a] - 1);
    KeepSwing(s, t, tail, a, Inserted(Success, kv, a));
  }

  lemma KeepPopHelp(s: State, t: nat)
    requires Inv(s) && t < |s.threads| && s.threads[t].PopHelp?
    ensures Inv(PopStep(s, t))
  {
    var PopHelp(tries, from, head, seen, tail, next) := s.threads[t];
    assert ThreadOk(s.mem, s.log, t, s.threads[t]);
    SwingAdvances(s, tail, next);
    KeepSwing(s, t, tail, next, PopRetry(tries, from));
  }

  lemma KeepLink(s: State, t: nat)
    requires Inv(s) && t < |s.threads| && s.threads[t].InsLink?
    ensures Inv(InsertStep(s, t))
  {
    var InsLink(kv, a, tries, from, tail, seen) := s.threads[t];
    assert ThreadOk(s.mem, s.log, t, s.threads[t]);
    NodeAt(s, tail);
    if Deref(s.mem, tail).next != NULL {
      LocalStep(s, t, InsRetry(kv, a, tries, from));
    } else {
      var s' := InsertStep(s, t);
      LinkedChain(s, t);
      assert Frame(s'.mem, s'.log);
      forall u | 0 <= u < |s.threads| && u != t ensures ThreadOk(s'.mem, s'.log, u, s'.threads[u]) {
        LinkFrame(s, t, u);
      }
    }
  }

  lemma LinkFrame(s: State, t: nat, u: nat)
    requires Inv(s) && t < |s.threads| && u < |s.threads| && u != t && s.threads[t].InsLink?
    requires Deref(s.mem, s.threads[t].tail).next == NULL
    ensures ThreadOk(InsertStep(s, t).mem, InsertStep(s, t).log, u, s.threads[u])
  {
    var InsLink(kv, a, tries, from, tail, seen) := s.threads[t];
    assert ThreadOk(s.mem, s.log, t, s.threads[t]) && ThreadOk(s.mem, s.log, u, s.threads[u]);
    var m' := Store(s.mem, tail, Deref(s.mem, tail).(next := a));
    var g := s.log;
    var g' := g.(chain := g.chain + [a], index := g.index[a := |g.chain|],
                 puts := g.puts + [kv], linkers := g.linkers + [t]);
    assert Extends(s.mem, g, m', g', u);
    ThreadFrame(s.mem, g, m', g', u, s.threads[u]);
  }

  /** The link CAS succeeds only behind the last node, which is then also the tail. */
  lemma LinkedChain(s: State, t: nat)
    requires Inv(s) && t < |s.threads| && s.threads[t].InsLink?
    requires Deref(s.mem, s.threads[t].tail).next == NULL
    ensures s.log.last + 1 == |s.log.chain| && s.log.chain[s.log.last] == s.threads[t].tail == s.mem.tail
    ensures var s' := InsertStep(s, t); forall i :: 0 <= i < |s'.log.chain| ==> NodeOk(s'.mem, s'.log, i)
  {
    var s', tail := InsertStep(s, t), s.threads[t].tail;
    assert ThreadOk(s.mem, s.log, t, s.threads[t]);
    NodeAt(s, tail);
    forall i | 0 <= i < |s'.log.chain| ensures NodeOk(s'.mem, s'.log, i) {
      if i + 1 < |s'.log.chain| {
        assert NodeOk(s.mem, s.log, i);
      }
    }
  }

  lemma KeepCount(s: State, t: nat, count: nat, pc: Pc)
    requires Inv(s) && t < |s.threads| && ThreadOk(s.mem, s.log, t, pc)
    requires var p := s.threads[t]; (p.InsCount? && pc == InsSwing(p.kv, p.node, p.tail)) || p.PopCount?
    ensures Inv(Goto(s, t, pc).(mem := s.mem.(count := count)))
  {
    var s' := Goto(s, t, pc).(mem := s.mem.(count := count));
    forall i | 0 <= i < |s.log.chain| ensures NodeOk(s'.mem, s'.log, i) {
      assert NodeOk(s.mem, s.log, i);
    }
    assert Frame(s'.mem, s'.log);
    forall u | 0 <= u < |s.threads| ensures ThreadOk(s'.mem, s'.log, u, s'.threads[u]) {
      Recounted(s.mem, s.log, count, u, s'.threads[u]);
    }
  }

  lemma Recounted(m: Memory, g: Log, count: nat, u: nat, pc: Pc)
    requires ThreadOk(m, g, u, pc) && |g.chain| == |g.puts| == |g.linkers|
    ensures ThreadOk(m.(count := count), g, u, pc)
  {
    if Popping(pc) {
      assert Extends(m, g, m.(count := count), g, u);
      ThreadFrame(m, g, m.(count := count), g, u, pc);
    } else {
      assert Extends(m, g, m.(count := count), g, u);
      ThreadFrame(m, g, m.(count := count), g, u, pc);
    }
  }

  /** The node a thread is about to free. */
  function Doomed(pc: Pc): Addr { if pc.InsFree? then pc.node else if pc.PopFree? then pc.head else NULL }

  /** A node about to be freed is neither live nor freed already, and no other thread owns it or is
      about to free it too. */
  lemma FreedOnce(s: State, t: nat, u: nat)
    requires Inv(s) && t < |s.threads| && u < |s.threads| && u != t
    requires s.threads[t].InsFree? || s.threads[t].PopFree?
    ensures var a := Doomed(s.threads[t]);
            && a !in s.log.freed && a in s.mem.nodes && !Private(s.mem, s.log, u, a)
            && (s.threads[u].InsFree? || s.threads[u].PopFree? ==> Doomed(s.threads[u]) != a)
            && (a in s.log.index ==> s.log.index[a] < First(s.log))
  {
    assert ThreadOk(s.mem, s.log, t, s.threads[t]) && ThreadOk(s.mem, s.log, u, s.threads[u]);
    if s.threads[t].PopFree? {
      NodeAt(s, s.threads[t].head);
    }
  }

  lemma KeepFree(s: State, t: nat, pc: Pc)
    requires Inv(s) && t < |s.threads| && (s.threads[t].InsFree? || s.threads[t].PopFree?)
    requires var p := s.threads[t];
             if p.InsFree? then pc == Inserted(Invalid, p.kv, p.node) else pc == PopCount(p.head, p.kv)
    ensures Inv(Goto(s, t, pc).(log := s.log.(freed := s.log.freed + {Doomed(s.threads[t])})))
  {
    var g' := s.log.(freed := s.log.freed + {Doomed(s.threads[t])});
    assert ThreadOk(s.mem, s.log, t, s.threads[t]);
    forall i | 0 <= i < |s.log.chain| ensures NodeOk(s.mem, g', i) {
      FreeChain(s, t, i);
    }
    assert Frame(s.mem, g');
    forall u | 0 <= u < |s.threads| && u != t ensures ThreadOk(s.mem, g', u, s.threads[u]) {
      FreeFrame(s, t, u);
    }
  }

  lemma FreeChain(s: State, t: nat, i: nat)
    requires Inv(s) && t < |s.threads| && i < |s.log.chain|
    requires s.threads[t].InsFree? || s.threads[t].PopFree?
    ensures NodeOk(s.mem, s.log.(freed := s.log.freed + {Doomed(s.threads[t])}), i)
    ensures Doomed(s.threads[t]) in s.mem.nodes
  {
    assert NodeOk(s.mem, s.log, i);
    assert ThreadOk(s.mem, s.log, t, s.threads[t]);
    if s.threads[t].PopFree? {
      NodeAt(s, s.threads[t].head);
    }
  }

  lemma FreeFrame(s: State, t: nat, u: nat)
    requires Inv(s) && t < |s.threads| && u < |s.threads| && u != t
    requires s.threads[t].InsFree? || s.threads[t].PopFree?
    ensures ThreadOk(s.mem, s.log.(freed := s.log.freed + {Doomed(s.threads[t])}), u, s.threads[u])
  {
    var g' := s.log.(freed := s.log.freed + {Doomed(s.threads[t])});
    FreedOnce(s, t, u);
    assert ThreadOk(s.mem, s.log, u, s.threads[u]);
    assert Extends(s.mem, s.log, s.mem, g', u);
    ThreadFrame(s.mem, s.log, s.mem, g', u, s.threads[u]);
  }

  lemma KeepPopLook(s: State, t: nat)
    requires Inv(s) && t < |s.threads|
    requires var pc := s.threads[t]; pc.PopHead? || pc.PopTail? || pc.PopNext?
    ensures Inv(PopStep(s, t))
  {
    assert ThreadOk(s.mem, s.log, t, s.threads[t]);
    Ends(s);
    if s.threads[t].PopNext? {
      NodeAt(s, s.threads[t].head);
    }
    LocalStep(s, t, PopStep(s, t).threads[t]);
  }

  lemma KeepPopCheck(s: State, t: nat)
    requires Inv(s) && t < |s.threads| && s.threads[t].PopCheck?
    ensures Inv(PopStep(s, t))
  {
    assert ThreadOk(s.mem, s.log, t, s.threads[t]);
    Ends(s);
    NodeAt(s, s.threads[t].head);
    NodeAt(s, s.threads[t].tail);
    LocalStep(s, t, PopStep(s, t).threads[t]);
  }

  lemma KeepPopCopy(s: State, t: nat)
    requires Inv(s) && t < |s.threads| && (s.threads[t].PopKey? || s.threads[t].PopValue?)
    ensures Inv(PopStep(s, t))
  {
    assert ThreadOk(s.mem, s.log, t, s.threads[t]);
    assert NodeOk(s.mem, s.log, s.log.index[s.threads[t].head] + 1);
    LocalStep(s, t, PopStep(s, t).threads[t]);
  }

  lemma KeepPopClaim(s: State, t: nat)
    requires Inv(s) && t < |s.threads| && s.threads[t].PopCas?
    ensures Inv(PopStep(s, t))
  {
    var PopCas(tries, from, head, seen, next, kv) := s.threads[t];
    assert ThreadOk(s.mem, s.log, t, s.threads[t]);
    Ends(s);
    NodeAt(s, head);
    if s.mem.head != head {
      LocalStep(s, t, PopRetry(tries, from));
    } else {
      var s' := PopStep(s, t);
      forall i | 0 <= i < |s.log.chain| ensures NodeOk(s'.mem, s'.log, i) {
        assert NodeOk(s.mem, s.log, i);
      }
      assert Frame(s'.mem, s'.log);
      forall u | 0 <= u < |s.threads| && u != t ensures ThreadOk(s'.mem, s'.log, u, s'.threads[u]) {
        ClaimFrame(s, t, next, u);
      }
    }
  }

  lemma ClaimFrame(s: State, t: nat, next: Addr, u: nat)
    requires Inv(s) && u < |s.threads| && u != t
    ensures ThreadOk(s.mem.(head := next), s.log.(poppers := s.log.poppers + [t]), u, s.threads[u])
  {
    var m', g' := s.mem.(head := next), s.log.(poppers := s.log.poppers + [t]);
    assert ThreadOk(s.mem, s.log, u, s.threads[u]);
    assert Extends(s.mem, s.log, m', g', u);
    ThreadFrame(s.mem, s.log, m', g', u, s.threads[u]);
  }

  lemma KeepGrant(s: State, t: nat, a: Addr, junk: Node)
    requires Inv(s) && t < |s.threads| && s.threads[t].InsAlloc? && a != NULL && a !in s.mem.nodes
    ensures Inv(Apply(s, Grant(t, a, junk)))
  {
    var s' := Apply(s, Grant(t, a, junk));
    forall i | 0 <= i < |s.log.chain| ensures NodeOk(s'.mem, s'.log, i) {
      assert NodeOk(s.mem, s.log, i);
    }
    assert Frame(s'.mem, s'.log);
    forall u | 0 <= u < |s.threads| && u != t ensures ThreadOk(s'.mem, s'.log, u, s'.threads[u]) {
      GrantFrame(s, t, a, junk, u);
    }
  }

  lemma GrantFrame(s: State, t: nat, a: Addr, junk: Node, u: nat)
    requires Inv(s) && u < |s.threads| && u != t && a !in s.mem.nodes
    ensures ThreadOk(Store(s.mem, a, junk), s.log.(maker := s.log.maker[a := t]), u, s.threads[u])
  {
    var m', g' := Store(s.mem, a, junk), s.log.(maker := s.log.maker[a := t]);
    assert ThreadOk(s.mem, s.log, u, s.threads[u]);
    assert Extends(s.mem, s.log, m', g', u);
    ThreadFrame(s.mem, s.log, m', g', u, s.threads[u]);
  }

  /** Every event of every thread keeps the invariant. */
  lemma KeepInv(s: State, e: Event)
    requires Inv(s)
    ensures Inv(Apply(s, e))
  {
    if e.t < |s.threads| {
      var pc := s.threads[e.t];
      match e
      case CallInsert(t, kv) => if Resting(pc) { LocalStep(s, t, InsAlloc(kv)); }
      case CallPop(t) => if Resting(pc) { LocalStep(s, t, PopHead(0, First(s.log) + s.log.last)); }
      case Grant(t, a, junk) =>
        if pc.InsAlloc? && a != NULL && a !in s.mem.nodes {
          KeepGrant(s, t, a, junk);
        } else if pc.InsAlloc? && a == NULL {
          LocalStep(s, t, Inserted(NoMem, pc.kv, NULL));
        }
      case Tick(t) =>
        if Popping(pc) {
          KeepPop(s, t);
        } else {
          KeepInsert(s, t);
        }
    }
  }

  lemma KeepInsert(s: State, t: nat)
    requires Inv(s) && t < |s.threads| && !Popping(s.threads[t])
    ensures Inv(InsertStep(s, t))
  {
    var pc := s.threads[t];
    assert ThreadOk(s.mem, s.log, t, pc);
    if pc.InsKey? || pc.InsValue? || pc.InsNext? {
      KeepFill(s, t);
    } else if pc.InsTail? || pc.InsPeek? {
      KeepInsertLook(s, t);
    } else if pc.InsHelp? {
      KeepInsertHelp(s, t);
    } else if pc.InsLink? {
      KeepLink(s, t);
    } else if pc.InsCount? {
      KeepCount(s, t, Add64(s.mem.count, 1), InsSwing(pc.kv, pc.node, pc.tail));
    } else if pc.InsSwing? {
      KeepInsertSwing(s, t);
    } else if pc.InsFree? {
      KeepFree(s, t, Inserted(Invalid, pc.kv, pc.node));
    }
  }

  lemma KeepPop(s: State, t: nat)
    requires Inv(s) && t < |s.threads| && Popping(s.threads[t])
    ensures Inv(PopStep(s, t))
  {
    var pc := s.threads[t];
    assert ThreadOk(s.mem, s.log, t, pc);
    if pc.PopHead? || pc.PopTail? || pc.PopNext? {
      KeepPopLook(s, t);
    } else if pc.PopCheck? {
      KeepPopCheck(s, t);
    } else if pc.PopHelp? {
      KeepPopHelp(s, t);
    } else if pc.PopKey? || pc.PopValue? {
      KeepPopCopy(s, t);
    } else if pc.PopCas? {
      KeepPopClaim(s, t);
    } else if pc.PopFree? {
      KeepFree(s, t, PopCount(pc.head, pc.kv));
    } else {
      KeepCount(s, t, Sub64(s.mem.count, 1), Popped(Success, pc.kv, pc.head));
    }
  }

  // ---- Refinement of the unbounded FIFO ----

  lemma QuietStep(s: State, e: Event)
    requires Effect(s, e).None?
    ensures Apply(s, e).log.puts == s.log.puts && First(Apply(s, e).log) == First(s.log)
  {
  }

  lemma PutRefines(s: State, t: nat)
    requires Inv(s) && t < |s.threads| && s.threads[t].InsLink? && Deref(s.mem, s.threads[t].tail).next == NULL
    ensures var s' := Apply(s, Tick(t));
            && First(s'.log) < |s'.log.puts| && Contents(s') == Contents(s) + [s.threads[t].kv]
  {
  }

  lemma TakeRefines(s: State, t: nat)
    requires Inv(s) && t < |s.threads| && s.threads[t].PopCas? && s.threads[t].head == s.mem.head
    ensures var s' := Apply(s, Tick(t));
            && First(s'.log) < |s'.log.puts| && Contents(s) == [s.threads[t].kv] + Contents(s')
  {
    assert ThreadOk(s.mem, s.log, t, s.threads[t]);
    Ends(s);
  }

  /** A load of NULL from head->next happens only when the queue is empty. */
  lemma MissRefines(s: State, t: nat)
    requires Inv(s) && t < |s.threads| && s.threads[t].PopNext? && Deref(s.mem, s.threads[t].head).next == NULL
    ensures Contents(s) == []
  {
    assert ThreadOk(s.mem, s.log, t, s.threads[t]);
    NodeAt(s, s.threads[t].head);
  }

  /** Each event is exactly one abstract operation on the contents, or none: the link CAS appends,
      the head CAS removes the pair that was copied before it, and the load that makes pop answer
      "empty" finds the queue empty. */
  lemma StepRefines(s: State, e: Event)
    requires Inv(s)
    ensures Inv(Apply(s, e))
    ensures match Effect(s, e)
            case None => Contents(Apply(s, e)) == Contents(s)
            case Some(op) => Fifo.Do(Contents(s), Fifo.Unbounded, op) == Some(Contents(Apply(s, e)))
  {
    KeepInv(s, e);
    match Effect(s, e)
    case None => QuietStep(s, e);
    case Some(Put(_)) => PutRefines(s, e.t);
    case Some(Take(_)) => TakeRefines(s, e.t);
    case Some(_) => MissRefines(s, e.t);
  }

  lemma InitialInv(s: State)
    requires Initial(s)
    ensures Inv(s) && Contents(s) == []
  {
  }

  /** Every run keeps the invariant, and its effects, in the order they happen, are a history of one
      FIFO ending in the contents. */
  lemma {:induction false} RunRefines(s: State, es: seq<Event>)
    requires Initial(s)
    ensures Inv(Run(s, es)) && First(Run(s, es).log) < |Run(s, es).log.puts|
    ensures Fifo.Replay(Fifo.Unbounded, Trace(s, es)) == Some(Contents(Run(s, es)))
  {
    if es == [] {
      InitialInv(s);
    } else {
      var before, e := es[..|es| - 1], es[|es| - 1];
      RunRefines(s, before);
      StepRefines(Run(s, before), e);
      var r := Run(s, before);
      Fifo.Extend(Fifo.Unbounded, Trace(s, before), Effect(r, e), Contents(r), Contents(Run(s, es)));
    }
  }

  /** A thread that is about to answer NOT_FOUND, or has answered it. */
  predicate FoundNone(pc: Pc) {
    (pc.PopCheck? && pc.next == NULL) || (pc.Popped? && pc.result == NotFound)
  }

  lemma BecomesNone(s: State, t: nat)
    requires t < |s.threads| && Popping(s.threads[t]) && !FoundNone(s.threads[t]) && FoundNone(PopStep(s, t).threads[t])
    ensures Effect(s, Tick(t)) == Some(Fifo.Miss)
  {
  }

  lemma NotByInsert(s: State, t: nat)
    requires t < |s.threads| && !Popping(s.threads[t]) && !FoundNone(s.threads[t])
    ensures !FoundNone(InsertStep(s, t).threads[t])
  {
  }

  lemma OnlyOwnPop(s: State, e: Event, t: nat)
    requires t < |s.threads| && !FoundNone(s.threads[t]) && FoundNone(Apply(s, e).threads[t])
    ensures e == Tick(t) && Popping(s.threads[t])
  {
    if !Popping(s.threads[t]) {
      NotByInsert(s, t);
    }
    if e.Tick? && e.t < |s.threads| && e.t != t {
      OthersStay(s, e.t, t);
    }
  }

  lemma OthersStay(s: State, t: nat, u: nat)
    requires t < |s.threads| && u < |s.threads| && u != t
    ensures Popping(s.threads[t]) ==> PopStep(s, t).threads[u] == s.threads[u]
    ensures !Popping(s.threads[t]) ==> InsertStep(s, t).threads[u] == s.threads[u]
  {
  }

  /** In every run, a pop that answers NOT_FOUND has, in that same call, loaded NULL from head->next at a
      moment when the queue was empty: the i-th step, after which the thread goes straight to its answer. */
  lemma NotFoundSawEmpty(s: State, es: seq<Event>, t: nat) returns (i: nat)
    requires Initial(s) && t < |s.threads| && FoundNone(Run(s, es).threads[t])
    ensures i < |es| && es[i] == Tick(t) && Effect(Run(s, es[..i]), es[i]) == Some(Fifo.Miss)
    ensures First(Run(s, es[..i]).log) < |Run(s, es[..i]).log.puts| && Contents(Run(s, es[..i])) == []
    ensures forall j :: i < j <= |es| ==> FoundNone(Run(s, es[..j]).threads[t])
  {
    var none := seq(|es| + 1, j requires 0 <= j <= |es| => FoundNone(Run(s, es[..j]).threads[t]));
    assert es[..0] == [] && es[..|es|] == es;
    i := LastRise(none);
    assert es[..i + 1][..i] == es[..i];
    assert !none[i] && none[i + 1];
    MissAt(s, es[..i], es[i], t);
    forall j | i < j <= |es| ensures FoundNone(Run(s, es[..j]).threads[t]) {
      assert none[j];
    }
  }

  lemma MissAt(s: State, es: seq<Event>, e: Event, t: nat)
    requires Initial(s) && t < |s.threads|
    requires !FoundNone(Run(s, es).threads[t]) && FoundNone(Apply(Run(s, es), e).threads[t])
    ensures e == Tick(t) && Effect(Run(s, es), e) == Some(Fifo.Miss)
    ensures First(Run(s, es).log) < |Run(s, es).log.puts| && Contents(Run(s, es)) == []
  {
    var r := Run(s, es);
    OnlyOwnPop(r, e, t);
    BecomesNone(r, t);
    RunRefines(s, es);
    StepRefines(r, e);
  }

  // ---- Shape ----

  function Nexts(m: Memory): Links.Heap { map a | a in m.nodes :: m.nodes[a].next }

  /** In every reachable state the list from head is the rest of the chain: it is acyclic, ends in
      NULL and passes through the tail, which is its last or last but one node. */
  lemma {:induction false} ListFromHead(s: State, k: nat)
    requires Inv(s) && First(s.log) + k <= |s.log.chain|
    ensures Links.Nth(Nexts(s.mem), s.mem.head, k) ==
              if First(s.log) + k < |s.log.chain| then s.log.chain[First(s.log) + k] else NULL
    ensures First(s.log) + k < |s.log.chain| ==> Links.Nth(Nexts(s.mem), s.mem.head, k) != NULL
    ensures Links.Nth(Nexts(s.mem), s.mem.head, k) == s.mem.tail <==> First(s.log) + k == s.log.last
    ensures |s.log.chain| - 2 <= s.log.last < |s.log.chain|
  {
    Ends(s);
    if k > 0 {
      ListFromHead(s, k - 1);
      assert NodeOk(s.mem, s.log, First(s.log) + k - 1);
    }
    if First(s.log) + k < |s.log.chain| {
      assert NodeOk(s.mem, s.log, First(s.log) + k);
    }
  }

  /** The tail is the last node whenever no insert is between its link and its swing. */
  lemma TailIsLastUnlessSwinging(s: State)
    requires Inv(s)
    requires forall t :: 0 <= t < |s.threads| ==> !s.threads[t].InsCount? && !s.threads[t].InsSwing?
    ensures s.log.last + 1 == |s.log.chain| && Deref(s.mem, s.mem.tail).next == NULL
  {
    Ends(s);
    NodeAt(s, s.mem.tail);
  }

  // ---- Progress ----

  /** An insert that gives up after ten rounds was overtaken by at least five nodes that other
      threads linked after it entered the loop. */
  lemma GivingUpMeansOvertaken(s: State, t: nat)
    requires Inv(s) && t < |s.threads| && s.threads[t].InsFree?
    ensures s.threads[t].from + 5 <= |s.log.chain| && NoneBy(s.log.linkers, s.threads[t].from, t)
  {
    assert ThreadOk(s.mem, s.log, t, s.threads[t]);
  }

  /** Both loops go on after each of their first nine rounds that fail, and give up after the tenth. */
  lemma TenRounds(s: State, t: nat)
    requires t < |s.threads| && TriesOk(s.threads[t])
    ensures var pc, pc' := s.threads[t], Apply(s, Tick(t)).threads[t];
            && ((pc.InsHelp? || pc.InsLink?) && !pc'.InsCount? ==>
                  pc' == if pc.tries < 9 then InsTail(pc.kv, pc.node, pc.tries + 1, pc.from)
                         else InsFree(pc.kv, pc.node, pc.from))
            && (pc.PopHelp? || (pc.PopCas? && !pc'.PopFree?) || (pc.PopCheck? && s.mem.head != pc.head) ==>
                  pc' == if pc.tries < 9 then PopHead(pc.tries + 1, pc.from) else Popped(Invalid, Kv(0, 0), NULL))
  {
    hide Deref, Store;
  }

  /** A pop that gives up saw head and tail advance at least ten times since it began. */
  lemma PopGivingUp(s: State, t: nat)
    requires Inv(s) && t < |s.threads| && (s.threads[t].PopCheck? || s.threads[t].PopHelp? || s.threads[t].PopCas?)
    requires Apply(s, Tick(t)).threads[t] == Popped(Invalid, Kv(0, 0), NULL)
    ensures s.threads[t].from + 10 <= First(Apply(s, Tick(t)).log) + Apply(s, Tick(t)).log.last
  {
    assert ThreadOk(s.mem, s.log, t, s.threads[t]);
    Ends(s);
    NodeAt(s, s.threads[t].head);
    if s.threads[t].PopHelp? {
      SwingAdvances(s, s.threads[t].tail, s.threads[t].next);
    }
  }

  /** How many accesses thread t makes in a run. */
  function Accesses(es: seq<Event>, t: nat): nat {
    if es == [] then 0 else
      Accesses(es[..|es| - 1], t) + if es[|es| - 1] == Tick(t) then 1 else 0
  }

  /** Thread t makes no new call. */
  predicate NoCall(es: seq<Event>, t: nat) {
    forall i :: 0 <= i < |es| && es[i].t == t ==> es[i].Tick?
  }

  /** An upper bound on the accesses that a call has left, whatever the memory holds. */
  function StepsLeft(pc: Pc): int {
    match pc
    case InsKey(_, _) => 35
    case InsValue(_, _) => 34
    case InsNext(_, _) => 33
    case InsTail(_, _, tries, _) => 32 - 3 * tries
    case InsPeek(_, _, tries, _, _, _) => 31 - 3 * tries
    case InsHelp(_, _, tries, _, _, _, _) => 30 - 3 * tries
    case InsLink(_, _, tries, _, _, _) => 30 - 3 * tries
    case InsCount(_, _, _) => 2
    case InsSwing(_, _, _) => 1
    case InsFree(_, _, _) => 1
    case PopHead(tries, _) => 72 - 7 * tries
    case PopTail(tries, _, _, _) => 71 - 7 * tries
    case PopNext(tries, _, _, _, _) => 70 - 7 * tries
    case PopCheck(tries, _, _, _, _, _) => 69 - 7 * tries
    case PopHelp(tries, _, _, _, _, _) => 68 - 7 * tries
    case PopKey(tries, _, _, _, _) => 68 - 7 * tries
    case PopValue(tries, _, _, _, _, _) => 67 - 7 * tries
    case PopCas(tries, _, _, _, _, _) => 66 - 7 * tries
    case PopFree(_, _) => 2
    case PopCount(_, _) => 1
    case _ => 0
  }

  /** Fewer than ten rounds have failed so far; every step keeps this. */
  predicate TriesOk(pc: Pc) {
    && (pc.InsTail? || pc.InsPeek? || pc.InsHelp? || pc.InsLink? ==> pc.tries < 10)
    && (pc.PopHead? || pc.PopTail? || pc.PopNext? || pc.PopCheck? || pc.PopHelp? ==> pc.tries < 10)
    && (pc.PopKey? || pc.PopValue? || pc.PopCas? ==> pc.tries < 10)
  }

  /** Neither at rest nor waiting for the allocator. */
  predicate Working(pc: Pc) { !Resting(pc) && !pc.InsAlloc? }

  /** A step from pc to pc' uses up one access. */
  predicate UsesOne(pc: Pc, pc': Pc) {
    TriesOk(pc') && 0 <= StepsLeft(pc') < StepsLeft(pc) && !pc'.InsAlloc?
  }

  lemma InsertUsesOne(s: State, t: nat)
    requires t < |s.threads| && TriesOk(s.threads[t]) && Working(s.threads[t]) && !Popping(s.threads[t])
    ensures UsesOne(s.threads[t], InsertStep(s, t).threads[t])
  {
    hide Deref, Store;
  }

  lemma PopUsesOne(s: State, t: nat)
    requires t < |s.threads| && TriesOk(s.threads[t]) && Popping(s.threads[t])
    ensures UsesOne(s.threads[t], PopStep(s, t).threads[t])
  {
    hide Deref, Store;
  }

  lemma OthersKeepPc(s: State, e: Event, t: nat)
    requires t < |s.threads| && e.t != t
    ensures Apply(s, e).threads[t] == s.threads[t]
  {
    hide Deref, Store;
  }

  lemma StepCounts(s: State, e: Event, t: nat)
    requires t < |s.threads| && TriesOk(s.threads[t]) && !s.threads[t].InsAlloc? && (e.t == t ==> e.Tick?)
    ensures var pc, pc' := s.threads[t], Apply(s, e).threads[t];
            && (!Resting(pc) ==> 0 < StepsLeft(pc))
            && if e.t == t && !Resting(pc) then UsesOne(pc, pc') else pc' == pc
  {
    if e.t != t {
      OthersKeepPc(s, e, t);
    } else if Popping(s.threads[t]) {
      PopUsesOne(s, t);
    } else if !Resting(s.threads[t]) {
      InsertUsesOne(s, t);
    }
  }

  /** Both operations are wait-free once an insert has its node: an insert returns after 35 accesses of its own,
      a pop after 72, whatever the other threads do. */
  lemma CallReturns(s: State, es: seq<Event>, t: nat)
    requires t < |s.threads| && NoCall(es, t)
    requires || (s.threads[t].InsKey? && 35 <= Accesses(es, t))
             || (s.threads[t].PopHead? && s.threads[t].tries == 0 && 72 <= Accesses(es, t))
    ensures Resting(Run(s, es).threads[t])
  {
    CallLeft(s, es, t);
    StepCounts(Run(s, es), Tick(t), t);
  }

  lemma {:induction false} CallLeft(s: State, es: seq<Event>, t: nat)
    requires t < |s.threads| && TriesOk(s.threads[t]) && !s.threads[t].InsAlloc? && NoCall(es, t)
    ensures var pc := Run(s, es).threads[t];
            && TriesOk(pc) && !pc.InsAlloc?
            && (Resting(pc) || Accesses(es, t) + StepsLeft(pc) <= StepsLeft(s.threads[t]))
  {
    if es != [] {
      var before, e := es[..|es| - 1], es[|es| - 1];
      CallLeft(s, before, t);
      StepCounts(Run(s, before), e, t);
    }
  }

  // ---- The element counter ----

  /** Updates of the counter a thread still owes after its link or its unlink. */
  function Owed(pc: Pc): int {
    if pc.InsCount? then 1 else if pc.PopFree? || pc.PopCount? then -1 else 0
  }

  function Length(g: Log): int { |g.chain| - 1 - First(g) }

  predicate Counted(s: State) {
    s.mem.count == Wrap64(Length(s.log) - Sum(s.threads, Owed))
  }

  function CountChange(pc: Pc): int {
    if pc.InsCount? then 1 else if pc.PopCount? then -1 else 0
  }

  /** What a step adds to the counter is what it takes off the thread's debt. */
  predicate Balanced(s: State, s': State, t: nat)
    requires t < |s.threads| == |s'.threads|
  {
    var pc := s.threads[t];
    && s'.threads == s.threads[t := s'.threads[t]]
    && s'.mem.count == (if pc.InsCount? then Add64(s.mem.count, 1)
                        else if pc.PopCount? then Sub64(s.mem.count, 1)
                        else s.mem.count)
    && Length(s'.log) - Owed(s'.threads[t]) == Length(s.log) - Owed(pc) + CountChange(pc)
  }

  lemma BalancedCounts(s: State, t: nat, s': State)
    requires t < |s.threads| == |s'.threads| && Counted(s) && Balanced(s, s', t)
    ensures Counted(s')
  {
    SumUpdate(s.threads, t, s'.threads[t], Owed);
    ModShift(Length(s.log) - Sum(s.threads, Owed), CountChange(s.threads[t]), TWO64);
  }

  lemma InsertBalances(s: State, t: nat)
    requires t < |s.threads| && !Popping(s.threads[t])
    ensures Balanced(s, InsertStep(s, t), t)
  {
  }

  lemma PopBalances(s: State, t: nat)
    requires t < |s.threads| && Popping(s.threads[t])
    ensures Balanced(s, PopStep(s, t), t)
  {
  }

  lemma KeepCounted(s: State, e: Event)
    requires Counted(s)
    ensures Counted(Apply(s, e))
  {
    if e.t < |s.threads| {
      if !e.Tick? {
        if Apply(s, e) != s {
          SumUpdate(s.threads, e.t, Apply(s, e).threads[e.t], Owed);
        }
      } else if Popping(s.threads[e.t]) {
        PopBalances(s, e.t);
        BalancedCounts(s, e.t, PopStep(s, e.t));
      } else {
        InsertBalances(s, e.t);
        BalancedCounts(s, e.t, InsertStep(s, e.t));
      }
    }
  }

  predicate AtRest(s: State) {
    forall t :: 0 <= t < |s.threads| ==> Resting(s.threads[t])
  }

  /** Between operations the counter is the length, modulo its width. */
  lemma RestIsExact(s: State)
    requires Inv(s) && Counted(s) && AtRest(s)
    ensures s.mem.count == Wrap64(|Contents(s)|)
    ensures s.log.last + 1 == |s.log.chain|
  {
    SumZero(s.threads, Owed);
    TailIsLastUnlessSwinging(s);
  }

  /** Counting holds in every run. */
  lemma {:induction false} RunCounted(s: State, es: seq<Event>)
    requires Initial(s)
    ensures Counted(Run(s, es))
  {
    if es == [] {
      SumZero(s.threads, Owed);
    } else {
      RunCounted(s, es[..|es| - 1]);
      KeepCounted(Run(s, es[..|es| - 1]), es[|es| - 1]);
    }
  }
}
