// ds_msqueue_verify: the walking loop, what its answer means on any linked memory, and what it
// answers on the queues the machine can reach.

module MsQueueVerify {
  import opened Base
  import opened Links
  import opened MsQueue
  import opened MsQueueProof

  const MAX_ITERATIONS: nat := 100000
  const CORRUPT: int := -5
  const SLACK: nat := 100

  predicate Near(a: nat, b: nat) { a <= b + SLACK && b <= a + SLACK }

  /** The answer as a function of what the walk from head->next visits. */
  function Verdict(next: Heap, head: nat, tail: nat, count: nat): int {
    var first := Follow(next, head);
    if head == 0 || tail == 0 then CORRUPT * 5
    else if head == tail && first == 0 then 0
    else if !Meets(next, first, MAX_ITERATIONS, tail) then CORRUPT * 2
    else if !Near(Visited(next, first, MAX_ITERATIONS) - 1, count) then CORRUPT * 3
    else 0
  }

  method Verify(next: Heap, head: nat, tail: nat, recorded: nat) returns (code: int)
    requires Sound(next, head) && recorded < TWO64
    ensures code == Verdict(next, head, tail, recorded)
    ensures code != CORRUPT * 4  // the check for an endless walk never fires
  {
    if head == 0 || tail == 0 {
      return CORRUPT * 5;
    }
    var node := Follow(next, head);
    if head == tail && node == 0 {
      return 0;
    }
    var start, count, found := node, 0, false;
    ghost var steps := 0;
    while node != 0 && count < MAX_ITERATIONS
      invariant steps <= MAX_ITERATIONS
      invariant Visited(next, start, MAX_ITERATIONS) == steps + Visited(next, node, MAX_ITERATIONS - steps)
      invariant Meets(next, start, MAX_ITERATIONS, tail) <==> found || Meets(next, node, MAX_ITERATIONS - steps, tail)
      invariant count == if steps == 1 && node == 0 then 0 else steps
      decreases MAX_ITERATIONS - steps, node != 0
    {
      if node == tail {
        found := true;
      }
      node := Follow(next, node);
      steps := steps + 1;
      if count > 0 || node != 0 {
        count := count + 1;
      }
    }
    if count > 0 {
      count := count - 1;
    }
    if !found {
      return CORRUPT * 2;
    }
    if count > Add64(recorded, SLACK) || recorded > Add64(count, SLACK) {
      return CORRUPT * 3;
    }
    if count >= MAX_ITERATIONS {
      return CORRUPT * 4;
    }
    return 0;
  }

  /** The tail is one of the first n nodes behind the head. */
  predicate TailWithin(next: Heap, head: nat, tail: nat, n: nat) {
    exists k :: 1 <= k <= n && Nth(next, head, k) == tail
  }

  /** The answer on any list, where n is the number of nodes behind the head, or 100000 if there are more: success
      means that the tail is among them and that n - 1 is within 100 of the counter, or that there are none and
      the tail is the head. */
  lemma VerdictIs(next: Heap, head: nat, tail: nat, count: nat, n: nat)
    requires n <= 100000 && forall k :: 1 <= k <= n ==> Nth(next, head, k) != 0
    requires n == 100000 || Nth(next, head, n + 1) == 0
    ensures Verdict(next, head, tail, count) ==
              if head == 0 || tail == 0 then -25
              else if n == 0 && head == tail then 0
              else if !TailWithin(next, head, tail, n) then -10
              else if n > count + 101 || count + 1 > n + 100 then -15
              else 0
  {
    var first := Follow(next, head);
    forall k | 0 <= k <= n ensures Nth(next, first, k) == Nth(next, head, k + 1) {
      NthShift(next, head, k);
    }
    forall k | 0 <= k < n ensures Nth(next, first, k) != 0 {
      assert Nth(next, head, k + 1) != 0;
    }
    VisitedIs(next, first, 100000, n);
    if n > 0 {
      assert Nth(next, first, 0) != 0;
    }
    if Meets(next, first, 100000, tail) {
      var k := MeetsOnly(next, first, 100000, tail);
      WithinVisited(next, first, k, n);
      assert Nth(next, head, k + 1) == tail;
    }
    if TailWithin(next, head, tail, n) {
      var k :| 1 <= k <= n && Nth(next, head, k) == tail;
      assert Nth(next, first, k - 1) == tail;
      MeetsAt(next, first, 100000, k - 1);
    }
  }

  lemma WithinVisited(next: Heap, first: nat, k: nat, n: nat)
    requires k < 100000 && (forall j :: 0 <= j <= k ==> Nth(next, first, j) != 0)
    requires n == 100000 || Nth(next, first, n) == 0
    ensures k < n
  {
  }

  /** In every reachable state, calls under way included: verify succeeds exactly if the queue is empty, or the tail
      is behind the head by at most 100000 and the length, less one, is within 100 of the counter. */
  lemma ReachableVerdict(s: State)
    requires Inv(s)
    ensures var n, behind := |Contents(s)|, s.log.last - First(s.log);
            var walked := if n <= 100000 then n else 100000;
            && n - 1 <= behind <= n
            && Verdict(Nexts(s.mem), s.mem.head, s.mem.tail, s.mem.count) ==
                 if n == 0 then 0
                 else if !(0 < behind <= 100000) then -10
                 else if walked > s.mem.count + 101 || s.mem.count + 1 > walked + 100 then -15
                 else 0
  {
    var next, n, behind := Nexts(s.mem), |Contents(s)|, s.log.last - First(s.log);
    var walked := if n <= 100000 then n else 100000;
    Ends(s);
    FirstNode(s);
    Places(s, walked);
    VerdictIs(next, s.mem.head, s.mem.tail, s.mem.count, walked);
    if 0 < behind <= walked {
      assert Nth(next, s.mem.head, behind) == s.mem.tail;
    }
  }

  lemma Places(s: State, walked: nat)
    requires Inv(s) && walked <= |Contents(s)|
    ensures forall k :: 1 <= k <= walked ==> Nth(Nexts(s.mem), s.mem.head, k) != 0
    ensures forall k :: 1 <= k <= walked ==>
              (Nth(Nexts(s.mem), s.mem.head, k) == s.mem.tail <==> k == s.log.last - First(s.log))
    ensures walked == |Contents(s)| ==> Nth(Nexts(s.mem), s.mem.head, walked + 1) == 0
    ensures |Contents(s)| - 1 <= s.log.last - First(s.log) <= |Contents(s)|
  {
    Ends(s);
    ListFromHead(s, 0);
    forall k | 1 <= k <= walked
      ensures Nth(Nexts(s.mem), s.mem.head, k) != 0
      ensures Nth(Nexts(s.mem), s.mem.head, k) == s.mem.tail <==> k == s.log.last - First(s.log)
    {
      ListFromHead(s, k);
    }
    if walked == |Contents(s)| {
      ListFromHead(s, walked + 1);
    }
  }

  /** So an insert that has linked its node to an empty queue, and not swung the tail yet, makes verify fail. */
  lemma LinkedOnEmptyFails(s: State)
    requires Inv(s) && |Contents(s)| == 1 && s.log.last == First(s.log)
    ensures Verdict(Nexts(s.mem), s.mem.head, s.mem.tail, s.mem.count) == -10
  {
    ReachableVerdict(s);
  }

  /** On a queue at rest verify succeeds exactly when it holds at most 100000 elements. */
  lemma VerdictAtRest(s: State)
    requires Inv(s) && Counted(s) && AtRest(s)
    ensures Verdict(Nexts(s.mem), s.mem.head, s.mem.tail, s.mem.count) == 0 <==> |Contents(s)| <= 100000
  {
    ReachableVerdict(s);
    RestIsExact(s);
    Ends(s);
    TailIsLastUnlessSwinging(s);
    if |Contents(s)| <= 100000 {
      SmallWord(|Contents(s)|);
    }
  }

  lemma SmallWord(n: nat)
    requires n < TWO64
    ensures Wrap64(n) == n
  {
  }

  lemma FirstNode(s: State)
    requires Inv(s)
    ensures Follow(Nexts(s.mem), s.mem.head) == 0 <==> Contents(s) == []
    ensures s.mem.head == s.mem.tail <==> First(s.log) == s.log.last
    ensures s.mem.head != 0 && s.mem.tail != 0
  {
    Ends(s);
    ListFromHead(s, 0);
    ListFromHead(s, 1);
    ListFromHead(s, s.log.last - First(s.log));
    NthShift(Nexts(s.mem), s.mem.head, 0);
  }

  /** In every reachable state the walk meets only nodes. */
  lemma ReachableIsSound(s: State)
    requires Inv(s)
    ensures Sound(Nexts(s.mem), s.mem.head)
  {
    var next, n := Nexts(s.mem), |s.log.chain| - First(s.log);
    ListFromHead(s, n);
    forall k: nat ensures Nth(next, s.mem.head, k) == 0 || Nth(next, s.mem.head, k) in next {
      if k < n {
        ListFromHead(s, k);
        assert NodeOk(s.mem, s.log, First(s.log) + k);
      } else {
        NullStays(next, s.mem.head, n, k);
      }
    }
  }

  /** A list that never ends is not detected as such: the answer depends on whether the tail is among
      the first 100000 nodes and on the counter alone. */
  lemma EndlessVerdict(next: Heap, head: nat, tail: nat, count: nat)
    requires head != 0 && tail != 0
    requires forall k :: 0 <= k <= 100000 ==> Nth(next, head, k) != 0
    ensures Verdict(next, head, tail, count) == 0 <==> TailWithin(next, head, tail, 100000) && 99899 <= count <= 100099
  {
    VerdictIs(next, head, tail, count, 100000);
  }

  /** So a node linked to itself passes when the counter says 99999. */
  lemma SelfLoopPasses()
    ensures Verdict(map[1 := 1], 1, 1, 99999) == 0
  {
    forall k: nat ensures Nth(map[1 := 1], 1, k) == 1 {
      SelfLoop(k);
    }
    assert Nth(map[1 := 1], 1, 1) == 1;
    EndlessVerdict(map[1 := 1], 1, 1, 99999);
  }

  lemma {:induction false} SelfLoop(k: nat)
    ensures Nth(map[1 := 1], 1, k) == 1
  {
    if k > 0 {
      SelfLoop(k - 1);
    }
  }
}
