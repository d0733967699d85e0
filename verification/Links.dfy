// Singly linked lists in an arena: addresses, next pointers and the walks the verify functions do.

module Links {

  /** A next pointer per allocated node; 0 is NULL. */
  type Heap = map<nat, nat>

  function Follow(next: Heap, a: nat): nat { if a in next then next[a] else 0 }

  /** The node k steps from a, or NULL once the list has ended. */
  function Nth(next: Heap, a: nat, k: nat): nat {
    if k == 0 then a else Follow(next, Nth(next, a, k - 1))
  }

  /** The walk from a meets only nodes until it ends, if it ends. */
  ghost predicate Sound(next: Heap, a: nat) {
    0 !in next && forall k: nat :: Nth(next, a, k) == 0 || Nth(next, a, k) in next
  }

  /** Past the end there is only NULL. */
  lemma {:induction false} NullStays(next: Heap, a: nat, j: nat, k: nat)
    requires 0 !in next && j <= k && Nth(next, a, j) == 0
    ensures Nth(next, a, k) == 0
    decreases k
  {
    if j < k {
      NullStays(next, a, j, k - 1);
    }
  }

  /** How many nodes a walk from a visits that stops at NULL or after `limit` nodes. */
  function Visited(next: Heap, a: nat, limit: nat): nat
    decreases limit
  {
    if a == 0 || limit == 0 then 0 else 1 + Visited(next, Follow(next, a), limit - 1)
  }

  /** Whether such a walk meets the node x. */
  predicate Meets(next: Heap, a: nat, limit: nat, x: nat)
    decreases limit
  {
    a != 0 && limit != 0 && (a == x || Meets(next, Follow(next, a), limit - 1, x))
  }

  lemma {:induction false} NthShift(next: Heap, a: nat, k: nat)
    ensures Nth(next, a, k + 1) == Nth(next, Follow(next, a), k)
  {
    if k > 0 {
      NthShift(next, a, k - 1);
    }
  }

  /** A walk visits a node per step until the list ends or the limit is reached. */
  lemma {:induction false} VisitedIs(next: Heap, a: nat, limit: nat, v: nat)
    requires v <= limit
    requires forall k :: 0 <= k < v ==> Nth(next, a, k) != 0
    requires v == limit || Nth(next, a, v) == 0
    ensures Visited(next, a, limit) == v
    decreases limit
  {
    if v > 0 {
      var b := Follow(next, a);
      assert Nth(next, a, 0) != 0;
      forall k | 0 <= k < v - 1 ensures Nth(next, b, k) != 0 {
        NthShift(next, a, k);
        assert Nth(next, a, k + 1) != 0;
      }
      NthShift(next, a, v - 1);
      VisitedIs(next, b, limit - 1, v - 1);
    }
  }

  /** It meets every node on its way ... */
  lemma {:induction false} MeetsAt(next: Heap, a: nat, limit: nat, k: nat)
    requires k < limit && forall j :: 0 <= j <= k ==> Nth(next, a, j) != 0
    ensures Meets(next, a, limit, Nth(next, a, k))
    decreases k
  {
    assert Nth(next, a, 0) != 0;
    if k > 0 {
      var b := Follow(next, a);
      forall j | 0 <= j <= k - 1 ensures Nth(next, b, j) != 0 {
        NthShift(next, a, j);
        assert Nth(next, a, j + 1) != 0;
      }
      NthShift(next, a, k - 1);
      MeetsAt(next, b, limit - 1, k - 1);
    }
  }

  /** ... and no other. */
  lemma {:induction false} MeetsOnly(next: Heap, a: nat, limit: nat, x: nat) returns (k: nat)
    requires Meets(next, a, limit, x)
    ensures k < limit && Nth(next, a, k) == x && forall j :: 0 <= j <= k ==> Nth(next, a, j) != 0
    decreases limit
  {
    if a == x {
      k := 0;
    } else {
      var j := MeetsOnly(next, Follow(next, a), limit - 1, x);
      k := j + 1;
      forall i | 1 <= i <= k ensures Nth(next, a, i) == Nth(next, Follow(next, a), i - 1) {
        NthShift(next, a, i - 1);
      }
    }
  }
}
