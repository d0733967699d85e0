// ds_ck_stack_upmc_verify: Floyd's two cursors decide exactly whether a list is cyclic.

module CkStackVerify {
  import opened Base
  import opened Links
  import CkStack
  import CkStackProof

  /** The walk from a comes back to a node it has visited. */
  ghost predicate Cyclic(next: Heap, a: nat) {
    exists i: nat, j: nat :: i < j && Nth(next, a, i) == Nth(next, a, j) && Nth(next, a, i) != 0
  }

  lemma {:induction false} SameAfter(next: Heap, a: nat, i: nat, j: nat, k: nat)
    requires Nth(next, a, i) == Nth(next, a, j)
    ensures Nth(next, a, i + k) == Nth(next, a, j + k)
  {
    if k > 0 {
      SameAfter(next, a, i, j, k - 1);
    }
  }

  /** Past its start the cycle repeats with its length. */
  lemma {:induction false} Laps(next: Heap, a: nat, start: nat, len: nat, k: nat, laps: nat)
    requires Nth(next, a, start) == Nth(next, a, start + len) && start <= k
    ensures 0 <= laps * len && Nth(next, a, k + laps * len) == Nth(next, a, k)
    decreases laps
  {
    if laps > 0 {
      Laps(next, a, start, len, k, laps - 1);
      assert laps * len == (laps - 1) * len + len;
      var before := k - start + (laps - 1) * len;
      SameAfter(next, a, start, start + len, before);
      assert start + before == k + (laps - 1) * len && start + len + before == k + laps * len;
    }
  }

  lemma AtLeast(k: nat, len: nat)
    requires 1 <= len
    ensures k <= k * len
  {
    assert k * (len - 1) >= 0;
  }

  /** A cyclic list never ends. */
  lemma CyclicNeverEnds(next: Heap, a: nat, k: nat)
    requires 0 !in next && Cyclic(next, a)
    ensures Nth(next, a, k) != 0
  {
    var i: nat, j: nat :| i < j && Nth(next, a, i) == Nth(next, a, j) && Nth(next, a, i) != 0;
    if Nth(next, a, k) == 0 {
      Laps(next, a, i, j - i, i, k);
      AtLeast(k, j - i);
      NullStays(next, a, k, i + k * (j - i));
    }
  }

  function Prefix(next: Heap, a: nat, k: nat): set<nat> {
    if k == 0 then {} else Prefix(next, a, k - 1) + {Nth(next, a, k - 1)}
  }

  lemma {:induction false} PrefixHas(next: Heap, a: nat, k: nat, x: nat) returns (j: nat)
    requires x in Prefix(next, a, k)
    ensures j < k && Nth(next, a, j) == x
  {
    if x == Nth(next, a, k - 1) {
      j := k - 1;
    } else {
      j := PrefixHas(next, a, k - 1, x);
    }
  }

  /** Among the first k nodes the list ends, or a node occurs twice, or there are k different ones. */
  lemma {:induction false} Distinct(next: Heap, a: nat, k: nat) returns (i: nat, j: nat)
    requires Sound(next, a)
    ensures || (i < k && Nth(next, a, i) == 0)
            || (i < j < k && Nth(next, a, i) == Nth(next, a, j))
            || (|Prefix(next, a, k)| == k && Prefix(next, a, k) <= next.Keys)
  {
    i, j := 0, 0;
    if k > 0 {
      i, j := Distinct(next, a, k - 1);
      if |Prefix(next, a, k - 1)| == k - 1 && Prefix(next, a, k - 1) <= next.Keys {
        if Nth(next, a, k - 1) == 0 {
          i := k - 1;
        } else if Nth(next, a, k - 1) in Prefix(next, a, k - 1) {
          i := PrefixHas(next, a, k - 1, Nth(next, a, k - 1));
          j := k - 1;
        }
      }
    }
  }

  lemma SubsetSize(x: set<nat>, y: set<nat>)
    requires x <= y
    ensures |x| <= |y|
  {
    assert y == x + (y - x);
  }

  /** On any finite heap there is a step at which the slow cursor is past the end or both are equal. */
  lemma MeetingPoint(next: Heap, a: nat) returns (stop: nat)
    requires Sound(next, a)
    ensures 1 <= stop
    ensures Nth(next, a, stop) == 0 || Nth(next, a, stop) == Nth(next, a, 2 * stop)
  {
    var n := |next.Keys| + 1;
    var i, j := Distinct(next, a, n);
    if i < n && Nth(next, a, i) == 0 {
      stop := n;
      NullStays(next, a, i, n);
    } else {
      if |Prefix(next, a, n)| == n && Prefix(next, a, n) <= next.Keys {
        SubsetSize(Prefix(next, a, n), next.Keys);
        assert false;
      }
      var len := j - i;
      stop := (i + 1) * len;
      AtLeast(i + 1, len);
      Laps(next, a, i, len, stop, i + 1);
    }
  }

  /** Terminates on every finite heap and reports corruption if and only if the list is cyclic. */
  method Verify(next: Heap, head: nat) returns (r: Result)
    requires Sound(next, head)
    ensures r == Success || r == Corrupt
    ensures r == Corrupt <==> Cyclic(next, head)
  {
    ghost var stop := MeetingPoint(next, head);
    var slow, fast := head, head;
    ghost var i: nat := 0;
    while fast != 0
      invariant slow == Nth(next, head, i) && fast == Nth(next, head, 2 * i)
      invariant i <= stop && (i == stop ==> fast == 0)
      decreases stop - i
    {
      var fastNext := Follow(next, fast);
      assert fastNext == Nth(next, head, 2 * i + 1);
      if fastNext == 0 {
        NeverCyclic(next, head, 2 * i + 1);
        return Success;
      }
      fast := Follow(next, fastNext);
      assert fast == Nth(next, head, 2 * (i + 1));
      if slow != 0 {
        slow := Follow(next, slow);
      }
      i := i + 1;
      if slow != 0 && slow == fast {
        assert Nth(next, head, i) == Nth(next, head, 2 * i);
        return Corrupt;
      }
      if i == stop && Nth(next, head, i) == 0 {
        NullStays(next, head, i, 2 * i);
      }
    }
    NeverCyclic(next, head, 2 * i);
    return Success;
  }

  lemma NeverCyclic(next: Heap, a: nat, k: nat)
    requires 0 !in next && Nth(next, a, k) == 0
    ensures !Cyclic(next, a)
  {
    if Cyclic(next, a) {
      CyclicNeverEnds(next, a, k);
    }
  }

  function Nexts(m: CkStack.Memory): Heap { map a | a in m.entries :: m.entries[a].next }

  lemma {:induction false} StackFromHead(s: CkStack.State, k: nat)
    requires CkStackProof.Inv(s) && k <= |s.log.stack|
    ensures Nth(Nexts(s.mem), s.mem.head, k) == if k < |s.log.stack| then s.log.stack[k] else 0
  {
    if k > 0 {
      StackFromHead(s, k - 1);
      assert CkStackProof.EntryOk(s.mem, s.log, k - 1);
    }
  }

  /** In every reachable state verify finds nothing to complain about. */
  lemma ReachableIsSound(s: CkStack.State)
    requires CkStackProof.Inv(s)
    ensures Sound(Nexts(s.mem), s.mem.head) && !Cyclic(Nexts(s.mem), s.mem.head)
  {
    var next, n := Nexts(s.mem), |s.log.stack|;
    StackFromHead(s, n);
    NeverCyclic(next, s.mem.head, n);
    forall k: nat ensures Nth(next, s.mem.head, k) == 0 || Nth(next, s.mem.head, k) in next {
      if k < n {
        StackFromHead(s, k);
        assert CkStackProof.EntryOk(s.mem, s.log, k);
      } else {
        NullStays(next, s.mem.head, n, k);
      }
    }
  }
}
