// The two-lane relay of src/skeleton_vyukhov.c: kernel producers fill the KU lane, the relay thread
// moves pairs to the UK lane, and after it has joined the main thread drains that lane.

module Relay {
  import opened Base

  /** Both lanes are FIFOs (VyukovProof.RunRefines). `taken`, `forwarded`, `produced` and `consumed` are
      histories; `dropped` counts the pairs that the relay popped and could not push. */
  datatype State = State(
    ku: seq<Kv>, uk: seq<Kv>, capacity: nat,
    hand: Option<Kv>, joined: bool,
    popped: nat, pushed: nat, dropped: nat,
    produced: seq<Kv>, taken: seq<Kv>, forwarded: seq<Kv>, consumed: seq<Kv>)

  /** `ok` is false when the queue operation answers busy; on a full or an empty lane it makes no
      difference. */
  datatype Event =
    | KernelInsert(kv: Kv, ok: bool)
    | RelayPop(ok: bool)
    | RelayPush(ok: bool)
    | Join
    | KernelPop(ok: bool)

  function Apply(s: State, e: Event): State {
    match e
    case KernelInsert(kv, ok) =>
      if ok && |s.ku| < s.capacity then s.(ku := s.ku + [kv], produced := s.produced + [kv]) else s
    case RelayPop(ok) =>
      if !s.joined && s.hand.None? && ok && s.ku != [] then
        s.(ku := s.ku[1..], hand := Some(s.ku[0]), popped := s.popped + 1, taken := s.taken + [s.ku[0]])
      else s
    case RelayPush(ok) =>
      if s.hand.None? then s
      else if ok && |s.uk| < s.capacity then
        s.(uk := s.uk + [s.hand.value], hand := None, pushed := s.pushed + 1,
           forwarded := s.forwarded + [s.hand.value])
      else s.(hand := None, dropped := s.dropped + 1)
    case Join => if s.hand.None? then s.(joined := true) else s
    case KernelPop(ok) =>
      if s.joined && ok && s.uk != [] then s.(uk := s.uk[1..], consumed := s.consumed + [s.uk[0]]) else s
  }

  function Run(s: State, es: seq<Event>): State {
    if es == [] then s else Apply(Run(s, es[..|es| - 1]), es[|es| - 1])
  }

  predicate Initial(s: State) {
    s == State([], [], s.capacity, None, false, 0, 0, 0, [], [], [], [])
  }

  // ---- Subsequences ----

  /** a is b with some elements left out. */
  predicate Subsequence<T(==)>(a: seq<T>, b: seq<T>) {
    if a == [] then true
    else if b == [] then false
    else
      || Subsequence(a, b[..|b| - 1])
      || (a[|a| - 1] == b[|b| - 1] && Subsequence(a[..|a| - 1], b[..|b| - 1]))
  }

  lemma Longer<T>(a: seq<T>, b: seq<T>, x: T)
    requires Subsequence(a, b)
    ensures Subsequence(a, b + [x]) && Subsequence(a + [x], b + [x])
  {
    assert (b + [x])[..|b|] == b && (a + [x])[..|a|] == a;
  }

  lemma {:induction false} Prefix<T>(a: seq<T>, b: seq<T>, n: nat)
    requires Subsequence(a, b) && n <= |a|
    ensures Subsequence(a[..n], b)
    decreases |b|
  {
    if n == |a| {
      assert a[..n] == a;
    } else {
      var m := |b| - 1;
      if Subsequence(a, b[..m]) {
        Prefix(a, b[..m], n);
      } else {
        Prefix(a[..|a| - 1], b[..m], n);
        assert a[..|a| - 1][..n] == a[..n];
      }
    }
  }

  lemma {:induction false} WholeOrShorter<T>(a: seq<T>, b: seq<T>)
    requires Subsequence(a, b)
    ensures |a| <= |b| && (|a| == |b| ==> a == b)
    decreases |b|
  {
    if a != [] {
      var m := |b| - 1;
      if Subsequence(a, b[..m]) {
        WholeOrShorter(a, b[..m]);
      } else {
        WholeOrShorter(a[..|a| - 1], b[..m]);
        if |a| == |b| {
          assert a == a[..m] + [a[m]] && b == b[..m] + [b[m]];
        }
      }
    }
  }

  lemma {:induction false} MoreBehind<T>(a: seq<T>, b: seq<T>, c: seq<T>)
    requires Subsequence(a, b)
    ensures Subsequence(a, b + c)
    decreases |c|
  {
    if c == [] {
      assert b + c == b;
    } else {
      MoreBehind(a, b, c[..|c| - 1]);
      Longer(a, b + c[..|c| - 1], c[|c| - 1]);
      assert b + c == b + c[..|c| - 1] + [c[|c| - 1]];
    }
  }

  // ---- The inductive invariant ----

  /** What the relay has finished with: all it popped but the pair in hand. */
  function Settled(s: State): seq<Kv> { if s.hand.Some? && s.taken != [] then s.taken[..|s.taken| - 1] else s.taken }

  predicate Inv(s: State) {
    && s.produced == s.taken + s.ku && s.forwarded == s.consumed + s.uk
    && s.popped == |s.taken| && s.pushed == |s.forwarded|
    && s.popped == s.pushed + s.dropped + (if s.hand.Some? then 1 else 0)
    && (s.hand.Some? ==> s.taken != [] && s.taken[|s.taken| - 1] == s.hand.value)
    && Subsequence(s.forwarded, Settled(s))
    && |s.ku| <= s.capacity && |s.uk| <= s.capacity
    && (!s.joined ==> s.consumed == []) && (s.joined ==> s.hand.None?)
  }

  lemma KeepPop(s: State, ok: bool)
    requires Inv(s)
    ensures Inv(Apply(s, RelayPop(ok)))
  {
    var r := Apply(s, RelayPop(ok));
    if r != s {
      assert s.taken + s.ku == r.taken + r.ku;
      assert Settled(r) == s.taken;
    }
  }

  lemma KeepPush(s: State, ok: bool)
    requires Inv(s) && s.hand.Some?
    ensures Inv(Apply(s, RelayPush(ok)))
  {
    assert s.taken == Settled(s) + [s.hand.value];
    Longer(s.forwarded, Settled(s), s.hand.value);
    assert s.consumed + (s.uk + [s.hand.value]) == s.forwarded + [s.hand.value];
  }

  lemma KeepInv(s: State, e: Event)
    requires Inv(s)
    ensures Inv(Apply(s, e))
  {
    match e
    case KernelInsert(kv, ok) => assert s.taken + (s.ku + [kv]) == s.taken + s.ku + [kv];
    case RelayPop(ok) => KeepPop(s, ok);
    case RelayPush(ok) => if s.hand.Some? { KeepPush(s, ok); }
    case Join =>
    case KernelPop(ok) =>
      if s.uk != [] {
        assert s.consumed + s.uk == (s.consumed + [s.uk[0]]) + s.uk[1..];
      }
  }

  /** In every run the kernel consumes pairs in the order they were produced, each at most as often as
      it was produced; every popped pair was pushed or dropped or is the one in hand; and nothing is
      missing unless something was dropped. */
  lemma {:induction false} RunDelivers(s: State, es: seq<Event>)
    requires Initial(s)
    ensures var r := Run(s, es);
            && Inv(r)
            && Subsequence(r.consumed, r.produced)
            && r.popped == r.pushed + r.dropped + (if r.hand.Some? then 1 else 0)
            && (r.dropped == 0 ==>
                  r.produced == r.consumed + r.uk + (if r.hand.Some? then [r.hand.value] else []) + r.ku)
  {
    RunKeepsInv(s, es);
    var r := Run(s, es);
    InOrder(r);
    if r.dropped == 0 {
      WholeOrShorter(r.forwarded, Settled(r));
    }
  }

  lemma InOrder(s: State)
    requires Inv(s)
    ensures Subsequence(s.consumed, s.produced)
  {
    assert s.consumed == s.forwarded[..|s.consumed|];
    Prefix(s.forwarded, Settled(s), |s.consumed|);
    var rest := s.produced[|Settled(s)|..];
    assert s.produced == Settled(s) + rest;
    MoreBehind(s.consumed, Settled(s), rest);
  }

  lemma {:induction false} RunKeepsInv(s: State, es: seq<Event>)
    requires Initial(s)
    ensures Inv(Run(s, es))
  {
    if es != [] {
      RunKeepsInv(s, es[..|es| - 1]);
      KeepInv(Run(s, es[..|es| - 1]), es[|es| - 1]);
    }
  }

  /** Before the drain starts the UK lane holds all that was pushed, in the order of production. */
  lemma Waiting(s: State)
    requires Inv(s) && s.consumed == []
    ensures |s.uk| == s.pushed && Subsequence(s.uk, s.produced)
  {
    assert s.forwarded == s.uk;
    var rest := s.produced[|Settled(s)|..];
    assert s.produced == Settled(s) + rest;
    MoreBehind(s.uk, Settled(s), rest);
  }

  /** When the relay has just joined, the UK lane holds all it pushed and nothing is in hand. */
  lemma AtJoin(s: State, es: seq<Event>)
    requires Initial(s) && !Run(s, es).joined && Run(s, es + [Join]).joined
    ensures var r := Run(s, es + [Join]);
            && |r.uk| == r.pushed && r.popped == r.pushed + r.dropped && r.consumed == []
            && Subsequence(r.uk, r.produced)
  {
    RunKeepsInv(s, es);
    RunKeepsInv(s, es + [Join]);
    assert (es + [Join])[..|es|] == es;
    Waiting(Run(s, es + [Join]));
  }

  // ---- What is lost, and what arrives ----

  /** No push to the UK lane answers busy. */
  predicate NeverBusy(es: seq<Event>) { forall i :: 0 <= i < |es| && es[i].RelayPush? ==> es[i].ok }

  function First<T>(s: seq<T>, n: nat): seq<T> { if |s| <= n then s else s[..n] }

  /** Then a pair is lost only because the UK lane is full: the relay pushes the first pairs it has finished
      with, as many as the lane holds. */
  lemma {:induction false} LossMeansFull(s: State, es: seq<Event>)
    requires Initial(s) && NeverBusy(es)
    ensures var r := Run(s, es);
            r.capacity == s.capacity && r.forwarded == First(Settled(r), s.capacity)
  {
    if es != [] {
      var before := es[..|es| - 1];
      LossMeansFull(s, before);
      RunKeepsInv(s, before);
      var r := Run(s, before);
      if es[|es| - 1].RelayPush? && r.hand.Some? {
        PushFirst(r);
      } else {
        SettledStays(r, es[|es| - 1]);
      }
    }
  }

  lemma PushFirst(s: State)
    requires Inv(s) && s.hand.Some? && s.forwarded == First(Settled(s), s.capacity)
    ensures var r := Apply(s, RelayPush(true)); r.forwarded == First(Settled(r), s.capacity)
  {
    assert s.taken == Settled(s) + [s.hand.value];
    assert s.forwarded == s.uk;
  }

  lemma SettledStays(s: State, e: Event)
    requires Inv(s) && !(e.RelayPush? && s.hand.Some?)
    ensures var r := Apply(s, e);
            Settled(r) == Settled(s) && r.forwarded == s.forwarded && r.capacity == s.capacity
  {
  }

  function Inserts(kvs: seq<Kv>): seq<Event> {
    if kvs == [] then [] else Inserts(kvs[..|kvs| - 1]) + [KernelInsert(kvs[|kvs| - 1], true)]
  }

  function Rounds(n: nat): seq<Event> {
    if n == 0 then [] else Rounds(n - 1) + [RelayPop(true)] + [RelayPush(true)]
  }

  function Pops(n: nat): seq<Event> { if n == 0 then [] else Pops(n - 1) + [KernelPop(true)] }

  lemma {:induction false} RunOn(s: State, es: seq<Event>, more: seq<Event>)
    ensures Run(s, es + more) == Run(Run(s, es), more)
  {
    if more == [] {
      assert es + more == es;
    } else {
      var n := |more| - 1;
      RunOn(s, es, more[..n]);
      assert (es + more)[..|es| + n] == es + more[..n];
    }
  }

  lemma One(s: State, e: Event)
    ensures Run(s, [e]) == Apply(s, e)
  {
    assert [e][..0] == [];
  }

  lemma {:induction false} InsertsFill(s: State, kvs: seq<Kv>)
    requires |s.ku| + |kvs| <= s.capacity
    ensures Run(s, Inserts(kvs)) == s.(ku := s.ku + kvs, produced := s.produced + kvs)
  {
    if kvs == [] {
      assert s.ku + kvs == s.ku && s.produced + kvs == s.produced;
    } else {
      var n := |kvs| - 1;
      var last := KernelInsert(kvs[n], true);
      InsertsFill(s, kvs[..n]);
      RunOn(s, Inserts(kvs[..n]), [last]);
      One(Run(s, Inserts(kvs[..n])), last);
      assert kvs == kvs[..n] + [kvs[n]];
    }
  }

  /** The state after n pairs have gone from the KU lane to the UK lane. */
  function Relayed(s: State, n: nat): State
    requires n <= |s.ku|
  {
    s.(ku := s.ku[n..], uk := s.uk + s.ku[..n], popped := s.popped + n, pushed := s.pushed + n,
       taken := s.taken + s.ku[..n], forwarded := s.forwarded + s.ku[..n])
  }

  lemma {:induction false} RoundsRelay(s: State, n: nat)
    requires s.hand.None? && !s.joined && n <= |s.ku| && |s.uk| + n <= s.capacity
    ensures Run(s, Rounds(n)) == Relayed(s, n)
  {
    if n == 0 {
      assert s.uk + s.ku[..0] == s.uk && s.taken + s.ku[..0] == s.taken && s.forwarded + s.ku[..0] == s.forwarded;
    } else {
      RoundsRelay(s, n - 1);
      var r := Relayed(s, n - 1);
      RunOn(s, Rounds(n - 1), [RelayPop(true)]);
      One(r, RelayPop(true));
      RunOn(s, Rounds(n - 1) + [RelayPop(true)], [RelayPush(true)]);
      One(Apply(r, RelayPop(true)), RelayPush(true));
      OneMore(s, n - 1);
    }
  }

  lemma OneMore(s: State, n: nat)
    requires s.hand.None? && !s.joined && n < |s.ku| && |s.uk| + n < s.capacity
    ensures Apply(Apply(Relayed(s, n), RelayPop(true)), RelayPush(true)) == Relayed(s, n + 1)
  {
    var kv := s.ku[n];
    assert s.ku[..n + 1] == s.ku[..n] + [kv] && s.ku[n..][1..] == s.ku[n + 1..] && s.ku[n..][0] == kv;
    assert s.uk + s.ku[..n] + [kv] == s.uk + s.ku[..n + 1];
    assert s.taken + s.ku[..n] + [kv] == s.taken + s.ku[..n + 1];
    assert s.forwarded + s.ku[..n] + [kv] == s.forwarded + s.ku[..n + 1];
  }

  lemma {:induction false} PopsDrain(s: State, n: nat)
    requires s.joined && n <= |s.uk|
    ensures Run(s, Pops(n)) == s.(uk := s.uk[n..], consumed := s.consumed + s.uk[..n])
  {
    if n == 0 {
      assert s.consumed + s.uk[..0] == s.consumed;
    } else {
      PopsDrain(s, n - 1);
      RunOn(s, Pops(n - 1), [KernelPop(true)]);
      One(Run(s, Pops(n - 1)), KernelPop(true));
      assert s.uk[..n] == s.uk[..n - 1] + [s.uk[n - 1]];
    }
  }

  /** When no operation answers busy and the lanes hold all that is produced, a round per pair, the join and a
      drain of as many pops deliver exactly what was produced. */
  lemma AllArrive(s: State, kvs: seq<Kv>)
    requires Initial(s) && |kvs| <= s.capacity
    ensures var r := Run(s, Inserts(kvs) + Rounds(|kvs|) + [Join] + Pops(|kvs|));
            r.produced == r.consumed == kvs && r.ku == r.uk == [] && r.dropped == 0
  {
    var n := |kvs|;
    InsertsFill(s, kvs);
    var filled := Run(s, Inserts(kvs));
    RunOn(s, Inserts(kvs), Rounds(n));
    RoundsRelay(filled, n);
    RunOn(s, Inserts(kvs) + Rounds(n), [Join]);
    One(Relayed(filled, n), Join);
    RunOn(s, Inserts(kvs) + Rounds(n) + [Join], Pops(n));
    PopsDrain(Apply(Relayed(filled, n), Join), n);
    assert filled.ku == kvs && kvs[..n] == kvs;
  }
}
