// bpf_arena_userspace_set_range, bpf_arena_alloc and bpf_arena_free on real globals, with other threads
// running between a call's accesses to a page counter.

module ArenaAllocator {
  import opened Base
  import opened Words
  import opened Arena
  import opened ArenaProof
  import opened ArenaCounts
  import opened ArenaYield

  class Allocator {
    var base: Addr
    var size: nat
    var pageSize: nat
    var nextPageOff: nat
    var curPage: Addr
    var curOffset: nat
    var counters: map<Addr, nat>  // the word at the end of each page, by page address

    // The rest of the system: the blocks, the frees under way, and who holds the lock.
    var issued: map<Addr, Block>
    var live: set<Addr>
    var pending: map<nat, Pending>
    var lock: Option<Locked>

    function Now(): State
      reads this
    {
      State(base, size, pageSize, nextPageOff, curPage, curOffset, counters, issued, live, pending, lock)
    }

    ghost predicate Valid()
      reads this
    {
      Inv(Now())
    }

    constructor ()
    {
      base, size, pageSize, nextPageOff, curPage, curOffset := 0, 0, 0, 0, 0, 0;
      counters, issued, live, pending, lock := map[], map[], {}, map[], None;
    }

    /** Hands over a range; systemPageSize is what sysconf answers. The arena is all the whole pages inside the
        range, none of them in use, or nothing if there is none. */
    method SetRange(start: Addr, len: nat, systemPageSize: int)
      requires Range(start, len) && (systemPageSize > 0 ==> GoodPage(systemPageSize))
      modifies this
      ensures Valid() && pageSize == (if systemPageSize > 0 then systemPageSize else 4096)
      ensures Now() == Configured(start, len, pageSize)
      ensures base != 0 ==>
                && start <= base < start + pageSize && PageStart(base, pageSize) && size % pageSize == 0
                && base + size <= start + len < base + size + pageSize
      ensures base == 0 <==>
                start == 0 || start + len == TWO64 || forall a :: start <= a < start + len ==> !PageStart(a, pageSize)
      ensures nextPageOff == curPage == curOffset == 0 && counters == map[] && issued == map[] && lock == None
    {
      var p := systemPageSize;
      if p <= 0 {
        p := 4096;
        UsualPage();
      }
      Configure(start, len, p);
      ConfiguredInRange(start, len, p);
      ConfiguredIsAll(start, len, p);
      ConfiguredIs(start, len, p);
    }

    method Configure(start: Addr, len: nat, p: nat)
      requires start < TWO64 && len < TWO64 && 0 < p < TWO64
      modifies this
      ensures pageSize == p && Now() == Configured(start, len, p)
    {
      pageSize := p;
      counters, issued, live, pending, lock := map[], map[], {}, map[], None;
      nextPageOff, curPage, curOffset := 0, 0, 0;
      MinusOne(Add64(start, pageSize));
      var alignedStart := BitAnd(Sub64(Add64(start, pageSize), 1), TWO64 - pageSize);
      if start == 0 || len == 0 || alignedStart >= Add64(start, len) {
        base, size := 0, 0;
        return;
      }
      var alignedSize := Sub64(len, Sub64(alignedStart, start));
      alignedSize := BitAnd(alignedSize, TWO64 - pageSize);
      base, size := alignedStart, alignedSize;
    }

    /** Steps of other threads. */
    method Interfere(es: seq<Event>)
      requires 8 <= pageSize <= TWO64
      modifies this
      ensures Now() == Run(old(Now()), es)
    {
      var i := 0;
      while i < |es|
        invariant 0 <= i <= |es| && 8 <= pageSize <= TWO64 && Now() == Run(old(Now()), es[..i])
      {
        assert es[..i + 1][..i] == es[..i];
        Take(Apply(Now(), es[i]));
        i := i + 1;
      }
      assert es[..|es|] == es;
    }

    method Take(s: State)
      modifies this
      ensures Now() == s
    {
      base, size, pageSize := s.base, s.size, s.pageSize;
      nextPageOff, curPage, curOffset := s.nextPageOff, s.curPage, s.curOffset;
      counters, issued, live, pending, lock := s.counters, s.issued, s.live, s.pending, s.lock;
    }

    /** An allocation; others is what happens between its load and its store of the page's counter. The lock
        keeps other allocations out of that; frees get in. Whatever they do, the block is new. */
    method Alloc(n: nat, others: seq<Event>) returns (a: Addr)
      requires Valid() && lock.None? && n < TWO32 && forall i :: 0 <= i < |others| ==> others[i] != AllocEnd
      modifies this
      ensures Valid() && lock.None?
      ensures a != 0 <==> old(
                && base != 0 && 0 < n && (n + 7) / 8 * 8 + 8 < pageSize
                && (FitsHere(Now(), n) || nextPageOff + pageSize <= size))
      ensures a == 0 ==> Now() == old(Now())
      ensures a != 0 ==>
                && Now() == Run(old(Now()), [AllocBegin(n)] + others + [AllocEnd])
                && a !in old(issued) && a in issued && issued[a].size == (n + 7) / 8 * 8 >= n > 0
                && a == curPage + curOffset
                && nextPageOff == old(nextPageOff) + if old(FitsHere(Now(), n)) then 0 else pageSize
      ensures others == [] && old(Books(Now()) && Accounted(Now())) ==> Books(Now()) && Accounted(Now())
    {
      ghost var s := Now();
      RunFrame(s, n, others);
      LockIffGranted(s, n);
      if Books(s) && Accounted(s) {
        WholeAlloc(s, n);
      }
      var ok, page, offset, aligned, count := LoadForAlloc(n);
      if !ok {
        return 0;
      }
      Interfere(others);
      a := StoreForAlloc(page, offset, aligned, count);
    }

    method LoadForAlloc(n: nat) returns (ok: bool, page: Addr, offset: nat, aligned: nat, count: nat)
      requires n < TWO32 && 8 <= pageSize <= TWO64 && lock.None?
      modifies this
      ensures Now() == Apply(old(Now()), AllocBegin(n)) && aligned == RoundUp8(n)
      ensures ok <==> lock.Some?
      ensures ok ==>
                && aligned <= curOffset && page == curPage && offset == curOffset - aligned
                && lock.value == Locked(aligned, count)
    {
      page, offset, count := 0, 0, 0;
      aligned := RoundUp8(n);
      if base == 0 || size == 0 || pageSize == 0 {
        return false, page, offset, aligned, count;
      }
      if aligned == 0 || aligned >= pageSize - 8 {
        return false, page, offset, aligned, count;
      }
      page := curPage;
      if page == 0 || curOffset < aligned {
        if nextPageOff > size || pageSize > size - nextPageOff {
          return false, page, offset, aligned, count;
        }
        page := NextPage();
      }
      offset := curOffset - aligned;
      count := if page in counters then counters[page] else 0;
      lock := Some(Locked(aligned, count));
      ok := true;
    }

    method NextPage() returns (page: Addr)
      requires 8 <= pageSize
      modifies this
      ensures Now() == Turn(old(Now())) && page == curPage
    {
      page := base + nextPageOff;
      nextPageOff := nextPageOff + pageSize;
      curPage := page;
      curOffset := pageSize - 8;
      counters := counters[page := 0];
    }

    method StoreForAlloc(page: Addr, offset: nat, aligned: nat, count: nat) returns (a: Addr)
      requires lock == Some(Locked(aligned, count))
      requires page == curPage && aligned <= curOffset && offset == curOffset - aligned
      modifies this
      ensures Now() == AllocStore(old(Now())) && a == Answer(old(Now()), AllocEnd)
    {
      counters := counters[page := Add64(count, 1)];
      curOffset := offset;
      a := page + offset;
      issued, live := issued[a := Block(page, aligned)], live + {a};
      lock := None;
    }

    /** A free by thread t, which takes no lock: first is what happens between its two reads of the counter,
        second what happens between the second read and the store. */
    method Free(t: nat, a: Addr, first: seq<Event>, second: seq<Event>)
      requires Valid() && a < TWO64 && t !in pending
      requires forall i :: 0 <= i < |first| ==> first[i] != FreeStep(t)
      requires forall i :: 0 <= i < |second| ==> second[i] != FreeStep(t)
      modifies this
      ensures Valid()
      ensures a == 0 ==> Now() == old(Now())
      ensures a != 0 && old(CounterOf(Now(), a)) == 0 ==>
                Now() == Run(old(Now()), [FreeBegin(t, a)] + first + [FreeStep(t)])
      ensures a != 0 && old(CounterOf(Now(), a)) != 0 ==>
                Now() == Run(old(Now()), [FreeBegin(t, a)] + first + [FreeStep(t)] + second + [FreeStep(t)])
      ensures first == second == [] && a in old(live) &&
              old(Books(Now()) && Accounted(Now()) && Proper(Now(), FreeBegin(t, a))) ==>
                Books(Now()) && Accounted(Now()) && FreesOne(old(Now()), Now(), a)
    {
      if a == 0 || pageSize == 0 {
        return;
      }
      ghost var s := Now();
      FreeFrame(s, t, a, first, second);
      if Books(s) && Accounted(s) && Proper(s, FreeBegin(t, a)) && a in live {
        WholeFree(s, t, a);
      }
      Update(t, a, first, second);
    }

    method Update(t: nat, a: Addr, first: seq<Event>, second: seq<Event>)
      requires 8 <= pageSize <= TWO64 && 0 < a < TWO64 && t !in pending
      requires forall i :: 0 <= i < |first| ==> first[i] != FreeStep(t)
      requires forall i :: 0 <= i < |second| ==> second[i] != FreeStep(t)
      modifies this
      ensures var r := Apply(Run(Apply(old(Now()), FreeBegin(t, a)), first), FreeStep(t));
              Now() == if old(CounterOf(Now(), a)) == 0 then r else Apply(Run(r, second), FreeStep(t))
    {
      StillLoaded(Apply(Now(), FreeBegin(t, a)), first, t);
      var page := BitAnd(a, TWO64 - pageSize);
      var found := ReadForTest(t, a, page);
      Interfere(first);
      if found > 0 {
        StillLoaded(Apply(Now(), FreeStep(t)), second, t);
        var count := ReadForDecrement(t, a, page);
        Interfere(second);
        StoreForFree(t, a, page, count);
      } else {
        Leave(t, a);
      }
    }

    method ReadForTest(t: nat, a: Addr, page: Addr) returns (found: nat)
      requires 8 <= pageSize <= TWO64 && 0 < a < TWO64 && t !in pending && page == MaskPage(a, pageSize)
      modifies this
      ensures Now() == Apply(old(Now()), FreeBegin(t, a)) && found == old(CounterOf(Now(), a))
    {
      found := if page in counters then counters[page] else 0;
      pending := pending[t := Checked(a, found)];
    }

    method ReadForDecrement(t: nat, a: Addr, page: Addr) returns (count: nat)
      requires 8 <= pageSize <= TWO64 && page == MaskPage(a, pageSize)
      requires t in pending && pending[t].Checked? && pending[t].a == a && 0 < pending[t].found
      modifies this
      ensures Now() == Apply(old(Now()), FreeStep(t)) && count == old(CounterOf(Now(), a))
    {
      count := if page in counters then counters[page] else 0;
      pending := pending[t := Loaded(a, count)];
    }

    method StoreForFree(t: nat, a: Addr, page: Addr, count: nat)
      requires 8 <= pageSize <= TWO64 && page == MaskPage(a, pageSize)
      requires t in pending && pending[t] == Loaded(a, count)
      modifies this
      ensures Now() == Apply(old(Now()), FreeStep(t))
    {
      counters := counters[page := Sub64(count, 1)];
      live, pending := live - {a}, pending - {t};
    }

    /** The test failed. */
    method Leave(t: nat, a: Addr)
      requires 8 <= pageSize <= TWO64 && t in pending && pending[t] == Checked(a, 0)
      modifies this
      ensures Now() == Apply(old(Now()), FreeStep(t))
    {
      live, pending := live - {a}, pending - {t};
    }
  }

  lemma {:induction false} Append(s: State, es: seq<Event>, more: seq<Event>)
    requires 8 <= s.pageSize <= TWO64
    ensures Run(s, es + more) == Run(Run(s, es), more)
  {
    if more == [] {
      assert es + more == es;
    } else {
      var n := |more| - 1;
      Append(s, es, more[..n]);
      assert (es + more)[..|es| + n] == es + more[..n];
    }
  }

  lemma One(s: State, e: Event)
    requires 8 <= s.pageSize <= TWO64
    ensures Run(s, [e]) == Apply(s, e)
  {
    assert [e][..0] == [];
  }

  lemma {:induction false} Issued(s: State, es: seq<Event>)
    requires Inv(s)
    ensures Inv(Run(s, es)) && s.issued.Keys <= Run(s, es).issued.Keys
  {
    if es != [] {
      Issued(s, es[..|es| - 1]);
      KeepInv(Run(s, es[..|es| - 1]), es[|es| - 1]);
    }
  }

  /** The run of an allocation and what happens meanwhile. */
  lemma RunFrame(s: State, n: nat, others: seq<Event>)
    requires Inv(s) && s.lock.None? && n < TWO32 && forall i :: 0 <= i < |others| ==> others[i] != AllocEnd
    ensures var s1 := Apply(s, AllocBegin(n));
            && Inv(s1)
            && (s1.lock.None? ==> s1 == s)
            && (s1.lock.Some? ==>
                  var r := Run(s1, others);
                  && Inv(r) && r == s1.(counters := r.counters, live := r.live, pending := r.pending)
                  && Inv(AllocStore(r)) && AllocStore(r) == Run(s, [AllocBegin(n)] + others + [AllocEnd])
                  && var a := Answer(r, AllocEnd);
                     a != 0 && a !in s.issued && a in AllocStore(r).issued && n > 0
                     && AllocStore(r).issued[a].size == RoundUp8(n) >= n)
  {
    var s1 := Apply(s, AllocBegin(n));
    RoundUp8Is(n);
    KeepLoad(s, RoundUp8(n));
    if s1.lock.Some? {
      StillLocked(s1, others);
      Issued(s1, others);
      StoreIsSafe(Run(s1, others));
      One(s, AllocBegin(n));
      Append(s, [AllocBegin(n)], others);
      One(Run(s1, others), AllocEnd);
      Append(s, [AllocBegin(n)] + others, [AllocEnd]);
    }
  }

  lemma LockIffGranted(s: State, n: nat)
    requires Inv(s) && s.lock.None? && n < TWO32
    ensures Apply(s, AllocBegin(n)).lock.Some? <==>
              && s.base != 0 && 0 < n && (n + 7) / 8 * 8 + 8 < s.pageSize
              && (FitsHere(s, n) || s.nextPageOff + s.pageSize <= s.size)
    ensures var t := Apply(s, AllocBegin(n));
            t.lock.Some? ==> t.nextPageOff == s.nextPageOff + if FitsHere(s, n) then 0 else s.pageSize
    ensures RoundUp8(n) == (n + 7) / 8 * 8
  {
    GrantedIff(s, n);
    BytesAreRounded(n);
    KeepLoad(s, RoundUp8(n));
    StoreIsSafe(Apply(s, AllocBegin(n)));
    if Alloc(s, n).1 != 0 {
      GrantedBlock(s, n);
    }
  }

  lemma WholeAlloc(s: State, n: nat)
    requires Inv(s) && Books(s) && Accounted(s) && s.lock.None? && n < TWO32
    ensures var s1 := Apply(s, AllocBegin(n));
            Books(s1) && Accounted(s1) && Books(AllocStore(s1)) && Accounted(AllocStore(s1))
  {
    var s1 := Apply(s, AllocBegin(n));
    FreshAccounts(s, AllocBegin(n));
    RoundUp8Is(n);
    KeepLoad(s, RoundUp8(n));
    FreshAccounts(s1, AllocEnd);
  }

  /** The run of a free and what happens meanwhile. */
  lemma FreeFrame(s: State, t: nat, a: Addr, first: seq<Event>, second: seq<Event>)
    requires Inv(s) && 0 < a < TWO64 && t !in s.pending
    requires forall i :: 0 <= i < |first| ==> first[i] != FreeStep(t)
    requires forall i :: 0 <= i < |second| ==> second[i] != FreeStep(t)
    ensures var r1 := Run(Apply(s, FreeBegin(t, a)), first);
            var r2 := Run(Apply(r1, FreeStep(t)), second);
            && t in r1.pending && r1.pending[t] == Checked(a, CounterOf(s, a)) && Inv(Apply(r1, FreeStep(t)))
            && Apply(r1, FreeStep(t)) == Run(s, [FreeBegin(t, a)] + first + [FreeStep(t)])
            && (0 < CounterOf(s, a) ==>
                  && t in r2.pending && r2.pending[t] == Loaded(a, CounterOf(r1, a)) && Inv(Apply(r2, FreeStep(t)))
                  && Apply(r2, FreeStep(t)) ==
                     Run(s, [FreeBegin(t, a)] + first + [FreeStep(t)] + second + [FreeStep(t)]))
  {
    var s1 := Apply(s, FreeBegin(t, a));
    var r1 := Run(s1, first);
    var s2 := Apply(r1, FreeStep(t));
    StillLoaded(s1, first, t);
    One(s, FreeBegin(t, a));
    Append(s, [FreeBegin(t, a)], first);
    One(r1, FreeStep(t));
    Append(s, [FreeBegin(t, a)] + first, [FreeStep(t)]);
    Issued(s, [FreeBegin(t, a)] + first + [FreeStep(t)]);
    if 0 < CounterOf(s, a) {
      StillLoaded(s2, second, t);
      Append(s, [FreeBegin(t, a)] + first + [FreeStep(t)], second);
      One(Run(s2, second), FreeStep(t));
      Append(s, [FreeBegin(t, a)] + first + [FreeStep(t)] + second, [FreeStep(t)]);
      Issued(s, [FreeBegin(t, a)] + first + [FreeStep(t)] + second + [FreeStep(t)]);
    }
  }

  lemma UsualPage()
    ensures IsPow2(4096)
  {
    assert IsPow2(2) && IsPow2(4);
    Pow2Product(4, 4);
    Pow2Product(16, 16);
    Pow2Product(256, 16);
  }

  lemma MinusOne(x: nat)
    requires x < TWO64
    ensures Sub64(x, 1) == Add64(x, TWO64 - 1)
  {
  }
}
