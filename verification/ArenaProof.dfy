// Safety and accounting of the page-fragment allocator over every run.

module ArenaProof {
  import opened Base
  import opened Words
  import opened Arena

  // ---- Rounding and masking ----

  /** round_up gives the next multiple of 8, and 0 for 0. */
  lemma RoundUp8Is(x: nat)
    requires x < TWO32
    ensures RoundUp8(x) % 8 == 0 && x <= RoundUp8(x) < x + 8 && (x == 0 ==> RoundUp8(x) == 0)
  {
    var y := Sub64(x, 1);
    SetLow3(y);
    NextMultipleOf8(y, BitOr(y, 7));
  }

  /** Setting the low three bits. */
  lemma SetLow3(y: nat)
    ensures BitOr(y, 7) == y - y % 8 + 7
  {
    Low3();
    MaskIsMod(y, 8);
  }

  lemma NextMultipleOf8(y: nat, z: nat)
    requires y < TWO64 && z == y - y % 8 + 7
    ensures z < TWO64 && Add64(z, 1) % 8 == 0
    ensures y < TWO32 ==> y + 1 <= Add64(z, 1) < y + 9
    ensures y + 1 == TWO64 ==> Add64(z, 1) == 0
  {
  }

  lemma Low3()
    ensures IsPow2(8)
  {
    assert IsPow2(4);
  }

  lemma Pow2Of64()
    ensures IsPow2(TWO64)
  {
    Pow2Of32();
    Pow2Product(TWO32, TWO32);
  }

  function PageOf(a: Addr, pageSize: nat): nat
    requires 0 < pageSize
  {
    a - a % pageSize
  }

  predicate GoodPage(pageSize: nat) { IsPow2(pageSize) && 16 <= pageSize < TWO64 }

  lemma MaskIsPageOf(a: Addr, pageSize: nat)
    requires GoodPage(pageSize) && a < TWO64
    ensures MaskPage(a, pageSize) == PageOf(a, pageSize)
  {
    Pow2Of64();
    MaskClearsLow(a, TWO64, pageSize);
  }

  // ---- The inductive invariant ----

  /** A block lies below the counter word of its page, and above what is left of the current page. */
  predicate BlockOk(s: State, a: Addr)
    requires a in s.issued
  {
    var Block(page, n) := s.issued[a];
    && 0 < n && n % 8 == 0 && a % 8 == 0
    && page in s.counters && s.base <= page <= a && a + n <= page + s.pageSize - 8
    && (if page == s.curPage then s.curPage + s.curOffset <= a else page + s.pageSize <= s.curPage)
  }

  predicate Disjoint(a: Addr, n: nat, b: Addr, m: nat) { a + n <= b || b + m <= a }

  predicate Apart(issued: map<Addr, Block>) {
    forall a, b :: a in issued && b in issued && a != b ==> Disjoint(a, issued[a].size, b, issued[b].size)
  }

  /** Pages start at multiples of their size. */
  predicate Aligned(pages: set<Addr>, pageSize: nat)
    requires 0 < pageSize
  {
    forall page :: page in pages ==> page % pageSize == 0
  }

  predicate Frame(s: State) {
    var p := s.pageSize;
    && p % 8 == 0 && s.base + s.size <= TWO64
    && (s.curPage == 0 ==> s.nextPageOff == 0 && s.issued == map[])
    && (s.curPage != 0 ==>
          && 0 < s.base <= s.curPage && s.curPage + p == s.base + s.nextPageOff && s.nextPageOff <= s.size
          && s.curOffset <= p - 8 && s.curOffset % 8 == 0 && s.curPage in s.counters)
  }

  /** The allocation under way fits on the current page. */
  predicate LockOk(s: State) {
    s.lock.Some? ==>
      var aligned := s.lock.value.aligned;
      s.curPage != 0 && 0 < aligned <= s.curOffset && aligned % 8 == 0
  }

  predicate Inv(s: State) {
    && GoodPage(s.pageSize) && s.base % s.pageSize == 0 && Aligned(s.counters.Keys, s.pageSize)
    && Frame(s) && LockOk(s) && Apart(s.issued) && s.live <= s.issued.Keys
    && (forall a :: a in s.issued ==> BlockOk(s, a))
    && (forall t :: t in s.pending ==> s.pending[t].a < TWO64)
  }

  /** A range given to set_range: memory the caller owns, so it does not wrap. */
  predicate Range(start: Addr, size: nat) { start < TWO64 && size < TWO64 && start + size <= TWO64 }

  /** A page could start here. */
  predicate PageStart(a: Addr, pageSize: nat)
    requires 0 < pageSize
  {
    a % pageSize == 0
  }

  /** What set_range configures lies inside the range it was given, and is whole pages ... */
  lemma ConfiguredInRange(start: Addr, size: nat, pageSize: nat)
    requires Range(start, size) && GoodPage(pageSize)
    ensures var s := Configured(start, size, pageSize);
            && Inv(s) && s.live == {} && s.pageSize == pageSize
            && (s.base != 0 ==> start <= s.base && s.base + s.size <= start + size && s.size % pageSize == 0)
  {
    Low3();
    Pow2Divides(8, pageSize);
    ConfiguredIs(start, size, pageSize);
    var first := PageOf(start + pageSize - 1, pageSize);
    Multiple(start + pageSize - 1, pageSize);
    if first <= start + size {
      Multiple(start + size - first, pageSize);
    }
  }

  /** ... and all of them: no whole page is left out. It is nothing only if no page starts inside the range, or
      the range starts at NULL or ends with the address space. */
  lemma ConfiguredIsAll(start: Addr, size: nat, pageSize: nat)
    requires Range(start, size) && GoodPage(pageSize)
    ensures var s := Configured(start, size, pageSize);
            s.base != 0 ==> s.base < start + pageSize && start + size < s.base + s.size + pageSize
    ensures var s := Configured(start, size, pageSize);
            s.base == 0 <==>
              || start == 0 || start + size == TWO64
              || forall a :: start <= a < start + size ==> !PageStart(a, pageSize)
  {
    ConfiguredIs(start, size, pageSize);
    FirstStart(start, size, pageSize);
    var first := PageOf(start + pageSize - 1, pageSize);
    if first <= start + size {
      Multiple(start + size - first, pageSize);
    }
  }

  lemma ConfiguredIs(start: Addr, size: nat, pageSize: nat)
    requires Range(start, size) && GoodPage(pageSize)
    ensures var s := Configured(start, size, pageSize);
            var first := PageOf(start + pageSize - 1, pageSize);
            && s == State(s.base, s.size, pageSize, 0, 0, 0, map[], map[], {}, map[], None)
            && if start == 0 || start + size == TWO64 || start + size <= first then s.base == 0 && s.size < TWO64
               else s.base == first != 0 && s.size == PageOf(start + size - first, pageSize)
  {
    var up := Add64(Add64(start, pageSize), TWO64 - 1);
    MaskIsPageOf(up, pageSize);
    Multiple(start + pageSize - 1, pageSize);
    if start + pageSize - 1 < TWO64 {
      var first := PageOf(up, pageSize);
      assert up == start + pageSize - 1;
      if first < start + size {
        MaskIsPageOf(start + size - first, pageSize);
      }
    } else {
      DivModUnique(up, pageSize, 0, up);
      Pow2Of64();
      Pow2Divides(pageSize, TWO64);
      ModUnique(PageOf(start + pageSize - 1, pageSize), TWO64, pageSize);
      var rest := Sub64(size, Sub64(0, start));
      MaskIsPageOf(rest, pageSize);
      Multiple(rest, pageSize);
    }
  }

  /** The first page that starts at or after an address. */
  lemma FirstStart(start: Addr, size: nat, p: nat)
    requires 0 < p
    ensures var first := PageOf(start + p - 1, p);
            && start <= first < start + p && PageStart(first, p)
            && ((forall a :: start <= a < start + size ==> !PageStart(a, p)) <==> start + size <= first)
  {
    var first := PageOf(start + p - 1, p);
    Multiple(start + p - 1, p);
    forall a | start <= a < first ensures !PageStart(a, p) {
      if PageStart(a, p) {
        ModUnique(a, first, p);
      }
    }
    if first < start + size {
      assert PageStart(first, p);
    }
  }

  lemma Multiple(a: nat, d: nat)
    requires 0 < d
    ensures PageOf(a, d) % d == 0 && PageOf(a, d) <= a < PageOf(a, d) + d
  {
    DivModUnique(PageOf(a, d), d, a / d, 0);
  }

  lemma SumOfMultiples(a: nat, b: nat, d: nat)
    requires 0 < d && a % d == 0 && b % d == 0
    ensures (a + b) % d == 0
  {
    DivModUnique(a + b, d, a / d + b / d, 0);
  }

  /** Masking an address inside a page gives the page. */
  lemma MaskInPage(page: nat, offset: nat, p: nat)
    requires GoodPage(p) && page % p == 0 && offset < p && page + offset < TWO64
    ensures MaskPage(page + offset, p) == page
  {
    DivModUnique(page + offset, p, page / p, offset);
    MaskIsPageOf(page + offset, p);
  }

  /** Masking any block ever issued recovers the page it was carved from. */
  lemma MaskRecoversPage(s: State, a: Addr)
    requires Inv(s) && a in s.issued
    ensures MaskPage(a, s.pageSize) == s.issued[a].page && a < TWO64
    ensures s.issued[a].page + s.pageSize <= s.base + s.size
  {
    assert BlockOk(s, a);
    MaskInPage(s.issued[a].page, a - s.issued[a].page, s.pageSize);
  }

  lemma TurnKeepsBlock(s: State, a: Addr)
    requires Frame(s) && 8 <= s.pageSize && a in s.issued && BlockOk(s, a)
    ensures BlockOk(Turn(s), a) && s.issued[a].page != Turn(s).curPage
  {
  }

  lemma NextPageAligned(s: State)
    requires Inv(s)
    ensures (s.base + s.nextPageOff) % s.pageSize == 0
  {
    if s.curPage != 0 {
      SumOfMultiples(s.curPage, s.pageSize, s.pageSize);
      DivModUnique(s.pageSize, s.pageSize, 1, 0);
    }
  }

  lemma AlignedMore(pages: set<Addr>, p: nat, page: Addr)
    requires 0 < p && Aligned(pages, p) && page % p == 0
    ensures Aligned(pages + {page}, p)
  {
  }

  lemma TurnFrame(s: State)
    requires Frame(s) && 16 <= s.pageSize && s.base != 0 && !NoPageLeft(s)
    ensures Frame(Turn(s)) && Turn(s).curPage != 0
  {
  }

  lemma KeepTurn(s: State)
    requires Inv(s) && s.lock.None? && s.base != 0 && !NoPageLeft(s)
    ensures Inv(Turn(s)) && Turn(s).curPage != 0
  {
    NextPageAligned(s);
    AlignedMore(s.counters.Keys, s.pageSize, s.base + s.nextPageOff);
    assert Turn(s).counters.Keys == s.counters.Keys + {s.base + s.nextPageOff};
    TurnFrame(s);
    forall a | a in s.issued ensures BlockOk(Turn(s), a) {
      TurnKeepsBlock(s, a);
    }
  }

  /** What is left of the current page meets no block that was ever issued. */
  lemma FreshBelow(s: State, a: Addr)
    requires Inv(s) && s.curPage != 0 && a in s.issued
    ensures a + s.issued[a].size <= s.curPage || s.curPage + s.curOffset <= a
    ensures 0 < s.issued[a].size
  {
    assert BlockOk(s, a);
  }

  lemma Mod8(a: int, b: int, c: int)
    requires a % 8 == 0 && b % 8 == 0 && c % 8 == 0
    ensures (a + b - c) % 8 == 0
  {
  }

  lemma Divides8(page: nat, p: nat)
    requires 0 < p && p % 8 == 0 && page % p == 0
    ensures page % 8 == 0
  {
    var k := (page / p) * (p / 8);
    assert page == 8 * k by { assert page == (page / p) * p; assert p == 8 * (p / 8); }
  }

  lemma ApartMore(issued: map<Addr, Block>, block: Addr, b: Block)
    requires Apart(issued) && forall a :: a in issued ==> Disjoint(a, issued[a].size, block, b.size)
    ensures Apart(issued[block := b])
  {
  }

  lemma CarveKeepsBlock(s: State, aligned: nat, seen: nat, a: Addr)
    requires Frame(s) && aligned <= s.curOffset && a in s.issued && BlockOk(s, a) && a != Cut(s, aligned)
    ensures BlockOk(Carve(s, aligned, seen), a)
  {
  }

  lemma NewBlockOk(s: State, aligned: nat, seen: nat)
    requires Frame(s) && s.curPage != 0 && s.curPage % 8 == 0 && 0 < aligned <= s.curOffset && aligned % 8 == 0
    ensures BlockOk(Carve(s, aligned, seen), Cut(s, aligned)) && Frame(Carve(s, aligned, seen))
  {
    Mod8(s.curPage, s.curOffset, aligned);
    Mod8(0, s.curOffset, aligned);
  }

  lemma KeepCarve(s: State, aligned: nat, seen: nat)
    requires Inv(s) && s.curPage != 0 && 0 < aligned <= s.curOffset && aligned % 8 == 0
    ensures Inv(Carve(s, aligned, seen).(lock := None)) && Cut(s, aligned) !in s.issued && Cut(s, aligned) != 0
  {
    var t, block := Carve(s, aligned, seen).(lock := None), Cut(s, aligned);
    forall a | a in s.issued ensures Disjoint(a, s.issued[a].size, block, aligned) && a != block {
      FreshBelow(s, a);
    }
    ApartMore(s.issued, block, Block(s.curPage, aligned));
    Divides8(s.curPage, s.pageSize);
    NewBlockOk(s, aligned, seen);
    forall a | a in t.issued ensures BlockOk(t, a) {
      if a != block {
        CarveKeepsBlock(s, aligned, seen, a);
      }
      assert BlockOk(Carve(s, aligned, seen), a);
    }
    assert t.counters.Keys == s.counters.Keys;
  }

  /** A free changes its page's counter and nothing else. */
  lemma KeepFree(s: State, a: Addr, seen: nat, rest: map<nat, Pending>)
    requires Inv(s) && MaskPage(a, s.pageSize) % s.pageSize == 0 && rest.Keys <= s.pending.Keys
    requires forall t :: t in rest ==> rest[t] == s.pending[t]
    ensures Inv(FreeStore(s, a, seen).(pending := rest))
  {
    var t := FreeStore(s, a, seen).(pending := rest);
    forall b | b in t.issued ensures BlockOk(t, b) {
      assert BlockOk(s, b);
    }
  }

  /** A step that changes no counter and no block. */
  lemma KeepPending(s: State, live: set<Addr>, pending: map<nat, Pending>)
    requires Inv(s) && live <= s.live && forall t :: t in pending ==> pending[t].a < TWO64
    ensures Inv(s.(live := live, pending := pending))
  {
    var r := s.(live := live, pending := pending);
    forall b | b in r.issued ensures BlockOk(r, b) {
      assert BlockOk(s, b);
    }
  }

  /** What a free takes for the page of an address is page aligned, whatever the address. */
  lemma MaskAligned(a: Addr, p: nat)
    requires GoodPage(p) && a < TWO64
    ensures MaskPage(a, p) % p == 0
  {
    MaskIsPageOf(a, p);
    Multiple(a, p);
  }

  // ---- Safety ----

  /** Block a of n bytes was never issued; it is aligned, lies in the range and below the counter word
      of its page. */
  predicate Issues(s: State, t: State, a: Addr, n: nat) {
    var page := t.curPage;
    && a !in s.issued && t.issued == s.issued[a := Block(page, n)] && t.live == s.live + {a}
    && 0 < n && a % 8 == 0 && page <= a && a + n <= page + s.pageSize - 8
    && s.base <= page && page + s.pageSize <= s.base + s.size
  }

  lemma KeepLoad(s: State, aligned: nat)
    requires Inv(s) && aligned % 8 == 0
    ensures var t := AllocLoad(s, aligned);
            && Inv(t) && t.base == s.base && t.size == s.size && t.pageSize == s.pageSize
            && t.issued == s.issued && t.live == s.live && t.pending == s.pending
            && (t.lock.None? ==> t == s)
            && (s.lock.None? && t.lock.Some? ==>
                  t.lock.value == Locked(aligned, Counter(t, t.curPage)) && t.curPage in t.counters)
  {
    if s.lock.None? && !Refuses(s, aligned) && PageFull(s, aligned) && !NoPageLeft(s) {
      KeepTurn(s);
      Locking(Turn(s), aligned);
    } else if s.lock.None? && !Refuses(s, aligned) && !PageFull(s, aligned) {
      Locking(s, aligned);
    }
  }

  lemma Locking(s: State, aligned: nat)
    requires Inv(s) && s.curPage != 0 && 0 < aligned <= s.curOffset && aligned % 8 == 0
    ensures Inv(s.(lock := Some(Locked(aligned, Counter(s, s.curPage)))))
  {
    var r := s.(lock := Some(Locked(aligned, Counter(s, s.curPage))));
    forall b | b in r.issued ensures BlockOk(r, b) {
      assert BlockOk(s, b);
    }
  }

  /** The end of an allocation issues a new block, whatever frees have done since its beginning. */
  lemma StoreIsSafe(s: State)
    requires Inv(s)
    ensures var t, a := AllocStore(s), Answer(s, AllocEnd);
            && Inv(t) && t.base == s.base && t.size == s.size && t.pageSize == s.pageSize && t.lock.None?
            && (s.lock.None? ==> t == s && a == 0)
            && (s.lock.Some? ==> a != 0 && Issues(s, t, a, s.lock.value.aligned))
  {
    if s.lock.Some? {
      KeepCarve(s, s.lock.value.aligned, s.lock.value.seen);
      assert BlockOk(AllocStore(s), Cut(s, s.lock.value.aligned));
    }
  }

  /** An allocation returns NULL and changes nothing, or returns a new block of the rounded size. */
  lemma AllocIsSafe(s: State, n: nat)
    requires Inv(s) && s.lock.None? && n < TWO32
    ensures var (t, a) := Alloc(s, n);
            && Inv(t) && t.base == s.base && t.size == s.size && t.pageSize == s.pageSize && t.lock.None?
            && if a == 0 then t == s else 0 < n <= RoundUp8(n) && Issues(s, t, a, RoundUp8(n))
  {
    RoundUp8Is(n);
    KeepLoad(s, RoundUp8(n));
    StoreIsSafe(AllocLoad(s, RoundUp8(n)));
  }

  lemma KeepInv(s: State, e: Event)
    requires Inv(s)
    ensures var r, a := Apply(s, e), Answer(s, e);
            && Inv(r) && r.base == s.base && r.size == s.size && r.pageSize == s.pageSize
            && r.issued.Keys == (if a == 0 then s.issued.Keys else s.issued.Keys + {a})
            && (a != 0 ==> a !in s.issued)
  {
    hide Inv;
    match e
    case AllocBegin(n) => KeepBegin(s, n);
    case AllocEnd => KeepEnd(s);
    case FreeBegin(t, a) => KeepCall(s, e);
    case FreeStep(t) =>
      if t in s.pending {
        KeepStep(s, t);
      }
  }

  lemma KeepBegin(s: State, n: nat)
    requires Inv(s)
    ensures var r := Apply(s, AllocBegin(n));
            Inv(r) && r.base == s.base && r.size == s.size && r.pageSize == s.pageSize && r.issued == s.issued
  {
    if n < TWO32 {
      RoundUp8Is(n);
      KeepLoad(s, RoundUp8(n));
    }
  }

  lemma KeepCall(s: State, e: Event)
    requires Inv(s) && e.FreeBegin?
    ensures var r := Apply(s, e); Inv(r) && r == s.(live := r.live, pending := r.pending)
  {
    KeepPending(s, s.live, Apply(s, e).pending);
  }

  lemma KeepEnd(s: State)
    requires Inv(s)
    ensures var r, a := AllocStore(s), Answer(s, AllocEnd);
            && Inv(r) && r.base == s.base && r.size == s.size && r.pageSize == s.pageSize
            && r.issued.Keys == (if a == 0 then s.issued.Keys else s.issued.Keys + {a})
            && (a != 0 ==> a !in s.issued)
  {
    StoreIsSafe(s);
    if s.lock.Some? {
      var a := Answer(s, AllocEnd);
      assert s.issued[a := Block(AllocStore(s).curPage, s.lock.value.aligned)].Keys == s.issued.Keys + {a};
    }
  }

  lemma KeepStep(s: State, t: nat)
    requires Inv(s) && t in s.pending
    ensures Inv(FreeNext(s, t))
  {
    match s.pending[t]
    case Checked(a, found) => KeepPending(s, FreeNext(s, t).live, FreeNext(s, t).pending);
    case Loaded(a, seen) =>
      MaskAligned(a, s.pageSize);
      KeepFree(s, a, seen, s.pending - {t});
  }

  /** The blocks a run returned, in order. */
  function Returned(s: State, es: seq<Event>): seq<Addr>
    requires 8 <= s.pageSize <= TWO64
  {
    if es == [] then [] else
      var before := es[..|es| - 1];
      var a := Answer(Run(s, before), es[|es| - 1]);
      if a == 0 then Returned(s, before) else Returned(s, before) + [a]
  }

  lemma {:induction false} RunKeepsInv(s: State, es: seq<Event>)
    requires Inv(s)
    ensures Inv(Run(s, es)) && Run(s, es).base == s.base && Run(s, es).size == s.size
  {
    if es != [] {
      RunKeepsInv(s, es[..|es| - 1]);
      KeepInv(Run(s, es[..|es| - 1]), es[|es| - 1]);
    }
  }

  predicate Listed(blocks: seq<Addr>, issued: set<Addr>) {
    && (forall i :: 0 <= i < |blocks| ==> blocks[i] in issued)
    && (forall i, j :: 0 <= i < j < |blocks| ==> blocks[i] != blocks[j])
  }

  lemma ListedMore(blocks: seq<Addr>, issued: set<Addr>, a: Addr)
    requires Listed(blocks, issued) && a !in issued
    ensures Listed(blocks + [a], issued + {a})
  {
  }

  /** No address is issued twice. */
  lemma {:induction false} NeverReissued(s: State, es: seq<Event>)
    requires Inv(s)
    ensures Listed(Returned(s, es), Run(s, es).issued.Keys)
  {
    if es != [] {
      var before, e := es[..|es| - 1], es[|es| - 1];
      var r := Run(s, before);
      NeverReissued(s, before);
      RunKeepsInv(s, before);
      KeepInv(r, e);
      if Answer(r, e) != 0 {
        ListedMore(Returned(s, before), r.issued.Keys, Answer(r, e));
      }
    }
  }

  /** Over any run of allocations and frees, however the frees are used and interleaved, each block
      returned is aligned, inside the range given to set_range and clear of the counter word of its page,
      which masking its address recovers, and disjoint from every other block returned. */
  lemma RunIsSafe(start: Addr, size: nat, pageSize: nat, es: seq<Event>, i: nat)
    requires Range(start, size) && GoodPage(pageSize)
    requires i < |Returned(Configured(start, size, pageSize), es)|
    ensures var start' := Configured(start, size, pageSize);
            var s, blocks := Run(start', es), Returned(start', es);
            && blocks[i] in s.issued && InBounds(start, size, pageSize, blocks[i], s.issued[blocks[i]])
            && forall j :: 0 <= j < |blocks| && j != i ==>
                 && blocks[j] in s.issued
                 && Disjoint(blocks[i], s.issued[blocks[i]].size, blocks[j], s.issued[blocks[j]].size)
  {
    var s0 := Configured(start, size, pageSize);
    ConfiguredInRange(start, size, pageSize);
    RunKeepsInv(s0, es);
    NeverReissued(s0, es);
    IssuedInBounds(start, size, pageSize, Run(s0, es), Returned(s0, es)[i]);
  }

  predicate InBounds(start: Addr, size: nat, pageSize: nat, a: Addr, b: Block)
    requires 0 < pageSize <= TWO64
  {
    && b.page == MaskPage(a, pageSize) && 0 < b.size && a % 8 == 0 && start <= b.page <= a
    && a + b.size <= b.page + pageSize - 8 && b.page + pageSize <= start + size
  }

  lemma IssuedInBounds(start: Addr, size: nat, pageSize: nat, s: State, a: Addr)
    requires Inv(s) && s.pageSize == pageSize && a in s.issued
    requires s.base != 0 ==> start <= s.base && s.base + s.size <= start + size
    ensures InBounds(start, size, pageSize, a, s.issued[a])
  {
    assert BlockOk(s, a);
    MaskRecoversPage(s, a);
  }
}
