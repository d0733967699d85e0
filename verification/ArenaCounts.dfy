// The page counters of the allocator: how far they can be off, and exactly when they are exact, over
// every run in which the steps of allocations and frees interleave.

module ArenaCounts {
  import opened Base
  import opened Words
  import opened Arena
  import opened ArenaProof

  /** The live blocks of a page. */
  function On(issued: map<Addr, Block>, live: set<Addr>, page: Addr): set<Addr> {
    set a | a in live && a in issued && issued[a].page == page
  }

  lemma OneMore(issued: map<Addr, Block>, live: set<Addr>, page: Addr, a: Addr, b: Block)
    requires a !in live && a !in issued
    ensures |On(issued[a := b], live + {a}, page)| == |On(issued, live, page)| + if b.page == page then 1 else 0
  {
    if b.page == page {
      assert On(issued[a := b], live + {a}, page) == On(issued, live, page) + {a};
    } else {
      assert On(issued[a := b], live + {a}, page) == On(issued, live, page);
    }
  }

  lemma OneLess(issued: map<Addr, Block>, live: set<Addr>, page: Addr, a: Addr)
    requires a in live && a in issued
    ensures |On(issued, live - {a}, page)| == |On(issued, live, page)| - if issued[a].page == page then 1 else 0
  {
    if issued[a].page == page {
      assert On(issued, live, page) == On(issued, live - {a}, page) + {a};
    } else {
      assert On(issued, live - {a}, page) == On(issued, live, page);
    }
  }

  /** By how much a counter is too high. */
  function Excess(s: State, page: Addr): int
    requires page in s.counters
  {
    s.counters[page] - |On(s.issued, s.live, page)|
  }

  /** Each counter is the number of live blocks of its page. */
  predicate Accounted(s: State) { forall page :: page in s.counters ==> Excess(s, page) == 0 }

  // ---- What holds whether the counters are exact or not ----

  /** A page has room for n blocks besides what is left of it. */
  predicate Fits(s: State, page: Addr, n: nat) {
    8 * n + 8 + (if page == s.curPage then s.curOffset else 0) <= s.pageSize
  }

  /** Pages are put to use in ascending order, and the current one is the last. */
  predicate InUse(s: State, page: Addr) {
    s.curPage != 0 && (page == s.curPage || page + s.pageSize <= s.curPage)
  }

  /** A page with a counter is in use, its counter is a word and its live blocks fit on it. */
  predicate PageOk(s: State, page: Addr)
    requires page in s.counters
  {
    InUse(s, page) && s.counters[page] < TWO64 && Fits(s, page, |On(s.issued, s.live, page)|)
  }

  predicate FreeOk(live: set<Addr>, p: Pending) {
    p.a in live && (if p.Checked? then p.found else p.seen) < TWO64
  }

  /** Frees under way are of different live blocks, and what they have read is a word. */
  predicate FreesOk(live: set<Addr>, pending: map<nat, Pending>) {
    && (forall t :: t in pending ==> FreeOk(live, pending[t]))
    && (forall t, u :: t in pending && u in pending && t != u ==> pending[t].a != pending[u].a)
  }

  predicate Books(s: State) {
    && (forall page :: page in s.counters ==> PageOk(s, page))
    && FreesOk(s.live, s.pending)
    && (s.lock.Some? ==> s.lock.value.seen < TWO64)
  }

  /** Each block is freed at most once, and not before it was issued. */
  predicate Proper(s: State, e: Event) {
    e.FreeBegin? && e.t !in s.pending && e.a != 0 ==>
      e.a in s.live && forall t :: t in s.pending ==> s.pending[t].a != e.a
  }

  /** The error a step adds to the counter of a page: what it leaves there, less what it should have left,
      one more or one less than it found. */
  function Slip(s: State, e: Event, page: Addr): int
    requires s.pageSize <= TWO64
  {
    if e.AllocEnd? && s.lock.Some? && s.lock.value.aligned <= s.curOffset && s.curPage == page then
      Add64(s.lock.value.seen, 1) - (Counter(s, page) + 1)
    else if e.FreeStep? && e.t in s.pending && MaskPage(s.pending[e.t].a, s.pageSize) == page then
      match s.pending[e.t]
      case Checked(a, found) => if found == 0 then 1 else 0
      case Loaded(a, seen) => Sub64(seen, 1) - (Counter(s, page) - 1)
    else 0
  }

  /** What a step does to the counter of a page. */
  predicate Shifts(s: State, r: State, page: Addr, slip: int) {
    if page in s.counters then page in r.counters && Excess(r, page) == Excess(s, page) + slip
    else slip == 0 && (page in r.counters ==> Excess(r, page) == 0)
  }

  // ---- Allocations ----

  /** The page that comes next has no counter yet, and no block was carved from it. */
  lemma NextPageIsNew(s: State, a: Addr)
    requires Inv(s) && Books(s)
    ensures Turn(s).curPage !in s.counters
    ensures a in s.issued ==> s.issued[a].page != Turn(s).curPage
  {
    assert Turn(s).curPage in s.counters ==> PageOk(s, Turn(s).curPage);
    if a in s.issued {
      assert BlockOk(s, a);
    }
  }

  lemma NoneOnNextPage(s: State)
    requires Inv(s) && Books(s)
    ensures On(s.issued, s.live, Turn(s).curPage) == {}
  {
    forall a | a in s.issued ensures s.issued[a].page != Turn(s).curPage {
      NextPageIsNew(s, a);
    }
  }

  lemma TurnShifts(s: State, page: Addr)
    requires Inv(s) && Books(s) && s.base != 0 && !NoPageLeft(s)
    ensures Shifts(s, Turn(s), page, 0)
  {
    NextPageIsNew(s, 0);
    NoneOnNextPage(s);
  }

  lemma TurnBooks(s: State)
    requires Inv(s) && Books(s) && s.lock.None? && s.base != 0 && !NoPageLeft(s)
    ensures Books(Turn(s))
  {
    var t := Turn(s);
    NoneOnNextPage(s);
    TurnFrame(s);
    forall page | page in t.counters ensures PageOk(t, page) {
      if page != t.curPage {
        assert PageOk(s, page);
      }
    }
  }

  lemma LockBooks(s: State, aligned: nat)
    requires Inv(s) && Books(s) && s.curPage in s.counters
    ensures Books(s.(lock := Some(Locked(aligned, Counter(s, s.curPage)))))
  {
    var t := s.(lock := Some(Locked(aligned, Counter(s, s.curPage))));
    assert PageOk(s, s.curPage);
    forall page | page in t.counters ensures PageOk(t, page) {
      assert PageOk(s, page);
    }
  }

  /** The beginning of an allocation leaves all counters as exact as they are. */
  lemma LoadShifts(s: State, aligned: nat, page: Addr)
    requires Inv(s) && Books(s) && aligned % 8 == 0
    ensures Books(AllocLoad(s, aligned)) && Shifts(s, AllocLoad(s, aligned), page, 0)
  {
    KeepLoad(s, aligned);
    if s.lock.None? && !Refuses(s, aligned) {
      if !PageFull(s, aligned) {
        LockBooks(s, aligned);
      } else if !NoPageLeft(s) {
        KeepTurn(s);
        TurnBooks(s);
        TurnShifts(s, page);
        LockBooks(Turn(s), aligned);
      }
    }
  }

  lemma StoreShifts(s: State, page: Addr)
    requires Inv(s) && Books(s)
    ensures Shifts(s, AllocStore(s), page, Slip(s, AllocEnd, page))
  {
    if s.lock.Some? {
      var aligned := s.lock.value.aligned;
      StoreIsSafe(s);
      OneMore(s.issued, s.live, page, Cut(s, aligned), Block(s.curPage, aligned));
    }
  }

  lemma StorePage(s: State, page: Addr)
    requires s.lock.Some? && s.lock.value.seen < TWO64 && 8 <= s.lock.value.aligned <= s.curOffset
    requires Cut(s, s.lock.value.aligned) !in s.issued && s.live <= s.issued.Keys
    requires page in s.counters && PageOk(s, page)
    ensures PageOk(AllocStore(s), page)
  {
    OneMore(s.issued, s.live, page, Cut(s, s.lock.value.aligned), Block(s.curPage, s.lock.value.aligned));
  }

  lemma StorePages(s: State)
    requires s.lock.Some? && s.lock.value.seen < TWO64 && 8 <= s.lock.value.aligned <= s.curOffset
    requires Cut(s, s.lock.value.aligned) !in s.issued && s.live <= s.issued.Keys && s.curPage in s.counters
    requires forall page :: page in s.counters ==> PageOk(s, page)
    ensures forall page :: page in AllocStore(s).counters ==> PageOk(AllocStore(s), page)
  {
    forall page | page in AllocStore(s).counters ensures PageOk(AllocStore(s), page) {
      StorePage(s, page);
    }
  }

  lemma AtLeast8(n: nat)
    requires 0 < n && n % 8 == 0
    ensures 8 <= n
  {
  }

  lemma CutIsNew(s: State)
    requires Inv(s) && s.lock.Some?
    ensures 8 <= s.lock.value.aligned <= s.curOffset && s.curPage in s.counters
    ensures Cut(s, s.lock.value.aligned) !in s.issued
  {
    AtLeast8(s.lock.value.aligned);
    KeepCarve(s, s.lock.value.aligned, 0);
  }

  lemma StoreBooks(s: State)
    requires Inv(s) && Books(s)
    ensures Books(AllocStore(s))
  {
    if s.lock.Some? {
      CutIsNew(s);
      StorePages(s);
      FreesMore(s.live, s.pending, Cut(s, s.lock.value.aligned));
    }
  }

  // ---- Frees ----

  lemma PendingPage(s: State, t: nat)
    requires Inv(s) && Books(s) && t in s.pending
    ensures var a := s.pending[t].a;
            && FreeOk(s.live, s.pending[t]) && a in s.issued && s.issued[a].page in s.counters
            && MaskPage(a, s.pageSize) == s.issued[a].page
  {
    assert FreeOk(s.live, s.pending[t]);
    assert BlockOk(s, s.pending[t].a);
    MaskRecoversPage(s, s.pending[t].a);
  }

  lemma FreeShifts(s: State, t: nat, page: Addr)
    requires Inv(s) && Books(s) && t in s.pending
    ensures Shifts(s, FreeNext(s, t), page, Slip(s, FreeStep(t), page))
  {
    PendingPage(s, t);
    OneLess(s.issued, s.live, page, s.pending[t].a);
  }

  lemma FreePage(s: State, t: nat, page: Addr)
    requires s.pageSize <= TWO64 && t in s.pending && FreeOk(s.live, s.pending[t]) && s.pending[t].a in s.issued
    requires page in s.counters && PageOk(s, page)
    ensures page in FreeNext(s, t).counters && PageOk(FreeNext(s, t), page)
  {
    OneLess(s.issued, s.live, page, s.pending[t].a);
  }

  lemma FreesDrop(live: set<Addr>, pending: map<nat, Pending>, t: nat)
    requires FreesOk(live, pending) && t in pending
    ensures FreesOk(live - {pending[t].a}, pending - {t})
  {
    forall u | u in pending - {t} ensures FreeOk(live - {pending[t].a}, (pending - {t})[u]) {
      assert FreeOk(live, pending[u]);
    }
  }

  lemma FreesSet(live: set<Addr>, pending: map<nat, Pending>, t: nat, p: Pending)
    requires FreesOk(live, pending) && FreeOk(live, p)
    requires forall u :: u in pending && u != t ==> pending[u].a != p.a
    ensures FreesOk(live, pending[t := p])
  {
  }

  lemma FreesMore(live: set<Addr>, pending: map<nat, Pending>, a: Addr)
    requires FreesOk(live, pending)
    ensures FreesOk(live + {a}, pending)
  {
    forall u | u in pending ensures FreeOk(live + {a}, pending[u]) {
      assert FreeOk(live, pending[u]);
    }
  }

  /** What a free reads is a word. */
  lemma ReadsWord(s: State, a: Addr)
    requires Inv(s) && Books(s) && a in s.live
    ensures CounterOf(s, a) < TWO64
  {
    assert BlockOk(s, a);
    MaskRecoversPage(s, a);
    assert PageOk(s, s.issued[a].page);
  }

  lemma FreeBooks(s: State, t: nat)
    requires Inv(s) && Books(s) && t in s.pending
    ensures Books(FreeNext(s, t))
  {
    var r, a := FreeNext(s, t), s.pending[t].a;
    PendingPage(s, t);
    forall page | page in r.counters ensures PageOk(r, page) {
      FreePage(s, t, page);
    }
    FreesDrop(s.live, s.pending, t);
    ReadsWord(s, a);
    FreesSet(s.live, s.pending, t, Loaded(a, CounterOf(s, a)));
  }

  lemma BeginBooks(s: State, t: nat, a: Addr)
    requires Inv(s) && Books(s) && Proper(s, FreeBegin(t, a))
    ensures Books(Apply(s, FreeBegin(t, a)))
  {
    var r := Apply(s, FreeBegin(t, a));
    if r != s {
      ReadsWord(s, a);
      FreesSet(s.live, s.pending, t, Checked(a, CounterOf(s, a)));
      forall page | page in r.counters ensures PageOk(r, page) {
        assert PageOk(s, page);
      }
    }
  }

  /** Every step of a proper run shifts each counter by its slip and nothing else. */
  lemma StepShifts(s: State, e: Event, page: Addr)
    requires Inv(s) && Books(s) && Proper(s, e)
    ensures Inv(Apply(s, e)) && Books(Apply(s, e)) && Shifts(s, Apply(s, e), page, Slip(s, e, page))
  {
    KeepInv(s, e);
    match e
    case AllocBegin(n) =>
      if n < TWO32 {
        RoundUp8Is(n);
        LoadShifts(s, RoundUp8(n), page);
      }
    case AllocEnd =>
      StoreShifts(s, page);
      StoreBooks(s);
    case FreeBegin(t, a) => BeginBooks(s, t, a);
    case FreeStep(t) =>
      if t in s.pending {
        FreeShifts(s, t, page);
        FreeBooks(s, t);
      }
  }

  // ---- Runs ----

  predicate ProperRun(s: State, es: seq<Event>)
    requires 8 <= s.pageSize <= TWO64
  {
    es == [] || (ProperRun(s, es[..|es| - 1]) && Proper(Run(s, es[..|es| - 1]), es[|es| - 1]))
  }

  /** The slips of a run on a page, added up. */
  function Slips(s: State, es: seq<Event>, page: Addr): int
    requires 8 <= s.pageSize <= TWO64
  {
    if es == [] then 0 else
      var before := es[..|es| - 1];
      Slips(s, before, page) + Slip(Run(s, before), es[|es| - 1], page)
  }

  lemma {:induction false} RunSlips(s: State, es: seq<Event>, page: Addr)
    requires Inv(s) && Books(s) && Accounted(s) && ProperRun(s, es)
    ensures var r := Run(s, es);
            && Inv(r) && Books(r)
            && if page in r.counters then Excess(r, page) == Slips(s, es, page) else Slips(s, es, page) == 0
  {
    if es != [] {
      RunSlips(s, es[..|es| - 1], page);
      StepShifts(Run(s, es[..|es| - 1]), es[|es| - 1], page);
    }
  }

  lemma ConfiguredBooks(start: Addr, size: nat, pageSize: nat)
    requires Range(start, size) && GoodPage(pageSize)
    ensures var s := Configured(start, size, pageSize); Inv(s) && Books(s) && Accounted(s) && Quiet(s)
  {
    ConfiguredInRange(start, size, pageSize);
  }

  /** However the accesses of allocations and frees interleave, as long as each block is freed at most once:
      the counters are exact if and only if on each page the errors of the stores add up to zero. */
  lemma AccountedIff(start: Addr, size: nat, pageSize: nat, es: seq<Event>)
    requires Range(start, size) && GoodPage(pageSize) && ProperRun(Configured(start, size, pageSize), es)
    ensures var s0 := Configured(start, size, pageSize);
            Accounted(Run(s0, es)) <==> forall page :: page in Run(s0, es).counters ==> Slips(s0, es, page) == 0
  {
    var s0 := Configured(start, size, pageSize);
    ConfiguredBooks(start, size, pageSize);
    forall page | page in Run(s0, es).counters ensures Excess(Run(s0, es), page) == Slips(s0, es, page) {
      RunSlips(s0, es, page);
    }
  }

  /** A store finds the counter as it was read for it. */
  predicate Fresh(s: State, e: Event)
    requires s.pageSize <= TWO64
  {
    && (e.AllocEnd? && s.lock.Some? ==> s.lock.value.seen == Counter(s, s.curPage))
    && (e.FreeStep? && e.t in s.pending && s.pending[e.t].Loaded? ==>
          s.pending[e.t].seen == CounterOf(s, s.pending[e.t].a))
  }

  /** Every store of a run does, that of an allocation and that of a free. */
  predicate Undisturbed(s: State, es: seq<Event>)
    requires 8 <= s.pageSize <= TWO64
  {
    es == [] || (Undisturbed(s, es[..|es| - 1]) && Fresh(Run(s, es[..|es| - 1]), es[|es| - 1]))
  }

  /** No free has found a counter of zero. */
  predicate Founded(pending: map<nat, Pending>) {
    forall t :: t in pending && pending[t].Checked? ==> 0 < pending[t].found
  }

  /** While the accounts are exact, a free of a live block finds its page's counter above zero. */
  lemma SeesLive(s: State, a: Addr)
    requires Inv(s) && Accounted(s) && a in s.live
    ensures 0 < CounterOf(s, a) && s.issued[a].page in s.counters && MaskPage(a, s.pageSize) == s.issued[a].page
  {
    assert BlockOk(s, a);
    MaskRecoversPage(s, a);
    var page := s.issued[a].page;
    assert Excess(s, page) == 0 && a in On(s.issued, s.live, page);
  }

  predicate FoundBy(s: State, e: Event) {
    e.FreeStep? && e.t in s.pending && s.pending[e.t].Checked? ==> 0 < s.pending[e.t].found
  }

  /** A store on exact accounts adds no error exactly when it is fresh. */
  lemma FreshIffNoSlip(s: State, e: Event, page: Addr)
    requires Inv(s) && Books(s) && Accounted(s) && FoundBy(s, e) && page in s.counters
    ensures Fresh(s, e) ==> Slip(s, e, page) == 0
    ensures e.AllocEnd? && s.lock.Some? && s.curPage == page && Slip(s, e, page) == 0 ==> Fresh(s, e)
    ensures e.FreeStep? && e.t in s.pending && MaskPage(s.pending[e.t].a, s.pageSize) == page &&
            Slip(s, e, page) == 0 ==>
              Fresh(s, e)
  {
    assert PageOk(s, page) && Excess(s, page) == 0;
    if e.FreeStep? && e.t in s.pending {
      PendingPage(s, e.t);
      SeesLive(s, s.pending[e.t].a);
    }
  }

  lemma KeepFounded(s: State, e: Event)
    requires Inv(s) && Accounted(s) && Founded(s.pending) && Proper(s, e)
    ensures Founded(Apply(s, e).pending)
  {
    if e.FreeBegin? && Apply(s, e) != s {
      SeesLive(s, e.a);
    } else if !e.FreeBegin? {
      FoundedShrinks(s, e);
    }
  }

  lemma FoundedShrinks(s: State, e: Event)
    requires 8 <= s.pageSize <= TWO64 && !e.FreeBegin? && Founded(s.pending)
    ensures Founded(Apply(s, e).pending)
  {
  }

  /** Every counter is exact, and was after every step before. */
  predicate Throughout(s: State, es: seq<Event>)
    requires 8 <= s.pageSize <= TWO64
  {
    Accounted(Run(s, es)) && (es == [] || Throughout(s, es[..|es| - 1]))
  }

  /** Every counter is exact after every step of a run if and only if every store finds the counter as it was
      read for it. */
  lemma {:induction false} RunAccounts(s: State, es: seq<Event>)
    requires Inv(s) && Books(s) && Accounted(s) && Founded(s.pending) && ProperRun(s, es)
    ensures Throughout(s, es) <==> Undisturbed(s, es)
    ensures Throughout(s, es) ==> Inv(Run(s, es)) && Books(Run(s, es)) && Founded(Run(s, es).pending)
  {
    if es != [] {
      RunAccounts(s, es[..|es| - 1]);
      if Throughout(s, es[..|es| - 1]) {
        StepAccounts(Run(s, es[..|es| - 1]), es[|es| - 1]);
      }
    }
  }

  lemma StepAccounts(s: State, e: Event)
    requires Inv(s) && Books(s) && Accounted(s) && Founded(s.pending) && Proper(s, e)
    ensures Accounted(Apply(s, e)) <==> Fresh(s, e)
    ensures Inv(Apply(s, e)) && Books(Apply(s, e)) && Founded(Apply(s, e).pending)
  {
    StepShifts(s, e, 0);
    KeepFounded(s, e);
    if Fresh(s, e) {
      FreshAccounts(s, e);
    } else {
      StoreExact(s, e);
    }
  }

  lemma FreshAccounts(s: State, e: Event)
    requires Inv(s) && Books(s) && Accounted(s) && FoundBy(s, e) && Proper(s, e) && Fresh(s, e)
    ensures Inv(Apply(s, e)) && Books(Apply(s, e)) && Accounted(Apply(s, e))
  {
    StepShifts(s, e, 0);
    forall page | page in Apply(s, e).counters ensures Excess(Apply(s, e), page) == 0 {
      StepShifts(s, e, page);
      if page in s.counters {
        FreshIffNoSlip(s, e, page);
      }
    }
  }

  /** No allocation and no free is under way. */
  predicate Quiet(s: State) { s.pending == map[] && s.lock.None? }

  /** Nothing comes between the accesses of an allocation or of a free, as if every free took the lock. */
  predicate Serial(s: State, es: seq<Event>)
    requires 8 <= s.pageSize <= TWO64
  {
    es == [] ||
    (Serial(s, es[..|es| - 1]) &&
     (Quiet(Run(s, es[..|es| - 1])) || es[|es| - 1].AllocEnd? || es[|es| - 1].FreeStep?))
  }

  /** At most one operation is under way, and what it has read is still so. */
  predicate OneFresh(s: State)
    requires s.pageSize <= TWO64
  {
    && (s.lock.Some? ==> s.pending == map[] && s.lock.value.seen == Counter(s, s.curPage))
    && (forall t :: t in s.pending && s.pending[t].Loaded? ==> s.pending[t].seen == CounterOf(s, s.pending[t].a))
    && (forall t, u :: t in s.pending && u in s.pending ==> t == u)
  }

  lemma {:induction false} SerialIsUndisturbed(s: State, es: seq<Event>)
    requires 8 <= s.pageSize <= TWO64 && Quiet(s) && Serial(s, es)
    ensures Undisturbed(s, es) && OneFresh(Run(s, es))
  {
    if es != [] {
      SerialIsUndisturbed(s, es[..|es| - 1]);
      KeepOneFresh(Run(s, es[..|es| - 1]), es[|es| - 1]);
    }
  }

  lemma KeepOneFresh(s: State, e: Event)
    requires 8 <= s.pageSize <= TWO64 && OneFresh(s) && (Quiet(s) || e.AllocEnd? || e.FreeStep?)
    ensures OneFresh(Apply(s, e)) && Fresh(s, e)
  {
  }

  // ---- Accesses that race ----

  /** A store on exact accounts leaves them exact if and only if it is fresh. */
  lemma StoreExact(s: State, e: Event)
    requires Inv(s) && Books(s) && Accounted(s)
    requires (e.AllocEnd? && s.lock.Some?) || (e.FreeStep? && e.t in s.pending && s.pending[e.t].Loaded?)
    ensures Accounted(Apply(s, e)) <==> Fresh(s, e)
  {
    if Fresh(s, e) {
      FreshAccounts(s, e);
    } else {
      if e.FreeStep? {
        PendingPage(s, e.t);
      }
      var page := if e.AllocEnd? then s.curPage else s.issued[s.pending[e.t].a].page;
      FreshIffNoSlip(s, e, page);
      StepShifts(s, e, page);
      assert Excess(s, page) == 0;
    }
  }

  lemma {:induction false} StillLoaded(s: State, es: seq<Event>, t: nat)
    requires 8 <= s.pageSize <= TWO64 && t in s.pending && forall i :: 0 <= i < |es| ==> es[i] != FreeStep(t)
    ensures t in Run(s, es).pending && Run(s, es).pending[t] == s.pending[t]
  {
    if es != [] {
      StillLoaded(s, es[..|es| - 1], t);
      OthersKeep(Run(s, es[..|es| - 1]), es[|es| - 1], t);
    }
  }

  lemma OthersKeep(s: State, e: Event, t: nat)
    requires 8 <= s.pageSize <= TWO64 && t in s.pending && e != FreeStep(t)
    ensures t in Apply(s, e).pending && Apply(s, e).pending[t] == s.pending[t]
  {
  }

  /** The lock keeps the page as it is until its holder is done. */
  lemma {:induction false} StillLocked(s: State, es: seq<Event>)
    requires 8 <= s.pageSize <= TWO64 && s.lock.Some? && forall i :: 0 <= i < |es| ==> es[i] != AllocEnd
    ensures var r := Run(s, es);
            r == s.(counters := r.counters, live := r.live, pending := r.pending)
  {
    if es != [] {
      StillLocked(s, es[..|es| - 1]);
      LockKeeps(Run(s, es[..|es| - 1]), es[|es| - 1]);
    }
  }

  lemma LockKeeps(s: State, e: Event)
    requires 8 <= s.pageSize <= TWO64 && s.lock.Some? && e != AllocEnd
    ensures var r := Apply(s, e);
            r == s.(counters := r.counters, live := r.live, pending := r.pending)
  {
  }

  /** A free reads the counter for its decrement, anything happens, and it stores. If the accounts were exact
      just before the store, they are exact after it if and only if the counter of the page is the same then
      as when it was read: nothing changed it, or the changes cancel. */
  lemma FreeIsExact(s: State, t: nat, es: seq<Event>)
    requires Inv(s) && Books(s) && Accounted(s)
    requires t in s.pending && s.pending[t].Checked? && 0 < s.pending[t].found
    requires ProperRun(Apply(s, FreeStep(t)), es) && forall i :: 0 <= i < |es| ==> es[i] != FreeStep(t)
    requires Accounted(Run(Apply(s, FreeStep(t)), es))
    ensures var a, r := s.pending[t].a, Run(Apply(s, FreeStep(t)), es);
            Accounted(Apply(r, FreeStep(t))) <==> CounterOf(r, a) == CounterOf(s, a)
  {
    var s1 := Apply(s, FreeStep(t));
    FreshAccounts(s, FreeStep(t));
    StillLoaded(s1, es, t);
    RunSlips(s1, es, 0);
    StoreExact(Run(s1, es), FreeStep(t));
  }

  /** The same for an allocation: the lock keeps other allocations out, but not frees of the page. */
  lemma AllocIsExact(s: State, n: nat, es: seq<Event>)
    requires Inv(s) && Books(s) && Accounted(s) && s.lock.None? && Apply(s, AllocBegin(n)).lock.Some?
    requires ProperRun(Apply(s, AllocBegin(n)), es) && forall i :: 0 <= i < |es| ==> es[i] != AllocEnd
    requires Accounted(Run(Apply(s, AllocBegin(n)), es))
    ensures var s1 := Apply(s, AllocBegin(n));
            var r := Run(s1, es);
            Accounted(Apply(r, AllocEnd)) <==> Counter(r, s1.curPage) == Counter(s1, s1.curPage)
  {
    var s1 := Apply(s, AllocBegin(n));
    FreshAccounts(s, AllocBegin(n));
    RoundUp8Is(n);
    KeepLoad(s, RoundUp8(n));
    StillLocked(s1, es);
    RunSlips(s1, es, 0);
    StoreExact(Run(s1, es), AllocEnd);
  }

  // ---- The three races ----

  lemma Begun(s: State, t: nat, a: Addr)
    requires Inv(s) && Books(s) && Accounted(s) && t !in s.pending && a in s.live && Proper(s, FreeBegin(t, a))
    ensures var s1 := Apply(s, FreeBegin(t, a));
            && s1 == s.(pending := s.pending[t := Checked(a, CounterOf(s, a))]) && 0 < CounterOf(s, a)
            && Inv(s1) && Books(s1) && Accounted(s1)
  {
    assert BlockOk(s, a);
    MaskRecoversPage(s, a);
    SeesLive(s, a);
    FreshAccounts(s, FreeBegin(t, a));
  }

  lemma ReadAgain(s: State, t: nat)
    requires Inv(s) && Books(s) && Accounted(s) && t in s.pending && s.pending[t].Checked? && 0 < s.pending[t].found
    ensures var s1 := Apply(s, FreeStep(t));
            && s1 == s.(pending := s.pending[t := Loaded(s.pending[t].a, CounterOf(s, s.pending[t].a))])
            && Inv(s1) && Books(s1) && Accounted(s1)
  {
    FreshAccounts(s, FreeStep(t));
  }

  /** Block a is no longer live, its page's counter is one lower, and nothing else has changed. */
  predicate FreesOne(s: State, r: State, a: Addr) {
    && a in s.issued
    && var page := s.issued[a].page;
       && page in s.counters && page in r.counters && s.counters[page] == r.counters[page] + 1
       && r == s.(live := s.live - {a}, counters := s.counters[page := r.counters[page]])
  }

  /** A free that nothing interrupts is three accesses, and keeps exact accounts exact. */
  lemma WholeFree(s: State, t: nat, a: Addr)
    requires Inv(s) && Books(s) && Accounted(s) && t !in s.pending && a in s.live && Proper(s, FreeBegin(t, a))
    ensures var r := Apply(Apply(Apply(s, FreeBegin(t, a)), FreeStep(t)), FreeStep(t));
            r == Free(s, a) && Inv(r) && Books(r) && Accounted(r) && FreesOne(s, r, a)
  {
    var s1 := Apply(s, FreeBegin(t, a));
    var s2 := Apply(s1, FreeStep(t));
    Begun(s, t, a);
    ReadAgain(s1, t);
    StoreExact(s2, FreeStep(t));
    StepShifts(s2, FreeStep(t), 0);
    FreeIsThreeSteps(s, t, a);
    SeesLive(s, a);
  }

  lemma FreeIsThreeSteps(s: State, t: nat, a: Addr)
    requires 8 <= s.pageSize <= TWO64 && t !in s.pending && a < TWO64
    ensures var r := Apply(Apply(s, FreeBegin(t, a)), FreeStep(t));
            (if CounterOf(s, a) == 0 then r else Apply(r, FreeStep(t))) == Free(s, a)
  {
    if a != 0 {
      assert s.pending[t := Checked(a, CounterOf(s, a))] - {t} == s.pending;
      assert s.pending[t := Checked(a, CounterOf(s, a))][t := Loaded(a, CounterOf(s, a))] - {t} == s.pending;
    }
  }

  lemma LockTaken(s: State, n: nat)
    requires Inv(s) && Books(s) && Accounted(s) && s.lock.None? && n < TWO32
    requires !Refuses(s, RoundUp8(n)) && !PageFull(s, RoundUp8(n))
    ensures var s1 := Apply(s, AllocBegin(n));
            && s1 == s.(lock := Some(Locked(RoundUp8(n), Counter(s, s.curPage)))) && s.curPage in s.counters
            && Counter(s, s.curPage) + 1 < TWO64 && Inv(s1) && Books(s1) && Accounted(s1)
  {
    FreshAccounts(s, AllocBegin(n));
    assert PageOk(s, s.curPage) && Excess(s, s.curPage) == 0;
  }

  /** A whole free of a block of the page, between the load and the store of an allocation: the free finds the
      counter as it read it, yet the allocation's store leaves it one too high. */
  lemma FreeInsideAlloc(s: State, n: nat, t: nat, b: Addr)
    requires Inv(s) && Books(s) && Accounted(s) && s.lock.None? && n < TWO32
    requires !Refuses(s, RoundUp8(n)) && !PageFull(s, RoundUp8(n))
    requires t !in s.pending && b in s.live && s.issued[b].page == s.curPage && Proper(s, FreeBegin(t, b))
    ensures var r := Run(s, [AllocBegin(n)] + [FreeBegin(t, b)] + [FreeStep(t)] + [FreeStep(t)] + [AllocEnd]);
            s.curPage in r.counters && Excess(r, s.curPage) == 1 && !Accounted(r)
  {
    FreeUnderLock(s, n, t, b);
    StaleAlloc(Free(Apply(s, AllocBegin(n)), b));
    FiveSteps(s, AllocBegin(n), FreeBegin(t, b), FreeStep(t), FreeStep(t), AllocEnd);
  }

  lemma FreeUnderLock(s: State, n: nat, t: nat, b: Addr)
    requires Inv(s) && Books(s) && Accounted(s) && s.lock.None? && n < TWO32
    requires !Refuses(s, RoundUp8(n)) && !PageFull(s, RoundUp8(n))
    requires t !in s.pending && b in s.live && s.issued[b].page == s.curPage && Proper(s, FreeBegin(t, b))
    ensures var s1 := Apply(s, AllocBegin(n));
            var r := Free(s1, b);
            && Apply(Apply(Apply(s1, FreeBegin(t, b)), FreeStep(t)), FreeStep(t)) == r
            && Inv(r) && Books(r) && Accounted(r) && r.lock.Some? && r.curPage == s.curPage
            && r.lock.value.seen == Counter(r, s.curPage) + 1 && r.lock.value.seen + 1 < TWO64
  {
    LockTaken(s, n);
    WholeFree(Apply(s, AllocBegin(n)), t, b);
  }

  /** The store of an allocation that finds the counter one lower than it read it. */
  lemma StaleAlloc(s: State)
    requires Inv(s) && Books(s) && Accounted(s) && s.lock.Some?
    requires s.lock.value.seen == Counter(s, s.curPage) + 1 && s.lock.value.seen + 1 < TWO64
    ensures var r := Apply(s, AllocEnd); s.curPage in r.counters && Excess(r, s.curPage) == 1 && !Accounted(r)
  {
    StepShifts(s, AllocEnd, s.curPage);
    assert Excess(s, s.curPage) == 0;
  }

  /** The store of a free that finds the counter other than it read it. */
  lemma StaleFree(s: State, t: nat, d: int)
    requires Inv(s) && Books(s) && Accounted(s) && t in s.pending && s.pending[t].Loaded? && d != 0
    requires 0 < s.pending[t].seen == CounterOf(s, s.pending[t].a) + d
    ensures var r, a := Apply(s, FreeStep(t)), s.pending[t].a;
            && a in s.issued && s.issued[a].page in r.counters && Excess(r, s.issued[a].page) == d && !Accounted(r)
  {
    PendingPage(s, t);
    var page := s.issued[s.pending[t].a].page;
    StepShifts(s, FreeStep(t), page);
    assert Excess(s, page) == 0;
  }

  /** A whole allocation on the page, between the load and the store of a free: one too low. */
  lemma AllocInsideFree(s: State, n: nat, t: nat, b: Addr)
    requires Inv(s) && Books(s) && Accounted(s) && s.lock.None? && n < TWO32
    requires !Refuses(s, RoundUp8(n)) && !PageFull(s, RoundUp8(n))
    requires t !in s.pending && b in s.live && s.issued[b].page == s.curPage && Proper(s, FreeBegin(t, b))
    ensures var r := Run(s, [FreeBegin(t, b)] + [FreeStep(t)] + [AllocBegin(n)] + [AllocEnd] + [FreeStep(t)]);
            s.curPage in r.counters && Excess(r, s.curPage) == -1 && !Accounted(r)
  {
    var s1 := Apply(s, FreeBegin(t, b));
    var s2 := Apply(s1, FreeStep(t));
    var s3 := Apply(s2, AllocBegin(n));
    var s4 := Apply(s3, AllocEnd);
    Begun(s, t, b);
    ReadAgain(s1, t);
    AllocUnder(s2, n, t);
    StaleFree(s4, t, -1);
    FiveSteps(s, FreeBegin(t, b), FreeStep(t), AllocBegin(n), AllocEnd, FreeStep(t));
  }

  /** A whole allocation on the page of a block whose free has read the counter. */
  lemma AllocUnder(s: State, n: nat, t: nat)
    requires Inv(s) && Books(s) && Accounted(s) && s.lock.None? && n < TWO32
    requires !Refuses(s, RoundUp8(n)) && !PageFull(s, RoundUp8(n))
    requires t in s.pending && s.pending[t].Loaded? && s.pending[t].a in s.issued
    requires s.issued[s.pending[t].a].page == s.curPage && s.pending[t].seen == CounterOf(s, s.pending[t].a)
    ensures var r := Apply(Apply(s, AllocBegin(n)), AllocEnd);
            && Inv(r) && Books(r) && Accounted(r) && t in r.pending && r.pending[t] == s.pending[t]
            && 0 < r.pending[t].seen == CounterOf(r, r.pending[t].a) - 1
            && r.pending[t].a in r.issued && r.issued[r.pending[t].a].page == s.curPage
  {
    var s1 := Apply(s, AllocBegin(n));
    LockTaken(s, n);
    StoreExact(s1, AllocEnd);
    StepShifts(s1, AllocEnd, 0);
    StoreIsSafe(s1);
    PendingPage(s, t);
    SeesLive(s, s.pending[t].a);
  }

  /** Two frees of different blocks of one page that both read before either stores: one too high. */
  lemma RacingFreesLoseOne(s: State, t: nat, u: nat, a: Addr, b: Addr)
    requires Inv(s) && Books(s) && Accounted(s) && t != u && t !in s.pending && u !in s.pending
    requires a in s.live && b in s.live && a != b && s.issued[a].page == s.issued[b].page
    requires Proper(s, FreeBegin(t, a)) && Proper(s, FreeBegin(u, b))
    ensures var loads := [FreeBegin(t, a)] + [FreeStep(t)] + [FreeBegin(u, b)] + [FreeStep(u)];
            var r := Run(s, loads + [FreeStep(t)] + [FreeStep(u)]);
            s.issued[a].page in r.counters && Excess(r, s.issued[a].page) == 1 && !Accounted(r)
  {
    BothRead(s, t, u, a, b);
    TwoReads(s, t, a);
    TwoReads(Reads(s, t, a), u, b);
    SeesLive(s, a);
    SeesLive(s, b);
    var s4 := Reads(Reads(s, t, a), u, b);
    BothStore(s4, t, u);
    FiveSteps(s, FreeBegin(t, a), FreeStep(t), FreeBegin(u, b), FreeStep(u), FreeStep(t));
    RunThen(s, [FreeBegin(t, a)] + [FreeStep(t)] + [FreeBegin(u, b)] + [FreeStep(u)] + [FreeStep(t)], FreeStep(u),
      Apply(s4, FreeStep(t)));
  }

  /** What the two reads of a free leave behind. */
  function Reads(s: State, t: nat, a: Addr): State
    requires s.pageSize <= TWO64
  {
    s.(pending := s.pending[t := Loaded(a, CounterOf(s, a))])
  }

  lemma TwoReads(s: State, t: nat, a: Addr)
    requires 8 <= s.pageSize <= TWO64 && t !in s.pending && 0 < a < TWO64 && 0 < CounterOf(s, a)
    ensures Apply(Apply(s, FreeBegin(t, a)), FreeStep(t)) == Reads(s, t, a)
  {
    var c := CounterOf(s, a);
    assert s.pending[t := Checked(a, c)][t := Loaded(a, c)] == s.pending[t := Loaded(a, c)];
  }

  lemma KeepReads(s: State, t: nat, a: Addr)
    requires Inv(s) && Books(s) && Accounted(s) && t !in s.pending && a in s.live && Proper(s, FreeBegin(t, a))
    ensures Inv(Reads(s, t, a)) && Books(Reads(s, t, a)) && Accounted(Reads(s, t, a))
    ensures 0 < a < TWO64 && 0 < CounterOf(s, a)
  {
    Begun(s, t, a);
    ReadAgain(Apply(s, FreeBegin(t, a)), t);
    BlockAddress(s, a);
    TwoReads(s, t, a);
  }

  lemma BlockAddress(s: State, a: Addr)
    requires Inv(s) && a in s.issued
    ensures 0 < a < TWO64
  {
    assert BlockOk(s, a);
    MaskRecoversPage(s, a);
  }

  lemma BothRead(s: State, t: nat, u: nat, a: Addr, b: Addr)
    requires Inv(s) && Books(s) && Accounted(s) && t != u && t !in s.pending && u !in s.pending
    requires a in s.live && b in s.live && a != b
    requires Proper(s, FreeBegin(t, a)) && Proper(s, FreeBegin(u, b))
    ensures var s2 := Reads(s, t, a);
            && Inv(s2) && Books(s2) && Accounted(s2) && u !in s2.pending && Proper(s2, FreeBegin(u, b))
            && Inv(Reads(s2, u, b)) && Books(Reads(s2, u, b)) && Accounted(Reads(s2, u, b))
            && 0 < b < TWO64 && 0 < CounterOf(s2, b) && 0 < a < TWO64 && 0 < CounterOf(s, a)
  {
    KeepReads(s, t, a);
    KeepReads(Reads(s, t, a), u, b);
  }

  lemma BothStore(s: State, t: nat, u: nat)
    requires Inv(s) && Books(s) && Accounted(s) && t != u && t in s.pending && u in s.pending
    requires s.pending[t].Loaded? && s.pending[u].Loaded?
    requires var a, b := s.pending[t].a, s.pending[u].a;
             && a in s.issued && b in s.issued && s.issued[a].page == s.issued[b].page
             && s.pending[t].seen == s.pending[u].seen == CounterOf(s, a)
    ensures var page, r := s.issued[s.pending[t].a].page, Apply(Apply(s, FreeStep(t)), FreeStep(u));
            page in r.counters && Excess(r, page) == 1 && !Accounted(r)
  {
    var page, s1 := s.issued[s.pending[t].a].page, Apply(s, FreeStep(t));
    PendingPage(s, t);
    PendingPage(s, u);
    SeesLive(s, s.pending[t].a);
    StoreExact(s, FreeStep(t));
    StepShifts(s, FreeStep(t), page);
    OthersKeep(s, FreeStep(t), u);
    SeesLive(s1, s1.pending[u].a);
    StepShifts(s1, FreeStep(u), page);
    assert Excess(s1, page) == 0;
  }

  // ---- ... happen ----

  /** Nothing is wrong and nothing is under way. */
  predicate Fine(s: State) { Inv(s) && Books(s) && Accounted(s) && Quiet(s) }

  /** The page an allocation of eight bytes cuts its block from. */
  function Supply(s: State): State
    requires 8 <= s.pageSize
  {
    if PageFull(s, 8) then Turn(s) else s
  }

  predicate Supplied(s: State) { !Refuses(s, 8) && !(PageFull(s, 8) && NoPageLeft(s)) }

  /** The state it leaves behind. */
  function Eight(s: State): State
    requires 16 < s.pageSize && !(!PageFull(s, 8) && s.curOffset < 8)
  {
    var t := Supply(s);
    Carve(t, 8, Counter(t, t.curPage))
  }

  lemma EightBytes(s: State)
    requires 16 < s.pageSize <= TWO64 && s.lock.None? && Supplied(s)
    ensures Apply(Apply(s, AllocBegin(8)), AllocEnd) == Eight(s)
  {
    var t := Supply(s);
    assert t.lock.None?;
    EightLoad(s);
    EightStore(t, Counter(t, t.curPage));
  }

  lemma EightLoad(s: State)
    requires 16 < s.pageSize <= TWO64 && s.lock.None? && Supplied(s)
    ensures Apply(s, AllocBegin(8)) == Supply(s).(lock := Some(Locked(8, Counter(Supply(s), Supply(s).curPage))))
  {
    RoundUp8Is(8);
    assert RoundUp8(8) == 8;
    hide RoundUp8;
  }

  lemma EightStore(t: State, seen: nat)
    requires 8 <= t.pageSize <= TWO64 && t.lock.None? && 8 <= t.curOffset
    ensures Apply(t.(lock := Some(Locked(8, seen))), AllocEnd) == Carve(t, 8, seen)
  {
  }

  lemma StillFine(s: State, n: nat)
    requires Fine(s)
    ensures Fine(Apply(Apply(s, AllocBegin(n)), AllocEnd))
  {
    var s1 := Apply(s, AllocBegin(n));
    BeginIsFresh(s, n);
    KeepQuiet(s, n);
    hide Inv, Books, Accounted, Apply;
    FreshAccounts(s, AllocBegin(n));
    FreshAccounts(s1, AllocEnd);
  }

  lemma BeginIsFresh(s: State, n: nat)
    requires 8 <= s.pageSize <= TWO64 && Quiet(s)
    ensures FoundBy(s, AllocBegin(n)) && Proper(s, AllocBegin(n)) && Fresh(s, AllocBegin(n))
    ensures var s1 := Apply(s, AllocBegin(n)); FoundBy(s1, AllocEnd) && Proper(s1, AllocEnd) && Fresh(s1, AllocEnd)
  {
  }

  lemma KeepQuiet(s: State, n: nat)
    requires Inv(s) && Quiet(s)
    ensures Quiet(Apply(Apply(s, AllocBegin(n)), AllocEnd))
  {
    KeepBegin(s, n);
    StoreIsSafe(Apply(s, AllocBegin(n)));
    LoadKeepsPending(s, n);
  }

  lemma LoadKeepsPending(s: State, n: nat)
    requires 8 <= s.pageSize <= TWO64
    ensures Apply(Apply(s, AllocBegin(n)), AllocEnd).pending == s.pending
  {
  }

  lemma TwoEights(s: State)
    requires s.curPage == s.nextPageOff == 0 && s.base != 0 && 32 <= s.pageSize <= s.size && s.lock.None?
    ensures Supplied(s) && Supplied(Eight(s)) && Eight(s).lock.None? && Eight(s).pageSize == s.pageSize
    ensures HasTwo(Eight(Eight(s)), s.base, s.base + s.pageSize - 16, s.base + s.pageSize - 24)
  {
  }

  lemma FourSteps(s: State, e1: Event, e2: Event, e3: Event, e4: Event)
    requires 8 <= s.pageSize <= TWO64
    ensures Run(s, [e1] + [e2] + [e3] + [e4]) == Apply(Apply(Apply(Apply(s, e1), e2), e3), e4)
  {
    ThreeSteps(s, e1, e2, e3);
    RunThen(s, [e1] + [e2] + [e3], e4, Apply(Apply(Apply(s, e1), e2), e3));
  }

  /** The first two allocations of an arena. */
  lemma TwoBlocks(s: State)
    requires Fine(s) && s.curPage == s.nextPageOff == 0 && s.base != 0 && 32 <= s.pageSize <= s.size
    ensures var r := Run(s, [AllocBegin(8)] + [AllocEnd] + [AllocBegin(8)] + [AllocEnd]);
            Fine(r) && HasTwo(r, s.base, s.base + s.pageSize - 16, s.base + s.pageSize - 24)
  {
    assert s.pageSize <= TWO64 && s.lock.None?;
    hide Inv, Books, Accounted, Fine, HasTwo, Supplied, Eight, Apply, Run;
    FourSteps(s, AllocBegin(8), AllocEnd, AllocBegin(8), AllocEnd);
    StillFine(s, 8);
    StillFine(Apply(Apply(s, AllocBegin(8)), AllocEnd), 8);
    TwoEights(s);
    EightBytes(s);
    EightBytes(Eight(s));
  }

  /** Blocks a and b are live blocks of the current page, which has room for another. */
  predicate HasTwo(s: State, page: Addr, a: Addr, b: Addr) {
    && s.curPage == page && !Refuses(s, 8) && !PageFull(s, 8)
    && a in s.live && a in s.issued && s.issued[a].page == page
    && b in s.live && b in s.issued && s.issued[b].page == page
  }

  lemma ConfiguredBlank(start: Addr, size: nat, pageSize: nat)
    requires Range(start, size) && GoodPage(pageSize)
    ensures var s := Configured(start, size, pageSize); s.curPage == s.nextPageOff == 0 && s.pageSize == pageSize
  {
  }

  /** Each race, between frees of a and b by threads 0 and 1 and an allocation of eight bytes. */
  predicate Races(s: State, a: Addr, b: Addr)
    requires 8 <= s.pageSize <= TWO64
  {
    var loads := [FreeBegin(0, a)] + [FreeStep(0)] + [FreeBegin(1, b)] + [FreeStep(1)];
    && !Accounted(Run(s, [AllocBegin(8)] + [FreeBegin(0, b)] + [FreeStep(0)] + [FreeStep(0)] + [AllocEnd]))
    && !Accounted(Run(s, [FreeBegin(0, b)] + [FreeStep(0)] + [AllocBegin(8)] + [AllocEnd] + [FreeStep(0)]))
    && !Accounted(Run(s, loads + [FreeStep(0)] + [FreeStep(1)]))
  }

  lemma RacesFrom(s: State, page: Addr, a: Addr, b: Addr)
    requires Fine(s) && HasTwo(s, page, a, b) && a != b
    ensures Races(s, a, b)
  {
    assert s.pageSize <= TWO64 && RoundUp8(8) == 8 by { RoundUp8Is(8); }
    hide Inv, Books, Accounted, Apply, Run, RoundUp8;
    FreeInsideAlloc(s, 8, 0, b);
    AllocInsideFree(s, 8, 0, b);
    RacingFreesLoseOne(s, 0, 1, a, b);
  }

  /** In every arena that has a page of 32 bytes or more, exact accounts go wrong by each of the three races
      after two allocations. */
  lemma RacesHappen(start: Addr, size: nat, pageSize: nat)
    requires Range(start, size) && GoodPage(pageSize)
    requires var s := Configured(start, size, pageSize); s.base != 0 && 32 <= pageSize <= s.size
    ensures var s := Configured(start, size, pageSize);
            var two := Run(s, [AllocBegin(8)] + [AllocEnd] + [AllocBegin(8)] + [AllocEnd]);
            Accounted(two) && Races(two, s.base + pageSize - 16, s.base + pageSize - 24)
  {
    hide Inv, Books, Configured, Apply, Run, Races, HasTwo;
    var s := Configured(start, size, pageSize);
    ConfiguredBooks(start, size, pageSize);
    ConfiguredBlank(start, size, pageSize);
    TwoBlocks(s);
    var two := Run(s, [AllocBegin(8)] + [AllocEnd] + [AllocBegin(8)] + [AllocEnd]);
    RacesFrom(two, s.base, s.base + pageSize - 16, s.base + pageSize - 24);
  }

  lemma FiveSteps(s: State, e1: Event, e2: Event, e3: Event, e4: Event, e5: Event)
    requires 8 <= s.pageSize <= TWO64
    ensures Run(s, [e1] + [e2] + [e3] + [e4] + [e5]) == Apply(Apply(Apply(Apply(Apply(s, e1), e2), e3), e4), e5)
  {
    FourSteps(s, e1, e2, e3, e4);
    RunThen(s, [e1] + [e2] + [e3] + [e4], e5, Run(s, [e1] + [e2] + [e3] + [e4]));
  }

  lemma ThreeSteps(s: State, e1: Event, e2: Event, e3: Event)
    requires 8 <= s.pageSize <= TWO64
    ensures Run(s, [e1] + [e2] + [e3]) == Apply(Apply(Apply(s, e1), e2), e3)
  {
    RunThen(s, [], e1, s);
    assert [] + [e1] == [e1];
    RunThen(s, [e1], e2, Apply(s, e1));
    RunThen(s, [e1] + [e2], e3, Apply(Apply(s, e1), e2));
  }

  lemma RunThen(s: State, es: seq<Event>, e: Event, r: State)
    requires 8 <= s.pageSize <= TWO64 && Run(s, es) == r
    ensures Run(s, es + [e]) == Apply(r, e)
  {
    assert (es + [e])[..|es|] == es;
  }
}
