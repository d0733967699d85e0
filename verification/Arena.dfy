// The userspace page-fragment allocator (include/libarena_ds.h) as a machine whose every step is one
// access to a page counter. The lock keeps allocations apart from one another; it does not keep frees,
// which do not take it, out of an allocation's update of the counter, nor out of one another's.

module Arena {
  import opened Base
  import opened Words

  type Addr = nat

  /** A block: the page it was carved from and its rounded size. */
  datatype Block = Block(page: Addr, size: nat)

  /** A free under way: it has read the counter of its block's page for the test against zero, or, after
      that, for the decrement. */
  datatype Pending = Checked(a: Addr, found: nat) | Loaded(a: Addr, seen: nat)

  /** The allocation that holds the lock: its rounded size, and the counter it has read. */
  datatype Locked = Locked(aligned: nat, seen: nat)

  /** The allocator's globals and the counter word of each page, by page address. `issued` is the
      history of all blocks ever returned; `live` are those whose free has not finished; `pending` are
      the frees under way, by thread. */
  datatype State = State(
    base: Addr, size: nat, pageSize: nat, nextPageOff: nat, curPage: Addr, curOffset: nat,
    counters: map<Addr, nat>,
    issued: map<Addr, Block>, live: set<Addr>, pending: map<nat, Pending>,
    lock: Option<Locked>)

  /** round_up(x, 8) on 64-bit words: the macro works by setting the low bits of x - 1. */
  function RoundUp8(x: nat): nat
    requires x < TWO64
  {
    Add64(BitOr(Sub64(x, 1), 7), 1)
  }

  /** The word's bits above the page offset. */
  function MaskPage(a: nat, pageSize: nat): nat
    requires pageSize <= TWO64
  {
    BitAnd(a, TWO64 - pageSize)
  }

  function Counter(s: State, page: Addr): nat { if page in s.counters then s.counters[page] else 0 }

  /** The state set_range leaves behind. */
  function Configured(start: Addr, size: nat, pageSize: nat): State
    requires start < TWO64 && size < TWO64 && 0 < pageSize < TWO64
  {
    var alignedStart := MaskPage(Add64(Add64(start, pageSize), TWO64 - 1), pageSize);
    if start == 0 || size == 0 || alignedStart >= Add64(start, size) then
      State(0, 0, pageSize, 0, 0, 0, map[], map[], {}, map[], None)
    else
      var alignedSize := MaskPage(Sub64(size, Sub64(alignedStart, start)), pageSize);
      State(alignedStart, alignedSize, pageSize, 0, 0, 0, map[], map[], {}, map[], None)
  }

  predicate Refuses(s: State, aligned: nat) {
    s.base == 0 || s.size == 0 || aligned == 0 || aligned + 8 >= s.pageSize
  }

  predicate PageFull(s: State, aligned: nat) { s.curPage == 0 || s.curOffset < aligned }

  predicate NoPageLeft(s: State) { s.nextPageOff > s.size || s.pageSize > s.size - s.nextPageOff }

  /** Starts the next page; its counter word takes the last eight bytes. */
  function Turn(s: State): State
    requires 8 <= s.pageSize
  {
    var page := s.base + s.nextPageOff;
    s.(nextPageOff := s.nextPageOff + s.pageSize, curPage := page, curOffset := s.pageSize - 8,
       counters := s.counters[page := 0])
  }

  /** The block cut off the end of what is left of the current page. */
  function Cut(s: State, aligned: nat): Addr
    requires aligned <= s.curOffset
  {
    s.curPage + s.curOffset - aligned
  }

  /** Cuts it, and stores the counter read before plus one. */
  function Carve(s: State, aligned: nat, seen: nat): State
    requires aligned <= s.curOffset
  {
    var block := Cut(s, aligned);
    s.(curOffset := s.curOffset - aligned, counters := s.counters[s.curPage := Add64(seen, 1)],
       issued := s.issued[block := Block(s.curPage, aligned)], live := s.live + {block})
  }

  /** An allocation up to its load of the counter: it takes the lock, if nobody holds it, and turns to the
      next page, if it has to and can. If it returns NULL nothing has changed. */
  function AllocLoad(s: State, aligned: nat): State
    requires 8 <= s.pageSize
  {
    if s.lock.Some? || Refuses(s, aligned) || (PageFull(s, aligned) && NoPageLeft(s)) then s else
      var t := if PageFull(s, aligned) then Turn(s) else s;
      t.(lock := Some(Locked(aligned, Counter(t, t.curPage))))
  }

  /** Its store of the counter, and the rest. */
  function AllocStore(s: State): State {
    if s.lock.None? || s.lock.value.aligned > s.curOffset then s
    else Carve(s, s.lock.value.aligned, s.lock.value.seen).(lock := None)
  }

  /** Both at once, when nothing comes in between; the result is NULL when there is no room. */
  function Alloc(s: State, n: nat): (State, Addr)
    requires n < TWO32 && 8 <= s.pageSize && s.lock.None?
  {
    var t := AllocLoad(s, RoundUp8(n));
    (AllocStore(t), Answer(t, AllocEnd))
  }

  /** The counter that a free of a works on. */
  function CounterOf(s: State, a: Addr): nat
    requires s.pageSize <= TWO64
  {
    Counter(s, MaskPage(a, s.pageSize))
  }

  /** What a free of a leaves behind when it has read `seen` for the decrement. */
  function FreeStore(s: State, a: Addr, seen: nat): State
    requires s.pageSize <= TWO64
  {
    s.(counters := s.counters[MaskPage(a, s.pageSize) := Sub64(seen, 1)], live := s.live - {a})
  }

  /** The next access of thread t inside free. */
  function FreeNext(s: State, t: nat): State
    requires s.pageSize <= TWO64
  {
    if t !in s.pending then s else
      match s.pending[t]
      case Checked(a, found) =>
        if found == 0 then s.(live := s.live - {a}, pending := s.pending - {t})
        else s.(pending := s.pending[t := Loaded(a, CounterOf(s, a))])
      case Loaded(a, seen) => FreeStore(s, a, seen).(pending := s.pending - {t})
  }

  /** A whole free, when nothing comes in between. */
  function Free(s: State, a: Addr): State
    requires s.pageSize <= TWO64
  {
    if a == 0 then s
    else if CounterOf(s, a) == 0 then s.(live := s.live - {a})
    else FreeStore(s, a, CounterOf(s, a))
  }

  datatype Event =
    | AllocBegin(n: nat)
    | AllocEnd  // of the allocation that holds the lock
    | FreeBegin(t: nat, a: Addr)
    | FreeStep(t: nat)

  function Apply(s: State, e: Event): (r: State)
    requires 8 <= s.pageSize <= TWO64
    ensures r.pageSize == s.pageSize
  {
    match e
    case AllocBegin(n) => if n < TWO32 then AllocLoad(s, RoundUp8(n)) else s
    case AllocEnd => AllocStore(s)
    case FreeBegin(t, a) =>
      if t in s.pending || a == 0 || a >= TWO64 then s
      else s.(pending := s.pending[t := Checked(a, CounterOf(s, a))])
    case FreeStep(t) => FreeNext(s, t)
  }

  /** The block an event returns, or NULL. */
  function Answer(s: State, e: Event): Addr {
    if e.AllocEnd? && s.lock.Some? && s.lock.value.aligned <= s.curOffset then Cut(s, s.lock.value.aligned) else 0
  }

  function Run(s: State, es: seq<Event>): (r: State)
    requires 8 <= s.pageSize <= TWO64
    ensures r.pageSize == s.pageSize
  {
    if es == [] then s else Apply(Run(s, es[..|es| - 1]), es[|es| - 1])
  }
}
