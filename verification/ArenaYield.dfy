// What an arena provides: exactly when an allocation is granted, where its block lies, and how many
// blocks of one size an arena yields before it is used up.

module ArenaYield {
  import opened Base
  import opened Words
  import opened Arena
  import opened ArenaProof

  /** The bytes a block of n takes. */
  function Bytes(n: nat): nat { (n + 7) / 8 * 8 }

  lemma BytesAreRounded(n: nat)
    requires n < TWO32
    ensures RoundUp8(n) == Bytes(n)
  {
    RoundUp8Is(n);
  }

  /** What is left of the current page has room for n more bytes. */
  predicate FitsHere(s: State, n: nat) { s.curPage != 0 && (n + 7) / 8 * 8 <= s.curOffset }

  /** When nobody holds the lock an allocation is granted if and only if there is an arena, the size is neither
      0 nor too large for a page, and it fits on the current page or there is another. */
  lemma GrantedIff(s: State, n: nat)
    requires Inv(s) && s.lock.None? && n < TWO32
    ensures Alloc(s, n).1 != 0 <==>
              && s.base != 0 && 0 < n && (n + 7) / 8 * 8 + 8 < s.pageSize
              && (FitsHere(s, n) || s.nextPageOff + s.pageSize <= s.size)
  {
    BytesAreRounded(n);
    NothingBeforePages(s);
    hide RoundUp8, Inv;
  }

  lemma NothingBeforePages(s: State)
    requires Inv(s)
    ensures 16 <= s.pageSize && s.base <= TWO64 && s.nextPageOff <= s.size
    ensures s.curPage == 0 ==> s.nextPageOff == 0
    ensures s.curPage != 0 ==> 0 < s.base && s.curOffset <= s.pageSize - 8
  {
  }

  /** No byte is wasted: a block that fits ends where what is left of the current page ends, and takes just its
      rounded size; only one that does not fit starts the next page, where it ends below the counter word. */
  lemma GrantedBlock(s: State, n: nat)
    requires Inv(s) && s.lock.None? && n < TWO32 && Alloc(s, n).1 != 0
    ensures var (t, a) := Alloc(s, n);
            if FitsHere(s, n) then
              && t.curPage == s.curPage && t.nextPageOff == s.nextPageOff
              && t.curOffset == s.curOffset - (n + 7) / 8 * 8 && a == s.curPage + t.curOffset
            else
              && t.curPage == s.base + s.nextPageOff && t.nextPageOff == s.nextPageOff + s.pageSize
              && t.curOffset == s.pageSize - 8 - (n + 7) / 8 * 8 && a == t.curPage + t.curOffset
  {
    BytesAreRounded(n);
    NothingBeforePages(s);
    hide RoundUp8, Inv;
  }

  // ---- Blocks of one size ----

  /** How many blocks of m bytes fit into `here` bytes and the pages of `rest` bytes. */
  function Room(here: nat, rest: int, p: nat, m: nat): int
    requires 0 < m && 0 < p
  {
    here / m + rest / p * ((p - 8) / m)
  }

  /** How many blocks of m bytes are left: on the current page, and on the pages not yet used. */
  function Left(s: State, m: nat): int
    requires 0 < m && 0 < s.pageSize
  {
    Room(if s.curPage == 0 then 0 else s.curOffset, s.size - s.nextPageOff, s.pageSize, m)
  }

  /** How many of k allocations of n bytes, one after the other, are granted. */
  function Granted(s: State, n: nat, k: nat): nat
    requires Inv(s) && s.lock.None? && n < TWO32
    decreases k
  {
    if k == 0 then 0 else
      AllocIsSafe(s, n);
      var (t, a) := Alloc(s, n);
      (if a == 0 then 0 else 1) + Granted(t, n, k - 1)
  }

  lemma OneFewer(x: nat, d: nat)
    requires 0 < d <= x
    ensures (x - d) / d == x / d - 1 && 0 < x / d
  {
    DivModUnique(x - d, d, x / d - 1, x % d);
    if x / d == 0 {
      DivModUnique(x, d, 0, x);
    }
  }

  lemma NoneLeft(x: nat, d: nat)
    requires x < d
    ensures x / d == 0
  {
    DivModUnique(x, d, 0, x);
  }

  lemma NextBlock(s: State, n: nat)
    requires Inv(s) && s.lock.None? && s.base != 0 && 0 < n < TWO32 && Bytes(n) + 8 < s.pageSize
    ensures var (t, a), m, p := Alloc(s, n), Bytes(n), s.pageSize;
            var here, there := if s.curPage == 0 then 0 else s.curOffset, if t.curPage == 0 then 0 else t.curOffset;
            && 0 < m && s.nextPageOff <= s.size
            && (a == 0 <==> here < m && s.size - s.nextPageOff < p)
            && (a == 0 ==> t == s)
            && (m <= here ==> there == here - m && t.nextPageOff == s.nextPageOff)
            && (a != 0 && here < m ==> there == p - 8 - m && t.nextPageOff == s.nextPageOff + p)
  {
    AllocIsSafe(s, n);
    GrantedIff(s, n);
    NothingBeforePages(s);
    hide Inv, Alloc, Issues;
    if Alloc(s, n).1 != 0 {
      GrantedBlock(s, n);
    }
  }

  /** A granted block is one fewer, and a block is refused only when none is left. */
  lemma EachIsOne(s: State, n: nat)
    requires Inv(s) && s.lock.None? && s.base != 0 && 0 < n < TWO32 && Bytes(n) + 8 < s.pageSize
    ensures var (t, a) := Alloc(s, n);
            && t.base == s.base && t.pageSize == s.pageSize && t.lock.None?
            && 0 <= Left(s, Bytes(n)) && (a == 0 <==> Left(s, Bytes(n)) == 0)
            && Left(t, Bytes(n)) == Left(s, Bytes(n)) - if a == 0 then 0 else 1
  {
    hide Inv, Alloc, Issues, Room, Bytes;
    AllocIsSafe(s, n);
    NextBlock(s, n);
    RoomShrinks(if s.curPage == 0 then 0 else s.curOffset, s.size - s.nextPageOff, s.pageSize, Bytes(n));
  }

  lemma RoomShrinks(here: nat, rest: nat, p: nat, m: nat)
    requires 0 < m < p - 8
    ensures 0 <= Room(here, rest, p, m) && (Room(here, rest, p, m) == 0 <==> here < m && rest < p)
    ensures m <= here ==> Room(here - m, rest, p, m) == Room(here, rest, p, m) - 1
    ensures here < m && p <= rest ==> Room(p - 8 - m, rest - p, p, m) == Room(here, rest, p, m) - 1
  {
    var per := (p - 8) / m;
    OneFewer(p - 8, m);
    if m <= here { OneFewer(here, m); } else { NoneLeft(here, m); }
    if rest < p {
      NoneLeft(rest, p);
    } else {
      OneFewer(rest, p);
      assert (rest / p - 1) * per == rest / p * per - per;
      assert 0 <= (rest / p - 1) * per;
    }
  }

  /** Of k allocations of n bytes exactly as many are granted as there are blocks left, if k is that many. */
  lemma {:induction false} GrantedIsLeft(s: State, n: nat, k: nat)
    requires Inv(s) && s.lock.None? && s.base != 0 && 0 < n < TWO32 && Bytes(n) + 8 < s.pageSize
    ensures Granted(s, n, k) == if k <= Left(s, Bytes(n)) then k else Left(s, Bytes(n))
    decreases k
  {
    hide Inv, Alloc, Left, Issues;
    EachIsOne(s, n);
    if k != 0 {
      AllocIsSafe(s, n);
      GrantedIsLeft(Alloc(s, n).0, n, k - 1);
    }
  }

  /** A range that set_range accepts yields, on each of its whole pages, as many blocks of n bytes as fit below the
      counter word, and no more. */
  lemma ArenaYields(start: Addr, size: nat, pageSize: nat, n: nat, k: nat)
    requires Range(start, size) && GoodPage(pageSize) && 0 < n < TWO32 && (n + 7) / 8 * 8 + 8 < pageSize
    requires Configured(start, size, pageSize).base != 0
    ensures var s := Configured(start, size, pageSize);
            var blocks := s.size / pageSize * ((pageSize - 8) / ((n + 7) / 8 * 8));
            && Inv(s) && Granted(s, n, k) == if k <= blocks then k else blocks
  {
    var s := Configured(start, size, pageSize);
    ConfiguredInRange(start, size, pageSize);
    ConfiguredIs(start, size, pageSize);
    hide Configured, Inv;
    GrantedIsLeft(s, n, k);
  }
}
