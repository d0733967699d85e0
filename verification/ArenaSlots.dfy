// The arrays that the init functions get from the arena, whose parameter is a 32-bit number of bytes: a
// large request is cut down.

module ArenaSlots {
  import opened Base
  import opened Words
  import opened Arena
  import opened ArenaProof
  import SpscRing
  import SpscRingProof
  import FollyRing

  const CELL_BYTES: nat := 24  // sizeof(struct ds_vyukhov_node)
  const WORD_BYTES: nat := 8   // an element of the kcov area

  /** A block handed out for n elements has room for them if and only if they take less than 2^32 bytes. */
  lemma RoomIff(s: State, n: nat, width: nat)
    requires Inv(s) && s.lock.None? && 0 < n && width % 8 == 0 && 0 < width
    ensures var (t, a) := Alloc(s, Request(n, width));
            a != 0 ==> a in t.issued && (n * width <= t.issued[a].size <==> n * width < TWO32)
  {
    var asked := Request(n, width);
    Multiple8(n, width);
    AllocIsSafe(s, asked);
    RoundUp8Is(asked);
    CutDown(n * width, RoundUp8(asked));
  }

  lemma CutDown(bytes: nat, size: nat)
    requires bytes % 8 == 0 && size % 8 == 0 && Wrap32(bytes) <= size < Wrap32(bytes) + 8
    ensures bytes <= size <==> bytes < TWO32
  {
  }

  lemma Multiple8(n: nat, width: nat)
    requires width % 8 == 0
    ensures (n * width) % 8 == 0
  {
    var k := width / 8;
    assert n * width == 8 * (n * k) by { assert width == 8 * k; }
  }

  // ---- Structures that insist on powers of two ----

  /** The io_uring and CK rings: a request that is cut down is cut down to nothing and refused, so the array of
      a ring whose init succeeds has all its slots. */
  lemma PowersAreSafe(s: State, kind: SpscRing.Kind, n: nat)
    requires Inv(s) && s.lock.None? && SpscRing.Legal(kind, n) && !kind.Folly?
    ensures var (t, a) := Alloc(s, Request(n, KV_BYTES));
            a != 0 ==> a in t.issued && n * KV_BYTES <= t.issued[a].size
  {
    SixteenTimes(n);
    RoundUp8Is(0);
    RoomIff(s, n, KV_BYTES);
  }

  /** The Vyukov queue, whose cells take 24 bytes: the same, as long as a page has at most 2^31 bytes. A
      capacity of 2^28 asks for 2^31 bytes; the larger ones ask for none. */
  lemma CellsAreSafe(s: State, capacity: nat)
    requires Inv(s) && s.lock.None? && IsPow2(capacity) && capacity < TWO32
    ensures capacity == 0x1000_0000 ==> Request(capacity, CELL_BYTES) == 0x8000_0000
    ensures capacity > 0x1000_0000 ==> Request(capacity, CELL_BYTES) == 0
    ensures s.pageSize <= 0x8000_0000 ==>
              var (t, a) := Alloc(s, Request(capacity, CELL_BYTES));
              a != 0 ==> a in t.issued && capacity * CELL_BYTES <= t.issued[a].size
  {
    CellRequest(capacity);
    RoundUp8Is(0);
    RoundUp8Is(0x8000_0000);
    RoomIff(s, capacity, CELL_BYTES);
  }

  lemma CellRequest(capacity: nat)
    requires IsPow2(capacity) && capacity < TWO32
    ensures capacity * CELL_BYTES < TWO32 <==> capacity < 0x1000_0000
    ensures capacity == 0x1000_0000 ==> Request(capacity, CELL_BYTES) == 0x8000_0000
    ensures capacity > 0x1000_0000 ==> Request(capacity, CELL_BYTES) == 0
  {
    if capacity < 0x1000_0000 {
      SmallCells(capacity);
    } else if capacity > 0x1000_0000 {
      LargeCells(capacity);
    }
  }

  lemma SmallCells(capacity: nat)
    requires IsPow2(capacity) && capacity < 0x1000_0000
    ensures capacity <= 0x800_0000
  {
    Pow2Of28();
    Pow2Divides(capacity, 0x1000_0000);
    HalfOrLess(capacity, 0x1000_0000);
  }

  lemma LargeCells(capacity: nat)
    requires IsPow2(capacity) && 0x1000_0000 < capacity
    ensures capacity % 0x2000_0000 == 0
  {
    Pow2Of28();
    Pow2Divides(0x1000_0000, capacity);
    HalfOrLess(0x1000_0000, capacity);
    Pow2Product(0x1000_0000, 2);
    Pow2Divides(0x2000_0000, capacity);
  }

  lemma HalfOrLess(a: nat, b: nat)
    requires 0 < a < b && b % a == 0
    ensures 2 * a <= b
  {
    if b < 2 * a {
      DivModUnique(b, a, 1, b - a);
    }
  }

  // ---- Structures that take any size ----

  /** A Folly ring of 2^28 + 1 slots asks for 16 bytes, and the block it is given has room for one slot. */
  lemma FollyGetsOneSlot(s: State)
    requires Inv(s) && s.lock.None?
    ensures SpscRing.Legal(SpscRing.Folly, 0x1000_0001)
    ensures var (t, a) := Alloc(s, Request(0x1000_0001, KV_BYTES));
            && (a != 0 ==> a in t.issued && t.issued[a].size == KV_BYTES)
            && (s.curPage != 0 && KV_BYTES <= s.curOffset ==> a != 0)
  {
    assert !IsPow2(24);
    assert Request(0x1000_0001, KV_BYTES) == 16;
    AllocIsSafe(s, 16);
    RoundUp8Is(16);
  }

  /** A kcov buffer of 2^29 + 1 words asks for 8 bytes, and is given room for its counter alone. */
  lemma KcovGetsOneWord(s: State)
    requires Inv(s) && s.lock.None?
    ensures var (t, a) := Alloc(s, Request(0x2000_0001, WORD_BYTES));
            && (a != 0 ==> a in t.issued && t.issued[a].size == WORD_BYTES)
            && (s.curPage != 0 && WORD_BYTES <= s.curOffset && 16 < s.pageSize ==> a != 0)
  {
    assert Request(0x2000_0001, WORD_BYTES) == 8;
    AllocIsSafe(s, 8);
    RoundUp8Is(8);
  }

  /** A Folly ring whose block has room for all its slots passes its own check in every reachable state, and
      the size it reports is the number of pairs: the conversions to int go wrong only in rings that were
      not given their array. */
  lemma FollyWithRoomIsSound(s: State, ring: SpscRing.State)
    requires Inv(s) && s.lock.None? && SpscRingProof.Inv(ring) && ring.mem.kind.Folly?
    requires var (t, a) := Alloc(s, Request(ring.mem.n, KV_BYTES));
             a != 0 && a in t.issued && ring.mem.n * KV_BYTES <= t.issued[a].size
    ensures var n, w, r := ring.mem.n, ring.mem.tail, ring.mem.head;
            && w < n && r < n && FollyRing.NoOverflow(w, r)
            && FollyRing.Verdict(n, w, r) == Success
            && Wrap32(FollyRing.SizeGuess(n, w, r)) == |SpscRingProof.Contents(ring)|
  {
    RoomIff(s, ring.mem.n, KV_BYTES);
    FollyRing.SmallRing(ring);
    FollyRing.GuessIs(ring.mem.n, ring.mem.tail, ring.mem.head);
    FollyRing.Distance(ring.mem.n, |ring.puts|, ring.taken);
  }
}
