// The kcov-style append buffer (include/ds_kcov.h): one writer that interrupts may re-enter, so calls
// nest, and a consumer that pops the newest entry while nothing else runs.

module Kcov {
  import opened Base
  import Lifo

  /** An insert with the inserts of the interrupts that arrive during it: between its load and its store
      of the counter, before it stores the key, and before it stores the value. Those of the last two
      kinds do not happen if the buffer is full. */
  datatype Call = Call(kv: Kv, window: seq<Call>, beforeKey: seq<Call>, beforeValue: seq<Call>)

  /** The words of the area; the first counts the entries, which take two words each. */
  type Area = seq<nat>

  function Capacity(size: nat): nat
    requires 3 <= size
  {
    (size - 1) / 2
  }

  predicate Valid(area: Area) { 3 <= |area| < TWO64 && area[0] <= Capacity(|area|) }

  /** The i-th entry, oldest first. */
  function Entry(area: Area, i: nat): Kv
    requires 2 * i + 2 < |area|
  {
    Kv(area[1 + 2 * i], area[2 + 2 * i])
  }

  function Entries(area: Area): seq<Kv>
    requires Valid(area)
  {
    seq(area[0], i requires 0 <= i < area[0] => Entry(area, i))
  }

  // ---- Inserts and the inserts nested in them ----

  /** The area after a call. */
  function Exec(area: Area, c: Call): (r: Area)
    requires Valid(area)
    ensures Valid(r) && |r| == |area|
    decreases c, 0
  {
    var count := area[0] + 1;
    var start := 1 + (count - 1) * 2;
    var a := ExecAll(area, c.window);
    if start + 2 > |area| then a else
      var b := ExecAll(a[0 := count], c.beforeKey);
      var d := ExecAll(b[start := c.kv.key], c.beforeValue);
      d[start + 1 := c.kv.value]
  }

  function ExecAll(area: Area, cs: seq<Call>): (r: Area)
    requires Valid(area)
    ensures Valid(r) && |r| == |area|
    decreases cs, 1
  {
    if cs == [] then area else ExecAll(Exec(area, cs[0]), cs[1..])
  }

  /** What the calls have to record, in the order in which they claim entries, leaving out every call
      that falls into the window between another call's load and its store of the counter. */
  function Claims(c: Call): seq<Kv>
    decreases c, 0
  {
    [c.kv] + ClaimsOfAll(c.beforeKey) + ClaimsOfAll(c.beforeValue)
  }

  function ClaimsOfAll(cs: seq<Call>): seq<Kv>
    decreases cs, 1
  {
    if cs == [] then [] else Claims(cs[0]) + ClaimsOfAll(cs[1..])
  }

  /** The area afterwards holds what it held and, as far as there is room, the claims. */
  predicate Records(area: Area, after: Area, claims: seq<Kv>)
    requires Valid(area)
  {
    var n := area[0];
    && Valid(after) && |after| == |area|
    && after[0] == (if n + |claims| <= Capacity(|area|) then n + |claims| else Capacity(|area|))
    && (forall i :: 1 <= i <= 2 * n ==> after[i] == area[i])
    && (forall i :: n <= i < after[0] ==> Entry(after, i) == claims[i - n])
  }

  lemma RecordsThen(a: Area, b: Area, c: Area, p: seq<Kv>, q: seq<Kv>)
    requires Valid(a) && Records(a, b, p) && Records(b, c, q)
    ensures Records(a, c, p + q)
  {
    var n := a[0];
    forall i | n <= i < c[0] ensures Entry(c, i) == (p + q)[i - n] {
      if i < b[0] {
        assert Entry(c, i) == Entry(b, i);
      }
    }
  }

  lemma {:induction false} ExecAllRecords(area: Area, cs: seq<Call>)
    requires Valid(area)
    ensures Records(area, ExecAll(area, cs), ClaimsOfAll(cs))
    decreases cs, 1
  {
    if cs != [] {
      ExecRecords(area, cs[0]);
      ExecAllRecords(Exec(area, cs[0]), cs[1..]);
      RecordsThen(area, Exec(area, cs[0]), ExecAll(area, cs), Claims(cs[0]), ClaimsOfAll(cs[1..]));
    }
  }

  /** However inserts nest, two that claim entries outside each other's window never touch each other's
      words: the buffer ends up with all their entries, in the order of their claims, until it is full.
      A call that falls into the window is lost, and so is all that nests in it. */
  lemma {:induction false} ExecRecords(area: Area, c: Call)
    requires Valid(area)
    ensures Records(area, Exec(area, c), Claims(c))
    decreases c, 0
  {
    var n, cap := area[0], Capacity(|area|);
    var start := 1 + 2 * n;
    var a := ExecAll(area, c.window);
    ExecAllRecords(area, c.window);
    if start + 2 <= |area| {
      var a' := a[0 := n + 1];
      var b := ExecAll(a', c.beforeKey);
      ExecAllRecords(a', c.beforeKey);
      var b' := b[start := c.kv.key];
      var d := ExecAll(b', c.beforeValue);
      ExecAllRecords(b', c.beforeValue);
      var r := d[start + 1 := c.kv.value];
      OuterRecords(area, a', b, d, c.kv, ClaimsOfAll(c.beforeKey), ClaimsOfAll(c.beforeValue));
    }
  }

  lemma OuterRecords(area: Area, a: Area, b: Area, d: Area, kv: Kv, p: seq<Kv>, q: seq<Kv>)
    requires Valid(area) && area[0] < Capacity(|area|)
    requires |a| == |area| && a[0] == area[0] + 1 && forall i :: 1 <= i <= 2 * area[0] ==> a[i] == area[i]
    requires Valid(a) && Records(a, b, p)
    requires Records(b[1 + 2 * area[0] := kv.key], d, q)
    ensures Records(area, d[2 + 2 * area[0] := kv.value], [kv] + p + q)
  {
    var n := area[0];
    var b', r := b[1 + 2 * n := kv.key], d[2 + 2 * n := kv.value];
    forall i | n <= i < r[0] ensures Entry(r, i) == ([kv] + p + q)[i - n] {
      if i == n {
        assert b'[1 + 2 * n] == d[1 + 2 * n];
      } else if i < b[0] {
        assert b[1 + 2 * i] == d[1 + 2 * i] && b[2 + 2 * i] == d[2 + 2 * i];
        assert Entry(r, i) == Entry(b, i) == p[i - n - 1];
      } else {
        assert Entry(r, i) == Entry(d, i) == q[i - b[0]];
      }
    }
  }

  /** The entries afterwards are what was there and the claims, cut off where the buffer ends. */
  lemma EntriesAfter(area: Area, c: Call)
    requires Valid(area)
    ensures var all := Entries(area) + Claims(c);
            Entries(Exec(area, c)) == if |all| <= Capacity(|area|) then all else all[..Capacity(|area|)]
  {
    ExecRecords(area, c);
    RecordedEntries(area, Exec(area, c), Claims(c));
  }

  lemma RecordedEntries(area: Area, after: Area, claims: seq<Kv>)
    requires Valid(area) && Records(area, after, claims)
    ensures var all := Entries(area) + claims;
            Entries(after) == if |all| <= Capacity(|area|) then all else all[..Capacity(|area|)]
  {
    var n, all := area[0], Entries(area) + claims;
    forall i | 0 <= i < after[0] ensures Entries(after)[i] == all[i] {
      if i < n {
        assert after[1 + 2 * i] == area[1 + 2 * i] && after[2 + 2 * i] == area[2 + 2 * i];
      }
    }
  }

  function Size(c: Call): nat
    decreases c, 0
  {
    1 + SizeOfAll(c.window) + SizeOfAll(c.beforeKey) + SizeOfAll(c.beforeValue)
  }

  function SizeOfAll(cs: seq<Call>): nat
    decreases cs, 1
  {
    if cs == [] then 0 else Size(cs[0]) + SizeOfAll(cs[1..])
  }

  /** No call falls into another's window. */
  predicate Guarded(c: Call)
    decreases c, 0
  {
    c.window == [] && AllGuarded(c.beforeKey) && AllGuarded(c.beforeValue)
  }

  predicate AllGuarded(cs: seq<Call>)
    decreases cs, 1
  {
    cs == [] || (Guarded(cs[0]) && AllGuarded(cs[1..]))
  }

  lemma {:induction false} ClaimsCount(c: Call)
    ensures |Claims(c)| <= Size(c) && (|Claims(c)| == Size(c) <==> Guarded(c))
    decreases c, 0
  {
    ClaimsOfAllCount(c.beforeKey);
    ClaimsOfAllCount(c.beforeValue);
    if c.window != [] {
      assert Size(c.window[0]) >= 1;
    }
  }

  lemma {:induction false} ClaimsOfAllCount(cs: seq<Call>)
    ensures |ClaimsOfAll(cs)| <= SizeOfAll(cs) && (|ClaimsOfAll(cs)| == SizeOfAll(cs) <==> AllGuarded(cs))
    decreases cs, 1
  {
    if cs != [] {
      ClaimsCount(cs[0]);
      ClaimsOfAllCount(cs[1..]);
    }
  }

  /** With room for all of them, every insert of the nest leaves its entry if and only if none of them
      falls into another's window. */
  lemma NoneLostIffGuarded(area: Area, c: Call)
    requires Valid(area) && area[0] + Size(c) <= Capacity(|area|)
    ensures |Entries(Exec(area, c))| == |Entries(area)| + Size(c) <==> Guarded(c)
  {
    EntriesAfter(area, c);
    ClaimsCount(c);
  }

  /** An insert that falls into the window of another one is lost: it finds room and answers SUCCESS, and
      the buffer ends up without it. */
  lemma WindowLoses(area: Area, kv: Kv, lost: Kv)
    requires Valid(area) && area[0] < Capacity(|area|)
    ensures var c := Call(kv, [Call(lost, [], [], [])], [], []);
            && Entries(ExecAll(area, c.window)) == Entries(area) + [lost]
            && Entries(Exec(area, c)) == Entries(area) + [kv]
  {
    var inner := Call(lost, [], [], []);
    assert Claims(inner) == [lost] && Claims(Call(kv, [inner], [], [])) == [kv];
    EntriesAfter(area, inner);
    EntriesAfter(area, Call(kv, [inner], [], []));
    assert ExecAll(area, [inner]) == Exec(area, inner);
  }

  // ---- The code on a real array ----

  /** Both words of entry i are among the first `size`. */
  predicate Inside(i: nat, size: nat) { 2 * i + 2 < size }

  class Buffer {
    var size: nat
    var area: array?<nat>

    ghost predicate Ready()
      reads this, area
    {
      area != null && area.Length == size && Valid(area[..])
    }

    /** The entries, newest first. */
    ghost function Stack(): seq<Kv>
      reads this, area
      requires Ready()
    {
      Reversed(Entries(area[..]))
    }

    constructor ()
      ensures area == null
    {
      size, area := 0, null;
    }

    /** Granted tells whether the allocator has room. The array it gives has the words that the request comes to,
        so the buffer is fit for use exactly when it was not cut down. */
    method Init(n: nat, granted: bool) returns (r: Result)
      requires n < TWO64
      modifies this
      ensures r == if n < 3 then Invalid else if granted && Request(n, 8) != 0 then Success else NoMem
      ensures r == Success ==>
                && size == n && area != null && fresh(area) && area.Length == Request(n, 8) / 8 && area[0] == 0
                && (Ready() <==> n < 0x2000_0000)
      ensures r == Success && n < 0x2000_0000 ==> Stack() == []
      ensures r != Success ==> unchanged(this)
    {
      if n < 1 + 2 {
        return Invalid;
      }
      var bytes := Request(n, 8);
      if bytes == 0 || !granted {
        return NoMem;
      }
      area := new nat[bytes / 8];
      area[0] := 0;
      size := n;
      r := Success;
    }

    /** An insert, with the inserts that interrupt it. */
    method Insert(c: Call) returns (r: Result)
      requires area != null ==> Ready()
      modifies area
      ensures area != null ==> Ready() && area[..] == Exec(old(area[..]), c)
      ensures r == if area == null then Invalid else if Inside(old(area[0]), size) then Success else Full
      decreases c, 0
    {
      if area == null {
        return Invalid;
      }
      var count := area[0] + 1;
      InsertAll(c.window);
      var start := 1 + (count - 1) * 2;
      var end := start + 2;
      if end > size {
        return Full;
      }
      area[0] := count;
      InsertAll(c.beforeKey);
      area[start] := c.kv.key;
      InsertAll(c.beforeValue);
      area[start + 1] := c.kv.value;
      r := Success;
    }

    method InsertAll(cs: seq<Call>)
      requires Ready()
      modifies area
      ensures Ready() && area[..] == ExecAll(old(area[..]), cs)
      decreases cs, 1
    {
      if cs != [] {
        var r := Insert(cs[0]);
        InsertAll(cs[1..]);
      }
    }

    /** Removes the newest entry. */
    method Pop(out: bool) returns (r: Result, kv: Kv)
      requires area != null ==> Ready()
      modifies area
      ensures r == if area == null then Invalid else if old(Stack()) == [] then NotFound else Success
      ensures area != null ==> Ready()
      ensures r == NotFound ==> Stack() == []
      ensures r == Success ==> Stack() == old(Stack())[1..] && (out ==> kv == old(Stack())[0])
    {
      kv := Kv(0, 0);
      if area == null {
        return Invalid, kv;
      }
      var count := area[0];
      LastIsTop(area[..]);
      if count == 0 {
        return NotFound, kv;
      }
      var start := 1 + (count - 1) * 2;
      if out {
        kv := Kv(area[start], area[start + 1]);
      }
      ghost var was := area[..];
      area[0] := count - 1;
      assert area[..] == was[0 := count - 1];
      r := Success;
    }

    /** Succeeds exactly when the counter has its word and every entry it counts lies inside the area; for
        an area of the size init accepts, that is when the buffer is fit for use. */
    method Verify() returns (r: Result)
      requires area != null ==> 0 < area.Length
      ensures r in {Success, Corrupt, Invalid} && (r == Invalid <==> area == null)
      ensures area != null ==> (r == Success <==> 0 < size && forall i: nat :: i < area[0] ==> Inside(i, size))
      ensures area != null && area.Length == size && 3 <= size < TWO64 ==> (r == Success <==> Ready())
    {
      if area == null {
        return Invalid;
      }
      var count := area[0];
      if size < 1 {
        return Corrupt;
      }
      if count > (size - 1) / 2 {
        assert !Inside(count - 1, size);
        return Corrupt;
      }
      return Success;
    }
  }

  function Reversed<T>(s: seq<T>): (r: seq<T>)
    ensures |r| == |s|
  {
    if s == [] then [] else [s[|s| - 1]] + Reversed(s[..|s| - 1])
  }

  lemma LastIsTop(area: Area)
    requires Valid(area)
    ensures var q := Reversed(Entries(area));
            q == [] <==> area[0] == 0
    ensures var q := Reversed(Entries(area));
            area[0] > 0 ==>
              && q[0] == Entry(area, area[0] - 1) && Valid(area[0 := area[0] - 1])
              && Reversed(Entries(area[0 := area[0] - 1])) == q[1..]
  {
    if area[0] > 0 {
      var n := area[0] - 1;
      assert Entries(area[0 := n]) == Entries(area)[..n];
    }
  }

  /** An insert that nothing interrupts and that finds room pushes; so with Pop the buffer is a stack. */
  lemma InsertPushes(area: Area, kv: Kv)
    requires Valid(area)
    ensures var r := Exec(area, Call(kv, [], [], []));
            if area[0] == Capacity(|area|) then r == area
            else Lifo.Do(Reversed(Entries(area)), Lifo.Push(kv)) == Some(Reversed(Entries(r)))
  {
    var r := Exec(area, Call(kv, [], [], []));
    EntriesAfter(area, Call(kv, [], [], []));
    assert Claims(Call(kv, [], [], [])) == [kv];
    if area[0] < Capacity(|area|) {
      assert Entries(r)[..area[0]] == Entries(area);
    }
  }
}
