// Index and mask arithmetic: what the bit tricks of the ring buffers and of the
// arena allocator compute, proved on integers.

module Words {

  // ---- Division by a variable divisor ----

  lemma Magnitude(k: int, d: int)
    requires 0 < d
    ensures 1 <= k ==> d <= k * d
    ensures k <= -1 ==> k * d <= -d
  {
    if 1 <= k {
      assert (k - 1) * d >= 0;
    } else if k <= -1 {
      assert (-1 - k) * d >= 0;
    }
  }

  lemma DivModUnique(x: int, d: int, q: int, r: int)
    requires 0 < d && 0 <= r < d && x == q * d + r
    ensures x / d == q && x % d == r
  {
    assert (x / d - q) * d == r - x % d;
    Magnitude(x / d - q, d);
  }

  /** Two positions less than one lap apart that share a slot are the same position. */
  lemma ModUnique(p: int, q: int, d: int)
    requires 0 < d && p % d == q % d && p - d < q < p + d
    ensures p == q
  {
    assert (q / d - p / d) * d == q - p;
    Magnitude(q / d - p / d, d);
  }

  lemma ModLap(p: int, d: int)
    requires 0 < d
    ensures (p + d) % d == p % d && (p - d) % d == p % d
  {
    var q, r := p / d, p % d;
    assert p + d == (q + 1) * d + r && p - d == (q - 1) * d + r;
    DivModUnique(p + d, d, q + 1, r);
    DivModUnique(p - d, d, q - 1, r);
  }

  /** Stepping to the next slot wraps exactly at the end of the ring. */
  lemma ModNext(p: int, d: int)
    requires 0 < d
    ensures (p + 1) % d == if p % d + 1 == d then 0 else p % d + 1
  {
    var q, r := p / d, p % d;
    if r + 1 == d {
      assert p + 1 == (q + 1) * d + 0;
      DivModUnique(p + 1, d, q + 1, 0);
    } else {
      DivModUnique(p + 1, d, q, r + 1);
    }
  }

  /** Reducing modulo a multiple first changes nothing. */
  lemma ModOfMod(x: int, m: int, d: int)
    requires 0 < d && 0 < m && m % d == 0
    ensures (x % m) % d == x % d
  {
    var a, b := x / m, m / d;
    var q, r := (x % m) / d, (x % m) % d;
    assert x == a * m + (q * d + r);
    assert a * m == (a * b) * d by { assert m == b * d; }
    assert x == (a * b + q) * d + r;
    DivModUnique(x, d, a * b + q, r);
  }

  /** Reduction commutes with adding a constant. */
  lemma ModShift(x: int, k: int, m: int)
    requires 0 < m
    ensures (x % m + k) % m == (x + k) % m
  {
    var q, r := (x % m + k) / m, (x % m + k) % m;
    assert x + k == (x / m + q) * m + r;
    DivModUnique(x + k, m, x / m + q, r);
  }

  lemma ModDouble(x: nat, a: nat)
    requires 0 < a
    ensures x % (2 * a) == x % 2 + 2 * ((x / 2) % a)
  {
    var q, r := (x / 2) / a, (x / 2) % a;
    assert x == q * (2 * a) + (x % 2 + 2 * r);
    DivModUnique(x, 2 * a, q, x % 2 + 2 * r);
  }

  // ---- Bitwise and/or on naturals ----

  function BitAnd(x: nat, y: nat): (r: nat)
    ensures r <= x && r <= y
  {
    if x == 0 || y == 0 then 0 else (if x % 2 == 1 && y % 2 == 1 then 1 else 0) + 2 * BitAnd(x / 2, y / 2)
  }

  function BitOr(x: nat, y: nat): nat { x + y - BitAnd(x, y) }

  predicate IsPow2(n: nat) { n == 1 || (0 < n && n % 2 == 0 && IsPow2(n / 2)) }

  lemma {:induction false} AndSelf(x: nat)
    ensures BitAnd(x, x) == x
  {
    if x != 0 {
      AndSelf(x / 2);
      assert x % 2 == 0 || x % 2 == 1;
    }
  }

  /** The source's power-of-two test `c & (c - 1)` is exact. */
  lemma {:induction false} PowerOfTwoTest(c: nat)
    requires 0 < c
    ensures BitAnd(c, c - 1) == 0 <==> IsPow2(c)
  {
    if c > 1 {
      if c % 2 == 1 {
        assert (c - 1) % 2 == 0 && (c - 1) / 2 == c / 2;
        AndSelf(c / 2);
      } else {
        assert (c - 1) % 2 == 1 && (c - 1) / 2 == c / 2 - 1;
        PowerOfTwoTest(c / 2);
      }
    }
  }

  /** Masking with `c - 1` is reduction modulo c. */
  lemma {:induction false} MaskIsMod(x: nat, c: nat)
    requires IsPow2(c)
    ensures BitAnd(x, c - 1) == x % c
  {
    if c > 1 {
      var a := c / 2;
      assert (c - 1) % 2 == 1 && (c - 1) / 2 == a - 1;
      MaskIsMod(x / 2, a);
      ModDouble(x, a);
    }
  }

  /** Doubling both operands moves the common bits up by one. */
  lemma AndDouble(x: nat, y: nat)
    ensures BitAnd(x, 2 * y) == 2 * BitAnd(x / 2, y)
  {
    if x != 0 && y != 0 {
      assert (2 * y) % 2 == 0 && (2 * y) / 2 == y;
    }
  }

  /** Masking a w-bounded word with the complement of `p - 1` rounds down to a multiple of p. */
  lemma {:induction false} MaskClearsLow(x: nat, w: nat, p: nat)
    requires IsPow2(w) && IsPow2(p) && p <= w && x < w
    ensures BitAnd(x, w - p) == x - x % p
  {
    if p == 1 {
      MaskIsMod(x, w);
      DivModUnique(x, w, 0, x);
    } else {
      var a, b := p / 2, w / 2;
      calc {
        BitAnd(x, w - p);
        { assert w - p == 2 * (b - a); }
        BitAnd(x, 2 * (b - a));
        { AndDouble(x, b - a); }
        2 * BitAnd(x / 2, b - a);
        { MaskClearsLow(x / 2, b, a); }
        2 * (x / 2 - (x / 2) % a);
        { assert x == 2 * (x / 2) + x % 2; }
        x - (x % 2 + 2 * ((x / 2) % a));
        { ModDouble(x, a); assert p == 2 * a; }
        x - x % p;
      }
    }
  }

  lemma {:induction false} Pow2Divides(a: nat, b: nat)
    requires IsPow2(a) && IsPow2(b) && a <= b
    ensures b % a == 0
  {
    if a > 1 {
      Pow2Divides(a / 2, b / 2);
      ModDouble(b, a / 2);
    }
  }

  lemma {:induction false} Pow2Product(a: nat, b: nat)
    requires IsPow2(a) && IsPow2(b)
    ensures IsPow2(a * b)
  {
    if a > 1 {
      Pow2Product(a / 2, b);
      var c := (a / 2) * b;
      assert a * b == 2 * c by { assert a == 2 * (a / 2); }
      assert (2 * c) % 2 == 0 && (2 * c) / 2 == c;
    }
  }

  lemma Pow2Of32()
    ensures IsPow2(0x1_0000_0000)
  {
    assert IsPow2(2) && IsPow2(4);
    Pow2Product(4, 4);
    Pow2Product(16, 16);
    Pow2Product(256, 256);
    Pow2Product(65536, 65536);
  }

  lemma Pow2Of28()
    ensures IsPow2(0x1000_0000)
  {
    assert IsPow2(2) && IsPow2(4);
    Pow2Product(4, 4);
    Pow2Product(16, 16);
    Pow2Product(256, 256);
    Pow2Product(65536, 256);
    Pow2Product(0x100_0000, 16);
  }

  /** A power of two from 2^28 on is a multiple of 2^28, so sixteen times it is one of 2^32. */
  lemma SixteenTimes(n: nat)
    requires IsPow2(n)
    ensures n * 16 < 0x1_0000_0000 || (n * 16) % 0x1_0000_0000 == 0
    ensures n * 16 >= 0x1_0000_0000 ==> n % 0x1000_0000 == 0
  {
    if n >= 0x1000_0000 {
      Pow2Of28();
      Pow2Divides(0x1000_0000, n);
    }
  }
}
