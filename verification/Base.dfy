// Vocabulary shared by every structure of the arena library.

/** The key/value record, the result codes and the machine words of include/ds_api.h. */
module Base {

  const TWO32: nat := 0x1_0000_0000
  const TWO63: nat := 0x8000_0000_0000_0000
  const TWO64: nat := 0x1_0000_0000_0000_0000

  /** Payload words are only ever copied, so their width plays no part. */
  datatype Kv = Kv(key: nat, value: nat)

  datatype Result = Success | NotFound | NoMem | Invalid | Corrupt | Busy | Full

  datatype Option<+T> = None | Some(value: T)

  /** Unsigned arithmetic reduces modulo the width (section 6.2.5 of ISO C11). */
  function Wrap32(x: int): nat { x % TWO32 }

  function Wrap64(x: int): nat { x % TWO64 }

  const KV_BYTES: nat := 16  // sizeof(struct ds_kv)

  /** The bytes the arena is asked for when n elements of `width` bytes are: its parameter has 32 bits. */
  function Request(n: nat, width: nat): nat { Wrap32(n * width) }

  /** Sum and difference of two 64-bit words, reduced. */
  function Add64(x: nat, y: nat): nat { if x + y < TWO64 then x + y else x + y - TWO64 }

  function Sub64(x: nat, y: nat): nat
    requires y <= TWO64
  {
    if y <= x then x - y else x - y + TWO64
  }

  /** The value of a 64-bit word read as two's complement. */
  function Signed64(x: nat): int { if x < TWO63 then x else x - TWO64 }
}

/** What surrounds a call: the steps of other threads, and records of who did what. */
module Calls {

  /** env[k] is what other threads do before the k-th access of a call; nothing happens past the end. */
  type Interference<E> = seq<seq<E>>

  function At<E>(env: Interference<E>, k: nat): seq<E> { if k < |env| then env[k] else [] }

  /** No entry from `from` on is t's. */
  predicate NoneBy(who: seq<nat>, from: nat, t: nat) {
    forall q :: from <= q < |who| ==> who[q] != t
  }

  /** The place from which on a property holds to the end, when it did not hold at the start. */
  lemma {:induction false} LastRise(bits: seq<bool>) returns (i: nat)
    requires |bits| > 0 && !bits[0] && bits[|bits| - 1]
    ensures i + 1 < |bits| && !bits[i] && forall j :: i < j < |bits| ==> bits[j]
  {
    i := |bits| - 2;
    while bits[i]
      invariant 0 <= i < |bits| - 1 && forall j :: i < j < |bits| ==> bits[j]
      decreases i
    {
      i := i - 1;
    }
  }
}

/** Sums over all threads, used for counters that threads owe an update to. */
module Tally {

  function Sum<T>(xs: seq<T>, f: T -> int): int
  {
    if xs == [] then 0 else Sum(xs[..|xs| - 1], f) + f(xs[|xs| - 1])
  }

  lemma {:induction false} SumUpdate<T>(xs: seq<T>, i: nat, x: T, f: T -> int)
    requires i < |xs|
    ensures Sum(xs[i := x], f) == Sum(xs, f) - f(xs[i]) + f(x)
  {
    var ys := xs[i := x];
    var n := |xs| - 1;
    if i == n {
      assert ys[..n] == xs[..n];
    } else {
      assert ys[..n] == xs[..n][i := x];
      SumUpdate(xs[..n], i, x, f);
    }
  }

  lemma {:induction false} SumZero<T>(xs: seq<T>, f: T -> int)
    requires forall i :: 0 <= i < |xs| ==> f(xs[i]) == 0
    ensures Sum(xs, f) == 0
  {
    if xs != [] {
      SumZero(xs[..|xs| - 1], f);
    }
  }
}
