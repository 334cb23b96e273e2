/** Shared value types: options, results, bytes, hashes and unsigned arithmetic. */
module Types {

  datatype Option<+T> = None | Some(value: T)

  datatype Result<+T, +E> = Ok(value: T) | Err(error: E)

  type Byte = x: int | 0 <= x < 256

  /** A byte string that the indexer uses as an opaque identifier. */
  datatype Hash = Hash(id: nat)

  function Min(a: nat, b: nat): nat {
    if a <= b then a else b
  }

  function Max(a: nat, b: nat): nat {
    if a >= b then a else b
  }

  /** Rust's `saturating_sub` on unsigned integers. */
  function SatSub(a: nat, b: nat): nat {
    if a <= b then 0 else a - b
  }

  /** Rust's `as i32` on an unsigned value: keep the low 32 bits, read as two's complement. */
  function AsI32(v: nat): int {
    var low := v % 0x1_0000_0000;
    if low < 0x8000_0000 then low else low - 0x1_0000_0000
  }

  /** Rust's `as i64` on an unsigned value. */
  function AsI64(v: nat): int {
    var low := v % 0x1_0000_0000_0000_0000;
    if low < 0x8000_0000_0000_0000 then low else low - 0x1_0000_0000_0000_0000
  }

  /** The casts keep exactly the values that fit, and lose a multiple of the word size otherwise. */
  lemma CastsKeepWhatFits(v: nat)
    ensures AsI32(v) == v <==> v < 0x8000_0000
    ensures AsI64(v) == v <==> v < 0x8000_0000_0000_0000
    ensures -0x8000_0000 <= AsI32(v) < 0x8000_0000 && exists k: nat :: v == AsI32(v) + k * 0x1_0000_0000
    ensures -0x8000_0000_0000_0000 <= AsI64(v) < 0x8000_0000_0000_0000
    ensures exists k: nat :: v == AsI64(v) + k * 0x1_0000_0000_0000_0000
  {
    var high, top := v / 0x1_0000_0000, v / 0x1_0000_0000_0000_0000;
    assert v == AsI32(v) + high * 0x1_0000_0000 || v == AsI32(v) + (high + 1) * 0x1_0000_0000;
    assert v == AsI64(v) + top * 0x1_0000_0000_0000_0000 || v == AsI64(v) + (top + 1) * 0x1_0000_0000_0000_0000;
  }

  /** How many batches of at most `size` items `n` items take: the quotient, rounded up. */
  function CeilDiv(n: nat, size: nat): nat
    requires size > 0
  {
    if n == 0 then 0 else 1 + CeilDiv(SatSub(n, size), size)
  }

  lemma CeilDivStep(n: nat, size: nat)
    requires size > 0 && n > 0
    ensures CeilDiv(n, size) == CeilDiv(SatSub(n, size), size) + 1
  {
  }

  /** `CeilDiv` is the quotient rounded up: enough batches, and one fewer would be too few. */
  lemma {:induction false} CeilDivRoundsUp(n: nat, size: nat)
    requires size > 0
    ensures n <= CeilDiv(n, size) * size < n + size
  {
    if n > 0 {
      CeilDivRoundsUp(SatSub(n, size), size);
      assert CeilDiv(n, size) * size == CeilDiv(SatSub(n, size), size) * size + size;
    }
  }

  /** The blocks `lo..hi` (upper bound excluded) as a set. */
  function Interval(lo: nat, hi: nat): (s: set<nat>)
    ensures forall b :: b in s <==> lo <= b < hi
    decreases hi
  {
    if hi <= lo then {} else Interval(lo, hi - 1) + {hi - 1}
  }

  lemma {:induction false} IntervalSize(lo: nat, hi: nat)
    requires lo <= hi
    ensures |Interval(lo, hi)| == hi - lo
    decreases hi - lo
  {
    if lo == hi {
      assert Interval(lo, hi) == {};
    } else {
      IntervalSize(lo, hi - 1);
    }
  }

  lemma {:induction false} SubsetSize<T>(a: set<T>, b: set<T>)
    requires a <= b
    ensures |a| <= |b|
    decreases |b|
  {
    if a != {} {
      var x :| x in a;
      SubsetSize(a - {x}, b - {x});
    }
  }
}
