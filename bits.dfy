/**
 * Unsigned bytes, single-bit mask tests and little-endian 16-bit fields, as the
 * driver uses them on UByte/UInt values.
 */
module Bits {

  /** An unsigned 8-bit value (Kotlin UByte). */
  type Byte = b: int | 0 <= b < 256

  /** A signed 32-bit value (Kotlin Int). */
  type Int32 = x: int | -0x8000_0000 <= x < 0x8000_0000

  function Pow2(k: nat): (p: nat)
    ensures p >= 1
  {
    if k == 0 then 1 else 2 * Pow2(k - 1)
  }

  /** `v and (1 shl k) > 0`: bit k of v is set. */
  predicate BitSet(v: nat, k: nat)
  {
    (v / Pow2(k)) % 2 == 1
  }

  /** Kotlin's Int arithmetic: reduce an exact result to its two's complement 32-bit value. */
  function Wrap32(x: int): (r: Int32)
    ensures (r - x) % 0x1_0000_0000 == 0
    ensures -0x8000_0000 <= x < 0x8000_0000 ==> r == x
  {
    var m := x % 0x1_0000_0000;
    if m >= 0x8000_0000 then m - 0x1_0000_0000 else m
  }

  /** `hi shl 8 or lo`: the 16-bit value whose low byte is lo and high byte is hi. */
  function LittleEndian16(lo: Byte, hi: Byte): (r: nat)
    ensures r < 0x1_0000
    ensures r % 256 == lo && r / 256 == hi
  {
    hi * 256 + lo
  }

  /** Reference population count: the number of one bits of v. */
  function PopCount(v: nat): nat
  {
    if v == 0 then 0 else v % 2 + PopCount(v / 2)
  }

  /** The number of set bits among positions lo .. hi-1 of v. */
  function CountBits(v: nat, lo: nat, hi: nat): nat
    decreases hi - lo
  {
    if lo >= hi then 0 else (if BitSet(v, lo) then 1 else 0) + CountBits(v, lo + 1, hi)
  }

  lemma MulAtLeast(b: int, k: int)
    requires b > 0 && k >= 1
    ensures b * k >= b
  {
    assert b * k == b + b * (k - 1);
  }

  lemma DivModUnique(a: int, b: int, q: int, r: int)
    requires b > 0 && a == b * q + r && 0 <= r < b
    ensures a / b == q && a % b == r
  {
    var q', r' := a / b, a % b;
    assert a == b * q' + r';
    assert b * q - b * q' == r' - r;
    assert b * (q - q') == r' - r;
    if q < q' {
      MulAtLeast(b, q' - q);
    } else if q > q' {
      MulAtLeast(b, q - q');
    }
  }

  /** Shifting right by one and then by k is shifting right by k + 1. */
  lemma HalveThenShift(v: nat, k: nat)
    ensures v / Pow2(k + 1) == (v / 2) / Pow2(k)
    ensures BitSet(v, k + 1) == BitSet(v / 2, k)
  {
    var p := Pow2(k);
    var q, r1, r0 := (v / 2) / p, (v / 2) % p, v % 2;
    assert v == 2 * (v / 2) + r0;
    assert v / 2 == p * q + r1;
    assert v == (2 * p) * q + (2 * r1 + r0);
    DivModUnique(v, 2 * p, q, 2 * r1 + r0);
  }

  /** Truncating v to n + 1 bits keeps bit 0 and truncates the rest to n bits. */
  lemma LowBitsStep(v: nat, n: nat)
    ensures (v % Pow2(n + 1)) % 2 == v % 2
    ensures (v % Pow2(n + 1)) / 2 == (v / 2) % Pow2(n)
  {
    var p := Pow2(n);
    var q, r1, r0 := (v / 2) / p, (v / 2) % p, v % 2;
    assert v == 2 * (v / 2) + r0;
    assert v / 2 == p * q + r1;
    assert v == (2 * p) * q + (2 * r1 + r0);
    DivModUnique(v, 2 * p, q, 2 * r1 + r0);
    var m := 2 * r1 + r0;
    DivModUnique(m, 2, r1, r0);
  }

  /** Truncating v to n bits leaves the bits below n unchanged. */
  lemma {:induction false} LowBitsKept(v: nat, n: nat, j: nat)
    requires j < n
    ensures BitSet(v % Pow2(n), j) == BitSet(v, j)
  {
    LowBitsStep(v, n - 1);
    if j > 0 {
      LowBitsKept(v / 2, n - 1, j - 1);
      HalveThenShift(v % Pow2(n), j - 1);
      HalveThenShift(v, j - 1);
    }
  }

  lemma {:induction false} CountBitsShift(v: nat, lo: nat, hi: nat)
    ensures CountBits(v, lo + 1, hi + 1) == CountBits(v / 2, lo, hi)
    decreases hi - lo
  {
    if lo < hi {
      HalveThenShift(v, lo);
      CountBitsShift(v, lo + 1, hi);
    }
  }

  /** Counting bit positions 0 .. n-1 agrees with the population count of v truncated to n bits. */
  lemma {:induction false} CountBitsIsPopCount(v: nat, n: nat)
    ensures CountBits(v, 0, n) == PopCount(v % Pow2(n))
  {
    if n > 0 {
      var m := v % Pow2(n);
      LowBitsStep(v, n - 1);
      CountBitsShift(v, 0, n - 1);
      CountBitsIsPopCount(v / 2, n - 1);
      assert CountBits(v, 1, n) == PopCount(m / 2);
      assert (if BitSet(v, 0) then 1 else 0) == m % 2;
      assert PopCount(m) == m % 2 + PopCount(m / 2);
    }
  }

  /** Splitting a 16-bit value into its two bytes and joining them again gives the value back. */
  lemma LittleEndian16RoundTrip(v: nat)
    requires v < 0x1_0000
    ensures LittleEndian16(v % 256, v / 256) == v
  {
  }
}
