/** Two's-complement bits of unbounded integers, and byte buffers as bit strings.

    The bit operators of the source are defined bit by bit: `v | 1<<j`, `v &^ 1<<j`,
    `v & (2^w - 1)`, `v | ^(2^w - 1)` and `v >> j`.  A byte buffer stands for the infinite
    zero-extended bit string whose one bits are `Ones`.
 */
module Bits {

  import opened Basics

  const TWO_63: int := 0x8000_0000_0000_0000
  const TWO_64: int := 0x1_0000_0000_0000_0000

  type int64 = x: int | MIN_INT64 <= x <= MAX_INT64

  /** What a 64-bit register holds after an operation whose exact result is x. */
  function Wrap64(x: int): int64 {
    if MIN_INT64 <= x <= MAX_INT64 then x
    else if TWO_63 <= x < TWO_64 then x - TWO_64
    else WrapMod(x % TWO_64)
  }

  function WrapMod(m: int): int64
    requires 0 <= m < TWO_64
  {
    if m >= TWO_63 then m - TWO_64 else m
  }

  /** 64-bit wrap-around is the two's-complement reading of the remainder modulo 2^64. */
  lemma Wrap64IsRemainder(x: int)
    ensures Wrap64(x) == WrapMod(x % TWO_64)
  {
  }

  function Pow2(n: nat): (p: nat)
    ensures p > 0
  {
    if n == 0 then 1 else 2 * Pow2(n - 1)
  }

  /** (v >> j) & 1 */
  function BitOf(v: int, j: nat): (b: int)
    ensures b == 0 || b == 1
    decreases j
  {
    if j == 0 then v % 2 else BitOf(v / 2, j - 1)
  }

  /** v | (1 << j) */
  function OrBit(v: int, j: nat): int
    decreases j
  {
    if j == 0 then v - v % 2 + 1 else 2 * OrBit(v / 2, j - 1) + v % 2
  }

  /** v &^ (1 << j) */
  function ClearBit(v: int, j: nat): int
    decreases j
  {
    if j == 0 then v - v % 2 else 2 * ClearBit(v / 2, j - 1) + v % 2
  }

  /** v | ^((1 << w) - 1): all bits from w upwards become one. */
  function OrHigh(v: int, w: nat): int
    decreases w
  {
    if w == 0 then -1 else 2 * OrHigh(v / 2, w - 1) + v % 2
  }

  /** v & ((1 << w) - 1): the low w bits. */
  function LowBits(v: int, w: nat): nat
    decreases w
  {
    if w == 0 then 0 else 2 * LowBits(v / 2, w - 1) + v % 2
  }

  /** v >> j, rounding towards minus infinity. */
  function Shr(v: int, j: nat): int {
    if j == 0 then v else Shr(v, j - 1) / 2
  }

  // ---------------------------------------------------------------- powers of two

  lemma {:induction false} Pow2Adds(m: nat, n: nat)
    ensures Pow2(m + n) == Pow2(m) * Pow2(n)
  {
    if m > 0 { Pow2Adds(m - 1, n); }
  }

  lemma Pow2Of64()
    ensures Pow2(8) == 256 && Pow2(63) == TWO_63 && Pow2(64) == TWO_64
  {
    Pow2Squared(4, 16);
    Pow2Squared(8, 256);
    Pow2Squared(16, 65536);
    Pow2Squared(32, 65536 * 65536);
  }

  lemma Pow2Squared(n: nat, p: nat)
    requires Pow2(n) == p
    ensures Pow2(n + n) == p * p
  {
    Pow2Adds(n, n);
  }

  lemma {:induction false} Pow2Monotone(m: nat, n: nat)
    requires m <= n
    ensures Pow2(m) <= Pow2(n)
  {
    if m < n { Pow2Monotone(m, n - 1); }
  }

  // ---------------------------------------------------------------- single bits

  lemma {:induction false} OrBitBits(v: int, j: nat, k: nat)
    ensures BitOf(OrBit(v, j), k) == if k == j then 1 else BitOf(v, k)
    decreases j
  {
    if j > 0 && k > 0 { OrBitBits(v / 2, j - 1, k - 1); }
  }

  lemma {:induction false} ClearBitBits(v: int, j: nat, k: nat)
    ensures BitOf(ClearBit(v, j), k) == if k == j then 0 else BitOf(v, k)
    decreases j
  {
    if j > 0 && k > 0 { ClearBitBits(v / 2, j - 1, k - 1); }
  }

  lemma {:induction false} OrBitAdds(v: int, j: nat)
    requires BitOf(v, j) == 0
    ensures OrBit(v, j) == v + Pow2(j)
    decreases j
  {
    if j > 0 { OrBitAdds(v / 2, j - 1); }
  }

  lemma {:induction false} BitRange(v: int, j: nat, w: nat)
    requires 0 <= v < Pow2(w) && j < w
    ensures 0 <= OrBit(v, j) < Pow2(w) && 0 <= ClearBit(v, j) < Pow2(w)
  {
    if j > 0 { BitRange(v / 2, j - 1, w - 1); }
  }

  /** A byte with one bit set or cleared is a byte. */
  lemma {:induction false} ByteRange(b: byte, j: nat)
    requires j < 8
    ensures 0 <= OrBit(b, j) < 256 && 0 <= ClearBit(b, j) < 256
  {
    Pow2Of64();
    BitRange(b, j, 8);
  }

  lemma {:induction false} BitOfMultiple(m: int, j: nat)
    ensures BitOf(m * Pow2(j + 1), j) == 0
  {
    if j == 0 {
      assert m * Pow2(1) == 2 * m;
    } else {
      BitOfMultiple(m, j - 1);
      assert m * Pow2(j + 1) == 2 * (m * Pow2(j));
    }
  }

  lemma {:induction false} OrHighSubtracts(v: int, w: nat)
    requires 0 <= v < Pow2(w)
    ensures OrHigh(v, w) == v - Pow2(w)
  {
    if w > 0 { OrHighSubtracts(v / 2, w - 1); }
  }

  lemma {:induction false} TopBit(v: int, w: nat)
    requires w > 0 && 0 <= v < Pow2(w)
    ensures BitOf(v, w - 1) == 1 <==> v >= Pow2(w - 1)
  {
    if w > 1 { TopBit(v / 2, w - 1); }
  }

  lemma {:induction false} BitIsShr(v: int, j: nat)
    ensures BitOf(v, j) == Shr(v, j) % 2
    decreases j
  {
    if j > 0 {
      BitIsShr(v / 2, j - 1);
      ShrHalf(v, j - 1);
    }
  }

  lemma {:induction false} ShrHalf(v: int, j: nat)
    ensures Shr(v / 2, j) == Shr(v, j + 1)
  {
    if j > 0 { ShrHalf(v, j - 1); }
  }

  // ---------------------------------------------------------------- remainders

  /** The low w bits are the remainder modulo 2^w. */
  lemma {:induction false} LowBitsIsRemainder(v: int, w: nat)
    ensures 0 <= LowBits(v, w) < Pow2(w)
    ensures exists q: int :: v == q * Pow2(w) + LowBits(v, w)
    decreases w
  {
    if w == 0 {
      assert v == v * Pow2(0) + LowBits(v, 0);
    } else {
      LowBitsIsRemainder(v / 2, w - 1);
      var q: int :| v / 2 == q * Pow2(w - 1) + LowBits(v / 2, w - 1);
      assert q * Pow2(w) == 2 * (q * Pow2(w - 1));
      assert v == q * Pow2(w) + LowBits(v, w);
    }
  }

  lemma RemainderUnique(a: int, b: int, q: int, m: int)
    requires m > 0 && 0 <= a < m && 0 <= b < m && a - b == q * m
    ensures a == b
  {
  }

  lemma ModShift(x: int, q: int, m: int)
    requires m > 0
    ensures (x + q * m) % m == x % m
  {
    var a, b := (x + q * m) % m, x % m;
    var k := x / m + q - (x + q * m) / m;
    assert x == (x / m) * m + b && x + q * m == ((x + q * m) / m) * m + a;
    assert a - b == k * m by {
      assert (x / m + q - (x + q * m) / m) * m == (x / m) * m + q * m - ((x + q * m) / m) * m;
    }
    RemainderUnique(a, b, k, m);
  }

  lemma {:induction false} LowBitsMod(v: int, w: nat)
    ensures LowBits(v, w) == v % Pow2(w)
  {
    LowBitsIsRemainder(v, w);
    var q: int :| v == q * Pow2(w) + LowBits(v, w);
    RemainderIs(v, LowBits(v, w), q, Pow2(w));
  }

  lemma RemainderIs(v: int, a: int, q: int, m: int)
    requires m > 0 && 0 <= a < m && v == q * m + a
    ensures v % m == a
  {
    ModShift(a, q, m);
    SmallMod(a, m);
    assert v == a + q * m;
  }

  lemma SmallMod(a: int, m: int)
    requires 0 <= a < m
    ensures a % m == a
  {
  }

  /** 64-bit wrap-around is invisible modulo 2^w for every width up to 64. */
  lemma {:induction false} Wrap64Mod(x: int, w: nat)
    requires w <= 64
    ensures Wrap64(x) % Pow2(w) == x % Pow2(w)
  {
    Pow2Of64();
    Pow2Adds(64 - w, w);
    Wrap64IsRemainder(x);
    var q := if x % TWO_64 >= TWO_63 then -(x / TWO_64) - 1 else -(x / TWO_64);
    assert Wrap64(x) == x + q * TWO_64;
    MulAssoc(q, Pow2(64 - w), Pow2(w));
    ModShift(x, q * Pow2(64 - w), Pow2(w));
  }

  lemma MulAssoc(a: int, b: int, c: int)
    ensures a * (b * c) == (a * b) * c
  {
  }

  // ---------------------------------------------------------------- buffers as bit strings

  /** Bit n of a buffer, most significant bit of each byte first; zero beyond the end. */
  function BitAt(data: seq<byte>, n: nat): (b: int)
    ensures b == 0 || b == 1
  {
    if n / 8 < |data| then BitOf(data[n / 8], 7 - n % 8) else 0
  }

  /** The positions of the one bits. */
  ghost function Ones(data: seq<byte>): set<nat> {
    set n: nat | n < 8 * |data| && BitAt(data, n) == 1
  }

  lemma OnesIsBitAt(data: seq<byte>, n: nat)
    ensures n in Ones(data) <==> BitAt(data, n) == 1
  {
  }

  /** Setting or clearing bit n in its byte changes bit n only. */
  lemma {:induction false} ByteUpdate(data: seq<byte>, n: nat, b: byte, bit: int)
    requires n / 8 < |data|
    requires (bit == 1 && b == OrBit(data[n / 8], 7 - n % 8)) || (bit == 0 && b == ClearBit(data[n / 8], 7 - n % 8))
    ensures forall k: nat :: BitAt(data[n / 8 := b], k) == if k == n then bit else BitAt(data, k)
  {
    forall k: nat ensures BitAt(data[n / 8 := b], k) == if k == n then bit else BitAt(data, k) {
      if k / 8 == n / 8 {
        OrBitBits(data[n / 8], 7 - n % 8, 7 - k % 8);
        ClearBitBits(data[n / 8], 7 - n % 8, 7 - k % 8);
      }
    }
  }

  /** Appended zero bytes do not change the bit string. */
  lemma PaddingKeepsBits(data: seq<byte>, longer: seq<byte>)
    requires |data| <= |longer| && longer[..|data|] == data
    requires forall i | |data| <= i < |longer| :: longer[i] == 0
    ensures forall n: nat :: BitAt(longer, n) == BitAt(data, n)
    ensures Ones(longer) == Ones(data)
  {
    forall n: nat ensures BitAt(longer, n) == BitAt(data, n) {
      if n / 8 < |data| {
        assert longer[n / 8] == longer[..|data|][n / 8];
      } else {
        ZeroHasNoBits(7 - n % 8);
      }
    }
    assert forall n: nat :: n in Ones(longer) <==> n in Ones(data);
  }

  lemma {:induction false} ZeroHasNoBits(j: nat)
    ensures BitOf(0, j) == 0
  {
    if j > 0 { ZeroHasNoBits(j - 1); }
  }
}
