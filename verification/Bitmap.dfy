/** SETBIT, GETBIT, BITCOUNT and BITPOS on the same buffers as BITFIELD. */
module Bitmap {
  import opened Basics
  import opened Bits
  import BitField

  // ---------------------------------------------------------------- single bits

  method GetBit(data: array<byte>, offset: nat) returns (r: int)
    ensures r == BitAt(data[..], offset)
  {
    var byteOffset := offset / 8;
    if data.Length <= byteOffset { return 0; }
    return BitOf(data[byteOffset], 7 - offset % 8);
  }

  /** Any value other than 1 clears the bit. */
  method SetBit(initial: array<byte>, offset: nat, value: int) returns (data: array<byte>, oldBit: int)
    modifies initial
    ensures oldBit == BitAt(old(initial[..]), offset)
    ensures Ones(data[..])
         == if value == 1 then old(Ones(initial[..])) + {offset} else old(Ones(initial[..])) - {offset}
    ensures data.Length == if initial.Length <= offset / 8 then offset / 8 + 1 else initial.Length
  {
    var byteOffset := offset / 8;
    ghost var start := initial[..];
    data := initial;
    if data.Length <= byteOffset {
      data := BitField.Grow(data, byteOffset + 1);
    }
    ghost var before := data[..];
    assert Ones(before) == Ones(start);
    OnesIsBitAt(before, offset);
    OnesIsBitAt(start, offset);
    var bitOffset := 7 - offset % 8;
    oldBit := BitOf(data[byteOffset], bitOffset);
    ByteRange(data[byteOffset], bitOffset);
    if value == 1 {
      data[byteOffset] := OrBit(data[byteOffset], bitOffset);
    } else {
      data[byteOffset] := ClearBit(data[byteOffset], bitOffset);
    }
    assert data[..] == before[offset / 8 := data[byteOffset]];
    OneBitChanged(before, data[..], offset, data[byteOffset], if value == 1 then 1 else 0);
  }

  lemma {:induction false} OneBitChanged(before: seq<byte>, after: seq<byte>, offset: nat, b: byte, bit: int)
    requires offset / 8 < |before| && after == before[offset / 8 := b]
    requires (bit == 1 && b == OrBit(before[offset / 8], 7 - offset % 8))
          || (bit == 0 && b == ClearBit(before[offset / 8], 7 - offset % 8))
    ensures Ones(after) == if bit == 1 then Ones(before) + {offset} else Ones(before) - {offset}
  {
    ByteUpdate(before, offset, b, bit);
    forall n: nat ensures n in Ones(after) <==> if n == offset then bit == 1 else n in Ones(before) {
      OnesIsBitAt(after, n);
      OnesIsBitAt(before, n);
      assert BitAt(after, n) == if n == offset then bit else BitAt(before, n);
    }
  }

  /** SETBIT is the unsigned width-1 SET of BITFIELD: same reply, same bit string, same length. */
  lemma SetBitIsBitFieldSet(data: seq<byte>, offset: nat, value: int)
    requires value == 0 || value == 1
    ensures var op := BitField.Op(BitField.Set, false, 1, offset, value, BitField.Wrap);
            var step := BitField.ExactStep(Ones(data), op);
            && step.reply == Some(Some(BitAt(data, offset)))
            && step.ones == (if value == 1 then Ones(data) + {offset} else Ones(data) - {offset})
            && BitField.NeededBytes(op) == offset / 8 + 1
  {
    OnesIsBitAt(data, offset);
    assert BitField.Field(Ones(data), offset, 1) == BitAt(data, offset);
    assert Pow2(1) == 2;
    assert BitField.Stored(Ones(data), offset, 1, value)
        == (if value == 1 then Ones(data) + {offset} else Ones(data) - {offset}) by {
      forall n: nat ensures BitField.Written(offset, 1, value, n) <==> n == offset && value == 1 {}
    }
  }

  /** GETBIT is the unsigned width-1 GET. */
  lemma GetBitIsBitFieldGet(data: seq<byte>, offset: nat)
    ensures BitField.ExactStep(Ones(data), BitField.Op(BitField.Get, false, 1, offset, 0, BitField.Wrap)).reply
         == Some(Some(BitAt(data, offset)))
  {
    OnesIsBitAt(data, offset);
    assert BitField.Field(Ones(data), offset, 1) == BitAt(data, offset);
  }

  // ---------------------------------------------------------------- ranges

  /** The one positions from lo to hi, both included. */
  ghost function OnesIn(data: seq<byte>, lo: int, hi: int): set<nat> {
    set n: nat | n in Ones(data) && lo <= n <= hi
  }

  lemma OnesInAppend(data: seq<byte>, lo: int, hi: nat)
    requires lo <= hi
    ensures |OnesIn(data, lo, hi)| == |OnesIn(data, lo, hi - 1)| + BitAt(data, hi)
  {
    OnesIsBitAt(data, hi);
    if BitAt(data, hi) == 1 {
      assert OnesIn(data, lo, hi) == OnesIn(data, lo, hi - 1) + {hi};
    } else {
      assert OnesIn(data, lo, hi) == OnesIn(data, lo, hi - 1);
    }
  }

  lemma OnesInPrepend(data: seq<byte>, lo: nat, hi: int)
    requires lo <= hi
    ensures |OnesIn(data, lo, hi)| == BitAt(data, lo) + |OnesIn(data, lo + 1, hi)|
  {
    OnesIsBitAt(data, lo);
    if BitAt(data, lo) == 1 {
      assert OnesIn(data, lo, hi) == {lo} + OnesIn(data, lo + 1, hi);
    } else {
      assert OnesIn(data, lo, hi) == OnesIn(data, lo + 1, hi);
    }
  }

  lemma OnesInJoin(data: seq<byte>, lo: int, mid: int, hi: int)
    requires lo <= mid <= hi + 1
    ensures |OnesIn(data, lo, hi)| == |OnesIn(data, lo, mid - 1)| + |OnesIn(data, mid, hi)|
  {
    assert OnesIn(data, lo, hi) == OnesIn(data, lo, mid - 1) + OnesIn(data, mid, hi);
    assert OnesIn(data, lo, mid - 1) !! OnesIn(data, mid, hi);
  }

  // ---------------------------------------------------------------- BITCOUNT

  /** How many of the k low bits are one. */
  function CountLow(b: int, k: nat): nat {
    if k == 0 then 0 else CountLow(b, k - 1) + BitOf(b, k - 1)
  }

  /** The ones of a byte are the ones among its eight positions. */
  lemma {:induction false} ByteOnes(data: seq<byte>, i: nat, k: nat)
    requires i < |data| && k <= 8
    ensures |OnesIn(data, 8 * i + 8 - k, 8 * i + 7)| == CountLow(data[i], k)
  {
    if k == 0 {
      assert OnesIn(data, 8 * i + 8, 8 * i + 7) == {};
    } else {
      ByteOnes(data, i, k - 1);
      OnesInPrepend(data, 8 * i + 8 - k, 8 * i + 7);
      assert (8 * i + 8 - k) / 8 == i && 7 - (8 * i + 8 - k) % 8 == k - 1;
    }
  }

  lemma {:induction false} NoMoreOnes(b: int, m: nat, k: nat)
    requires Shr(b, m) == 0 && m <= k
    ensures CountLow(b, k) == CountLow(b, m)
    decreases k
  {
    if m < k {
      NoMoreOnes(b, m, k - 1);
      ShrStaysZero(b, m, k - 1);
      BitIsShr(b, k - 1);
    }
  }

  lemma {:induction false} ShrStaysZero(b: int, m: nat, k: nat)
    requires Shr(b, m) == 0 && m <= k
    ensures Shr(b, k) == 0
    decreases k
  {
    if m < k { ShrStaysZero(b, m, k - 1); }
  }

  lemma {:induction false} ShrBelow(b: nat, m: nat, w: nat)
    requires b < Pow2(w) && m <= w
    ensures 0 <= Shr(b, m) < Pow2(w - m)
  {
    if m > 0 {
      ShrBelow(b, m - 1, w);
      assert Pow2(w - (m - 1)) == 2 * Pow2(w - m);
    }
  }

  /** The shift-and-add loop over one byte. */
  method PopCount(b0: byte) returns (count: nat)
    ensures count == CountLow(b0, 8)
  {
    count := 0;
    var b: int := b0;
    ghost var m: nat := 0;
    Pow2Of64();
    while b != 0
      invariant m <= 8 && b == Shr(b0, m) && count == CountLow(b0, m)
      decreases 8 - m
    {
      BitIsShr(b0, m);
      ShrBelow(b0, m, 8);
      count := count + b % 2;
      b := b / 2;
      m := m + 1;
    }
    NoMoreOnes(b0, m, 8);
  }

  /** The bits that a pair of ends selects. */
  function Selected(length: nat, start: int, end: int, useBit: bool): Bounds {
    if useBit then Normalised(start, end, 8 * length)
    else
      var bytes := Normalised(start, end, length);
      Bounds(8 * bytes.lo, 8 * bytes.hi + 7)
  }

  ghost function Counted(data: seq<byte>, start: int, end: int, useBit: bool): nat {
    var r := Selected(|data|, start, end, useBit);
    |OnesIn(data, r.lo, r.hi)|
  }

  method BitCount(data: array<byte>, start: int, end: int, useBit: bool) returns (count: nat)
    ensures count == Counted(data[..], start, end, useBit)
  {
    if data.Length == 0 {
      assert Ones(data[..]) == {};
      return 0;
    }
    if useBit {
      count := CountBits(data, Normalised(start, end, 8 * data.Length));
    } else {
      count := CountBytes(data, Normalised(start, end, data.Length));
    }
  }

  method CountBits(data: array<byte>, r: Bounds) returns (count: nat)
    requires 0 <= r.lo && r.hi < 8 * data.Length
    ensures count == |OnesIn(data[..], r.lo, r.hi)|
  {
    count := 0;
    if r.lo > r.hi {
      assert OnesIn(data[..], r.lo, r.hi) == {};
      return;
    }
    var i := r.lo;
    assert OnesIn(data[..], r.lo, i - 1) == {};
    while i <= r.hi
      invariant r.lo <= i <= r.hi + 1
      invariant count == |OnesIn(data[..], r.lo, i - 1)|
    {
      OnesInAppend(data[..], r.lo, i);
      if BitOf(data[i / 8], 7 - i % 8) != 0 {
        count := count + 1;
      }
      i := i + 1;
    }
  }

  method CountBytes(data: array<byte>, r: Bounds) returns (count: nat)
    requires 0 <= r.lo && r.hi < data.Length
    ensures count == |OnesIn(data[..], 8 * r.lo, 8 * r.hi + 7)|
  {
    count := 0;
    if r.lo > r.hi {
      assert OnesIn(data[..], 8 * r.lo, 8 * r.hi + 7) == {};
      return;
    }
    var i := r.lo;
    assert OnesIn(data[..], 8 * r.lo, 8 * i - 1) == {};
    while i <= r.hi
      invariant r.lo <= i <= r.hi + 1
      invariant count == |OnesIn(data[..], 8 * r.lo, 8 * i - 1)|
    {
      var ones := PopCount(data[i]);
      ByteOnes(data[..], i, 8);
      OnesInJoin(data[..], 8 * r.lo, 8 * i, 8 * i + 7);
      count := count + ones;
      i := i + 1;
    }
  }

  /** Counting bytes s..e is counting bits 8s..8e+7, for every pair of signed ends. */
  lemma ByteRangeIsBitRange(data: seq<byte>, s: int, e: int)
    ensures Counted(data, s, e, false) == Counted(data, 8 * s, 8 * e + 7, true)
  {
    var bytes, bits := Selected(|data|, s, e, false), Selected(|data|, 8 * s, 8 * e + 7, true);
    assert OnesIn(data, bytes.lo, bytes.hi) == OnesIn(data, bits.lo, bits.hi);
  }

  /** How many places an end can name. */
  function Places(length: nat, useBit: bool): int { if useBit then 8 * length else length }

  /** The first bit of a place. */
  function BitOfPlace(place: int, useBit: bool): int { if useBit then place else 8 * place }

  /** What a pair of ends selects, told without its arithmetic: inside the string the bits from start to
      end; a negative end in the string is the place counted from the end; a start before the string is its
      first place and an end past it its last; and otherwise nothing. */
  lemma SelectedEnds(length: nat, start: int, end: int, useBit: bool)
    ensures var n, r := Places(length, useBit), Selected(length, start, end, useBit);
            && (0 <= start <= end < n ==> r == Bounds(BitOfPlace(start, useBit), BitOfPlace(end + 1, useBit) - 1))
            && (0 <= end < start || start >= n || end < -n ==> 0 <= r.lo && r.lo > r.hi)
            && (-n <= start < 0 ==> r == Selected(length, n + start, end, useBit))
            && (-n <= end < 0 ==> r == Selected(length, start, n + end, useBit))
            && (start < -n ==> r == Selected(length, 0, end, useBit))
            && (end >= n > 0 ==> r == Selected(length, start, n - 1, useBit))
  {
  }

  /** BITCOUNT counts the ones from start to end, with ends read like that. */
  lemma CountEnds(data: seq<byte>, start: int, end: int, useBit: bool)
    ensures var n, count := Places(|data|, useBit), Counted(data, start, end, useBit);
            && (0 <= start <= end < n ==>
                  var lo, hi := BitOfPlace(start, useBit), BitOfPlace(end + 1, useBit);
                  count == |set p: nat | p in Ones(data) && lo <= p < hi|)
            && (0 <= end < start || start >= n || end < -n ==> count == 0)
            && (-n <= start < 0 ==> count == Counted(data, n + start, end, useBit))
            && (-n <= end < 0 ==> count == Counted(data, start, n + end, useBit))
            && (start < -n ==> count == Counted(data, 0, end, useBit))
            && (end >= n > 0 ==> count == Counted(data, start, n - 1, useBit))
  {
    var n, r := Places(|data|, useBit), Selected(|data|, start, end, useBit);
    SelectedEnds(|data|, start, end, useBit);
    if 0 <= start <= end < n {
      assert OnesIn(data, r.lo, r.hi)
          == set p: nat | p in Ones(data) && BitOfPlace(start, useBit) <= p < BitOfPlace(end + 1, useBit);
    }
    if r.lo > r.hi { assert OnesIn(data, r.lo, r.hi) == {}; }
  }

  /** 0..-1 counts all ones. */
  lemma CountAll(data: seq<byte>, useBit: bool)
    ensures Counted(data, 0, -1, useBit) == |Ones(data)|
  {
    var r := Selected(|data|, 0, -1, useBit);
    assert OnesIn(data, r.lo, r.hi) == Ones(data);
  }

  // ---------------------------------------------------------------- BITPOS

  /** r is the first position in lo..hi that holds `bit`, or -1 if there is none. */
  predicate FirstIn(data: seq<byte>, bit: int, lo: nat, hi: int, r: int) {
    if r == -1 then forall n: nat | lo <= n <= hi :: BitAt(data, n) != bit
    else lo <= r <= hi && BitAt(data, r) == bit && forall n: nat | lo <= n < r :: BitAt(data, n) != bit
  }

  method PosInBits(data: array<byte>, bit: int, r: Bounds) returns (pos: int)
    requires 0 <= r.lo && r.hi < 8 * data.Length
    ensures FirstIn(data[..], bit, r.lo, r.hi, pos)
  {
    var i := r.lo;
    while i <= r.hi
      invariant r.lo <= i
      invariant forall n: nat | r.lo <= n < i :: BitAt(data[..], n) != bit
    {
      assert BitAt(data[..], i) == BitOf(data[i / 8], 7 - i % 8);
      if BitOf(data[i / 8], 7 - i % 8) == bit { return i; }
      i := i + 1;
    }
    return -1;
  }

  method PosInBytes(data: array<byte>, bit: int, r: Bounds) returns (pos: int)
    requires 0 <= r.lo && r.hi < data.Length
    ensures FirstIn(data[..], bit, 8 * r.lo, 8 * r.hi + 7, pos)
  {
    var i := r.lo;
    while i <= r.hi
      invariant r.lo <= i
      invariant forall n: nat | 8 * r.lo <= n < 8 * i :: BitAt(data[..], n) != bit
    {
      var j := 7;
      while j >= 0
        invariant -1 <= j <= 7
        invariant forall n: nat | 8 * r.lo <= n < 8 * i + 7 - j :: BitAt(data[..], n) != bit
      {
        var at := 8 * i + (7 - j);
        assert at / 8 == i && 7 - at % 8 == j;
        assert BitAt(data[..], at) == BitOf(data[i], j);
        if BitOf(data[i], j) == bit { return at; }
        j := j - 1;
      }
      i := i + 1;
    }
    return -1;
  }

  /** For bit 1 the answer is the first one in range, or -1.  For bit 0 an empty buffer answers 0, and
      a byte range without a zero that ends before the last byte answers the position after its end
      instead of -1.  An empty range is such a range; when its end lies before the buffer the answer
      is zero or negative. */
  predicate PosIs(data: seq<byte>, bit: int, start: int, end: int, useBit: bool, pos: int) {
    var r := Selected(|data|, start, end, useBit);
    if bit == 0 && data == [] then pos == 0
    else if bit == 0 && !useBit && r.hi < 8 * |data| - 1 && FirstIn(data, 0, r.lo, r.hi, -1) then pos == r.hi + 1
    else FirstIn(data, bit, r.lo, r.hi, pos)
  }

  method BitPos(data: array<byte>, bit: int, start: int, end: int, useBit: bool) returns (pos: int)
    requires bit == 0 || bit == 1
    ensures PosIs(data[..], bit, start, end, useBit, pos)
  {
    if data.Length == 0 {
      assert forall n: nat :: BitAt(data[..], n) == 0;
      return if bit == 0 then 0 else -1;
    }
    if useBit {
      pos := PosInBits(data, bit, Normalised(start, end, 8 * data.Length));
      return;
    }
    var r := Normalised(start, end, data.Length);
    pos := PosInBytes(data, bit, r);
    if pos == -1 && bit == 0 && r.hi < data.Length - 1 {
      return (r.hi + 1) * 8;
    }
  }

  /** BITPOS searches from start to end, with ends read like that. */
  lemma PosEnds(data: seq<byte>, bit: int, start: int, end: int, useBit: bool, pos: int)
    requires PosIs(data, bit, start, end, useBit, pos)
    ensures var n := Places(|data|, useBit);
            && (-n <= start < 0 ==> PosIs(data, bit, n + start, end, useBit, pos))
            && (-n <= end < 0 ==> PosIs(data, bit, start, n + end, useBit, pos))
            && (start < -n ==> PosIs(data, bit, 0, end, useBit, pos))
            && (end >= n > 0 ==> PosIs(data, bit, start, n - 1, useBit, pos))
            && (bit == 1 && (0 <= end < start || start >= n || end < -n) ==> pos == -1)
  {
    SelectedEnds(|data|, start, end, useBit);
  }

  /** Inside the string its answer is the first position that holds the bit; failing that, -1, or for a zero
      among bytes that end before the last the position after them. */
  lemma PosInside(data: seq<byte>, bit: int, start: int, end: int, useBit: bool, pos: int)
    requires (bit == 0 || bit == 1) && 0 <= start <= end < Places(|data|, useBit)
    requires PosIs(data, bit, start, end, useBit, pos)
    ensures var lo, hi := BitOfPlace(start, useBit), BitOfPlace(end + 1, useBit);
            || (lo <= pos < hi && BitAt(data, pos) == bit && forall n: nat | lo <= n < pos :: BitAt(data, n) != bit)
            || ((forall n: nat | lo <= n < hi :: BitAt(data, n) != bit)
                && pos == if bit == 0 && !useBit && end < |data| - 1 then hi else -1)
  {
    SelectedEnds(|data|, start, end, useBit);
  }
}
