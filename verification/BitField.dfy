/** BITFIELD: 64-bit arithmetic on a growing byte buffer against exact integers on an
    infinite bit string.

    `Exact*` is the meaning: unbounded integers and the set of one positions.  The methods
    follow the source, with every 64-bit wrap-around written out.
 */
module BitField {
  import opened Basics
  import opened Bits

  datatype Mode = Wrap | Sat | Fail
  datatype Kind = Get | Set | IncrBy | Other

  /** One parsed sub-command.  `width` is the number in the encoding as the client wrote it. */
  datatype Op = Op(kind: Kind, signed: bool, width: int, offset: nat, value: int64, mode: Mode)
  {
    /** Widths outside 1..64 fall back to 8. */
    function Width(): (w: nat)
      ensures 1 <= w <= 64
    {
      if width <= 0 || width > 64 then 8 else width
    }

    /** i1..i64 and u1..u63. */
    predicate Supported() { Width() == 64 ==> signed }
  }

  // ---------------------------------------------------------------- exact meaning

  /** The w bits from `off` as an unsigned number, most significant first. */
  ghost function Field(ones: set<nat>, off: nat, w: nat): nat {
    if w == 0 then 0 else 2 * Field(ones, off, w - 1) + if off + w - 1 in ones then 1 else 0
  }

  ghost function Value(ones: set<nat>, off: nat, w: nat, signed: bool): int {
    if signed && off in ones then Field(ones, off, w) - Pow2(w) else Field(ones, off, w)
  }

  function Min(w: nat, signed: bool): int
    requires w > 0
  {
    if signed then 0 - Pow2(w - 1) else 0
  }

  function Max(w: nat, signed: bool): int
    requires w > 0
  {
    if signed then Pow2(w - 1) - 1 else Pow2(w) - 1
  }

  predicate InRange(v: int, w: nat, signed: bool)
    requires w > 0
  {
    Min(w, signed) <= v <= Max(w, signed)
  }

  /** The value of the encoding that is congruent to v modulo 2^w. */
  function Wrapped(v: int, w: nat, signed: bool): int
    requires w > 0
  {
    var m := v % Pow2(w);
    if signed && m >= Pow2(w - 1) then m - Pow2(w) else m
  }

  /** The bit string after the low w bits of v were written at `off`. */
  ghost function Stored(ones: set<nat>, off: nat, w: nat, v: int): set<nat> {
    (set n: nat | n in ones && !(off <= n < off + w))
    + (set n: nat | n < off + w && Written(off, w, v, n))
  }

  /** Bit n lies in the field and v has a one there. */
  predicate Written(off: nat, w: nat, v: int, n: nat) {
    off <= n < off + w && BitOf(v, w - 1 - (n - off)) == 1
  }

  /** An exact result v under an overflow mode; None means the operation is refused. */
  function Resolved(v: int, w: nat, signed: bool, mode: Mode): Option<int>
    requires w > 0
  {
    if InRange(v, w, signed) then Some(v)
    else match mode
      case Wrap => Some(Wrapped(v, w, signed))
      case Sat => Some(if v > Max(w, signed) then Max(w, signed) else Min(w, signed))
      case Fail => None
  }

  /** Reply (absent for unknown sub-commands; None is the nil reply) and new bit string. */
  datatype Step = Step(reply: Option<Option<int>>, ones: set<nat>)

  ghost function ExactStep(ones: set<nat>, op: Op): Step {
    var w := op.Width();
    var current := Value(ones, op.offset, w, op.signed);
    match op.kind
    case Get => Step(Some(Some(current)), ones)
    case Set =>
      var v := Resolved(op.value, w, op.signed, op.mode);
      if v.None? then Step(Some(None), ones)
      else Step(Some(Some(current)), Stored(ones, op.offset, w, v.value))
    case IncrBy =>
      var v := Resolved(current + op.value, w, op.signed, op.mode);
      if v.None? then Step(Some(None), ones)
      else Step(Some(v), Stored(ones, op.offset, w, v.value))
    case Other => Step(None, ones)
  }

  datatype Run = Run(replies: seq<Option<int>>, ones: set<nat>)

  function Appended(replies: seq<Option<int>>, reply: Option<Option<int>>): seq<Option<int>> {
    if reply.None? then replies else replies + [reply.value]
  }

  ghost function ExactRun(ones: set<nat>, ops: seq<Op>): Run {
    if ops == [] then Run([], ones)
    else
      var before := ExactRun(ones, ops[..|ops| - 1]);
      var step := ExactStep(before.ones, ops[|ops| - 1]);
      Run(Appended(before.replies, step.reply), step.ones)
  }

  function NeededBytes(op: Op): nat {
    op.offset / 8 + (op.Width() + op.offset % 8 + 7) / 8
  }

  function GrownLength(len: nat, ops: seq<Op>): nat {
    if ops == [] then len
    else
      var before := GrownLength(len, ops[..|ops| - 1]);
      var needed := NeededBytes(ops[|ops| - 1]);
      if before < needed then needed else before
  }

  // ---------------------------------------------------------------- laws of fields

  lemma {:induction false} FieldRange(ones: set<nat>, off: nat, w: nat)
    ensures Field(ones, off, w) < Pow2(w)
    ensures w > 0 ==> (off in ones <==> Field(ones, off, w) >= Pow2(w - 1))
  {
    if w > 0 { FieldRange(ones, off, w - 1); }
  }

  lemma ValueInRange(ones: set<nat>, off: nat, w: nat, signed: bool)
    requires w > 0
    ensures InRange(Value(ones, off, w, signed), w, signed)
  {
    FieldRange(ones, off, w);
  }

  lemma {:induction false} FieldOfStored(ones: set<nat>, off: nat, w: nat, v: int, i: nat)
    requires i <= w
    ensures Field(Stored(ones, off, w, v), off, i) == LowBits(Shr(v, w - i), i)
  {
    if i > 0 {
      FieldOfStored(ones, off, w, v, i - 1);
      BitIsShr(v, w - i);
      assert Shr(v, w - i + 1) == Shr(v, w - i) / 2;
    }
  }

  /** Reading back a written field gives the one value of the encoding congruent to it. */
  lemma StoreThenLoad(ones: set<nat>, off: nat, w: nat, v: int, signed: bool)
    requires w > 0
    ensures Value(Stored(ones, off, w, v), off, w, signed) == Wrapped(v, w, signed)
  {
    var after := Stored(ones, off, w, v);
    FieldOfStored(ones, off, w, v, w);
    LowBitsMod(v, w);
    FieldRange(after, off, w);
  }

  lemma {:induction false} WrappedIsCongruent(v: int, w: nat, signed: bool)
    requires w > 0
    ensures InRange(Wrapped(v, w, signed), w, signed)
    ensures Wrapped(v, w, signed) % Pow2(w) == v % Pow2(w)
  {
    var p, m := Pow2(w), v % Pow2(w);
    RemainderIs(m, m, 0, p);
    RemainderIs(m - p, m, -1, p);
  }

  /** Two values of the same encoding that agree modulo 2^w are equal. */
  lemma {:induction false} CongruentIsUnique(a: int, b: int, w: nat, signed: bool)
    requires w > 0 && InRange(a, w, signed) && InRange(b, w, signed)
    requires a % Pow2(w) == b % Pow2(w)
    ensures a == b
  {
    var p := Pow2(w);
    SignedRemainder(a, w, signed);
    SignedRemainder(b, w, signed);
  }

  lemma {:induction false} SignedRemainder(a: int, w: nat, signed: bool)
    requires w > 0 && InRange(a, w, signed)
    ensures a % Pow2(w) == if a < 0 then a + Pow2(w) else a
    ensures Wrapped(a, w, signed) == a
  {
    var p := Pow2(w);
    if a < 0 {
      RemainderIs(a, a + p, -1, p);
    } else {
      RemainderIs(a, a, 0, p);
    }
  }

  lemma {:induction false} WrappedByRemainder(a: int, b: int, w: nat, signed: bool)
    requires w > 0 && a % Pow2(w) == b % Pow2(w)
    ensures Wrapped(a, w, signed) == Wrapped(b, w, signed)
  {
  }

  /** Only the remainder of the value matters to what is stored. */
  lemma {:induction false} StoredByRemainder(ones: set<nat>, off: nat, w: nat, a: int, b: int)
    requires a % Pow2(w) == b % Pow2(w)
    ensures Stored(ones, off, w, a) == Stored(ones, off, w, b)
  {
    LowBitsMod(a, w);
    LowBitsMod(b, w);
    forall n: nat ensures Written(off, w, a, n) == Written(off, w, b, n) {
      if off <= n < off + w {
        LowBitsBits(a, w, w - 1 - (n - off));
        LowBitsBits(b, w, w - 1 - (n - off));
      }
    }
  }

  lemma {:induction false} LowBitsBits(v: int, w: nat, j: nat)
    requires j < w
    ensures BitOf(LowBits(v, w), j) == BitOf(v, j)
    decreases w
  {
    LowBitsHalves(v, w);
    if j > 0 { LowBitsBits(v / 2, w - 1, j - 1); }
  }

  lemma LowBitsHalves(v: int, w: nat)
    requires w > 0
    ensures LowBits(v, w) / 2 == LowBits(v / 2, w - 1) && LowBits(v, w) % 2 == v % 2
  {
  }

  // ---------------------------------------------------------------- bounds and overflow

  /** int64(1) << n in 64 bits. */
  function ShiftOne(n: nat): int64 {
    if n < 63 then Pow2Below63(n); Pow2(n) else if n == 63 then MIN_INT64 else 0
  }

  lemma {:induction false} Pow2Below63(n: nat)
    requires n < 63
    ensures 2 * Pow2(n) <= TWO_63
  {
    Pow2Of64();
    Pow2Monotone(n + 1, 63);
  }

  function BitfieldBounds(w: nat, signed: bool): (int64, int64)
    requires 1 <= w <= 64
  {
    if signed then (Wrap64(0 - ShiftOne(w - 1)), Wrap64(ShiftOne(w - 1) - 1))
    else (0, Wrap64(ShiftOne(w) - 1))
  }

  /** The bounds computed in 64 bits are the exact ones, even where the shift itself wraps. */
  lemma BoundsAreExact(w: nat, signed: bool)
    requires 1 <= w <= 64 && (w == 64 ==> signed)
    ensures BitfieldBounds(w, signed) == (Min(w, signed), Max(w, signed))
  {
    Pow2Of64();
    if w <= 63 { Pow2Below63(w - 1); }
    if w < 63 { Pow2Below63(w); }
  }

  function ResolveOverflow(mode: Mode, high: bool, low: bool, wrapped: int64, min: int64, max: int64): Option<int64> {
    if !high && !low then Some(wrapped)
    else match mode
      case Sat => if high then Some(max) else Some(min)
      case Fail => None
      case Wrap => Some(wrapped)
  }

  /** The loops reach the congruent value of the encoding, also where `max*2` wraps. */
  method WrapBitfield(v0: int64, w: nat, signed: bool) returns (r: int64)
    requires 1 <= w <= 64 && (w == 64 ==> signed)
    ensures r == Wrapped(v0, w, signed)
  {
    if w >= 64 {
      Pow2Of64();
      SignedRemainder(v0, w, signed);
      return v0;
    }
    if signed {
      r := WrapSigned(v0, w);
    } else {
      LowBitsMod(v0, w);
      LowBitsIsRemainder(v0, w);
      Pow2Of64();
      Pow2Monotone(w, 63);
      r := LowBits(v0, w);
    }
  }

  /** Moving by 2*max until the value lies in [-max, max), in exact arithmetic. */
  function Settled(v: int, max: nat): int
    requires max > 0
    decreases if v >= max then v - max + 1 else if v < -(max as int) then -(max as int) - v else 0
  {
    if v >= max then Settled(v - 2 * max, max)
    else if v < -(max as int) then Settled(v + 2 * max, max)
    else v
  }

  lemma {:induction false} SettledIsWrapped(v: int, w: nat)
    requires w >= 1
    ensures Settled(v, Pow2(w - 1)) == Wrapped(v, w, true)
    decreases var max := Pow2(w - 1) as int; if v >= max then v - max + 1 else if v < -max then -max - v else 0
  {
    var max := Pow2(w - 1);
    if v >= max {
      SettledIsWrapped(v - Pow2(w), w);
      ModShift(v, -1, Pow2(w));
    } else if v < -(max as int) {
      SettledIsWrapped(v + Pow2(w), w);
      ModShift(v, 1, Pow2(w));
    } else {
      SignedRemainder(v, w, true);
    }
  }

  method WrapSigned(v0: int64, w: nat) returns (v: int64)
    requires 1 <= w <= 63
    ensures v == Wrapped(v0, w, true)
  {
    Pow2Below63(w - 1);
    v := WrapLoops(v0, ShiftOne(w - 1));
    SettledIsWrapped(v0, w);
  }

  method WrapLoops(v0: int64, max: int64) returns (v: int64)
    requires 0 < 2 * max <= TWO_63
    ensures v == Settled(v0, max)
  {
    v := v0;
    var min := Wrap64(0 - max);
    assert min == 0 - max;
    while v >= max
      invariant Settled(v, max) == Settled(v0, max)
      decreases v
    {
      WrapCancels(v, max * 2);
      v := Wrap64(v - Wrap64(max * 2));
    }
    while v < min
      invariant v < max && Settled(v, max) == Settled(v0, max)
      decreases max - v
    {
      WrapCancels(v, max * 2);
      assert Wrap64(v + Wrap64(max * 2)) == v + max * 2;
      v := Wrap64(v + Wrap64(max * 2));
    }
  }

  /** Subtracting or adding a wrapped p still moves by p when the result fits;
      at width 63 the `max*2` of the source is such a p. */
  lemma WrapCancels(v: int64, p: int)
    requires 0 < p <= TWO_63
    ensures MIN_INT64 <= v - p ==> Wrap64(v - Wrap64(p)) == v - p
    ensures v + p <= MAX_INT64 ==> Wrap64(v + Wrap64(p)) == v + p
  {
  }

  // ---------------------------------------------------------------- reading and writing a field

  /** result |= 1 << j in 64 bits; bit 63 is the sign. */
  function OrShift(v: int, j: nat): int {
    if j == 63 then OrHigh(v, j) else OrBit(v, j)
  }

  /** Below bit j+1 nothing is set yet, so setting bit j adds 2^j, wrapping at the sign bit. */
  lemma OrShiftAdds(f: nat, j: nat)
    requires j <= 63 && f * Pow2(j + 1) < TWO_64
    ensures OrShift(Wrap64(f * Pow2(j + 1)), j) == Wrap64(f * Pow2(j + 1) + Pow2(j))
  {
    if j == 63 {
      OrSign(f, j);
    } else if f * Pow2(j + 1) < TWO_63 {
      OrBelowSign(f, j);
    } else {
      OrAboveSign(f, j);
    }
    OrShiftCases(f * Pow2(j + 1), Pow2(j), j);
  }

  lemma OrShiftCases(x: nat, p: nat, j: nat)
    requires
      || (j == 63 && x == 0 && p == TWO_63 && OrHigh(x, j) == MIN_INT64)
      || (j < 63 && x + p < TWO_63 && OrBit(x, j) == x + p)
      || (j < 63 && TWO_63 <= x && x + p < TWO_64 && OrBit(x - TWO_64, j) == x - TWO_64 + p)
    ensures OrShift(Wrap64(x), j) == Wrap64(x + p)
  {
  }

  lemma OrSign(f: nat, j: nat)
    requires j == 63 && f * Pow2(j + 1) < TWO_64
    ensures f * Pow2(j + 1) == 0
    ensures Pow2(j) == TWO_63 && OrHigh(0, j) == MIN_INT64
  {
    Pow2Of64();
    assert f == 0;
    OrHighSubtracts(0, j);
  }

  lemma OrBelowSign(f: nat, j: nat)
    requires j < 63 && f * Pow2(j + 1) < TWO_63
    ensures f * Pow2(j + 1) + Pow2(j) < TWO_63
    ensures OrBit(f * Pow2(j + 1), j) == f * Pow2(j + 1) + Pow2(j)
  {
    Pow2Of64();
    Pow2Adds(62 - j, j + 1);
    StepBelow(f, Pow2(62 - j), Pow2(j + 1));
    BitOfMultiple(f, j);
    OrBitAdds(f * Pow2(j + 1), j);
  }

  lemma OrAboveSign(f: nat, j: nat)
    requires j < 63 && TWO_63 <= f * Pow2(j + 1) < TWO_64
    ensures f * Pow2(j + 1) + Pow2(j) < TWO_64
    ensures OrBit(f * Pow2(j + 1) - TWO_64, j) == f * Pow2(j + 1) - TWO_64 + Pow2(j)
  {
    var a, m := Pow2(63 - j), Pow2(j + 1);
    assert a * m == TWO_64 by {
      Pow2Of64();
      Pow2Adds(63 - j, j + 1);
    }
    StepBelow(f, a, m);
    Distribute(f, a, m);
    BitOfMultiple(f - a, j);
    OrBitAdds(f * m - TWO_64, j);
  }

  lemma StepBelow(a: nat, b: nat, m: nat)
    requires m > 0 && a * m < b * m
    ensures a * m + m <= b * m
  {
    assert a < b by {
      if a >= b { MulMonotone(b, a, m); }
    }
    MulMonotone(a + 1, b, m);
    assert (a + 1) * m == a * m + m;
  }

  lemma MulMonotone(a: nat, b: nat, m: nat)
    requires a <= b
    ensures a * m <= b * m
  {
  }

  lemma Distribute(a: int, b: int, m: int)
    ensures (a - b) * m == a * m - b * m
  {
  }

  /** The first i of w bits, shifted into place, fit in 64 bits. */
  lemma PartialBelow(ones: set<nat>, off: nat, w: nat, i: nat)
    requires i < w <= 64
    ensures Field(ones, off, i) * Pow2(w - i) < TWO_64
  {
    FieldRange(ones, off, i);
    StrictMul(Field(ones, off, i), Pow2(i), Pow2(w - i));
    assert Pow2(i) * Pow2(w - i) <= TWO_64 by {
      Pow2Adds(i, w - i);
      var top := 64;
      Pow2Monotone(w, top);
      Pow2Of64();
    }
  }

  /** One more bit. */
  lemma PartialStep(ones: set<nat>, off: nat, w: nat, i: nat)
    requires i < w
    ensures Field(ones, off, i + 1) * Pow2(w - i - 1)
         == Field(ones, off, i) * Pow2(w - i) + if off + i in ones then Pow2(w - 1 - i) else 0
  {
    Doubling(Field(ones, off, i), Pow2(w - i - 1));
  }

  lemma Doubling(f: int, p: int)
    ensures (2 * f + 1) * p == f * (2 * p) + p
    ensures (2 * f) * p == f * (2 * p)
  {
  }

  lemma StrictMul(a: nat, b: nat, m: nat)
    requires a < b && m > 0
    ensures a * m < b * m
  {
  }

  /** The sign test and sign extension after the bits have been collected. */
  lemma {:induction false} SignExtends(ones: set<nat>, off: nat, w: nat, result: int)
    requires 1 <= w <= 64 && result == Wrap64(Field(ones, off, w))
    ensures BitOf(result, w - 1) == 1 <==> off in ones
    ensures w < 64 ==> result == Field(ones, off, w)
    ensures w < 64 && off in ones ==> OrHigh(result, w) == Field(ones, off, w) - Pow2(w)
    ensures w == 64 ==> result == Value(ones, off, w, true)
  {
    if w < 64 {
      NarrowSign(ones, off, w);
    } else {
      WideSign(ones, off, w);
    }
  }

  lemma {:induction false} NarrowSign(ones: set<nat>, off: nat, w: nat)
    requires 1 <= w < 64
    ensures Field(ones, off, w) < TWO_63
    ensures BitOf(Field(ones, off, w), w - 1) == 1 <==> off in ones
    ensures OrHigh(Field(ones, off, w), w) == Field(ones, off, w) - Pow2(w)
  {
    var f := Field(ones, off, w);
    Pow2Of64();
    Pow2Monotone(w, 63);
    FieldRange(ones, off, w);
    TopBit(f, w);
    OrHighSubtracts(f, w);
  }

  lemma {:induction false} WideSign(ones: set<nat>, off: nat, w: nat)
    requires w == 64
    ensures BitOf(Wrap64(Field(ones, off, w)), w - 1) == 1 <==> off in ones
    ensures Wrap64(Field(ones, off, w)) == Value(ones, off, w, true)
  {
    var f := Field(ones, off, w);
    Pow2Of64();
    FieldRange(ones, off, w);
    if f >= TWO_63 {
      NegativeTop(f - TWO_64, w - 1);
    } else {
      TopBit(f, w);
    }
  }

  lemma {:induction false} NegativeTop(v: int, j: nat)
    requires 0 - Pow2(j) <= v < 0
    ensures BitOf(v, j) == 1
    decreases j
  {
    if j > 0 { NegativeTop(v / 2, j - 1); }
  }

  /** What the loop holds after i bits. */
  ghost function Collected(ones: set<nat>, off: nat, w: nat, i: nat): int
    requires i <= w
  {
    Wrap64(Field(ones, off, i) * Pow2(w - i))
  }

  lemma CollectBit(ones: set<nat>, off: nat, w: nat, i: nat)
    requires i < w <= 64
    ensures Collected(ones, off, w, i + 1)
         == if off + i in ones then OrShift(Collected(ones, off, w, i), w - 1 - i) else Collected(ones, off, w, i)
  {
    PartialBelow(ones, off, w, i);
    PartialStep(ones, off, w, i);
    if off + i in ones { OrShiftAdds(Field(ones, off, i), w - 1 - i); }
  }

  lemma CollectBitAt(data: seq<byte>, off: nat, w: nat, i: nat)
    requires i < w <= 64
    ensures var collected := Collected(Ones(data), off, w, i);
            Collected(Ones(data), off, w, i + 1)
            == if BitAt(data, off + i) != 0 then OrShift(collected, w - 1 - i) else collected
  {
    CollectBit(Ones(data), off, w, i);
    OnesIsBitAt(data, off + i);
  }

  lemma {:induction false} CollectedEnds(ones: set<nat>, off: nat, w: nat)
    ensures Collected(ones, off, w, 0) == 0
    ensures Collected(ones, off, w, w) == Wrap64(Field(ones, off, w))
  {
  }

  lemma ValueFits(ones: set<nat>, off: nat, w: nat, signed: bool)
    requires 1 <= w <= 64
    ensures w < 64 || signed ==> MIN_INT64 <= Value(ones, off, w, signed) <= MAX_INT64
  {
    if w < 64 || signed {
      ValueInRange(ones, off, w, signed);
      BoundsAreExact(w, signed);
    }
  }

  /** Sign extension of the bits collected. */
  lemma {:induction false} Extracted(ones: set<nat>, off: nat, w: nat, signed: bool, result: int)
    requires 1 <= w <= 64 && result == Wrap64(Field(ones, off, w))
    ensures var r := if signed && BitOf(result, w - 1) != 0 && w < 64 then OrHigh(result, w) else result;
            MIN_INT64 <= r <= MAX_INT64 && (w < 64 || signed ==> r == Value(ones, off, w, signed))
  {
    SignExtends(ones, off, w, result);
    ValueFits(ones, off, w, signed);
  }

  /** Extracts a field; u64 comes out reinterpreted as a signed number. */
  method GetBitField(data: array<byte>, off: nat, w: nat, signed: bool) returns (r: int64)
    requires 1 <= w <= 64
    ensures w < 64 || signed ==> r == Value(Ones(data[..]), off, w, signed)
    ensures w == 64 && !signed ==> r == Wrap64(Field(Ones(data[..]), off, w))
  {
    ghost var ones := Ones(data[..]);
    var result := 0;
    var i := 0;
    CollectedEnds(ones, off, w);
    while i < w
      invariant 0 <= i <= w
      invariant result == Collected(ones, off, w, i)
    {
      CollectBitAt(data[..], off, w, i);
      var byteIdx := (off + i) / 8;
      var bitIdx := 7 - (off + i) % 8;
      if byteIdx < data.Length {
        if BitOf(data[byteIdx], bitIdx) != 0 {
          result := OrShift(result, w - 1 - i);
        }
      }
      i := i + 1;
    }
    Extracted(ones, off, w, signed, result);
    if signed && BitOf(result, w - 1) != 0 && w < 64 {
      result := OrHigh(result, w);
    }
    return result;
  }

  /** Bit n after the first `done` bits of the field have been written into a buffer of `len` bytes. */
  function BitAfter(before: seq<byte>, off: nat, w: nat, value: int, done: nat, n: nat): int
    requires done <= w
  {
    if off <= n < off + done && n / 8 < |before| then BitOf(value, w - 1 - (n - off)) else BitAt(before, n)
  }

  /** Writes the low w bits of value; bits outside the field, and any part of it beyond the buffer, stay. */
  method SetBitField(data: array<byte>, off: nat, w: nat, value: int64)
    requires 1 <= w <= 64
    modifies data
    ensures forall n: nat :: BitAt(data[..], n) == BitAfter(old(data[..]), off, w, value, w, n)
    ensures off + w <= 8 * data.Length ==> Ones(data[..]) == Stored(Ones(old(data[..])), off, w, value)
  {
    ghost var before := data[..];
    var i := 0;
    while i < w
      invariant 0 <= i <= w
      invariant forall n: nat :: BitAt(data[..], n) == BitAfter(before, off, w, value, i, n)
    {
      var byteIdx := (off + i) / 8;
      var bitIdx := 7 - (off + i) % 8;
      if byteIdx < data.Length {
        ghost var now := data[..];
        ByteRange(data[byteIdx], bitIdx);
        if BitOf(value, w - 1 - i) != 0 {
          data[byteIdx] := OrBit(data[byteIdx], bitIdx);
        } else {
          data[byteIdx] := ClearBit(data[byteIdx], bitIdx);
        }
        assert data[..] == now[(off + i) / 8 := data[byteIdx]];
        OneMoreBit(before, now, data[..], off, w, value, i);
      } else {
        forall n: nat ensures BitAt(data[..], n) == BitAfter(before, off, w, value, i + 1, n) {
          assert BitAt(data[..], n) == BitAfter(before, off, w, value, i, n);
        }
      }
      i := i + 1;
    }
    if off + w <= 8 * data.Length {
      StoredIsBitAfter(before, data[..], off, w, value);
    }
  }

  lemma OneMoreBit(before: seq<byte>, now: seq<byte>, after: seq<byte>, off: nat, w: nat, value: int, i: nat)
    requires i < w && |now| == |before| && (off + i) / 8 < |now|
    requires var was, j := now[(off + i) / 8], 7 - (off + i) % 8;
             var b := if BitOf(value, w - 1 - i) != 0 then OrBit(was, j) else ClearBit(was, j);
             0 <= b < 256 && after == now[(off + i) / 8 := b]
    requires forall n: nat :: BitAt(now, n) == BitAfter(before, off, w, value, i, n)
    ensures forall n: nat :: BitAt(after, n) == BitAfter(before, off, w, value, i + 1, n)
  {
    ByteUpdate(now, off + i, after[(off + i) / 8], BitOf(value, w - 1 - i));
    forall n: nat ensures BitAt(after, n) == BitAfter(before, off, w, value, i + 1, n) {
      assert BitAt(now, n) == BitAfter(before, off, w, value, i, n);
    }
  }

  lemma StoredIsBitAfter(before: seq<byte>, after: seq<byte>, off: nat, w: nat, value: int)
    requires |after| == |before| && off + w <= 8 * |before|
    requires forall n: nat :: BitAt(after, n) == BitAfter(before, off, w, value, w, n)
    ensures Ones(after) == Stored(Ones(before), off, w, value)
  {
  }

  // ---------------------------------------------------------------- the command

  datatype Overflow = Overflow(high: bool, low: bool)

  /** INCRBY's overflow flags, computed from the wrapped sum. */
  function IncrFlags(current: int64, delta: int64, min: int64, max: int64): Overflow {
    var sum := Wrap64(current + delta);
    var addOverflow := (delta > 0 && sum < current) || (delta < 0 && sum > current);
    Overflow((addOverflow && delta > 0) || (!addOverflow && sum > max),
             (addOverflow && delta < 0) || (!addOverflow && sum < min))
  }

  /** The flags tell exactly on which side the unbounded sum leaves the range,
      also when the 64-bit addition itself overflows. */
  lemma FlagsAreExact(current: int64, delta: int64, min: int64, max: int64)
    requires min <= current <= max
    ensures IncrFlags(current, delta, min, max) == Overflow(current + delta > max, current + delta < min)
  {
  }

  lemma ResolveIncr(current: int64, delta: int64, w: nat, signed: bool, mode: Mode, wrapped: int64)
    requires 1 <= w <= 64 && (w == 64 ==> signed) && InRange(current, w, signed)
    requires wrapped == Wrapped(Wrap64(current + delta), w, signed)
    ensures var (min, max) := BitfieldBounds(w, signed);
            var flags := IncrFlags(current, delta, min, max);
            ResolveOverflow(mode, flags.high, flags.low, wrapped, min, max)
              == Resolved(current + delta, w, signed, mode)
  {
    var (min, max) := BitfieldBounds(w, signed);
    BoundsAreExact(w, signed);
    FlagsAreExact(current, delta, min, max);
    Wrap64Mod(current + delta, w);
    WrappedByRemainder(Wrap64(current + delta), current + delta, w, signed);
    if InRange(current + delta, w, signed) { SignedRemainder(current + delta, w, signed); }
  }

  lemma ResolveSet(ones: set<nat>, off: nat, value: int64, w: nat, signed: bool, mode: Mode)
    requires 1 <= w <= 64 && (w == 64 ==> signed)
    ensures var (min, max) := BitfieldBounds(w, signed);
            var got := ResolveOverflow(mode, value > max, value < min, value, min, max);
            var want := Resolved(value, w, signed, mode);
            && got.None? == want.None?
            && (got.Some? ==> Stored(ones, off, w, got.value) == Stored(ones, off, w, want.value))
  {
    var (min, max) := BitfieldBounds(w, signed);
    BoundsAreExact(w, signed);
    WrappedIsCongruent(value, w, signed);
    StoredByRemainder(ones, off, w, value, Wrapped(value, w, signed));
  }

  /** One sub-command on a buffer that is already large enough. */
  method ApplyOp(value: array<byte>, op: Op) returns (reply: Option<Option<int>>, wrote: bool)
    requires op.Supported() && op.offset + op.Width() <= 8 * value.Length
    modifies value
    ensures ExactStep(old(Ones(value[..])), op) == Step(reply, Ones(value[..]))
    ensures !wrote ==> value[..] == old(value[..])
    ensures wrote <==> (op.kind.Set? || op.kind.IncrBy?) && reply != Some(None)
  {
    match op.kind {
      case Get =>
        var current := GetBitField(value, op.offset, op.Width(), op.signed);
        reply, wrote := Some(Some(current)), false;
      case Set => reply, wrote := ApplySet(value, op);
      case IncrBy => reply, wrote := ApplyIncrBy(value, op);
      case Other => reply, wrote := None, false;
    }
  }

  method ApplySet(value: array<byte>, op: Op) returns (reply: Option<Option<int>>, wrote: bool)
    requires op.kind.Set? && op.Supported() && op.offset + op.Width() <= 8 * value.Length
    modifies value
    ensures ExactStep(old(Ones(value[..])), op) == Step(reply, Ones(value[..]))
    ensures !wrote ==> value[..] == old(value[..])
    ensures wrote <==> reply != Some(None)
  {
    var w := op.Width();
    var (min, max) := BitfieldBounds(w, op.signed);
    var current := GetBitField(value, op.offset, w, op.signed);
    var stored := ResolveOverflow(op.mode, op.value > max, op.value < min, op.value, min, max);
    ResolveSet(Ones(value[..]), op.offset, op.value, w, op.signed, op.mode);
    if stored.None? {
      return Some(None), false;
    }
    SetBitField(value, op.offset, w, stored.value);
    return Some(Some(current)), true;
  }

  method ApplyIncrBy(value: array<byte>, op: Op) returns (reply: Option<Option<int>>, wrote: bool)
    requires op.kind.IncrBy? && op.Supported() && op.offset + op.Width() <= 8 * value.Length
    modifies value
    ensures ExactStep(old(Ones(value[..])), op) == Step(reply, Ones(value[..]))
    ensures !wrote ==> value[..] == old(value[..])
    ensures wrote <==> reply != Some(None)
  {
    var w := op.Width();
    var (min, max) := BitfieldBounds(w, op.signed);
    var current := GetBitField(value, op.offset, w, op.signed);
    ValueInRange(Ones(value[..]), op.offset, w, op.signed);
    var flags := IncrFlags(current, op.value, min, max);
    var wrapped := WrapBitfield(Wrap64(current + op.value), w, op.signed);
    var resolved := ResolveOverflow(op.mode, flags.high, flags.low, wrapped, min, max);
    ResolveIncr(current, op.value, w, op.signed, op.mode, wrapped);
    if resolved.None? {
      return Some(None), false;
    }
    SetBitField(value, op.offset, w, resolved.value);
    return Some(Some(resolved.value)), true;
  }

  /** A zero-extended copy. */
  method Grow(value: array<byte>, needed: nat) returns (grown: array<byte>)
    requires value.Length < needed
    ensures fresh(grown) && grown.Length == needed && Ones(grown[..]) == Ones(value[..])
  {
    grown := new byte[needed](_ => 0);
    var i := 0;
    while i < value.Length
      invariant 0 <= i <= value.Length
      invariant grown[..i] == value[..i]
      invariant forall k | i <= k < needed :: grown[k] == 0
    {
      grown[i] := value[i];
      i := i + 1;
    }
    assert grown[..][..value.Length] == value[..];
    PaddingKeepsBits(value[..], grown[..]);
  }

  /** The least number of bytes that holds the field. */
  lemma NeededIsLeast(op: Op)
    ensures op.offset + op.Width() <= 8 * NeededBytes(op) < op.offset + op.Width() + 8
  {
  }

  /** Operation i writes and is not refused. */
  ghost predicate AcceptedAt(ones: set<nat>, ops: seq<Op>, i: nat)
    requires i < |ops|
  {
    && (ops[i].kind.Set? || ops[i].kind.IncrBy?)
    && ExactStep(ExactRun(ones, ops[..i]).ones, ops[i]).reply != Some(None)
  }

  ghost predicate AcceptedBelow(ones: set<nat>, ops: seq<Op>, n: nat)
    requires n <= |ops|
  {
    exists i | 0 <= i < n :: AcceptedAt(ones, ops, i)
  }

  lemma AcceptedOneMore(ones: set<nat>, ops: seq<Op>, n: nat)
    requires n < |ops|
    ensures AcceptedBelow(ones, ops, n + 1) <==> AcceptedBelow(ones, ops, n) || AcceptedAt(ones, ops, n)
  {
    if AcceptedBelow(ones, ops, n) {
      var i :| 0 <= i < n && AcceptedAt(ones, ops, i);
      assert AcceptedAt(ones, ops, i) && i < n + 1;
    }
  }

  lemma {:induction false} RunOneMore(ones: set<nat>, len: nat, ops: seq<Op>, i: nat)
    requires i < |ops|
    ensures var before := ExactRun(ones, ops[..i]);
            var step := ExactStep(before.ones, ops[i]);
            ExactRun(ones, ops[..i + 1]) == Run(Appended(before.replies, step.reply), step.ones)
    ensures var before, needed := GrownLength(len, ops[..i]), NeededBytes(ops[i]);
            GrownLength(len, ops[..i + 1]) == if before < needed then needed else before
  {
    assert ops[..i + 1][..i] == ops[..i];
  }

  /** One sub-command, after the buffer has grown to hold its field. */
  method Turn(value: array<byte>, op: Op) returns (after: array<byte>, reply: Option<Option<int>>, wrote: bool)
    requires op.Supported()
    modifies value
    ensures after == value || fresh(after)
    ensures after.Length == if value.Length < NeededBytes(op) then NeededBytes(op) else value.Length
    ensures ExactStep(old(Ones(value[..])), op) == Step(reply, Ones(after[..]))
    ensures wrote <==> (op.kind.Set? || op.kind.IncrBy?) && reply != Some(None)
    ensures !wrote ==> Ones(after[..]) == old(Ones(value[..]))
  {
    after := value;
    var needed := NeededBytes(op);
    if value.Length < needed {
      after := Grow(value, needed);
    }
    NeededIsLeast(op);
    reply, wrote := ApplyOp(after, op);
  }

  /** Where the first i sub-commands have led. */
  ghost predicate SoFar(start: set<nat>, len: nat, ops: seq<Op>, i: nat, results: seq<Option<int>>,
                        ones: set<nat>, length: nat, modified: bool)
    requires i <= |ops|
  {
    && ExactRun(start, ops[..i]) == Run(results, ones)
    && length == GrownLength(len, ops[..i])
    && (modified <==> AcceptedBelow(start, ops, i))
    && (!modified ==> ones == start)
  }

  lemma NothingSoFar(start: set<nat>, len: nat, ops: seq<Op>)
    ensures SoFar(start, len, ops, 0, [], start, len, false)
  {
    assert ops[..0] == [];
  }

  lemma {:induction false} AllSoFar(start: set<nat>, len: nat, ops: seq<Op>, results: seq<Option<int>>,
                 ones: set<nat>, length: nat, modified: bool)
    requires SoFar(start, len, ops, |ops|, results, ones, length, modified)
    ensures ExactRun(start, ops) == Run(results, ones) && length == GrownLength(len, ops)
    ensures (modified <==> AcceptedBelow(start, ops, |ops|)) && (!modified ==> ones == start)
  {
    assert ops[..|ops|] == ops;
  }

  lemma SoFarStep(start: set<nat>, len: nat, ops: seq<Op>, i: nat, results: seq<Option<int>>,
                  ones: set<nat>, length: nat, modified: bool,
                  reply: Option<Option<int>>, ones': set<nat>, length': nat, wrote: bool)
    requires i < |ops| && SoFar(start, len, ops, i, results, ones, length, modified)
    requires ExactStep(ones, ops[i]) == Step(reply, ones')
    requires length' == if length < NeededBytes(ops[i]) then NeededBytes(ops[i]) else length
    requires wrote <==> (ops[i].kind.Set? || ops[i].kind.IncrBy?) && reply != Some(None)
    requires !wrote ==> ones' == ones
    ensures SoFar(start, len, ops, i + 1, Appended(results, reply), ones', length', modified || wrote)
  {
    RunOneMore(start, len, ops, i);
    AcceptedOneMore(start, ops, i);
  }

  /** One turn of the loop. */
  method Continue(ghost start: set<nat>, ghost len: nat, ops: seq<Op>, i: nat,
                  value: array<byte>, results: seq<Option<int>>, modified: bool)
    returns (after: array<byte>, results': seq<Option<int>>, modified': bool)
    requires i < |ops| && ops[i].Supported()
    requires SoFar(start, len, ops, i, results, Ones(value[..]), value.Length, modified)
    modifies value
    ensures after == value || fresh(after)
    ensures SoFar(start, len, ops, i + 1, results', Ones(after[..]), after.Length, modified')
  {
    var reply, wrote;
    after, reply, wrote := Turn(value, ops[i]);
    SoFarStep(start, len, ops, i, results, old(Ones(value[..])), value.Length, modified,
              reply, Ones(after[..]), after.Length, wrote);
    results' := Appended(results, reply);
    modified' := modified || wrote;
  }

  /** BITFIELD: replies, bit string and length are those of exact arithmetic, for every
      sequence of sub-commands; `modified` says whether the caller must save the buffer. */
  method BitField(initial: array<byte>, ops: seq<Op>)
    returns (value: array<byte>, results: seq<Option<int>>, modified: bool)
    requires forall op | op in ops :: op.Supported()
    modifies initial
    ensures ExactRun(old(Ones(initial[..])), ops) == Run(results, Ones(value[..]))
    ensures value.Length == GrownLength(initial.Length, ops)
    ensures modified <==> AcceptedBelow(old(Ones(initial[..])), ops, |ops|)
    ensures !modified ==> Ones(value[..]) == old(Ones(initial[..]))
  {
    ghost var start := Ones(initial[..]);
    value, results, modified := initial, [], false;
    var i := 0;
    NothingSoFar(start, initial.Length, ops);
    while i < |ops|
      invariant 0 <= i <= |ops|
      invariant value == initial || fresh(value)
      invariant SoFar(start, initial.Length, ops, i, results, Ones(value[..]), value.Length, modified)
    {
      value, results, modified := Continue(start, initial.Length, ops, i, value, results, modified);
      i := i + 1;
    }
    AllSoFar(start, initial.Length, ops, results, Ones(value[..]), value.Length, modified);
  }

  /** The operation reads only, is refused, or has its field elsewhere. */
  ghost predicate Misses(before: set<nat>, op: Op, n: nat) {
    || !(op.kind.Set? || op.kind.IncrBy?)
    || ExactStep(before, op).reply == Some(None)
    || !(op.offset <= n < op.offset + op.Width())
  }

  lemma MissedBitStays(before: set<nat>, op: Op, n: nat)
    requires Misses(before, op, n)
    ensures n in ExactStep(before, op).ones <==> n in before
  {
  }

  ghost predicate MissesAt(ones: set<nat>, ops: seq<Op>, i: nat, n: nat)
    requires i < |ops|
  {
    Misses(ExactRun(ones, ops[..i]).ones, ops[i], n)
  }

  /** A bit that every operation of a list misses is as before. */
  lemma {:induction false} MissedBitsStay(ones: set<nat>, ops: seq<Op>, n: nat)
    requires forall i | 0 <= i < |ops| :: MissesAt(ones, ops, i, n)
    ensures n in ExactRun(ones, ops).ones <==> n in ones
    decreases |ops|
  {
    if ops != [] {
      var front := ops[..|ops| - 1];
      forall i | 0 <= i < |front| ensures MissesAt(ones, front, i, n) {
        assert front[..i] == ops[..i] && MissesAt(ones, ops, i, n);
      }
      MissedBitsStay(ones, front, n);
      assert MissesAt(ones, ops, |front|, n);
      MissedBitStays(ExactRun(ones, front).ones, ops[|front|], n);
    }
  }

  /** After an accepted INCRBY the field holds the replied value, and nothing else moved. */
  lemma IncrByReplyIsStored(ones: set<nat>, op: Op)
    requires op.kind.IncrBy? && op.Supported()
    requires ExactStep(ones, op).reply.value.Some?
    ensures var after := ExactStep(ones, op);
            && Value(after.ones, op.offset, op.Width(), op.signed) == after.reply.value.value
            && forall n: nat :: !(op.offset <= n < op.offset + op.Width()) ==> (n in after.ones <==> n in ones)
  {
    var w := op.Width();
    var exact := Value(ones, op.offset, w, op.signed) + op.value;
    var v := Resolved(exact, w, op.signed, op.mode).value;
    StoreThenLoad(ones, op.offset, w, v, op.signed);
    WrappedIsCongruent(exact, w, op.signed);
    BoundsOrdered(w, op.signed);
    SignedRemainder(v, w, op.signed);
  }

  lemma BoundsOrdered(w: nat, signed: bool)
    requires w > 0
    ensures Min(w, signed) <= Max(w, signed)
  {
  }

  // ---------------------------------------------------------------- laws of the replies

  function Distance(a: int, b: int): nat { if a <= b then b - a else a - b }

  /** r is what is to become of `exact` in an encoding: itself where it fits; else, in mode WRAP, the value
      of the encoding congruent to it, in mode SAT the nearest, and in mode FAIL nothing. */
  ghost predicate Fits(exact: int, w: nat, signed: bool, mode: Mode, r: Option<int>)
    requires w > 0
  {
    if InRange(exact, w, signed) then r == Some(exact)
    else match mode
      case Wrap => r.Some? && InRange(r.value, w, signed) && r.value % Pow2(w) == exact % Pow2(w)
      case Sat =>
        && r.Some? && InRange(r.value, w, signed)
        && forall x | InRange(x, w, signed) :: Distance(r.value, exact) <= Distance(x, exact)
      case Fail => r.None?
  }

  lemma ResolvedFits(exact: int, w: nat, signed: bool, mode: Mode)
    requires w > 0
    ensures Fits(exact, w, signed, mode, Resolved(exact, w, signed, mode))
  {
    WrappedIsCongruent(exact, w, signed);
    BoundsOrdered(w, signed);
  }

  lemma {:induction false} RunOfTwo(ones: set<nat>, a: Op, b: Op)
    ensures var first := ExactStep(ones, a);
            var second := ExactStep(first.ones, b);
            ExactRun(ones, [a, b]) == Run(Appended(Appended([], first.reply), second.reply), second.ones)
  {
    assert [a, b][..1] == [a];
    RunOfOne(ones, a);
  }

  lemma {:induction false} RunOfThree(ones: set<nat>, a: Op, b: Op, c: Op)
    ensures var two := ExactRun(ones, [a, b]);
            var third := ExactStep(two.ones, c);
            ExactRun(ones, [a, b, c]) == Run(Appended(two.replies, third.reply), third.ones)
  {
    assert [a, b, c][..2] == [a, b];
  }

  lemma {:induction false} GetOpGet(ones: set<nat>, op: Op)
    requires op.kind.Set? || op.kind.IncrBy?
    ensures var get, step := op.(kind := Get), ExactStep(ones, op);
            step.reply.Some? && ExactRun(ones, [get, op, get]).replies
            == [Some(Value(ones, op.offset, op.Width(), op.signed)), step.reply.value,
                Some(Value(step.ones, op.offset, op.Width(), op.signed))]
  {
    var get := op.(kind := Get);
    RunOfTwo(ones, get, op);
    RunOfThree(ones, get, op, get);
  }

  /** GET then INCRBY then GET of one field, from every bit string: INCRBY answers what becomes of the sum of
      the first GET's answer and the delta, and the second GET answers that, or the first answer again if
      INCRBY was refused. */
  lemma {:induction false} IncrByAddsToWhatGetReads(ones: set<nat>, op: Op)
    requires op.kind.IncrBy? && op.Supported()
    ensures var get := op.(kind := Get);
            var replies := ExactRun(ones, [get, op, get]).replies;
            && |replies| == 3 && replies[0].Some? && InRange(replies[0].value, op.Width(), op.signed)
            && Fits(replies[0].value + op.value, op.Width(), op.signed, op.mode, replies[1])
            && replies[2] == if replies[1].Some? then replies[1] else replies[0]
  {
    var get, w := op.(kind := Get), op.Width();
    GetOpGet(ones, op);
    ValueInRange(ones, op.offset, w, op.signed);
    ResolvedFits(Value(ones, op.offset, w, op.signed) + op.value, w, op.signed, op.mode);
    if ExactStep(ones, op).reply.value.Some? { IncrByReplyIsStored(ones, op); }
  }

  /** GET then SET then GET: SET answers what the first GET answered, and the second GET answers what becomes
      of the value set. */
  lemma {:induction false} SetAnswersWhatGetReads(ones: set<nat>, op: Op)
    requires op.kind.Set? && op.Supported()
    ensures var get := op.(kind := Get);
            var replies := ExactRun(ones, [get, op, get]).replies;
            && |replies| == 3 && replies[0].Some?
            && if replies[1].Some?
               then replies[1] == replies[0] && Fits(op.value, op.Width(), op.signed, op.mode, replies[2])
               else replies[2] == replies[0] && Fits(op.value, op.Width(), op.signed, op.mode, None)
  {
    var get, w := op.(kind := Get), op.Width();
    GetOpGet(ones, op);
    ResolvedFits(op.value, w, op.signed, op.mode);
    var v := Resolved(op.value, w, op.signed, op.mode);
    if v.Some? {
      StoreThenLoad(ones, op.offset, w, v.value, op.signed);
      WrappedIsCongruent(op.value, w, op.signed);
      BoundsOrdered(w, op.signed);
      SignedRemainder(v.value, w, op.signed);
    }
  }

  lemma WrapResolves(exact: int, w: nat, signed: bool)
    requires w > 0
    ensures Resolved(exact, w, signed, Wrap) == Some(Wrapped(exact, w, signed))
  {
    if InRange(exact, w, signed) { SignedRemainder(exact, w, signed); }
  }

  lemma StoredTwice(ones: set<nat>, off: nat, w: nat, a: int, b: int)
    ensures Stored(Stored(ones, off, w, a), off, w, b) == Stored(ones, off, w, b)
  {
  }

  lemma WrappedSum(x: int, b: int, w: nat, signed: bool)
    requires w > 0
    ensures Wrapped(Wrapped(x, w, signed) + b, w, signed) == Wrapped(x + b, w, signed)
  {
    var p, y := Pow2(w), Wrapped(x, w, signed);
    WrappedIsCongruent(x, w, signed);
    SameRemainderShift(y, x, b, p);
    WrappedByRemainder(y + b, x + b, w, signed);
  }

  lemma SameRemainderShift(a: int, b: int, d: int, p: nat)
    requires p > 0 && a % p == b % p
    ensures (a + d) % p == (b + d) % p
  {
    var q := a / p - b / p;
    assert a == p * (a / p) + a % p && b == p * (b / p) + b % p;
    Distribute(p, a / p, b / p);
    assert a + d == b + d + q * p;
    ModShift(b + d, q, p);
  }

  /** INCRBY in mode WRAP stores and answers the congruent value x, and a GET then answers x. */
  lemma WrapStep(ones: set<nat>, op: Op)
    requires op.kind.IncrBy? && op.Supported() && op.mode.Wrap?
    ensures var w := op.Width();
            var x := Wrapped(Value(ones, op.offset, w, op.signed) + op.value, w, op.signed);
            && ExactStep(ones, op) == Step(Some(Some(x)), Stored(ones, op.offset, w, x))
            && Value(Stored(ones, op.offset, w, x), op.offset, w, op.signed) == x
  {
    var w := op.Width();
    var exact := Value(ones, op.offset, w, op.signed) + op.value;
    var x := Wrapped(exact, w, op.signed);
    WrapResolves(exact, w, op.signed);
    StoreThenLoad(ones, op.offset, w, x, op.signed);
    WrappedIsCongruent(exact, w, op.signed);
    SignedRemainder(x, w, op.signed);
  }

  lemma TwoWrapSteps(ones: set<nat>, a: Op, b: Op, sum: Op)
    requires a.kind.IncrBy? && a.Supported() && a.mode.Wrap?
    requires b == a.(value := b.value) && sum == a.(value := sum.value) && sum.value == a.value + b.value
    ensures ExactStep(ExactStep(ones, a).ones, b) == ExactStep(ones, sum)
  {
    var w, off, signed := a.Width(), a.offset, a.signed;
    var v := Value(ones, off, w, signed);
    var x, y := Wrapped(v + a.value, w, signed), Wrapped(v + sum.value, w, signed);
    var first := Stored(ones, off, w, x);
    assert ExactStep(ones, a).ones == first && Value(first, off, w, signed) == x by { WrapStep(ones, a); }
    assert Wrapped(x + b.value, w, signed) == y by { WrappedSum(v + a.value, b.value, w, signed); }
    assert ExactStep(first, b) == Step(Some(Some(y)), Stored(first, off, w, y)) by { WrapStep(first, b); }
    assert Stored(first, off, w, y) == Stored(ones, off, w, y) by { StoredTwice(ones, off, w, x, y); }
    assert ExactStep(ones, sum) == Step(Some(Some(y)), Stored(ones, off, w, y)) by { WrapStep(ones, sum); }
  }

  /** In mode WRAP, INCRBY a and then INCRBY b leave and answer what INCRBY a+b does. */
  lemma {:induction false} IncrByAdds(ones: set<nat>, op: Op, a: int64, b: int64)
    requires op.kind.IncrBy? && op.Supported() && op.mode.Wrap? && MIN_INT64 <= a + b <= MAX_INT64
    ensures var two := ExactRun(ones, [op.(value := a), op.(value := b)]);
            var one := ExactRun(ones, [op.(value := a + b)]);
            two.ones == one.ones && |two.replies| == 2 && one.replies == [two.replies[1]]
  {
    var opA, opB, sum := op.(value := a), op.(value := b), op.(value := a + b);
    RunOfTwo(ones, opA, opB);
    RunOfOne(ones, sum);
    TwoWrapSteps(ones, opA, opB, sum);
    assert ExactStep(ones, opA).reply.Some? && ExactStep(ones, sum).reply.Some?;
  }

  lemma {:induction false} RunOfOne(ones: set<nat>, op: Op)
    ensures ExactRun(ones, [op]) == Run(Appended([], ExactStep(ones, op).reply), ExactStep(ones, op).ones)
  {
    assert [op][..0] == [];
  }

  /** A sub-command of another kind is not answered and changes nothing, wherever it stands. */
  lemma {:induction false} OthersAreSkipped(ones: set<nat>, before: seq<Op>, op: Op, after: seq<Op>)
    requires op.kind.Other?
    ensures ExactRun(ones, before + [op] + after) == ExactRun(ones, before + after)
    decreases |after|
  {
    if after == [] {
      assert before + [op] + after == before + [op] && before + after == before;
      RunSnoc(ones, before, op);
    } else {
      var front, last := after[..|after| - 1], after[|after| - 1];
      OthersAreSkipped(ones, before, op, front);
      assert after == front + [last];
      assert before + [op] + after == (before + [op] + front) + [last];
      assert before + after == (before + front) + [last];
      RunSnoc(ones, before + [op] + front, last);
      RunSnoc(ones, before + front, last);
    }
  }

  lemma {:induction false} RunSnoc(ones: set<nat>, ops: seq<Op>, op: Op)
    ensures var before := ExactRun(ones, ops);
            var step := ExactStep(before.ones, op);
            ExactRun(ones, ops + [op]) == Run(Appended(before.replies, step.reply), step.ones)
  {
    assert (ops + [op])[..|ops|] == ops;
  }

  /** A width outside 1..64 means 8. */
  lemma OddWidthIsEight(ones: set<nat>, op: Op)
    ensures ExactStep(ones, op) == ExactStep(ones, if 1 <= op.width <= 64 then op else op.(width := 8))
    ensures 1 <= op.width <= 64 ==> op.Width() == op.width
    ensures NeededBytes(op) == NeededBytes(if 1 <= op.width <= 64 then op else op.(width := 8))
  {
  }

  // ---------------------------------------------------------------- what a field is in the bytes

  lemma {:induction false} FieldConcat(ones: set<nat>, off: nat, a: nat, b: nat)
    ensures Field(ones, off, a + b) == Field(ones, off, a) * Pow2(b) + Field(ones, off + a, b)
  {
    if b > 0 {
      FieldConcat(ones, off, a, b - 1);
      TwiceProduct(Field(ones, off, a), Pow2(b - 1));
    }
  }

  lemma TwiceProduct(x: int, y: int)
    ensures x * (2 * y) == 2 * (x * y)
  {
  }

  lemma {:induction false} NextByte(data: seq<byte>, i: nat, n: nat, w: nat)
    requires i + n < |data| && w == 8
    ensures Field(Ones(data), w * i, w * n + w) == 256 * Field(Ones(data), w * i, w * n) + data[i + n]
  {
    FieldConcat(Ones(data), w * i, w * n, w);
    OneByte(data, i + n, w);
    TimesByte(Field(Ones(data), w * i, w * n));
  }

  lemma {:induction false} OneByte(data: seq<byte>, i: nat, w: nat)
    requires i < |data| && w == 8
    ensures Field(Ones(data), w * i, w) == data[i]
  {
    ByteBits(data, i, w);
  }

  lemma TimesByte(x: int)
    ensures x * Pow2(8) == 256 * x
  {
    Pow2Of8();
  }

  /** The bytes as one number, most significant first. */
  function BigEndian(bytes: seq<byte>): nat {
    if bytes == [] then 0 else 256 * BigEndian(bytes[..|bytes| - 1]) + bytes[|bytes| - 1]
  }

  lemma {:induction false} ByteBits(data: seq<byte>, i: nat, k: nat)
    requires i < |data| && k <= 8
    ensures Field(Ones(data), 8 * i, k) == Shr(data[i], 8 - k)
  {
    if k == 0 {
      ByteShiftsOut(data[i]);
    } else {
      ByteBits(data, i, k - 1);
      var n := 8 * i + k - 1;
      OnesIsBitAt(data, n);
      assert n / 8 == i && 7 - n % 8 == 8 - k;
      BitIsShr(data[i], 8 - k);
    }
  }

  lemma {:induction false} ByteShiftsOut(b: byte)
    ensures Shr(b, 8) == 0
  {
    assert Shr(b, 4) == Shr(b, 3) / 2 && Shr(b, 3) == Shr(b, 2) / 2 && Shr(b, 2) == Shr(b, 1) / 2;
    assert Shr(b, 8) == Shr(b, 7) / 2 && Shr(b, 7) == Shr(b, 6) / 2 && Shr(b, 6) == Shr(b, 5) / 2;
    assert Shr(b, 5) == Shr(b, 4) / 2 && Shr(b, 1) == Shr(b, 0) / 2 && Shr(b, 0) == b;
  }

  /** A field of whole bytes is those bytes as a number, most significant first. */
  lemma {:induction false} WholeBytesField(data: seq<byte>, i: nat, n: nat)
    requires i + n <= |data|
    ensures Field(Ones(data), 8 * i, 8 * n) == BigEndian(data[i..i + n])
  {
    if n > 0 {
      WholeBytesField(data, i, n - 1);
      assert data[i..i + n][..n - 1] == data[i..i + n - 1];
      NextByte(data, i, n - 1, 8);
    }
  }

  lemma Pow2Of8()
    ensures Pow2(8) == 256
  {
    assert Pow2(4) == 2 * Pow2(3) && Pow2(3) == 2 * Pow2(2) && Pow2(2) == 2 * Pow2(1) && Pow2(1) == 2 * Pow2(0);
    assert Pow2(8) == 2 * Pow2(7) && Pow2(7) == 2 * Pow2(6) && Pow2(6) == 2 * Pow2(5) && Pow2(5) == 2 * Pow2(4);
  }
}
