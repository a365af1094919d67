/** HyperLogLog registers as the join-semilattice of maximum ranks.

    A sketch is specified by the set of hashes added to it: every register holds the
    maximum rank over the hashes that select it.  The hash function is a parameter.
 */
module HyperLogLog {
  import opened Bits

  const PRECISION: int := 14
  const REGISTERS: int := 16384

  type Hash = h: int | 0 <= h < TWO_64
  type uint8 = x: int | 0 <= x < 256

  function BitLen(x: nat): nat { if x == 0 then 0 else 1 + BitLen(x / 2) }

  function LeadingZeros64(x: Hash): int { 64 - BitLen(x) }

  /** hash & (2^14 - 1) */
  function Index(h: Hash): (i: nat)
    ensures i < REGISTERS
  {
    h % REGISTERS
  }

  /** hash >> 14 */
  function UpperBits(h: Hash): Hash { h / REGISTERS }

  function ToUint8(x: int): uint8 { x % 256 }

  /** The rank as `Add` computes it. */
  function AddRank(h: Hash): uint8 {
    var upper := UpperBits(h);
    var rank := if upper == 0 then ToUint8(64 - PRECISION + 1)
                else ToUint8(LeadingZeros64(upper) - PRECISION + 1);
    if rank < 1 then 1 else rank
  }

  /** The rank as `getRegisterFromHash` computes it. */
  function HashRank(h: Hash): uint8 {
    var upper := UpperBits(h);
    var rank := if upper == 0 then ToUint8(64 - PRECISION + 1)
                else
                  var lz := LeadingZeros64(upper);
                  if lz > PRECISION then ToUint8(lz - PRECISION + 1) else 1;
    if rank < 1 then 1 else rank
  }

  // ---------------------------------------------------------------- ranks

  lemma {:induction false} BitLenBounds(x: nat)
    ensures x < Pow2(BitLen(x))
    ensures x > 0 ==> Pow2(BitLen(x) - 1) <= x
  {
    if x > 0 { BitLenBounds(x / 2); }
  }

  lemma Pow2Of50()
    ensures Pow2(50) == 0x4_0000_0000_0000
  {
    assert Pow2(10) == 1024;
    Pow2Adds(10, 10);
    Pow2Adds(20, 20);
    Pow2Adds(40, 10);
  }

  lemma UpperBitsFitIn50(h: Hash)
    ensures BitLen(UpperBits(h)) <= 50
  {
    var upper := UpperBits(h);
    Pow2Of50();
    assert upper < Pow2(50);
    if BitLen(upper) > 50 {
      BitLenBounds(upper);
      Pow2Monotone(50, BitLen(upper) - 1);
    }
  }

  lemma RankIsBitLen(h: Hash)
    ensures AddRank(h) == HashRank(h) == 51 - BitLen(UpperBits(h))
    ensures 0 <= BitLen(UpperBits(h)) <= 50
  {
    var upper := UpperBits(h);
    UpperBitsFitIn50(h);
    SmallUint8(51);
    if upper != 0 {
      assert BitLen(upper) >= 1;
      SmallUint8(LeadingZeros64(upper) - 13);
    }
  }

  lemma SmallUint8(x: int)
    requires 0 <= x < 256
    ensures ToUint8(x) == x
  {
  }

  /** The rank is one plus the number of zeros before the first one in the upper 50 bits. */
  lemma RankMeaning(h: Hash)
    ensures 1 <= AddRank(h) <= 51
    ensures UpperBits(h) < Pow2(51 - AddRank(h))
    ensures AddRank(h) < 51 ==> Pow2(50 - AddRank(h)) <= UpperBits(h)
  {
    RankIsBitLen(h);
    var upper, len := UpperBits(h), BitLen(UpperBits(h));
    BitLenBounds(upper);
    assert 51 - AddRank(h) == len;
  }

  /** `Add` and `AddHash` agree on the rank of every hash. */
  lemma RanksAgree(h: Hash)
    ensures AddRank(h) == HashRank(h)
  {
    RankIsBitLen(h);
  }

  /** Index and upper bits are two parts of the hash, and together all of it. */
  lemma HashParts(h: Hash)
    ensures h == UpperBits(h) * 16384 + Index(h) && Index(h) < 16384 && UpperBits(h) < 0x4_0000_0000_0000
  {
  }

  lemma PartsDetermineHash(a: Hash, b: Hash)
    requires Index(a) == Index(b) && UpperBits(a) == UpperBits(b)
    ensures a == b
  {
    HashParts(a);
    HashParts(b);
  }

  // ---------------------------------------------------------------- what a sketch means

  function Zeros(n: nat): (r: seq<uint8>)
    ensures |r| == n && forall i | 0 <= i < n :: r[i] == 0
  {
    if n == 0 then [] else [0] + Zeros(n - 1)
  }

  type Registers = r: seq<uint8> | |r| == REGISTERS ghost witness Zeros(REGISTERS)

  ghost predicate IsMaxRank(rank: uint8, hashes: set<Hash>, i: nat) {
    && (forall h | h in hashes && Index(h) == i :: AddRank(h) <= rank)
    && (rank != 0 ==> exists h :: h in hashes && Index(h) == i && AddRank(h) == rank)
  }

  /** `regs` is the sketch of `hashes`. */
  ghost predicate SketchOf(regs: Registers, hashes: set<Hash>) {
    forall i | 0 <= i < REGISTERS :: IsMaxRank(regs[i], hashes, i)
  }

  /** A set of hashes has one sketch, so order and repetition of adds cannot show. */
  lemma SketchIsUnique(a: Registers, b: Registers, hashes: set<Hash>)
    requires SketchOf(a, hashes) && SketchOf(b, hashes)
    ensures a == b
  {
  }

  function Added(regs: Registers, h: Hash): Registers {
    if AddRank(h) > regs[Index(h)] then regs[Index(h) := AddRank(h)] else regs
  }

  function Max(x: uint8, y: uint8): uint8 { if y > x then y else x }

  function Maxima(a: seq<uint8>, b: seq<uint8>): (r: seq<uint8>)
    requires |a| == |b|
    ensures |r| == |a| && forall i | 0 <= i < |a| :: r[i] == Max(a[i], b[i])
  {
    if a == [] then [] else [Max(a[0], b[0])] + Maxima(a[1..], b[1..])
  }

  function Merged(a: Registers, b: Registers): Registers { Maxima(a, b) }

  const EMPTY: Registers := Zeros(REGISTERS)

  lemma EmptySketch()
    ensures SketchOf(EMPTY, {})
  {
  }

  lemma AddedSketch(regs: Registers, hashes: set<Hash>, h: Hash)
    requires SketchOf(regs, hashes)
    ensures SketchOf(Added(regs, h), hashes + {h})
  {
  }

  /** Merging the sketches of two sets gives the sketch of their union. */
  lemma MergedSketch(a: Registers, b: Registers, s: set<Hash>, t: set<Hash>)
    requires SketchOf(a, s) && SketchOf(b, t)
    ensures SketchOf(Merged(a, b), s + t)
  {
  }

  // ---------------------------------------------------------------- every history of adds and merges

  datatype History = New | Add(before: History, hash: Hash) | Merge(left: History, right: History)

  function Run(e: History): Registers {
    match e
    case New => EMPTY
    case Add(before, h) => Added(Run(before), h)
    case Merge(l, r) => Merged(Run(l), Run(r))
  }

  function Hashes(e: History): set<Hash> {
    match e
    case New => {}
    case Add(before, h) => Hashes(before) + {h}
    case Merge(l, r) => Hashes(l) + Hashes(r)
  }

  /** After any history, each register is the maximum rank over everything ever added. */
  lemma {:induction false} HistoryIsSketch(e: History)
    ensures SketchOf(Run(e), Hashes(e))
  {
    match e
    case New => EmptySketch();
    case Add(before, h) => HistoryIsSketch(before); AddedSketch(Run(before), Hashes(before), h);
    case Merge(l, r) =>
      HistoryIsSketch(l);
      HistoryIsSketch(r);
      MergedSketch(Run(l), Run(r), Hashes(l), Hashes(r));
  }

  /** Histories that added the same elements end in the same registers. */
  lemma {:induction false} HistoryForgetsOrder(e: History, f: History)
    requires Hashes(e) == Hashes(f)
    ensures Run(e) == Run(f)
  {
    HistoryIsSketch(e);
    HistoryIsSketch(f);
    SketchIsUnique(Run(e), Run(f), Hashes(e));
  }

  // ---------------------------------------------------------------- the imperative form

  class Sketch {
    var registers: array<uint8>

    ghost predicate Valid() reads this { registers.Length == REGISTERS }

    ghost function Value(): Registers
      requires Valid()
      reads this, registers
    {
      registers[..]
    }

    constructor ()
      ensures Valid() && fresh(registers) && Value() == EMPTY
    {
      registers := new uint8[REGISTERS](_ => 0);
      new;
      assert registers[..] == EMPTY;
    }

    /** Returns true exactly when the sketch changes. */
    method Add(murmur: string -> Hash, element: string) returns (changed: bool)
      requires Valid()
      modifies registers
      ensures Valid() && Value() == Added(old(Value()), murmur(element))
      ensures changed <==> Value() != old(Value())
    {
      var hash := murmur(element);
      var index := hash % REGISTERS;
      var upper := hash / REGISTERS;
      var rank: uint8;
      if upper == 0 {
        rank := ToUint8(64 - PRECISION + 1);
      } else {
        rank := ToUint8(LeadingZeros64(upper) - PRECISION + 1);
      }
      if rank < 1 {
        rank := 1;
      }
      if rank > registers[index] {
        ghost var was := registers[..];
        registers[index] := rank;
        assert registers[..] == was[index := rank] && registers[..][index] != was[index];
        return true;
      }
      return false;
    }

    method AddHash(hash: Hash) returns (changed: bool)
      requires Valid()
      modifies registers
      ensures Valid() && Value() == Added(old(Value()), hash)
      ensures changed <==> Value() != old(Value())
    {
      var index, rank := Index(hash), HashRank(hash);
      RanksAgree(hash);
      if rank > registers[index] {
        ghost var was := registers[..];
        registers[index] := rank;
        assert registers[..] == was[index := rank] && registers[..][index] != was[index];
        return true;
      }
      return false;
    }

    /** PFADD: adds all elements; true when any of them changed the sketch. */
    method AddAll(murmur: string -> Hash, elements: seq<string>, ghost hashes: set<Hash>) returns (changed: bool)
      requires Valid() && SketchOf(Value(), hashes)
      modifies registers
      ensures Valid()
      ensures SketchOf(Value(), hashes + set e | e in elements :: murmur(e))
      ensures changed <==> Value() != old(Value())
    {
      changed := false;
      ghost var done := hashes;
      for k := 0 to |elements|
        invariant Valid() && registers == old(registers)
        invariant SketchOf(Value(), done)
        invariant done == hashes + set e | e in elements[..k] :: murmur(e)
        invariant forall i | 0 <= i < REGISTERS :: old(registers[i]) <= registers[i]
        invariant changed <==> Value() != old(Value())
      {
        ghost var was := Value();
        var c := Add(murmur, elements[k]);
        AddedSketch(was, done, murmur(elements[k]));
        done := done + {murmur(elements[k])};
        assert elements[..k + 1] == elements[..k] + [elements[k]];
        GrowsOnly(old(Value()), was, Value());
        if c { changed := true; }
      }
      assert elements[..|elements|] == elements;
    }

    method Merge(other: Sketch)
      requires Valid() && other.Valid()
      modifies registers
      ensures Valid() && registers == old(registers)
      ensures Value() == Merged(old(Value()), old(other.Value()))
    {
      for i := 0 to registers.Length
        invariant Valid() && other.Valid()
        invariant registers == old(registers) && other.registers == old(other.registers)
        invariant forall k | 0 <= k < i :: registers[k] == Merged(old(Value()), old(other.Value()))[k]
        invariant forall k | i <= k < REGISTERS :: registers[k] == old(registers[k])
        invariant forall k | i <= k < REGISTERS :: other.registers[k] == old(other.registers[k])
      {
        if other.registers[i] > registers[i] {
          registers[i] := other.registers[i];
        }
      }
    }
  }

  /** Registers never shrink, so once a sketch has changed it stays different from the start. */
  lemma GrowsOnly(start: Registers, before: Registers, after: Registers)
    requires forall i | 0 <= i < REGISTERS :: start[i] <= before[i] <= after[i]
    ensures after == start <==> before == start && after == before
  {
  }
}
