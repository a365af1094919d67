/** Shared by all modules. */
module Basics {
  datatype Option<+T> = None | Some(value: T)

  /** A Redis key, taken as text that the storage keeps as it is. */
  type Key = string

  type byte = x: int | 0 <= x < 256

  const MIN_INT64: int := -0x8000_0000_0000_0000
  const MAX_INT64: int := 0x7fff_ffff_ffff_ffff

  datatype Bounds = Bounds(lo: int, hi: int)

  /** Inclusive ends with negative indices counted from the end, clamped to the length. */
  function Normalised(start: int, stop: int, length: nat): Bounds {
    var s := if start < 0 then length + start else start;
    var e := if stop < 0 then length + stop else stop;
    Bounds(if s < 0 then 0 else s, if e >= length then length - 1 else e)
  }

  /** The type of a key, and at once the table its rows are in. */
  datatype Kind = StringKind | HashKind | ListKind | SetKind | ZSetKind | HyperLogLogKind
}
