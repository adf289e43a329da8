// Value types shared by every module: optional results and the fixed-width
// integers of the Go sources. An assignment to one of these types obliges the
// verifier to show that the stored value fits.
module Wrappers {

  datatype Option<+T> = None | Some(value: T)

  const TWO_8: int := 0x100
  const TWO_32: int := 0x1_0000_0000
  const TWO_64: int := 0x1_0000_0000_0000_0000

  type byte = x: int | 0 <= x < TWO_8
  type uint32 = x: int | 0 <= x < TWO_32
  type uint64 = x: int | 0 <= x < TWO_64

  function Max(a: int, b: int): int { if a < b then b else a }

  function Min(a: int, b: int): int { if a < b then a else b }

  // The value of a byte string read as one big-endian number.
  function BigEndian(s: seq<byte>): (n: nat)
  {
    if s == [] then 0 else BigEndian(s[..|s| - 1]) * 256 + s[|s| - 1]
  }
}
