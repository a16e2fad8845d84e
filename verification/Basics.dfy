/** Machine integers, identifiers and result types shared by every module. */
module Basics {

  const U32_MAX: nat := 0xFFFF_FFFF
  const U64_MAX: nat := 0xFFFF_FFFF_FFFF_FFFF

  type u32 = x: nat | x <= 0xFFFF_FFFF
  type u64 = x: nat | x <= 0xFFFF_FFFF_FFFF_FFFF

  datatype Option<+T> = None | Some(value: T)

  datatype Result<+T, +E> = Ok(value: T) | Err(error: E)

  /** A 32-byte account or validator address; only its identity matters here. */
  datatype Address = Address(id: nat)

  /** A 32-byte digest. `ZERO_HASH` doubles as the nil vote. */
  datatype Hash = Hash(id: nat)

  const ZERO_ADDRESS := Address(0)
  const ZERO_HASH := Hash(0)

  function SatAdd32(a: u32, b: u32): u32 {
    if a + b <= U32_MAX then a + b else U32_MAX
  }

  function SatAdd(a: u64, b: nat): u64 {
    if a + b <= U64_MAX then a + b else U64_MAX
  }

  function SatSub(a: u64, b: nat): u64 {
    if b <= a then a - b else 0
  }

  function SatMul(a: u64, b: u64): u64 {
    if a * b <= U64_MAX then a * b else U64_MAX
  }

  lemma {:induction false} SubsetSize<T>(a: set<T>, b: set<T>)
    requires a <= b
    ensures |a| <= |b|
  {
    if a == {} {
    } else {
      var x :| x in a;
      SubsetSize(a - {x}, b - {x});
    }
  }
}
