// Vocabulary shared by every module: failure-carrying datatypes, machine
// integers with their saturating and checked operations, scripts and outputs.
module Basics {

  datatype Option<+T> = None | Some(value: T)

  datatype Outcome<+E> = Pass | Fail(error: E)

  datatype Result<+T, +E> = Ok(value: T) | Err(error: E)

  const U32_MAX: nat := 0xFFFF_FFFF
  const U64_MAX: nat := 0xFFFF_FFFF_FFFF_FFFF

  type u16 = n: nat | n <= 0xFFFF
  type u32 = n: nat | n <= 0xFFFF_FFFF
  type u64 = n: nat | n <= 0xFFFF_FFFF_FFFF_FFFF
  type byte = n: nat | n <= 0xFF

  type Script = seq<byte>

  /** The largest u64 not above n: what a saturating accumulator ends on. */
  function Saturate(n: nat): u64 {
    if n <= U64_MAX then n else U64_MAX
  }

  function SatAdd(a: u64, b: u64): u64 { Saturate(a + b) }

  function SatSub(a: u64, b: u64): u64 { if a >= b then a - b else 0 }

  function SatMul(a: u64, b: u64): u64 { Saturate(a * b) }

  function CheckedAdd(a: u64, b: u64): Option<u64> {
    if a + b <= U64_MAX then Some(a + b) else None
  }

  function CheckedSub(a: u64, b: u64): Option<u64> {
    if a >= b then Some(a - b) else None
  }

  function CheckedMul(a: u64, b: u64): Option<u64> {
    if a * b <= U64_MAX then Some(a * b) else None
  }

  lemma Scale(a: nat, b: nat, v: nat)
    requires a <= b
    ensures a * v <= b * v
  {}

  lemma OneMore(n: nat, v: nat)
    ensures (n + 1) * v == n * v + v
  {}

  function Pow(base: nat, exponent: nat): nat {
    if exponent == 0 then 1 else base * Pow(base, exponent - 1)
  }
}
