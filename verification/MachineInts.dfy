/** Machine integers that the drivers keep within their width. */
module MachineInts {
  const U16_LIMIT: nat := 0x1_0000
  const U32_LIMIT: nat := 0x1_0000_0000
  const U64_LIMIT: nat := 0x1_0000_0000_0000_0000

  type u8 = x: nat | x < 0x100
  type u16 = x: nat | x < 0x1_0000
  type u32 = x: nat | x < 0x1_0000_0000
  type u64 = x: nat | x < 0x1_0000_0000_0000_0000

  /** An `as u16` or `as u32` cast keeps the low bits. */
  function TruncU16(x: nat): u16 { x % U16_LIMIT }

  function TruncU32(x: nat): u32 { x % U32_LIMIT }

  function SaturatingAddU32(a: u32, b: u32): u32 {
    if a + b < U32_LIMIT then a + b else U32_LIMIT - 1
  }

  function Min(a: int, b: int): int { if a < b then a else b }

  function CeilDiv(a: nat, b: nat): (q: nat)
    requires b > 0
    ensures a <= q * b < a + b
  {
    (a + b - 1) / b
  }
}
