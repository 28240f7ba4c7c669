/** Fixed-width integers and the saturating operations of the gas price and coin code. */
module MachineInts {
  const U16_MAX: nat := 0xFFFF
  const U32_MAX: nat := 0xFFFF_FFFF
  const U64_MAX: nat := 0xFFFF_FFFF_FFFF_FFFF
  const U128_MAX: nat := 0xFFFF_FFFF_FFFF_FFFF_FFFF_FFFF_FFFF_FFFF
  const I128_MAX: int := 0x7FFF_FFFF_FFFF_FFFF_FFFF_FFFF_FFFF_FFFF
  const I128_MIN: int := -0x8000_0000_0000_0000_0000_0000_0000_0000

  type u8 = x: int | 0 <= x <= 0xFF
  type u16 = x: int | 0 <= x <= 0xFFFF
  type u32 = x: int | 0 <= x <= 0xFFFF_FFFF
  type u64 = x: int | 0 <= x <= 0xFFFF_FFFF_FFFF_FFFF
  type u128 = x: int | 0 <= x <= 0xFFFF_FFFF_FFFF_FFFF_FFFF_FFFF_FFFF_FFFF
  type i64 = x: int | -0x8000_0000_0000_0000 <= x <= 0x7FFF_FFFF_FFFF_FFFF
  type i128 = x: int | -0x8000_0000_0000_0000_0000_0000_0000_0000 <= x <= 0x7FFF_FFFF_FFFF_FFFF_FFFF_FFFF_FFFF_FFFF

  function Min(a: int, b: int): int { if a <= b then a else b }
  function Max(a: int, b: int): int { if a <= b then b else a }
  function Abs(a: int): nat { if a < 0 then -a else a }

  function SatU16(x: int): u16 { Max(0, Min(x, 0xFFFF)) }
  function SatU32(x: int): u32 { Max(0, Min(x, 0xFFFF_FFFF)) }
  function SatU64(x: int): u64 { Max(0, Min(x, 0xFFFF_FFFF_FFFF_FFFF)) }
  function SatU128(x: int): u128 { Max(0, Min(x, 0xFFFF_FFFF_FFFF_FFFF_FFFF_FFFF_FFFF_FFFF)) }
  function SatI128(x: int): i128 {
    Max(-0x8000_0000_0000_0000_0000_0000_0000_0000, Min(x, 0x7FFF_FFFF_FFFF_FFFF_FFFF_FFFF_FFFF_FFFF))
  }
}
