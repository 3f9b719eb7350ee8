/** The fixed integer widths the program computes in. */
module Machine {
  const U16_MAX: nat := 0xffff
  const I32_MIN: int := -0x8000_0000
  const I32_MAX: int := 0x7fff_ffff

  type U8 = n: nat | n < 0x100
  type U16 = n: nat | n <= U16_MAX
  type I32 = n: int | I32_MIN <= n <= I32_MAX
}
