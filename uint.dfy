/** Unsigned integers of the widths the source uses: bytes for coordinates
    and 32-bit words for game ids and parsed numbers. */
module UInts {

  const U32_MAX: nat := 0xFFFF_FFFF

  type u32 = n: nat | n <= U32_MAX

  /** An unsigned byte. */
  type u8 = n: nat | n < 256
}
