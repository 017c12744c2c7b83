/** The fixed-width integers of the drivers. */
module MachineWords {

  const WORD32 := 0x1_0000_0000
  const WORD64 := 0x1_0000_0000_0000_0000

  /** A u64 number. */
  type U64 = t: int | 0 <= t < WORD64
}
