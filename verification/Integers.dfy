/** The widths that sizes, positions and indices are kept in. */
module Integers {
  const TWO_TO_THE_30: nat := 0x4000_0000
  const TWO_TO_THE_31: nat := 0x8000_0000
  const TWO_TO_THE_32: nat := 0x1_0000_0000

  /** No array has this index. */
  const INVALID_INDEX: nat := 0xFFFF_FFFF
}
