/** Bounds of the machine integers that the source's checked arithmetic respects. */
module Widths {
  const U32_LIMIT: nat := 0x1_0000_0000
  const U63_LIMIT: nat := 0x8000_0000_0000_0000
  const U64_LIMIT: nat := 0x1_0000_0000_0000_0000
}
