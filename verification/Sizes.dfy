/**
 The width of size_t.
 */
module Sizes {
  const SIZE_MODULUS := 0x1_0000_0000_0000_0000
}
