/** Limits the components share. */
module Limits {

  const UINT32: nat := 0x1_0000_0000

  /** The cost nothing reaches: where running minima start. */
  const BIGNUM := 1e30
}
