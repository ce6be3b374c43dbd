/**
 * The boundary type of a ProcSet (src/procsetheader.h): a set is stored as a flat
 * buffer of 32-bit unsigned boundaries, read two at a time as half-open intervals.
 */
module Boundaries {

  /** 2^32: unsigned 32-bit arithmetic is arithmetic modulo this number. */
  const UINT32_MODULUS: int := 0x1_0000_0000

  /** pset_boundary_t, a uint32_t. */
  type Boundary = x: int | 0 <= x < 0x1_0000_0000

  /** The largest uint32_t value, reserved as a sentinel and never a valid element. */
  const MAX_BOUND_VALUE: Boundary := 0xFFFF_FFFF

  /**
   * `x - 1` evaluated in uint32_t arithmetic: it is the ordinary predecessor for a
   * positive `x` and wraps around to the sentinel for 0.
   */
  function Pred32(x: Boundary): (r: Boundary)
    ensures x > 0 ==> r + 1 == x
    ensures x == 0 ==> r == MAX_BOUND_VALUE
    ensures (r + 1) % UINT32_MODULUS == x
  {
    (x - 1) % UINT32_MODULUS
  }
}
