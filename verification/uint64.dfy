/** Unsigned 64-bit arithmetic. */
module Uint64 {
  const TWO_64: nat := 0x1_0000_0000_0000_0000
  const MAX_UINT64: nat := TWO_64 - 1

  /** The 64-bit value of a number that may have left the range. */
  function Wrap(x: int): nat {
    x % TWO_64
  }

  lemma WrapOnce(x: int)
    requires 0 <= x + TWO_64 && x < TWO_64
    ensures Wrap(x) == if x < 0 then x + TWO_64 else x
  {
  }
}
