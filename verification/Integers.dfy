/** The fixed-width integers of the sources, as ranges of unbounded ones; wrap-around is written out where it occurs. */
module Integers {

  type uint8 = x: int | 0 <= x < 0x100
  type uint16 = x: int | 0 <= x < 0x1_0000
  type uint32 = x: int | 0 <= x < 0x1_0000_0000
  type int64 = x: int | -0x8000_0000_0000_0000 <= x < 0x8000_0000_0000_0000

  /** Arithmetic in 64 bits. */
  function Wrap(x: int): int64 {
    (x + 0x8000_0000_0000_0000) % 0x1_0000_0000_0000_0000 - 0x8000_0000_0000_0000
  }

  lemma WrapSmall(x: nat)
    requires x < 0x8000_0000_0000_0000
    ensures Wrap(x) == x
  {}
}
