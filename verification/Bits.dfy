/** 32-bit masks, written as the set of the numbers of the bits that are set.

    `a & b` is `a * b`, `a | b` is `a + b`, `a & ~b` is `a - b`. */
module Bits {
  type Mask = set<nat>
}
