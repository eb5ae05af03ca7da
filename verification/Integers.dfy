/** The smaller of two numbers, and how far 32-bit ones count. */
module Integers {

  const U32 := 0x1_0000_0000

  function Min(a: nat, b: nat): nat {
    if a < b then a else b
  }
}
