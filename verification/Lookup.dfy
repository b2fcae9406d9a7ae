/**
 Constant tables indexed by a byte.

 A 256-entry table is written as a binary decision tree over the index bits whose leaves are rows of
 sixteen consecutive entries, so that looking up an entry stays inside the theory of bit-vectors.
 */
module Lookup {

  /** Entry number (i mod 16) of a row of sixteen bytes. */
  function Row8(i: bv8,
                a0: bv8, a1: bv8, a2: bv8, a3: bv8, a4: bv8, a5: bv8, a6: bv8, a7: bv8,
                a8: bv8, a9: bv8, a10: bv8, a11: bv8, a12: bv8, a13: bv8, a14: bv8, a15: bv8): bv8
  {
    if i & 8 == 0 then
      if i & 4 == 0 then
        if i & 2 == 0 then (if i & 1 == 0 then a0 else a1) else (if i & 1 == 0 then a2 else a3)
      else
        if i & 2 == 0 then (if i & 1 == 0 then a4 else a5) else (if i & 1 == 0 then a6 else a7)
    else
      if i & 4 == 0 then
        if i & 2 == 0 then (if i & 1 == 0 then a8 else a9) else (if i & 1 == 0 then a10 else a11)
      else
        if i & 2 == 0 then (if i & 1 == 0 then a12 else a13) else (if i & 1 == 0 then a14 else a15)
  }

  /** Entry number (i mod 16) of a row of sixteen 32-bit words. */
  function Row32(i: bv8,
                 a0: bv32, a1: bv32, a2: bv32, a3: bv32, a4: bv32, a5: bv32, a6: bv32, a7: bv32,
                 a8: bv32, a9: bv32, a10: bv32, a11: bv32, a12: bv32, a13: bv32, a14: bv32, a15: bv32): bv32
  {
    if i & 8 == 0 then
      if i & 4 == 0 then
        if i & 2 == 0 then (if i & 1 == 0 then a0 else a1) else (if i & 1 == 0 then a2 else a3)
      else
        if i & 2 == 0 then (if i & 1 == 0 then a4 else a5) else (if i & 1 == 0 then a6 else a7)
    else
      if i & 4 == 0 then
        if i & 2 == 0 then (if i & 1 == 0 then a8 else a9) else (if i & 1 == 0 then a10 else a11)
      else
        if i & 2 == 0 then (if i & 1 == 0 then a12 else a13) else (if i & 1 == 0 then a14 else a15)
  }
}
