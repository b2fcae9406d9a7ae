/** Blocks of a buffer and the XTS tweak: three ways of multiplying by alpha, and the field they multiply in. */
module Tweaks {
  import opened Words

  /** A block of a buffer as its four little-endian words. */
  datatype Block = Block(w0: bv32, w1: bv32, w2: bv32, w3: bv32)

  /** A tweak as its two little-endian 64-bit halves. */
  datatype Tweak = Tweak(lo: bv64, hi: bv64)

  function Lo32(v: bv64): bv32 {
    (v & 0xFFFF_FFFF) as bv32
  }

  function Hi32(v: bv64): bv32 {
    (v >> 32) as bv32
  }

  /** The sixteen bytes of a block in memory. */
  function BlockBytes(b: Block): (r: seq<bv8>)
    ensures |r| == 16
  {
    WordBytes(b.w0) + WordBytes(b.w1) + WordBytes(b.w2) + WordBytes(b.w3)
  }

  function XorBlock(x: Block, y: Block): Block {
    Block(Xor(x.w0, y.w0), Xor(x.w1, y.w1), Xor(x.w2, y.w2), Xor(x.w3, y.w3))
  }

  /** The words a tweak is added with. */
  function Mask(t: Tweak): Block {
    Block(Lo32(t.lo), Hi32(t.lo), Lo32(t.hi), Hi32(t.hi))
  }

  lemma XorBlockUndone(x: Block, y: Block)
    ensures XorBlock(XorBlock(x, y), y) == x
  {
    XorUndone(x.w0, y.w0, 0);
    XorUndone(x.w1, y.w1, 0);
    XorUndone(x.w2, y.w2, 0);
    XorUndone(x.w3, y.w3, 0);
  }

  // ---- the tweak ----------------------------------------------------------------------------------

  /** t * alpha in GF(2^128) as the scalar and the Twofish loops compute it. */
  function MulAlpha(t: Tweak): Tweak {
    var cf := (t.hi >> 63) * 135;
    Tweak((t.lo << 1) ^ cf, (t.hi << 1) | (t.lo >> 63))
  }

  /** XTS_MUL_X of the ARM64 core: the carry is an arithmetic shift masked with the polynomial. */
  function MulAlphaCe(t: Tweak): Tweak {
    var sign: bv64 := if t.hi & 0x8000_0000_0000_0000 != 0 then 0xFFFF_FFFF_FFFF_FFFF else 0;
    Tweak((t.lo << 1) ^ (sign & 0x87), (t.hi << 1) | (t.lo >> 63))
  }

  /** next_tweak of the AES-NI core: both halves shifted, the low carry moved up, the polynomial added last. */
  function MulAlphaNi(t: Tweak): Tweak {
    var sign: bv64 := if t.hi & 0x8000_0000_0000_0000 != 0 then 0xFFFF_FFFF_FFFF_FFFF else 0;
    var shifted, carried := Tweak(t.lo << 1, t.hi << 1), Tweak(0, t.lo >> 63);
    Tweak((shifted.lo | carried.lo) ^ (sign & 0x87), (shifted.hi | carried.hi) ^ 0)
  }

  lemma MulAlphaCeForm(t: Tweak)
    ensures MulAlphaCe(t) == MulAlpha(t)
  {
  }

  lemma MulAlphaNiForm(t: Tweak)
    ensures MulAlphaNi(t) == MulAlpha(t)
  {
  }

  /** The halves of a 128-bit number, and multiplication by x modulo x^128 + x^7 + x^2 + x + 1. */
  function Lo(n: bv128): bv64 {
    (n & 0xFFFF_FFFF_FFFF_FFFF) as bv64
  }

  function Hi(n: bv128): bv64 {
    (n >> 64) as bv64
  }

  function Split(n: bv128): Tweak {
    Tweak(Lo(n), Hi(n))
  }

  /** A block as a 128-bit number, its first byte least significant. */
  function Number(b: Block): bv128 {
    (b.w0 as bv128) | ((b.w1 as bv128) << 32) | ((b.w2 as bv128) << 64) | ((b.w3 as bv128) << 96)
  }

  /** The words that a tweak adds are those of the number it stands for. */
  lemma MaskOfNumber(b: Block)
    ensures Mask(Split(Number(b))) == b
  {
    LowWords(b);
    HighWords(b);
  }

  lemma LowWords(b: Block)
    ensures Lo32(Lo(Number(b))) == b.w0 && Hi32(Lo(Number(b))) == b.w1
  {
  }

  lemma HighWords(b: Block)
    ensures Lo32(Hi(Number(b))) == b.w2 && Hi32(Hi(Number(b))) == b.w3
  {
  }

  function TimesX(n: bv128): bv128 {
    if n >> 127 != 0 then (n << 1) ^ 0x87 else n << 1
  }

  lemma MulAlphaLow(n: bv128)
    requires n >> 127 == 0
    ensures MulAlpha(Split(n)) == Split(n << 1)
  {
  }

  lemma MulAlphaHigh(n: bv128)
    requires n >> 127 != 0
    ensures MulAlpha(Split(n)) == Split((n << 1) ^ 0x87)
  {
  }

  /** The step on the two halves is multiplication by alpha in the field of 128-bit polynomials. */
  lemma MulAlphaIsTimesX(n: bv128)
    ensures MulAlpha(Split(n)) == Split(TimesX(n))
  {
    if n >> 127 == 0 {
      MulAlphaLow(n);
    } else {
      MulAlphaHigh(n);
    }
  }
}
