/** The byte field of AES, its S-box and the mixing of columns. */
module AesField {
  import opened Lookup
  import opened Words

  // ---- the byte field -----------------------------------------------------------------------------

  function XTime(a: bv8): bv8 {
    if a & 0x80 != 0 then (a << 1) ^ 0x1B else a << 1
  }

  function Term(a: bv8, b: bv8): bv8 {
    if b & 1 != 0 then a else 0
  }

  /** Product in GF(2^8)/0x11B, by doubling and adding. */
  function GfMul(a: bv8, b: bv8): bv8
    decreases b
  {
    if b == 0 then 0 else if b >> 1 < b then Xor8(Term(a, b), GfMul(XTime(a), b >> 1)) else 0
  }

  lemma HalfLess(b: bv8)
    requires b != 0
    ensures b >> 1 < b
  {
  }

  lemma Xor8Laws(a: bv8, b: bv8, c: bv8)
    ensures Xor8(a, b) == Xor8(b, a)
    ensures Xor8(Xor8(a, b), c) == Xor8(a, Xor8(b, c))
    ensures Xor8(a, 0) == a && Xor8(0, a) == a && Xor8(a, a) == 0
    ensures Xor8(Xor8(a, b), b) == a
  {
  }

  lemma GfMulStep(r: bv8, a: bv8, b: bv8)
    requires b != 0
    ensures Xor8(r, GfMul(a, b)) == Xor8(if b & 1 != 0 then Xor8(r, a) else r, GfMul(XTime(a), b >> 1))
  {
    HalfLess(b);
    Xor8Laws(r, Term(a, b), GfMul(XTime(a), b >> 1));
    Xor8Laws(r, 0, 0);
  }

  /** gmul. */
  method GMul(a0: bv8, b0: bv8) returns (r: bv8)
    ensures r == GfMul(a0, b0)
  {
    r := 0;
    var a, b := a0, b0;
    Xor8Laws(GfMul(a0, b0), 0, 0);
    while b != 0
      invariant Xor8(r, GfMul(a, b)) == GfMul(a0, b0)
      decreases b
    {
      GfMulStep(r, a, b);
      HalfLess(b);
      if b & 1 != 0 {
        r := Xor8(r, a);
      }
      a := XTime(a);
      b := b >> 1;
    }
    Xor8Laws(r, 0, 0);
  }

  /** The multiples that MixColumns and InvMixColumns use, through doublings only. */
  function Times4(a: bv8): bv8 {
    XTime(XTime(a))
  }

  function Times8(a: bv8): bv8 {
    XTime(XTime(XTime(a)))
  }

  lemma GfMulOne(a: bv8)
    ensures GfMul(a, 1) == a
  {
    Xor8Laws(a, 0, 0);
  }

  lemma GfMulEven(a: bv8, b: bv8)
    requires b != 0 && b & 1 == 0
    ensures GfMul(a, b) == GfMul(XTime(a), b >> 1)
  {
    HalfLess(b);
    Xor8Laws(GfMul(XTime(a), b >> 1), 0, 0);
  }

  lemma GfMulOdd(a: bv8, b: bv8)
    requires b & 1 != 0
    ensures GfMul(a, b) == Xor8(a, GfMul(XTime(a), b >> 1))
  {
    HalfLess(b);
  }

  lemma GfMul02(a: bv8)
    ensures GfMul(a, 0x02) == XTime(a)
  {
    GfMulEven(a, 2);
    GfMulOne(XTime(a));
  }

  lemma GfMul03(a: bv8)
    ensures GfMul(a, 0x03) == Xor8(a, XTime(a))
  {
    GfMulOdd(a, 3);
    GfMulOne(XTime(a));
  }

  lemma GfMul09(a: bv8)
    ensures GfMul(a, 0x09) == Xor8(a, Times8(a))
  {
    GfMulOdd(a, 9);
    GfMulEven(XTime(a), 4);
    GfMul02(Times4(a));
  }

  lemma GfMul0B(a: bv8)
    ensures GfMul(a, 0x0B) == Xor8(a, Xor8(XTime(a), Times8(a)))
  {
    GfMulOdd(a, 0x0B);
    GfMulOdd(XTime(a), 5);
    GfMul02(Times4(a));
  }

  lemma GfMul0D(a: bv8)
    ensures GfMul(a, 0x0D) == Xor8(a, Xor8(Times4(a), Times8(a)))
  {
    GfMulOdd(a, 0x0D);
    GfMulEven(XTime(a), 6);
    GfMul03(Times4(a));
  }

  lemma GfMul0E(a: bv8)
    ensures GfMul(a, 0x0E) == Xor8(XTime(a), Xor8(Times4(a), Times8(a)))
  {
    GfMulEven(a, 0x0E);
    GfMulOdd(XTime(a), 7);
    GfMul03(Times4(a));
  }

  // ---- the S-box ----------------------------------------------------------------------------------

  function Sbox(i: bv8): bv8 {
    if i & 0x80 == 0 then
      if i & 0x40 == 0 then
        if i & 0x20 == 0 then
          if i & 0x10 == 0 then
            Row8(i, 0x63, 0x7C, 0x77, 0x7B, 0xF2, 0x6B, 0x6F, 0xC5, 0x30, 0x01, 0x67, 0x2B, 0xFE, 0xD7, 0xAB, 0x76)
          else
            Row8(i, 0xCA, 0x82, 0xC9, 0x7D, 0xFA, 0x59, 0x47, 0xF0, 0xAD, 0xD4, 0xA2, 0xAF, 0x9C, 0xA4, 0x72, 0xC0)
        else
          if i & 0x10 == 0 then
            Row8(i, 0xB7, 0xFD, 0x93, 0x26, 0x36, 0x3F, 0xF7, 0xCC, 0x34, 0xA5, 0xE5, 0xF1, 0x71, 0xD8, 0x31, 0x15)
          else
            Row8(i, 0x04, 0xC7, 0x23, 0xC3, 0x18, 0x96, 0x05, 0x9A, 0x07, 0x12, 0x80, 0xE2, 0xEB, 0x27, 0xB2, 0x75)
      else
        if i & 0x20 == 0 then
          if i & 0x10 == 0 then
            Row8(i, 0x09, 0x83, 0x2C, 0x1A, 0x1B, 0x6E, 0x5A, 0xA0, 0x52, 0x3B, 0xD6, 0xB3, 0x29, 0xE3, 0x2F, 0x84)
          else
            Row8(i, 0x53, 0xD1, 0x00, 0xED, 0x20, 0xFC, 0xB1, 0x5B, 0x6A, 0xCB, 0xBE, 0x39, 0x4A, 0x4C, 0x58, 0xCF)
        else
          if i & 0x10 == 0 then
            Row8(i, 0xD0, 0xEF, 0xAA, 0xFB, 0x43, 0x4D, 0x33, 0x85, 0x45, 0xF9, 0x02, 0x7F, 0x50, 0x3C, 0x9F, 0xA8)
          else
            Row8(i, 0x51, 0xA3, 0x40, 0x8F, 0x92, 0x9D, 0x38, 0xF5, 0xBC, 0xB6, 0xDA, 0x21, 0x10, 0xFF, 0xF3, 0xD2)
    else
      if i & 0x40 == 0 then
        if i & 0x20 == 0 then
          if i & 0x10 == 0 then
            Row8(i, 0xCD, 0x0C, 0x13, 0xEC, 0x5F, 0x97, 0x44, 0x17, 0xC4, 0xA7, 0x7E, 0x3D, 0x64, 0x5D, 0x19, 0x73)
          else
            Row8(i, 0x60, 0x81, 0x4F, 0xDC, 0x22, 0x2A, 0x90, 0x88, 0x46, 0xEE, 0xB8, 0x14, 0xDE, 0x5E, 0x0B, 0xDB)
        else
          if i & 0x10 == 0 then
            Row8(i, 0xE0, 0x32, 0x3A, 0x0A, 0x49, 0x06, 0x24, 0x5C, 0xC2, 0xD3, 0xAC, 0x62, 0x91, 0x95, 0xE4, 0x79)
          else
            Row8(i, 0xE7, 0xC8, 0x37, 0x6D, 0x8D, 0xD5, 0x4E, 0xA9, 0x6C, 0x56, 0xF4, 0xEA, 0x65, 0x7A, 0xAE, 0x08)
      else
        if i & 0x20 == 0 then
          if i & 0x10 == 0 then
            Row8(i, 0xBA, 0x78, 0x25, 0x2E, 0x1C, 0xA6, 0xB4, 0xC6, 0xE8, 0xDD, 0x74, 0x1F, 0x4B, 0xBD, 0x8B, 0x8A)
          else
            Row8(i, 0x70, 0x3E, 0xB5, 0x66, 0x48, 0x03, 0xF6, 0x0E, 0x61, 0x35, 0x57, 0xB9, 0x86, 0xC1, 0x1D, 0x9E)
        else
          if i & 0x10 == 0 then
            Row8(i, 0xE1, 0xF8, 0x98, 0x11, 0x69, 0xD9, 0x8E, 0x94, 0x9B, 0x1E, 0x87, 0xE9, 0xCE, 0x55, 0x28, 0xDF)
          else
            Row8(i, 0x8C, 0xA1, 0x89, 0x0D, 0xBF, 0xE6, 0x42, 0x68, 0x41, 0x99, 0x2D, 0x0F, 0xB0, 0x54, 0xBB, 0x16)
  }

  /** The inverse S-box of FIPS 197, which the decryption instructions apply. */
  function InvSbox(i: bv8): bv8 {
    if i & 0x80 == 0 then
      if i & 0x40 == 0 then
        if i & 0x20 == 0 then
          if i & 0x10 == 0 then
            Row8(i, 0x52, 0x09, 0x6A, 0xD5, 0x30, 0x36, 0xA5, 0x38, 0xBF, 0x40, 0xA3, 0x9E, 0x81, 0xF3, 0xD7, 0xFB)
          else
            Row8(i, 0x7C, 0xE3, 0x39, 0x82, 0x9B, 0x2F, 0xFF, 0x87, 0x34, 0x8E, 0x43, 0x44, 0xC4, 0xDE, 0xE9, 0xCB)
        else
          if i & 0x10 == 0 then
            Row8(i, 0x54, 0x7B, 0x94, 0x32, 0xA6, 0xC2, 0x23, 0x3D, 0xEE, 0x4C, 0x95, 0x0B, 0x42, 0xFA, 0xC3, 0x4E)
          else
            Row8(i, 0x08, 0x2E, 0xA1, 0x66, 0x28, 0xD9, 0x24, 0xB2, 0x76, 0x5B, 0xA2, 0x49, 0x6D, 0x8B, 0xD1, 0x25)
      else
        if i & 0x20 == 0 then
          if i & 0x10 == 0 then
            Row8(i, 0x72, 0xF8, 0xF6, 0x64, 0x86, 0x68, 0x98, 0x16, 0xD4, 0xA4, 0x5C, 0xCC, 0x5D, 0x65, 0xB6, 0x92)
          else
            Row8(i, 0x6C, 0x70, 0x48, 0x50, 0xFD, 0xED, 0xB9, 0xDA, 0x5E, 0x15, 0x46, 0x57, 0xA7, 0x8D, 0x9D, 0x84)
        else
          if i & 0x10 == 0 then
            Row8(i, 0x90, 0xD8, 0xAB, 0x00, 0x8C, 0xBC, 0xD3, 0x0A, 0xF7, 0xE4, 0x58, 0x05, 0xB8, 0xB3, 0x45, 0x06)
          else
            Row8(i, 0xD0, 0x2C, 0x1E, 0x8F, 0xCA, 0x3F, 0x0F, 0x02, 0xC1, 0xAF, 0xBD, 0x03, 0x01, 0x13, 0x8A, 0x6B)
    else
      if i & 0x40 == 0 then
        if i & 0x20 == 0 then
          if i & 0x10 == 0 then
            Row8(i, 0x3A, 0x91, 0x11, 0x41, 0x4F, 0x67, 0xDC, 0xEA, 0x97, 0xF2, 0xCF, 0xCE, 0xF0, 0xB4, 0xE6, 0x73)
          else
            Row8(i, 0x96, 0xAC, 0x74, 0x22, 0xE7, 0xAD, 0x35, 0x85, 0xE2, 0xF9, 0x37, 0xE8, 0x1C, 0x75, 0xDF, 0x6E)
        else
          if i & 0x10 == 0 then
            Row8(i, 0x47, 0xF1, 0x1A, 0x71, 0x1D, 0x29, 0xC5, 0x89, 0x6F, 0xB7, 0x62, 0x0E, 0xAA, 0x18, 0xBE, 0x1B)
          else
            Row8(i, 0xFC, 0x56, 0x3E, 0x4B, 0xC6, 0xD2, 0x79, 0x20, 0x9A, 0xDB, 0xC0, 0xFE, 0x78, 0xCD, 0x5A, 0xF4)
      else
        if i & 0x20 == 0 then
          if i & 0x10 == 0 then
            Row8(i, 0x1F, 0xDD, 0xA8, 0x33, 0x88, 0x07, 0xC7, 0x31, 0xB1, 0x12, 0x10, 0x59, 0x27, 0x80, 0xEC, 0x5F)
          else
            Row8(i, 0x60, 0x51, 0x7F, 0xA9, 0x19, 0xB5, 0x4A, 0x0D, 0x2D, 0xE5, 0x7A, 0x9F, 0x93, 0xC9, 0x9C, 0xEF)
        else
          if i & 0x10 == 0 then
            Row8(i, 0xA0, 0xE0, 0x3B, 0x4D, 0xAE, 0x2A, 0xF5, 0xB0, 0xC8, 0xEB, 0xBB, 0x3C, 0x83, 0x53, 0x99, 0x61)
          else
            Row8(i, 0x17, 0x2B, 0x04, 0x7E, 0xBA, 0x77, 0xD6, 0x26, 0xE1, 0x69, 0x14, 0x63, 0x55, 0x21, 0x0C, 0x7D)
  }

  lemma InvSboxSbox0(x: bv8)
    requires x >> 5 == 0
    ensures InvSbox(Sbox(x)) == x
  {
  }

  lemma InvSboxSbox1(x: bv8)
    requires x >> 5 == 1
    ensures InvSbox(Sbox(x)) == x
  {
  }

  lemma InvSboxSbox2(x: bv8)
    requires x >> 5 == 2
    ensures InvSbox(Sbox(x)) == x
  {
  }

  lemma InvSboxSbox3(x: bv8)
    requires x >> 5 == 3
    ensures InvSbox(Sbox(x)) == x
  {
  }

  lemma InvSboxSbox4(x: bv8)
    requires x >> 5 == 4
    ensures InvSbox(Sbox(x)) == x
  {
  }

  lemma InvSboxSbox5(x: bv8)
    requires x >> 5 == 5
    ensures InvSbox(Sbox(x)) == x
  {
  }

  lemma InvSboxSbox6(x: bv8)
    requires x >> 5 == 6
    ensures InvSbox(Sbox(x)) == x
  {
  }

  lemma InvSboxSbox7(x: bv8)
    requires x >> 5 == 7
    ensures InvSbox(Sbox(x)) == x
  {
  }

  /** The S-box is injective: its inverse table undoes it. */
  lemma InvSboxSbox(x: bv8)
    ensures InvSbox(Sbox(x)) == x
  {
    TopBits(x);
    if x >> 5 == 0 {
      InvSboxSbox0(x);
    } else if x >> 5 == 1 {
      InvSboxSbox1(x);
    } else if x >> 5 == 2 {
      InvSboxSbox2(x);
    } else if x >> 5 == 3 {
      InvSboxSbox3(x);
    } else if x >> 5 == 4 {
      InvSboxSbox4(x);
    } else if x >> 5 == 5 {
      InvSboxSbox5(x);
    } else if x >> 5 == 6 {
      InvSboxSbox6(x);
    } else {
      InvSboxSbox7(x);
    }
  }

  lemma TopBits(x: bv8)
    ensures x >> 5 <= 7
  {
  }

  // ---- columns ------------------------------------------------------------------------------------

  datatype Col = Col(b0: bv8, b1: bv8, b2: bv8, b3: bv8)

  function XorCol(c: Col, d: Col): Col {
    Col(Xor8(c.b0, d.b0), Xor8(c.b1, d.b1), Xor8(c.b2, d.b2), Xor8(c.b3, d.b3))
  }

  /** One output byte of MixColumns, and of InvMixColumns, from the column rotated to start at it. */
  function MixByte(a: bv8, b: bv8, c: bv8, d: bv8): bv8 {
    Sum4(GfMul(a, 0x02), GfMul(b, 0x03), c, d)
  }

  function UnmixByte(a: bv8, b: bv8, c: bv8, d: bv8): bv8 {
    Sum4(GfMul(a, 0x0E), GfMul(b, 0x0B), GfMul(c, 0x0D), GfMul(d, 0x09))
  }

  function MixColumn(c: Col): Col {
    Col(MixByte(c.b0, c.b1, c.b2, c.b3), MixByte(c.b1, c.b2, c.b3, c.b0),
        MixByte(c.b2, c.b3, c.b0, c.b1), MixByte(c.b3, c.b0, c.b1, c.b2))
  }

  function UnmixColumn(c: Col): Col {
    Col(UnmixByte(c.b0, c.b1, c.b2, c.b3), UnmixByte(c.b1, c.b2, c.b3, c.b0),
        UnmixByte(c.b2, c.b3, c.b0, c.b1), UnmixByte(c.b3, c.b0, c.b1, c.b2))
  }

  lemma XTimeXorLow(a: bv8, b: bv8)
    requires a & 0x80 == 0
    ensures XTime(a ^ b) == XTime(a) ^ XTime(b)
  {
  }

  lemma XTimeXorHigh(a: bv8, b: bv8)
    requires a & 0x80 != 0 && b & 0x80 != 0
    ensures XTime(a ^ b) == XTime(a) ^ XTime(b)
  {
  }

  lemma XTimeXor(a: bv8, b: bv8)
    ensures XTime(Xor8(a, b)) == Xor8(XTime(a), XTime(b))
  {
    if a & 0x80 == 0 {
      XTimeXorLow(a, b);
    } else if b & 0x80 == 0 {
      XTimeXorLow(b, a);
      Xor8Laws(a, b, 0);
      Xor8Laws(XTime(a), XTime(b), 0);
    } else {
      XTimeXorHigh(a, b);
    }
  }

  lemma Xor8Swap(a: bv8, b: bv8, c: bv8, d: bv8)
    ensures Xor8(Xor8(a, b), Xor8(c, d)) == Xor8(Xor8(a, c), Xor8(b, d))
  {
    assert (a ^ b) ^ (c ^ d) == (a ^ c) ^ (b ^ d);
  }

  /** Multiplication is linear in its first factor. */
  lemma {:induction false} GfMulXor(a: bv8, c: bv8, b: bv8)
    ensures GfMul(Xor8(a, c), b) == Xor8(GfMul(a, b), GfMul(c, b))
    decreases b
  {
    if b != 0 {
      HalfLess(b);
      XTimeXor(a, c);
      GfMulXor(XTime(a), XTime(c), b >> 1);
      Xor8Laws(0, 0, 0);
      assert Term(Xor8(a, c), b) == Xor8(Term(a, b), Term(c, b));
      Xor8Swap(Term(a, b), Term(c, b), GfMul(XTime(a), b >> 1), GfMul(XTime(c), b >> 1));
    }
  }

  function Sum4(a: bv8, b: bv8, c: bv8, d: bv8): bv8 {
    Xor8(Xor8(a, b), Xor8(c, d))
  }

  lemma AddRows(a: bv8, b: bv8, c: bv8, d: bv8, e: bv8, f: bv8, g: bv8, h: bv8)
    ensures Xor8(Sum4(a, b, c, d), Sum4(e, f, g, h)) == Sum4(Xor8(a, e), Xor8(b, f), Xor8(c, g), Xor8(d, h))
  {
    Xor8Swap(Xor8(a, b), Xor8(c, d), Xor8(e, f), Xor8(g, h));
    Xor8Swap(a, b, e, f);
    Xor8Swap(c, d, g, h);
  }

  lemma RotateSum(a: bv8, b: bv8, c: bv8, d: bv8)
    ensures Sum4(b, c, d, a) == Sum4(a, b, c, d)
  {
    Xor8Laws(d, a, 0);
    Xor8Laws(Xor8(b, c), Xor8(a, d), 0);
    Xor8Swap(a, d, b, c);
    Xor8Laws(d, c, 0);
  }

  lemma UnmixByteXor(a: bv8, b: bv8, c: bv8, d: bv8, e: bv8, f: bv8, g: bv8, h: bv8)
    ensures UnmixByte(Xor8(a, e), Xor8(b, f), Xor8(c, g), Xor8(d, h)) ==
            Xor8(UnmixByte(a, b, c, d), UnmixByte(e, f, g, h))
  {
    GfMulXor(a, e, 0x0E);
    GfMulXor(b, f, 0x0B);
    GfMulXor(c, g, 0x0D);
    GfMulXor(d, h, 0x09);
    AddRows(GfMul(a, 0x0E), GfMul(b, 0x0B), GfMul(c, 0x0D), GfMul(d, 0x09),
            GfMul(e, 0x0E), GfMul(f, 0x0B), GfMul(g, 0x0D), GfMul(h, 0x09));
  }

  /** InvMixColumns is linear. */
  lemma UnmixColumnXor(c: Col, d: Col)
    ensures UnmixColumn(XorCol(c, d)) == XorCol(UnmixColumn(c), UnmixColumn(d))
  {
    UnmixByteXor(c.b0, c.b1, c.b2, c.b3, d.b0, d.b1, d.b2, d.b3);
    UnmixByteXor(c.b1, c.b2, c.b3, c.b0, d.b1, d.b2, d.b3, d.b0);
    UnmixByteXor(c.b2, c.b3, c.b0, c.b1, d.b2, d.b3, d.b0, d.b1);
    UnmixByteXor(c.b3, c.b0, c.b1, c.b2, d.b3, d.b0, d.b1, d.b2);
  }

  lemma GfMulMix(a: bv8, b: bv8, c: bv8, d: bv8, k: bv8)
    ensures GfMul(MixByte(a, b, c, d), k) ==
            Sum4(GfMul(GfMul(a, 2), k), GfMul(GfMul(b, 3), k), GfMul(c, k), GfMul(d, k))
  {
    GfMulXor(Xor8(GfMul(a, 2), GfMul(b, 3)), Xor8(c, d), k);
    GfMulXor(GfMul(a, 2), GfMul(b, 3), k);
    GfMulXor(c, d, k);
  }

  /** Twice and three times a byte, times any factor. */
  lemma TwiceTimes(a: bv8, k: bv8)
    ensures GfMul(GfMul(a, 2), k) == GfMul(XTime(a), k)
  {
    GfMul02(a);
  }

  lemma ThriceTimes(a: bv8, k: bv8)
    ensures GfMul(GfMul(a, 3), k) == Xor8(GfMul(a, k), GfMul(XTime(a), k))
  {
    GfMul03(a);
    GfMulXor(a, XTime(a), k);
  }

  /** How the four coefficients of InvMixColumns meet those of MixColumns: once to one, three times to zero. */
  lemma Diagonal(a: bv8)
    ensures Sum4(GfMul(GfMul(a, 2), 0x0E), GfMul(a, 0x0B), GfMul(a, 0x0D), GfMul(GfMul(a, 3), 0x09)) == a
  {
    TwiceTimes(a, 0x0E);
    ThriceTimes(a, 0x09);
    GfMul0E(XTime(a));
    GfMul0B(a);
    GfMul0D(a);
    GfMul09(a);
    GfMul09(XTime(a));
    DiagonalSum(GfMul(GfMul(a, 2), 0x0E), GfMul(a, 0x0B), GfMul(a, 0x0D), GfMul(GfMul(a, 3), 0x09),
      a, XTime(a), Times4(a), Times8(a), XTime(Times8(a)));
  }

  lemma DiagonalSum(p: bv8, q: bv8, r: bv8, s: bv8, a: bv8, a2: bv8, a4: bv8, a8: bv8, a16: bv8)
    requires p == Xor8(a4, Xor8(a8, a16))
    requires q == Xor8(a, Xor8(a2, a8))
    requires r == Xor8(a, Xor8(a4, a8))
    requires s == Xor8(Xor8(a, a8), Xor8(a2, a16))
    ensures Sum4(p, q, r, s) == a
  {
    CancelDiagonal(a, a2, a4, a8, a16);
  }

  lemma CancelDiagonal(a: bv8, a2: bv8, a4: bv8, a8: bv8, a16: bv8)
    ensures ((a4 ^ (a8 ^ a16)) ^ (a ^ (a2 ^ a8))) ^ ((a ^ (a4 ^ a8)) ^ ((a ^ a8) ^ (a2 ^ a16))) == a
  {
  }

  lemma OffDiagonal1(b: bv8)
    ensures Sum4(GfMul(GfMul(b, 3), 0x0E), GfMul(GfMul(b, 2), 0x0B), GfMul(b, 0x0D), GfMul(b, 0x09)) == 0
  {
    ThriceTimes(b, 0x0E);
    TwiceTimes(b, 0x0B);
    GfMul0E(b);
    GfMul0E(XTime(b));
    GfMul0B(XTime(b));
    GfMul0D(b);
    GfMul09(b);
    OffDiagonal1Sum(GfMul(GfMul(b, 3), 0x0E), GfMul(GfMul(b, 2), 0x0B), GfMul(b, 0x0D), GfMul(b, 0x09),
      b, XTime(b), Times4(b), Times8(b), XTime(Times8(b)));
  }

  lemma OffDiagonal1Sum(p: bv8, q: bv8, r: bv8, s: bv8, b: bv8, b2: bv8, b4: bv8, b8: bv8, b16: bv8)
    requires p == Xor8(Xor8(b2, Xor8(b4, b8)), Xor8(b4, Xor8(b8, b16)))
    requires q == Xor8(b2, Xor8(b4, b16))
    requires r == Xor8(b, Xor8(b4, b8))
    requires s == Xor8(b, b8)
    ensures Sum4(p, q, r, s) == 0
  {
    CancelOffDiagonal1(b, b2, b4, b8, b16);
  }

  lemma CancelOffDiagonal1(b: bv8, b2: bv8, b4: bv8, b8: bv8, b16: bv8)
    ensures (((b2 ^ (b4 ^ b8)) ^ (b4 ^ (b8 ^ b16))) ^ (b2 ^ (b4 ^ b16))) ^ ((b ^ (b4 ^ b8)) ^ (b ^ b8)) == 0
  {
  }

  lemma OffDiagonal2(c: bv8)
    ensures Sum4(GfMul(c, 0x0E), GfMul(GfMul(c, 3), 0x0B), GfMul(GfMul(c, 2), 0x0D), GfMul(c, 0x09)) == 0
  {
    ThriceTimes(c, 0x0B);
    TwiceTimes(c, 0x0D);
    GfMul0E(c);
    GfMul0B(c);
    GfMul0B(XTime(c));
    GfMul0D(XTime(c));
    GfMul09(c);
    OffDiagonal2Sum(GfMul(c, 0x0E), GfMul(GfMul(c, 3), 0x0B), GfMul(GfMul(c, 2), 0x0D), GfMul(c, 0x09),
      c, XTime(c), Times4(c), Times8(c), XTime(Times8(c)));
  }

  lemma OffDiagonal2Sum(p: bv8, q: bv8, r: bv8, s: bv8, c: bv8, c2: bv8, c4: bv8, c8: bv8, c16: bv8)
    requires p == Xor8(c2, Xor8(c4, c8))
    requires q == Xor8(Xor8(c, Xor8(c2, c8)), Xor8(c2, Xor8(c4, c16)))
    requires r == Xor8(c2, Xor8(c8, c16))
    requires s == Xor8(c, c8)
    ensures Sum4(p, q, r, s) == 0
  {
    CancelOffDiagonal2(c, c2, c4, c8, c16);
  }

  lemma CancelOffDiagonal2(c: bv8, c2: bv8, c4: bv8, c8: bv8, c16: bv8)
    ensures ((c2 ^ (c4 ^ c8)) ^ ((c ^ (c2 ^ c8)) ^ (c2 ^ (c4 ^ c16)))) ^ ((c2 ^ (c8 ^ c16)) ^ (c ^ c8)) == 0
  {
  }

  lemma OffDiagonal3(d: bv8)
    ensures Sum4(GfMul(d, 0x0E), GfMul(d, 0x0B), GfMul(GfMul(d, 3), 0x0D), GfMul(GfMul(d, 2), 0x09)) == 0
  {
    ThriceTimes(d, 0x0D);
    TwiceTimes(d, 0x09);
    GfMul0E(d);
    GfMul0B(d);
    GfMul0D(d);
    GfMul0D(XTime(d));
    GfMul09(XTime(d));
    OffDiagonal3Sum(GfMul(d, 0x0E), GfMul(d, 0x0B), GfMul(GfMul(d, 3), 0x0D), GfMul(GfMul(d, 2), 0x09),
      d, XTime(d), Times4(d), Times8(d), XTime(Times8(d)));
  }

  lemma OffDiagonal3Sum(p: bv8, q: bv8, r: bv8, s: bv8, d: bv8, d2: bv8, d4: bv8, d8: bv8, d16: bv8)
    requires p == Xor8(d2, Xor8(d4, d8))
    requires q == Xor8(d, Xor8(d2, d8))
    requires r == Xor8(Xor8(d, Xor8(d4, d8)), Xor8(d2, Xor8(d8, d16)))
    requires s == Xor8(d2, d16)
    ensures Sum4(p, q, r, s) == 0
  {
    CancelOffDiagonal3(d, d2, d4, d8, d16);
  }

  lemma CancelOffDiagonal3(d: bv8, d2: bv8, d4: bv8, d8: bv8, d16: bv8)
    ensures ((d2 ^ (d4 ^ d8)) ^ (d ^ (d2 ^ d8))) ^ (((d ^ (d4 ^ d8)) ^ (d2 ^ (d8 ^ d16))) ^ (d2 ^ d16)) == 0
  {
  }

  /** Sums sixteen terms once by rows and once by columns. */
  lemma SumByColumns(a0: bv8, a1: bv8, a2: bv8, a3: bv8, b0: bv8, b1: bv8, b2: bv8, b3: bv8,
                     c0: bv8, c1: bv8, c2: bv8, c3: bv8, d0: bv8, d1: bv8, d2: bv8, d3: bv8)
    ensures Sum4(Sum4(a0, b0, c0, d0), Sum4(b1, c1, d1, a1), Sum4(c2, d2, a2, b2), Sum4(d3, a3, b3, c3))
         == Sum4(Sum4(a0, a1, a2, a3), Sum4(b0, b1, b2, b3), Sum4(c0, c1, c2, c3), Sum4(d0, d1, d2, d3))
  {
    RotateSum(a1, b1, c1, d1);
    RotateSum(a2, b2, c2, d2);
    RotateSum(b2, c2, d2, a2);
    RotateSum(d3, a3, b3, c3);
    AddRows(a0, b0, c0, d0, a1, b1, c1, d1);
    AddRows(a2, b2, c2, d2, a3, b3, c3, d3);
    AddRows(Xor8(a0, a1), Xor8(b0, b1), Xor8(c0, c1), Xor8(d0, d1),
            Xor8(a2, a3), Xor8(b2, b3), Xor8(c2, c3), Xor8(d2, d3));
  }

  lemma OnlyFirst(a: bv8, b: bv8, c: bv8, d: bv8)
    requires b == 0 && c == 0 && d == 0
    ensures Sum4(a, b, c, d) == a
  {
  }

  lemma UnmixMixByte(a: bv8, b: bv8, c: bv8, d: bv8)
    ensures UnmixByte(MixByte(a, b, c, d), MixByte(b, c, d, a), MixByte(c, d, a, b), MixByte(d, a, b, c)) == a
  {
    GfMulMix(a, b, c, d, 0x0E);
    GfMulMix(b, c, d, a, 0x0B);
    GfMulMix(c, d, a, b, 0x0D);
    GfMulMix(d, a, b, c, 0x09);
    Diagonal(a);
    OffDiagonal1(b);
    OffDiagonal2(c);
    OffDiagonal3(d);
    SumByColumns(
      GfMul(GfMul(a, 2), 0x0E), GfMul(a, 0x0B), GfMul(a, 0x0D), GfMul(GfMul(a, 3), 0x09),
      GfMul(GfMul(b, 3), 0x0E), GfMul(GfMul(b, 2), 0x0B), GfMul(b, 0x0D), GfMul(b, 0x09),
      GfMul(c, 0x0E), GfMul(GfMul(c, 3), 0x0B), GfMul(GfMul(c, 2), 0x0D), GfMul(c, 0x09),
      GfMul(d, 0x0E), GfMul(d, 0x0B), GfMul(GfMul(d, 3), 0x0D), GfMul(GfMul(d, 2), 0x09));
    OnlyFirst(
      Sum4(GfMul(GfMul(a, 2), 0x0E), GfMul(a, 0x0B), GfMul(a, 0x0D), GfMul(GfMul(a, 3), 0x09)),
      Sum4(GfMul(GfMul(b, 3), 0x0E), GfMul(GfMul(b, 2), 0x0B), GfMul(b, 0x0D), GfMul(b, 0x09)),
      Sum4(GfMul(c, 0x0E), GfMul(GfMul(c, 3), 0x0B), GfMul(GfMul(c, 2), 0x0D), GfMul(c, 0x09)),
      Sum4(GfMul(d, 0x0E), GfMul(d, 0x0B), GfMul(GfMul(d, 3), 0x0D), GfMul(GfMul(d, 2), 0x09)));
  }

  /** InvMixColumns undoes MixColumns. */
  lemma UnmixMixColumn(c: Col)
    ensures UnmixColumn(MixColumn(c)) == c
  {
    UnmixMixByte(c.b0, c.b1, c.b2, c.b3);
    UnmixMixByte(c.b1, c.b2, c.b3, c.b0);
    UnmixMixByte(c.b2, c.b3, c.b0, c.b1);
    UnmixMixByte(c.b3, c.b0, c.b1, c.b2);
  }
}
