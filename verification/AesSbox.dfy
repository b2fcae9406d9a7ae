/** The law of the AES S-box (section 5.1.1 of FIPS 197): the inverse in the byte field and an affine map. */
module AesSbox {
  import opened Words
  import opened AesField

  // ---- the product, term by term ------------------------------------------------------------------

  function Pick(b: bv8, bit: bv8, a: bv8): bv8 {
    if b & bit != 0 then a else 0
  }

  /** The product of the byte field with its eight terms written out. */
  function Product(a: bv8, b: bv8): bv8 {
    var a1 := XTime(a);
    var a2 := XTime(a1);
    var a3 := XTime(a2);
    var a4 := XTime(a3);
    var a5 := XTime(a4);
    var a6 := XTime(a5);
    var a7 := XTime(a6);
    Xor8(Pick(b, 1, a), Xor8(Pick(b, 2, a1), Xor8(Pick(b, 4, a2), Xor8(Pick(b, 8, a3),
         Xor8(Pick(b, 16, a4), Xor8(Pick(b, 32, a5), Xor8(Pick(b, 64, a6), Pick(b, 128, a7))))))))
  }

  lemma Unfold(a: bv8, b: bv8)
    ensures GfMul(a, b) == Xor8(Term(a, b), GfMul(XTime(a), Halved(b)))
  {
    if b != 0 {
      HalfLess(b);
    } else {
      Xor8Laws(0, 0, 0);
    }
  }

  function Halved(b: bv8): bv8 {
    b >> 1
  }

  lemma Picks(a: bv8, b: bv8)
    ensures Term(a, b) == Pick(b, 1, a) && Term(a, b >> 1) == Pick(b, 2, a) && Term(a, b >> 2) == Pick(b, 4, a)
    ensures Term(a, b >> 3) == Pick(b, 8, a) && Term(a, b >> 4) == Pick(b, 16, a) && Term(a, b >> 5) == Pick(b, 32, a)
    ensures Term(a, b >> 6) == Pick(b, 64, a) && Term(a, b >> 7) == Pick(b, 128, a)
  {
  }

  lemma Halvings(b: bv8)
    ensures Halved(b) == b >> 1 && Halved(b >> 1) == b >> 2 && Halved(b >> 2) == b >> 3 && Halved(b >> 3) == b >> 4
    ensures Halved(b >> 4) == b >> 5 && Halved(b >> 5) == b >> 6 && Halved(b >> 6) == b >> 7 && Halved(b >> 7) == 0
  {
  }

  lemma UpperHalf(a4: bv8, b: bv8)
    ensures var a5 := XTime(a4);
            var a6 := XTime(a5);
            GfMul(a4, b >> 4) ==
            Xor8(Pick(b, 16, a4), Xor8(Pick(b, 32, a5), Xor8(Pick(b, 64, a6), Pick(b, 128, XTime(a6)))))
  {
    var a5 := XTime(a4);
    var a6 := XTime(a5);
    var a7 := XTime(a6);
    Halvings(b);
    Unfold(a4, b >> 4);
    Unfold(a5, b >> 5);
    Unfold(a6, b >> 6);
    Unfold(a7, b >> 7);
    Xor8Laws(Term(a7, b >> 7), 0, 0);
    Picks(a4, b);
    Picks(a5, b);
    Picks(a6, b);
    Picks(a7, b);
  }

  lemma LowerHalf(a: bv8, b: bv8)
    ensures var a1 := XTime(a);
            var a2 := XTime(a1);
            var a3 := XTime(a2);
            GfMul(a, b) == Xor8(Pick(b, 1, a), Xor8(Pick(b, 2, a1), Xor8(Pick(b, 4, a2),
                                Xor8(Pick(b, 8, a3), GfMul(XTime(a3), b >> 4)))))
  {
    var a1 := XTime(a);
    var a2 := XTime(a1);
    var a3 := XTime(a2);
    Halvings(b);
    Unfold(a, b);
    Unfold(a1, b >> 1);
    Unfold(a2, b >> 2);
    Unfold(a3, b >> 3);
    Picks(a, b);
    Picks(a1, b);
    Picks(a2, b);
    Picks(a3, b);
  }

  lemma GfMulIsProduct(a: bv8, b: bv8)
    ensures GfMul(a, b) == Product(a, b)
  {
    LowerHalf(a, b);
    UpperHalf(XTime(XTime(XTime(XTime(a)))), b);
  }

  // ---- inverses -----------------------------------------------------------------------------------

  lemma RawHalves(x: bv8, y: bv8)
    ensures (x ^ y) >> 1 == (x >> 1) ^ (y >> 1) && (x | y) >> 1 == (x >> 1) | (y >> 1)
    ensures x | y == 0 <==> x == 0 && y == 0
  {
  }

  lemma TermXorRight(a: bv8, x: bv8, y: bv8)
    ensures Term(a, Xor8(x, y)) == Xor8(Term(a, x), Term(a, y))
  {
  }

  /** The product is linear in its second factor. */
  lemma {:induction false} GfMulXorRight(a: bv8, x: bv8, y: bv8)
    ensures GfMul(a, Xor8(x, y)) == Xor8(GfMul(a, x), GfMul(a, y))
    decreases x | y
  {
    RawHalves(x, y);
    if x | y == 0 {
      Xor8Laws(0, 0, 0);
    } else {
      HalfLess(x | y);
      GfMulXorRight(XTime(a), x >> 1, y >> 1);
      XorRightStep(a, x, y);
    }
  }

  lemma XorRightStep(a: bv8, x: bv8, y: bv8)
    requires var b := XTime(a);
             GfMul(b, Xor8(Halved(x), Halved(y))) == Xor8(GfMul(b, Halved(x)), GfMul(b, Halved(y)))
    ensures GfMul(a, Xor8(x, y)) == Xor8(GfMul(a, x), GfMul(a, y))
  {
    Unfold(a, Xor8(x, y));
    Unfold(a, x);
    Unfold(a, y);
    RawHalves(x, y);
    TermXorRight(a, x, y);
    Xor8Swap(Term(a, x), Term(a, y), GfMul(XTime(a), Halved(x)), GfMul(XTime(a), Halved(y)));
  }

  lemma NoZeroDivisors0(a: bv8, b: bv8)
    requires a >> 5 == 0 && Product(a, b) == 0
    ensures a == 0 || b == 0
  {
  }

  lemma NoZeroDivisors1(a: bv8, b: bv8)
    requires a >> 5 == 1 && Product(a, b) == 0
    ensures a == 0 || b == 0
  {
  }

  lemma NoZeroDivisors2(a: bv8, b: bv8)
    requires a >> 5 == 2 && Product(a, b) == 0
    ensures a == 0 || b == 0
  {
  }

  lemma NoZeroDivisors3(a: bv8, b: bv8)
    requires a >> 5 == 3 && Product(a, b) == 0
    ensures a == 0 || b == 0
  {
  }

  lemma NoZeroDivisors4(a: bv8, b: bv8)
    requires a >> 5 == 4 && Product(a, b) == 0
    ensures a == 0 || b == 0
  {
  }

  lemma NoZeroDivisors5(a: bv8, b: bv8)
    requires a >> 5 == 5 && Product(a, b) == 0
    ensures a == 0 || b == 0
  {
  }

  lemma NoZeroDivisors6(a: bv8, b: bv8)
    requires a >> 5 == 6 && Product(a, b) == 0
    ensures a == 0 || b == 0
  {
  }

  lemma NoZeroDivisors7(a: bv8, b: bv8)
    requires a >> 5 == 7 && Product(a, b) == 0
    ensures a == 0 || b == 0
  {
  }

  lemma NoZeroDivisors(a: bv8, b: bv8)
    requires Product(a, b) == 0
    ensures a == 0 || b == 0
  {
    TopBits(a);
    if a >> 5 == 0 {
      NoZeroDivisors0(a, b);
    } else if a >> 5 == 1 {
      NoZeroDivisors1(a, b);
    } else if a >> 5 == 2 {
      NoZeroDivisors2(a, b);
    } else if a >> 5 == 3 {
      NoZeroDivisors3(a, b);
    } else if a >> 5 == 4 {
      NoZeroDivisors4(a, b);
    } else if a >> 5 == 5 {
      NoZeroDivisors5(a, b);
    } else if a >> 5 == 6 {
      NoZeroDivisors6(a, b);
    } else {
      NoZeroDivisors7(a, b);
    }
  }

  /** x is the inverse of b; zero is mapped to itself. */
  predicate IsInverse(b: bv8, x: bv8) {
    if b == 0 then x == 0 else GfMul(b, x) == 1
  }

  lemma InverseUnique(b: bv8, x: bv8, y: bv8)
    requires IsInverse(b, x) && IsInverse(b, y)
    ensures x == y
  {
    if b != 0 {
      GfMulXorRight(b, x, y);
      Xor8Laws(1, 1, 0);
      GfMulIsProduct(b, Xor8(x, y));
      NoZeroDivisors(b, Xor8(x, y));
      Xor8Laws(x, y, 0);
      XorZero(x, y);
    }
  }

  lemma XorZero(x: bv8, y: bv8)
    requires Xor8(x, y) == 0
    ensures x == y
  {
  }

  // ---- the affine map -----------------------------------------------------------------------------

  /** Bit i of the result is the sum of bits i, i + 4, i + 5, i + 6 and i + 7, modulo 8, and of bit i of 63. */
  function Affine(x: bv8): bv8 {
    x ^ ((x << 1) | (x >> 7)) ^ ((x << 2) | (x >> 6)) ^ ((x << 3) | (x >> 5)) ^ ((x << 4) | (x >> 4)) ^ 0x63
  }

  function Bit(x: bv8, i: bv3): bv8 {
    (x >> i) & 1
  }

  lemma AffineBits(x: bv8, i: bv3)
    ensures Bit(Affine(x), i) ==
            Bit(x, i) ^ Bit(x, i + 4) ^ Bit(x, i + 5) ^ Bit(x, i + 6) ^ Bit(x, i + 7) ^ Bit(0x63, i)
  {
  }

  function Unaffine(y: bv8): bv8 {
    ((y << 1) | (y >> 7)) ^ ((y << 3) | (y >> 5)) ^ ((y << 6) | (y >> 2)) ^ 0x05
  }

  lemma AffineUnaffine(y: bv8)
    ensures Affine(Unaffine(y)) == y
  {
  }

  predicate InvertedBy(b: bv8, x: bv8) {
    if b == 0 then x == 0 else Product(b, x) == 1
  }

  lemma InverseRow0(i: bv8)
    requires i & 0x80 == 0 && i & 0x40 == 0 && i & 0x20 == 0 && i & 0x10 == 0
    ensures InvertedBy(i, Unaffine(Sbox(i)))
  {
  }

  lemma InverseRow1(i: bv8)
    requires i & 0x80 == 0 && i & 0x40 == 0 && i & 0x20 == 0 && i & 0x10 != 0
    ensures InvertedBy(i, Unaffine(Sbox(i)))
  {
  }

  lemma InverseRow2(i: bv8)
    requires i & 0x80 == 0 && i & 0x40 == 0 && i & 0x20 != 0 && i & 0x10 == 0
    ensures InvertedBy(i, Unaffine(Sbox(i)))
  {
  }

  lemma InverseRow3(i: bv8)
    requires i & 0x80 == 0 && i & 0x40 == 0 && i & 0x20 != 0 && i & 0x10 != 0
    ensures InvertedBy(i, Unaffine(Sbox(i)))
  {
  }

  lemma InverseRow4(i: bv8)
    requires i & 0x80 == 0 && i & 0x40 != 0 && i & 0x20 == 0 && i & 0x10 == 0
    ensures InvertedBy(i, Unaffine(Sbox(i)))
  {
  }

  lemma InverseRow5(i: bv8)
    requires i & 0x80 == 0 && i & 0x40 != 0 && i & 0x20 == 0 && i & 0x10 != 0
    ensures InvertedBy(i, Unaffine(Sbox(i)))
  {
  }

  lemma InverseRow6(i: bv8)
    requires i & 0x80 == 0 && i & 0x40 != 0 && i & 0x20 != 0 && i & 0x10 == 0
    ensures InvertedBy(i, Unaffine(Sbox(i)))
  {
  }

  lemma InverseRow7(i: bv8)
    requires i & 0x80 == 0 && i & 0x40 != 0 && i & 0x20 != 0 && i & 0x10 != 0
    ensures InvertedBy(i, Unaffine(Sbox(i)))
  {
  }

  lemma InverseRow8(i: bv8)
    requires i & 0x80 != 0 && i & 0x40 == 0 && i & 0x20 == 0 && i & 0x10 == 0
    ensures InvertedBy(i, Unaffine(Sbox(i)))
  {
  }

  lemma InverseRow9(i: bv8)
    requires i & 0x80 != 0 && i & 0x40 == 0 && i & 0x20 == 0 && i & 0x10 != 0
    ensures InvertedBy(i, Unaffine(Sbox(i)))
  {
  }

  lemma InverseRowA(i: bv8)
    requires i & 0x80 != 0 && i & 0x40 == 0 && i & 0x20 != 0 && i & 0x10 == 0
    ensures InvertedBy(i, Unaffine(Sbox(i)))
  {
  }

  lemma InverseRowB(i: bv8)
    requires i & 0x80 != 0 && i & 0x40 == 0 && i & 0x20 != 0 && i & 0x10 != 0
    ensures InvertedBy(i, Unaffine(Sbox(i)))
  {
  }

  lemma InverseRowC(i: bv8)
    requires i & 0x80 != 0 && i & 0x40 != 0 && i & 0x20 == 0 && i & 0x10 == 0
    ensures InvertedBy(i, Unaffine(Sbox(i)))
  {
  }

  lemma InverseRowD(i: bv8)
    requires i & 0x80 != 0 && i & 0x40 != 0 && i & 0x20 == 0 && i & 0x10 != 0
    ensures InvertedBy(i, Unaffine(Sbox(i)))
  {
  }

  lemma InverseRowE(i: bv8)
    requires i & 0x80 != 0 && i & 0x40 != 0 && i & 0x20 != 0 && i & 0x10 == 0
    ensures InvertedBy(i, Unaffine(Sbox(i)))
  {
  }

  lemma InverseRowF(i: bv8)
    requires i & 0x80 != 0 && i & 0x40 != 0 && i & 0x20 != 0 && i & 0x10 != 0
    ensures InvertedBy(i, Unaffine(Sbox(i)))
  {
  }

  lemma InverseRows(i: bv8)
    ensures InvertedBy(i, Unaffine(Sbox(i)))
  {
    if i & 0x80 == 0 {
      if i & 0x40 == 0 {
        if i & 0x20 == 0 {
          if i & 0x10 == 0 {
            InverseRow0(i);
          } else {
            InverseRow1(i);
          }
        } else {
          if i & 0x10 == 0 {
            InverseRow2(i);
          } else {
            InverseRow3(i);
          }
        }
      } else {
        if i & 0x20 == 0 {
          if i & 0x10 == 0 {
            InverseRow4(i);
          } else {
            InverseRow5(i);
          }
        } else {
          if i & 0x10 == 0 {
            InverseRow6(i);
          } else {
            InverseRow7(i);
          }
        }
      }
    } else {
      if i & 0x40 == 0 {
        if i & 0x20 == 0 {
          if i & 0x10 == 0 {
            InverseRow8(i);
          } else {
            InverseRow9(i);
          }
        } else {
          if i & 0x10 == 0 {
            InverseRowA(i);
          } else {
            InverseRowB(i);
          }
        }
      } else {
        if i & 0x20 == 0 {
          if i & 0x10 == 0 {
            InverseRowC(i);
          } else {
            InverseRowD(i);
          }
        } else {
          if i & 0x10 == 0 {
            InverseRowE(i);
          } else {
            InverseRowF(i);
          }
        }
      }
    }
  }

  lemma InverseExists(b: bv8)
    ensures IsInverse(b, Unaffine(Sbox(b)))
  {
    InverseRows(b);
    GfMulIsProduct(b, Unaffine(Sbox(b)));
  }

  ghost function FieldInverse(b: bv8): (x: bv8)
    ensures IsInverse(b, x)
  {
    InverseExists(b);
    var x :| IsInverse(b, x);
    x
  }

  /** Every entry of the table is the affine map of the inverse of its index. */
  lemma SboxIsAffineOfInverse(b: bv8)
    ensures Sbox(b) == Affine(FieldInverse(b))
  {
    InverseExists(b);
    InverseUnique(b, FieldInverse(b), Unaffine(Sbox(b)));
    AffineUnaffine(Sbox(b));
  }
}
