/**
 Twofish after its specification: sixteen rounds around the function F with its two calls of h, the pseudo-Hadamard
 transform and the one-bit rotations, the subkeys, and the Reed-Solomon matrix.  The q permutations and the MDS columns
 are those of h and stay a parameter.
 */
module TwofishReference {
  import opened Words
  import opened Schedule
  import Twofish
  import opened TwofishKeys

  // ---- the specification --------------------------------------------------------------------------

  function Plus(a: bv32, b: bv32): bv32 {
    a + b
  }

  function Diff(a: bv32, b: bv32): bv32 {
    a ^ b
  }

  function RotL1(x: bv32): bv32 {
    (x << 1) | (x >> 31)
  }

  function RotR1(x: bv32): bv32 {
    (x >> 1) | (x << 31)
  }

  function RotL8(x: bv32): bv32 {
    (x << 8) | (x >> 24)
  }

  function RotL9(x: bv32): bv32 {
    (x << 9) | (x >> 23)
  }

  /** g(X) = h(X, S). */
  function G(bx: Boxes, key: seq<bv8>, x: bv32): bv32
    requires |key| == 32
  {
    H(bx, x, SVector(key))
  }

  /** The words M_0, M_2, M_4, M_6 of the key, and M_1, M_3, M_5, M_7. */
  function M(key: seq<bv8>, i: nat): bv32
    requires |key| == 32 && i < 8
  {
    Load32(key, 4 * i)
  }

  function Rho(n: nat): bv32 {
    0x01010101 * (ToByte(n) as bv32)
  }

  /** A_i and B_i: h of the words with four equal bytes. */
  function A(bx: Boxes, key: seq<bv8>, i: nat): bv32
    requires |key| == 32
  {
    H(bx, Rho(2 * i), [M(key, 0), M(key, 2), M(key, 4), M(key, 6)])
  }

  function B(bx: Boxes, key: seq<bv8>, i: nat): bv32
    requires |key| == 32
  {
    RotL8(H(bx, Rho(2 * i + 1), [M(key, 1), M(key, 3), M(key, 5), M(key, 7)]))
  }

  /** K_j. */
  function K(bx: Boxes, key: seq<bv8>, j: nat): bv32
    requires |key| == 32
  {
    var a, b := A(bx, key, j / 2), B(bx, key, j / 2);
    if j % 2 == 0 then Plus(a, b) else RotL9(Plus(a, Plus(b, b)))
  }

  /** Round r: F, with K_2r+8 and K_2r+9, of the first two words goes into the other two; the halves are exchanged. */
  function Round(bx: Boxes, key: seq<bv8>, r: nat, q: Twofish.State): Twofish.State
    requires |key| == 32
  {
    var t0, t1 := G(bx, key, q.a), G(bx, key, RotL8(q.b));
    var f0 := Plus(Plus(t0, t1), K(bx, key, 2 * (r + 4)));
    var f1 := Plus(Plus(t0, Plus(t1, t1)), K(bx, key, 2 * (r + 4) + 1));
    Twofish.State(RotR1(Diff(q.c, f0)), Diff(RotL1(q.d), f1), q.a, q.b)
  }

  function Rounds(bx: Boxes, key: seq<bv8>, q: Twofish.State, n: nat): Twofish.State
    requires |key| == 32
  {
    if n == 0 then q else Round(bx, key, n - 1, Rounds(bx, key, q, n - 1))
  }

  /** Input whitening, sixteen rounds, the last exchange undone, output whitening. */
  function Cipher(bx: Boxes, key: seq<bv8>, p: Twofish.State): Twofish.State
    requires |key| == 32
  {
    var q := Twofish.State(Diff(p.a, K(bx, key, 0)), Diff(p.b, K(bx, key, 1)),
                           Diff(p.c, K(bx, key, 2)), Diff(p.d, K(bx, key, 3)));
    var r := Rounds(bx, key, q, 16);
    Twofish.State(Diff(r.c, K(bx, key, 4)), Diff(r.d, K(bx, key, 5)),
                  Diff(r.a, K(bx, key, 6)), Diff(r.b, K(bx, key, 7)))
  }

  // ---- the model's operations are these -----------------------------------------------------------

  lemma PlusIs(a: bv32, b: bv32)
    ensures Add(a, b) == Plus(a, b)
  {
  }

  lemma Rotations(a: bv32)
    ensures Rol1(a) == RotL1(a) && Ror1(a) == RotR1(a)
    ensures Rol(a, 8) == RotL8(a) && Rol(a, 9) == RotL9(a)
  {
  }

  lemma DiffIs(a: bv32, b: bv32)
    ensures Xor(a, b) == Diff(a, b)
  {
  }

  lemma PlusCommutes(a: bv32, b: bv32)
    ensures Plus(a, b) == Plus(b, a)
  {
  }

  lemma RawAssociates(a: bv32, b: bv32, c: bv32)
    ensures (a + b) + c == a + (b + c)
  {
  }

  lemma PlusAssociates(a: bv32, b: bv32, c: bv32)
    ensures Plus(Plus(a, b), c) == Plus(a, Plus(b, c))
  {
    calc {
      Plus(Plus(a, b), c);
      Plus(a + b, c);
      (a + b) + c;
      { RawAssociates(a, b, c); }
      a + (b + c);
      Plus(a, b + c);
      Plus(a, Plus(b, c));
    }
  }

  /** The transform as the code adds it up. */
  lemma Hadamard(t0: bv32, t1: bv32, k: bv32)
    ensures Add(t1, Add(Add(t0, t1), k)) == Plus(Plus(t0, Plus(t1, t1)), k)
  {
    PlusIs(t0, t1);
    PlusIs(Plus(t0, t1), k);
    PlusIs(t1, Plus(Plus(t0, t1), k));
    PlusAssociates(t1, Plus(t0, t1), k);
    PlusCommutes(t1, Plus(t0, t1));
    PlusAssociates(t0, t1, t1);
  }

  lemma RhoIs(n: nat)
    ensures Repeat(n) == Rho(n)
  {
    RepeatIsProduct(n);
  }

  lemma KeyLists(key: seq<bv8>)
    requires |key| == 32
    ensures Evens(key) == [M(key, 0), M(key, 2), M(key, 4), M(key, 6)]
    ensures Odds(key) == [M(key, 1), M(key, 3), M(key, 5), M(key, 7)]
  {
  }

  /** The key words are the little-endian numbers of the key. */
  lemma KeyNumbers(key: seq<bv8>, i: nat)
    requires |key| == 32 && i < 8
    ensures M(key, i) as nat == LittleValue(key[4 * i..4 * i + 4])
  {
    Load32IsValue(key, 4 * i);
  }

  lemma SubAIs(bx: Boxes, key: seq<bv8>, i: nat)
    requires |key| == 32
    ensures SubA(bx, key, i) == A(bx, key, i)
  {
    RhoIs(2 * i);
    KeyLists(key);
  }

  lemma SubBIs(bx: Boxes, key: seq<bv8>, i: nat)
    requires |key| == 32
    ensures SubB(bx, key, i) == B(bx, key, i)
  {
    RhoIs(2 * i + 1);
    KeyLists(key);
    Rotations(H(bx, Repeat(2 * i + 1), Odds(key)));
  }

  lemma PairIs(bx: Boxes, key: seq<bv8>, i: nat)
    requires |key| == 32
    ensures SubkeyPair(bx, key)(i) == (K(bx, key, 2 * i), K(bx, key, 2 * i + 1))
  {
    SubAIs(bx, key, i);
    SubBIs(bx, key, i);
    var a, b := SubA(bx, key, i), SubB(bx, key, i);
    PlusIs(a, b);
    PlusIs(b, b);
    PlusIs(a, Plus(b, b));
    Rotations(Add(a, Add(b, b)));
  }

  lemma PairWords(f: nat -> (bv32, bv32), i: nat)
    requires i < 20
    ensures Pairs(f, 20)[2 * i] == f(i).0 && Pairs(f, 20)[2 * i + 1] == f(i).1
  {
    assert PairWord(f, 2 * i) == f(i).0 && PairWord(f, 2 * i + 1) == f(i).1;
  }

  /** The round subkeys are K_8 to K_39. */
  lemma RoundSubkeys(bx: Boxes, key: seq<bv8>, n: nat)
    requires |key| == 32 && n < 16
    ensures var k := ExpandKey(bx, key).k;
            k[2 * n] == K(bx, key, 2 * (n + 4)) && k[2 * n + 1] == K(bx, key, 2 * (n + 4) + 1)
  {
    PairIs(bx, key, n + 4);
    PairWords(SubkeyPair(bx, key), n + 4);
    BehindEight(Pairs(SubkeyPair(bx, key), 20), n);
  }

  lemma BehindEight(s: seq<bv32>, n: nat)
    requires |s| == 40 && n < 16
    ensures s[8..][2 * n] == s[2 * (n + 4)] && s[8..][2 * n + 1] == s[2 * (n + 4) + 1]
  {
  }

  lemma RoundTables(bx: Boxes, key: seq<bv8>, a: bv32, b: bv32)
    requires |key| == 32
    ensures Twofish.G1(ExpandKey(bx, key), a) == G(bx, key, a)
    ensures Twofish.G2(ExpandKey(bx, key), b) == G(bx, key, RotL8(b))
  {
    ExpandedTables(bx, key, a);
    ExpandedTables(bx, key, b);
    Rotations(b);
  }

  lemma FSums(t0: bv32, t1: bv32, k0: bv32, k1: bv32)
    ensures Add(Add(t0, t1), k0) == Plus(Plus(t0, t1), k0)
    ensures Add(t1, Add(Add(t0, t1), k1)) == Plus(Plus(t0, Plus(t1, t1)), k1)
  {
    PlusIs(t0, t1);
    PlusIs(Plus(t0, t1), k0);
    Hadamard(t0, t1, k1);
  }

  lemma FxIs(bx: Boxes, key: seq<bv8>, n: nat, a: bv32, b: bv32)
    requires |key| == 32 && n < 16
    ensures var t0, t1, e := G(bx, key, a), G(bx, key, RotL8(b)), ExpandKey(bx, key);
            && Twofish.Fx(e, n, a, b) == Plus(Plus(t0, t1), K(bx, key, 2 * (n + 4)))
            && Twofish.Fy(e, n, a, b) == Plus(Plus(t0, Plus(t1, t1)), K(bx, key, 2 * (n + 4) + 1))
  {
    RoundTables(bx, key, a, b);
    RoundSubkeys(bx, key, n);
    FSums(G(bx, key, a), G(bx, key, RotL8(b)), K(bx, key, 2 * (n + 4)), K(bx, key, 2 * (n + 4) + 1));
  }

  lemma RoundIs(bx: Boxes, key: seq<bv8>, n: nat, q: Twofish.State)
    requires |key| == 32 && n < 16
    ensures Twofish.TextbookRound(ExpandKey(bx, key), n, q) == Round(bx, key, n, q)
  {
    var e := ExpandKey(bx, key);
    var f0, f1 := Twofish.Fx(e, n, q.a, q.b), Twofish.Fy(e, n, q.a, q.b);
    FxIs(bx, key, n, q.a, q.b);
    DiffIs(q.c, f0);
    Rotations(Diff(q.c, f0));
    Rotations(q.d);
    DiffIs(RotL1(q.d), f1);
  }

  lemma {:induction false} RoundsAre(bx: Boxes, key: seq<bv8>, q: Twofish.State, n: nat)
    requires |key| == 32 && n <= 16
    ensures Forward(Twofish.TextbookRounds(ExpandKey(bx, key)), q, n) == Rounds(bx, key, q, n)
  {
    if n > 0 {
      RoundsAre(bx, key, q, n - 1);
      RoundIs(bx, key, n - 1, Rounds(bx, key, q, n - 1));
    }
  }

  lemma Whitened(q: Twofish.State, k0: bv32, k1: bv32, k2: bv32, k3: bv32)
    ensures Twofish.State(Xor(q.a, k0), Xor(q.b, k1), Xor(q.c, k2), Xor(q.d, k3)) ==
            Twofish.State(Diff(q.a, k0), Diff(q.b, k1), Diff(q.c, k2), Diff(q.d, k3))
  {
    DiffIs(q.a, k0);
    DiffIs(q.b, k1);
    DiffIs(q.c, k2);
    DiffIs(q.d, k3);
  }

  /** twofish256_encrypt under the key structure is the cipher of the specification, for every key and block. */
  lemma EncryptIsCipher(bx: Boxes, key: seq<bv8>, p: Twofish.State)
    requires |key| == 32
    ensures Twofish.Encrypt(ExpandKey(bx, key), p) == Cipher(bx, key, p)
  {
    var e := ExpandKey(bx, key);
    var q := Twofish.WhitenIn(e, p);
    Twofish.EncryptIsTextbook(e, p);
    WhiteningIs(bx, key);
    Whitened(p, e.w[0], e.w[1], e.w[2], e.w[3]);
    RoundsAre(bx, key, q, 16);
    var r := Rounds(bx, key, q, 16);
    Whitened(Twofish.State(r.c, r.d, r.a, r.b), e.w[4], e.w[5], e.w[6], e.w[7]);
  }

  /** The whitening words are K_0 to K_7. */
  lemma WhiteningIs(bx: Boxes, key: seq<bv8>)
    requires |key| == 32
    ensures var w := ExpandKey(bx, key).w;
            && w[0] == K(bx, key, 0) && w[1] == K(bx, key, 1) && w[2] == K(bx, key, 2) && w[3] == K(bx, key, 3)
            && w[4] == K(bx, key, 4) && w[5] == K(bx, key, 5) && w[6] == K(bx, key, 6) && w[7] == K(bx, key, 7)
  {
    WhiteningPair(bx, key, 0);
    WhiteningPair(bx, key, 1);
    WhiteningPair(bx, key, 2);
    WhiteningPair(bx, key, 3);
  }

  lemma WhiteningPair(bx: Boxes, key: seq<bv8>, i: nat)
    requires |key| == 32 && i < 4
    ensures var w := ExpandKey(bx, key).w;
            w[2 * i] == K(bx, key, 2 * i) && w[2 * i + 1] == K(bx, key, 2 * i + 1)
  {
    PairIs(bx, key, i);
    PairWords(SubkeyPair(bx, key), i);
  }

  // ---- the Reed-Solomon matrix --------------------------------------------------------------------

  /** The bytes of the word S_i: row r of the matrix in byte r. */
  lemma SBytes(key: seq<bv8>, i: nat)
    requires |key| == 32 && i < 4
    ensures WordBytes(RsBytes(key, i, 4)) ==
            [RsSum(key, i, 0, 8), RsSum(key, i, 1, 8), RsSum(key, i, 2, 8), RsSum(key, i, 3, 8)]
  {
    var b0, b1, b2, b3 := RsSum(key, i, 0, 8), RsSum(key, i, 1, 8), RsSum(key, i, 2, 8), RsSum(key, i, 3, 8);
    assert RsBytes(key, i, 1) == PlaceByte(0, b0, 0);
    assert RsBytes(key, i, 2) == PlaceByte(PlaceByte(0, b0, 0), b1, 1);
    assert RsBytes(key, i, 3) == PlaceByte(PlaceByte(PlaceByte(0, b0, 0), b1, 1), b2, 2);
    PlacedBytes(b0, b1, b2, b3);
    BytesOfPack(b0, b1, b2, b3);
  }

  lemma PlacedBytes(b0: bv8, b1: bv8, b2: bv8, b3: bv8)
    ensures PlaceByte(PlaceByte(PlaceByte(PlaceByte(0, b0, 0), b1, 1), b2, 2), b3, 3) == Pack(b0, b1, b2, b3)
  {
  }

  /** The product with a byte, term by term. */
  function Terms(a: bv32, b: bv32, n: nat): bv32
    decreases n
  {
    if n == 0 then 0 else Xor(Term(a, b), Terms(TimesX(a), Halved(b), n - 1))
  }

  lemma {:induction false} ProductIsTerms(a: bv32, b: bv32, n: nat)
    ensures RsProduct(a, b) == Xor(Terms(a, b, n), RsProduct(Shifted(a, n), Halvings(b, n)))
    decreases n
  {
    if n == 0 {
      XorLaws(RsProduct(a, b), 0, 0);
    } else {
      RsUnfold(a, b);
      ProductIsTerms(TimesX(a), Halved(b), n - 1);
      XorLaws(Term(a, b), Terms(TimesX(a), Halved(b), n - 1),
              RsProduct(Shifted(TimesX(a), n - 1), Halvings(Halved(b), n - 1)));
    }
  }

  function Shifted(a: bv32, n: nat): bv32
    decreases n
  {
    if n == 0 then a else Shifted(TimesX(a), n - 1)
  }

  function Halvings(b: bv32, n: nat): bv32
    decreases n
  {
    if n == 0 then b else Halvings(Halved(b), n - 1)
  }

  lemma ByteProduct(a: bv32, b: bv32)
    requires Halvings(b, 8) == 0
    ensures RsProduct(a, b) == Terms(a, b, 8)
  {
    ProductIsTerms(a, b, 8);
    XorLaws(Terms(a, b, 8), 0, 0);
  }

  /** The generator is x^4 + a x^3 + 2 x^2 + a x + 1 with a = 2 + 1 / 2. */
  const ALPHA: bv32 := 0xA4

  lemma GeneratorIs()
    ensures ALPHA == Xor(2, 0xA6) && RsProduct(2, 0xA6) == 1
  {
    ByteProduct(2, 0xA6);
  }

  function At(r: nat, j: nat): bv32
    requires r < 4 && j < 8
  {
    RS[r][j] as bv32
  }

  ghost predicate NextColumn(j: nat)
    requires j < 7
  {
    && At(0, j + 1) == At(3, j)
    && At(1, j + 1) == Xor(At(0, j), RsProduct(At(3, j), ALPHA))
    && At(2, j + 1) == Xor(At(1, j), RsProduct(At(3, j), 2))
    && At(3, j + 1) == Xor(At(2, j), RsProduct(At(3, j), ALPHA))
  }

  lemma Column0()
    ensures NextColumn(0)
  {
    ByteProduct(0xa4, ALPHA);
    ByteProduct(0xa4, 2);
  }

  lemma Column1()
    ensures NextColumn(1)
  {
    ByteProduct(0x55, ALPHA);
    ByteProduct(0x55, 2);
  }

  lemma Column2()
    ensures NextColumn(2)
  {
    ByteProduct(0x87, ALPHA);
    ByteProduct(0x87, 2);
  }

  lemma Column3()
    ensures NextColumn(3)
  {
    ByteProduct(0x5a, ALPHA);
    ByteProduct(0x5a, 2);
  }

  lemma Column4()
    ensures NextColumn(4)
  {
    ByteProduct(0x58, ALPHA);
    ByteProduct(0x58, 2);
  }

  lemma Column5()
    ensures NextColumn(5)
  {
    ByteProduct(0xdb, ALPHA);
    ByteProduct(0xdb, 2);
  }

  lemma Column6()
    ensures NextColumn(6)
  {
    ByteProduct(0x9e, ALPHA);
    ByteProduct(0x9e, 2);
  }

  /** Column j of the matrix is x^(4 + j) modulo the generator: the first, and each from the one before. */
  lemma ColumnsArePowers(j: nat)
    requires j < 7
    ensures At(0, 0) == 1 && At(1, 0) == ALPHA && At(2, 0) == 2 && At(3, 0) == ALPHA
    ensures NextColumn(j)
  {
    match j {
      case 0 => Column0();
      case 1 => Column1();
      case 2 => Column2();
      case 3 => Column3();
      case 4 => Column4();
      case 5 => Column5();
      case _ => Column6();
    }
  }
}
