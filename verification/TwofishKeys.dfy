/**
 The Twofish-256 key schedule: the key-dependent tables, the whitening words and the round subkeys.

 The q permutations and the MDS columns are constant tables of the cipher; everything here holds whatever
 they contain, so they are a parameter.
 */
module TwofishKeys {
  import opened Words
  import opened Twofish

  datatype Boxes = Boxes(
    q0: bv8 -> bv8, q1: bv8 -> bv8,
    mds0: bv8 -> bv32, mds1: bv8 -> bv32, mds2: bv8 -> bv32, mds3: bv8 -> bv32)

  // ---- the function h ------------------------------------------------------------------------------

  /** h(X, L) for 256-bit keys, stage by stage on the four byte lanes. */
  function H(bx: Boxes, x: bv32, l: seq<bv32>): bv32
    requires |l| == 4
  {
    var y0, y1, y2, y3 := Byte0(x), Byte1(x), Byte2(x), Byte3(x);
    var y0 := Xor8(bx.q1(y0), Byte0(l[3]));
    var y1 := Xor8(bx.q0(y1), Byte1(l[3]));
    var y2 := Xor8(bx.q0(y2), Byte2(l[3]));
    var y3 := Xor8(bx.q1(y3), Byte3(l[3]));
    var y0 := Xor8(bx.q1(y0), Byte0(l[2]));
    var y1 := Xor8(bx.q1(y1), Byte1(l[2]));
    var y2 := Xor8(bx.q0(y2), Byte2(l[2]));
    var y3 := Xor8(bx.q0(y3), Byte3(l[2]));
    var y0 := bx.q1(Xor8(bx.q0(Xor8(bx.q0(y0), Byte0(l[1]))), Byte0(l[0])));
    var y1 := bx.q0(Xor8(bx.q0(Xor8(bx.q1(y1), Byte1(l[1]))), Byte1(l[0])));
    var y2 := bx.q1(Xor8(bx.q1(Xor8(bx.q0(y2), Byte2(l[1]))), Byte2(l[0])));
    var y3 := bx.q0(Xor8(bx.q1(Xor8(bx.q1(y3), Byte3(l[1]))), Byte3(l[0])));
    Xor(Xor(Xor(bx.mds0(y0), bx.mds1(y1)), bx.mds2(y2)), bx.mds3(y3))
  }

  /** One entry of the j-th key-dependent table, as a function of its index. */
  function Entry(bx: Boxes, j: nat, y: bv8, l: seq<bv32>): bv32
    requires j < 4 && |l| == 4
  {
    if j == 0 then
      var y := Xor8(bx.q1(Xor8(bx.q1(y), Byte0(l[3]))), Byte0(l[2]));
      bx.mds0(bx.q1(Xor8(bx.q0(Xor8(bx.q0(y), Byte0(l[1]))), Byte0(l[0]))))
    else if j == 1 then
      var y := Xor8(bx.q1(Xor8(bx.q0(y), Byte1(l[3]))), Byte1(l[2]));
      bx.mds1(bx.q0(Xor8(bx.q0(Xor8(bx.q1(y), Byte1(l[1]))), Byte1(l[0]))))
    else if j == 2 then
      var y := Xor8(bx.q0(Xor8(bx.q0(y), Byte2(l[3]))), Byte2(l[2]));
      bx.mds2(bx.q1(Xor8(bx.q1(Xor8(bx.q0(y), Byte2(l[1]))), Byte2(l[0]))))
    else
      var y := Xor8(bx.q0(Xor8(bx.q1(y), Byte3(l[3]))), Byte3(l[2]));
      bx.mds3(bx.q0(Xor8(bx.q1(Xor8(bx.q1(y), Byte3(l[1]))), Byte3(l[0]))))
  }

  function EntryAt(bx: Boxes, j: nat, i: nat, l: seq<bv32>): bv32
    requires j < 4 && i < 256 && |l| == 4
  {
    Entry(bx, j, ToByte(i), l)
  }

  function Tables(bx: Boxes, l: seq<bv32>): seq<seq<bv32>>
    requires |l| == 4
  {
    seq(4, (j: nat) requires j < 4 => seq(256, (i: nat) requires i < 256 => EntryAt(bx, j, i, l)))
  }

  lemma TableAt(bx: Boxes, l: seq<bv32>, j: nat, y: bv8)
    requires j < 4 && |l| == 4
    ensures |Tables(bx, l)| == 4 && |Tables(bx, l)[j]| == 256
    ensures At(Tables(bx, l)[j], y) == Entry(bx, j, y, l)
  {
    ToByteOf(y);
  }

  /** The table lookups of the round function compute h under the key-dependent vector l. */
  lemma G1IsH(bx: Boxes, l: seq<bv32>, key: Key, x: bv32)
    requires |l| == 4 && IsKey(key) && key.s == Tables(bx, l)
    ensures G1(key, x) == H(bx, x, l)
  {
    TableAt(bx, l, 0, Byte0(x));
    TableAt(bx, l, 1, Byte1(x));
    TableAt(bx, l, 2, Byte2(x));
    TableAt(bx, l, 3, Byte3(x));
  }

  lemma BytesOfRol8(x: bv32)
    ensures Byte0(Rol(x, 8)) == Byte3(x) && Byte1(Rol(x, 8)) == Byte0(x)
    ensures Byte2(Rol(x, 8)) == Byte1(x) && Byte3(Rol(x, 8)) == Byte2(x)
  {
  }

  /** The second macro is the first one on the rotated word. */
  lemma G2IsRotatedG1(key: Key, x: bv32)
    requires IsKey(key)
    ensures G2(key, x) == G1(key, Rol(x, 8))
  {
    BytesOfRol8(x);
  }

  // ---- the Reed-Solomon vector ---------------------------------------------------------------------

  const RS: seq<seq<bv8>> := [
    [0x01, 0xA4, 0x55, 0x87, 0x5A, 0x58, 0xDB, 0x9E],
    [0xA4, 0x56, 0x82, 0xF3, 0x1E, 0xC6, 0x68, 0xE5],
    [0x02, 0xA1, 0xFC, 0xC1, 0x47, 0xAE, 0x3D, 0x19],
    [0xA4, 0x55, 0x87, 0x5A, 0x58, 0xDB, 0x9E, 0x03]]

  /** Multiplication by x modulo x^8 + x^6 + x^3 + x^2 + 1. */
  function TimesX(a: bv32): bv32 {
    var d := a << 1;
    if d & 0x100 != 0 then d ^ 0x14D else d
  }

  function Term(a: bv32, b: bv32): bv32 {
    if b & 1 != 0 then a else 0
  }

  function RsProduct(a: bv32, b: bv32): bv32
    decreases b
  {
    if b == 0 then 0 else if b >> 1 < b then Xor(Term(a, b), RsProduct(TimesX(a), b >> 1)) else 0
  }

  lemma HalfLess(b: bv32)
    requires b != 0
    ensures b >> 1 < b
  {
  }

  // ---- the laws of the product --------------------------------------------------------------------

  function Doubled(a: bv32): bv32 {
    a << 1
  }

  predicate Overflows(d: bv32) {
    d & 0x100 != 0
  }

  function Halved(b: bv32): bv32 {
    b >> 1
  }

  lemma TimesXIsReduced(a: bv32)
    ensures TimesX(a) == Reduced(Xor, Overflows(Doubled(a)), Doubled(a), 0x14D)
  {
  }

  lemma RawDoubledXor(a: bv32, c: bv32)
    ensures (a ^ c) << 1 == (a << 1) ^ (c << 1)
  {
  }

  lemma RawBitXor(a: bv32, c: bv32)
    ensures (a ^ c) & 0x100 == (a & 0x100) ^ (c & 0x100)
  {
  }

  lemma DoubledXor(a: bv32, c: bv32)
    ensures Doubled(Xor(a, c)) == Xor(Doubled(a), Doubled(c))
  {
    RawDoubledXor(a, c);
  }

  lemma OverflowsXor(a: bv32, c: bv32)
    ensures Overflows(Xor(a, c)) <==> Overflows(a) != Overflows(c)
  {
    RawBitXor(a, c);
  }

  lemma TimesXXor(a: bv32, c: bv32)
    ensures TimesX(Xor(a, c)) == Xor(TimesX(a), TimesX(c))
  {
    TimesXIsReduced(a);
    TimesXIsReduced(c);
    TimesXIsReduced(Xor(a, c));
    DoubledXor(a, c);
    OverflowsXor(Doubled(a), Doubled(c));
    ReducedXor(Overflows(Doubled(a)), Overflows(Doubled(c)), Doubled(a), Doubled(c), 0x14D);
  }

  lemma RsUnfold(a: bv32, b: bv32)
    ensures RsProduct(a, b) == Xor(Term(a, b), RsProduct(TimesX(a), Halved(b)))
  {
    if b == 0 {
      XorLaws(0, 0, 0);
    } else {
      HalfLess(b);
    }
  }

  lemma TermXor(a: bv32, c: bv32, b: bv32)
    ensures Term(Xor(a, c), b) == Xor(Term(a, b), Term(c, b))
  {
    XorLaws(0, 0, 0);
  }

  /** The product is linear in its first factor. */
  lemma {:induction false} RsProductXor(a: bv32, c: bv32, b: bv32)
    ensures RsProduct(Xor(a, c), b) == Xor(RsProduct(a, b), RsProduct(c, b))
    decreases b
  {
    if b == 0 {
      XorLaws(0, 0, 0);
    } else {
      HalfLess(b);
      RsProductXor(TimesX(a), TimesX(c), Halved(b));
      RsProductXorMore(a, c, b, Halved(b));
    }
  }

  lemma RsProductXorMore(a: bv32, c: bv32, b: bv32, h: bv32)
    requires h == Halved(b)
    requires RsProduct(Xor(TimesX(a), TimesX(c)), h) == Xor(RsProduct(TimesX(a), h), RsProduct(TimesX(c), h))
    ensures RsProduct(Xor(a, c), b) == Xor(RsProduct(a, b), RsProduct(c, b))
  {
    RsUnfold(Xor(a, c), b);
    RsUnfold(a, b);
    RsUnfold(c, b);
    TermXor(a, c, b);
    TimesXXor(a, c);
    XorSwap(Term(a, b), Term(c, b), RsProduct(TimesX(a), h), RsProduct(TimesX(c), h));
  }

  lemma TermTimesX(a: bv32, b: bv32)
    ensures Term(TimesX(a), b) == TimesX(Term(a, b))
  {
    assert TimesX(0) == 0;
  }

  /** Multiplying the first factor by x multiplies the product by x. */
  lemma {:induction false} RsProductTimesX(a: bv32, b: bv32)
    ensures RsProduct(TimesX(a), b) == TimesX(RsProduct(a, b))
    decreases b
  {
    if b == 0 {
      TermTimesX(0, 0);
    } else {
      HalfLess(b);
      RsProductTimesX(TimesX(a), Halved(b));
      RsProductTimesXMore(a, b, Halved(b));
    }
  }

  lemma RsProductTimesXMore(a: bv32, b: bv32, h: bv32)
    requires h == Halved(b)
    requires RsProduct(TimesX(TimesX(a)), h) == TimesX(RsProduct(TimesX(a), h))
    ensures RsProduct(TimesX(a), b) == TimesX(RsProduct(a, b))
  {
    RsUnfold(TimesX(a), b);
    RsUnfold(a, b);
    TermTimesX(a, b);
    TimesXXor(Term(a, b), RsProduct(TimesX(a), h));
  }

  /** One is the unit, and x as a factor is multiplication by x. */
  lemma RsProductUnit(a: bv32)
    ensures RsProduct(a, 1) == a && RsProduct(a, 2) == TimesX(a)
  {
    RsUnfold(a, 1);
    RsUnfold(a, 2);
    RsUnfold(TimesX(a), 1);
    XorLaws(a, 0, 0);
    XorLaws(TimesX(a), 0, 0);
  }

  lemma RsStep(r: bv32, a: bv32, b: bv32)
    requires b != 0
    ensures Xor(r, RsProduct(a, b)) == Xor(if b & 1 != 0 then Xor(r, a) else r, RsProduct(TimesX(a), b >> 1))
  {
    HalfLess(b);
    XorLaws(r, Term(a, b), RsProduct(TimesX(a), b >> 1));
    XorLaws(r, 0, 0);
  }

  /** gf_mul_rs. */
  method GfMulRs(a0: bv32, b0: bv32) returns (p: bv8)
    ensures p == Byte0(RsProduct(a0, b0))
  {
    var r: bv32 := 0;
    var a, b := a0, b0;
    XorLaws(RsProduct(a0, b0), 0, 0);
    while b != 0
      invariant Xor(r, RsProduct(a, b)) == RsProduct(a0, b0)
      decreases b
    {
      RsStep(r, a, b);
      HalfLess(b);
      if b & 1 != 0 {
        r := Xor(r, a);
      }
      b := b >> 1;
      a := TimesX(a);
    }
    XorLaws(r, 0, 0);
    p := Byte0(r);
  }

  /** Row r of the Reed-Solomon matrix times the first n of the eight key bytes of group i. */
  function RsSum(key: seq<bv8>, i: nat, r: nat, n: nat): bv8
    requires |key| == 32 && i < 4 && r < 4 && n <= 8
  {
    if n == 0 then 0
    else Xor8(RsSum(key, i, r, n - 1), Byte0(RsProduct(RS[r][n - 1] as bv32, key[8 * i + n - 1] as bv32)))
  }

  function PlaceByte(s: bv32, b: bv8, r: nat): bv32
    requires r < 4
  {
    var w := b as bv32;
    s | (if r == 0 then w else if r == 1 then w << 8 else if r == 2 then w << 16 else w << 24)
  }

  /** The first r bytes of the word S_i. */
  function RsBytes(key: seq<bv8>, i: nat, r: nat): bv32
    requires |key| == 32 && i < 4 && r <= 4
  {
    if r == 0 then 0 else PlaceByte(RsBytes(key, i, r - 1), RsSum(key, i, r - 1, 8), r - 1)
  }

  /** The vector S in reverse order, as h expects it. */
  function SVector(key: seq<bv8>): seq<bv32>
    requires |key| == 32
  {
    [RsBytes(key, 3, 4), RsBytes(key, 2, 4), RsBytes(key, 1, 4), RsBytes(key, 0, 4)]
  }

  // ---- subkeys -------------------------------------------------------------------------------------

  /** The even and odd words of the key. */
  function Evens(key: seq<bv8>): seq<bv32>
    requires |key| == 32
  {
    [Load32(key, 0), Load32(key, 8), Load32(key, 16), Load32(key, 24)]
  }

  function Odds(key: seq<bv8>): seq<bv32>
    requires |key| == 32
  {
    [Load32(key, 4), Load32(key, 12), Load32(key, 20), Load32(key, 28)]
  }

  /** The word whose four bytes are n. */
  function Repeat(n: nat): bv32 {
    Pack(ToByte(n), ToByte(n), ToByte(n), ToByte(n))
  }

  lemma RawRepeat(b: bv8)
    ensures Pack(b, b, b, b) == 0x01010101 * (b as bv32)
  {
  }

  /** Which is the product of 0x01010101 that the code forms. */
  lemma RepeatIsProduct(n: nat)
    ensures Repeat(n) == 0x01010101 * (ToByte(n) as bv32)
  {
    RawRepeat(ToByte(n));
  }

  function SubA(bx: Boxes, key: seq<bv8>, i: nat): bv32
    requires |key| == 32
  {
    H(bx, Repeat(2 * i), Evens(key))
  }

  function SubB(bx: Boxes, key: seq<bv8>, i: nat): bv32
    requires |key| == 32
  {
    Rol(H(bx, Repeat(2 * i + 1), Odds(key)), 8)
  }

  /** Subkeys K_2i and K_2i+1: the pseudo-Hadamard transform of h on the even and on the odd key words. */
  function SubkeyPair(bx: Boxes, key: seq<bv8>): nat -> (bv32, bv32)
    requires |key| == 32
  {
    (i: nat) =>
      var a, b := SubA(bx, key, i), SubB(bx, key, i);
      (Add(a, b), Rol(Add(a, Add(b, b)), 9))
  }

  /** The first n pairs in a row. */
  function Pairs(f: nat -> (bv32, bv32), n: nat): (r: seq<bv32>)
    ensures |r| == 2 * n
  {
    seq(2 * n, (i: nat) requires i < 2 * n => PairWord(f, i))
  }

  function PairWord(f: nat -> (bv32, bv32), i: nat): bv32 {
    if i % 2 == 0 then f(i / 2).0 else f(i / 2).1
  }

  /** The words w and k hold the first twenty pairs when they hold each pair at its place. */
  lemma PairsSplit(f: nat -> (bv32, bv32), w: seq<bv32>, k: seq<bv32>)
    requires |w| == 8 && |k| == 32
    requires forall i: nat | i < 4 :: w[2 * i] == f(i).0 && w[2 * i + 1] == f(i).1
    requires forall i: nat | 4 <= i < 20 :: k[2 * i - 8] == f(i).0 && k[2 * i - 7] == f(i).1
    ensures w == Pairs(f, 20)[..8] && k == Pairs(f, 20)[8..]
  {
    forall n: nat | n < 8 ensures w[n] == PairWord(f, n) {
      var i := n / 2;
      assert n == 2 * i || n == 2 * i + 1;
    }
    forall n: nat | n < 32 ensures k[n] == PairWord(f, n + 8) {
      var i := (n + 8) / 2;
      assert n == 2 * i - 8 || n == 2 * i - 7;
    }
  }

  /** K_0 to K_7 are the whitening words, the other thirty-two the round subkeys. */
  function ExpandKey(bx: Boxes, key: seq<bv8>): (r: Key)
    requires |key| == 32
    ensures IsKey(r)
  {
    var subkeys := Pairs(SubkeyPair(bx, key), 20);
    Key(Tables(bx, SVector(key)), subkeys[..8], subkeys[8..])
  }

  /** After key setup the round function's lookups are h under the Reed-Solomon vector of the key. */
  lemma ExpandedTables(bx: Boxes, key: seq<bv8>, x: bv32)
    requires |key| == 32
    ensures G1(ExpandKey(bx, key), x) == H(bx, x, SVector(key))
    ensures G2(ExpandKey(bx, key), x) == H(bx, Rol(x, 8), SVector(key))
  {
    var k := ExpandKey(bx, key);
    G1IsH(bx, SVector(key), k, x);
    G2IsRotatedG1(k, x);
    G1IsH(bx, SVector(key), k, Rol(x, 8));
  }

  /** twofish256_key: the tables in memory. */
  class ScheduledKey {
    const s: array2<bv32>
    const w: array<bv32>
    const k: array<bv32>

    predicate Valid() {
      s.Length0 == 4 && s.Length1 == 256 && w.Length == 8 && k.Length == 32 && w != k
    }

    function Value(): Key
      requires Valid()
      reads s, w, k
    {
      var tables := seq(4, (j: nat) requires j < 4 reads s => seq(256, (i: nat) requires i < 256 reads s => s[j, i]));
      Key(tables, w[..], k[..])
    }

    constructor ()
      ensures Valid() && fresh(s) && fresh(w) && fresh(k)
    {
      s := new bv32[4, 256];
      w := new bv32[8];
      k := new bv32[32];
    }

    /** twofish256_set_key. */
    method SetKey(bx: Boxes, key: seq<bv8>)
      requires Valid() && |key| == 32
      modifies s, w, k
      ensures Value() == ExpandKey(bx, key)
    {
      var sv := ReedSolomon(key);
      FillTables(bx, sv);
      FillSubkeys(SubkeyPair(bx, key));
    }

    method FillTables(bx: Boxes, sv: seq<bv32>)
      requires Valid() && |sv| == 4
      modifies s
      ensures Value().s == Tables(bx, sv)
    {
      for i := 0 to 256
        invariant forall j: nat, n: nat | j < 4 && n < i :: s[j, n] == EntryAt(bx, j, n, sv)
      {
        var e0, e1, e2, e3 := Entries(bx, i, sv);
        s[0, i] := e0;
        s[1, i] := e1;
        s[2, i] := e2;
        s[3, i] := e3;
      }
      assert forall j: nat | j < 4 :: Value().s[j] == Tables(bx, sv)[j];
    }

    /** Stores the subkey pairs that f computes, the first four as whitening words. */
    method FillSubkeys(f: nat -> (bv32, bv32))
      requires Valid()
      modifies w, k
      ensures w[..] == Pairs(f, 20)[..8] && k[..] == Pairs(f, 20)[8..]
    {
      for n := 0 to 20
        invariant forall i: nat | i < n && i < 4 :: w[2 * i] == f(i).0 && w[2 * i + 1] == f(i).1
        invariant forall i: nat | 4 <= i < n :: k[2 * i - 8] == f(i).0 && k[2 * i - 7] == f(i).1
      {
        var (even, odd) := f(n);
        if n < 4 {
          w[n * 2] := even;
          w[n * 2 + 1] := odd;
        } else {
          k[n * 2 - 8] := even;
          k[n * 2 - 7] := odd;
        }
      }
      PairsSplit(f, w[..], k[..]);
    }
  }

  /** The loop body that fills row i of the four tables. */
  method Entries(bx: Boxes, i: nat, sv: seq<bv32>) returns (e0: bv32, e1: bv32, e2: bv32, e3: bv32)
    requires |sv| == 4 && i < 256
    ensures e0 == EntryAt(bx, 0, i, sv) && e1 == EntryAt(bx, 1, i, sv)
    ensures e2 == EntryAt(bx, 2, i, sv) && e3 == EntryAt(bx, 3, i, sv)
  {
    var y0, y1, y2, y3 := ToByte(i), ToByte(i), ToByte(i), ToByte(i);
    y0 := Xor8(bx.q1(y0), Byte0(sv[3]));
    y1 := Xor8(bx.q0(y1), Byte1(sv[3]));
    y2 := Xor8(bx.q0(y2), Byte2(sv[3]));
    y3 := Xor8(bx.q1(y3), Byte3(sv[3]));
    y0 := Xor8(bx.q1(y0), Byte0(sv[2]));
    y1 := Xor8(bx.q1(y1), Byte1(sv[2]));
    y2 := Xor8(bx.q0(y2), Byte2(sv[2]));
    y3 := Xor8(bx.q0(y3), Byte3(sv[2]));
    y0 := bx.q1(Xor8(bx.q0(Xor8(bx.q0(y0), Byte0(sv[1]))), Byte0(sv[0])));
    y1 := bx.q0(Xor8(bx.q0(Xor8(bx.q1(y1), Byte1(sv[1]))), Byte1(sv[0])));
    y2 := bx.q1(Xor8(bx.q1(Xor8(bx.q0(y2), Byte2(sv[1]))), Byte2(sv[0])));
    y3 := bx.q0(Xor8(bx.q1(Xor8(bx.q1(y3), Byte3(sv[1]))), Byte3(sv[0])));
    e0, e1, e2, e3 := bx.mds0(y0), bx.mds1(y1), bx.mds2(y2), bx.mds3(y3);
  }

  /** One byte of the Reed-Solomon word: a row of the matrix times eight key bytes. */
  method RsByte(key: seq<bv8>, i: nat, r: nat) returns (acc: bv8)
    requires |key| == 32 && i < 4 && r < 4
    ensures acc == RsSum(key, i, r, 8)
  {
    acc := 0;
    for j := 0 to 8
      invariant acc == RsSum(key, i, r, j)
    {
      var p := GfMulRs(RS[r][j] as bv32, key[8 * i + j] as bv32);
      acc := Xor8(acc, p);
    }
  }

  method RsWord(key: seq<bv8>, i: nat) returns (s: bv32)
    requires |key| == 32 && i < 4
    ensures s == RsBytes(key, i, 4)
  {
    s := 0;
    for r := 0 to 4
      invariant s == RsBytes(key, i, r)
    {
      var acc := RsByte(key, i, r);
      s := PlaceByte(s, acc, r);
    }
  }

  method ReedSolomon(key: seq<bv8>) returns (sv: seq<bv32>)
    requires |key| == 32
    ensures sv == SVector(key)
  {
    sv := [0, 0, 0, 0];
    for i := 0 to 4
      invariant |sv| == 4
      invariant forall n: nat | n < i :: sv[3 - n] == RsBytes(key, n, 4)
    {
      var s := RsWord(key, i);
      sv := sv[3 - i := s];
    }
  }
}
