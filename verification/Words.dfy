/** 32-bit words: the operations the ciphers are built from, under names of their own, and their laws. */
module Words {

  function Xor(a: bv32, b: bv32): bv32 {
    a ^ b
  }

  function And(a: bv32, b: bv32): bv32 {
    a & b
  }

  function Or(a: bv32, b: bv32): bv32 {
    a | b
  }

  function Not(a: bv32): bv32 {
    !a
  }

  /** Addition modulo 2^32. */
  function Add(a: bv32, b: bv32): bv32 {
    a + b
  }

  /** Rotation to the left; the amount is taken modulo 32. */
  function Rol(x: bv32, n: bv5): bv32 {
    (x << n) | (x >> (0 - n))
  }

  function Shl(x: bv32, n: bv5): bv32 {
    x << n
  }

  function Ror1(x: bv32): bv32 {
    (x >> 1) | (x << 31)
  }

  function Rol1(x: bv32): bv32 {
    (x << 1) | (x >> 31)
  }

  lemma RawXorLaws(a: bv32, b: bv32, c: bv32)
    ensures a ^ b == b ^ a
    ensures (a ^ b) ^ c == a ^ (b ^ c)
    ensures a ^ 0 == a && 0 ^ a == a && a ^ a == 0
    ensures (a ^ b) ^ b == a
    ensures (((a ^ b) ^ c) ^ b) ^ c == a
  {
  }

  lemma XorLaws(a: bv32, b: bv32, c: bv32)
    ensures Xor(a, b) == Xor(b, a)
    ensures Xor(Xor(a, b), c) == Xor(a, Xor(b, c))
    ensures Xor(a, 0) == a && Xor(0, a) == a && Xor(a, a) == 0
  {
    RawXorLaws(a, b, c);
  }

  /** Rearranges a sum of four words. */
  lemma XorSwap(a: bv32, b: bv32, c: bv32, d: bv32)
    ensures Xor(Xor(a, b), Xor(c, d)) == Xor(Xor(a, c), Xor(b, d))
  {
    XorLaws(a, b, Xor(c, d));
    XorLaws(b, c, d);
    XorLaws(c, b, d);
    XorLaws(a, c, Xor(b, d));
  }

  lemma XorUndone(a: bv32, b: bv32, c: bv32)
    ensures Xor(Xor(a, b), b) == a
    ensures Xor(Xor(Xor(Xor(a, b), c), b), c) == a
  {
    RawXorLaws(a, b, c);
  }

  lemma RotateUndone(x: bv32)
    ensures Ror1(Rol1(x)) == x && Rol1(Ror1(x)) == x
  {
  }

  function Xor8(a: bv8, b: bv8): bv8 {
    a ^ b
  }

  // ---- reduction by a polynomial ------------------------------------------------------------------

  /** A word with the polynomial added to it or not. */
  function Reduced<W>(xor: (W, W) -> W, odd: bool, h: W, poly: W): W {
    if odd then xor(h, poly) else h
  }

  ghost predicate Additive<W(!new)>(xor: (W, W) -> W) {
    && (forall x, y :: xor(x, y) == xor(y, x))
    && (forall x, y, z :: xor(xor(x, y), z) == xor(x, xor(y, z)))
    && (forall x, y :: xor(xor(x, y), y) == x)
  }

  lemma XorIsAdditive()
    ensures Additive(Xor)
  {
    forall x: bv32, y: bv32 ensures Xor(x, y) == Xor(y, x) {
      XorLaws(x, y, 0);
    }
    forall x: bv32, y: bv32, z: bv32 ensures Xor(Xor(x, y), z) == Xor(x, Xor(y, z)) {
      XorLaws(x, y, z);
    }
    forall x: bv32, y: bv32 ensures Xor(Xor(x, y), y) == x {
      XorUndone(x, y, 0);
    }
  }

  /** Adding the polynomial or not is linear, by the laws of addition alone. */
  lemma ReducedSum<W(!new)>(xor: (W, W) -> W, p: bool, q: bool, a: W, b: W, poly: W)
    requires Additive(xor)
    ensures Reduced(xor, p != q, xor(a, b), poly) == xor(Reduced(xor, p, a, poly), Reduced(xor, q, b, poly))
  {
    if p && q {
      assert xor(xor(a, poly), xor(b, poly)) == xor(xor(xor(a, b), poly), poly);
    }
  }

  lemma ReducedXor(p: bool, q: bool, a: bv32, b: bv32, poly: bv32)
    ensures Reduced(Xor, p != q, Xor(a, b), poly) == Xor(Reduced(Xor, p, a, poly), Reduced(Xor, q, b, poly))
  {
    XorIsAdditive();
    ReducedSum(Xor, p, q, a, b, poly);
  }

  // ---- bytes, little-endian -----------------------------------------------------------------------

  function Byte0(w: bv32): bv8 {
    (w & 0xFF) as bv8
  }

  function Byte1(w: bv32): bv8 {
    ((w >> 8) & 0xFF) as bv8
  }

  function Byte2(w: bv32): bv8 {
    ((w >> 16) & 0xFF) as bv8
  }

  function Byte3(w: bv32): bv8 {
    (w >> 24) as bv8
  }

  function Pack(b0: bv8, b1: bv8, b2: bv8, b3: bv8): bv32 {
    (b0 as bv32) | ((b1 as bv32) << 8) | ((b2 as bv32) << 16) | ((b3 as bv32) << 24)
  }

  lemma PackBytes(b0: bv8, b1: bv8, b2: bv8, b3: bv8)
    ensures Byte0(Pack(b0, b1, b2, b3)) == b0 && Byte1(Pack(b0, b1, b2, b3)) == b1
    ensures Byte2(Pack(b0, b1, b2, b3)) == b2 && Byte3(Pack(b0, b1, b2, b3)) == b3
  {
  }

  lemma BytesPack(w: bv32)
    ensures Pack(Byte0(w), Byte1(w), Byte2(w), Byte3(w)) == w
  {
  }

  /** load32 at byte offset i. */
  function Load32(s: seq<bv8>, i: nat): bv32
    requires i + 4 <= |s|
  {
    Pack(s[i], s[i + 1], s[i + 2], s[i + 3])
  }

  /** The byte with value n mod 256. */
  function ToByte(n: nat): bv8
    decreases n
  {
    if n == 0 then 0 else ToByte(n - 1) + 1
  }

  /** The last four base-256 digits of n as a word, and the last k as bytes, least significant first. */
  function Word32(n: nat): bv32 {
    Pack(ToByte(n % 256), ToByte(n / 0x100 % 256), ToByte(n / 0x1_0000 % 256), ToByte(n / 0x100_0000 % 256))
  }

  function LittleEndian(n: nat, k: nat): (r: seq<bv8>)
    ensures |r| == k
    decreases k, n
  {
    if k == 0 then [] else [ToByte(n % 256)] + LittleEndian(n / 256, k - 1)
  }

  /** The number that bytes stand for, least significant first. */
  function LittleValue(s: seq<bv8>): nat {
    if s == [] then 0 else (s[0] as nat) + 256 * LittleValue(s[1..])
  }

  function WordBytes(w: bv32): (r: seq<bv8>)
    ensures |r| == 4
  {
    [Byte0(w), Byte1(w), Byte2(w), Byte3(w)]
  }

  lemma Word32Bytes(n: nat)
    ensures WordBytes(Word32(n)) == LittleEndian(n, 4)
  {
    BytesOfPack(ToByte(n % 256), ToByte(n / 0x100 % 256), ToByte(n / 0x1_0000 % 256), ToByte(n / 0x100_0000 % 256));
    LittleEndian4(n, n / 0x100, n / 0x1_0000, n / 0x100_0000);
  }

  lemma BytesOfPack(b0: bv8, b1: bv8, b2: bv8, b3: bv8)
    ensures WordBytes(Pack(b0, b1, b2, b3)) == [b0, b1, b2, b3]
  {
    PackBytes(b0, b1, b2, b3);
  }

  lemma LittleEndian4(n: nat, a: nat, b: nat, c: nat)
    requires a == n / 256 && b == a / 256 && c == b / 256
    ensures LittleEndian(n, 4) == [ToByte(n % 256), ToByte(a % 256), ToByte(b % 256), ToByte(c % 256)]
  {
    assert LittleEndian(n, 4) == [ToByte(n % 256)] + ([ToByte(a % 256)] + LittleEndian(b, 2));
    assert LittleEndian(b, 2) == [ToByte(b % 256)] + ([ToByte(c % 256)] + []);
  }

  lemma LittleEndian8(n: nat)
    ensures LittleEndian(n, 8) == LittleEndian(n, 4) + LittleEndian(n / 0x1_0000_0000, 4)
  {
    var a, b, c, d := n / 256, n / 0x1_0000, n / 0x100_0000, n / 0x1_0000_0000;
    assert b == a / 256 && c == b / 256 && d == c / 256;
    assert LittleEndian(n, 8) == [ToByte(n % 256)] + ([ToByte(a % 256)] + LittleEndian(b, 6));
    assert LittleEndian(b, 6) == [ToByte(b % 256)] + ([ToByte(c % 256)] + LittleEndian(d, 4));
    assert LittleEndian(n, 4) == [ToByte(n % 256)] + ([ToByte(a % 256)] + LittleEndian(b, 2));
    assert LittleEndian(b, 2) == [ToByte(b % 256)] + ([ToByte(c % 256)] + []);
  }

  function Pow256(k: nat): (p: nat)
    ensures p > 0
    decreases k, 0
  {
    if k == 0 then 1 else 256 * Pow256(k - 1)
  }

  lemma {:induction false} ValueOfLittleEndian(n: nat, k: nat)
    requires n < Pow256(k)
    ensures LittleValue(LittleEndian(n, k)) == n
    decreases k, n
  {
    if k > 0 {
      ValueOfLittleEndian(n / 256, k - 1);
      ToByteValue(n % 256);
      assert LittleEndian(n, k)[1..] == LittleEndian(n / 256, k - 1);
    }
  }

  lemma RawPackValue(b0: bv8, b1: bv8, b2: bv8, b3: bv8)
    ensures ((b0 as bv32) | ((b1 as bv32) << 8) | ((b2 as bv32) << 16) | ((b3 as bv32) << 24)) as nat ==
            b0 as nat + 0x100 * (b1 as nat) + 0x1_0000 * (b2 as nat) + 0x100_0000 * (b3 as nat)
  {
  }

  /** The word loaded is the little-endian number in memory. */
  lemma Load32IsValue(s: seq<bv8>, i: nat)
    requires i + 4 <= |s|
    ensures Load32(s, i) as nat == LittleValue(s[i..i + 4])
  {
    var t := s[i..i + 4];
    assert Load32(s, i) == Pack(t[0], t[1], t[2], t[3]);
    PackIsValue(t[0], t[1], t[2], t[3]);
    LittleValue4(t);
  }

  lemma PackIsValue(b0: bv8, b1: bv8, b2: bv8, b3: bv8)
    ensures Pack(b0, b1, b2, b3) as nat ==
            b0 as nat + 0x100 * (b1 as nat) + 0x1_0000 * (b2 as nat) + 0x100_0000 * (b3 as nat)
  {
    calc {
      Pack(b0, b1, b2, b3) as nat;
      ((b0 as bv32) | ((b1 as bv32) << 8) | ((b2 as bv32) << 16) | ((b3 as bv32) << 24)) as nat;
      { RawPackValue(b0, b1, b2, b3); }
      b0 as nat + 0x100 * (b1 as nat) + 0x1_0000 * (b2 as nat) + 0x100_0000 * (b3 as nat);
    }
  }

  lemma LittleValue4(s: seq<bv8>)
    requires |s| == 4
    ensures LittleValue(s) ==
            s[0] as nat + 0x100 * (s[1] as nat) + 0x1_0000 * (s[2] as nat) + 0x100_0000 * (s[3] as nat)
  {
    assert LittleValue(s) == s[0] as nat + 256 * LittleValue(s[1..]);
    assert LittleValue(s[1..]) == s[1] as nat + 256 * LittleValue(s[2..]) by {
      assert s[1..][1..] == s[2..];
    }
    assert LittleValue(s[2..]) == s[2] as nat + 256 * LittleValue(s[3..]) by {
      assert s[2..][1..] == s[3..];
    }
    assert LittleValue(s[3..]) == s[3] as nat + 256 * LittleValue(s[4..]) by {
      assert s[3..][1..] == s[4..];
    }
  }

  lemma ByteSuccessor(b: bv8)
    requires b != 255
    ensures (b + 1) as int == b as int + 1
  {
  }

  lemma ByteMax(b: bv8)
    requires b == 255
    ensures b as int == 255
  {
  }

  lemma {:induction false} ToByteValue(n: nat)
    requires n < 256
    ensures ToByte(n) as int == n
  {
    if n > 0 {
      ToByteValue(n - 1);
      if ToByte(n - 1) == 255 {
        ByteMax(ToByte(n - 1));
      }
      ByteSuccessor(ToByte(n - 1));
    }
  }

  lemma ToByteOf(b: bv8)
    ensures ToByte(b as int) == b
  {
    ToByteValue(b as int);
    SameByte(ToByte(b as int), b);
  }

  lemma SameByte(a: bv8, b: bv8)
    requires a as int == b as int
    ensures a == b
  {
  }
}
