/** SHA-512: the compression function on bytes, and the hash as an instance of the buffered machine. */
module Sha512 {
  import opened Words
  import opened Hashing
  import opened Sha512Core
  import opened Sha512Constants
  import Hmac
  import opened Pbkdf2
  import Fips180

  /** Eight bytes, most significant first. */
  function Join8(a: bv8, b: bv8, c: bv8, d: bv8, e: bv8, f: bv8, g: bv8, h: bv8): bv64 {
    ((a as bv64) << 56) | ((b as bv64) << 48) | ((c as bv64) << 40) | ((d as bv64) << 32)
    | ((e as bv64) << 24) | ((f as bv64) << 16) | ((g as bv64) << 8) | (h as bv64)
  }

  function Load64(s: Bytes, i: nat): bv64
    requires i + 8 <= |s|
  {
    Join8(s[i], s[i + 1], s[i + 2], s[i + 3], s[i + 4], s[i + 5], s[i + 6], s[i + 7])
  }

  function Store64(w: bv64): (r: Bytes)
    ensures |r| == 8
  {
    [(w >> 56) as bv8, ((w >> 48) & 0xFF) as bv8, ((w >> 40) & 0xFF) as bv8, ((w >> 32) & 0xFF) as bv8,
     ((w >> 24) & 0xFF) as bv8, ((w >> 16) & 0xFF) as bv8, ((w >> 8) & 0xFF) as bv8, (w & 0xFF) as bv8]
  }

  // ---- words as numbers ---------------------------------------------------------------------------

  /** A byte shifted in from the right. */
  function ShiftIn(w: bv64, b: bv8): bv64 {
    (w << 8) | (b as bv64)
  }

  lemma SmallWord(w: bv64)
    requires w as nat < 0x100_0000_0000_0000
    ensures w < 0x100_0000_0000_0000
  {
  }

  lemma RawShiftIn(w: bv64, b: bv8)
    requires w < 0x100_0000_0000_0000
    ensures ((w << 8) | (b as bv64)) as nat == 256 * (w as nat) + b as nat
  {
  }

  lemma ShiftInIsDigit(w: bv64, b: bv8)
    requires w as nat < 0x100_0000_0000_0000
    ensures ShiftIn(w, b) as nat == 256 * (w as nat) + b as nat
  {
    SmallWord(w);
    RawShiftIn(w, b);
  }

  function Gathered(s: Bytes): bv64 {
    if s == [] then 0 else ShiftIn(Gathered(s[..|s| - 1]), s[|s| - 1])
  }

  lemma {:induction false} GatheredIsValue(s: Bytes)
    requires |s| <= 8
    ensures Gathered(s) as nat == Value(s) < Pow256(|s|)
  {
    if s != [] {
      var t := s[..|s| - 1];
      GatheredIsValue(t);
      Pow256Grows(|t|);
      ShiftInIsDigit(Gathered(t), s[|s| - 1]);
      DigitBound(Value(t), s[|s| - 1], Pow256(|t|));
    }
  }

  lemma DigitBound(v: nat, b: bv8, p: nat)
    requires v < p
    ensures 256 * v + (b as nat) < 256 * p
  {
  }

  lemma Pow256Grows(k: nat)
    requires k <= 7
    ensures Pow256(k) <= 0x100_0000_0000_0000
  {
    assert Pow256(2) == 0x1_0000;
    assert Pow256(4) == 0x1_0000 * Pow256(2);
    assert Pow256(6) == 0x1_0000 * Pow256(4);
  }

  lemma Join8IsShiftIn(a: bv8, b: bv8, c: bv8, d: bv8, e: bv8, f: bv8, g: bv8, h: bv8)
    ensures Join8(a, b, c, d, e, f, g, h) ==
            ShiftIn(ShiftIn(ShiftIn(ShiftIn(ShiftIn(ShiftIn(ShiftIn(ShiftIn(0, a), b), c), d), e), f), g), h)
  {
  }

  lemma GatherFour(s: Bytes, i: nat, w: bv64)
    requires i + 4 <= |s| && w == Gathered(s[..i])
    ensures Gathered(s[..i + 4]) == ShiftIn(ShiftIn(ShiftIn(ShiftIn(w, s[i]), s[i + 1]), s[i + 2]), s[i + 3])
  {
    GatherOne(s, i);
    GatherOne(s, i + 1);
    GatherOne(s, i + 2);
    GatherOne(s, i + 3);
  }

  lemma GatherOne(s: Bytes, i: nat)
    requires i < |s|
    ensures Gathered(s[..i + 1]) == ShiftIn(Gathered(s[..i]), s[i])
  {
    assert s[..i + 1][..i] == s[..i];
  }

  /** The word loaded is the big-endian number in memory. */
  lemma LoadIsValue(s: Bytes, i: nat)
    requires i + 8 <= |s|
    ensures Load64(s, i) as nat == Value(s[i..i + 8])
  {
    var t := s[i..i + 8];
    GatherFour(t, 0, 0);
    GatherFour(t, 4, Gathered(t[..4]));
    assert t[..8] == t;
    Join8IsShiftIn(s[i], s[i + 1], s[i + 2], s[i + 3], s[i + 4], s[i + 5], s[i + 6], s[i + 7]);
    GatheredIsValue(t);
  }

  lemma JoinParts(w: bv64)
    ensures w ==
            Join8((w >> 56) as bv8, ((w >> 48) & 0xFF) as bv8, ((w >> 40) & 0xFF) as bv8, ((w >> 32) & 0xFF) as bv8,
                  ((w >> 24) & 0xFF) as bv8, ((w >> 16) & 0xFF) as bv8, ((w >> 8) & 0xFF) as bv8, (w & 0xFF) as bv8)
  {
  }

  /** The bytes stored are the big-endian number. */
  lemma StoreIsValue(w: bv64)
    ensures Value(Store64(w)) == w as nat
  {
    JoinParts(w);
    LoadIsValue(Store64(w), 0);
    assert Store64(w)[0..8] == Store64(w);
  }

  function BlockWords(block: Bytes): (m: seq<bv64>)
    requires |block| == BLOCK
    ensures |m| == 16
  {
    seq(16, (i: nat) requires i < 16 => Load64(block, 8 * i))
  }

  function UnderConstants(k: seq<bv64>, h: Regs<bv64>, block: Bytes): Regs<bv64>
    requires |k| == 80 && |block| == BLOCK
  {
    Compressed(FIPS, k, h, BlockWords(block))
  }

  function OneBlock(h: Regs<bv64>, block: Bytes): Regs<bv64> {
    if |block| == BLOCK then KLength(); UnderConstants(K, h, block) else h
  }

  function Digest(h: Regs<bv64>): (r: Bytes)
    ensures |r| == 64
  {
    Store64(h.a) + Store64(h.b) + Store64(h.c) + Store64(h.d)
    + Store64(h.e) + Store64(h.f) + Store64(h.g) + Store64(h.h)
  }

  /** FIPS 180-4 section 6.4. */
  const SHA512: Algorithm<Regs<bv64>> := Algorithm(IV, OneBlock, Digest)

  /** The sixteen words of a block are the numbers in it. */
  lemma WordsAreValues(block: Bytes)
    requires |block| == BLOCK
    ensures forall i: nat | i < 16 :: BlockWords(block)[i] as nat == Value(block[8 * i..8 * i + 8])
  {
    forall i: nat | i < 16 ensures BlockWords(block)[i] as nat == Value(block[8 * i..8 * i + 8]) {
      LoadIsValue(block, 8 * i);
    }
  }

  lemma UnderConstantsIsFips(k: seq<bv64>, h: Regs<bv64>, block: Bytes)
    requires |k| == 80 && |block| == BLOCK
    ensures UnderConstants(k, h, block) == Fips180.NextHash(k, BlockWords(block), h)
  {
    Fips180.CompressedIsNextHash(k, BlockWords(block), h);
  }

  /** The hash value after a block is the one of the standard. */
  lemma OneBlockIsFips(h: Regs<bv64>, block: Bytes)
    requires |block| == BLOCK
    ensures |K| == 80 && OneBlock(h, block) == Fips180.NextHash(K, BlockWords(block), h)
  {
    KLength();
    UnderConstantsIsFips(K, h, block);
  }

  /** The digest is the eight words of the hash value as big-endian numbers, in order. */
  lemma DigestIsFips(h: Regs<bv64>)
    ensures var d := Digest(h);
            && Value(d[0..8]) == h.a as nat && Value(d[8..16]) == h.b as nat && Value(d[16..24]) == h.c as nat
            && Value(d[24..32]) == h.d as nat && Value(d[32..40]) == h.e as nat && Value(d[40..48]) == h.f as nat
            && Value(d[48..56]) == h.g as nat && Value(d[56..64]) == h.h as nat
  {
    DigestSlices(h);
    StoreIsValue(h.a);
    StoreIsValue(h.b);
    StoreIsValue(h.c);
    StoreIsValue(h.d);
    StoreIsValue(h.e);
    StoreIsValue(h.f);
    StoreIsValue(h.g);
    StoreIsValue(h.h);
  }

  lemma DigestSlices(h: Regs<bv64>)
    ensures var d := Digest(h);
            && d[0..8] == Store64(h.a) && d[8..16] == Store64(h.b) && d[16..24] == Store64(h.c)
            && d[24..32] == Store64(h.d) && d[32..40] == Store64(h.e) && d[40..48] == Store64(h.f)
            && d[48..56] == Store64(h.g) && d[56..64] == Store64(h.h)
  {
    Slices(Store64(h.a), Store64(h.b), Store64(h.c), Store64(h.d),
           Store64(h.e), Store64(h.f), Store64(h.g), Store64(h.h));
  }

  lemma Slices(a: Bytes, b: Bytes, c: Bytes, d: Bytes, e: Bytes, f: Bytes, g: Bytes, h: Bytes)
    requires |a| == |b| == |c| == |d| == |e| == |f| == |g| == |h| == 8
    ensures var s := a + b + c + d + e + f + g + h;
            && s[0..8] == a && s[8..16] == b && s[16..24] == c && s[24..32] == d
            && s[32..40] == e && s[40..48] == f && s[48..56] == g && s[56..64] == h
  {
  }

  /** What HMAC asks of a hash. */
  lemma Sha512Sized()
    ensures Hmac.Sized(SHA512)
  {
  }

  /** sha512_compress, with the macros' forms of Ch and Maj, is the compression function of the standard. */
  method CompressBlock(hash: Regs<bv64>, block: Bytes) returns (r: Regs<bv64>)
    requires |block| == BLOCK
    ensures |K| == 80 && r == OneBlock(hash, block) == Fips180.NextHash(K, BlockWords(block), hash)
  {
    KLength();
    OneBlockIsFips(hash, block);
    r := CompressUnder(K, hash, block);
  }

  method CompressUnder(k: seq<bv64>, hash: Regs<bv64>, block: Bytes) returns (r: Regs<bv64>)
    requires |k| == 80 && |block| == BLOCK
    ensures r == UnderConstants(k, hash, block)
  {
    var w := new bv64[80];
    r := Compress(CODE, k, hash, BlockWords(block), w);
    CodeIsFips();
    SameCompression(CODE, FIPS, k, hash, BlockWords(block));
  }

  /** sha512_pkcs5_2 is PBKDF2 with HMAC-SHA-512 for every password and salt of less than 2^64 bits. */
  method DeriveKey(iCount: int, pwd: Bytes, salt: Bytes, dk: array<bv8>)
    modifies dk
    ensures DigestSized(Prf(SHA512, pwd)) && DigestSized(StandardPrf(SHA512, pwd))
    ensures var c := if iCount < 1 then 1 else iCount;
            && dk[..] == DerivedKey(Prf(SHA512, pwd), salt, c, dk.Length)
            && (8 * |pwd| < WRAP && 8 * (BLOCK + 64 + |salt|) < WRAP ==>
                  dk[..] == DerivedKey(StandardPrf(SHA512, pwd), salt, c, dk.Length))
  {
    Sha512Sized();
    StandardPrfSized(SHA512, pwd);
    Derive(SHA512, iCount, pwd, salt, dk);
    ghost var c := if iCount < 1 then 1 else iCount;
    if 8 * |pwd| < WRAP && 8 * (BLOCK + 64 + |salt|) < WRAP {
      DerivedKeyIsStandard(SHA512, pwd, salt, c, dk.Length);
    }
  }
}
