/**
 CRC-32 (IEEE 802.3, reflected) and the combination of two checksums.

 A word holds a polynomial over GF(2) modulo the CRC polynomial, with the coefficient of x^0 in the most
 significant bit; Xor adds and Step multiplies by x.  The two versions of the code differ in the zero guard of multmodp.
 */
module Crc32 {
  import opened Lookup
  import opened Words

  const POLY: bv32 := 0xEDB88320
  const ONE: bv32 := 0x80000000   // x^0
  const ONES: bv32 := 0xFFFFFFFF

  // ---- one-bit steps ------------------------------------------------------------------------------

  function Step(b: bv32): bv32 {
    if b & 1 != 0 then (b >> 1) ^ POLY else b >> 1
  }

  function Steps(b: bv32, n: nat): bv32
    decreases n
  {
    if n == 0 then b else Steps(Step(b), n - 1)
  }

  lemma RawLowBit(a: bv32, b: bv32)
    ensures (a ^ b) & 1 == (a & 1) ^ (b & 1)
  {
  }

  lemma RawHalf(a: bv32, b: bv32)
    ensures (a ^ b) >> 1 == (a >> 1) ^ (b >> 1)
  {
  }

  /** Half of a word, and whether it loses a coefficient. */
  function Half(b: bv32): bv32 {
    b >> 1
  }

  predicate Odd(b: bv32) {
    b & 1 != 0
  }

  lemma StepIsReduced(b: bv32)
    ensures Step(b) == Reduced(Xor, Odd(b), Half(b), POLY)
  {
  }

  lemma HalfXor(a: bv32, b: bv32)
    ensures Half(Xor(a, b)) == Xor(Half(a), Half(b))
  {
    RawHalf(a, b);
  }

  lemma OddXor(a: bv32, b: bv32)
    ensures Odd(Xor(a, b)) <==> Odd(a) != Odd(b)
  {
    RawLowBit(a, b);
  }

  lemma StepXor(a: bv32, b: bv32)
    ensures Step(Xor(a, b)) == Xor(Step(a), Step(b))
  {
    StepIsReduced(a);
    StepIsReduced(b);
    StepIsReduced(Xor(a, b));
    HalfXor(a, b);
    OddXor(a, b);
    ReducedXor(Odd(a), Odd(b), Half(a), Half(b), POLY);
  }

  lemma {:induction false} StepsXor(a: bv32, b: bv32, n: nat)
    ensures Steps(Xor(a, b), n) == Xor(Steps(a, n), Steps(b, n))
    decreases n
  {
    if n > 0 {
      StepXor(a, b);
      StepsXor(Step(a), Step(b), n - 1);
    }
  }

  lemma {:induction false} StepsAdd(b: bv32, m: nat, n: nat)
    ensures Steps(Steps(b, m), n) == Steps(b, m + n)
    decreases m
  {
    if m > 0 {
      StepsAdd(Step(b), m - 1, n);
    }
  }

  /** The bit step is injective at zero: no nonzero word ever steps to zero. */
  lemma StepNonzero(b: bv32)
    requires b != 0
    ensures Step(b) != 0
  {
  }

  lemma {:induction false} StepsNonzero(b: bv32, n: nat)
    requires b != 0
    ensures Steps(b, n) != 0
    decreases n
  {
    if n > 0 {
      StepNonzero(b);
      StepsNonzero(Step(b), n - 1);
    }
  }

  // ---- the checksum -------------------------------------------------------------------------------

  /** Reference register: one byte is added in and then clocked through eight bit steps. */
  function Register(r: bv32, s: seq<bv8>): bv32
    decreases |s|
  {
    if s == [] then r else Register(ByteStep(r, s[0]), s[1..])
  }

  function ByteStep(r: bv32, c: bv8): bv32 {
    Steps(Xor(r, Widen(c)), 8)
  }

  function Widen(c: bv8): bv32 {
    c as bv32
  }

  function Checksum(s: seq<bv8>): bv32 {
    Xor(Register(ONES, s), ONES)
  }

  /** The byte-at-a-time table. */
  function Table(i: bv8): bv32 {
    if i & 0x80 == 0 then
      if i & 0x40 == 0 then
        if i & 0x20 == 0 then
          if i & 0x10 == 0 then
            Row32(i, 0x00000000, 0x77073096, 0xEE0E612C, 0x990951BA, 0x076DC419, 0x706AF48F, 0xE963A535, 0x9E6495A3,
              0x0EDB8832, 0x79DCB8A4, 0xE0D5E91E, 0x97D2D988, 0x09B64C2B, 0x7EB17CBD, 0xE7B82D07, 0x90BF1D91)
          else
            Row32(i, 0x1DB71064, 0x6AB020F2, 0xF3B97148, 0x84BE41DE, 0x1ADAD47D, 0x6DDDE4EB, 0xF4D4B551, 0x83D385C7,
              0x136C9856, 0x646BA8C0, 0xFD62F97A, 0x8A65C9EC, 0x14015C4F, 0x63066CD9, 0xFA0F3D63, 0x8D080DF5)
        else
          if i & 0x10 == 0 then
            Row32(i, 0x3B6E20C8, 0x4C69105E, 0xD56041E4, 0xA2677172, 0x3C03E4D1, 0x4B04D447, 0xD20D85FD, 0xA50AB56B,
              0x35B5A8FA, 0x42B2986C, 0xDBBBC9D6, 0xACBCF940, 0x32D86CE3, 0x45DF5C75, 0xDCD60DCF, 0xABD13D59)
          else
            Row32(i, 0x26D930AC, 0x51DE003A, 0xC8D75180, 0xBFD06116, 0x21B4F4B5, 0x56B3C423, 0xCFBA9599, 0xB8BDA50F,
              0x2802B89E, 0x5F058808, 0xC60CD9B2, 0xB10BE924, 0x2F6F7C87, 0x58684C11, 0xC1611DAB, 0xB6662D3D)
      else
        if i & 0x20 == 0 then
          if i & 0x10 == 0 then
            Row32(i, 0x76DC4190, 0x01DB7106, 0x98D220BC, 0xEFD5102A, 0x71B18589, 0x06B6B51F, 0x9FBFE4A5, 0xE8B8D433,
              0x7807C9A2, 0x0F00F934, 0x9609A88E, 0xE10E9818, 0x7F6A0DBB, 0x086D3D2D, 0x91646C97, 0xE6635C01)
          else
            Row32(i, 0x6B6B51F4, 0x1C6C6162, 0x856530D8, 0xF262004E, 0x6C0695ED, 0x1B01A57B, 0x8208F4C1, 0xF50FC457,
              0x65B0D9C6, 0x12B7E950, 0x8BBEB8EA, 0xFCB9887C, 0x62DD1DDF, 0x15DA2D49, 0x8CD37CF3, 0xFBD44C65)
        else
          if i & 0x10 == 0 then
            Row32(i, 0x4DB26158, 0x3AB551CE, 0xA3BC0074, 0xD4BB30E2, 0x4ADFA541, 0x3DD895D7, 0xA4D1C46D, 0xD3D6F4FB,
              0x4369E96A, 0x346ED9FC, 0xAD678846, 0xDA60B8D0, 0x44042D73, 0x33031DE5, 0xAA0A4C5F, 0xDD0D7CC9)
          else
            Row32(i, 0x5005713C, 0x270241AA, 0xBE0B1010, 0xC90C2086, 0x5768B525, 0x206F85B3, 0xB966D409, 0xCE61E49F,
              0x5EDEF90E, 0x29D9C998, 0xB0D09822, 0xC7D7A8B4, 0x59B33D17, 0x2EB40D81, 0xB7BD5C3B, 0xC0BA6CAD)
    else
      if i & 0x40 == 0 then
        if i & 0x20 == 0 then
          if i & 0x10 == 0 then
            Row32(i, 0xEDB88320, 0x9ABFB3B6, 0x03B6E20C, 0x74B1D29A, 0xEAD54739, 0x9DD277AF, 0x04DB2615, 0x73DC1683,
              0xE3630B12, 0x94643B84, 0x0D6D6A3E, 0x7A6A5AA8, 0xE40ECF0B, 0x9309FF9D, 0x0A00AE27, 0x7D079EB1)
          else
            Row32(i, 0xF00F9344, 0x8708A3D2, 0x1E01F268, 0x6906C2FE, 0xF762575D, 0x806567CB, 0x196C3671, 0x6E6B06E7,
              0xFED41B76, 0x89D32BE0, 0x10DA7A5A, 0x67DD4ACC, 0xF9B9DF6F, 0x8EBEEFF9, 0x17B7BE43, 0x60B08ED5)
        else
          if i & 0x10 == 0 then
            Row32(i, 0xD6D6A3E8, 0xA1D1937E, 0x38D8C2C4, 0x4FDFF252, 0xD1BB67F1, 0xA6BC5767, 0x3FB506DD, 0x48B2364B,
              0xD80D2BDA, 0xAF0A1B4C, 0x36034AF6, 0x41047A60, 0xDF60EFC3, 0xA867DF55, 0x316E8EEF, 0x4669BE79)
          else
            Row32(i, 0xCB61B38C, 0xBC66831A, 0x256FD2A0, 0x5268E236, 0xCC0C7795, 0xBB0B4703, 0x220216B9, 0x5505262F,
              0xC5BA3BBE, 0xB2BD0B28, 0x2BB45A92, 0x5CB36A04, 0xC2D7FFA7, 0xB5D0CF31, 0x2CD99E8B, 0x5BDEAE1D)
      else
        if i & 0x20 == 0 then
          if i & 0x10 == 0 then
            Row32(i, 0x9B64C2B0, 0xEC63F226, 0x756AA39C, 0x026D930A, 0x9C0906A9, 0xEB0E363F, 0x72076785, 0x05005713,
              0x95BF4A82, 0xE2B87A14, 0x7BB12BAE, 0x0CB61B38, 0x92D28E9B, 0xE5D5BE0D, 0x7CDCEFB7, 0x0BDBDF21)
          else
            Row32(i, 0x86D3D2D4, 0xF1D4E242, 0x68DDB3F8, 0x1FDA836E, 0x81BE16CD, 0xF6B9265B, 0x6FB077E1, 0x18B74777,
              0x88085AE6, 0xFF0F6A70, 0x66063BCA, 0x11010B5C, 0x8F659EFF, 0xF862AE69, 0x616BFFD3, 0x166CCF45)
        else
          if i & 0x10 == 0 then
            Row32(i, 0xA00AE278, 0xD70DD2EE, 0x4E048354, 0x3903B3C2, 0xA7672661, 0xD06016F7, 0x4969474D, 0x3E6E77DB,
              0xAED16A4A, 0xD9D65ADC, 0x40DF0B66, 0x37D83BF0, 0xA9BCAE53, 0xDEBB9EC5, 0x47B2CF7F, 0x30B5FFE9)
          else
            Row32(i, 0xBDBDF21C, 0xCABAC28A, 0x53B39330, 0x24B4A3A6, 0xBAD03605, 0xCDD70693, 0x54DE5729, 0x23D967BF,
              0xB3667A2E, 0xC4614AB8, 0x5D681B02, 0x2A6F2B94, 0xB40BBE37, 0xC30C8EA1, 0x5A05DF1B, 0x2D02EF8D)
  }

  function Step8(b: bv32): bv32 {
    Step(Step(Step(Step(Step(Step(Step(Step(b))))))))
  }

  lemma Steps8(b: bv32)
    ensures Steps(b, 8) == Step8(b)
  {
    assert Steps(b, 8) == Steps(Step(b), 7) == Steps(Step(Step(b)), 6) == Steps(Step(Step(Step(b))), 5);
    var c := Step(Step(Step(b)));
    assert Steps(c, 5) == Steps(Step(c), 4) == Steps(Step(Step(c)), 3) == Steps(Step(Step(Step(c))), 2);
    var d := Step(Step(Step(c)));
    assert Steps(d, 2) == Steps(Step(d), 1) == Steps(Step(Step(d)), 0);
  }

  lemma TableRow0(i: bv8)
    requires i & 0x80 == 0 && i & 0x40 == 0 && i & 0x20 == 0 && i & 0x10 == 0
    ensures Table(i) == Step8(i as bv32)
  {
  }

  lemma TableRow1(i: bv8)
    requires i & 0x80 == 0 && i & 0x40 == 0 && i & 0x20 == 0 && i & 0x10 != 0
    ensures Table(i) == Step8(i as bv32)
  {
  }

  lemma TableRow2(i: bv8)
    requires i & 0x80 == 0 && i & 0x40 == 0 && i & 0x20 != 0 && i & 0x10 == 0
    ensures Table(i) == Step8(i as bv32)
  {
  }

  lemma TableRow3(i: bv8)
    requires i & 0x80 == 0 && i & 0x40 == 0 && i & 0x20 != 0 && i & 0x10 != 0
    ensures Table(i) == Step8(i as bv32)
  {
  }

  lemma TableRow4(i: bv8)
    requires i & 0x80 == 0 && i & 0x40 != 0 && i & 0x20 == 0 && i & 0x10 == 0
    ensures Table(i) == Step8(i as bv32)
  {
  }

  lemma TableRow5(i: bv8)
    requires i & 0x80 == 0 && i & 0x40 != 0 && i & 0x20 == 0 && i & 0x10 != 0
    ensures Table(i) == Step8(i as bv32)
  {
  }

  lemma TableRow6(i: bv8)
    requires i & 0x80 == 0 && i & 0x40 != 0 && i & 0x20 != 0 && i & 0x10 == 0
    ensures Table(i) == Step8(i as bv32)
  {
  }

  lemma TableRow7(i: bv8)
    requires i & 0x80 == 0 && i & 0x40 != 0 && i & 0x20 != 0 && i & 0x10 != 0
    ensures Table(i) == Step8(i as bv32)
  {
  }

  lemma TableRow8(i: bv8)
    requires i & 0x80 != 0 && i & 0x40 == 0 && i & 0x20 == 0 && i & 0x10 == 0
    ensures Table(i) == Step8(i as bv32)
  {
  }

  lemma TableRow9(i: bv8)
    requires i & 0x80 != 0 && i & 0x40 == 0 && i & 0x20 == 0 && i & 0x10 != 0
    ensures Table(i) == Step8(i as bv32)
  {
  }

  lemma TableRowA(i: bv8)
    requires i & 0x80 != 0 && i & 0x40 == 0 && i & 0x20 != 0 && i & 0x10 == 0
    ensures Table(i) == Step8(i as bv32)
  {
  }

  lemma TableRowB(i: bv8)
    requires i & 0x80 != 0 && i & 0x40 == 0 && i & 0x20 != 0 && i & 0x10 != 0
    ensures Table(i) == Step8(i as bv32)
  {
  }

  lemma TableRowC(i: bv8)
    requires i & 0x80 != 0 && i & 0x40 != 0 && i & 0x20 == 0 && i & 0x10 == 0
    ensures Table(i) == Step8(i as bv32)
  {
  }

  lemma TableRowD(i: bv8)
    requires i & 0x80 != 0 && i & 0x40 != 0 && i & 0x20 == 0 && i & 0x10 != 0
    ensures Table(i) == Step8(i as bv32)
  {
  }

  lemma TableRowE(i: bv8)
    requires i & 0x80 != 0 && i & 0x40 != 0 && i & 0x20 != 0 && i & 0x10 == 0
    ensures Table(i) == Step8(i as bv32)
  {
  }

  lemma TableRowF(i: bv8)
    requires i & 0x80 != 0 && i & 0x40 != 0 && i & 0x20 != 0 && i & 0x10 != 0
    ensures Table(i) == Step8(i as bv32)
  {
  }

  /** Every entry of the table is the eight-bit step of its own index. */
  lemma TableEntry(i: bv8)
    ensures Table(i) == Step8(i as bv32)
  {
    if i & 0x80 == 0 {
      if i & 0x40 == 0 {
        if i & 0x20 == 0 {
          if i & 0x10 == 0 {
            TableRow0(i);
          } else {
            TableRow1(i);
          }
        } else {
          if i & 0x10 == 0 {
            TableRow2(i);
          } else {
            TableRow3(i);
          }
        }
      } else {
        if i & 0x20 == 0 {
          if i & 0x10 == 0 {
            TableRow4(i);
          } else {
            TableRow5(i);
          }
        } else {
          if i & 0x10 == 0 {
            TableRow6(i);
          } else {
            TableRow7(i);
          }
        }
      }
    } else {
      if i & 0x40 == 0 {
        if i & 0x20 == 0 {
          if i & 0x10 == 0 {
            TableRow8(i);
          } else {
            TableRow9(i);
          }
        } else {
          if i & 0x10 == 0 {
            TableRowA(i);
          } else {
            TableRowB(i);
          }
        }
      } else {
        if i & 0x20 == 0 {
          if i & 0x10 == 0 {
            TableRowC(i);
          } else {
            TableRowD(i);
          }
        } else {
          if i & 0x10 == 0 {
            TableRowE(i);
          } else {
            TableRowF(i);
          }
        }
      }
    }
  }

  /** The byte that selects the table entry, and what is left of the register after the shift. */
  function LowByte(v: bv32): bv8 {
    (v & 0xFF) as bv8
  }

  function HighBytes(v: bv32): bv32 {
    v >> 8
  }

  lemma SplitLowByte(v: bv32)
    ensures v == Xor(LowByte(v) as bv32, HighBytes(v) << 8)
  {
  }

  lemma HighBytesStep(v: bv32)
    ensures Step8(HighBytes(v) << 8) == HighBytes(v)
  {
  }

  lemma HighBytesXor(v: bv32, c: bv8)
    ensures HighBytes(Xor(v, Widen(c))) == HighBytes(v)
  {
  }

  /** The body of the checksum loop. */
  function TableStep(crc: bv32, c: bv8): bv32 {
    Xor(Table(LowByte(Xor(crc, Widen(c)))), HighBytes(crc))
  }

  /** One table lookup does the work of eight bit steps. */
  lemma TableStepIsEightSteps(crc: bv32, c: bv8)
    ensures TableStep(crc, c) == ByteStep(crc, c)
  {
    EightSteps(Xor(crc, Widen(c)));
    HighBytesXor(crc, c);
  }

  lemma EightSteps(v: bv32)
    ensures Steps(v, 8) == Xor(Table(LowByte(v)), HighBytes(v))
  {
    var lo, hi := LowByte(v) as bv32, HighBytes(v) << 8;
    SplitLowByte(v);
    StepsXor(lo, hi, 8);
    assert Steps(lo, 8) == Table(LowByte(v)) by { Steps8(lo); TableEntry(LowByte(v)); }
    assert Steps(hi, 8) == HighBytes(v) by { Steps8(hi); HighBytesStep(v); }
  }

  /** The reference register is affine in its starting value. */
  lemma {:induction false} RegisterAffine(r: bv32, d: bv32, s: seq<bv8>)
    ensures Register(Xor(r, d), s) == Xor(Register(r, s), Steps(d, 8 * |s|))
    decreases |s|
  {
    if s != [] {
      var c := Widen(s[0]);
      XorLaws(r, d, c);
      XorLaws(r, c, d);
      XorLaws(d, c, 0);
      StepsXor(Xor(r, c), d, 8);
      RegisterAffine(Steps(Xor(r, c), 8), Steps(d, 8), s[1..]);
      StepsAdd(d, 8, 8 * |s[1..]|);
    }
  }

  lemma {:induction false} RegisterConcat(r: bv32, s: seq<bv8>, t: seq<bv8>)
    ensures Register(r, s + t) == Register(Register(r, s), t)
    decreases |s|
  {
    if s == [] {
      assert s + t == t;
    } else {
      assert (s + t)[1..] == s[1..] + t;
      RegisterConcat(ByteStep(r, s[0]), s[1..], t);
    }
  }

  /** The checksum of a concatenation: shift the first one by the length of the second part and add. */
  lemma ChecksumConcat(s: seq<bv8>, t: seq<bv8>)
    ensures Checksum(s + t) == Xor(Steps(Checksum(s), 8 * |t|), Checksum(t))
  {
    RegisterConcat(ONES, s, t);
    var rs, rt := Register(ONES, s), Register(ONES, t);
    XorLaws(rs, ONES, ONES);
    XorLaws(ONES, Xor(rs, ONES), 0);
    RegisterAffine(ONES, Checksum(s), t);
    var d := Steps(Checksum(s), 8 * |t|);
    XorLaws(rt, d, ONES);
    XorLaws(d, rt, ONES);
  }

  /** crc32 of crypto_lib: counts the remaining length down. */
  method Crc32(p: seq<bv8>) returns (r: bv32)
    ensures r == Checksum(p)
  {
    var crc, len, i := ONES, |p|, 0;
    while len > 0
      invariant 0 <= i && 0 <= len && i + len == |p|
      invariant Register(ONES, p) == Register(crc, p[i..])
    {
      TableStepIsEightSteps(crc, p[i]);
      assert p[i..][1..] == p[i + 1..];
      crc := TableStep(crc, p[i]);
      i, len := i + 1, len - 1;
    }
    r := Xor(crc, ONES);
  }

  /** crc32 of the older copy: an index loop that complements the register. */
  method Crc32Indexed(p: seq<bv8>) returns (r: bv32)
    ensures r == Checksum(p)
  {
    var crc := ONES;
    for i := 0 to |p|
      invariant Register(ONES, p) == Register(crc, p[i..])
    {
      TableStepIsEightSteps(crc, p[i]);
      assert p[i..][1..] == p[i + 1..];
      crc := TableStep(crc, p[i]);
    }
    r := !crc;
  }

  // ---- multiplication modulo the CRC polynomial ---------------------------------------------------

  predicate IsBit(m: bv32) {
    m != 0 && m & (m - 1) == 0
  }

  /** The mask bit m together with all lower ones: the coefficients still to be looked at. */
  function Rest(m: bv32): bv32 {
    m | (m - 1)
  }

  lemma NextBit(m: bv32)
    requires IsBit(m)
    ensures m >> 1 < m
    ensures m == 1 ==> m >> 1 == 0
    ensures m != 1 ==> IsBit(m >> 1) && Rest(m >> 1) == m - 1
  {
  }

  function Pick(a: bv32, m: bv32, b: bv32): bv32 {
    if a & m != 0 then b else 0
  }

  /** Sum of the terms of the product from the coefficient under the mask bit m on. */
  function MulFrom(a: bv32, m: bv32, b: bv32): bv32
    decreases m
  {
    if m == 0 then 0 else if m >> 1 < m then Xor(Pick(a, m, b), MulFrom(a, m >> 1, Step(b))) else 0
  }

  function Mul(a: bv32, b: bv32): bv32 {
    MulFrom(a, ONE, b)
  }

  lemma MulFromUnfold(a: bv32, m: bv32, b: bv32)
    requires IsBit(m)
    ensures MulFrom(a, m, b) == Xor(Pick(a, m, b), MulFrom(a, m >> 1, Step(b)))
    ensures m == 1 ==> MulFrom(a, m, b) == Pick(a, m, b)
  {
    NextBit(m);
    XorLaws(Pick(a, m, b), 0, 0);
  }

  /** Once no coefficient is left under the mask, the remaining sum is zero. */
  lemma {:induction false} MulFromRestZero(a: bv32, m: bv32, b: bv32)
    requires IsBit(m) && a & Rest(m) == 0
    ensures MulFrom(a, m, b) == 0
    decreases m
  {
    MulFromUnfold(a, m, b);
    RestBits(a, m);
    NextBit(m);
    if m != 1 {
      MulFromRestZero(a, m >> 1, Step(b));
    }
  }

  /** The coefficients under Rest(m) are the one at m and those below it. */
  lemma RestBits(a: bv32, m: bv32)
    requires IsBit(m)
    ensures a & Rest(m) == 0 <==> a & m == 0 && a & (m - 1) == 0
  {
  }

  lemma PickXorRight(a: bv32, m: bv32, b: bv32, d: bv32)
    ensures Pick(a, m, Xor(b, d)) == Xor(Pick(a, m, b), Pick(a, m, d))
  {
    XorLaws(0, 0, 0);
  }

  lemma {:induction false} MulFromXorRight(a: bv32, m: bv32, b: bv32, d: bv32)
    requires IsBit(m)
    ensures MulFrom(a, m, Xor(b, d)) == Xor(MulFrom(a, m, b), MulFrom(a, m, d))
    decreases m
  {
    PickXorRight(a, m, b, d);
    NextBit(m);
    if m == 1 {
      MulFromUnfold(a, m, Xor(b, d));
      MulFromUnfold(a, m, b);
      MulFromUnfold(a, m, d);
    } else {
      MulFromXorRight(a, m >> 1, Step(b), Step(d));
      MulFromXorRightStep(a, m, b, d);
    }
  }

  lemma MulFromXorRightStep(a: bv32, m: bv32, b: bv32, d: bv32)
    requires IsBit(m)
    requires Pick(a, m, Xor(b, d)) == Xor(Pick(a, m, b), Pick(a, m, d))
    requires MulFrom(a, m >> 1, Xor(Step(b), Step(d))) == Xor(MulFrom(a, m >> 1, Step(b)), MulFrom(a, m >> 1, Step(d)))
    ensures MulFrom(a, m, Xor(b, d)) == Xor(MulFrom(a, m, b), MulFrom(a, m, d))
  {
    StepXor(b, d);
    MulFromUnfold(a, m, Xor(b, d));
    XorSwap(Pick(a, m, b), Pick(a, m, d), MulFrom(a, m >> 1, Step(b)), MulFrom(a, m >> 1, Step(d)));
    MulFromUnfold(a, m, b);
    MulFromUnfold(a, m, d);
  }

  /** Multiplying the second factor by x multiplies the product by x. */
  lemma {:induction false} MulFromStepRight(a: bv32, m: bv32, b: bv32)
    requires IsBit(m)
    ensures MulFrom(a, m, Step(b)) == Step(MulFrom(a, m, b))
    decreases m
  {
    NextBit(m);
    if m == 1 {
      MulFromUnfold(a, m, Step(b));
      MulFromUnfold(a, m, b);
      PickStep(a, m, b);
    } else {
      MulFromStepRight(a, m >> 1, Step(b));
      MulFromStepRightMore(a, m, b, m >> 1);
    }
  }

  lemma MulFromStepRightMore(a: bv32, m: bv32, b: bv32, k: bv32)
    requires IsBit(m) && k == m >> 1
    requires MulFrom(a, k, Step(Step(b))) == Step(MulFrom(a, k, Step(b)))
    ensures MulFrom(a, m, Step(b)) == Step(MulFrom(a, m, b))
  {
    MulFromUnfold(a, m, Step(b));
    MulFromUnfold(a, m, b);
    PickStep(a, m, b);
    StepXor(Pick(a, m, b), MulFrom(a, k, Step(b)));
  }

  lemma PickStep(a: bv32, m: bv32, b: bv32)
    ensures Pick(a, m, Step(b)) == Step(Pick(a, m, b))
  {
    assert Step(0) == 0;
  }

  lemma StepBit(m: bv32)
    requires IsBit(m) && m != 1
    ensures Step(m) == m >> 1
  {
  }

  lemma PickBit(a: bv32, m: bv32)
    requires IsBit(m)
    ensures Pick(a, m, m) == a & m
    ensures m == 1 ==> a & Rest(m) == a & m
    ensures Xor(a & m, a & (m - 1)) == a & Rest(m)
  {
  }

  lemma {:induction false} MulFromOneRight(a: bv32, m: bv32)
    requires IsBit(m)
    ensures MulFrom(a, m, m) == a & Rest(m)
    decreases m
  {
    MulFromUnfold(a, m, m);
    NextBit(m);
    PickBit(a, m);
    if m != 1 {
      StepBit(m);
      MulFromOneRight(a, m >> 1);
    }
  }

  /** x^0 is the unit on both sides. */
  lemma MulOne(a: bv32)
    ensures Mul(a, ONE) == a && Mul(ONE, a) == a
  {
    MulFromOneRight(a, ONE);
    MulFromUnfold(ONE, ONE, a);
    NextBit(ONE);
    MulFromRestZero(ONE, ONE >> 1, Step(a));
    XorLaws(a, 0, 0);
  }

  lemma MulZeroRight(a: bv32)
    ensures Mul(a, 0) == 0
  {
    MulFromXorRight(a, ONE, 0, 0);
    XorLaws(0, 0, 0);
    XorLaws(Mul(a, 0), 0, 0);
  }

  function Top(b: bv32): bv32 {
    b & ONE
  }

  function Up(b: bv32): bv32 {
    b << 1
  }

  /** Every word is its x^0 coefficient plus x times another word. */
  lemma PeelTop(b: bv32)
    ensures b == Xor(Top(b), Step(Up(b)))
    ensures Top(b) == 0 || Top(b) == ONE
  {
  }

  lemma MulPeel(a: bv32, b: bv32)
    ensures Mul(a, b) == Xor(Mul(a, Top(b)), Step(Mul(a, Up(b))))
  {
    PeelTop(b);
    MulFromXorRight(a, ONE, Top(b), Step(Up(b)));
    MulFromStepRight(a, ONE, Up(b));
  }

  lemma MulStepLeftTop(a: bv32, b: bv32)
    ensures Mul(Step(a), Top(b)) == Step(Mul(a, Top(b)))
  {
    PeelTop(b);
    MulOne(a);
    MulOne(Step(a));
    MulZeroRight(a);
    MulZeroRight(Step(a));
    assert Step(0) == 0;
  }

  predicate AtLeast(b: bv32, m: bv32) {
    b & (m - 1) == 0
  }

  lemma ShiftUp(b: bv32, m: bv32)
    requires IsBit(m) && m != ONE && AtLeast(b, m)
    ensures IsBit(m << 1) && m < m << 1 && AtLeast(Up(b), m << 1)
  {
  }

  lemma OnlyTop(b: bv32)
    requires AtLeast(b, ONE)
    ensures b == Top(b)
  {
  }

  /**
   Multiplying the first factor by x multiplies the product by x as well: shown for every second factor b
   by building b from x^0 with sums and multiplications by x.
   */
  lemma {:induction false} MulStepLeftAux(a: bv32, b: bv32, m: bv32)
    requires IsBit(m) && AtLeast(b, m)
    ensures Mul(Step(a), b) == Step(Mul(a, b))
    decreases ONES - m
  {
    MulStepLeftTop(a, b);
    if m == ONE {
      OnlyTop(b);
    } else {
      ShiftUp(b, m);
      MulStepLeftAux(a, Up(b), m << 1);
      MulPeel(Step(a), b);
      MulPeel(a, b);
      StepXor(Mul(a, Top(b)), Step(Mul(a, Up(b))));
    }
  }

  lemma MulStepLeft(a: bv32, b: bv32)
    ensures Mul(Step(a), b) == Step(Mul(a, b))
  {
    MulStepLeftAux(a, b, 1);
  }

  // ---- powers of x --------------------------------------------------------------------------------

  function XPow(n: nat): bv32 {
    Steps(ONE, n)
  }

  lemma {:induction false} MulStepsLeft(a: bv32, b: bv32, n: nat)
    ensures Mul(Steps(a, n), b) == Steps(Mul(a, b), n)
    decreases n
  {
    if n > 0 {
      MulStepsLeft(Step(a), b, n - 1);
      MulStepLeft(a, b);
    }
  }

  /** Multiplying by x^n is the same as running n bit steps. */
  lemma MulXPow(n: nat, c: bv32)
    ensures Mul(XPow(n), c) == Steps(c, n)
  {
    MulStepsLeft(ONE, c, n);
    MulOne(c);
  }

  lemma XPowAdd(m: nat, n: nat)
    ensures Mul(XPow(m), XPow(n)) == XPow(m + n)
  {
    MulXPow(m, XPow(n));
    StepsAdd(ONE, n, m);
  }

  // ---- multmodp -----------------------------------------------------------------------------------

  /** The loop of multmodp leaves in the pass whose mask is m exactly when this holds. */
  predicate LeavesAt(a: bv32, m: bv32) {
    a & m != 0 && a & (m - 1) == 0
  }

  /** The loop entered with mask m reaches a pass in which it leaves; with mask 0 it would spin forever. */
  predicate WillLeave(a: bv32, m: bv32)
    decreases m
  {
    IsBit(m) && (LeavesAt(a, m) || (m >> 1 < m && WillLeave(a, m >> 1)))
  }

  lemma {:induction false} WillLeaveIff(a: bv32, m: bv32)
    requires IsBit(m)
    ensures WillLeave(a, m) <==> a & Rest(m) != 0
    decreases m
  {
    RestBits(a, m);
    NextBit(m);
    if m != 1 {
      WillLeaveIff(a, m >> 1);
    }
  }

  /** The loop without the zero guard leaves if and only if its first argument is not zero. */
  lemma UnguardedLoopTerminatesIff(a: bv32)
    ensures WillLeave(a, ONE) <==> a != 0
  {
    WillLeaveIff(a, ONE);
  }

  function Accumulate(a: bv32, m: bv32, b: bv32, p: bv32): bv32 {
    if a & m != 0 then Xor(p, b) else p
  }

  lemma AccumulatePick(a: bv32, m: bv32, b: bv32, p: bv32)
    ensures Xor(p, Pick(a, m, b)) == Accumulate(a, m, b, p)
  {
    XorLaws(p, 0, 0);
  }

  /** A pass moves the term under the mask from the remaining sum into the accumulator. */
  lemma PassContinues(a: bv32, m: bv32, b: bv32, p: bv32)
    requires IsBit(m)
    ensures Xor(p, MulFrom(a, m, b)) == Xor(Accumulate(a, m, b, p), MulFrom(a, m >> 1, Step(b)))
  {
    MulFromUnfold(a, m, b);
    XorLaws(p, Pick(a, m, b), MulFrom(a, m >> 1, Step(b)));
    AccumulatePick(a, m, b, p);
  }

  lemma PassLeaves(a: bv32, m: bv32, b: bv32)
    requires IsBit(m) && LeavesAt(a, m)
    ensures MulFrom(a, m, b) == b
  {
    MulFromUnfold(a, m, b);
    NextBit(m);
    if m != 1 {
      MulFromRestZero(a, m >> 1, Step(b));
      XorLaws(b, 0, 0);
    }
  }

  /** One pass of the loop of multmodp. */
  method LoopPass(a: bv32, m0: bv32, b0: bv32, p0: bv32) returns (m: bv32, b: bv32, p: bv32, leave: bool)
    requires WillLeave(a, m0)
    ensures leave ==> p == Xor(p0, MulFrom(a, m0, b0))
    ensures !leave ==> m < m0 && WillLeave(a, m) && Xor(p, MulFrom(a, m, b)) == Xor(p0, MulFrom(a, m0, b0))
  {
    m, b, p := m0, b0, p0;
    if a & m != 0 {
      p := Xor(p, b);
      if a & (m - 1) == 0 {
        PassLeaves(a, m, b);
        return m, b, p, true;
      }
    }
    PassContinues(a, m, b, p0);
    m := m >> 1;
    b := Step(b);
    leave := false;
  }

  /** multmodp of crypto_lib, without a zero guard. */
  method MultModP(a: bv32, b0: bv32) returns (p: bv32)
    requires a != 0
    ensures p == Mul(a, b0)
  {
    UnguardedLoopTerminatesIff(a);
    XorLaws(Mul(a, b0), 0, 0);
    var m, b, leave := ONE, b0, false;
    p := 0;
    while !leave
      invariant leave ==> p == Mul(a, b0)
      invariant !leave ==> WillLeave(a, m) && Mul(a, b0) == Xor(p, MulFrom(a, m, b))
      decreases !leave, m
    {
      m, b, p, leave := LoopPass(a, m, b, p);
    }
  }

  /** multmodp of the older copy, with the zero guard. */
  method MultModPGuarded(a: bv32, b: bv32) returns (p: bv32)
    ensures p == Mul(a, b)
  {
    if a == 0 {
      MulFromRestZero(0, ONE, b);
      return 0;
    }
    p := MultModP(a, b);
  }

  // ---- x2nmodp and crc32_combine ------------------------------------------------------------------

  function Exp2(k: nat): nat {
    if k == 0 then 1 else 2 * Exp2(k - 1)
  }

  /** Raises x to n * 2^k by repeated squaring; every call of multmodp gets a nonzero first argument. */
  method X2nModP(n0: nat, k: nat) returns (p: bv32)
    ensures p == XPow(n0 * Exp2(k))
  {
    p := ONE;
    var x := 0x40000000;
    assert x == Step(ONE) == XPow(1);
    for i := 0 to k
      invariant x == XPow(Exp2(i))
    {
      StepsNonzero(ONE, Exp2(i));
      XPowAdd(Exp2(i), Exp2(i));
      x := MultModP(x, x);
    }
    var n := n0;
    ghost var done, e := 0, Exp2(k);
    while n != 0
      invariant p == XPow(done) && x == XPow(e)
      invariant done + n * e == n0 * Exp2(k)
    {
      StepsNonzero(ONE, e);
      if n % 2 == 1 {
        XPowAdd(e, done);
        p := MultModP(x, p);
        done := done + e;
      }
      XPowAdd(e, e);
      Halve(n, e);
      n := n / 2;
      x := MultModP(x, x);
      e := e + e;
    }
  }

  lemma Halve(n: nat, e: nat)
    ensures n * e == n / 2 * (e + e) + (if n % 2 == 1 then e else 0)
  {
    var h := n / 2;
    assert n == 2 * h + n % 2;
    assert n * e == 2 * h * e + n % 2 * e;
  }

  /** What crc32_combine returns. */
  function Combined(crc1: bv32, crc2: bv32, len2: nat): bv32 {
    if len2 == 0 then crc1 else Xor(Mul(XPow(8 * len2), crc1), crc2)
  }

  method Crc32Combine(crc1: bv32, crc2: bv32, len2: nat) returns (r: bv32)
    requires len2 < 0x1_0000_0000
    ensures r == Combined(crc1, crc2, len2)
  {
    if len2 == 0 {
      return crc1;
    }
    var xp := X2nModP(len2, 3);
    assert Exp2(3) == 8;
    StepsNonzero(ONE, 8 * len2);
    var q := MultModP(xp, crc1);
    r := Xor(q, crc2);
  }

  /** Combining the checksums of two strings gives the checksum of their concatenation. */
  lemma CombineIsConcat(s: seq<bv8>, t: seq<bv8>)
    ensures Combined(Checksum(s), Checksum(t), |t|) == Checksum(s + t)
  {
    if t == [] {
      assert s + t == s;
    } else {
      MulXPow(8 * |t|, Checksum(s));
      ChecksumConcat(s, t);
    }
  }

  // ---- the residue --------------------------------------------------------------------------------

  lemma RegisterAppend(r: bv32, s: seq<bv8>, t: seq<bv8>)
    ensures Register(r, s + t) == Register(Register(r, s), t)
    decreases |s|
  {
    if s == [] {
      assert s + t == t;
    } else {
      assert (s + t)[1..] == s[1..] + t;
      RegisterAppend(ByteStep(r, s[0]), s[1..], t);
    }
  }

  lemma LowByteLeft(x: bv32)
    ensures Xor(x, Widen(LowByte(x))) == HighBytes(x) << 8
  {
    var c, h := Widen(LowByte(x)), HighBytes(x) << 8;
    SplitLowByte(x);
    XorLaws(c, h, 0);
    XorUndone(h, c, 0);
  }

  /** A register r meets the low byte of x: the difference of both is clocked, and the rest of x remains in it. */
  lemma MeetsByte(r: bv32, x: bv32)
    ensures ByteStep(r, LowByte(x)) == Xor(Steps(Xor(r, x), 8), HighBytes(x))
  {
    var d, c := Xor(r, x), Widen(LowByte(x));
    LowByteLeft(x);
    XorLaws(r, x, Xor(x, c));
    XorLaws(x, x, c);
    XorLaws(c, 0, 0);
    assert Xor(r, c) == Xor(d, HighBytes(x) << 8);
    StepsXor(d, HighBytes(x) << 8, 8);
    Steps8(HighBytes(x) << 8);
    HighBytesStep(x);
  }

  lemma NextByte(r: bv32, x: bv32, d: bv32)
    requires Xor(r, x) == d
    ensures Xor(ByteStep(r, LowByte(x)), HighBytes(x)) == Steps(d, 8)
  {
    MeetsByte(r, x);
    XorUndone(Steps(d, 8), HighBytes(x), 0);
  }

  lemma BytesOf(x: bv32)
    ensures WordBytes(x) == [LowByte(x), LowByte(HighBytes(x)), LowByte(HighBytes(HighBytes(x))),
                             LowByte(HighBytes(HighBytes(HighBytes(x))))]
    ensures HighBytes(HighBytes(HighBytes(HighBytes(x)))) == 0
  {
  }

  lemma TwoBytes(r: bv32, x: bv32, d: bv32)
    requires Xor(r, x) == d
    ensures var x1 := HighBytes(x);
            Xor(ByteStep(ByteStep(r, LowByte(x)), LowByte(x1)), HighBytes(x1)) == Steps(d, 16)
  {
    NextByte(r, x, d);
    NextByte(ByteStep(r, LowByte(x)), HighBytes(x), Steps(d, 8));
    StepsAdd(d, 8, 8);
  }

  lemma MeetsBytes(r: bv32, x: bv32, x1: bv32, x2: bv32, x3: bv32, d: bv32)
    requires x1 == HighBytes(x) && x2 == HighBytes(x1) && x3 == HighBytes(x2) && HighBytes(x3) == 0 && Xor(r, x) == d
    ensures Register(r, [LowByte(x), LowByte(x1), LowByte(x2), LowByte(x3)]) == Steps(d, 32)
  {
    var r2 := ByteStep(ByteStep(r, LowByte(x)), LowByte(x1));
    TwoBytes(r, x, d);
    TwoBytes(r2, x2, Steps(d, 16));
    StepsAdd(d, 16, 16);
    XorLaws(ByteStep(ByteStep(r2, LowByte(x2)), LowByte(x3)), 0, 0);
    FourBytes(r, LowByte(x), LowByte(x1), LowByte(x2), LowByte(x3));
  }

  /** Four bytes of x behind a register r clock their difference through 32 steps. */
  lemma MeetsWord(r: bv32, x: bv32)
    ensures Register(r, WordBytes(x)) == Steps(Xor(r, x), 32)
  {
    BytesOf(x);
    var x1, x2, x3 := HighBytes(x), HighBytes(HighBytes(x)), HighBytes(HighBytes(HighBytes(x)));
    MeetsBytes(r, x, x1, x2, x3, Xor(r, x));
  }

  lemma RegisterFirst(r: bv32, b: bv8, t: seq<bv8>)
    ensures Register(r, [b] + t) == Register(ByteStep(r, b), t)
  {
    assert ([b] + t)[1..] == t;
  }

  lemma FourBytes(r: bv32, b0: bv8, b1: bv8, b2: bv8, b3: bv8)
    ensures Register(r, [b0, b1, b2, b3]) == ByteStep(ByteStep(ByteStep(ByteStep(r, b0), b1), b2), b3)
  {
    var r1 := ByteStep(r, b0);
    var r2 := ByteStep(r1, b1);
    var r3 := ByteStep(r2, b2);
    assert [b0, b1, b2, b3] == [b0] + ([b1] + ([b2] + ([b3] + [])));
    RegisterFirst(r, b0, [b1] + ([b2] + ([b3] + [])));
    RegisterFirst(r1, b1, [b2] + ([b3] + []));
    RegisterFirst(r2, b2, [b3] + []);
    RegisterFirst(r3, b3, []);
  }

  lemma OnesThrough32()
    ensures Steps(ONES, 32) == 0xDEBB20E3
  {
    Steps8(ONES);
    assert Steps(ONES, 8) == 0x2DFD1072;
    Steps8(0x2DFD1072);
    StepsAdd(ONES, 8, 8);
    assert Steps(ONES, 16) == 0xBE26ED00;
    Steps8(0xBE26ED00);
    StepsAdd(ONES, 16, 8);
    assert Steps(ONES, 24) == 0x00BE26ED;
    Steps8(0x00BE26ED);
    StepsAdd(ONES, 24, 8);
  }

  /** A string followed by its own checksum, little-endian, has the checksum 0x2144DF1C. */
  lemma Residue(s: seq<bv8>)
    ensures Checksum(s + WordBytes(Checksum(s))) == 0x2144DF1C
  {
    var r := Register(ONES, s);
    RegisterAppend(ONES, s, WordBytes(Checksum(s)));
    MeetsWord(r, Xor(r, ONES));
    XorLaws(r, r, ONES);
    XorLaws(ONES, 0, 0);
    OnesThrough32();
  }
}
