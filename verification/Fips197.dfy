/**
 AES-256 as sections 5.1 and 5.2 of FIPS 197 write it, cell by cell: row and column numbers are taken modulo four.  The
 model of the instructions and of aes256_set_key is compared with it.
 */
module Fips197 {
  import opened Words
  import opened AesField
  import opened AesSbox
  import AesRounds
  import Aes

  type Bytes = seq<bv8>

  // ---- the standard -------------------------------------------------------------------------------

  function Row(c: Col, r: bv2): bv8 {
    if r == 0 then c.b0 else if r == 1 then c.b1 else if r == 2 then c.b2 else c.b3
  }

  function Column(s: Aes.State, c: bv2): Col {
    if c == 0 then s.c0 else if c == 1 then s.c1 else if c == 2 then s.c2 else s.c3
  }

  /** The byte of a state in row r and column c; a block is taken column by column. */
  function At(s: Aes.State, r: bv2, c: bv2): bv8 {
    Row(Column(s, c), r)
  }

  ghost function SBox(b: bv8): bv8 {
    Affine(FieldInverse(b))
  }

  function MixSum(a: bv8, b: bv8, c: bv8, d: bv8): bv8 {
    Xor8(Xor8(Xor8(GfMul(a, 0x02), GfMul(b, 0x03)), c), d)
  }

  function Rot(w: Col): Col {
    Col(w.b1, w.b2, w.b3, w.b0)
  }

  ghost function Sub(w: Col): Col {
    Col(SBox(w.b0), SBox(w.b1), SBox(w.b2), SBox(w.b3))
  }

  function Sum(v: Col, w: Col): Col {
    Col(Xor8(v.b0, w.b0), Xor8(v.b1, w.b1), Xor8(v.b2, w.b2), Xor8(v.b3, w.b3))
  }

  /** x^(j - 1). */
  function Power(j: nat): bv8
    requires j > 0
  {
    if j == 1 then 0x01 else GfMul(Power(j - 1), 0x02)
  }

  /** Word i of the key schedule, section 5.2 with eight key words. */
  ghost function Word(key: Bytes, i: nat): Col
    requires |key| == 32
    decreases i
  {
    if i < 8 then Col(key[4 * i], key[4 * i + 1], key[4 * i + 2], key[4 * i + 3])
    else Sum(Word(key, i - 8), Temp(Word(key, i - 1), i))
  }

  ghost function Temp(w: Col, i: nat): Col
    requires i >= 8
  {
    if i % 8 == 0 then Sum(Sub(Rot(w)), Col(Power(i / 8), 0, 0, 0)) else if i % 8 == 4 then Sub(w) else w
  }

  /** Section 5.1.4: the byte of the key schedule that is added in round n. */
  ghost function KeyAt(key: Bytes, n: nat, r: bv2, c: bv2): bv8
    requires |key| == 32
  {
    Row(Word(key, 4 * n + (c as nat)), r)
  }

  /** The state after round n of the cipher, with MixColumns in all rounds but the initial one. */
  ghost function After(key: Bytes, x: Aes.State, n: nat, r: bv2, c: bv2): bv8
    requires |key| == 32
    decreases n, 1
  {
    if n == 0 then Xor8(At(x, r, c), KeyAt(key, 0, r, c))
    else Xor8(MixSum(Shifted(key, x, n, r, c), Shifted(key, x, n, r + 1, c),
                     Shifted(key, x, n, r + 2, c), Shifted(key, x, n, r + 3, c)), KeyAt(key, n, r, c))
  }

  /** Sections 5.1.1 and 5.1.2 in round n: bytes are substituted, and row r moves r columns to the left. */
  ghost function Shifted(key: Bytes, x: Aes.State, n: nat, r: bv2, c: bv2): bv8
    requires |key| == 32 && n > 0
    decreases n, 0
  {
    SBox(After(key, x, n - 1, r, c + r))
  }

  /** The output of fourteen rounds. */
  ghost function Cipher(key: Bytes, x: Aes.State, r: bv2, c: bv2): bv8
    requires |key| == 32
  {
    Xor8(Shifted(key, x, 14, r, c), KeyAt(key, 14, r, c))
  }

  // ---- the steps on the model's state -------------------------------------------------------------

  /** Section 5.1.2 by index. */
  lemma ShiftRowsAt(s: Aes.State, r: bv2, c: bv2)
    ensures At(Aes.ShiftRows(s), r, c) == At(s, r, c + r)
  {
  }

  lemma MapColAt(f: bv8 -> bv8, c: Col, r: bv2)
    ensures Row(Aes.MapCol(f, c), r) == f(Row(c, r))
  {
  }

  lemma SubBytesAt(f: bv8 -> bv8, s: Aes.State, r: bv2, c: bv2)
    ensures At(Aes.SubBytes(f, s), r, c) == f(At(s, r, c))
  {
    assert Column(Aes.SubBytes(f, s), c) == Aes.MapCol(f, Column(s, c));
    MapColAt(f, Column(s, c), r);
  }

  lemma SubThenShiftAt(s: Aes.State, r: bv2, c: bv2)
    ensures At(Aes.AesCore.sub(s), r, c) == SBox(At(s, r, c + r))
  {
    ShiftRowsAt(Aes.SubBytes(Sbox, s), r, c);
    SubBytesAt(Sbox, s, r, c + r);
    SboxIsAffineOfInverse(At(s, r, c + r));
  }

  lemma RotatedAt(m: (bv8, bv8, bv8, bv8) -> bv8, c: Col, r: bv2)
    ensures Row(Col(m(c.b0, c.b1, c.b2, c.b3), m(c.b1, c.b2, c.b3, c.b0),
                    m(c.b2, c.b3, c.b0, c.b1), m(c.b3, c.b0, c.b1, c.b2)), r) ==
            m(Row(c, r), Row(c, r + 1), Row(c, r + 2), Row(c, r + 3))
  {
  }

  lemma MixByteIs(a: bv8, b: bv8, c: bv8, d: bv8)
    ensures MixByte(a, b, c, d) == MixSum(a, b, c, d)
  {
    Xor8Laws(Xor8(GfMul(a, 0x02), GfMul(b, 0x03)), c, d);
  }

  lemma MixColumnsAt(s: Aes.State, r: bv2, c: bv2)
    ensures At(Aes.AesCore.mix(s), r, c) == MixSum(At(s, r, c), At(s, r + 1, c), At(s, r + 2, c), At(s, r + 3, c))
  {
    assert Column(Aes.AesCore.mix(s), c) == MixColumn(Column(s, c));
    RotatedAt(MixByte, Column(s, c), r);
    MixByteIs(At(s, r, c), At(s, r + 1, c), At(s, r + 2, c), At(s, r + 3, c));
  }

  lemma XorColAt(c: Col, d: Col, r: bv2)
    ensures Row(XorCol(c, d), r) == Xor8(Row(c, r), Row(d, r))
  {
  }

  lemma XorStateAt(s: Aes.State, t: Aes.State, r: bv2, c: bv2)
    ensures At(Aes.AesCore.xor(s, t), r, c) == Xor8(At(s, r, c), At(t, r, c))
  {
    assert Column(Aes.AesCore.xor(s, t), c) == XorCol(Column(s, c), Column(t, c));
    XorColAt(Column(s, c), Column(t, c), r);
  }

  // ---- the key schedule ---------------------------------------------------------------------------

  lemma RawXorBytes(v: bv32, w: bv32)
    ensures Byte0(v ^ w) == Byte0(v) ^ Byte0(w) && Byte1(v ^ w) == Byte1(v) ^ Byte1(w)
    ensures Byte2(v ^ w) == Byte2(v) ^ Byte2(w) && Byte3(v ^ w) == Byte3(v) ^ Byte3(w)
  {
  }

  lemma UnpackXor(v: bv32, w: bv32)
    ensures Aes.UnpackCol(Xor(v, w)) == Sum(Aes.UnpackCol(v), Aes.UnpackCol(w))
  {
    RawXorBytes(v, w);
  }

  lemma UnpackRot(w: bv32)
    ensures Aes.UnpackCol(Aes.RotWord(w)) == Rot(Aes.UnpackCol(w))
  {
  }

  lemma UnpackSub(w: bv32)
    ensures Aes.UnpackCol(Aes.SubWord(w)) == Sub(Aes.UnpackCol(w))
  {
    PackBytes(Sbox(Byte0(w)), Sbox(Byte1(w)), Sbox(Byte2(w)), Sbox(Byte3(w)));
    SboxIsAffineOfInverse(Byte0(w));
    SboxIsAffineOfInverse(Byte1(w));
    SboxIsAffineOfInverse(Byte2(w));
    SboxIsAffineOfInverse(Byte3(w));
  }

  lemma UnpackByte(b: bv8)
    ensures Aes.UnpackCol(b as bv32) == Col(b, 0, 0, 0)
  {
  }

  lemma {:induction false} RconIsPower(j: nat)
    requires j > 0
    ensures Aes.Rcon(j) == Power(j)
  {
    if j > 1 {
      RconIsPower(j - 1);
      GfMul02(Power(j - 1));
    }
  }

  lemma UnpackFeedback(i: nat, t: bv32)
    requires i >= 8
    ensures Aes.UnpackCol(Aes.Feedback(Aes.SubWord, i, t)) == Temp(Aes.UnpackCol(t), i)
  {
    if i % 8 == 0 {
      UnpackXor(Aes.SubWord(Aes.RotWord(t)), Aes.Rcon(i / 8) as bv32);
      UnpackSub(Aes.RotWord(t));
      UnpackRot(t);
      UnpackByte(Aes.Rcon(i / 8));
      RconIsPower(i / 8);
    } else if i % 8 == 4 {
      UnpackSub(t);
    }
  }

  lemma CipherKeyAt(key: Bytes, i: nat)
    requires |key| == 32 && i < 8
    ensures Aes.CipherKey(key)[i] == Load32(key, 4 * i)
  {
    match i {
      case 0 =>
      case 1 =>
      case 2 =>
      case 3 =>
      case 4 =>
      case 5 =>
      case 6 =>
      case _ =>
    }
  }

  lemma {:induction false} KeyWordIs(key: Bytes, i: nat)
    requires |key| == 32
    ensures Aes.UnpackCol(Aes.KeyWord(Aes.SubWord, Aes.CipherKey(key), i)) == Word(key, i)
    decreases i
  {
    if i < 8 {
      CipherKeyAt(key, i);
      PackBytes(key[4 * i], key[4 * i + 1], key[4 * i + 2], key[4 * i + 3]);
    } else {
      KeyWordIs(key, i - 1);
      KeyWordIs(key, i - 8);
      var t := Aes.KeyWord(Aes.SubWord, Aes.CipherKey(key), i - 1);
      UnpackFeedback(i, t);
      UnpackXor(Aes.KeyWord(Aes.SubWord, Aes.CipherKey(key), i - 8), Aes.Feedback(Aes.SubWord, i, t));
    }
  }

  lemma ColumnsAt(u: bv32 -> Col, words: seq<bv32>, g: nat, c: bv2)
    requires |words| == 60 && g < 15
    ensures 4 * g + (c as nat) < 60 && Column(Aes.Columns(u, words, g), c) == u(words[4 * g + (c as nat)])
  {
    SmallIndex(c);
  }

  lemma SmallIndex(c: bv2)
    ensures c as nat == if c == 0 then 0 else if c == 1 then 1 else if c == 2 then 2 else 3
  {
  }

  lemma RoundKeyAt(key: Bytes, g: nat, r: bv2, c: bv2)
    requires |key| == 32 && g < 15
    ensures At(Aes.RoundKeys(Aes.EncWords(key))[g], r, c) == KeyAt(key, g, r, c)
  {
    ColumnsAt(Aes.UnpackCol, Aes.EncWords(key), g, c);
    KeyWordIs(key, 4 * g + (c as nat));
  }

  // ---- the cipher ---------------------------------------------------------------------------------

  lemma AddAt(s: Aes.State, key: Bytes, g: nat, r: bv2, c: bv2)
    requires |key| == 32 && g < 15
    ensures At(Aes.AesCore.xor(s, Aes.RoundKeys(Aes.EncWords(key))[g]), r, c) == Xor8(At(s, r, c), KeyAt(key, g, r, c))
  {
    XorStateAt(s, Aes.RoundKeys(Aes.EncWords(key))[g], r, c);
    RoundKeyAt(key, g, r, c);
  }

  /** The state with the key of round n added. */
  function Masked(key: Bytes, x: Aes.State, n: nat): Aes.State
    requires |key| == 32 && n <= 13
  {
    var k := Aes.RoundKeys(Aes.EncWords(key));
    Aes.AesCore.xor(AesRounds.StateAfter(Aes.AesCore, k, x, n), k[n])
  }

  lemma MaskedNext(key: Bytes, x: Aes.State, n: nat, r: bv2, c: bv2)
    requires |key| == 32 && 0 < n <= 13
    ensures var s := Aes.AesCore.sub(Masked(key, x, n - 1));
            At(Masked(key, x, n), r, c) ==
            Xor8(MixSum(At(s, r, c), At(s, r + 1, c), At(s, r + 2, c), At(s, r + 3, c)), KeyAt(key, n, r, c))
  {
    var s := Aes.AesCore.sub(Masked(key, x, n - 1));
    AddAt(Aes.AesCore.mix(s), key, n, r, c);
    MixColumnsAt(s, r, c);
  }

  lemma {:induction false} RoundsAre(key: Bytes, x: Aes.State, n: nat, r: bv2, c: bv2)
    requires |key| == 32 && n <= 13
    ensures At(Masked(key, x, n), r, c) == After(key, x, n, r, c)
    decreases n, 1
  {
    if n == 0 {
      AddAt(x, key, 0, r, c);
    } else {
      MaskedNext(key, x, n, r, c);
      SubbedAre(key, x, n, r, c);
      SubbedAre(key, x, n, r + 1, c);
      SubbedAre(key, x, n, r + 2, c);
      SubbedAre(key, x, n, r + 3, c);
    }
  }

  lemma SubbedAre(key: Bytes, x: Aes.State, n: nat, r: bv2, c: bv2)
    requires |key| == 32 && 0 < n <= 14
    ensures At(Aes.AesCore.sub(Masked(key, x, n - 1)), r, c) == Shifted(key, x, n, r, c)
    decreases n, 0
  {
    RoundsAre(key, x, n - 1, r, c + r);
    SubThenShiftAt(Masked(key, x, n - 1), r, c);
  }

  /** The fourteen rounds of the instructions under the schedule of aes256_set_key are the cipher of the standard. */
  lemma EncryptIsCipher(key: Bytes, x: Aes.State, r: bv2, c: bv2)
    requires |key| == 32
    ensures At(Aes.Encrypt(key, x), r, c) == Cipher(key, x, r, c)
  {
    AesRounds.EncryptCeIsLoop(Aes.AesCore, Aes.RoundKeys(Aes.EncWords(key)), x);
    AddAt(Aes.AesCore.sub(Masked(key, x, 13)), key, 14, r, c);
    SubbedAre(key, x, 14, r, c);
  }
}
