/**
 AES-256: the state, the transformations of FIPS 197 on it, and the two key schedules of aes256_set_key.

 enc_key is the standard expanded key; dec_key is the schedule of the equivalent inverse cipher.
 */
module Aes {
  import opened Wrappers
  import opened Words
  import opened AesField
  import opened AesRounds

  // ---- the state ----------------------------------------------------------------------------------

  datatype State = State(c0: Col, c1: Col, c2: Col, c3: Col)

  function XorState(s: State, t: State): State {
    State(XorCol(s.c0, t.c0), XorCol(s.c1, t.c1), XorCol(s.c2, t.c2), XorCol(s.c3, t.c3))
  }

  function MapCol(f: bv8 -> bv8, c: Col): Col {
    Col(f(c.b0), f(c.b1), f(c.b2), f(c.b3))
  }

  function SubBytes(f: bv8 -> bv8, s: State): State {
    State(MapCol(f, s.c0), MapCol(f, s.c1), MapCol(f, s.c2), MapCol(f, s.c3))
  }

  /** Row r moves r columns to the left. */
  function ShiftRows(s: State): State {
    State(Col(s.c0.b0, s.c1.b1, s.c2.b2, s.c3.b3), Col(s.c1.b0, s.c2.b1, s.c3.b2, s.c0.b3),
          Col(s.c2.b0, s.c3.b1, s.c0.b2, s.c1.b3), Col(s.c3.b0, s.c0.b1, s.c1.b2, s.c2.b3))
  }

  function InvShiftRows(s: State): State {
    State(Col(s.c0.b0, s.c3.b1, s.c2.b2, s.c1.b3), Col(s.c1.b0, s.c0.b1, s.c3.b2, s.c2.b3),
          Col(s.c2.b0, s.c1.b1, s.c0.b2, s.c3.b3), Col(s.c3.b0, s.c2.b1, s.c1.b2, s.c0.b3))
  }

  function MapColumns(f: Col -> Col, s: State): State {
    State(f(s.c0), f(s.c1), f(s.c2), f(s.c3))
  }

  function Sub(s: State): State {
    ShiftRows(SubBytes(Sbox, s))
  }

  function Unsub(s: State): State {
    InvShiftRows(SubBytes(InvSbox, s))
  }

  function Mix(s: State): State {
    MapColumns(MixColumn, s)
  }

  function Unmix(s: State): State {
    MapColumns(UnmixColumn, s)
  }

  const AesCore: Core<State> := Core(XorState, Sub, Unsub, Mix, Unmix)

  lemma SubInverse(f: bv8 -> bv8, g: bv8 -> bv8, s: State)
    requires forall b :: g(f(b)) == b
    ensures InvShiftRows(SubBytes(g, ShiftRows(SubBytes(f, s)))) == s
  {
  }

  lemma XorColUndone(c: Col, d: Col)
    ensures XorCol(XorCol(c, d), d) == c
  {
    Xor8Laws(c.b0, d.b0, 0);
    Xor8Laws(c.b1, d.b1, 0);
    Xor8Laws(c.b2, d.b2, 0);
    Xor8Laws(c.b3, d.b3, 0);
  }

  lemma XorStateUndone(s: State, t: State)
    ensures XorState(XorState(s, t), t) == s
  {
    XorColUndone(s.c0, t.c0);
    XorColUndone(s.c1, t.c1);
    XorColUndone(s.c2, t.c2);
    XorColUndone(s.c3, t.c3);
  }

  lemma MapColumnsInverse(f: Col -> Col, g: Col -> Col, s: State)
    requires forall c :: g(f(c)) == c
    ensures MapColumns(g, MapColumns(f, s)) == s
  {
  }

  lemma MapColumnsXor(g: Col -> Col, s: State, t: State)
    requires forall c, d :: g(XorCol(c, d)) == XorCol(g(c), g(d))
    ensures MapColumns(g, XorState(s, t)) == XorState(MapColumns(g, s), MapColumns(g, t))
  {
  }

  lemma CoreXor(s: State, t: State)
    ensures AesCore.xor(s, t) == XorState(s, t)
  {
  }

  lemma XorIsLawful(s: State, t: State)
    ensures AesCore.xor(AesCore.xor(s, t), t) == s
  {
    CoreXor(s, t);
    CoreXor(XorState(s, t), t);
    XorStateUndone(s, t);
  }

  lemma SubIsLawful(s: State)
    ensures AesCore.unsub(AesCore.sub(s)) == s
  {
    forall b ensures InvSbox(Sbox(b)) == b {
      InvSboxSbox(b);
    }
    SubInverse(Sbox, InvSbox, s);
  }

  lemma MixIsLawful(s: State)
    ensures AesCore.unmix(AesCore.mix(s)) == s
  {
    forall c ensures UnmixColumn(MixColumn(c)) == c {
      UnmixMixColumn(c);
    }
    MapColumnsInverse(MixColumn, UnmixColumn, s);
  }

  lemma UnmixIsLinear(s: State, t: State)
    ensures AesCore.unmix(AesCore.xor(s, t)) == AesCore.xor(AesCore.unmix(s), AesCore.unmix(t))
  {
    forall c, d ensures UnmixColumn(XorCol(c, d)) == XorCol(UnmixColumn(c), UnmixColumn(d)) {
      UnmixColumnXor(c, d);
    }
    MapColumnsXor(UnmixColumn, s, t);
  }

  lemma AesIsLawful()
    ensures Lawful(AesCore)
  {
    forall a, b {
      XorIsLawful(a, b);
    }
    forall a {
      SubIsLawful(a);
    }
    forall a {
      MixIsLawful(a);
    }
    forall a, b {
      UnmixIsLinear(a, b);
    }
  }

  // ---- the encryption schedule --------------------------------------------------------------------

  function RotWord(w: bv32): bv32 {
    (w >> 8) | (w << 24)
  }

  function SubWord(w: bv32): bv32 {
    Pack(Sbox(Byte0(w)), Sbox(Byte1(w)), Sbox(Byte2(w)), Sbox(Byte3(w)))
  }

  /** The round constant of expansion step n: x^(n-1) in the byte field. */
  function Rcon(n: nat): bv8
    requires n > 0
  {
    if n == 1 then 1 else XTime(Rcon(n - 1))
  }

  /** What the previous word goes through before it is added in at position i; sw is SubWord. */
  function Feedback(sw: bv32 -> bv32, i: nat, t: bv32): bv32
    requires i >= 8
  {
    if i % 8 == 0 then Xor(sw(RotWord(t)), Rcon(i / 8) as bv32)
    else if i % 8 == 4 then sw(t)
    else t
  }

  function CipherKey(key: seq<bv8>): seq<bv32>
    requires |key| == 32
  {
    [Load32(key, 0), Load32(key, 4), Load32(key, 8), Load32(key, 12),
     Load32(key, 16), Load32(key, 20), Load32(key, 24), Load32(key, 28)]
  }

  /** Word i of the key expansion of FIPS 197 section 5.2 for eight key words. */
  function KeyWord(sw: bv32 -> bv32, k: seq<bv32>, i: nat): bv32
    requires |k| == 8
    decreases i, k
  {
    if i < 8 then k[i] else Xor(KeyWord(sw, k, i - 8), Feedback(sw, i, KeyWord(sw, k, i - 1)))
  }

  function EncWords(key: seq<bv8>): seq<bv32>
    requires |key| == 32
  {
    seq(60, (i: nat) => KeyWord(SubWord, CipherKey(key), i))
  }

  method FeedbackStep(sw: bv32 -> bv32, i: nat, t0: bv32, rcon0: bv8) returns (t: bv32, rcon: bv8)
    requires i >= 8 && rcon0 == Rcon((i + 7) / 8)
    ensures t == Feedback(sw, i, t0) && rcon == Rcon((i + 8) / 8)
  {
    t, rcon := t0, rcon0;
    if i % 8 == 0 {
      t := Xor(sw(RotWord(t)), rcon as bv32);
      rcon := XTime(rcon);
    } else if i % 8 == 4 {
      t := sw(t);
    }
  }

  /** The first half of aes256_set_key, over the array enc_key; sw is SubWord. */
  method Expand(sw: bv32 -> bv32, k: seq<bv32>, ek: array<bv32>)
    requires |k| == 8 && ek.Length == 60
    modifies ek
    ensures forall i: nat | i < 60 :: ek[i] == KeyWord(sw, k, i)
  {
    for i := 0 to 8
      invariant forall j: nat | j < i :: ek[j] == KeyWord(sw, k, j)
    {
      ek[i] := k[i];
    }
    ExpandRest(sw, k, ek);
  }

  method ExpandRest(sw: bv32 -> bv32, k: seq<bv32>, ek: array<bv32>)
    requires |k| == 8 && ek.Length == 60
    requires forall i: nat | i < 8 :: ek[i] == KeyWord(sw, k, i)
    modifies ek
    ensures forall i: nat | i < 60 :: ek[i] == KeyWord(sw, k, i)
  {
    var rcon: bv8 := 1;
    for i := 8 to 60
      invariant rcon == Rcon((i + 7) / 8)
      invariant forall j: nat | j < i :: ek[j] == KeyWord(sw, k, j)
    {
      var t;
      t, rcon := FeedbackStep(sw, i, ek[i - 1], rcon);
      ek[i] := Xor(ek[i - 8], t);
    }
  }

  // ---- the decryption schedule --------------------------------------------------------------------

  function UnpackCol(w: bv32): Col {
    Col(Byte0(w), Byte1(w), Byte2(w), Byte3(w))
  }

  function PackCol(c: Col): bv32 {
    Pack(c.b0, c.b1, c.b2, c.b3)
  }

  function UnmixWord(w: bv32): bv32 {
    PackCol(UnmixColumn(UnpackCol(w)))
  }

  /** inv_mix_column: the four output bytes in the order the code forms them. */
  method InvMixColumn(w: bv32) returns (r: bv32)
    ensures r == UnmixWord(w)
  {
    var t0 := UnmixRow(Byte0(w), Byte1(w), Byte2(w), Byte3(w));
    var t1 := UnmixRow(Byte1(w), Byte2(w), Byte3(w), Byte0(w));
    var t2 := UnmixRow(Byte2(w), Byte3(w), Byte0(w), Byte1(w));
    var t3 := UnmixRow(Byte3(w), Byte0(w), Byte1(w), Byte2(w));
    r := Pack(t0, t1, t2, t3);
  }

  method UnmixRow(a: bv8, b: bv8, c: bv8, d: bv8) returns (t: bv8)
    ensures t == UnmixByte(a, b, c, d)
  {
    var p := GMul(a, 0x0E);
    var q := GMul(b, 0x0B);
    var r := GMul(c, 0x0D);
    var s := GMul(d, 0x09);
    t := Xor8(Xor8(p, q), Xor8(r, s));
  }

  /** Word i of the decryption schedule, with the column transformation f on every group but the outer two. */
  function InverseWord(f: bv32 -> bv32, ek: seq<bv32>, i: nat): bv32
    requires |ek| == 60 && i < 60
  {
    var w := ek[4 * (14 - i / 4) + i % 4];
    if 4 <= i < 56 then f(w) else w
  }

  function InverseWords(f: bv32 -> bv32, ek: seq<bv32>): seq<bv32>
    requires |ek| == 60
  {
    seq(60, (i: nat) requires i < 60 => InverseWord(f, ek, i))
  }

  ghost predicate IsUnmix(f: bv32 -> bv32) {
    forall w {:trigger Asked(w)} | Asked(w) :: f(w) == UnmixWord(w)
  }

  method InvMixColumnAs(w: bv32, ghost f: bv32 -> bv32) returns (r: bv32)
    requires IsUnmix(f)
    ensures r == f(w)
  {
    assert Asked(w);
    r := InvMixColumn(w);
  }

  /** The second half of aes256_set_key, over the array dec_key. */
  method Invert(ghost f: bv32 -> bv32, ek: array<bv32>, dk: array<bv32>)
    requires ek.Length == 60 && dk.Length == 60 && ek != dk && IsUnmix(f)
    modifies dk
    ensures dk[..] == InverseWords(f, ek[..])
  {
    for g := 0 to 15
      invariant forall j: nat | j < 4 * g :: dk[j] == ek[4 * (14 - j / 4) + j % 4]
    {
      dk[4 * g] := ek[4 * (14 - g)];
      dk[4 * g + 1] := ek[4 * (14 - g) + 1];
      dk[4 * g + 2] := ek[4 * (14 - g) + 2];
      dk[4 * g + 3] := ek[4 * (14 - g) + 3];
    }
    for i := 4 to 56
      invariant forall j: nat | j < i :: dk[j] == InverseWord(f, ek[..], j)
      invariant forall j: nat | i <= j < 60 :: dk[j] == ek[4 * (14 - j / 4) + j % 4]
    {
      var w := InvMixColumnAs(dk[i], f);
      dk[i] := w;
    }
  }

  /** aes256_key. */
  class ScheduledKey {
    const encKey: array<bv32>
    const decKey: array<bv32>

    ghost predicate Valid() {
      encKey.Length == 60 && decKey.Length == 60 && encKey != decKey
    }

    constructor ()
      ensures Valid() && fresh(encKey) && fresh(decKey)
    {
      encKey := new bv32[60];
      decKey := new bv32[60];
    }

    /** aes256_set_key. */
    method SetKey(key: seq<bv8>)
      requires Valid() && |key| == 32
      modifies encKey, decKey
      ensures encKey[..] == EncWords(key)
      ensures decKey[..] == InverseWords(UnmixWord, EncWords(key))
    {
      Expand(SubWord, CipherKey(key), encKey);
      Invert(UnmixWord, encKey, decKey);
    }
  }

  // ---- the block cipher ---------------------------------------------------------------------------

  /** Round key g: four consecutive words of a schedule, each one column. */
  function RoundKey(words: seq<bv32>, g: nat): State
    requires |words| == 60 && g < 15
  {
    Columns(UnpackCol, words, g)
  }

  function Columns(u: bv32 -> Col, words: seq<bv32>, g: nat): State
    requires |words| == 60 && g < 15
  {
    State(u(words[4 * g]), u(words[4 * g + 1]), u(words[4 * g + 2]), u(words[4 * g + 3]))
  }

  function RoundKeys(words: seq<bv32>): seq<State>
    requires |words| == 60
  {
    seq(15, (g: nat) requires g < 15 => RoundKey(words, g))
  }

  lemma UnpackUnmix(w: bv32)
    ensures UnpackCol(UnmixWord(w)) == UnmixColumn(UnpackCol(w))
  {
    var c := UnmixColumn(UnpackCol(w));
    PackBytes(c.b0, c.b1, c.b2, c.b3);
  }

  lemma InverseGroup(f: bv32 -> bv32, ek: seq<bv32>, g: nat, j: nat)
    requires |ek| == 60 && g < 15 && j < 4
    ensures InverseWords(f, ek)[4 * g + j] == Place(f, g, ek[4 * (14 - g) + j])
  {
    assert (4 * g + j) / 4 == g && (4 * g + j) % 4 == j;
  }

  /** What becomes of a word on its way into group g. */
  function Place(f: bv32 -> bv32, g: nat, w: bv32): bv32 {
    if 1 <= g < 14 then f(w) else w
  }

  lemma PlaceColumn(u: bv32 -> Col, f: bv32 -> bv32, m: Col -> Col, g: nat, w: bv32)
    requires forall v :: u(f(v)) == m(u(v))
    ensures u(Place(f, g, w)) == if 1 <= g < 14 then m(u(w)) else u(w)
  {
  }

  /** Group g of dk holds the words of group 14 - g of ek. */
  ghost predicate GroupPlaced(f: bv32 -> bv32, ek: seq<bv32>, dk: seq<bv32>, g: nat)
    requires |ek| == 60 && |dk| == 60 && g < 15
  {
    && dk[4 * g] == Place(f, g, ek[4 * (14 - g)]) && dk[4 * g + 1] == Place(f, g, ek[4 * (14 - g) + 1])
    && dk[4 * g + 2] == Place(f, g, ek[4 * (14 - g) + 2]) && dk[4 * g + 3] == Place(f, g, ek[4 * (14 - g) + 3])
  }

  lemma InverseGroups(f: bv32 -> bv32, ek: seq<bv32>, g: nat)
    requires |ek| == 60 && g < 15
    ensures GroupPlaced(f, ek, InverseWords(f, ek), g)
  {
    InverseGroup(f, ek, g, 0);
    InverseGroup(f, ek, g, 1);
    InverseGroup(f, ek, g, 2);
    InverseGroup(f, ek, g, 3);
  }

  lemma InverseColumns(u: bv32 -> Col, f: bv32 -> bv32, m: Col -> Col, ek: seq<bv32>, dk: seq<bv32>, g: nat)
    requires |ek| == 60 && |dk| == 60 && g < 15 && forall w :: u(f(w)) == m(u(w))
    requires GroupPlaced(f, ek, dk, g)
    ensures Columns(u, dk, g) == if 1 <= g < 14 then MapColumns(m, Columns(u, ek, 14 - g)) else Columns(u, ek, 14 - g)
  {
    var h := 4 * (14 - g);
    PlaceColumn(u, f, m, g, ek[h]);
    PlaceColumn(u, f, m, g, ek[h + 1]);
    PlaceColumn(u, f, m, g, ek[h + 2]);
    PlaceColumn(u, f, m, g, ek[h + 3]);
  }

  lemma InverseRoundKey(ek: seq<bv32>, dk: seq<bv32>, g: nat)
    requires |ek| == 60 && |dk| == 60 && g < 15 && GroupPlaced(UnmixWord, ek, dk, g)
    ensures RoundKey(dk, g) == if 1 <= g < 14 then Unmix(RoundKey(ek, 14 - g)) else RoundKey(ek, 14 - g)
  {
    forall w ensures UnpackCol(UnmixWord(w)) == UnmixColumn(UnpackCol(w)) {
      UnpackUnmix(w);
    }
    InverseColumns(UnpackCol, UnmixWord, UnmixColumn, ek, dk, g);
  }

  /** The decryption schedule built from any encryption schedule is its equivalent-inverse schedule. */
  lemma InverseSchedule(ek: seq<bv32>)
    requires |ek| == 60
    ensures IsInverseSchedule(AesCore, RoundKeys(ek), RoundKeys(InverseWords(UnmixWord, ek)))
  {
    forall g: nat | g < 15
      ensures RoundKey(InverseWords(UnmixWord, ek), g)
           == if 1 <= g < 14 then AesCore.unmix(RoundKey(ek, 14 - g)) else RoundKey(ek, 14 - g)
    {
      InverseGroups(UnmixWord, ek, g);
      InverseRoundKey(ek, InverseWords(UnmixWord, ek), g);
    }
  }

  function Encrypt(key: seq<bv8>, x: State): State
    requires |key| == 32
  {
    EncryptCe(AesCore, RoundKeys(EncWords(key)), x)
  }

  function Decrypt(key: seq<bv8>, x: State): State
    requires |key| == 32
  {
    DecryptCe(AesCore, RoundKeys(InverseWords(UnmixWord, EncWords(key))), x)
  }

  /** For every 256-bit key, the block transform run with dec_key undoes the one run with enc_key. */
  lemma DecryptInverse(key: seq<bv8>, x: State)
    requires |key| == 32
    ensures Decrypt(key, Encrypt(key, x)) == x
  {
    var ek := EncWords(key);
    AesIsLawful();
    InverseSchedule(ek);
    DecryptCeInverse(AesCore, RoundKeys(ek), RoundKeys(InverseWords(UnmixWord, ek)), x);
  }
}
