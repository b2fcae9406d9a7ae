/**
 What xts_set_key selects, written out: the ciphers of every algorithm with their key bytes, and what each cipher does
 to the bytes of a buffer according to its own specification.
 */
module XtsStandard {
  import opened Words
  import opened Tweaks
  import opened Xts
  import opened XtsCores
  import opened Cascades
  import opened XtsKey
  import Fips197
  import SerpentReference
  import TwofishReference
  import TwofishKeys
  import SerpentKeys
  import Aes
  import Serpent
  import Twofish

  // ---- the cascades -------------------------------------------------------------------------------

  /** One pass with the ciphers under 32 bytes of key for the data and 32 bytes for the tweaks. */
  function Pass(bx: TwofishKeys.Boxes, kind: Kind, key: seq<bv8>, data: nat, tweak: nat): Mode<Block, Tweak>
    requires data + 32 <= |key| && tweak + 32 <= |key|
  {
    Sealing(Layer(CipherOf(bx, kind, key[data..data + 32]), CipherOf(bx, kind, key[tweak..tweak + 32])))
  }

  lemma OnePass<S, T>(ms: seq<Mode<S, T>>, offset: nat, data: seq<S>)
    requires |ms| == 1
    ensures Cascade(ms, offset, data) == Crypt(ms[0], offset / 512 + 1, data)
  {
    assert ms[1..] == [];
  }

  lemma TwoPasses<S, T>(ms: seq<Mode<S, T>>, offset: nat, data: seq<S>)
    requires |ms| == 2
    ensures Cascade(ms, offset, data) == Crypt(ms[1], offset / 512 + 1, Crypt(ms[0], offset / 512 + 1, data))
  {
    OnePass(ms[1..], offset, Crypt(ms[0], SectorOf(offset), data));
  }

  lemma ThreePasses<S, T>(ms: seq<Mode<S, T>>, offset: nat, data: seq<S>)
    requires |ms| == 3
    ensures Cascade(ms, offset, data) ==
            Crypt(ms[2], offset / 512 + 1, Crypt(ms[1], offset / 512 + 1, Crypt(ms[0], offset / 512 + 1, data)))
  {
    TwoPasses(ms[1..], offset, Crypt(ms[0], SectorOf(offset), data));
  }

  lemma PassIs(bx: TwofishKeys.Boxes, alg: int, key: seq<bv8>, i: nat)
    requires i < |Stages(alg)| && 64 * |Stages(alg)| <= |key|
    ensures Forth(bx, alg, key)[i] == Pass(bx, Stages(alg)[i], key, 32 * i, 32 * (|Stages(alg)| + i))
  {
  }

  /** The single ciphers. */
  lemma SingleIs(bx: TwofishKeys.Boxes, key: seq<bv8>, offset: nat, data: seq<Block>)
    requires |key| >= 64
    ensures Cascade(Forth(bx, 0, key), offset, data) == Crypt(Pass(bx, AesKind, key, 0, 32), offset / 512 + 1, data)
    ensures Cascade(Forth(bx, 1, key), offset, data) == Crypt(Pass(bx, TwofishKind, key, 0, 32), offset / 512 + 1, data)
    ensures Cascade(Forth(bx, 2, key), offset, data) == Crypt(Pass(bx, SerpentKind, key, 0, 32), offset / 512 + 1, data)
  {
    OnePass(Forth(bx, 0, key), offset, data);
    PassIs(bx, 0, key, 0);
    OnePass(Forth(bx, 1, key), offset, data);
    PassIs(bx, 1, key, 0);
    OnePass(Forth(bx, 2, key), offset, data);
    PassIs(bx, 2, key, 0);
  }

  /** AES over Twofish: Twofish first. */
  lemma AesTwofishIs(bx: TwofishKeys.Boxes, key: seq<bv8>, offset: nat, data: seq<Block>)
    requires |key| >= 128
    ensures Cascade(Forth(bx, 3, key), offset, data) ==
            Crypt(Pass(bx, AesKind, key, 32, 96), offset / 512 + 1,
                  Crypt(Pass(bx, TwofishKind, key, 0, 64), offset / 512 + 1, data))
  {
    TwoPasses(Forth(bx, 3, key), offset, data);
    PassIs(bx, 3, key, 0);
    PassIs(bx, 3, key, 1);
  }

  /** Twofish over Serpent: Serpent first. */
  lemma TwofishSerpentIs(bx: TwofishKeys.Boxes, key: seq<bv8>, offset: nat, data: seq<Block>)
    requires |key| >= 128
    ensures Cascade(Forth(bx, 4, key), offset, data) ==
            Crypt(Pass(bx, TwofishKind, key, 32, 96), offset / 512 + 1,
                  Crypt(Pass(bx, SerpentKind, key, 0, 64), offset / 512 + 1, data))
  {
    TwoPasses(Forth(bx, 4, key), offset, data);
    PassIs(bx, 4, key, 0);
    PassIs(bx, 4, key, 1);
  }

  /** Serpent over AES: AES first. */
  lemma SerpentAesIs(bx: TwofishKeys.Boxes, key: seq<bv8>, offset: nat, data: seq<Block>)
    requires |key| >= 128
    ensures Cascade(Forth(bx, 5, key), offset, data) ==
            Crypt(Pass(bx, SerpentKind, key, 32, 96), offset / 512 + 1,
                  Crypt(Pass(bx, AesKind, key, 0, 64), offset / 512 + 1, data))
  {
    TwoPasses(Forth(bx, 5, key), offset, data);
    PassIs(bx, 5, key, 0);
    PassIs(bx, 5, key, 1);
  }

  /** AES over Twofish over Serpent: Serpent first. */
  lemma AesTwofishSerpentIs(bx: TwofishKeys.Boxes, key: seq<bv8>, offset: nat, data: seq<Block>)
    requires |key| >= 192
    ensures Cascade(Forth(bx, 6, key), offset, data) ==
            Crypt(Pass(bx, AesKind, key, 64, 160), offset / 512 + 1,
                  Crypt(Pass(bx, TwofishKind, key, 32, 128), offset / 512 + 1,
                        Crypt(Pass(bx, SerpentKind, key, 0, 96), offset / 512 + 1, data)))
  {
    ThreePasses(Forth(bx, 6, key), offset, data);
    PassIs(bx, 6, key, 0);
    PassIs(bx, 6, key, 1);
    PassIs(bx, 6, key, 2);
  }

  // ---- the ciphers on the bytes of a buffer -------------------------------------------------------

  /** Byte 4 c + r of a block is row r, column c of the state of FIPS 197. */
  lemma StateIsBytes(b: Block, r: bv2, c: bv2)
    ensures BlockBytes(b)[4 * (c as nat) + (r as nat)] == Fips197.At(ToState(b), r, c)
  {
    Fips197.SmallIndex(r);
    Fips197.SmallIndex(c);
  }

  /** AES on a block of a buffer is the cipher of FIPS 197, for every key. */
  lemma AesIsFips(bx: TwofishKeys.Boxes, key: seq<bv8>, b: Block, r: bv2, c: bv2)
    requires |key| == 32
    ensures Fips197.At(ToState(CipherOf(bx, AesKind, key).enc(b)), r, c) == Fips197.Cipher(key, ToState(b), r, c)
  {
    Fips197.EncryptIsCipher(key, ToState(b), r, c);
    AesOnStates(bx, key, b);
  }

  lemma AesOnStates(bx: TwofishKeys.Boxes, key: seq<bv8>, b: Block)
    requires |key| == 32
    ensures ToState(CipherOf(bx, AesKind, key).enc(b)) == Aes.Encrypt(key, ToState(b))
  {
    ToFromState(Aes.Encrypt(key, ToState(b)));
  }

  /** The ciphers that the algorithms are made of, each under its own key schedule. */
  lemma KindsAre(bx: TwofishKeys.Boxes, key: seq<bv8>)
    requires |key| == 32
    ensures CipherOf(bx, SerpentKind, key) == SerpentOf(SerpentKeys.ExpandKey(key))
    ensures CipherOf(bx, TwofishKind, key) == TwofishOf(TwofishKeys.ExpandKey(bx, key))
    ensures CipherOf(bx, AesKind, key) == AesOf(ExpandAes(key))
  {
  }

  /** Serpent on a block is the cipher of its specification, bit by bit, under every schedule of 132 words. */
  lemma SerpentIsSpecified(k: seq<bv32>, b: Block)
    requires |k| == 132
    ensures var e := SerpentOf(k).enc(b);
            SerpentReference.NibblesOf(SerpentReference.Bit, Serpent.Quad(e.w0, e.w1, e.w2, e.w3)) ==
            SerpentReference.CipherNibbles(SerpentReference.Bit, SerpentReference.TableBox, k,
                                           Serpent.Quad(b.w0, b.w1, b.w2, b.w3))
  {
    SerpentOnWords(k, b);
    SerpentReference.WordEncryptIsCipher(k, ToQuad(b));
  }

  lemma SerpentOnWords(k: seq<bv32>, b: Block)
    requires |k| == 132
    ensures ToQuad(SerpentOf(k).enc(b)) == Serpent.Encrypt(Serpent.WordOps, k, ToQuad(b))
  {
    assert SerpentOf(k).enc(b) == FromQuad(SerpentEnc(k)(ToQuad(b)));
  }

  /** Twofish on a block is the cipher of its specification, for every key. */
  lemma TwofishIsSpecified(bx: TwofishKeys.Boxes, key: seq<bv8>, b: Block)
    requires |key| == 32
    ensures var e := TwofishOf(TwofishKeys.ExpandKey(bx, key)).enc(b);
            Twofish.State(e.w0, e.w1, e.w2, e.w3) ==
            TwofishReference.Cipher(bx, key, Twofish.State(b.w0, b.w1, b.w2, b.w3))
  {
    TwofishReference.EncryptIsCipher(bx, key, ToWords(b));
    TwofishOnWords(TwofishKeys.ExpandKey(bx, key), b);
  }

  lemma TwofishOnWords(k: Twofish.Key, b: Block)
    requires Twofish.IsKey(k)
    ensures ToWords(TwofishOf(k).enc(b)) == Twofish.Encrypt(k, ToWords(b))
  {
    assert TwofishOf(k).enc(b) == FromWords(TwofishEnc(k)(ToWords(b)));
  }
}
