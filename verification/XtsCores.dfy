/** XTS over the three ciphers: every core of the library, each against the one specification. */
module XtsCores {
  import opened Words
  import opened Tweaks
  import opened Xts
  import Aes
  import AesRounds
  import AesLanes
  import Twofish
  import Serpent

  /** A block cipher under a fixed key, on the blocks of a buffer. */
  datatype Cipher = Cipher(enc: Block -> Block, dec: Block -> Block)

  ghost predicate Inverse(c: Cipher) {
    forall x :: c.dec(c.enc(x)) == x
  }

  // ---- the mode over a pair of keys ---------------------------------------------------------------

  function AddTweak(x: Block, t: Tweak): Block {
    XorBlock(x, Mask(t))
  }

  function Join(lo: bv32, hi: bv32): bv64 {
    (lo as bv64) | ((hi as bv64) << 32)
  }

  function AsTweak(b: Block): Tweak {
    Tweak(Join(b.w0, b.w1), Join(b.w2, b.w3))
  }

  /** A sector number in 64 bits, idx[0], and idx[1] = 0. */
  function IndexBlock(n: nat): Block {
    Block(Word32(n), Word32(n / 0x1_0000_0000), 0, 0)
  }

  function SectorTweak(enc: Block -> Block): nat -> Tweak {
    (n: nat) => AsTweak(enc(IndexBlock(n)))
  }

  /** The tweak is the number of the encrypted block. */
  lemma TweakIsNumber(b: Block)
    ensures AsTweak(b) == Split(Number(b)) && Mask(AsTweak(b)) == b
  {
    MaskOfNumber(b);
  }

  /** Clause 5.1 of IEEE Std 1619-2007: the sector number is encrypted as a little-endian byte array. */
  lemma IndexBytes(n: nat)
    ensures BlockBytes(IndexBlock(n)) == LittleEndian(n, 8) + [0, 0, 0, 0, 0, 0, 0, 0]
  {
    Word32Bytes(n);
    Word32Bytes(n / 0x1_0000_0000);
    LittleEndian8(n);
    assert WordBytes(0) == [0, 0, 0, 0];
  }

  lemma IndexInjective(m: nat, n: nat)
    requires m < 0x1_0000_0000_0000_0000 && n < 0x1_0000_0000_0000_0000 && IndexBlock(m) == IndexBlock(n)
    ensures m == n
  {
    IndexBytes(m);
    IndexBytes(n);
    assert LittleEndian(m, 8) == BlockBytes(IndexBlock(m))[..8] && LittleEndian(n, 8) == BlockBytes(IndexBlock(n))[..8];
    assert Pow256(8) == 0x1_0000_0000_0000_0000 by {
      assert Pow256(4) == 0x1_0000_0000;
      assert Pow256(6) == 0x1_0000 * Pow256(4);
    }
    ValueOfLittleEndian(m, 8);
    ValueOfLittleEndian(n, 8);
  }

  /** Different sectors of a pass never start with the same tweak. */
  lemma SectorTweaksDiffer(c: Cipher, m: nat, n: nat)
    requires Inverse(c) && m < 0x1_0000_0000_0000_0000 && n < 0x1_0000_0000_0000_0000 && m != n
    ensures SectorTweak(c.enc)(m) != SectorTweak(c.enc)(n)
  {
    var x, y := IndexBlock(m), IndexBlock(n);
    TweakIsNumber(c.enc(x));
    TweakIsNumber(c.enc(y));
    if c.enc(x) == c.enc(y) {
      assert c.dec(c.enc(x)) == x && c.dec(c.enc(y)) == y;
      IndexInjective(m, n);
    }
  }

  /** The data cipher and the tweak cipher of one XTS pass.  Tweaks are always encrypted. */
  datatype Layer = Layer(data: Cipher, tweak: Cipher)

  function Sealing(l: Layer): Mode<Block, Tweak> {
    Mode(AddTweak, MulAlpha, l.data.enc, SectorTweak(l.tweak.enc))
  }

  function Opening(l: Layer): Mode<Block, Tweak> {
    Mode(AddTweak, MulAlpha, l.data.dec, SectorTweak(l.tweak.enc))
  }

  lemma OpeningUndoes(l: Layer)
    requires Inverse(l.data)
    ensures Undoes(Sealing(l), l.data.dec) && Opening(l) == Sealing(l).(crypt := l.data.dec)
  {
    forall x, t ensures AddTweak(AddTweak(x, t), t) == x {
      XorBlockUndone(x, Mask(t));
    }
  }

  // ---- AES ----------------------------------------------------------------------------------------

  function ToState(b: Block): Aes.State {
    Aes.State(Aes.UnpackCol(b.w0), Aes.UnpackCol(b.w1), Aes.UnpackCol(b.w2), Aes.UnpackCol(b.w3))
  }

  function FromState(s: Aes.State): Block {
    Block(Aes.PackCol(s.c0), Aes.PackCol(s.c1), Aes.PackCol(s.c2), Aes.PackCol(s.c3))
  }

  lemma ToFromState(s: Aes.State)
    ensures ToState(FromState(s)) == s
  {
    PackBytes(s.c0.b0, s.c0.b1, s.c0.b2, s.c0.b3);
    PackBytes(s.c1.b0, s.c1.b1, s.c1.b2, s.c1.b3);
    PackBytes(s.c2.b0, s.c2.b1, s.c2.b2, s.c2.b3);
    PackBytes(s.c3.b0, s.c3.b1, s.c3.b2, s.c3.b3);
  }

  lemma FromToState(b: Block)
    ensures FromState(ToState(b)) == b
  {
    BytesPack(b.w0);
    BytesPack(b.w1);
    BytesPack(b.w2);
    BytesPack(b.w3);
  }

  /** aes256_key as a value. */
  datatype AesKey = AesKey(enc: seq<bv32>, dec: seq<bv32>)

  predicate IsAesKey(k: AesKey) {
    |k.enc| == 60 && |k.dec| == 60
  }

  function AesOf(k: AesKey): Cipher
    requires IsAesKey(k)
  {
    Cipher(Through(ToState, FromState, Rounds(k.enc)), Through(ToState, FromState, InverseRounds(k.dec)))
  }

  function Rounds(words: seq<bv32>): Aes.State -> Aes.State
    requires |words| == 60
  {
    AesLanes.Enc(Aes.AesCore, Aes.RoundKeys(words))
  }

  function InverseRounds(words: seq<bv32>): Aes.State -> Aes.State
    requires |words| == 60
  {
    AesLanes.Dec(Aes.AesCore, Aes.RoundKeys(words))
  }

  /** A transform of states as a transform of blocks. */
  function Through<B, S>(to: B -> S, from: S -> B, f: S -> S): B -> B {
    b => from(f(to(b)))
  }

  function Through4<B, S>(to: B -> S, from: S -> B, f: Four<S> -> Four<S>): Four<B> -> Four<B> {
    e => Map4(from, f(Map4(to, e)))
  }

  function Through8<B, S>(to: B -> S, from: S -> B, f: Eight<S> -> Eight<S>): Eight<B> -> Eight<B> {
    e => Map8(from, f(Map8(to, e)))
  }

  lemma ThroughFour<B, S(!new)>(to: B -> S, from: S -> B, f: S -> S, f4: Four<S> -> Four<S>, e: Four<B>)
    requires forall s :: f4(s) == Map4(f, s)
    ensures Through4(to, from, f4)(e) == Map4(Through(to, from, f), e)
  {
    assert Through4(to, from, f4)(e) == Map4(from, Map4(f, Map4(to, e)));
  }

  lemma ThroughEight<B, S(!new)>(to: B -> S, from: S -> B, f: S -> S, f8: Eight<S> -> Eight<S>, e: Eight<B>)
    requires forall s :: f8(s) == Map8(f, s)
    ensures Through8(to, from, f8)(e) == Map8(Through(to, from, f), e)
  {
    assert Through8(to, from, f8)(e) == Map8(from, Map8(f, Map8(to, e)));
  }

  ghost predicate UndoneAt<S>(f: S -> S, g: S -> S, s: S) {
    g(f(s)) == s
  }

  ghost predicate Undone<S(!new)>(f: S -> S, g: S -> S) {
    forall s :: UndoneAt(f, g, s)
  }

  lemma ThroughInverse<S(!new)>(to: Block -> S, from: S -> Block, f: S -> S, g: S -> S)
    requires forall s :: to(from(s)) == s
    requires Undone(f, g)
    requires forall b :: from(to(b)) == b
    ensures Inverse(Cipher(Through(to, from, f), Through(to, from, g)))
  {
    forall b ensures Through(to, from, g)(Through(to, from, f)(b)) == b {
      assert UndoneAt(f, g, to(b));
    }
  }

  /** The schedule aes256_set_key makes gives a cipher and its inverse. */
  lemma AesInverse(k: AesKey)
    requires |k.enc| == 60 && k.dec == Aes.InverseWords(Aes.UnmixWord, k.enc)
    ensures Inverse(AesOf(k))
  {
    forall x ensures InverseRounds(k.dec)(Rounds(k.enc)(x)) == x {
      Aes.AesIsLawful();
      Aes.InverseSchedule(k.enc);
      AesLanes.EncDec(Aes.AesCore, Aes.RoundKeys(k.enc), Aes.RoundKeys(k.dec), x);
    }
    forall s ensures ToState(FromState(s)) == s {
      ToFromState(s);
    }
    forall b ensures FromState(ToState(b)) == b {
      FromToState(b);
    }
    ThroughInverse(ToState, FromState, Rounds(k.enc), InverseRounds(k.dec));
  }

  lemma AesNiIsGroup(m: Mode<Block, Tweak>, f: Aes.State -> Aes.State, f8: Eight<Aes.State> -> Eight<Aes.State>)
    requires m.add == AddTweak && m.mul == MulAlpha && m.crypt == Through(ToState, FromState, f)
    requires forall e :: f8(e) == Map8(f, e)
    ensures IsGroup(m, 8, GroupNi(AddTweak, MulAlphaNi, Through8(ToState, FromState, f8)))
  {
    forall t ensures MulAlphaNi(t) == m.mul(t) {
      MulAlphaNiForm(t);
    }
    forall e ensures Through8(ToState, FromState, f8)(e) == Map8(m.crypt, e) {
      ThroughEight(ToState, FromState, f, f8, e);
    }
    NiIsGroup(m, MulAlphaNi, Through8(ToState, FromState, f8));
  }

  lemma AesCeIsGroup(m: Mode<Block, Tweak>, f: Aes.State -> Aes.State, f4: Four<Aes.State> -> Four<Aes.State>)
    requires m.add == AddTweak && m.mul == MulAlpha && m.crypt == Through(ToState, FromState, f)
    requires forall e :: f4(e) == Map4(f, e)
    ensures IsGroup(m, 4, GroupCe(AddTweak, MulAlphaCe, Through4(ToState, FromState, f4)))
  {
    forall t ensures MulAlphaCe(t) == m.mul(t) {
      MulAlphaCeForm(t);
    }
    forall e ensures Through4(ToState, FromState, f4)(e) == Map4(m.crypt, e) {
      ThroughFour(ToState, FromState, f, f4, e);
    }
    CeIsGroup(m, MulAlphaCe, Through4(ToState, FromState, f4));
  }

  function AesLayer(data: AesKey, tweak: AesKey): Layer
    requires IsAesKey(data) && IsAesKey(tweak)
  {
    Layer(AesOf(data), AesOf(tweak))
  }

  /** The sector tweaks as the AES-NI core derives them, with aes256_ni_encrypt_block. */
  function NiSectorTweak(tweak: AesKey): nat -> Tweak
    requires IsAesKey(tweak)
  {
    SectorTweak(Through(ToState, FromState, AesLanes.EncNi(Aes.AesCore, Aes.RoundKeys(tweak.enc))))
  }

  lemma SectorTweakAs<S(!new)>(to: Block -> S, from: S -> Block, f: S -> S, g: S -> S, n: nat)
    requires forall s :: f(s) == g(s)
    ensures SectorTweak(Through(to, from, f))(n) == SectorTweak(Through(to, from, g))(n)
  {
    var b := IndexBlock(n);
    assert Through(to, from, f)(b) == from(g(to(b))) == Through(to, from, g)(b);
  }

  lemma NiSectorTweaks(tweak: AesKey, n: nat)
    requires IsAesKey(tweak)
    ensures NiSectorTweak(tweak)(n) == SectorTweak(AesOf(tweak).enc)(n)
  {
    var f, g := AesLanes.EncNi(Aes.AesCore, Aes.RoundKeys(tweak.enc)), Rounds(tweak.enc);
    forall s ensures f(s) == g(s) {
      AesLanes.EncNiIsEnc(Aes.AesCore, Aes.RoundKeys(tweak.enc), s);
    }
    SectorTweakAs(ToState, FromState, f, g, n);
  }

  /** XTS_AES_NI_BODY: tweaks from the single-block routine, data through the eight-block rounds f8. */
  method AesNiBody(m: Mode<Block, Tweak>, tweak: AesKey, ghost f: Aes.State -> Aes.State,
                   f8: Eight<Aes.State> -> Eight<Aes.State>, offset: nat, input: array<Block>, output: array<Block>)
    requires IsAesKey(tweak) && m.add == AddTweak && m.mul == MulAlpha && m.crypt == Through(ToState, FromState, f)
    requires m.index == SectorTweak(AesOf(tweak).enc) && forall e :: f8(e) == Map8(f, e)
    requires WholeSectors(input.Length) && output.Length == input.Length
    modifies output
    ensures output[..] == Crypt(m, SectorOf(offset), old(input[..]))
  {
    var ni := m.(index := NiSectorTweak(tweak));
    AesNiIsGroup(ni, f, f8);
    CryptPipelined(ni, GroupNi(AddTweak, MulAlphaNi, Through8(ToState, FromState, f8)), 8, offset, input, output);
    forall n ensures NiSectorTweak(tweak)(n) == m.index(n) {
      NiSectorTweaks(tweak, n);
    }
    SameSectorTweaks(m, NiSectorTweak(tweak), SectorOf(offset), old(input[..]));
  }

  /** xts_aes_ni_encrypt. */
  method AesNiEncrypt(data: AesKey, tweak: AesKey, offset: nat, input: array<Block>, output: array<Block>)
    requires IsAesKey(data) && IsAesKey(tweak)
    requires WholeSectors(input.Length) && output.Length == input.Length
    modifies output
    ensures output[..] == Crypt(Sealing(AesLayer(data, tweak)), SectorOf(offset), old(input[..]))
  {
    var m, f8 := Sealing(AesLayer(data, tweak)), AesLanes.Enc8(Aes.AesCore, Aes.RoundKeys(data.enc));
    forall e ensures f8(e) == Map8(Rounds(data.enc), e) {
      AesLanes.LanesEnc8(Aes.AesCore, Aes.RoundKeys(data.enc), e);
    }
    AesNiBody(m, tweak, Rounds(data.enc), f8, offset, input, output);
  }

  /** xts_aes_ni_decrypt. */
  method AesNiDecrypt(data: AesKey, tweak: AesKey, offset: nat, input: array<Block>, output: array<Block>)
    requires IsAesKey(data) && IsAesKey(tweak)
    requires WholeSectors(input.Length) && output.Length == input.Length
    modifies output
    ensures output[..] == Crypt(Opening(AesLayer(data, tweak)), SectorOf(offset), old(input[..]))
  {
    var m, f8 := Opening(AesLayer(data, tweak)), AesLanes.Dec8(Aes.AesCore, Aes.RoundKeys(data.dec));
    forall e ensures f8(e) == Map8(InverseRounds(data.dec), e) {
      AesLanes.LanesDec8(Aes.AesCore, Aes.RoundKeys(data.dec), e);
    }
    AesNiBody(m, tweak, InverseRounds(data.dec), f8, offset, input, output);
  }

  /** xts_aes_ce_encrypt. */
  method AesCeEncrypt(data: AesKey, tweak: AesKey, offset: nat, input: array<Block>, output: array<Block>)
    requires IsAesKey(data) && IsAesKey(tweak)
    requires WholeSectors(input.Length) && output.Length == input.Length
    modifies output
    ensures output[..] == Crypt(Sealing(AesLayer(data, tweak)), SectorOf(offset), old(input[..]))
  {
    var m, f4 := Sealing(AesLayer(data, tweak)), AesLanes.Enc4(Aes.AesCore, Aes.RoundKeys(data.enc));
    forall e ensures f4(e) == Map4(Rounds(data.enc), e) {
      AesLanes.LanesEnc4(Aes.AesCore, Aes.RoundKeys(data.enc), e);
    }
    AesCeIsGroup(m, Rounds(data.enc), f4);
    CryptPipelined(m, GroupCe(AddTweak, MulAlphaCe, Through4(ToState, FromState, f4)), 4, offset, input, output);
  }

  /** xts_aes_ce_decrypt. */
  method AesCeDecrypt(data: AesKey, tweak: AesKey, offset: nat, input: array<Block>, output: array<Block>)
    requires IsAesKey(data) && IsAesKey(tweak)
    requires WholeSectors(input.Length) && output.Length == input.Length
    modifies output
    ensures output[..] == Crypt(Opening(AesLayer(data, tweak)), SectorOf(offset), old(input[..]))
  {
    var m, f4 := Opening(AesLayer(data, tweak)), AesLanes.Dec4(Aes.AesCore, Aes.RoundKeys(data.dec));
    forall e ensures f4(e) == Map4(InverseRounds(data.dec), e) {
      AesLanes.LanesDec4(Aes.AesCore, Aes.RoundKeys(data.dec), e);
    }
    AesCeIsGroup(m, InverseRounds(data.dec), f4);
    CryptPipelined(m, GroupCe(AddTweak, MulAlphaCe, Through4(ToState, FromState, f4)), 4, offset, input, output);
  }

  // ---- Serpent ------------------------------------------------------------------------------------

  function ToQuad(b: Block): Serpent.Quad<bv32> {
    Serpent.Quad(b.w0, b.w1, b.w2, b.w3)
  }

  function FromQuad(q: Serpent.Quad<bv32>): Block {
    Block(q.x0, q.x1, q.x2, q.x3)
  }

  /** The two directions of Serpent over any words. */
  function EncOf<W>(o: Serpent.Ops<W>, k: seq<W>): Serpent.Quad<W> -> Serpent.Quad<W>
    requires |k| == 132
  {
    x => Serpent.Encrypt(o, k, x)
  }

  function DecOf<W>(o: Serpent.Ops<W>, k: seq<W>): Serpent.Quad<W> -> Serpent.Quad<W>
    requires |k| == 132
  {
    x => Serpent.Decrypt(o, k, x)
  }

  lemma UndoneAtOver<W(!new)>(o: Serpent.Ops<W>, lane: (nat, W) -> bool, lanes: nat, k: seq<W>, x: Serpent.Quad<W>)
    requires Serpent.Bitwise(o, lane, lanes) && Serpent.Linear(o) && |k| == 132
    ensures UndoneAt(EncOf(o, k), DecOf(o, k), x)
  {
    Serpent.DecryptInverse(o, lane, lanes, k, x);
  }

  lemma UndoneOver<W(!new)>(o: Serpent.Ops<W>, lane: (nat, W) -> bool, lanes: nat, k: seq<W>)
    requires Serpent.Bitwise(o, lane, lanes) && Serpent.Linear(o) && |k| == 132
    ensures Undone(EncOf(o, k), DecOf(o, k))
  {
    var f, g := EncOf(o, k), DecOf(o, k);
    forall x ensures UndoneAt(f, g, x) {
      UndoneAtOver(o, lane, lanes, k, x);
    }
  }

  function SerpentEnc(k: seq<bv32>): Serpent.Quad<bv32> -> Serpent.Quad<bv32>
    requires |k| == 132
  {
    EncOf(Serpent.WordOps, k)
  }

  function SerpentDec(k: seq<bv32>): Serpent.Quad<bv32> -> Serpent.Quad<bv32>
    requires |k| == 132
  {
    DecOf(Serpent.WordOps, k)
  }

  lemma SerpentAllUndone(k: seq<bv32>)
    requires |k| == 132
    ensures Undone(SerpentEnc(k), SerpentDec(k))
  {
    Serpent.WordsAreBitwise();
    Serpent.WordsAreLinear();
    UndoneOver(Serpent.WordOps, Serpent.BitLane, 32, k);
  }

  function SerpentOf(k: seq<bv32>): Cipher
    requires |k| == 132
  {
    Cipher(Through(ToQuad, FromQuad, SerpentEnc(k)), Through(ToQuad, FromQuad, SerpentDec(k)))
  }

  lemma SerpentInverse(k: seq<bv32>)
    requires |k| == 132
    ensures Inverse(SerpentOf(k))
  {
    SerpentAllUndone(k);
    ThroughInverse(ToQuad, FromQuad, SerpentEnc(k), SerpentDec(k));
  }

  // ---- Twofish ------------------------------------------------------------------------------------

  function ToWords(b: Block): Twofish.State {
    Twofish.State(b.w0, b.w1, b.w2, b.w3)
  }

  function FromWords(q: Twofish.State): Block {
    Block(q.a, q.b, q.c, q.d)
  }

  function TwofishEnc(k: Twofish.Key): Twofish.State -> Twofish.State
    requires Twofish.IsKey(k)
  {
    x => Twofish.Encrypt(k, x)
  }

  function TwofishDec(k: Twofish.Key): Twofish.State -> Twofish.State
    requires Twofish.IsKey(k)
  {
    x => Twofish.Decrypt(k, x)
  }

  lemma TwofishUndone(k: Twofish.Key, x: Twofish.State)
    requires Twofish.IsKey(k)
    ensures UndoneAt(TwofishEnc(k), TwofishDec(k), x)
  {
    Twofish.DecryptInverse(k, x);
  }

  lemma TwofishAllUndone(k: Twofish.Key)
    requires Twofish.IsKey(k)
    ensures Undone(TwofishEnc(k), TwofishDec(k))
  {
    var f, g := TwofishEnc(k), TwofishDec(k);
    forall x ensures UndoneAt(f, g, x) {
      TwofishUndone(k, x);
    }
  }

  function TwofishOf(k: Twofish.Key): Cipher
    requires Twofish.IsKey(k)
  {
    Cipher(Through(ToWords, FromWords, TwofishEnc(k)), Through(ToWords, FromWords, TwofishDec(k)))
  }

  lemma TwofishInverse(k: Twofish.Key)
    requires Twofish.IsKey(k)
    ensures Inverse(TwofishOf(k))
  {
    TwofishAllUndone(k);
    ThroughInverse(ToWords, FromWords, TwofishEnc(k), TwofishDec(k));
  }

  /** Loading a plaintext block: the tweak and the input whitening are added together. */
  function LoadPlain(k: Twofish.Key): (Block, Block) -> Twofish.State
    requires Twofish.IsKey(k)
  {
    (m: Block, x: Block) => Twofish.State(Xor(Xor(x.w0, m.w0), k.w[0]), Xor(Xor(x.w1, m.w1), k.w[1]),
                                          Xor(Xor(x.w2, m.w2), k.w[2]), Xor(Xor(x.w3, m.w3), k.w[3]))
  }

  function StoreSealed(k: Twofish.Key): (Block, Twofish.State) -> Block
    requires Twofish.IsKey(k)
  {
    (m: Block, q: Twofish.State) => Block(Xor(Xor(q.c, k.w[4]), m.w0), Xor(Xor(q.d, k.w[5]), m.w1),
                                          Xor(Xor(q.a, k.w[6]), m.w2), Xor(Xor(q.b, k.w[7]), m.w3))
  }

  /** Loading a ciphertext block: the output whitening is undone and the halves arrive exchanged. */
  function LoadSealed(k: Twofish.Key): (Block, Block) -> Twofish.State
    requires Twofish.IsKey(k)
  {
    (m: Block, x: Block) => Twofish.State(Xor(Xor(x.w2, m.w2), k.w[6]), Xor(Xor(x.w3, m.w3), k.w[7]),
                                          Xor(Xor(x.w0, m.w0), k.w[4]), Xor(Xor(x.w1, m.w1), k.w[5]))
  }

  function StorePlain(k: Twofish.Key): (Block, Twofish.State) -> Block
    requires Twofish.IsKey(k)
  {
    (m: Block, q: Twofish.State) => Block(Xor(Xor(q.a, k.w[0]), m.w0), Xor(Xor(q.b, k.w[1]), m.w1),
                                          Xor(Xor(q.c, k.w[2]), m.w2), Xor(Xor(q.d, k.w[3]), m.w3))
  }

  function Sixteen(k: Twofish.Key): Twofish.State -> Twofish.State
    requires Twofish.IsKey(k)
  {
    q => Twofish.EncRounds(k, q)
  }

  function SixteenBack(k: Twofish.Key): Twofish.State -> Twofish.State
    requires Twofish.IsKey(k)
  {
    q => Twofish.DecRounds(k, q)
  }

  function Sixteen4(k: Twofish.Key): Twofish.Four -> Twofish.Four
    requires Twofish.IsKey(k)
  {
    f => Twofish.EncRounds4(k, f)
  }

  function SixteenBack4(k: Twofish.Key): Twofish.Four -> Twofish.Four
    requires Twofish.IsKey(k)
  {
    f => Twofish.DecRounds4(k, f)
  }

  /** The body of the block loop of xts_twofish.c; mask gives the words a tweak is added with. */
  function PassTwofish<T>(mask: T -> Block, mul: T -> T, load: (Block, Block) -> Twofish.State,
                          rounds: Twofish.Four -> Twofish.Four, store: (Block, Twofish.State) -> Block,
                          t: T, xs: seq<Block>): (T, seq<Block>)
    requires |xs| == 4
  {
    var kt0 := t;
    var kt1 := mul(kt0); var kt2 := mul(kt1); var kt3 := mul(kt2); var t := mul(kt3);
    var f := rounds(Twofish.Four(load(mask(kt0), xs[0]), load(mask(kt1), xs[1]),
                                 load(mask(kt2), xs[2]), load(mask(kt3), xs[3])));
    (t, [store(mask(kt0), f.q0), store(mask(kt1), f.q1), store(mask(kt2), f.q2), store(mask(kt3), f.q3)])
  }

  function GroupTwofish<T>(mask: T -> Block, mul: T -> T, load: (Block, Block) -> Twofish.State,
                           rounds: Twofish.Four -> Twofish.Four, store: (Block, Twofish.State) -> Block)
    : (T, seq<Block>) --> (T, seq<Block>)
  {
    (t: T, xs: seq<Block>) requires |xs| == 4 => PassTwofish(mask, mul, load, rounds, store, t, xs)
  }

  /** rounds runs r on each of its four blocks. */
  ghost predicate Interleaves(rounds: Twofish.Four -> Twofish.Four, r: Twofish.State -> Twofish.State) {
    forall f :: rounds(f) == Twofish.Four(r(f.q0), r(f.q1), r(f.q2), r(f.q3))
  }

  /** Loading, r and storing add up to the cipher between two additions of the tweak. */
  ghost predicate Merges<T(!new)>(m: Mode<Block, T>, mask: T -> Block, load: (Block, Block) -> Twofish.State,
                                  r: Twofish.State -> Twofish.State, store: (Block, Twofish.State) -> Block) {
    forall t, x :: store(mask(t), r(load(mask(t), x))) == CryptBlock(m, t, x)
  }

  lemma TwofishIsGroup<T(!new)>(m: Mode<Block, T>, mask: T -> Block, load: (Block, Block) -> Twofish.State,
                                rounds: Twofish.Four -> Twofish.Four, r: Twofish.State -> Twofish.State,
                                store: (Block, Twofish.State) -> Block)
    requires Interleaves(rounds, r) && Merges(m, mask, load, r, store)
    ensures IsGroup(m, 4, GroupTwofish(mask, m.mul, load, rounds, store))
  {
    forall t: T, xs: seq<Block> | |xs| == 4
      ensures IsPass(m, t, xs, GroupTwofish(mask, m.mul, load, rounds, store)(t, xs))
    {
      FourTweaks(m, m.mul, t);
    }
  }

  lemma PlainMergesAny(k: Twofish.Key, r: Twofish.State -> Twofish.State, m: Block, x: Block)
    requires Twofish.IsKey(k)
    ensures StoreSealed(k)(m, r(LoadPlain(k)(m, x)))
         == XorBlock(FromWords(Twofish.WhitenOut(k, r(Twofish.WhitenIn(k, ToWords(XorBlock(x, m)))))), m)
  {
    assert LoadPlain(k)(m, x) == Twofish.WhitenIn(k, ToWords(XorBlock(x, m)));
  }

  lemma SealedMergesAny(k: Twofish.Key, r: Twofish.State -> Twofish.State, m: Block, x: Block)
    requires Twofish.IsKey(k)
    ensures StorePlain(k)(m, r(LoadSealed(k)(m, x)))
         == XorBlock(FromWords(Twofish.WhitenIn(k, r(Twofish.UnwhitenOut(k, ToWords(XorBlock(x, m)))))), m)
  {
    assert LoadSealed(k)(m, x) == Twofish.UnwhitenOut(k, ToWords(XorBlock(x, m)));
  }

  lemma EncIsWhitenedRounds(k: Twofish.Key, q: Twofish.State)
    requires Twofish.IsKey(k)
    ensures TwofishEnc(k)(q) == Twofish.WhitenOut(k, Sixteen(k)(Twofish.WhitenIn(k, q)))
  {
  }

  lemma DecIsWhitenedRounds(k: Twofish.Key, q: Twofish.State)
    requires Twofish.IsKey(k)
    ensures TwofishDec(k)(q) == Twofish.WhitenIn(k, SixteenBack(k)(Twofish.UnwhitenOut(k, q)))
  {
  }

  lemma PlainMerges(k: Twofish.Key, m: Block, x: Block)
    requires Twofish.IsKey(k)
    ensures StoreSealed(k)(m, Sixteen(k)(LoadPlain(k)(m, x))) == XorBlock(TwofishOf(k).enc(XorBlock(x, m)), m)
  {
    PlainMergesAny(k, Sixteen(k), m, x);
    EncIsWhitenedRounds(k, ToWords(XorBlock(x, m)));
  }

  lemma SealedMerges(k: Twofish.Key, m: Block, x: Block)
    requires Twofish.IsKey(k)
    ensures StorePlain(k)(m, SixteenBack(k)(LoadSealed(k)(m, x))) == XorBlock(TwofishOf(k).dec(XorBlock(x, m)), m)
  {
    SealedMergesAny(k, SixteenBack(k), m, x);
    DecIsWhitenedRounds(k, ToWords(XorBlock(x, m)));
  }

  lemma SixteenFour(k: Twofish.Key, f: Twofish.Four)
    requires Twofish.IsKey(k)
    ensures Sixteen4(k)(f) == Twofish.Four(Sixteen(k)(f.q0), Sixteen(k)(f.q1), Sixteen(k)(f.q2), Sixteen(k)(f.q3))
  {
    Twofish.EncRounds4IsFour(k, f);
  }

  lemma SixteenBackFour(k: Twofish.Key, f: Twofish.Four)
    requires Twofish.IsKey(k)
    ensures SixteenBack4(k)(f)
         == Twofish.Four(SixteenBack(k)(f.q0), SixteenBack(k)(f.q1), SixteenBack(k)(f.q2), SixteenBack(k)(f.q3))
  {
    Twofish.DecRounds4IsFour(k, f);
  }

  lemma SixteenInterleave(k: Twofish.Key)
    requires Twofish.IsKey(k)
    ensures Interleaves(Sixteen4(k), Sixteen(k))
  {
    var g, r := Sixteen4(k), Sixteen(k);
    forall f ensures g(f) == Twofish.Four(r(f.q0), r(f.q1), r(f.q2), r(f.q3)) {
      SixteenFour(k, f);
    }
  }

  lemma SixteenBackInterleave(k: Twofish.Key)
    requires Twofish.IsKey(k)
    ensures Interleaves(SixteenBack4(k), SixteenBack(k))
  {
    var g, r := SixteenBack4(k), SixteenBack(k);
    forall f ensures g(f) == Twofish.Four(r(f.q0), r(f.q1), r(f.q2), r(f.q3)) {
      SixteenBackFour(k, f);
    }
  }

  function TwofishLayer(data: Twofish.Key, tweak: Twofish.Key): Layer
    requires Twofish.IsKey(data) && Twofish.IsKey(tweak)
  {
    Layer(TwofishOf(data), TwofishOf(tweak))
  }

  lemma SealingMerges(data: Twofish.Key, tweak: Twofish.Key)
    requires Twofish.IsKey(data) && Twofish.IsKey(tweak)
    ensures Merges(Sealing(TwofishLayer(data, tweak)), Mask, LoadPlain(data), Sixteen(data), StoreSealed(data))
  {
    var m := Sealing(TwofishLayer(data, tweak));
    forall t, x
      ensures StoreSealed(data)(Mask(t), Sixteen(data)(LoadPlain(data)(Mask(t), x))) == CryptBlock(m, t, x)
    {
      PlainMerges(data, Mask(t), x);
    }
  }

  lemma OpeningMerges(data: Twofish.Key, tweak: Twofish.Key)
    requires Twofish.IsKey(data) && Twofish.IsKey(tweak)
    ensures Merges(Opening(TwofishLayer(data, tweak)), Mask, LoadSealed(data), SixteenBack(data), StorePlain(data))
  {
    var m := Opening(TwofishLayer(data, tweak));
    forall t, x
      ensures StorePlain(data)(Mask(t), SixteenBack(data)(LoadSealed(data)(Mask(t), x))) == CryptBlock(m, t, x)
    {
      SealedMerges(data, Mask(t), x);
    }
  }

  /** xts_twofish_encrypt. */
  method TwofishEncrypt(data: Twofish.Key, tweak: Twofish.Key, offset: nat, input: array<Block>, output: array<Block>)
    requires Twofish.IsKey(data) && Twofish.IsKey(tweak)
    requires WholeSectors(input.Length) && output.Length == input.Length
    modifies output
    ensures output[..] == Crypt(Sealing(TwofishLayer(data, tweak)), SectorOf(offset), old(input[..]))
  {
    var m := Sealing(TwofishLayer(data, tweak));
    SixteenInterleave(data);
    SealingMerges(data, tweak);
    TwofishIsGroup(m, Mask, LoadPlain(data), Sixteen4(data), Sixteen(data), StoreSealed(data));
    CryptPipelined(m, GroupTwofish(Mask, m.mul, LoadPlain(data), Sixteen4(data), StoreSealed(data)), 4,
                   offset, input, output);
  }

  /** xts_twofish_decrypt. */
  method TwofishDecrypt(data: Twofish.Key, tweak: Twofish.Key, offset: nat, input: array<Block>, output: array<Block>)
    requires Twofish.IsKey(data) && Twofish.IsKey(tweak)
    requires WholeSectors(input.Length) && output.Length == input.Length
    modifies output
    ensures output[..] == Crypt(Opening(TwofishLayer(data, tweak)), SectorOf(offset), old(input[..]))
  {
    var m := Opening(TwofishLayer(data, tweak));
    SixteenBackInterleave(data);
    OpeningMerges(data, tweak);
    TwofishIsGroup(m, Mask, LoadSealed(data), SixteenBack4(data), SixteenBack(data), StorePlain(data));
    CryptPipelined(m, GroupTwofish(Mask, m.mul, LoadSealed(data), SixteenBack4(data), StorePlain(data)), 4,
                   offset, input, output);
  }
}
