/** The seven algorithms: xts_set_key, the cascades it selects, and what decryption undoes. */
module XtsKey {
  import opened Tweaks
  import opened Xts
  import opened XtsCores
  import opened Cascades
  import Aes
  import Twofish
  import TwofishKeys
  import SerpentKeys

  datatype Kind = AesKind | TwofishKind | SerpentKind

  const CF_AES := 0
  const CF_TWOFISH := 1
  const CF_SERPENT := 2
  const CF_AES_TWOFISH := 3
  const CF_TWOFISH_SERPENT := 4
  const CF_SERPENT_AES := 5
  const CF_AES_TWOFISH_SERPENT := 6

  /** The passes of an algorithm, in the order in which encryption runs them. */
  function Stages(alg: int): seq<Kind> {
    if alg == CF_AES then [AesKind]
    else if alg == CF_TWOFISH then [TwofishKind]
    else if alg == CF_SERPENT then [SerpentKind]
    else if alg == CF_AES_TWOFISH then [TwofishKind, AesKind]
    else if alg == CF_TWOFISH_SERPENT then [SerpentKind, TwofishKind]
    else if alg == CF_SERPENT_AES then [AesKind, SerpentKind]
    else if alg == CF_AES_TWOFISH_SERPENT then [SerpentKind, TwofishKind, AesKind]
    else []
  }

  // ---- the specification --------------------------------------------------------------------------

  /** The i-th 32-byte slice of the key material. */
  function Slice(key: seq<bv8>, i: nat): (r: seq<bv8>)
    requires 32 * i + 32 <= |key|
    ensures |r| == 32
  {
    key[32 * i..32 * i + 32]
  }

  function ExpandAes(key: seq<bv8>): (r: AesKey)
    requires |key| == 32
    ensures IsAesKey(r)
  {
    AesKey(Aes.EncWords(key), Aes.InverseWords(Aes.UnmixWord, Aes.EncWords(key)))
  }

  function CipherOf(bx: TwofishKeys.Boxes, kind: Kind, key: seq<bv8>): Cipher
    requires |key| == 32
  {
    match kind
    case AesKind => AesOf(ExpandAes(key))
    case TwofishKind => TwofishOf(TwofishKeys.ExpandKey(bx, key))
    case SerpentKind => SerpentOf(SerpentKeys.ExpandKey(key))
  }

  /** The slices of pass i of n: one for the data, one for the tweaks. */
  function DataSlice(n: nat, i: nat): nat {
    i
  }

  function TweakSlice(n: nat, i: nat): nat {
    n + i
  }

  function LayerOf(bx: TwofishKeys.Boxes, kind: Kind, key: seq<bv8>, n: nat, i: nat): Layer
    requires i < n && 64 * n <= |key|
  {
    Layer(CipherOf(bx, kind, Slice(key, DataSlice(n, i))), CipherOf(bx, kind, Slice(key, TweakSlice(n, i))))
  }

  function Layers(bx: TwofishKeys.Boxes, alg: int, key: seq<bv8>): (ls: seq<Layer>)
    requires 64 * |Stages(alg)| <= |key|
    ensures |ls| == |Stages(alg)|
  {
    var n := |Stages(alg)|;
    seq(n, (i: nat) requires i < n => LayerOf(bx, Stages(alg)[i], key, n, i))
  }

  function Forth(bx: TwofishKeys.Boxes, alg: int, key: seq<bv8>): seq<Mode<Block, Tweak>>
    requires 64 * |Stages(alg)| <= |key|
  {
    Sealings(Layers(bx, alg, key))
  }

  function Back(bx: TwofishKeys.Boxes, alg: int, key: seq<bv8>): seq<Mode<Block, Tweak>>
    requires 64 * |Stages(alg)| <= |key|
  {
    Openings(Layers(bx, alg, key))
  }

  function Sealings(ls: seq<Layer>): seq<Mode<Block, Tweak>> {
    seq(|ls|, (i: nat) requires i < |ls| => Sealing(ls[i]))
  }

  function Openings(ls: seq<Layer>): seq<Mode<Block, Tweak>> {
    seq(|ls|, (i: nat) requires i < |ls| => Opening(ls[i]))
  }

  // ---- what it promises ---------------------------------------------------------------------------

  lemma CipherInverse(bx: TwofishKeys.Boxes, kind: Kind, key: seq<bv8>)
    requires |key| == 32
    ensures Inverse(CipherOf(bx, kind, key))
  {
    match kind
    case AesKind => AesInverse(ExpandAes(key));
    case TwofishKind => TwofishInverse(TwofishKeys.ExpandKey(bx, key));
    case SerpentKind => SerpentInverse(SerpentKeys.ExpandKey(key));
  }

  lemma LayersUndone(ls: seq<Layer>)
    requires forall i | 0 <= i < |ls| :: Inverse(ls[i].data)
    ensures Undoing(Sealings(ls), Openings(ls))
  {
    var forth, back := Sealings(ls), Openings(ls);
    forall i | 0 <= i < |ls|
      ensures back[i] == forth[i].(crypt := back[i].crypt) && Undoes(forth[i], back[i].crypt)
    {
      OpeningUndoes(ls[i]);
    }
  }

  /** For every algorithm and key, each decryption pass undoes the encryption pass with the same key slices. */
  lemma BackUndoesForth(bx: TwofishKeys.Boxes, alg: int, key: seq<bv8>)
    requires 64 * |Stages(alg)| <= |key|
    ensures Undoing(Forth(bx, alg, key), Back(bx, alg, key))
  {
    var ls := Layers(bx, alg, key);
    forall i | 0 <= i < |ls| ensures Inverse(ls[i].data) {
      CipherInverse(bx, Stages(alg)[i], Slice(key, i));
    }
    LayersUndone(ls);
  }

  /** After xts_set_key with any algorithm and key, decryption undoes encryption for all data at every offset. */
  lemma DecryptUndoesEncrypt(bx: TwofishKeys.Boxes, alg: int, key: seq<bv8>, offset: nat, data: seq<Block>)
    requires 64 * |Stages(alg)| <= |key|
    ensures Uncascade(Back(bx, alg, key), offset, Cascade(Forth(bx, alg, key), offset, data)) == data
  {
    BackUndoesForth(bx, alg, key);
    CascadeUndone(Forth(bx, alg, key), Back(bx, alg, key), offset, data);
  }

  predicate InSlice(k: nat, b: nat) {
    32 * k <= b < 32 * k + 32
  }

  /** Byte b of the key material serves pass i of n. */
  predicate Serves(n: nat, i: nat, b: nat) {
    InSlice(DataSlice(n, i), b) || InSlice(TweakSlice(n, i), b)
  }

  /**
   The passes of an algorithm tile the key material: every byte serves exactly one of them, either for the data or for
   the tweaks, and none reaches beyond the end.
   */
  lemma SlicesTile(n: nat, b: nat)
    ensures b < 64 * n <==> exists i: nat | i < n :: Serves(n, i, b)
    ensures forall i: nat, j: nat | i < n && j < n && Serves(n, i, b) && Serves(n, j, b) :: i == j
    ensures forall i: nat, j: nat | i < n && j < n :: !(InSlice(DataSlice(n, i), b) && InSlice(TweakSlice(n, j), b))
  {
    if b < 64 * n {
      var k := b / 32;
      var i := if k < n then k else k - n;
      assert InSlice(k, b) && Serves(n, i, b);
    }
  }

  /** A pass depends on no other byte of the key. */
  lemma PassNeedsItsBytes(bx: TwofishKeys.Boxes, kind: Kind, key: seq<bv8>, other: seq<bv8>, n: nat, i: nat)
    requires i < n && 64 * n <= |key| == |other| && forall b: nat | b < |key| && Serves(n, i, b) :: key[b] == other[b]
    ensures LayerOf(bx, kind, key, n, i) == LayerOf(bx, kind, other, n, i)
  {
    SameSlice(key, other, DataSlice(n, i));
    SameSlice(key, other, TweakSlice(n, i));
  }

  lemma SameSlice(key: seq<bv8>, other: seq<bv8>, k: nat)
    requires 32 * k + 32 <= |key| == |other| && forall b: nat | b < |key| && InSlice(k, b) :: key[b] == other[b]
    ensures Slice(key, k) == Slice(other, k)
  {
    forall j | 0 <= j < 32 ensures Slice(key, k)[j] == Slice(other, k)[j] {
      assert InSlice(k, 32 * k + j);
    }
  }

  // ---- the key structure --------------------------------------------------------------------------

  /** Which implementation xts_init has picked for AES. */
  datatype AesCore = Basic | AesNi | Arm64

  /** What the encrypt and decrypt pointers refer to. */
  datatype Proc = Unset | Encryptor(alg: int) | Decryptor(alg: int)

  datatype Schedules =
    | AesPair(a: AesKey, a': AesKey)
    | TwofishPair(t: Twofish.Key, t': Twofish.Key)
    | SerpentPair(s: seq<bv32>, s': seq<bv32>)

  /** The schedules of slices i and n + i. */
  function Expanded(bx: TwofishKeys.Boxes, kind: Kind, key: seq<bv8>, n: nat, i: nat): Schedules
    requires i < n && 64 * n <= |key|
  {
    match kind
    case AesKind => AesPair(ExpandAes(Slice(key, i)), ExpandAes(Slice(key, n + i)))
    case TwofishKind =>
      TwofishPair(TwofishKeys.ExpandKey(bx, Slice(key, i)), TwofishKeys.ExpandKey(bx, Slice(key, n + i)))
    case SerpentKind => SerpentPair(SerpentKeys.ExpandKey(Slice(key, i)), SerpentKeys.ExpandKey(Slice(key, n + i)))
  }

  predicate Sound(w: Schedules) {
    match w
    case AesPair(a, b) => IsAesKey(a) && IsAesKey(b)
    case TwofishPair(a, b) => Twofish.IsKey(a) && Twofish.IsKey(b)
    case SerpentPair(a, b) => |a| == 132 && |b| == 132
  }

  function LayerUnder(w: Schedules): Layer
    requires Sound(w)
  {
    match w
    case AesPair(a, b) => AesLayer(a, b)
    case TwofishPair(a, b) => TwofishLayer(a, b)
    case SerpentPair(a, b) => Layer(SerpentOf(a), SerpentOf(b))
  }

  lemma LayerExpanded(bx: TwofishKeys.Boxes, kind: Kind, key: seq<bv8>, n: nat, i: nat)
    requires i < n && 64 * n <= |key|
    ensures Sound(Expanded(bx, kind, key, n, i))
    ensures LayerUnder(Expanded(bx, kind, key, n, i)) == LayerOf(bx, kind, key, n, i)
  {
  }

  /** One encryption pass; every implementation of the cipher gives the same result. */
  method Seal(core: AesCore, w: Schedules, offset: nat, input: array<Block>, output: array<Block>)
    requires Sound(w) && WholeSectors(input.Length) && output.Length == input.Length
    modifies output
    ensures output[..] == Crypt(Sealing(LayerUnder(w)), SectorOf(offset), old(input[..]))
  {
    match w {
      case AesPair(a, b) =>
        match core {
          case Basic => CryptScalar(Sealing(AesLayer(a, b)), offset, input, output);
          case AesNi => AesNiEncrypt(a, b, offset, input, output);
          case Arm64 => AesCeEncrypt(a, b, offset, input, output);
        }
      case TwofishPair(a, b) => TwofishEncrypt(a, b, offset, input, output);
      case SerpentPair(a, b) => CryptScalar(Sealing(LayerUnder(w)), offset, input, output);
    }
  }

  /** One decryption pass. */
  method Open(core: AesCore, w: Schedules, offset: nat, input: array<Block>, output: array<Block>)
    requires Sound(w) && WholeSectors(input.Length) && output.Length == input.Length
    modifies output
    ensures output[..] == Crypt(Opening(LayerUnder(w)), SectorOf(offset), old(input[..]))
  {
    match w {
      case AesPair(a, b) =>
        match core {
          case Basic => CryptScalar(Opening(AesLayer(a, b)), offset, input, output);
          case AesNi => AesNiDecrypt(a, b, offset, input, output);
          case Arm64 => AesCeDecrypt(a, b, offset, input, output);
        }
      case TwofishPair(a, b) => TwofishDecrypt(a, b, offset, input, output);
      case SerpentPair(a, b) => CryptScalar(Opening(LayerUnder(w)), offset, input, output);
    }
  }

  class XtsKey {
    var cryptAes: AesKey
    var tweakAes: AesKey
    var cryptTwofish: Twofish.Key
    var tweakTwofish: Twofish.Key
    var cryptSerpent: seq<bv32>
    var tweakSerpent: seq<bv32>
    var encrypt: Proc
    var decrypt: Proc

    /** What the structure holds for one kind of cipher. */
    function Slot(kind: Kind): Schedules
      reads this`cryptAes, this`tweakAes, this`cryptTwofish, this`tweakTwofish, this`cryptSerpent, this`tweakSerpent
    {
      match kind
      case AesKind => AesPair(cryptAes, tweakAes)
      case TwofishKind => TwofishPair(cryptTwofish, tweakTwofish)
      case SerpentKind => SerpentPair(cryptSerpent, tweakSerpent)
    }

    ghost predicate Filled(bx: TwofishKeys.Boxes, kinds: seq<Kind>, key: seq<bv8>)
      requires 64 * |kinds| <= |key|
      reads this`cryptAes, this`tweakAes, this`cryptTwofish, this`tweakTwofish, this`cryptSerpent, this`tweakSerpent
    {
      forall i | 0 <= i < |kinds| :: Slot(kinds[i]) == Expanded(bx, kinds[i], key, |kinds|, i)
    }

    ghost predicate Ready(bx: TwofishKeys.Boxes, alg: int, key: seq<bv8>)
      requires 64 * |Stages(alg)| <= |key|
      reads this
    {
      encrypt == Encryptor(alg) && decrypt == Decryptor(alg) && Filled(bx, Stages(alg), key)
    }

    method SetAes(key: seq<bv8>, n: nat, i: nat, ghost bx: TwofishKeys.Boxes)
      requires i < n && 64 * n <= |key|
      modifies this`cryptAes, this`tweakAes
      ensures Slot(AesKind) == Expanded(bx, AesKind, key, n, i)
    {
      var k := new Aes.ScheduledKey();
      k.SetKey(Slice(key, i));
      cryptAes := AesKey(k.encKey[..], k.decKey[..]);
      k.SetKey(Slice(key, n + i));
      tweakAes := AesKey(k.encKey[..], k.decKey[..]);
    }

    method SetTwofish(bx: TwofishKeys.Boxes, key: seq<bv8>, n: nat, i: nat)
      requires i < n && 64 * n <= |key|
      modifies this`cryptTwofish, this`tweakTwofish
      ensures Slot(TwofishKind) == Expanded(bx, TwofishKind, key, n, i)
    {
      var k := new TwofishKeys.ScheduledKey();
      k.SetKey(bx, Slice(key, i));
      cryptTwofish := k.Value();
      k.SetKey(bx, Slice(key, n + i));
      tweakTwofish := k.Value();
    }

    method SetSerpent(key: seq<bv8>, n: nat, i: nat, ghost bx: TwofishKeys.Boxes)
      requires i < n && 64 * n <= |key|
      modifies this`cryptSerpent, this`tweakSerpent
      ensures Slot(SerpentKind) == Expanded(bx, SerpentKind, key, n, i)
    {
      var k := new bv32[132];
      SerpentKeys.SetKey(Slice(key, i), k);
      cryptSerpent := k[..];
      SerpentKeys.SetKey(Slice(key, n + i), k);
      tweakSerpent := k[..];
    }

    /** The two calls that fill the slots of one kind: slice i for the data, slice n + i for the tweaks. */
    method SetStage(bx: TwofishKeys.Boxes, kind: Kind, key: seq<bv8>, n: nat, i: nat)
      requires i < n && 64 * n <= |key|
      modifies this
      ensures Slot(kind) == Expanded(bx, kind, key, n, i)
      ensures forall other | other != kind :: Slot(other) == old(Slot(other))
    {
      match kind {
        case AesKind => SetAes(key, n, i, bx);
        case TwofishKind => SetTwofish(bx, key, n, i);
        case SerpentKind => SetSerpent(key, n, i, bx);
      }
    }

    method SetOne(bx: TwofishKeys.Boxes, kind: Kind, key: seq<bv8>)
      requires 64 <= |key|
      modifies this
      ensures Filled(bx, [kind], key)
    {
      SetStage(bx, kind, key, 1, 0);
    }

    method SetTwo(bx: TwofishKeys.Boxes, k0: Kind, k1: Kind, key: seq<bv8>)
      requires k0 != k1 && 128 <= |key|
      modifies this
      ensures Filled(bx, [k0, k1], key)
    {
      SetTwoSlots(bx, k0, k1, key);
      assert Filled(bx, [k0, k1], key) by {
        TwoFilled(bx, k0, k1, key);
      }
    }

    method SetTwoSlots(bx: TwofishKeys.Boxes, k0: Kind, k1: Kind, key: seq<bv8>)
      requires k0 != k1 && 128 <= |key|
      modifies this
      ensures Slot(k0) == Expanded(bx, k0, key, 2, 0) && Slot(k1) == Expanded(bx, k1, key, 2, 1)
    {
      SetStage(bx, k0, key, 2, 0);
      SetStage(bx, k1, key, 2, 1);
    }

    lemma TwoFilled(bx: TwofishKeys.Boxes, k0: Kind, k1: Kind, key: seq<bv8>)
      requires 128 <= |key|
      requires Slot(k0) == Expanded(bx, k0, key, 2, 0)
      requires Slot(k1) == Expanded(bx, k1, key, 2, 1)
      ensures Filled(bx, [k0, k1], key)
    {
      var kinds := [k0, k1];
      forall i | 0 <= i < 2 ensures Slot(kinds[i]) == Expanded(bx, kinds[i], key, 2, i) {
        if i == 0 {
        } else {
        }
      }
    }

    method SetThree(bx: TwofishKeys.Boxes, key: seq<bv8>)
      requires 192 <= |key|
      modifies this
      ensures Filled(bx, [SerpentKind, TwofishKind, AesKind], key)
    {
      SetThreeSlots(bx, key);
      assert Filled(bx, [SerpentKind, TwofishKind, AesKind], key) by {
        ThreeFilled(bx, SerpentKind, TwofishKind, AesKind, key);
      }
    }

    method SetThreeSlots(bx: TwofishKeys.Boxes, key: seq<bv8>)
      requires 192 <= |key|
      modifies this
      ensures Slot(SerpentKind) == Expanded(bx, SerpentKind, key, 3, 0)
      ensures Slot(TwofishKind) == Expanded(bx, TwofishKind, key, 3, 1)
      ensures Slot(AesKind) == Expanded(bx, AesKind, key, 3, 2)
    {
      SetStage(bx, SerpentKind, key, 3, 0);
      SetStage(bx, TwofishKind, key, 3, 1);
      SetStage(bx, AesKind, key, 3, 2);
    }

    lemma ThreeFilled(bx: TwofishKeys.Boxes, k0: Kind, k1: Kind, k2: Kind, key: seq<bv8>)
      requires 192 <= |key|
      requires Slot(k0) == Expanded(bx, k0, key, 3, 0)
      requires Slot(k1) == Expanded(bx, k1, key, 3, 1)
      requires Slot(k2) == Expanded(bx, k2, key, 3, 2)
      ensures Filled(bx, [k0, k1, k2], key)
    {
      var kinds := [k0, k1, k2];
      forall i | 0 <= i < 3 ensures Slot(kinds[i]) == Expanded(bx, kinds[i], key, 3, i) {
        if i == 0 {
        } else if i == 1 {
        } else {
        }
      }
    }

    /** xts_set_key: an unknown algorithm is refused and leaves the structure alone. */
    method SetKey(bx: TwofishKeys.Boxes, key: seq<bv8>, alg: int) returns (ok: bool)
      requires 64 * |Stages(alg)| <= |key|
      modifies this
      ensures ok <==> 0 <= alg < 7
      ensures ok ==> Ready(bx, alg, key)
      ensures !ok ==> unchanged(this)
    {
      if alg == CF_AES {
        SetOne(bx, AesKind, key);
      } else if alg == CF_TWOFISH {
        SetOne(bx, TwofishKind, key);
      } else if alg == CF_SERPENT {
        SetOne(bx, SerpentKind, key);
      } else if alg == CF_AES_TWOFISH {
        SetTwo(bx, TwofishKind, AesKind, key);
      } else if alg == CF_TWOFISH_SERPENT {
        SetTwo(bx, SerpentKind, TwofishKind, key);
      } else if alg == CF_SERPENT_AES {
        SetTwo(bx, AesKind, SerpentKind, key);
      } else if alg == CF_AES_TWOFISH_SERPENT {
        SetThree(bx, key);
      } else {
        return false;
      }
      encrypt, decrypt := Encryptor(alg), Decryptor(alg);
      return true;
    }

    ghost predicate SoundSlots(kinds: seq<Kind>)
      reads this
    {
      forall i | 0 <= i < |kinds| :: Sound(Slot(kinds[i]))
    }

    ghost function Modes(kinds: seq<Kind>): seq<Layer>
      requires SoundSlots(kinds)
      reads this
    {
      seq(|kinds|, (i: nat) requires i < |kinds| && SoundSlots(kinds) reads this => LayerUnder(Slot(kinds[i])))
    }

    /** What the structure holds are the passes the specification asks for. */
    lemma ReadyModes(bx: TwofishKeys.Boxes, alg: int, key: seq<bv8>)
      requires 64 * |Stages(alg)| <= |key| && Ready(bx, alg, key)
      ensures SoundSlots(Stages(alg)) && Modes(Stages(alg)) == Layers(bx, alg, key)
    {
      var kinds := Stages(alg);
      forall i | 0 <= i < |kinds|
        ensures Sound(Slot(kinds[i])) && LayerUnder(Slot(kinds[i])) == LayerOf(bx, kinds[i], key, |kinds|, i)
      {
        LayerExpanded(bx, kinds[i], key, |kinds|, i);
      }
    }

    method SealOne(core: AesCore, k0: Kind, offset: nat, input: array<Block>, output: array<Block>)
      requires SoundSlots([k0]) && WholeSectors(input.Length) && output.Length == input.Length
      modifies output
      ensures SoundSlots([k0])
      ensures output[..] == Cascade(Sealings(Modes([k0])), offset, old(input[..]))
    {
      ghost var kinds, ls := [k0], Modes([k0]);
      assert kinds[0] == k0;
      Seal(core, Slot(k0), offset, input, output);
      OneCascade(Sealing(ls[0]), offset, old(input[..]));
      assert Sealings(ls) == [Sealing(ls[0])];
    }

    method SealTwo(core: AesCore, k0: Kind, k1: Kind, offset: nat, input: array<Block>, output: array<Block>)
      requires SoundSlots([k0, k1]) && WholeSectors(input.Length) && output.Length == input.Length
      modifies output
      ensures SoundSlots([k0, k1])
      ensures output[..] == Cascade(Sealings(Modes([k0, k1])), offset, old(input[..]))
    {
      ghost var kinds, ls := [k0, k1], Modes([k0, k1]);
      assert kinds[0] == k0 && kinds[1] == k1;
      Seal(core, Slot(k0), offset, input, output);
      Seal(core, Slot(k1), offset, output, output);
      TwoCascade(Sealing(ls[0]), Sealing(ls[1]), offset, old(input[..]));
      assert Sealings(ls) == [Sealing(ls[0]), Sealing(ls[1])];
    }

    method SealThree(core: AesCore, k0: Kind, k1: Kind, k2: Kind, offset: nat,
                      input: array<Block>, output: array<Block>)
      requires SoundSlots([k0, k1, k2]) && WholeSectors(input.Length) && output.Length == input.Length
      modifies output
      ensures SoundSlots([k0, k1, k2])
      ensures output[..] == Cascade(Sealings(Modes([k0, k1, k2])), offset, old(input[..]))
    {
      ghost var kinds, ls := [k0, k1, k2], Modes([k0, k1, k2]);
      assert kinds[0] == k0 && kinds[1] == k1 && kinds[2] == k2;
      Seal(core, Slot(k0), offset, input, output);
      Seal(core, Slot(k1), offset, output, output);
      Seal(core, Slot(k2), offset, output, output);
      ThreeCascade(Sealing(ls[0]), Sealing(ls[1]), Sealing(ls[2]), offset, old(input[..]));
      assert Sealings(ls) == [Sealing(ls[0]), Sealing(ls[1]), Sealing(ls[2])];
    }

    method OpenOne(core: AesCore, k0: Kind, offset: nat, input: array<Block>, output: array<Block>)
      requires SoundSlots([k0]) && WholeSectors(input.Length) && output.Length == input.Length
      modifies output
      ensures SoundSlots([k0])
      ensures output[..] == Uncascade(Openings(Modes([k0])), offset, old(input[..]))
    {
      ghost var kinds, ls := [k0], Modes([k0]);
      assert kinds[0] == k0;
      Open(core, Slot(k0), offset, input, output);
      OneUncascade(Opening(ls[0]), offset, old(input[..]));
      assert Openings(ls) == [Opening(ls[0])];
    }

    method OpenTwo(core: AesCore, k0: Kind, k1: Kind, offset: nat, input: array<Block>, output: array<Block>)
      requires SoundSlots([k0, k1]) && WholeSectors(input.Length) && output.Length == input.Length
      modifies output
      ensures SoundSlots([k0, k1])
      ensures output[..] == Uncascade(Openings(Modes([k0, k1])), offset, old(input[..]))
    {
      ghost var kinds, ls := [k0, k1], Modes([k0, k1]);
      assert kinds[0] == k0 && kinds[1] == k1;
      Open(core, Slot(k1), offset, input, output);
      Open(core, Slot(k0), offset, output, output);
      TwoUncascade(Opening(ls[0]), Opening(ls[1]), offset, old(input[..]));
      assert Openings(ls) == [Opening(ls[0]), Opening(ls[1])];
    }

    method OpenThree(core: AesCore, k0: Kind, k1: Kind, k2: Kind, offset: nat,
                      input: array<Block>, output: array<Block>)
      requires SoundSlots([k0, k1, k2]) && WholeSectors(input.Length) && output.Length == input.Length
      modifies output
      ensures SoundSlots([k0, k1, k2])
      ensures output[..] == Uncascade(Openings(Modes([k0, k1, k2])), offset, old(input[..]))
    {
      ghost var kinds, ls := [k0, k1, k2], Modes([k0, k1, k2]);
      assert kinds[0] == k0 && kinds[1] == k1 && kinds[2] == k2;
      Open(core, Slot(k2), offset, input, output);
      Open(core, Slot(k1), offset, output, output);
      Open(core, Slot(k0), offset, output, output);
      ThreeUncascade(Opening(ls[0]), Opening(ls[1]), Opening(ls[2]), offset, old(input[..]));
      assert Openings(ls) == [Opening(ls[0]), Opening(ls[1]), Opening(ls[2])];
    }

    /** xts_encrypt: the routine the encrypt pointer selects; input and output may be the same buffer. */
    method Encrypt(core: AesCore, offset: nat, input: array<Block>, output: array<Block>,
                   ghost bx: TwofishKeys.Boxes, ghost alg: int, ghost key: seq<bv8>)
      requires 0 <= alg < 7 && 64 * |Stages(alg)| <= |key| && Ready(bx, alg, key)
      requires WholeSectors(input.Length) && output.Length == input.Length
      modifies output
      ensures output[..] == Cascade(Forth(bx, alg, key), offset, old(input[..]))
    {
      ReadyModes(bx, alg, key);
      if encrypt.alg == CF_AES {
        SealOne(core, AesKind, offset, input, output);
      } else if encrypt.alg == CF_TWOFISH {
        SealOne(core, TwofishKind, offset, input, output);
      } else if encrypt.alg == CF_SERPENT {
        SealOne(core, SerpentKind, offset, input, output);
      } else if encrypt.alg == CF_AES_TWOFISH {
        SealTwo(core, TwofishKind, AesKind, offset, input, output);
      } else if encrypt.alg == CF_TWOFISH_SERPENT {
        SealTwo(core, SerpentKind, TwofishKind, offset, input, output);
      } else if encrypt.alg == CF_SERPENT_AES {
        SealTwo(core, AesKind, SerpentKind, offset, input, output);
      } else {
        SealThree(core, SerpentKind, TwofishKind, AesKind, offset, input, output);
      }
    }

    /** xts_decrypt. */
    method Decrypt(core: AesCore, offset: nat, input: array<Block>, output: array<Block>,
                   ghost bx: TwofishKeys.Boxes, ghost alg: int, ghost key: seq<bv8>)
      requires 0 <= alg < 7 && 64 * |Stages(alg)| <= |key| && Ready(bx, alg, key)
      requires WholeSectors(input.Length) && output.Length == input.Length
      modifies output
      ensures output[..] == Uncascade(Back(bx, alg, key), offset, old(input[..]))
    {
      ReadyModes(bx, alg, key);
      if decrypt.alg == CF_AES {
        OpenOne(core, AesKind, offset, input, output);
      } else if decrypt.alg == CF_TWOFISH {
        OpenOne(core, TwofishKind, offset, input, output);
      } else if decrypt.alg == CF_SERPENT {
        OpenOne(core, SerpentKind, offset, input, output);
      } else if decrypt.alg == CF_AES_TWOFISH {
        OpenTwo(core, TwofishKind, AesKind, offset, input, output);
      } else if decrypt.alg == CF_TWOFISH_SERPENT {
        OpenTwo(core, SerpentKind, TwofishKind, offset, input, output);
      } else if decrypt.alg == CF_SERPENT_AES {
        OpenTwo(core, AesKind, SerpentKind, offset, input, output);
      } else {
        OpenThree(core, SerpentKind, TwofishKind, AesKind, offset, input, output);
      }
    }
  }
}
