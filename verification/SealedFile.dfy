/** The sealed backup file: encrypted whole, then overwritten with its plain salt in front. */
module SealedFile {
  import opened Words
  import opened Tweaks
  import opened Xts
  import opened Cascades
  import XtsKey
  import TwofishKeys
  import Crc32

  const MAGIC: bv32 := 0x4B424344

  /** The salt takes 64 of the 1024 bytes. */
  const SALT_BLOCKS := 4
  const FILE_BLOCKS := 64

  function Flat(bs: seq<Block>): seq<bv8> {
    if bs == [] then [] else BlockBytes(bs[0]) + Flat(bs[1..])
  }

  /** The bytes the checksum covers: from the version field, eight bytes behind the salt, to the end. */
  function Covered(file: seq<Block>): seq<bv8>
    requires |file| == FILE_BLOCKS
  {
    WordBytes(file[4].w2) + WordBytes(file[4].w3) + Flat(file[5..])
  }

  lemma {:induction false} FlatFrom(bs: seq<Block>, i: nat)
    requires i <= |bs|
    ensures |Flat(bs)| == 16 * |bs| && Flat(bs)[16 * i..] == Flat(bs[i..])
    decreases |bs|
  {
    if bs != [] {
      FlatFrom(bs[1..], if i == 0 then 0 else i - 1);
      if i == 0 {
        assert bs[0..] == bs;
      } else {
        assert bs[1..][i - 1..] == bs[i..];
        assert Flat(bs)[16 * i..] == Flat(bs[1..])[16 * (i - 1)..];
      }
    }
  }

  /** Those are the last 952 of the 1024 bytes. */
  lemma CoveredIs(file: seq<Block>)
    requires |file| == 64
    ensures |Flat(file)| == 1024 && Covered(file) == Flat(file)[72..]
  {
    FlatFrom(file, 4);
    FlatNext(file, 4);
    DropEight(file[4], Flat(file[5..]));
    DropMore(Flat(file));
  }

  lemma FlatNext(bs: seq<Block>, i: nat)
    requires i < |bs|
    ensures Flat(bs[i..]) == BlockBytes(bs[i]) + Flat(bs[i + 1..])
  {
    assert bs[i..][0] == bs[i] && bs[i..][1..] == bs[i + 1..];
  }

  lemma DropEight(b: Block, rest: seq<bv8>)
    ensures (BlockBytes(b) + rest)[8..] == WordBytes(b.w2) + WordBytes(b.w3) + rest
  {
    DropTwo(WordBytes(b.w0), WordBytes(b.w1), WordBytes(b.w2), WordBytes(b.w3), rest);
  }

  lemma DropTwo(w: seq<bv8>, x: seq<bv8>, y: seq<bv8>, z: seq<bv8>, rest: seq<bv8>)
    requires |w| == 4 && |x| == 4
    ensures (w + x + y + z + rest)[8..] == y + z + rest
  {
  }

  lemma DropMore(s: seq<bv8>)
    requires |s| >= 72
    ensures s[64..][8..] == s[72..]
  {
  }

  /** The signature spells DCBK. */
  lemma MagicIs()
    ensures WordBytes(MAGIC) == [0x44, 0x43, 0x42, 0x4B]
  {
  }

  /** The signature and checksum checks on a decrypted file. */
  predicate Checks(file: seq<Block>)
    requires |file| == FILE_BLOCKS
  {
    file[4].w0 == MAGIC && file[4].w1 == Crc32.Checksum(Covered(file))
  }

  /** Filling in the signature and the checksum. */
  function Stamp(file: seq<Block>): (r: seq<Block>)
    requires |file| == FILE_BLOCKS
    ensures |r| == FILE_BLOCKS && Checks(r)
    ensures r[..4] == file[..4] && r[5..] == file[5..]
  {
    file[4 := Block(MAGIC, Crc32.Checksum(Covered(file)), file[4].w2, file[4].w3)]
  }

  /** Encryption at offset 0, then the salt copied back over the first 64 bytes. */
  function Seal(forth: seq<Mode<Block, Tweak>>, file: seq<Block>): (r: seq<Block>)
    requires |file| == FILE_BLOCKS
    ensures |r| == FILE_BLOCKS && r[..4] == file[..4]
  {
    file[..SALT_BLOCKS] + Cascade(forth, 0, file)[SALT_BLOCKS..]
  }

  lemma ChecksFromTail(x: seq<Block>, y: seq<Block>)
    requires |x| == |y| == FILE_BLOCKS && x[4..] == y[4..] && Checks(x)
    ensures Checks(y)
  {
    assert x[4] == x[4..][0] && y[4] == y[4..][0];
    assert x[5..] == x[4..][1..] && y[5..] == y[4..][1..];
  }

  /** Under every algorithm and key, the sealed file opens to the original behind the salt, and the checks pass. */
  lemma SealedFileOpens(bx: TwofishKeys.Boxes, alg: int, key: seq<bv8>, file: seq<Block>)
    requires 64 * |XtsKey.Stages(alg)| <= |key| && |file| == FILE_BLOCKS
    ensures var plain := Uncascade(XtsKey.Back(bx, alg, key), 0, Seal(XtsKey.Forth(bx, alg, key), Stamp(file)));
            plain[SALT_BLOCKS..] == Stamp(file)[SALT_BLOCKS..] && Checks(plain)
  {
    XtsKey.BackUndoesForth(bx, alg, key);
    OpensUnder(XtsKey.Forth(bx, alg, key), XtsKey.Back(bx, alg, key), Stamp(file));
  }

  lemma OpensUnder(forth: seq<Mode<Block, Tweak>>, back: seq<Mode<Block, Tweak>>, file: seq<Block>)
    requires Undoing(forth, back) && |file| == FILE_BLOCKS && Checks(file)
    ensures var plain := Uncascade(back, 0, Seal(forth, file));
            plain[SALT_BLOCKS..] == file[SALT_BLOCKS..] && Checks(plain)
  {
    SaltedTailSurvives(forth, back, 0, file, file[..SALT_BLOCKS]);
    ChecksFromTail(file, Uncascade(back, 0, Seal(forth, file)));
  }

  /** A long volume header: 2048 bytes decrypted at offset 0 and the tail at offset 2048 are one decryption. */
  lemma HeaderTail(back: seq<Mode<Block, Tweak>>, base: seq<Block>, tail: seq<Block>)
    requires 16 * |base| == 2048
    ensures Uncascade(back, 0, base + tail) == Uncascade(back, 0, base) + Uncascade(back, 2048, tail)
  {
    UncascadeSplits(back, 0, base, tail);
  }
}
