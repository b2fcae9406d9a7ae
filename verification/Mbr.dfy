/** The master boot record, the loader's configuration block and the searches over them, as bytes. */
module Mbr {
  import opened DiskAccess

  type Bytes = seq<Byte>

  const SECTOR: nat := 512

  // ---- numbers ------------------------------------------------------------------------------------

  /** The last k base-256 digits of n, least significant first. */
  function Le(n: nat, k: nat): (r: Bytes)
    ensures |r| == k
    decreases k, n
  {
    if k == 0 then [] else [n % 256] + Le(n / 256, k - 1)
  }

  function Val(s: Bytes): nat {
    if s == [] then 0 else s[0] + 256 * Val(s[1..])
  }

  function Bound(k: nat): nat
    decreases k, 0
  {
    if k == 0 then 1 else 256 * Bound(k - 1)
  }

  lemma {:induction false} ValOfLe(n: nat, k: nat)
    requires n < Bound(k)
    ensures Val(Le(n, k)) == n
  {
    if k > 0 {
      ValOfLe(n / 256, k - 1);
      assert Le(n, k)[1..] == Le(n / 256, k - 1);
    }
  }

  // ---- the master boot record ---------------------------------------------------------------------

  const NEW_SIGN: Bytes := [0x90, 0x90, 0xEB, 0x10]
  const OLD_SIGN: Bytes := [0x51, 0x02, 0xB6, 0x20]
  const MAGIC: Bytes := [0x55, 0xAA]

  predicate Bootable(m: Bytes)
    requires |m| == SECTOR
  {
    m[510..] == MAGIC
  }

  /** The signature of our boot code, behind the jump. */
  predicate Ours(m: Bytes)
    requires |m| == SECTOR
  {
    m[2..6] == NEW_SIGN || m[2..6] == OLD_SIGN
  }

  const WRAP: nat := 0x1_0000_0000_0000_0000

  /** Where the loader is and how long: set.sector, multiplied in 64 bits, and set.numb, in bytes. */
  function LoaderOffset(m: Bytes): nat
    requires |m| == SECTOR
  {
    SECTOR * Val(m[14..22]) % WRAP
  }

  function LoaderSize(m: Bytes): nat
    requires |m| == SECTOR
  {
    SECTOR * Val(m[8..10])
  }

  /** Boot code and magic: all of the record but the disk signature and the partition table. */
  predicate SameCode(x: Bytes, y: Bytes)
    requires |x| == SECTOR && |y| == SECTOR
  {
    x[..440] == y[..440] && x[510..] == y[510..]
  }

  /** The boot code of x with the partition data of y. */
  function Merged(x: Bytes, y: Bytes): (r: Bytes)
    requires |x| == SECTOR && |y| == SECTOR
    ensures |r| == SECTOR && SameCode(r, x) && r[440..510] == y[440..510]
  {
    x[..440] + y[440..510] + x[510..]
  }

  function WithPointer(m: Bytes, sector: nat, numb: nat): (r: Bytes)
    requires |m| == SECTOR
    ensures |r| == SECTOR
  {
    m[..8] + Le(numb, 2) + m[10..14] + Le(sector, 8) + m[22..]
  }

  lemma PointerKeepsRest(m: Bytes, sector: nat, numb: nat)
    requires |m| == SECTOR
    ensures var r := WithPointer(m, sector, numb); r[2..6] == m[2..6] && r[440..] == m[440..]
  {
  }

  lemma PointerFound(m: Bytes, sector: nat, numb: nat)
    requires |m| == SECTOR && sector < Bound(8) && numb < Bound(2)
    ensures var r := WithPointer(m, sector, numb);
            LoaderOffset(r) == SECTOR * sector % WRAP && LoaderSize(r) == SECTOR * numb
  {
    var r := WithPointer(m, sector, numb);
    assert r[14..22] == Le(sector, 8) && r[8..10] == Le(numb, 2);
    ValOfLe(sector, 8);
    ValOfLe(numb, 2);
  }

  lemma SameCodeSameHead(x: Bytes, y: Bytes)
    requires |x| == SECTOR && |y| == SECTOR && SameCode(x, y)
    ensures Ours(x) == Ours(y) && Bootable(x) == Bootable(y)
    ensures LoaderOffset(x) == LoaderOffset(y) && LoaderSize(x) == LoaderSize(y)
  {
    assert x[2..6] == x[..440][2..6] == y[..440][2..6] == y[2..6];
    assert x[8..10] == x[..440][8..10] == y[..440][8..10] == y[8..10];
    assert x[14..22] == x[..440][14..22] == y[..440][14..22] == y[14..22];
  }

  // ---- the partition table ------------------------------------------------------------------------

  function PartStart(m: Bytes, i: nat): nat
    requires |m| == SECTOR && i < 4
  {
    Val(m[454 + 16 * i..458 + 16 * i])
  }

  function PartSize(m: Bytes, i: nat): nat
    requires |m| == SECTOR && i < 4
  {
    Val(m[458 + 16 * i..462 + 16 * i])
  }

  /** start_sect + prt_size in 32 bits. */
  function PartEnd(m: Bytes, i: nat): nat
    requires |m| == SECTOR && i < 4
  {
    (PartStart(m, i) + PartSize(m, i)) % 0x1_0000_0000
  }

  /** The scan for free space before and after the partitions, in sectors of the disk. */
  method FreeSpace(m: Bytes) returns (minStart: nat, maxEnd: nat)
    requires |m| == SECTOR
    ensures minStart <= 64
    ensures forall i | 0 <= i < 4 && PartSize(m, i) != 0 :: minStart <= PartStart(m, i) && PartEnd(m, i) <= maxEnd
    ensures minStart == 64 || exists i | 0 <= i < 4 :: PartSize(m, i) != 0 && minStart == PartStart(m, i)
    ensures maxEnd == 0 || exists i | 0 <= i < 4 :: PartSize(m, i) != 0 && maxEnd == PartEnd(m, i)
  {
    minStart, maxEnd := 64, 0;
    for i := 0 to 4
      invariant minStart <= 64
      invariant forall j | 0 <= j < i && PartSize(m, j) != 0 :: minStart <= PartStart(m, j) && PartEnd(m, j) <= maxEnd
      invariant minStart == 64 || exists j | 0 <= j < 4 :: PartSize(m, j) != 0 && minStart == PartStart(m, j)
      invariant maxEnd == 0 || exists j | 0 <= j < 4 :: PartSize(m, j) != 0 && maxEnd == PartEnd(m, j)
    {
      if PartSize(m, i) != 0 {
        if PartStart(m, i) < minStart {
          minStart := PartStart(m, i);
        }
        if PartEnd(m, i) > maxEnd {
          maxEnd := PartEnd(m, i);
        }
      }
    }
  }

  // ---- the configuration block --------------------------------------------------------------------

  const CONF_SIGN: Bytes := [0x69, 0xA6, 0x34, 0x14, 0x46, 0xDA, 0x69, 0x72]

  /** sizeof(mbr_config), sizeof(ldr_config), and the last version with the short form. */
  const SHORT: nat := 858
  const LONG: nat := 4096
  const BOOT_OLD: nat := 118

  const OPTIONS: nat := 19
  const SAVE_MBR: nat := 278

  /** The packed fields of mbr_config: three words, three bytes, a word, options, a byte, two texts, a sector, ... */
  lemma ConfigLayout()
    ensures OPTIONS == 3 * 4 + 3 * 1 + 4
    ensures SAVE_MBR == OPTIONS + 2 + 1 + 128 + 128
    ensures SHORT == SAVE_MBR + 512 + 4 + 64
    ensures LONG == SHORT + 128 + 128 + 4 + 4 + 2974
  {
  }

  /** The signatures as the numbers of the headers. */
  lemma SignaturesAre()
    ensures Val(NEW_SIGN) == 0x10EB9090 && Val(OLD_SIGN) == 0x20B60251 && Val(MAGIC) == 0xAA55
    ensures Val(CONF_SIGN[..4]) == 0x1434A669 && Val(CONF_SIGN[4..]) == 0x7269DA46
  {
    Val4(NEW_SIGN);
    Val4(OLD_SIGN);
    Val4(CONF_SIGN[..4]);
    Val4(CONF_SIGN[4..]);
    assert MAGIC[1..] == [0xAA] && MAGIC[1..][1..] == [];
    assert Val(MAGIC[1..]) == 0xAA;
  }

  lemma Val4(s: Bytes)
    requires |s| == 4
    ensures Val(s) == (s[0] as int) + 0x100 * (s[1] as int) + 0x1_0000 * (s[2] as int) + 0x100_0000 * (s[3] as int)
  {
    assert s[1..][1..] == s[2..] && s[2..][1..] == s[3..] && s[3..][1..] == [];
    assert Val(s[3..]) == s[3];
    assert Val(s[2..]) == s[2] + 256 * Val(s[3..]);
    assert Val(s[1..]) == s[1] + 256 * Val(s[2..]);
  }

  predicate SignAt(d: Bytes, i: nat) {
    i + 8 <= |d| && d[i..i + 8] == CONF_SIGN
  }

  /** The configuration is where its signature first occurs, with room for the short form and one more byte. */
  ghost predicate ConfAt(d: Bytes, c: nat) {
    c + SHORT < |d| && SignAt(d, c) && forall j | 0 <= j < c :: !SignAt(d, j)
  }

  ghost predicate HasConf(d: Bytes) {
    exists c: nat :: ConfAt(d, c)
  }

  /** dc_find_conf. */
  method FindConf(d: Bytes) returns (found: bool, c: nat)
    ensures found <==> HasConf(d)
    ensures found ==> ConfAt(d, c)
    ensures !found ==> forall j | 0 <= j < |d| - SHORT :: !SignAt(d, j)
  {
    var size, i := |d|, 0;
    while size > SHORT
      invariant 0 <= i && i + size == |d|
      invariant forall j | 0 <= j < i :: !SignAt(d, j)
    {
      if d[i..i + 4] == CONF_SIGN[..4] && d[i + 4..i + 8] == CONF_SIGN[4..] {
        assert d[i..i + 8] == d[i..i + 4] + d[i + 4..i + 8];
        assert ConfAt(d, i);
        return true, i;
      }
      assert !SignAt(d, i) by {
        assert d[i..i + 8][..4] == d[i..i + 4] && d[i..i + 8][4..] == d[i + 4..i + 8];
      }
      size, i := size - 1, i + 1;
    }
    return false, 0;
  }

  /** The search finds one place at most. */
  lemma ConfUnique(d: Bytes, a: nat, b: nat)
    requires ConfAt(d, a) && ConfAt(d, b)
    ensures a == b
  {
  }

  /** Whatever is changed behind the signature, the search ends in the same place. */
  lemma ConfStays(d: Bytes, e: Bytes, c: nat)
    requires ConfAt(d, c) && |e| == |d| && e[..c + 8] == d[..c + 8]
    ensures ConfAt(e, c)
  {
    forall j | 0 <= j <= c ensures SignAt(e, j) == SignAt(d, j) {
      assert e[j..j + 8] == e[..c + 8][j..j + 8] && d[j..j + 8] == d[..c + 8][j..j + 8];
    }
  }

  function Version(d: Bytes, c: nat): nat
    requires c + SHORT < |d|
  {
    Val(d[c + 8..c + 12])
  }

  function ConfSize(d: Bytes, c: nat): nat
    requires c + SHORT < |d|
  {
    if Version(d, c) <= BOOT_OLD then SHORT else LONG
  }

  function SavedMbr(d: Bytes, c: nat): (r: Bytes)
    requires c + SHORT < |d|
    ensures |r| == SECTOR
  {
    d[c + SAVE_MBR..c + SAVE_MBR + SECTOR]
  }
}
