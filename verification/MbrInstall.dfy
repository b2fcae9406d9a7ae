/** Installing, reconfiguring, updating and removing the MBR boot loader. */
module MbrInstall {
  import opened Wrappers
  import opened DiskAccess
  import opened Division
  import opened Mbr

  datatype Status = Ok | IoError | BadSector | Failure | NotMbr | AlreadyInstalled | NotInstalled | NoSpace | NoConf

  // ---- what is on a disk --------------------------------------------------------------------------

  function Head(b: Bytes): (m: Bytes)
    requires |b| >= SECTOR
    ensures |m| == SECTOR
  {
    b[..SECTOR]
  }

  /** The loader the boot record points to lies on the disk, and behind the boot record. */
  predicate OnDisk(b: Bytes)
    requires |b| >= SECTOR
  {
    LoaderOffset(Head(b)) + LoaderSize(Head(b)) <= |b|
  }

  predicate LoaderInside(b: Bytes)
    requires |b| >= SECTOR
  {
    SECTOR <= LoaderOffset(Head(b)) && OnDisk(b)
  }

  function Body(b: Bytes): Bytes
    requires |b| >= SECTOR && OnDisk(b)
  {
    b[LoaderOffset(Head(b))..LoaderOffset(Head(b)) + LoaderSize(Head(b))]
  }

  /** The sectors of the loader can be read and written: what the device moves for it ends on the disk. */
  predicate Readable(b: Bytes, bps: nat)
    requires |b| >= SECTOR && bps > 0
  {
    SpanEnd(bps, LoaderOffset(Head(b)), LoaderSize(Head(b))) <= |b|
  }

  /** A configuration that fits into the loader and holds the boot code of orig. */
  ghost predicate Config(body: Bytes, c: nat, orig: Bytes) {
    && ConfAt(body, c) && c + ConfSize(body, c) <= |body|
    && |orig| == SECTOR && SameCode(SavedMbr(body, c), orig)
  }

  /** Our boot code with a loader that has saved the boot code of orig. */
  ghost predicate Installed(b: Bytes, orig: Bytes, c: nat) {
    && |b| >= SECTOR && Bootable(Head(b)) && Ours(Head(b)) && LoaderInside(b)
    && Config(Body(b), c, orig)
  }

  /** The boot code of orig itself. */
  ghost predicate Original(b: Bytes, orig: Bytes) {
    |b| >= SECTOR && |orig| == SECTOR && SameCode(Head(b), orig)
  }

  /** The boot code of orig is in place or saved: it can be had back. */
  ghost predicate Keeps(b: Bytes, orig: Bytes) {
    && |b| >= SECTOR && |orig| == SECTOR && !Ours(orig)
    && (Original(b, orig) || exists c :: Installed(b, orig, c))
  }

  // ---- the loader image ---------------------------------------------------------------------------

  const SMALL_BOOT: nat := 0x20

  function OrFlag(options: nat, flag: nat): nat
    requires flag > 0
  {
    if (options / flag) % 2 == 1 then options else options + flag
  }

  /** The loader with its options and the saved boot record filled in. */
  function Prepared(body: Bytes, c: nat, small: bool, record: Bytes): (r: Bytes)
    requires c + SHORT < |body| && |record| == SECTOR
    ensures |r| == |body|
  {
    var flagged :=
      if small then Patched(body, c + OPTIONS, Le(OrFlag(Val(body[c + OPTIONS..c + OPTIONS + 2]), SMALL_BOOT), 2))
      else body;
    Patched(flagged, c + SAVE_MBR, record)
  }

  /** The loader with a new configuration; version, saved boot record and signature stay what they are. */
  function Reconfigured(body: Bytes, c: nat, conf: Bytes): (r: Bytes)
    requires c + SHORT < |body| && c + ConfSize(body, c) <= |body| && |conf| == LONG
    ensures |r| == |body|
  {
    var copied := Patched(body, c, conf[..ConfSize(body, c)]);
    var versioned := Patched(copied, c + 8, body[c + 8..c + 12]);
    var saved := Patched(versioned, c + SAVE_MBR, SavedMbr(body, c));
    Patched(saved, c, CONF_SIGN)
  }

  lemma PatchedElsewhere(s: Bytes, offset: nat, data: Bytes, i: nat, j: nat)
    requires offset + |data| <= |s| && i <= j <= |s| && (j <= offset || offset + |data| <= i)
    ensures Patched(s, offset, data)[i..j] == s[i..j]
  {
  }

  lemma PatchedHere(s: Bytes, offset: nat, data: Bytes)
    requires offset + |data| <= |s|
    ensures Patched(s, offset, data)[offset..offset + |data|] == data
  {
  }

  /**
   The prepared loader is the image but for the saved boot record and, in a small one, the flag: no other option and no
   other byte changes.
   */
  lemma PreparedBytes(body: Bytes, c: nat, small: bool, record: Bytes)
    requires c + SHORT < |body| && |record| == SECTOR
    ensures var r := Prepared(body, c, small, record);
            && SavedMbr(r, c) == record
            && (forall k: nat | k < |body| && !(c + SAVE_MBR <= k < c + SAVE_MBR + SECTOR)
                               && !(c + OPTIONS <= k < c + OPTIONS + 2) :: r[k] == body[k])
            && var x, y := Val(body[c + OPTIONS..c + OPTIONS + 2]), Val(r[c + OPTIONS..c + OPTIONS + 2]);
               y % 0x20 == x % 0x20 && y / 0x40 == x / 0x40 && y / 0x20 % 2 == if small then 1 else x / 0x20 % 2
  {
    var x := Val(body[c + OPTIONS..c + OPTIONS + 2]);
    var options := Le(OrFlag(x, SMALL_BOOT), 2);
    var flagged := if small then Patched(body, c + OPTIONS, options) else body;
    PatchedHere(flagged, c + SAVE_MBR, record);
    PatchedElsewhere(flagged, c + SAVE_MBR, record, c + OPTIONS, c + OPTIONS + 2);
    if small {
      PatchedHere(body, c + OPTIONS, options);
      FlagFits(body[c + OPTIONS..c + OPTIONS + 2]);
    }
    forall k: nat | k < |body| && !(c + SAVE_MBR <= k < c + SAVE_MBR + SECTOR) && !(c + OPTIONS <= k < c + OPTIONS + 2)
      ensures Prepared(body, c, small, record)[k] == body[k]
    {
      assert Prepared(body, c, small, record)[k] == flagged[k];
    }
  }

  /** The flag is set in its place of sixteen bits. */
  lemma FlagFits(s: Bytes)
    requires |s| == 2
    ensures var x, y := Val(s), Val(Le(OrFlag(Val(s), SMALL_BOOT), 2));
            y % 0x20 == x % 0x20 && y / 0x40 == x / 0x40 && y / 0x20 % 2 == 1
  {
    ValBound(s);
    Bounds();
    FlagSet(Val(s));
    ValOfLe(OrFlag(Val(s), SMALL_BOOT), 2);
  }

  lemma FlagSet(x: nat)
    requires x < 0x1_0000
    ensures var y := OrFlag(x, SMALL_BOOT);
            y < 0x1_0000 && y % 0x20 == x % 0x20 && y / 0x40 == x / 0x40 && y / 0x20 % 2 == 1
  {
    var a, b, c := x / 0x20 / 2, x / 0x20 % 2, x % 0x20;
    var y := 0x40 * a + 0x20 + c;
    assert x == 0x40 * a + 0x20 * b + c && y == OrFlag(x, SMALL_BOOT);
    Quotient(x, 0x40, a, 0x20 * b + c);
    Quotient(y, 0x40, a, 0x20 + c);
    Quotient(y, 0x20, 2 * a + 1, c);
    Quotient(2 * a + 1, 2, a, 1);
  }

  lemma PreparedConfig(body: Bytes, c: nat, small: bool, record: Bytes)
    requires ConfAt(body, c) && c + ConfSize(body, c) <= |body| && |record| == SECTOR
    ensures Config(Prepared(body, c, small, record), c, record)
  {
    var options := Le(OrFlag(Val(body[c + OPTIONS..c + OPTIONS + 2]), SMALL_BOOT), 2);
    var flagged := if small then Patched(body, c + OPTIONS, options) else body;
    assert flagged[..c + 12] == body[..c + 12];
    var r := Prepared(body, c, small, record);
    assert r[..c + 12] == flagged[..c + 12];
    assert r[..c + 8] == r[..c + 12][..c + 8] && body[..c + 8] == body[..c + 12][..c + 8];
    assert r[c + 8..c + 12] == r[..c + 12][c + 8..] && body[c + 8..c + 12] == body[..c + 12][c + 8..];
    ConfStays(body, r, c);
    PatchedHere(flagged, c + SAVE_MBR, record);
  }

  /** Reconfiguring keeps the place of the configuration, the saved boot record and all bytes before it. */
  lemma ReconfiguredConfig(body: Bytes, c: nat, conf: Bytes, orig: Bytes)
    requires Config(body, c, orig) && |conf| == LONG
    ensures Config(Reconfigured(body, c, conf), c, orig)
    ensures SavedMbr(Reconfigured(body, c, conf), c) == SavedMbr(body, c)
  {
    var copied := Patched(body, c, conf[..ConfSize(body, c)]);
    var versioned := Patched(copied, c + 8, body[c + 8..c + 12]);
    var saved := Patched(versioned, c + SAVE_MBR, SavedMbr(body, c));
    var r := Reconfigured(body, c, conf);
    PatchedHere(copied, c + 8, body[c + 8..c + 12]);
    PatchedElsewhere(versioned, c + SAVE_MBR, SavedMbr(body, c), c + 8, c + 12);
    PatchedElsewhere(saved, c, CONF_SIGN, c + 8, c + 12);
    PatchedHere(versioned, c + SAVE_MBR, SavedMbr(body, c));
    PatchedElsewhere(saved, c, CONF_SIGN, c + SAVE_MBR, c + SAVE_MBR + SECTOR);
    PatchedHere(saved, c, CONF_SIGN);
    PatchedElsewhere(body, c, conf[..ConfSize(body, c)], 0, c);
    PatchedElsewhere(copied, c + 8, body[c + 8..c + 12], 0, c);
    PatchedElsewhere(versioned, c + SAVE_MBR, SavedMbr(body, c), 0, c);
    PatchedElsewhere(saved, c, CONF_SIGN, 0, c);
    assert r[..c + 8] == r[0..c] + r[c..c + 8] == body[0..c] + body[c..c + 8] == body[..c + 8];
    ConfStays(body, r, c);
  }

  /** Byte k of a configuration is one of its settings: not signature, version or saved boot record. */
  predicate IsSetting(k: nat) {
    12 <= k < SAVE_MBR || SAVE_MBR + SECTOR <= k
  }

  /** Every setting of a configuration of n bytes arrives, and no byte of the loader outside it changes. */
  lemma ReconfiguredArrives(body: Bytes, c: nat, conf: Bytes)
    requires c + SHORT < |body| && c + ConfSize(body, c) <= |body| && |conf| == LONG
    ensures var r, n := Reconfigured(body, c, conf), ConfSize(body, c);
            && (forall k: nat | k < n && IsSetting(k) :: r[c + k] == conf[k])
            && (forall k: nat | k < |body| && !(c <= k < c + n) :: r[k] == body[k])
            && r[c..c + 8] == CONF_SIGN && r[c + 8..c + 12] == body[c + 8..c + 12] && ConfSize(r, c) == n
            && SavedMbr(r, c) == SavedMbr(body, c)
  {
    var n := ConfSize(body, c);
    var copied := Patched(body, c, conf[..n]);
    var versioned := Patched(copied, c + 8, body[c + 8..c + 12]);
    var saved := Patched(versioned, c + SAVE_MBR, SavedMbr(body, c));
    var r := Reconfigured(body, c, conf);
    forall k: nat | k < n && IsSetting(k) ensures r[c + k] == conf[k] {
      assert r[c + k] == saved[c + k] == versioned[c + k] == copied[c + k];
    }
    forall k: nat | k < |body| && !(c <= k < c + n) ensures r[k] == body[k] {
      assert r[k] == saved[k] == versioned[k] == copied[k];
    }
    PatchedHere(saved, c, CONF_SIGN);
    PatchedHere(copied, c + 8, body[c + 8..c + 12]);
    PatchedElsewhere(versioned, c + SAVE_MBR, SavedMbr(body, c), c + 8, c + 12);
    PatchedElsewhere(saved, c, CONF_SIGN, c + 8, c + 12);
    PatchedHere(versioned, c + SAVE_MBR, SavedMbr(body, c));
    PatchedElsewhere(saved, c, CONF_SIGN, c + SAVE_MBR, c + SAVE_MBR + SECTOR);
  }

  // ---- what the operations do to a disk -----------------------------------------------------------

  predicate InLoader(b: Bytes, k: nat)
    requires |b| >= SECTOR
  {
    LoaderOffset(Head(b)) <= k < LoaderOffset(Head(b)) + LoaderSize(Head(b))
  }

  /** The loader ends before every partition in use, or begins behind its end, as 32 bits give it. */
  ghost predicate ClearOfPartitions(b: Bytes, bps: nat)
    requires |b| >= SECTOR
  {
    var m := Head(b);
    forall i | 0 <= i < 4 && PartSize(m, i) != 0 ::
      LoaderOffset(m) + LoaderSize(m) <= bps * PartStart(m, i) || bps * PartEnd(m, i) <= LoaderOffset(m)
  }

  /** An installation: the boot code of b is saved, its partition data stays, nothing else is touched. */
  ghost predicate Placed(b: Bytes, b': Bytes, bps: nat) {
    && |b'| == |b| >= SECTOR && Bootable(Head(b)) && !Ours(Head(b)) && bps > 0 && Readable(b', bps)
    && (exists c :: Installed(b', Head(b), c))
    && b'[440..510] == b[440..510]
    && (forall k | SECTOR <= k < |b| && !InLoader(b', k) :: b'[k] == b[k])
    && ClearOfPartitions(b', bps)
  }

  /** A new configuration in the loader that is there. */
  ghost predicate ConfigWritten(b: Bytes, b': Bytes, conf: Bytes) {
    && |b'| == |b| >= SECTOR && Ours(Head(b)) && OnDisk(b)
    && exists c :: SetConf(b, b', c, conf)
  }

  ghost predicate ConfigChanged(b: Bytes, b': Bytes) {
    exists conf :: ConfigWritten(b, b', conf)
  }

  /** The configuration in the loader, with zeros behind a short one. */
  ghost predicate ConfigRead(b: Bytes, conf: Bytes) {
    && |b| >= SECTOR && Ours(Head(b)) && OnDisk(b) && |conf| == LONG
    && exists c: nat | ConfAt(Body(b), c) ::
         && c + ConfSize(Body(b), c) <= |Body(b)|
         && conf == Body(b)[c..c + ConfSize(Body(b), c)] + seq(LONG - ConfSize(Body(b), c), _ => 0)
  }

  ghost predicate SetConf(b: Bytes, b': Bytes, c: nat, conf: Bytes)
    requires |b| >= SECTOR && OnDisk(b)
  {
    && ConfAt(Body(b), c) && c + ConfSize(Body(b), c) <= |Body(b)| && |conf| == LONG
    && b' == Patched(b, LoaderOffset(Head(b)), Reconfigured(Body(b), c, conf))
  }

  /** Whoever reads the configuration from b finds the settings of conf, as far as the loader's form has them. */
  ghost predicate Settled(b: Bytes, conf: Bytes) {
    && |b| >= SECTOR && OnDisk(b) && |conf| == LONG
    && forall got, c: nat | ConfigRead(b, got) && ConfAt(Body(b), c) ::
         forall k: nat | k < ConfSize(Body(b), c) && IsSetting(k) :: got[k] == conf[k]
  }

  /**
   Reading after writing: the settings written are the settings read, and nothing changes on the disk outside the
   configuration.
   */
  lemma WrittenIsRead(b: Bytes, b': Bytes, c: nat, conf: Bytes)
    requires |b| >= SECTOR && LoaderInside(b) && Ours(Head(b)) && SetConf(b, b', c, conf)
    ensures |b'| == |b| && Head(b') == Head(b) && ConfAt(Body(b'), c)
    ensures Settled(b', conf)
    ensures var at := LoaderOffset(Head(b)) + c;
            forall k: nat | k < |b| && !(at <= k < at + ConfSize(Body(b), c)) :: b'[k] == b[k]
  {
    var off, body := LoaderOffset(Head(b)), Reconfigured(Body(b), c, conf);
    PatchedElsewhere(b, off, body, 0, SECTOR);
    assert Head(b') == b'[0..SECTOR] == b[0..SECTOR] == Head(b);
    PatchedHere(b, off, body);
    assert Body(b') == body;
    ReconfiguredArrives(Body(b), c, conf);
    ConfStaysAt(Body(b), body, c);
    OutsideConfig(b, off, Body(b), body, c, ConfSize(Body(b), c));
    forall got, e: nat | ConfigRead(b', got) && ConfAt(Body(b'), e)
      ensures forall k: nat | k < ConfSize(Body(b'), e) && IsSetting(k) :: got[k] == conf[k]
    {
      ReadSettings(b', got, c);
      ConfUnique(body, c, e);
    }
  }

  lemma OutsideConfig(b: Bytes, off: nat, was: Bytes, body: Bytes, c: nat, n: nat)
    requires off + |body| <= |b| && was == b[off..off + |body|] && c + n <= |body|
    requires forall k: nat | k < |body| && !(c <= k < c + n) :: body[k] == was[k]
    ensures forall k: nat | k < |b| && !(off + c <= k < off + c + n) :: Patched(b, off, body)[k] == b[k]
  {
    forall k: nat | k < |b| && !(off + c <= k < off + c + n) ensures Patched(b, off, body)[k] == b[k] {
      if off <= k < off + |body| {
        assert Patched(b, off, body)[k] == body[k - off] == was[k - off];
      }
    }
  }

  /** What is read is what is in the loader. */
  lemma ReadSettings(b: Bytes, got: Bytes, c: nat)
    requires ConfigRead(b, got) && ConfAt(Body(b), c)
    ensures c + ConfSize(Body(b), c) <= |Body(b)| && |got| == LONG
    ensures forall k: nat | k < ConfSize(Body(b), c) :: got[k] == Body(b)[c + k]
  {
    var e: nat :| ConfAt(Body(b), e)
      && e + ConfSize(Body(b), e) <= |Body(b)|
      && got == Body(b)[e..e + ConfSize(Body(b), e)] + seq(LONG - ConfSize(Body(b), e), _ => 0);
    ConfUnique(Body(b), c, e);
  }

  lemma ConfStaysAt(d: Bytes, e: Bytes, c: nat)
    requires ConfAt(d, c) && |e| == |d| && e[c..c + 8] == CONF_SIGN && forall k: nat | k < c :: e[k] == d[k]
    ensures ConfAt(e, c)
  {
    assert e[..c + 8] == e[..c] + e[c..c + 8] && d[..c + 8] == d[..c] + d[c..c + 8];
    ConfStays(d, e, c);
  }

  /** A removal: the saved boot code with the present partition data, and nothing changed outside the loader. */
  ghost predicate Removed(b: Bytes, b': Bytes, c: nat) {
    && |b'| == |b| >= SECTOR && Ours(Head(b)) && OnDisk(b) && ConfAt(Body(b), c)
    && Head(b') == Merged(SavedMbr(Body(b), c), Head(b))
    && forall k | SECTOR <= k < |b| && !InLoader(b, k) :: b'[k] == b[k]
  }

  /** Somebody else edits the disk: not our boot code, not the magic, not the loader. */
  ghost predicate EditedElsewhere(b: Bytes, b': Bytes) {
    && |b'| == |b| >= SECTOR && SameCode(Head(b'), Head(b))
    && (Ours(Head(b)) ==> forall k | SECTOR <= k < |b| && InLoader(b, k) :: b'[k] == b[k])
  }

  // ---- none of them loses the boot code -----------------------------------------------------------

  lemma PlacedKeeps(b: Bytes, b': Bytes, bps: nat, orig: Bytes)
    requires Keeps(b, orig) && Placed(b, b', bps)
    ensures Keeps(b', orig) && exists c :: Installed(b', orig, c)
  {
    var c :| Installed(b', Head(b), c);
    assert Installed(b', orig, c);
  }

  lemma ConfigChangedKeeps(b: Bytes, b': Bytes, orig: Bytes, c: nat)
    requires Installed(b, orig, c) && ConfigChanged(b, b')
    ensures Installed(b', orig, c) && Head(b') == Head(b)
    ensures SavedMbr(Body(b'), c) == SavedMbr(Body(b), c)
  {
    var conf :| ConfigWritten(b, b', conf);
    var d :| SetConf(b, b', d, conf);
    ConfUnique(Body(b), c, d);
    var off, body := LoaderOffset(Head(b)), Reconfigured(Body(b), c, conf);
    PatchedElsewhere(b, off, body, 0, SECTOR);
    assert Head(b') == b'[0..SECTOR] == b[0..SECTOR] == Head(b);
    PatchedHere(b, off, body);
    assert Body(b') == body;
    ReconfiguredConfig(Body(b), c, conf, orig);
  }

  /** Removing the loader gives the boot code back, together with the partition data the disk has now. */
  lemma RemovedRestores(b: Bytes, b': Bytes, orig: Bytes, c: nat, d: nat)
    requires Installed(b, orig, c) && Removed(b, b', d)
    ensures Head(b') == Merged(orig, Head(b)) && Original(b', orig)
  {
    ConfUnique(Body(b), c, d);
  }

  lemma EditedKeeps(b: Bytes, b': Bytes, orig: Bytes)
    requires Keeps(b, orig) && EditedElsewhere(b, b')
    ensures Keeps(b', orig)
  {
    SameCodeSameHead(Head(b'), Head(b));
    if !Original(b, orig) {
      var c :| Installed(b, orig, c);
      EditedInstalled(b, b', orig, c);
    }
  }

  lemma EditedInstalled(b: Bytes, b': Bytes, orig: Bytes, c: nat)
    requires Installed(b, orig, c) && EditedElsewhere(b, b')
    ensures Installed(b', orig, c) && Body(b') == Body(b)
  {
    SameCodeSameHead(Head(b'), Head(b));
    var off, n := LoaderOffset(Head(b)), LoaderSize(Head(b));
    forall k | off <= k < off + n ensures b'[k] == b[k] {
      assert InLoader(b, k);
    }
    assert Body(b') == Body(b);
  }

  // ---- every run ----------------------------------------------------------------------------------

  ghost predicate Step(b: Bytes, b': Bytes, bps: nat) {
    b' == b || Placed(b, b', bps) || ConfigChanged(b, b') || (exists c :: Removed(b, b', c)) || EditedElsewhere(b, b')
  }

  /** The states of a disk under any mix of our operations and edits by others. */
  ghost predicate Run(states: seq<Bytes>, bps: nat) {
    states != [] && forall i | 0 <= i < |states| - 1 :: Step(states[i], states[i + 1], bps)
  }

  lemma StepKeeps(b: Bytes, b': Bytes, bps: nat, orig: Bytes)
    requires Keeps(b, orig) && Step(b, b', bps)
    ensures Keeps(b', orig)
  {
    if b' == b {
    } else if Placed(b, b', bps) {
      PlacedKeeps(b, b', bps, orig);
    } else if EditedElsewhere(b, b') {
      EditedKeeps(b, b', orig);
    } else {
      SignedIsInstalled(b, orig);
      var c :| Installed(b, orig, c);
      if ConfigChanged(b, b') {
        ConfigChangedKeeps(b, b', orig, c);
      } else {
        var d :| Removed(b, b', d);
        RemovedRestores(b, b', orig, c, d);
      }
    }
  }

  /** On a disk that keeps a foreign boot code, our signature means a complete installation. */
  lemma SignedIsInstalled(b: Bytes, orig: Bytes)
    requires Keeps(b, orig) && Ours(Head(b))
    ensures exists c :: Installed(b, orig, c)
  {
    if Original(b, orig) {
      SameCodeSameHead(Head(b), orig);
    }
  }

  lemma {:induction false} RunKeeps(states: seq<Bytes>, bps: nat, orig: Bytes)
    requires Run(states, bps) && Keeps(states[0], orig)
    ensures Keeps(states[|states| - 1], orig)
  {
    if |states| > 1 {
      var before := states[..|states| - 1];
      RunKeeps(before, bps, orig);
      StepKeeps(states[|states| - 2], states[|states| - 1], bps, orig);
    }
  }

  // ---- when they succeed --------------------------------------------------------------------------

  /** How reading or writing the configuration ends, and when it succeeds. */
  ghost function ConfigStatus(b: Bytes, bps: nat): Status
    requires |b| >= SECTOR && bps > 0
  {
    if !Bootable(Head(b)) then NotMbr
    else if !Ours(Head(b)) then NotInstalled
    else if !Readable(b, bps) then IoError
    else if HasConf(Body(b)) then Ok else NoConf
  }

  /** A removal ends the same way, but for the stock boot record that makes up for a missing configuration. */
  ghost function RemovalStatus(b: Bytes, bps: nat, back: Option<Bytes>): Status
    requires |b| >= SECTOR && bps > 0
  {
    if ConfigStatus(b, bps) == NoConf && back.Some? then Ok else ConfigStatus(b, bps)
  }

  /** A loader on a disk of whole sectors is readable exactly if it is made of them or ends before the disk does. */
  lemma ReadableIff(b: Bytes, bps: nat)
    requires |b| >= SECTOR && bps > 0 && |b| % bps == 0
    ensures var off, n := LoaderOffset(Head(b)), LoaderSize(Head(b));
            Readable(b, bps) <==> OnDisk(b) && (off + n < |b| || (off % bps == 0 && n % bps == 0))
  {
    if OnDisk(b) {
      ServedIff(bps, |b|, LoaderOffset(Head(b)), LoaderSize(Head(b)));
    }
  }

  /** Keeps, and with our boot code in place the loader can be read. */
  ghost predicate Removable(b: Bytes, bps: nat, orig: Bytes) {
    bps > 0 && Keeps(b, orig) && (Ours(Head(b)) ==> Readable(b, bps))
  }

  lemma StepRemovable(b: Bytes, b': Bytes, bps: nat, orig: Bytes)
    requires Removable(b, bps, orig) && Step(b, b', bps)
    ensures Removable(b', bps, orig)
  {
    StepKeeps(b, b', bps, orig);
    if b' == b || Placed(b, b', bps) {
    } else if EditedElsewhere(b, b') {
      SameCodeSameHead(Head(b'), Head(b));
    } else {
      SignedIsInstalled(b, orig);
      var c :| Installed(b, orig, c);
      if ConfigChanged(b, b') {
        ConfigChangedKeeps(b, b', orig, c);
      } else {
        var d :| Removed(b, b', d);
        RemovedRestores(b, b', orig, c, d);
        SameCodeSameHead(Head(b'), orig);
      }
    }
  }

  lemma {:induction false} RunRemovable(states: seq<Bytes>, bps: nat, orig: Bytes)
    requires Run(states, bps) && Removable(states[0], bps, orig)
    ensures Removable(states[|states| - 1], bps, orig)
  {
    if |states| > 1 {
      RunRemovable(states[..|states| - 1], bps, orig);
      StepRemovable(states[|states| - 2], states[|states| - 1], bps, orig);
    }
  }

  /** On a disk with a complete and readable installation every operation on it succeeds. */
  lemma InstalledSucceeds(b: Bytes, bps: nat, orig: Bytes, c: nat)
    requires Installed(b, orig, c) && bps > 0 && Readable(b, bps)
    ensures ConfigStatus(b, bps) == Ok && forall back :: RemovalStatus(b, bps, back) == Ok
  {
  }

  /** A removal of a complete installation restores the saved boot code, whatever the stock boot record. */
  lemma UninstalledRestores(b: Bytes, b': Bytes, orig: Bytes, c: nat, back: Option<Bytes>)
    requires Installed(b, orig, c) && Uninstalled(b, b', back)
    ensures Head(b') == Merged(orig, Head(b)) && exists e: nat :: Removed(b, b', e)
  {
    var e: nat :| Removed(b, b', e);
    RemovedRestores(b, b', orig, c, e);
  }

  /**
   After any run of installing, reconfiguring, updating, removing and editing elsewhere that leaves our boot code in
   place, removing the loader succeeds and restores the boot code the disk had at first, with the partition data it has
   at last.
   */
  lemma RemovalRestores(states: seq<Bytes>, bps: nat, orig: Bytes, back: Option<Bytes>)
    requires Run(states, bps) && Removable(states[0], bps, orig)
    requires |states[|states| - 1]| >= SECTOR && Ours(Head(states[|states| - 1]))
    ensures RemovalStatus(states[|states| - 1], bps, back) == Ok
    ensures forall after | Uninstalled(states[|states| - 1], after, back) ::
              Head(after) == Merged(orig, Head(states[|states| - 1]))
  {
    var b := states[|states| - 1];
    RunRemovable(states, bps, orig);
    SignedIsInstalled(b, orig);
    var c :| Installed(b, orig, c);
    InstalledSucceeds(b, bps, orig, c);
    forall after | Uninstalled(b, after, back) ensures Head(after) == Merged(orig, Head(b)) {
      UninstalledRestores(b, after, orig, c, back);
    }
  }

  // ---- the code -----------------------------------------------------------------------------------

  /** A disk of whole sectors, each a multiple of 512 bytes, with offsets that fit into 64 bits. */
  ghost predicate Usable(d: Device) {
    && d.Valid() && d.bps % SECTOR == 0 && d.bytes.Length % d.bps == 0
    && d.bps <= d.bytes.Length <= 0xFFFF_FFFF_FFFF_FFFF
  }

  lemma HeadReachable(d: Device)
    requires Usable(d)
    ensures SpanEnd(d.bps, 0, SECTOR) <= d.bytes.Length && d.bytes.Length >= SECTOR
  {
    assert SECTOR <= d.bps;
    Quotient(0, d.bps, 0, 0);
    if SECTOR < d.bps {
      Quotient(SECTOR, d.bps, 0, SECTOR);
    } else {
      Quotient(SECTOR, d.bps, 1, 0);
    }
  }

  method ReadHead(d: Device) returns (m: Bytes)
    requires Usable(d)
    ensures d.bytes.Length >= SECTOR && m == Head(d.Contents())
  {
    HeadReachable(d);
    var ok;
    ok, m := d.Read(SECTOR, 0);
  }

  method WriteHead(d: Device, record: Bytes)
    requires Usable(d) && |record| == SECTOR
    modifies d.bytes
    ensures d.bytes.Length >= SECTOR && d.Contents() == Patched(old(d.Contents()), 0, record)
  {
    HeadReachable(d);
    var ok := d.Write(record, 0);
    assert ok;
  }

  method ReadAt(d: Device, size: nat, offset: nat) returns (ok: bool, data: Bytes)
    requires Usable(d)
    ensures ok <==> SpanEnd(d.bps, offset, size) <= d.bytes.Length
    ensures ok ==> data == d.Contents()[offset..offset + size]
  {
    ok, data := d.Read(size, offset);
  }

  method WriteAt(d: Device, data: Bytes, offset: nat) returns (ok: bool)
    requires Usable(d)
    modifies d.bytes
    ensures ok <==> SpanEnd(d.bps, offset, |data|) <= d.bytes.Length
    ensures ok ==> d.Contents() == Patched(old(d.Contents()), offset, data)
    ensures !ok ==> d.Contents() == old(d.Contents())
  {
    ok := d.Write(data, offset);
  }

  /** get_ldr_body_ptr. */
  method LoaderPointer(d: Device) returns (r: Status, m: Bytes, start: nat, size: nat)
    requires Usable(d)
    ensures d.bytes.Length >= SECTOR && m == Head(d.Contents())
    ensures r == if !Bootable(m) then NotMbr else if !Ours(m) then NotInstalled else Ok
    ensures start == LoaderOffset(m) && size == LoaderSize(m)
  {
    m := ReadHead(d);
    start, size := SECTOR * Val(m[14..22]) % WRAP, SECTOR * Val(m[8..10]);
    if m[510..] != MAGIC {
      return NotMbr, m, start, size;
    }
    if m[2..6] != NEW_SIGN && m[2..6] != OLD_SIGN {
      return NotInstalled, m, start, size;
    }
    return Ok, m, start, size;
  }

  /** A configuration found in the loader lies inside it: what the copies of dc_set_mbr_config_i rely on. */
  ghost predicate ConfigFits(b: Bytes) {
    |b| >= SECTOR && Ours(Head(b)) && OnDisk(b) ==>
      forall c: nat :: ConfAt(Body(b), c) ==> c + ConfSize(Body(b), c) <= |Body(b)|
  }

  lemma KeepsFits(b: Bytes, orig: Bytes)
    requires Keeps(b, orig)
    ensures ConfigFits(b)
  {
    if Ours(Head(b)) {
      SignedIsInstalled(b, orig);
      var c :| Installed(b, orig, c);
      forall e: nat | ConfAt(Body(b), e) ensures e + ConfSize(Body(b), e) <= |Body(b)| {
        ConfUnique(Body(b), c, e);
      }
    }
  }

  /** dc_get_mbr_config from a disk. */
  method GetConfig(d: Device) returns (r: Status, conf: Bytes)
    requires Usable(d) && ConfigFits(d.Contents())
    ensures d.bytes.Length >= SECTOR && r == ConfigStatus(d.Contents(), d.bps)
    ensures r == Ok ==> ConfigRead(d.Contents(), conf)
  {
    var m, start, size;
    r, m, start, size := LoaderPointer(d);
    if r != Ok {
      return r, [];
    }
    var ok, data := ReadAt(d, size, start);
    if !ok {
      return IoError, [];
    }
    assert data == Body(d.Contents());
    var found, c := FindConf(data);
    if !found {
      return NoConf, [];
    }
    var n := ConfSize(data, c);
    conf := data[c..c + n] + seq(LONG - n, _ => 0);
  }

  /** dc_set_mbr_config_i on a disk. */
  method SetConfig(d: Device, conf: Bytes) returns (r: Status)
    requires Usable(d) && ConfigFits(d.Contents()) && |conf| == LONG
    modifies d.bytes
    ensures d.bytes.Length >= SECTOR && r == ConfigStatus(old(d.Contents()), d.bps)
    ensures r == Ok ==> ConfigWritten(old(d.Contents()), d.Contents(), conf)
    ensures r == Ok && LoaderInside(old(d.Contents())) ==> Settled(d.Contents(), conf)
    ensures r != Ok ==> d.Contents() == old(d.Contents())
  {
    ghost var b := d.Contents();
    var m, start, size;
    r, m, start, size := LoaderPointer(d);
    if r != Ok {
      return;
    }
    var ok, data := ReadAt(d, size, start);
    if !ok {
      return IoError;
    }
    assert data == Body(b);
    var found, c := FindConf(data);
    if !found {
      return NoConf;
    }
    data := Reconfigured(data, c, conf);
    ok := WriteAt(d, data, start);
    if !ok {
      assert false;
      return IoError;
    }
    assert SetConf(b, d.Contents(), c, conf);
    if LoaderInside(b) {
      WrittenIsRead(b, d.Contents(), c, conf);
    }
  }

  function Blank(n: nat): (z: Bytes)
    ensures |z| == n
  {
    seq(n, _ => 0)
  }

  /** The disk after k passes of the zeroing loop. */
  function Zeroed(b: Bytes, start: nat, k: nat): (r: Bytes)
    requires start + SECTOR * k <= |b|
    ensures |r| == |b|
  {
    Patched(b, start, Blank(SECTOR * k))
  }

  lemma ZeroedMore(b: Bytes, start: nat, k: nat)
    requires start + SECTOR * (k + 1) <= |b|
    ensures Patched(Zeroed(b, start, k), start + SECTOR * k, Blank(SECTOR)) == Zeroed(b, start, k + 1)
  {
  }

  /** One sector of the zeroing loop; without a sector of room behind it the write may be refused. */
  method ZeroOne(d: Device, offs: nat)
    requires Usable(d)
    modifies d.bytes
    ensures offs + SECTOR + d.bps <= d.bytes.Length ==> d.Contents() == Patched(old(d.Contents()), offs, Blank(SECTOR))
    ensures || d.Contents() == old(d.Contents())
            || (offs + SECTOR <= d.bytes.Length && d.Contents() == Patched(old(d.Contents()), offs, Blank(SECTOR)))
  {
    SpanBounds(d.bps, offs, SECTOR);
    var _ := d.Write(Blank(SECTOR), offs);
  }

  /** The zeroing loop of dc_unset_mbr_i; it does not look at the results of its writes. */
  method ZeroSectors(d: Device, start: nat, count: nat) returns (ghost trace: seq<Bytes>)
    requires Usable(d)
    modifies d.bytes
    ensures |trace| == count + 1 && trace[0] == old(d.Contents()) && trace[count] == d.Contents()
    ensures forall k | 0 <= k < d.bytes.Length && !(start <= k < start + SECTOR * count) ::
              d.bytes[k] == old(d.bytes[k])
    ensures start + SECTOR * count + d.bps <= d.bytes.Length ==>
              forall i | 0 <= i <= count :: trace[i] == Zeroed(old(d.Contents()), start, i)
  {
    ghost var b, all := d.Contents(), start + SECTOR * count + d.bps <= d.bytes.Length;
    trace := [b];
    SoFarStart(b, start, all);
    for i := 0 to count
      invariant SoFar(b, trace, start, i, all) && trace[i] == d.Contents()
    {
      ZeroOne(d, start + SECTOR * i);
      SoFarMore(b, trace, start, i, all, d.Contents());
      trace := trace + [d.Contents()];
    }
  }

  /** The states of the zeroing loop up to pass i; all says that no write is refused. */
  ghost predicate SoFar(b: Bytes, trace: seq<Bytes>, start: nat, i: nat, all: bool) {
    && |trace| == i + 1 && trace[0] == b && |trace[i]| == |b|
    && (forall k | 0 <= k < |b| && !(start <= k < start + SECTOR * i) :: trace[i][k] == b[k])
    && (all ==> start + SECTOR * i <= |b| && forall n | 0 <= n <= i :: trace[n] == Zeroed(b, start, n))
  }

  lemma SoFarStart(b: Bytes, start: nat, all: bool)
    requires all ==> start <= |b|
    ensures SoFar(b, [b], start, 0, all)
  {
    if all {
      assert Zeroed(b, start, 0) == b;
    }
  }

  lemma SoFarMore(b: Bytes, trace: seq<Bytes>, start: nat, i: nat, all: bool, b': Bytes)
    requires SoFar(b, trace, start, i, all)
    requires || b' == trace[i]
             || (start + SECTOR * i + SECTOR <= |b| && b' == Patched(trace[i], start + SECTOR * i, Blank(SECTOR)))
    requires all ==> start + SECTOR * (i + 1) <= |b| && b' == Patched(trace[i], start + SECTOR * i, Blank(SECTOR))
    ensures SoFar(b, trace + [b'], start, i + 1, all)
  {
    var longer := trace + [b'];
    assert forall n | 0 <= n <= i :: longer[n] == trace[n];
    assert longer[i + 1] == b';
    if all {
      ZeroedMore(b, start, i);
      assert b' == Zeroed(b, start, i + 1);
    }
    forall k | 0 <= k < |b| && !(start <= k < start + SECTOR * (i + 1)) ensures b'[k] == b[k] {
      assert !(start <= k < start + SECTOR * i) && trace[i][k] == b[k];
    }
  }

  /** The saved boot record is put back, or the stock one if the loader has no configuration. */
  ghost predicate Uninstalled(b: Bytes, b': Bytes, back: Option<Bytes>) {
    && |b'| == |b| >= SECTOR && Ours(Head(b)) && OnDisk(b)
    && (|| (exists c: nat :: Removed(b, b', c))
        || (&& back.Some? && |back.value| == SECTOR && !HasConf(Body(b))
            && Head(b') == Merged(back.value, Head(b))))
  }

  /** The loader zeroed and a boot record written; the trace has the disk after every write. */
  method Overwrite(d: Device, start: nat, count: nat, record: Bytes) returns (ghost trace: seq<Bytes>)
    requires Usable(d) && |record| == SECTOR
    modifies d.bytes
    ensures d.bytes.Length >= SECTOR && Head(d.Contents()) == record
    ensures forall k | SECTOR <= k < d.bytes.Length && !(start <= k < start + SECTOR * count) ::
              d.bytes[k] == old(d.bytes[k])
    ensures |trace| == count + 2 && trace[0] == old(d.Contents()) && trace[count + 1] == d.Contents()
    ensures start + SECTOR * count + d.bps <= d.bytes.Length ==>
              && (forall i | 0 <= i <= count :: trace[i] == Zeroed(old(d.Contents()), start, i))
              && d.Contents() == Patched(Zeroed(old(d.Contents()), start, count), 0, record)
  {
    trace := ZeroSectors(d, start, count);
    ghost var b := d.Contents();
    WriteHead(d, record);
    ghost var b' := d.Contents();
    assert forall k | SECTOR <= k < |b| :: b'[k] == b[k];
    PatchedHere(b, 0, record);
    trace := trace + [b'];
  }

  /** The search for it, in the loader as it is on the disk. */
  method RecordToRestore(d: Device, start: nat, size: nat, back: Option<Bytes>)
    returns (r: Status, saved: Bytes, ghost c: nat)
    requires Usable(d) && (back.Some? ==> |back.value| == SECTOR)
    ensures r == IoError <==> SpanEnd(d.bps, start, size) > d.bytes.Length
    ensures r != IoError ==>
              r == if HasConf(d.Contents()[start..start + size]) || back.Some? then Ok else NoConf
    ensures r == Ok ==> |saved| == SECTOR
    ensures r == Ok ==> Restorable(d.Contents()[start..start + size], saved, c, back)
  {
    c := 0;
    var ok, data := ReadAt(d, size, start);
    if !ok {
      return IoError, [], c;
    }
    var found, at := FindConf(data);
    if found {
      return Ok, SavedMbr(data, at), at;
    } else if back.Some? {
      return Ok, back.value, c;
    } else {
      return NoConf, [], c;
    }
  }

  /** dc_unset_mbr_i; back is the stock boot record.  The trace has the disk after every write. */
  method Uninstall(d: Device, back: Option<Bytes>) returns (r: Status, ghost trace: seq<Bytes>)
    requires Usable(d) && (back.Some? ==> |back.value| == SECTOR)
    modifies d.bytes
    ensures d.bytes.Length >= SECTOR && r == RemovalStatus(old(d.Contents()), d.bps, back)
    ensures r == Ok ==> Uninstalled(old(d.Contents()), d.Contents(), back)
    ensures r == Ok && WritesAll(d, old(d.Contents())) ==> ZeroTrace(old(d.Contents()), trace, d.Contents())
    ensures r != Ok ==> d.Contents() == old(d.Contents())
  {
    ghost var b := d.Contents();
    trace := [b];
    var m, start, size;
    r, m, start, size := LoaderPointer(d);
    if r != Ok {
      return;
    }
    var saved;
    ghost var c;
    r, saved, c := RecordToRestore(d, start, size, back);
    if r != Ok {
      return;
    }
    trace := Remove(d, m, saved, c, back);
  }

  /** The writes of a removal that has found the boot record to put back. */
  method Remove(d: Device, m: Bytes, saved: Bytes, ghost c: nat, ghost back: Option<Bytes>)
    returns (ghost trace: seq<Bytes>)
    requires Usable(d) && d.bytes.Length >= SECTOR && m == Head(d.Contents()) && Ours(m) && OnDisk(d.Contents())
    requires |saved| == SECTOR && Restorable(Body(d.Contents()), saved, c, back)
    modifies d.bytes
    ensures Uninstalled(old(d.Contents()), d.Contents(), back)
    ensures WritesAll(d, old(d.Contents())) ==> ZeroTrace(old(d.Contents()), trace, d.Contents())
  {
    ghost var b := d.Contents();
    trace := Overwrite(d, LoaderOffset(m), Val(m[8..10]), Merged(saved, m));
    UninstalledBy(b, d.Contents(), saved, c, back);
  }

  /** The boot record to put back: the one saved in the loader, or the stock one if it has no configuration. */
  ghost predicate Restorable(body: Bytes, saved: Bytes, c: nat, back: Option<Bytes>) {
    (ConfAt(body, c) && saved == SavedMbr(body, c)) || (back == Some(saved) && !HasConf(body))
  }

  /** No write of the zeroing loop is refused: there is a sector of room behind the loader. */
  ghost predicate WritesAll(d: Device, b: Bytes) {
    |b| >= SECTOR && LoaderOffset(Head(b)) + LoaderSize(Head(b)) + d.bps <= |b|
  }

  /** The writes of a removal: the loader is zeroed from its start, sector by sector, and the boot record comes last. */
  ghost predicate ZeroTrace(b: Bytes, trace: seq<Bytes>, after: Bytes) {
    && |b| >= SECTOR && OnDisk(b)
    && var off, count := LoaderOffset(Head(b)), Val(Head(b)[8..10]);
       && |trace| == count + 2 && (forall i | 0 <= i <= count :: trace[i] == Zeroed(b, off, i))
       && trace[count + 1] == after && |after| == |b|
       && after[SECTOR..] == trace[count][SECTOR..]
  }

  lemma UninstalledBy(b: Bytes, b': Bytes, saved: Bytes, c: nat, back: Option<Bytes>)
    requires |b'| == |b| >= SECTOR && Ours(Head(b)) && OnDisk(b) && |saved| == SECTOR
    requires Restorable(Body(b), saved, c, back)
    requires Head(b') == Merged(saved, Head(b))
    requires forall k | SECTOR <= k < |b| && !InLoader(b, k) :: b'[k] == b[k]
    ensures Uninstalled(b, b', back)
  {
    if ConfAt(Body(b), c) {
      assert Removed(b, b', c);
    }
  }

  // ---- a removal that stops half way ---------------------------------------------------------------

  /** The first signature from a place on, with room for the short form behind it. */
  ghost predicate ConfFrom(d: Bytes, from: nat, e: nat) {
    from <= e && e + SHORT < |d| && SignAt(d, e) && forall j | from <= j < e :: !SignAt(d, j)
  }

  /** No signature begins in a zero, and none changes behind the zeros. */
  lemma SignsAfterZeros(d: Bytes, z: nat, j: nat)
    requires z <= |d|
    ensures SignAt(Patched(d, 0, Blank(z)), j) <==> z <= j && SignAt(d, j)
  {
    var e := Patched(d, 0, Blank(z));
    if j + 8 <= |d| {
      assert e[j..j + 8][0] == e[j];
      if j < z {
        assert e[j] == 0 && CONF_SIGN[0] == 0x69;
      } else {
        assert e[j..j + 8] == d[j..j + 8];
      }
    }
  }

  lemma ConfAfterZeros(d: Bytes, z: nat, e: nat)
    requires z <= |d|
    ensures ConfAt(Patched(d, 0, Blank(z)), e) <==> ConfFrom(d, z, e)
  {
    forall j | 0 <= j <= e
      ensures SignAt(Patched(d, 0, Blank(z)), j) <==> z <= j && SignAt(d, j)
    {
      SignsAfterZeros(d, z, j);
    }
  }

  /** A configuration behind the zeros is what it was. */
  lemma ConfigAfterZeros(d: Bytes, z: nat, e: nat, orig: Bytes)
    requires z <= |d| && |orig| == SECTOR
    ensures Config(Patched(d, 0, Blank(z)), e, orig) <==>
              ConfFrom(d, z, e) && e + ConfSize(d, e) <= |d| && SameCode(SavedMbr(d, e), orig)
  {
    ConfAfterZeros(d, z, e);
    if z <= e && e + SHORT < |d| {
      var r := Patched(d, 0, Blank(z));
      PatchedElsewhere(d, 0, Blank(z), e + 8, e + 12);
      PatchedElsewhere(d, 0, Blank(z), e + SAVE_MBR, e + SAVE_MBR + SECTOR);
    }
  }

  lemma ZeroedBody(b: Bytes, k: nat)
    requires |b| >= SECTOR && LoaderInside(b) && SECTOR * k <= LoaderSize(Head(b))
    ensures var r := Zeroed(b, LoaderOffset(Head(b)), k);
            && Head(r) == Head(b) && LoaderInside(r) && Body(r) == Patched(Body(b), 0, Blank(SECTOR * k))
  {
    var off, n := LoaderOffset(Head(b)), LoaderSize(Head(b));
    var r := Zeroed(b, off, k);
    PatchedElsewhere(b, off, Blank(SECTOR * k), 0, SECTOR);
    assert Head(r) == r[0..SECTOR] == b[0..SECTOR] == Head(b);
    forall i | 0 <= i < n ensures Body(r)[i] == Patched(Body(b), 0, Blank(SECTOR * k))[i] {
      assert Body(r)[i] == r[off + i] && Body(b)[i] == b[off + i];
    }
  }

  /**
   After k sectors of the loader are zeroed and before the boot record is written, the original boot code can be had
   back exactly when a configuration that holds it is still found behind the zeros.
   */
  lemma KeepsDuringRemoval(b: Bytes, orig: Bytes, c: nat, k: nat)
    requires Installed(b, orig, c) && !Ours(orig) && SECTOR * k <= LoaderSize(Head(b))
    ensures Keeps(Zeroed(b, LoaderOffset(Head(b)), k), orig) <==>
              exists e: nat :: (&& ConfFrom(Body(b), SECTOR * k, e) && e + ConfSize(Body(b), e) <= |Body(b)|
                                && SameCode(SavedMbr(Body(b), e), orig))
  {
    var r, d := Zeroed(b, LoaderOffset(Head(b)), k), Body(b);
    ZeroedBody(b, k);
    if Original(r, orig) {
      SameCodeSameHead(Head(r), orig);
    }
    forall e: nat
      ensures Installed(r, orig, e) <==>
                ConfFrom(d, SECTOR * k, e) && e + ConfSize(d, e) <= |d| && SameCode(SavedMbr(d, e), orig)
    {
      ConfigAfterZeros(d, SECTOR * k, e, orig);
    }
  }

  /** In a loader with one signature that is as long as the zeros have not reached it. */
  lemma KeepsUntilConfig(b: Bytes, orig: Bytes, c: nat, k: nat)
    requires Installed(b, orig, c) && !Ours(orig) && SECTOR * k <= LoaderSize(Head(b))
    requires forall j | j > c :: !SignAt(Body(b), j)
    ensures Keeps(Zeroed(b, LoaderOffset(Head(b)), k), orig) <==> SECTOR * k <= c
  {
    KeepsDuringRemoval(b, orig, c, k);
    if SECTOR * k <= c {
      assert ConfFrom(Body(b), SECTOR * k, c);
    }
  }

  /** So every removal of such a loader passes through a state in which the boot code is nowhere. */
  lemma RemovalHasAGap(b: Bytes, orig: Bytes, c: nat, trace: seq<Bytes>, after: Bytes)
    requires Installed(b, orig, c) && !Ours(orig) && ZeroTrace(b, trace, after)
    requires forall j | j > c :: !SignAt(Body(b), j)
    ensures |trace| >= 2 && !Keeps(trace[|trace| - 2], orig)
  {
    KeepsUntilConfig(b, orig, c, Val(Head(b)[8..10]));
  }

  // ---- the room the configuration needs ------------------------------------------------------------

  /** What the copies of the configuration need: room for the form its version says. */
  lemma CopyFitsIff(d: Bytes, c: nat)
    requires ConfAt(d, c)
    ensures ConfSize(d, c) == if Version(d, c) <= 118 then 858 else 4096
    ensures c + ConfSize(d, c) <= |d| <==> Version(d, c) <= 118 || c + 4096 <= |d|
  {
  }

  /** The search asks for room for the short form; a long one behind it need not fit. */
  lemma FoundButTooLong()
    ensures var body := CONF_SIGN + Le(BOOT_OLD + 1, 4) + Blank(1012);
            |body| == 2 * SECTOR && ConfAt(body, 0) && ConfSize(body, 0) > |body|
  {
    var body := CONF_SIGN + Le(BOOT_OLD + 1, 4) + Blank(1012);
    assert body[0..8] == CONF_SIGN;
    assert body[8..12] == Le(BOOT_OLD + 1, 4);
    Bounds();
    assert Bound(4) == 256 * 256 * Bound(2);
    ValOfLe(BOOT_OLD + 1, 4);
  }

  // ---- installing ---------------------------------------------------------------------------------

  /** _align(size, SECTOR_SIZE). */
  function RoundUp(n: nat): (r: nat)
    ensures r % SECTOR == 0 && n <= r < n + SECTOR
  {
    var top := n + SECTOR - 1;
    top - top % SECTOR
  }

  /** The loader resource with zeros up to the end of its last sector. */
  function Image(loader: Bytes): (r: Bytes)
    ensures |r| == RoundUp(|loader|)
  {
    loader + seq(RoundUp(|loader|) - |loader|, _ => 0)
  }

  lemma ImageBytes(loader: Bytes, k: nat)
    requires k < |Image(loader)|
    ensures Image(loader)[k] == if k < |loader| then loader[k] else 0
  {
  }

  /** A loader resource: a 16-bit number of sectors, and a configuration, if any, that lies inside. */
  ghost predicate IsLoader(loader: Bytes) {
    && RoundUp(|loader|) < 0x1_0000 * SECTOR
    && forall c: nat :: ConfAt(Image(loader), c) ==> c + ConfSize(Image(loader), c) <= |Image(loader)|
  }

  /** The boot record resource. */
  ghost predicate IsRecord(record: Bytes) {
    |record| == SECTOR && Bootable(record) && Ours(record)
  }

  /** The one size of disk on which a loader at the end starts in sector zero. */
  predicate OnTop(length: nat, n: nat, begin: bool) {
    !begin && length == n + 8 * SECTOR
  }

  /** There the boot record is written over the first sector of the loader. */
  ghost predicate Overlaid(b: Bytes, b': Bytes) {
    && |b'| == |b| >= SECTOR && Bootable(Head(b)) && !Ours(Head(b))
    && Bootable(Head(b')) && Ours(Head(b')) && LoaderOffset(Head(b')) == 0 && b'[440..510] == b[440..510]
  }

  lemma Bounds()
    ensures Bound(2) == 0x1_0000 && Bound(4) == 0x1_0000_0000 && Bound(8) == WRAP
  {
    assert Bound(4) == 256 * 256 * Bound(2);
    assert Bound(6) == 256 * 256 * Bound(4);
    assert Bound(8) == 256 * 256 * Bound(6);
  }

  function NewRecord(record: Bytes, m: Bytes, off: nat, n: nat): (r: Bytes)
    requires |record| == SECTOR && |m| == SECTOR
    ensures |r| == SECTOR
  {
    WithPointer(Merged(record, m), off / SECTOR, n / SECTOR)
  }

  lemma NewRecordPoints(record: Bytes, m: Bytes, off: nat, n: nat)
    requires IsRecord(record) && |m| == SECTOR && off % SECTOR == 0 && n % SECTOR == 0
    requires off < WRAP && n < 0x1_0000 * SECTOR
    ensures var r := NewRecord(record, m, off, n);
            && Bootable(r) && Ours(r) && LoaderOffset(r) == off && LoaderSize(r) == n && r[440..510] == m[440..510]
  {
    var x := Merged(record, m);
    SameCodeSameHead(x, record);
    PointerKeepsRest(x, off / SECTOR, n / SECTOR);
    Bounds();
    PointerFound(x, off / SECTOR, n / SECTOR);
    var r := NewRecord(record, m, off, n);
    assert r[510..] == r[440..][70..] && x[510..] == x[440..][70..];
    assert r[440..510] == r[440..][..70] && x[440..510] == x[440..][..70];
  }

  /** The new boot record is ours, byte for byte, but for the pointer and the partition data. */
  lemma NewRecordBytes(record: Bytes, m: Bytes, off: nat, n: nat)
    requires |record| == SECTOR && |m| == SECTOR
    ensures var r := NewRecord(record, m, off, n);
            forall k: nat | k < SECTOR && !(8 <= k < 10) && !(14 <= k < 22) ::
              r[k] == if 440 <= k < 510 then m[k] else record[k]
  {
    var x, numb, sector := Merged(record, m), Le(n / SECTOR, 2), Le(off / SECTOR, 8);
    forall k: nat | k < SECTOR ensures x[k] == if 440 <= k < 510 then m[k] else record[k] {
    }
    var r := NewRecord(record, m, off, n);
    assert r == x[..8] + numb + x[10..14] + sector + x[22..];
    forall k: nat | k < SECTOR && !(8 <= k < 10) && !(14 <= k < 22) ensures r[k] == x[k] {
    }
  }

  /** The two writes of an installation. */
  lemma PlacedByWrites(b: Bytes, mid: Bytes, b': Bytes, off: nat, body: Bytes, record: Bytes, c: nat, bps: nat)
    requires |b| >= SECTOR && Bootable(Head(b)) && !Ours(Head(b))
    requires SECTOR <= off && off + |body| <= |b| && Config(body, c, Head(b))
    requires |record| == SECTOR && Bootable(record) && Ours(record) && record[440..510] == b[440..510]
    requires LoaderOffset(record) == off && LoaderSize(record) == |body|
    requires mid == Patched(b, off, body) && b' == Patched(mid, 0, record)
    requires ClearOfPartitions(b', bps) && bps > 0 && SpanEnd(bps, off, |body|) <= |b|
    ensures Placed(b, b', bps)
  {
    PatchedHere(mid, 0, record);
    assert Head(b') == record;
    PatchedElsewhere(mid, 0, record, off, off + |body|);
    PatchedHere(b, off, body);
    assert Body(b') == body;
    assert Installed(b', Head(b), c);
    assert b'[440..510] == Head(b')[440..510];
  }

  /** The room that the checks of dc_set_mbr_i find is clear of the partitions. */
  lemma RoomIsClear(b: Bytes, m: Bytes, bps: nat, length: nat, begin: bool)
    requires |b| >= SECTOR && |m| == SECTOR && Head(b)[440..510] == m[440..510]
    requires var n := LoaderSize(Head(b));
             n < 0x1_0000 * SECTOR && LoaderOffset(Head(b)) == Place(length, n, begin) && Room(m, bps, length, n, begin)
    ensures ClearOfPartitions(b, bps)
  {
    var h := Head(b);
    forall i | 0 <= i < 4 && PartSize(h, i) != 0
      ensures LoaderOffset(h) + LoaderSize(h) <= bps * PartStart(h, i) || bps * PartEnd(h, i) <= LoaderOffset(h)
    {
      SameTable(h, m, i);
    }
  }

  lemma SameRoom(x: Bytes, y: Bytes, bps: nat, length: nat, n: nat, begin: bool)
    requires |x| == SECTOR && |y| == SECTOR && x[440..510] == y[440..510] && n < 0x1_0000 * SECTOR
    ensures Room(x, bps, length, n, begin) <==> Room(y, bps, length, n, begin)
  {
    forall i | 0 <= i < 4 ensures PartStart(x, i) == PartStart(y, i) && PartSize(x, i) == PartSize(y, i) {
      SameTable(x, y, i);
    }
  }

  lemma SameTable(x: Bytes, y: Bytes, i: nat)
    requires |x| == SECTOR && |y| == SECTOR && x[440..510] == y[440..510] && i < 4
    ensures PartStart(x, i) == PartStart(y, i) && PartSize(x, i) == PartSize(y, i)
  {
    var a := 14 + 16 * i;
    SubSlice(x, 440, 510, a, a + 4);
    SubSlice(y, 440, 510, a, a + 4);
    SubSlice(x, 440, 510, a + 4, a + 8);
    SubSlice(y, 440, 510, a + 4, a + 8);
  }

  lemma SubSlice(s: Bytes, a: nat, b: nat, i: nat, j: nat)
    requires a + j <= b <= |s| && i <= j
    ensures s[a..b][i..j] == s[a + i..a + j]
  {
    assert forall k | 0 <= k < j - i :: s[a..b][i..j][k] == s[a..b][i + k] == s[a + i..a + j][k];
  }

  lemma Times(x: nat, y: nat, d: nat)
    requires x <= y
    ensures x * d <= d * y
  {
  }

  /** dsk_sze - n_size - 8 sectors in 64 bits. */
  function EndOffset(length: nat, n: nat): (off: int)
    requires n < 0x1_0000 * SECTOR
    ensures length >= n + 8 * SECTOR ==> off == length - n - 8 * SECTOR
    ensures length < n + 8 * SECTOR ==> off > 0x1_0000_0000_0000 && off == WRAP + length - n - 8 * SECTOR
  {
    if length >= n + 8 * SECTOR then length - n - 8 * SECTOR
    else length - n - 8 * SECTOR + 0x1_0000_0000_0000_0000
  }

  /** Where n bytes of loader go, in front of the first partition or behind the last one. */
  function Place(length: nat, n: nat, begin: bool): int
    requires n < 0x1_0000 * SECTOR
  {
    if begin then SECTOR else EndOffset(length, n)
  }

  /** The space the code asks for: in the first 64 sectors and before every partition, or behind every partition. */
  ghost predicate Room(m: Bytes, bps: nat, length: nat, n: nat, begin: bool)
    requires |m| == SECTOR && n < 0x1_0000 * SECTOR
  {
    if begin then
      && SECTOR + n <= bps * 64
      && forall i | 0 <= i < 4 && PartSize(m, i) != 0 :: SECTOR + n <= bps * PartStart(m, i)
    else forall i | 0 <= i < 4 && PartSize(m, i) != 0 :: bps * PartEnd(m, i) <= EndOffset(length, n)
  }

  /** The loader can be written there: at the end the eight sectors must exist, at the beginning the loader itself. */
  predicate Reachable(bps: nat, length: nat, n: nat, begin: bool) {
    if !begin then n + 8 * SECTOR <= length
    else if bps == SECTOR then SECTOR + n <= length else SECTOR + n < length
  }

  lemma ReachableIff(bps: nat, length: nat, n: nat, begin: bool)
    requires bps > 0 && bps % SECTOR == 0 && length % bps == 0 && n % SECTOR == 0 && n < 0x1_0000 * SECTOR
    ensures Place(length, n, begin) >= 0
    ensures SpanEnd(bps, Place(length, n, begin), n) <= length <==> Reachable(bps, length, n, begin)
  {
    var off := Place(length, n, begin);
    if off + n <= length {
      ServedIff(bps, length, off, n);
      if begin && bps > SECTOR {
        Quotient(SECTOR, bps, 0, SECTOR);
      }
    }
  }

  /** How an installation ends, and when it succeeds: m and length are the boot record and the size of the disk. */
  ghost function InstallStatus(m: Bytes, length: nat, bps: nat, begin: bool, loader: Bytes, isFs: Bytes -> bool): Status
    requires |m| == SECTOR && RoundUp(|loader|) < 0x1_0000 * SECTOR
  {
    if bps % SECTOR != 0 then BadSector
    else if !HasConf(Image(loader)) then Failure
    else if !Bootable(m) || isFs(m) then NotMbr
    else if Ours(m) then AlreadyInstalled
    else RoomStatus(m, length, bps, RoundUp(|loader|), begin)
  }

  ghost function RoomStatus(m: Bytes, length: nat, bps: nat, n: nat, begin: bool): Status
    requires |m| == SECTOR && n < 0x1_0000 * SECTOR
  {
    if !Room(m, bps, length, n, begin) then NoSpace
    else if Reachable(bps, length, n, begin) then Ok else IoError
  }

  /** The search for the room, over the lowest start and the highest end. */
  method FindRoom(d: Device, m: Bytes, n: nat, begin: bool) returns (ok: bool, off: nat)
    requires Usable(d) && |m| == SECTOR && n % SECTOR == 0 && n < 0x1_0000 * SECTOR
    ensures off == Place(d.bytes.Length, n, begin) && off % SECTOR == 0 && off < WRAP
    ensures ok <==> Room(m, d.bps, d.bytes.Length, n, begin)
  {
    var minStart, maxEnd := FreeSpace(m);
    off := SECTOR;
    if begin {
      ok := minStart * d.bps >= n + SECTOR;
      LowestStart(m, d.bps, minStart, n);
    } else {
      off := EndOffset(d.bytes.Length, n);
      AtSectors(d.bytes.Length, d.bps, n);
      ok := maxEnd * d.bps <= off;
      HighestEnd(m, d.bps, maxEnd, off);
    }
  }

  lemma LowestStart(m: Bytes, bps: nat, minStart: nat, n: nat)
    requires |m| == SECTOR && minStart <= 64
    requires forall i | 0 <= i < 4 && PartSize(m, i) != 0 :: minStart <= PartStart(m, i)
    requires minStart == 64 || exists i | 0 <= i < 4 :: PartSize(m, i) != 0 && minStart == PartStart(m, i)
    ensures minStart * bps >= n + SECTOR <==>
              && SECTOR + n <= bps * 64
              && forall i | 0 <= i < 4 && PartSize(m, i) != 0 :: SECTOR + n <= bps * PartStart(m, i)
  {
    Times(minStart, 64, bps);
    forall i | 0 <= i < 4 && PartSize(m, i) != 0 ensures minStart * bps <= bps * PartStart(m, i) {
      Times(minStart, PartStart(m, i), bps);
    }
  }

  lemma HighestEnd(m: Bytes, bps: nat, maxEnd: nat, off: nat)
    requires |m| == SECTOR
    requires forall i | 0 <= i < 4 && PartSize(m, i) != 0 :: PartEnd(m, i) <= maxEnd
    requires maxEnd == 0 || exists i | 0 <= i < 4 :: PartSize(m, i) != 0 && maxEnd == PartEnd(m, i)
    ensures maxEnd * bps <= off <==> forall i | 0 <= i < 4 && PartSize(m, i) != 0 :: bps * PartEnd(m, i) <= off
  {
    forall i | 0 <= i < 4 && PartSize(m, i) != 0 ensures bps * PartEnd(m, i) <= maxEnd * bps {
      Times(PartEnd(m, i), maxEnd, bps);
    }
  }

  // ---- what 32 bits make of a partition ------------------------------------------------------------

  /** [x, x + n) and [y, z) share no byte. */
  predicate Apart(x: nat, n: nat, y: nat, z: nat) {
    x + n <= y || z <= x
  }

  /** Clear of a partition's 32-bit end is clear of the partition for every loader, exactly if its end fits 32 bits. */
  lemma ClearIff(m: Bytes, i: nat, bps: nat, n: nat)
    requires |m| == SECTOR && i < 4 && PartSize(m, i) != 0 && bps > 0 && n > 0
    ensures ApartFrom(bps * PartEnd(m, i), n, bps * PartStart(m, i), bps * (PartStart(m, i) + PartSize(m, i))) <==>
            PartStart(m, i) + PartSize(m, i) < 0x1_0000_0000
  {
    ValBound(m[454 + 16 * i..458 + 16 * i]);
    ValBound(m[458 + 16 * i..462 + 16 * i]);
    Bounds();
    ClearNumbers(PartStart(m, i), PartSize(m, i), bps, n);
  }

  /** n bytes from any offset at or behind low are clear of [first, behind). */
  ghost predicate ApartFrom(low: nat, n: nat, first: nat, behind: nat) {
    forall off: nat | low <= off :: Apart(off, n, first, behind)
  }

  lemma ClearNumbers(start: nat, size: nat, bps: nat, n: nat)
    requires start < 0x1_0000_0000 && size < 0x1_0000_0000 && bps > 0 && n > 0
    ensures ApartFrom(bps * ((start + size) % 0x1_0000_0000), n, bps * start, bps * (start + size)) <==>
            start + size < 0x1_0000_0000
  {
    if start + size >= 0x1_0000_0000 {
      WrapsBelow(start, size, bps);
      assert !Apart(bps * start, n, bps * start, bps * (start + size));
    }
  }

  lemma WrapsBelow(start: nat, size: nat, bps: nat)
    requires start < 0x1_0000_0000 && size < 0x1_0000_0000 <= start + size && bps > 0
    ensures bps * ((start + size) % 0x1_0000_0000) <= bps * start < bps * (start + size)
  {
    assert (start + size) % 0x1_0000_0000 == start + size - 0x1_0000_0000;
    Times(start + size - 0x1_0000_0000, start, bps);
    Times(start + 1, start + size, bps);
  }

  /** A boot record with one entry that covers all 32-bit sectors behind the first, as on a large GPT disk. */
  function Protective(): (m: Bytes)
    ensures |m| == SECTOR
  {
    OneEntry(Le(1, 4), Le(0xFFFF_FFFF, 4))
  }

  function OneEntry(start: Bytes, size: Bytes): (m: Bytes)
    requires |start| == 4 && |size| == 4
    ensures |m| == SECTOR
  {
    Blank(454) + start + size + Blank(48) + MAGIC
  }

  lemma ValOfZeros(m: Bytes, at: nat)
    requires at + 4 <= |m| && forall k | at <= k < at + 4 :: m[k] == 0
    ensures Val(m[at..at + 4]) == 0
  {
    assert m[at..at + 4] == Blank(4);
    ValOfBlank(4);
  }

  lemma EntriesOf(start: Bytes, size: Bytes)
    requires |start| == 4 && |size| == 4
    ensures var m := OneEntry(start, size);
            && PartStart(m, 0) == Val(start) && PartSize(m, 0) == Val(size)
            && forall i | 1 <= i < 4 :: PartSize(m, i) == 0
  {
    var m := OneEntry(start, size);
    assert m[454..458] == start && m[458..462] == size;
    assert forall k | 462 <= k < 510 :: m[k] == 0;
    forall i | 1 <= i < 4 ensures PartSize(m, i) == 0 {
      ValOfZeros(m, 458 + 16 * i);
    }
  }

  lemma ProtectiveEntry()
    ensures var m := Protective();
            && PartStart(m, 0) == 1 && PartSize(m, 0) == 0xFFFF_FFFF
            && forall i | 1 <= i < 4 :: PartSize(m, i) == 0
  {
    Bounds();
    ValOfLe(1, 4);
    ValOfLe(0xFFFF_FFFF, 4);
    EntriesOf(Le(1, 4), Le(0xFFFF_FFFF, 4));
  }

  lemma EndsAtZero(m: Bytes, bps: nat, length: nat, n: nat)
    requires |m| == SECTOR && (forall i | 0 <= i < 4 && PartSize(m, i) != 0 :: PartEnd(m, i) == 0)
    requires n + 8 * SECTOR <= length && n < 0x1_0000 * SECTOR
    ensures RoomStatus(m, length, bps, n, false) == Ok
  {
  }

  /** That entry ends in sector zero: there is room at the end of every disk, and it is inside the partition. */
  lemma ProtectiveIsNoPartition(bps: nat, length: nat, n: nat)
    requires bps > 0 && bps + n + 8 * SECTOR <= length <= bps * 0x1_0000_0000 && 0 < n < 0x1_0000 * SECTOR
    ensures RoomStatus(Protective(), length, bps, n, false) == Ok
    ensures var first, behind := PartStart(Protective(), 0), PartStart(Protective(), 0) + PartSize(Protective(), 0);
            bps * first <= Place(length, n, false) && Place(length, n, false) + n <= bps * behind
  {
    ProtectiveEntry();
    EndsAtZero(Protective(), bps, length, n);
  }

  // ---- installing on top of the boot record --------------------------------------------------------

  /** Where the loader would start in sector zero, there is room exactly if no partition in use ends behind it. */
  lemma OnTopAccepted(m: Bytes, bps: nat, length: nat, n: nat)
    requires |m| == SECTOR && bps > 0 && n < 0x1_0000 * SECTOR && OnTop(length, n, false)
    ensures RoomStatus(m, length, bps, n, false) == Ok <==>
              forall i | 0 <= i < 4 && PartSize(m, i) != 0 :: PartEnd(m, i) == 0
  {
    forall i | 0 <= i < 4 ensures bps * PartEnd(m, i) <= 0 <==> PartEnd(m, i) == 0 {
      if PartEnd(m, i) > 0 {
        Times(1, PartEnd(m, i), bps);
      }
    }
  }

  /** A disk without partitions, ten sectors long, and a loader of two. */
  lemma OverlaidDisk()
    ensures var m, loader := Blank(510) + MAGIC, CONF_SIGN + Blank(1016);
            && IsLoader(loader) && RoundUp(|loader|) == 1024 && OnTop(5120, 1024, false)
            && InstallStatus(m, 5120, 512, false, loader, _ => false) == Ok
  {
    var m, loader := Blank(510) + MAGIC, CONF_SIGN + Blank(1016);
    assert Image(loader) == loader;
    assert loader[0..8] == CONF_SIGN;
    assert ConfAt(loader, 0);
    assert loader[8..12] == Blank(4);
    ValOfBlank(4);
    forall c: nat | ConfAt(loader, c) ensures c + ConfSize(loader, c) <= |loader| {
      ConfUnique(loader, 0, c);
    }
    assert m[2..6][0] == 0;
    forall i | 0 <= i < 4 ensures PartSize(m, i) == 0 {
      ValOfZeros(m, 458 + 16 * i);
    }
    OnTopAccepted(m, 512, 5120, 1024);
  }

  lemma {:induction false} ValOfBlank(k: nat)
    ensures Val(Blank(k)) == 0
  {
    if k > 0 {
      assert Blank(k)[1..] == Blank(k - 1);
      ValOfBlank(k - 1);
    }
  }

  lemma {:induction false} ValBound(s: Bytes)
    ensures Val(s) < Bound(|s|)
  {
    if s != [] {
      ValBound(s[1..]);
    }
  }

  /** The bootloader data is written first, the boot record last. */
  method WriteLoader(d: Device, off: nat, body: Bytes, head: Bytes) returns (ok: bool, ghost trace: seq<Bytes>)
    requires Usable(d) && |head| == SECTOR
    modifies d.bytes
    ensures ok <==> SpanEnd(d.bps, off, |body|) <= d.bytes.Length
    ensures ok ==> d.bytes.Length >= SECTOR
    ensures ok ==> var mid := Patched(old(d.Contents()), off, body);
                   trace == [old(d.Contents()), mid, d.Contents()] && d.Contents() == Patched(mid, 0, head)
    ensures !ok ==> d.Contents() == old(d.Contents()) && trace == [d.Contents()]
  {
    trace := [d.Contents()];
    ok := WriteAt(d, body, off);
    if ok {
      trace := trace + [d.Contents()];
      WriteHead(d, head);
      trace := trace + [d.Contents()];
    }
  }

  /** Each of its writes leaves the boot code of orig in place or saved. */
  ghost predicate AlwaysKept(trace: seq<Bytes>)
    requires trace != []
  {
    forall orig | Keeps(trace[0], orig) :: forall i | 0 <= i < |trace| :: Keeps(trace[i], orig)
  }

  /** The disk before and after an installation of n bytes, and after each of its writes. */
  ghost predicate SafelyPlaced(b: Bytes, b': Bytes, trace: seq<Bytes>, bps: nat, n: nat, begin: bool) {
    && trace != [] && trace[0] == b && trace[|trace| - 1] == b'
    && (Placed(b, b', bps) <==> !OnTop(|b|, n, begin)) && (OnTop(|b|, n, begin) ==> Overlaid(b, b'))
    && (!OnTop(|b|, n, begin) ==> AlwaysKept(trace))
  }

  /** The disk with n bytes of loader in their place and the boot record that points to them. */
  function WithLoader(b: Bytes, body: Bytes, record: Bytes, begin: bool): (r: Bytes)
    requires |b| >= SECTOR && |record| == SECTOR && |body| < 0x1_0000 * SECTOR
    requires 0 <= Place(|b|, |body|, begin) && Place(|b|, |body|, begin) + |body| <= |b|
    ensures |r| == |b|
  {
    var off := Place(|b|, |body|, begin);
    Patched(Patched(b, off, body), 0, NewRecord(record, Head(b), off, |body|))
  }

  /** What an installation writes: the prepared image of the loader and its pointer in our boot record. */
  ghost predicate Written(b: Bytes, b': Bytes, loader: Bytes, small: bool, record: Bytes, begin: bool) {
    && |b| >= SECTOR && |record| == SECTOR && RoundUp(|loader|) < 0x1_0000 * SECTOR
    && var off := Place(|b|, RoundUp(|loader|), begin);
       0 <= off && off + RoundUp(|loader|) <= |b|
       && exists c: nat | ConfAt(Image(loader), c) ::
            b' == WithLoader(b, Prepared(Image(loader), c, small, Head(b)), record, begin)
  }

  /**
   dc_set_mbr_i; isFs tells whether a first sector belongs to a file system.  The trace has the disk after every write.
   */
  method Install(d: Device, begin: bool, small: bool, loader: Bytes, record: Bytes, isFs: Bytes -> bool)
    returns (r: Status, ghost trace: seq<Bytes>)
    requires d.Valid() && (d.bps % SECTOR == 0 ==> Usable(d)) && IsLoader(loader) && IsRecord(record)
    modifies d.bytes
    ensures d.bps % SECTOR != 0 ==> r == BadSector
    ensures d.bps % SECTOR == 0 ==>
              && d.bytes.Length >= SECTOR
              && r == InstallStatus(Head(old(d.Contents())), d.bytes.Length, d.bps, begin, loader, isFs)
    ensures r == Ok ==> Written(old(d.Contents()), d.Contents(), loader, small, record, begin)
    ensures r == Ok ==> SafelyPlaced(old(d.Contents()), d.Contents(), trace, d.bps, RoundUp(|loader|), begin)
    ensures r != Ok ==> d.Contents() == old(d.Contents()) && trace == [d.Contents()]
  {
    trace := [d.Contents()];
    if d.bps % SECTOR != 0 {
      return BadSector, trace;
    }
    var body := Image(loader);
    var found, c := FindConf(body);
    var m := ReadHead(d);
    if !found {
      return Failure, trace;
    }
    if !Bootable(m) || isFs(m) {
      return NotMbr, trace;
    }
    if Ours(m) {
      return AlreadyInstalled, trace;
    }
    PreparedConfig(body, c, small, m);
    r, trace := PlaceLoader(d, begin, Prepared(body, c, small, m), record, m, c);
  }

  method PlaceLoader(d: Device, begin: bool, body: Bytes, record: Bytes, m: Bytes, ghost c: nat)
    returns (r: Status, ghost trace: seq<Bytes>)
    requires Usable(d) && IsRecord(record) && |body| % SECTOR == 0 && |body| < 0x1_0000 * SECTOR
    requires d.bytes.Length >= SECTOR && m == Head(d.Contents()) && Config(body, c, m) && Bootable(m) && !Ours(m)
    modifies d.bytes
    ensures r == RoomStatus(m, d.bytes.Length, d.bps, |body|, begin)
    ensures r == Ok ==>
              && 0 <= Place(d.bytes.Length, |body|, begin) <= d.bytes.Length - |body|
              && d.Contents() == WithLoader(old(d.Contents()), body, record, begin)
    ensures r == Ok ==> SafelyPlaced(old(d.Contents()), d.Contents(), trace, d.bps, |body|, begin)
    ensures r != Ok ==> d.Contents() == old(d.Contents()) && trace == [d.Contents()]
  {
    ghost var b := d.Contents();
    trace := [b];
    var ok, off := FindRoom(d, m, |body|, begin);
    if !ok {
      return NoSpace, trace;
    }
    var head := NewRecord(record, m, off, |body|);
    NewRecordPoints(record, m, off, |body|);
    ok, trace := WriteLoader(d, off, body, head);
    ReachableIff(d.bps, d.bytes.Length, |body|, begin);
    if !ok {
      return IoError, trace;
    }
    SafelyPlacedBy(b, Patched(b, off, body), d.Contents(), off, body, m, head, c, d.bps, begin);
    return Ok, trace;
  }

  lemma SafelyPlacedBy(b: Bytes, mid: Bytes, b': Bytes, off: nat, body: Bytes, m: Bytes, head: Bytes, c: nat, bps: nat,
                       begin: bool)
    requires |b| >= SECTOR && m == Head(b) && Bootable(m) && !Ours(m) && |body| < 0x1_0000 * SECTOR
    requires bps > 0 && off == Place(|b|, |body|, begin) && Room(m, bps, |b|, |body|, begin)
    requires off % SECTOR == 0 && SpanEnd(bps, off, |body|) <= |b| && Config(body, c, m)
    requires |head| == SECTOR && Bootable(head) && Ours(head) && head[440..510] == m[440..510]
    requires LoaderOffset(head) == off && LoaderSize(head) == |body|
    requires mid == Patched(b, off, body) && b' == Patched(mid, 0, head)
    ensures SafelyPlaced(b, b', [b, mid, b'], bps, |body|, begin)
  {
    PatchedHere(mid, 0, head);
    assert Head(b') == head;
    SlicesOfHead(b);
    SlicesOfHead(b');
    if off == 0 {
      OnTopIsOverlaid(b, b', bps);
    } else {
      RoomIsClear(b', m, bps, |b|, begin);
      PlacedByWrites(b, mid, b', off, body, head, c, bps);
      WritesKeep(b, mid, b', off, body, bps);
    }
  }

  lemma OnTopIsOverlaid(b: Bytes, b': Bytes, bps: nat)
    requires |b'| == |b| >= SECTOR && Bootable(Head(b)) && !Ours(Head(b))
    requires Bootable(Head(b')) && Ours(Head(b')) && LoaderOffset(Head(b')) == 0 && b'[440..510] == b[440..510]
    ensures Overlaid(b, b') && !Placed(b, b', bps)
  {
    assert !LoaderInside(b');
  }

  lemma SlicesOfHead(b: Bytes)
    requires |b| >= SECTOR
    ensures b[440..510] == Head(b)[440..510]
  {
  }

  /** After the first write of an installation the boot code is still in place, after the second it is saved. */
  lemma WritesKeep(b: Bytes, mid: Bytes, b': Bytes, off: nat, body: Bytes, bps: nat)
    requires |b| >= SECTOR && !Ours(Head(b)) && SECTOR <= off && off + |body| <= |b|
    requires mid == Patched(b, off, body) && Placed(b, b', bps)
    ensures AlwaysKept([b, mid, b'])
  {
    var trace := [b, mid, b'];
    forall orig | Keeps(b, orig) ensures forall i | 0 <= i < 3 :: Keeps(trace[i], orig) {
      PatchedElsewhere(b, off, body, 0, SECTOR);
      assert Head(mid) == mid[0..SECTOR] == b[0..SECTOR] == Head(b);
      PlacedKeeps(b, b', bps, orig);
      assert Original(b, orig);
      assert Keeps(mid, orig);
    }
  }

  lemma AtSectors(length: nat, bps: nat, n: nat)
    requires bps > 0 && bps % SECTOR == 0 && length % bps == 0 && n % SECTOR == 0 && n < 0x1_0000 * SECTOR
    ensures EndOffset(length, n) % SECTOR == 0
  {
    WholeSectors(length, bps);
  }

  lemma WholeSectors(length: nat, bps: nat)
    requires bps > 0 && bps % SECTOR == 0 && length % bps == 0
    ensures length % SECTOR == 0
  {
    var q, k := length / bps, bps / SECTOR;
    assert length == bps * q && bps == SECTOR * k;
    assert length == SECTOR * (k * q);
  }

  // ---- updating -----------------------------------------------------------------------------------

  /** The disk before and after a step that keeps the boot code of orig and the partition data. */
  ghost predicate Safe(b: Bytes, b': Bytes, bps: nat, orig: Bytes) {
    Step(b, b', bps) && Keeps(b', orig) && |b'| == |b| >= SECTOR && b'[440..510] == b[440..510]
  }

  lemma SameIsSafe(b: Bytes, bps: nat, orig: Bytes)
    requires Keeps(b, orig)
    ensures Safe(b, b, bps, orig)
  {
  }

  lemma UninstalledIsSafe(b: Bytes, b': Bytes, bps: nat, orig: Bytes, back: Option<Bytes>)
    requires Keeps(b, orig) && Uninstalled(b, b', back)
    ensures Safe(b, b', bps, orig) && Head(b') == Merged(orig, Head(b))
  {
    SignedIsInstalled(b, orig);
    var c :| Installed(b, orig, c);
    UninstalledRestores(b, b', orig, c, back);
    var e: nat :| Removed(b, b', e);
    RemovedRestores(b, b', orig, c, e);
    assert b'[440..510] == Head(b')[440..510] && b[440..510] == Head(b)[440..510];
  }

  lemma PlacedIsSafe(b: Bytes, b': Bytes, bps: nat, orig: Bytes)
    requires Keeps(b, orig) && Placed(b, b', bps)
    ensures Safe(b, b', bps, orig) && exists c :: Installed(b', orig, c)
  {
    PlacedKeeps(b, b', bps, orig);
  }

  lemma ConfigChangedIsSafe(b: Bytes, b': Bytes, bps: nat, orig: Bytes)
    requires Keeps(b, orig) && ConfigChanged(b, b')
    ensures Safe(b, b', bps, orig) && exists c :: Installed(b', orig, c)
  {
    SignedIsInstalled(b, orig);
    var c :| Installed(b, orig, c);
    ConfigChangedKeeps(b, b', orig, c);
    assert b'[440..510] == Head(b')[440..510] && b[440..510] == Head(b)[440..510];
  }

  /** How the second half of an update ends: the first installation that succeeds, at the end or else the beginning. */
  ghost function ReinstallStatus(m: Bytes, length: nat, bps: nat, loader: Bytes, isFs: Bytes -> bool): Status
    requires |m| == SECTOR && RoundUp(|loader|) < 0x1_0000 * SECTOR
  {
    if InstallStatus(m, length, bps, false, loader, isFs) == Ok then Ok
    else InstallStatus(m, length, bps, true, loader, isFs)
  }

  /** No installation at the end would put the boot record on top of the loader: there is a partition in its way. */
  ghost predicate KeepsOff(m: Bytes, length: nat, bps: nat, loader: Bytes)
    requires |m| == SECTOR
  {
    IsLoader(loader) && (OnTop(length, RoundUp(|loader|), false) ==> !Room(m, bps, length, RoundUp(|loader|), false))
  }

  /** The first installation that succeeds. */
  method InstallAnywhere(d: Device, small: bool, loader: Bytes, record: Bytes, isFs: Bytes -> bool) returns (r: Status)
    requires Usable(d) && IsRecord(record) && d.bytes.Length >= SECTOR
    requires KeepsOff(Head(d.Contents()), d.bytes.Length, d.bps, loader)
    modifies d.bytes
    ensures r == ReinstallStatus(Head(old(d.Contents())), d.bytes.Length, d.bps, loader, isFs)
    ensures r == Ok ==> Placed(old(d.Contents()), d.Contents(), d.bps)
    ensures r != Ok ==> d.Contents() == old(d.Contents())
  {
    ghost var writes;
    r, writes := Install(d, false, small, loader, record, isFs);
    if r != Ok {
      r, writes := Install(d, true, small, loader, record, isFs);
    }
  }

  /** The second half of dc_update_boot: the new loader, and the old configuration written into it. */
  method Reinstall(d: Device, conf: Bytes, loader: Bytes, small: bool, record: Bytes, isFs: Bytes -> bool,
                   ghost orig: Bytes) returns (r: Status, ghost mid: Bytes)
    requires Usable(d) && IsRecord(record) && |conf| == LONG && Keeps(d.Contents(), orig)
    requires KeepsOff(Head(d.Contents()), d.bytes.Length, d.bps, loader)
    modifies d.bytes
    ensures r == ReinstallStatus(Head(old(d.Contents())), d.bytes.Length, d.bps, loader, isFs)
    ensures Safe(old(d.Contents()), mid, d.bps, orig) && Safe(mid, d.Contents(), d.bps, orig)
    ensures r == Ok ==> Resettled(mid, d.Contents(), d.bps, conf, orig)
  {
    ghost var b := d.Contents();
    SameIsSafe(b, d.bps, orig);
    r := InstallAnywhere(d, small, loader, record, isFs);
    mid := d.Contents();
    if r != Ok {
      return;
    }
    PlacedIsSafe(b, mid, d.bps, orig);
    SameIsSafe(mid, d.bps, orig);
    KeepsFits(mid, orig);
    ghost var c :| Installed(mid, orig, c);
    InstalledSucceeds(mid, d.bps, orig, c);
    r := SetConfig(d, conf);
    ConfigChangedIsSafe(mid, d.Contents(), d.bps, orig);
    StillReadable(mid, d.Contents(), d.bps, orig, c);
  }

  /** The last step of an update: the configuration is written, read back, and the installation complete. */
  ghost predicate Resettled(b: Bytes, b': Bytes, bps: nat, conf: Bytes, orig: Bytes) {
    && ConfigWritten(b, b', conf) && Settled(b', conf) && bps > 0 && ConfigStatus(b', bps) == Ok
    && exists c :: Installed(b', orig, c)
  }

  lemma StillReadable(b: Bytes, b': Bytes, bps: nat, orig: Bytes, c: nat)
    requires Installed(b, orig, c) && bps > 0 && Readable(b, bps) && ConfigChanged(b, b')
    ensures |b'| >= SECTOR && ConfigStatus(b', bps) == Ok
  {
    ConfigChangedKeeps(b, b', orig, c);
    InstalledSucceeds(b', bps, orig, c);
  }

  lemma TraceOf(b0: Bytes, b1: Bytes, b2: Bytes, b3: Bytes, bps: nat, orig: Bytes)
    requires Safe(b0, b1, bps, orig) && Safe(b1, b2, bps, orig) && Safe(b2, b3, bps, orig)
    ensures Run([b0, b1, b2, b3], bps) && |b3| == |b0| >= SECTOR && b3[440..510] == b0[440..510] && Keeps(b3, orig)
  {
    var states := [b0, b1, b2, b3];
    forall i | 0 <= i < 3 ensures Step(states[i], states[i + 1], bps) {
      if i == 0 {
      } else if i == 1 {
      } else {
      }
    }
  }

  /** The option for a small loader. */
  function IsSmall(conf: Bytes): bool
    requires |conf| == LONG
  {
    Val(conf[OPTIONS..OPTIONS + 2]) / SMALL_BOOT % 2 == 1
  }

  lemma IsSmallIs(conf: Bytes)
    requires |conf| == LONG
    ensures IsSmall(conf) <==> conf[19] / 32 % 2 == 1
  {
    var s := conf[OPTIONS..OPTIONS + 2];
    assert s[1..][1..] == [] && Val(s[1..]) == s[1];
    var low: int, high: int := s[0], s[1];
    var q, r := low / 32, low % 32;
    assert Val(s) == 32 * (8 * high + q) + r;
    Quotient(Val(s), 32, 8 * high + q, r);
  }

  /** An update that has read conf: how it ends, and that the same settings are read from the new loader. */
  ghost predicate UpdatedWith(b: Bytes, mid: Bytes, b': Bytes, bps: nat, loaders: bool -> Bytes, isFs: Bytes -> bool,
                              orig: Bytes, r: Status, conf: Bytes) {
    && |b| >= SECTOR && |orig| == SECTOR && |conf| == LONG && RoundUp(|loaders(IsSmall(conf))|) < 0x1_0000 * SECTOR
    && r == ReinstallStatus(Merged(orig, Head(b)), |b|, bps, loaders(IsSmall(conf)), isFs)
    && (r == Ok ==> Resettled(mid, b', bps, conf, orig))
  }

  ghost predicate Updated(b: Bytes, trace: seq<Bytes>, bps: nat, loaders: bool -> Bytes, isFs: Bytes -> bool,
                          orig: Bytes, r: Status) {
    && |trace| == 4
    && exists conf :: ConfigRead(b, conf) && UpdatedWith(b, trace[2], trace[3], bps, loaders, isFs, orig, r, conf)
  }

  /**
   dc_update_boot on a disk that keeps the boot code of orig: the old loader is removed, the new one installed, and
   the old configuration written into it.  Wherever it fails, the boot code is in place or saved.
   */
  method Update(d: Device, loaders: bool -> Bytes, record: Bytes, isFs: Bytes -> bool, back: Option<Bytes>,
                ghost orig: Bytes) returns (r: Status, ghost trace: seq<Bytes>)
    requires Usable(d) && IsRecord(record) && Keeps(d.Contents(), orig) && (back.Some? ==> |back.value| == SECTOR)
    requires forall s :: KeepsOff(Head(d.Contents()), d.bytes.Length, d.bps, loaders(s))
    modifies d.bytes
    ensures Run(trace, d.bps) && trace[0] == old(d.Contents()) && trace[|trace| - 1] == d.Contents()
    ensures Keeps(d.Contents(), orig) && d.Contents()[440..510] == old(d.Contents())[440..510]
    ensures var early := ConfigStatus(old(d.Contents()), d.bps);
            if early != Ok then r == early && trace == [d.Contents()]
            else Updated(old(d.Contents()), trace, d.bps, loaders, isFs, orig, r)
  {
    ghost var b0 := d.Contents();
    trace := [b0];
    KeepsFits(b0, orig);
    var conf;
    r, conf := GetConfig(d);
    if r != Ok {
      return;
    }
    ghost var writes;
    r, writes := Uninstall(d, back);
    ghost var b1 := d.Contents();
    UninstalledIsSafe(b0, b1, d.bps, orig, back);
    ghost var b2;
    r, b2 := UpdateRest(d, conf, loaders, record, isFs, b0, orig);
    TraceOf(b0, b1, b2, d.Contents(), d.bps, orig);
    trace := [b0, b1, b2, d.Contents()];
  }

  method UpdateRest(d: Device, conf: Bytes, loaders: bool -> Bytes, record: Bytes, isFs: Bytes -> bool,
                    ghost b0: Bytes, ghost orig: Bytes) returns (r: Status, ghost mid: Bytes)
    requires Usable(d) && IsRecord(record) && |conf| == LONG && Keeps(d.Contents(), orig)
    requires |b0| == d.bytes.Length >= SECTOR && Head(d.Contents()) == Merged(orig, Head(b0))
    requires forall s :: KeepsOff(Head(b0), d.bytes.Length, d.bps, loaders(s))
    modifies d.bytes
    ensures UpdatedWith(b0, mid, d.Contents(), d.bps, loaders, isFs, orig, r, conf)
    ensures Safe(old(d.Contents()), mid, d.bps, orig) && Safe(mid, d.Contents(), d.bps, orig)
  {
    var small := IsSmall(conf);
    assert KeepsOff(Head(b0), d.bytes.Length, d.bps, loaders(small));
    SameRoom(Head(d.Contents()), Head(b0), d.bps, d.bytes.Length, RoundUp(|loaders(small)|), false);
    r, mid := Reinstall(d, conf, loaders(small), small, record, isFs, orig);
  }
}
