/**
 The buffered hash state machine: a message cut into any pieces, padded and folded block by block.

 The machine is written over an arbitrary compression function on 128-byte blocks.
 */
module Hashing {
  import opened Words
  import opened Division

  type Bytes = seq<bv8>

  /** A Merkle-Damgard hash with 128-byte blocks. */
  datatype Algorithm<!H> = Algorithm(init: H, comp: (H, Bytes) -> H, digest: H -> Bytes)

  const BLOCK: nat := 128

  /** 2^64, where the length counter wraps around. */
  const WRAP: nat := 0x1_0000_0000_0000_0000

  // ---- the specification --------------------------------------------------------------------------

  function Zeros(n: nat): (r: Bytes)
    ensures |r| == n
  {
    seq(n, _ => 0)
  }

  /** The last k base-256 digits of n, most significant first. */
  function BigEndian(n: nat, k: nat): (r: Bytes)
    ensures |r| == k
    decreases k, n
  {
    if k == 0 then [] else BigEndian(n / 256, k - 1) + [ToByte(n % 256)]
  }

  /** The number of zero bytes that bring a message of n bytes and its 0x80 to 112 modulo 128. */
  function Gap(n: nat): (z: nat)
    ensures z < BLOCK && (n + 1 + z) % BLOCK == 112
  {
    (239 - n % BLOCK) % BLOCK
  }

  /** The message, a one bit and the zeros before the length field. */
  function Head(msg: Bytes): (r: Bytes)
    ensures |r| % BLOCK == 112
  {
    msg + [0x80] + Zeros(Gap(|msg|))
  }

  /** Section 5.1.2 of FIPS 180-4: the length field holds the bit count as a 128-bit number. */
  function Padded(msg: Bytes): Bytes {
    Head(msg) + BigEndian(8 * |msg|, 16)
  }

  /** The 64-bit length counter after n bytes. */
  function BitCount(n: nat): nat {
    8 * n % WRAP
  }

  /** What sha512_done makes of a message: the upper half of the length field is always zero. */
  function CodePadded(msg: Bytes): Bytes {
    Head(msg) + (Zeros(8) + BigEndian(BitCount(|msg|), 8))
  }

  function Fold<H>(comp: (H, Bytes) -> H, h: H, s: Bytes): H {
    if |s| < BLOCK then h else Fold(comp, comp(h, s[..BLOCK]), s[BLOCK..])
  }

  /** The hash of a message as the standard defines it. */
  function Hash<H>(alg: Algorithm<H>, msg: Bytes): Bytes {
    alg.digest(Fold(alg.comp, alg.init, Padded(msg)))
  }

  function CodeHash<H>(alg: Algorithm<H>, msg: Bytes): Bytes {
    alg.digest(Fold(alg.comp, alg.init, CodePadded(msg)))
  }

  // ---- the two paddings ---------------------------------------------------------------------------

  function Value(s: Bytes): nat {
    if s == [] then 0 else 256 * Value(s[..|s| - 1]) + (s[|s| - 1] as nat)
  }

  lemma DivMod256(n: nat, p: nat)
    requires p > 0
    ensures n % (256 * p) == 256 * ((n / 256) % p) + n % 256
  {
    var q, r := n / 256, n % 256;
    var a, b := q / p, q % p;
    assert n == 256 * (a * p + b) + r;
    assert n == (256 * p) * a + (256 * b + r);
    assert 256 * b + r < 256 * p;
    Quotient(n, 256 * p, a, 256 * b + r);
  }

  lemma {:induction false} ValueOfBigEndian(n: nat, k: nat)
    ensures Value(BigEndian(n, k)) == n % Pow256(k)
  {
    if k > 0 {
      ValueOfBigEndian(n / 256, k - 1);
      DivMod256(n, Pow256(k - 1));
      ToByteValue(n % 256);
      assert BigEndian(n, k)[..k - 1] == BigEndian(n / 256, k - 1);
    }
  }

  lemma {:induction false} ValueOfZeros(n: nat, s: Bytes)
    ensures Value(Zeros(n) + s) == Value(s)
  {
    if s != [] {
      var last := |s| - 1;
      assert (Zeros(n) + s)[..n + last] == Zeros(n) + s[..last];
      ValueOfZeros(n, s[..last]);
    } else if n > 0 {
      assert Zeros(n) + s == Zeros(n);
      assert Zeros(n)[..n - 1] == Zeros(n - 1) + [];
      ValueOfZeros(n - 1, []);
    } else {
      assert Zeros(0) + s == [];
    }
  }

  lemma {:induction false} LeadingZeros(n: nat, j: nat, k: nat)
    requires n < Pow256(k)
    ensures BigEndian(n, j + k) == Zeros(j) + BigEndian(n, k)
  {
    if k > 0 {
      LeadingZeros(n / 256, j, k - 1);
    } else if j > 0 {
      LeadingZeros(0, j - 1, 0);
      ToByteValue(0);
      assert BigEndian(0, j) == BigEndian(0, j - 1) + [ToByte(0)];
    }
  }

  lemma EightBytes()
    ensures Pow256(8) == WRAP && Pow256(16) == WRAP * WRAP
  {
    assert Pow256(4) == 256 * 256 * 256 * 256;
    assert Pow256(8) == 256 * 256 * 256 * 256 * Pow256(4);
    assert Pow256(12) == 256 * 256 * 256 * 256 * Pow256(8);
    assert Pow256(16) == 256 * 256 * 256 * 256 * Pow256(12);
  }

  lemma SamePadding(msg: Bytes)
    requires 8 * |msg| < WRAP
    ensures CodePadded(msg) == Padded(msg)
  {
    var n := 8 * |msg|;
    SmallMod(n, WRAP);
    EightBytes();
    LeadingZeros(n, 8, 8);
  }

  lemma OtherField(n: nat)
    requires WRAP <= n < WRAP * WRAP
    ensures BigEndian(n, 16) != Zeros(8) + BigEndian(n % WRAP, 8)
  {
    EightBytes();
    ValueOfBigEndian(n, 16);
    ValueOfBigEndian(n % WRAP, 8);
    ValueOfZeros(8, BigEndian(n % WRAP, 8));
    SmallMod(n, WRAP * WRAP);
    SmallMod(n % WRAP, WRAP);
  }

  lemma OtherPadding(msg: Bytes)
    requires WRAP <= 8 * |msg| < WRAP * WRAP
    ensures CodePadded(msg) != Padded(msg)
  {
    OtherField(8 * |msg|);
    assert Padded(msg)[|Head(msg)|..] == BigEndian(8 * |msg|, 16);
    assert CodePadded(msg)[|Head(msg)|..] == Zeros(8) + BigEndian(BitCount(|msg|), 8);
  }

  lemma SmallMod(n: nat, d: nat)
    requires n < d
    ensures n % d == n
  {
  }

  /** The code's padding is the standard's exactly for the messages under 2^64 bits. */
  lemma PaddingAgrees(msg: Bytes)
    requires 8 * |msg| < WRAP * WRAP
    ensures CodePadded(msg) == Padded(msg) <==> 8 * |msg| < WRAP
  {
    if 8 * |msg| < WRAP {
      SamePadding(msg);
    } else {
      OtherPadding(msg);
    }
  }

  lemma FieldFits(n: nat)
    requires n % BLOCK == 112
    ensures (n + 16) % BLOCK == 0
  {
  }

  lemma WholeBlocks(msg: Bytes)
    ensures |Padded(msg)| % BLOCK == 0 && |CodePadded(msg)| == |Padded(msg)|
  {
    FieldFits(|Head(msg)|);
  }

  /** Below 2^64 bits the context computes the hash of the standard. */
  lemma CodeHashIsHash<H>(alg: Algorithm<H>, msg: Bytes)
    requires 8 * |msg| < WRAP
    ensures CodeHash(alg, msg) == Hash(alg, msg)
  {
    SamePadding(msg);
  }

  // ---- folding ------------------------------------------------------------------------------------

  lemma FoldOne<H>(comp: (H, Bytes) -> H, h: H, block: Bytes)
    requires |block| == BLOCK
    ensures Fold(comp, h, block) == comp(h, block)
  {
    assert block[..BLOCK] == block && block[BLOCK..] == [];
    assert Fold(comp, comp(h, block), []) == comp(h, block);
  }

  lemma {:induction false} FoldSplit<H>(comp: (H, Bytes) -> H, h: H, a: Bytes, b: Bytes, q: nat)
    requires |a| == BLOCK * q
    ensures Fold(comp, h, a + b) == Fold(comp, Fold(comp, h, a), b)
  {
    if q == 0 {
      assert a + b == b;
    } else {
      assert (a + b)[..BLOCK] == a[..BLOCK] && (a + b)[BLOCK..] == a[BLOCK..] + b;
      FoldSplit(comp, comp(h, a[..BLOCK]), a[BLOCK..], b, q - 1);
    }
  }

  /** The state after a message: its first q blocks are in the hash, the rest is held back. */
  ghost predicate Holds<H>(alg: Algorithm<H>, msg: Bytes, hash: H, length: nat, held: Bytes, q: nat) {
    && |held| < BLOCK && |msg| == BLOCK * q + |held|
    && held == msg[BLOCK * q..]
    && hash == Fold(alg.comp, alg.init, msg[..BLOCK * q])
    && length == BitCount(BLOCK * q)
  }

  /** The length counter after c more bytes. */
  function Counted(length: nat, c: nat): nat {
    (length + 8 * c) % WRAP
  }

  lemma CountMore(n: nat, c: nat)
    ensures Counted(BitCount(n), c) == BitCount(n + c)
  {
  }

  /** Bytes that do not complete a block are held back. */
  lemma HoldMore<H>(alg: Algorithm<H>, msg: Bytes, hash: H, length: nat, held: Bytes, part: Bytes, q: nat)
    requires Holds(alg, msg, hash, length, held, q) && |held| + |part| < BLOCK
    ensures Holds(alg, msg + part, hash, length, held + part, q)
  {
    assert (msg + part)[..BLOCK * q] == msg[..BLOCK * q];
    assert (msg + part)[BLOCK * q..] == msg[BLOCK * q..] + part;
  }

  /** Bytes that complete a block are compressed with what was held back. */
  lemma CompleteBlock<H>(alg: Algorithm<H>, msg: Bytes, hash: H, length: nat, held: Bytes, part: Bytes, q: nat)
    requires Holds(alg, msg, hash, length, held, q) && |held| + |part| == BLOCK
    ensures Holds(alg, msg + part, alg.comp(hash, held + part), Counted(length, BLOCK), [], q + 1)
  {
    assert msg + part == msg[..BLOCK * q] + (held + part);
    FoldSplit(alg.comp, alg.init, msg[..BLOCK * q], held + part, q);
    FoldOne(alg.comp, hash, held + part);
    CountMore(BLOCK * q, BLOCK);
    assert (msg + part)[..BLOCK * (q + 1)] == msg + part;
  }

  lemma GapShort(q: nat, c: nat)
    requires c <= 111
    ensures Gap(BLOCK * q + c) == 111 - c
  {
  }

  lemma GapLong(q: nat, c: nat)
    requires 112 <= c < BLOCK
    ensures Gap(BLOCK * q + c) == 239 - c
  {
  }

  /** Room for the length field: one more block. */
  lemma DoneShort<H>(alg: Algorithm<H>, msg: Bytes, hash: H, length: nat, held: Bytes, field: Bytes, q: nat)
    requires Holds(alg, msg, hash, length, held, q) && |held| <= 111
    requires field == BigEndian(BitCount(|msg|), 8)
    ensures Fold(alg.comp, alg.init, CodePadded(msg)) == alg.comp(hash, held + [0x80] + Zeros(119 - |held|) + field)
  {
    var start, last := msg[..BLOCK * q], held + [0x80] + Zeros(119 - |held|) + field;
    GapShort(q, |held|);
    assert msg == start + held;
    assert Zeros(119 - |held|) == Zeros(111 - |held|) + Zeros(8);
    assert CodePadded(msg) == start + last;
    FoldSplit(alg.comp, alg.init, start, last, q);
    FoldOne(alg.comp, hash, last);
  }

  /** No room: zeros to the end of the block, and a second block of zeros and the length. */
  lemma DoneLong<H>(alg: Algorithm<H>, msg: Bytes, hash: H, length: nat, held: Bytes, field: Bytes, q: nat)
    requires Holds(alg, msg, hash, length, held, q) && |held| >= 112
    requires field == BigEndian(BitCount(|msg|), 8)
    ensures Fold(alg.comp, alg.init, CodePadded(msg))
         == alg.comp(alg.comp(hash, held + [0x80] + Zeros(127 - |held|)), Zeros(120) + field)
  {
    var start := msg[..BLOCK * q];
    var first, last := held + [0x80] + Zeros(127 - |held|), Zeros(120) + field;
    GapLong(q, |held|);
    assert msg == start + held;
    assert Zeros(239 - |held|) + Zeros(8) == Zeros(127 - |held|) + Zeros(120);
    assert CodePadded(msg) == start + (first + last);
    FoldSplit(alg.comp, alg.init, start, first + last, q);
    FoldSplit(alg.comp, hash, first, last, 1);
    FoldOne(alg.comp, hash, first);
    FoldOne(alg.comp, alg.comp(hash, first), last);
  }

  /** What the first part of sha512_done leaves behind, and what the last block then makes of it. */
  ghost predicate Terminated<H>(alg: Algorithm<H>, hash: H, held: Bytes, hash': H, rest: Bytes) {
    if |held| <= 111 then hash' == hash && rest == held + [0x80]
    else |held| < BLOCK && rest == [] && hash' == alg.comp(hash, held + [0x80] + Zeros(127 - |held|))
  }

  lemma Finish<H>(alg: Algorithm<H>, msg: Bytes, hash: H, length: nat, held: Bytes, hash': H, rest: Bytes,
                  field: Bytes, q: nat)
    requires Holds(alg, msg, hash, length, held, q) && Terminated(alg, hash, held, hash', rest)
    requires field == BigEndian(BitCount(|msg|), 8)
    ensures |rest| <= 112
    ensures Fold(alg.comp, alg.init, CodePadded(msg)) == alg.comp(hash', rest + Zeros(120 - |rest|) + field)
  {
    if |held| <= 111 {
      DoneShort(alg, msg, hash, length, held, field, q);
    } else {
      DoneLong(alg, msg, hash, length, held, field, q);
      assert rest + Zeros(120) == Zeros(120);
    }
  }

  // ---- the context --------------------------------------------------------------------------------

  /** sha512_ctx as a value, for the structure assignments. */
  datatype Saved<H> = Saved(hash: H, length: nat, curlen: nat, buf: Bytes)

  ghost predicate Stands<H>(alg: Algorithm<H>, s: Saved<H>, msg: Bytes, q: nat) {
    |s.buf| == BLOCK && s.curlen < BLOCK && Holds(alg, msg, s.hash, s.length, s.buf[..s.curlen], q)
  }

  /** sha512_ctx; msg is what has been hashed since the last initialisation. */
  class Context<!H> {
    const alg: Algorithm<H>
    const buf: array<bv8>
    var hash: H
    var length: nat
    var curlen: nat
    ghost var msg: Bytes
    ghost var blocks: nat

    ghost predicate Valid()
      reads this, buf
    {
      buf.Length == BLOCK && curlen < BLOCK && Holds(alg, msg, hash, length, buf[..curlen], blocks)
    }

    constructor (alg: Algorithm<H>)
      ensures Valid() && this.alg == alg && msg == [] && fresh(buf)
    {
      this.alg := alg;
      buf := new bv8[BLOCK];
      curlen, length, hash, msg, blocks := 0, 0, alg.init, [], 0;
    }

    /** sha512_init. */
    method Init()
      requires buf.Length == BLOCK
      modifies this
      ensures Valid() && msg == []
    {
      curlen, length, hash, msg, blocks := 0, 0, alg.init, [], 0;
    }

    /** The structure as a value. */
    method Save() returns (s: Saved<H>)
      requires Valid()
      ensures Stands(alg, s, msg, blocks)
    {
      s := Saved(hash, length, curlen, buf[..]);
      assert s.buf[..s.curlen] == buf[..curlen];
    }

    /** The structure assignment: the whole of s, buffer included. */
    method Restore(s: Saved<H>, ghost m: Bytes, ghost q: nat)
      requires buf.Length == BLOCK && Stands(alg, s, m, q)
      modifies this, buf
      ensures Valid() && msg == m
    {
      for i := 0 to BLOCK
        invariant buf[..i] == s.buf[..i]
      {
        buf[i] := s.buf[i];
      }
      assert buf[..s.curlen] == buf[..BLOCK][..s.curlen] == s.buf[..s.curlen];
      curlen, length, hash := s.curlen, s.length, s.hash;
      msg, blocks := m, q;
    }

    /** memcpy(ctx->buf + ctx->curlen, in, n). */
    method Copy(part: Bytes)
      requires buf.Length == BLOCK && curlen + |part| <= BLOCK
      modifies buf
      ensures buf[..curlen + |part|] == old(buf[..curlen]) + part
    {
      for i := 0 to |part|
        invariant buf[..curlen + i] == old(buf[..curlen]) + part[..i]
      {
        buf[curlen + i] := part[i];
      }
    }

    /** A whole block straight from the input. */
    method TakeBlock(block: Bytes)
      requires Valid() && curlen == 0 && |block| == BLOCK
      modifies this
      ensures Valid() && msg == old(msg) + block
    {
      CompleteBlock(alg, msg, hash, length, buf[..curlen], block, blocks);
      assert buf[..curlen] + block == block;
      hash := alg.comp(hash, block);
      length := Counted(length, BLOCK);
      msg, blocks := msg + block, blocks + 1;
    }

    /** A piece through the buffer, which is compressed when it is full. */
    method TakePiece(part: Bytes)
      requires Valid() && curlen + |part| <= BLOCK
      modifies this, buf
      ensures Valid() && msg == old(msg) + part
    {
      ghost var held := buf[..curlen];
      Copy(part);
      curlen := curlen + |part|;
      if curlen == BLOCK {
        CompleteBlock(alg, msg, hash, length, held, part, blocks);
        assert buf[..] == held + part;
        hash := alg.comp(hash, buf[..]);
        length := Counted(length, BLOCK);
        curlen := 0;
        blocks := blocks + 1;
      } else {
        HoldMore(alg, msg, hash, length, held, part, blocks);
      }
      msg := msg + part;
    }

    /** One pass of the loop of sha512_hash. */
    method Absorb(input: Bytes) returns (n: nat)
      requires Valid() && input != []
      modifies this, buf
      ensures Valid() && 0 < n <= |input| && msg == old(msg) + input[..n]
    {
      if curlen == 0 && |input| >= BLOCK {
        n := BLOCK;
        TakeBlock(input[..n]);
      } else {
        n := BLOCK - curlen;
        if n > |input| {
          n := |input|;
        }
        TakePiece(input[..n]);
      }
    }

    /** sha512_hash: however a message is cut into calls, the context stands for the whole of it. */
    method Update(input: Bytes)
      requires Valid()
      modifies this, buf
      ensures Valid() && msg == old(msg) + input
    {
      var rest := input;
      while rest != []
        invariant Valid() && msg + rest == old(msg) + input
        decreases |rest|
      {
        ghost var before := msg;
        var n := Absorb(rest);
        assert before + rest == before + rest[..n] + rest[n..];
        rest := rest[n..];
      }
    }

    /** The two zeroing loops of sha512_done. */
    method ZeroUpTo(end: nat)
      requires buf.Length == BLOCK && curlen <= end <= BLOCK
      modifies this`curlen, buf
      ensures curlen == end && buf[..end] == old(buf[..curlen]) + Zeros(end - old(curlen))
    {
      while curlen < end
        invariant old(curlen) <= curlen <= end
        invariant buf[..curlen] == old(buf[..curlen]) + Zeros(curlen - old(curlen))
      {
        buf[curlen] := 0;
        curlen := curlen + 1;
      }
    }

    method StoreLength()
      requires buf.Length == BLOCK
      modifies buf
      ensures buf[..] == old(buf[..120]) + BigEndian(length, 8)
    {
      var field := BigEndian(length, 8);
      for i := 0 to 8
        invariant buf[..120 + i] == old(buf[..120]) + field[..i]
      {
        buf[120 + i] := field[i];
      }
    }

    /** The second part of sha512_done: zeros up to the length field, the length, the last compression. */
    method LastBlock()
      requires buf.Length == BLOCK && curlen <= 120
      modifies this, buf
      ensures hash == alg.comp(old(hash), old(buf[..curlen]) + Zeros(120 - old(curlen)) + BigEndian(old(length), 8))
    {
      ZeroUpTo(120);
      StoreLength();
      hash := alg.comp(hash, buf[..]);
    }

    /** The first part: 0x80, and a block of its own when the length field does not fit any more. */
    method Terminate()
      requires Valid()
      modifies this, buf
      ensures curlen <= 112 && length == BitCount(|old(msg)|)
      ensures Terminated(alg, old(hash), old(buf[..curlen]), hash, buf[..curlen])
    {
      ghost var held := buf[..curlen];
      CountMore(BLOCK * blocks, curlen);
      length := Counted(length, curlen);
      buf[curlen] := 0x80;
      curlen := curlen + 1;
      assert buf[..curlen] == held + [0x80];
      if curlen > 112 {
        ZeroUpTo(BLOCK);
        assert buf[..] == held + [0x80] + Zeros(127 - |held|);
        hash := alg.comp(hash, buf[..]);
        curlen := 0;
      }
    }

    /** sha512_done. */
    method Done() returns (out: Bytes)
      requires Valid()
      modifies this, buf
      ensures out == CodeHash(alg, old(msg))
    {
      Terminate();
      Finish(alg, old(msg), old(hash), old(length), old(buf[..curlen]), hash, buf[..curlen], BigEndian(length, 8),
             old(blocks));
      LastBlock();
      out := alg.digest(hash);
    }
  }
}
