/** HMAC (RFC 2104) over any hash with 128-byte blocks and 64-byte digests. */
module Hmac {
  import opened Words
  import opened Hashing

  const IPAD: bv8 := 0x36
  const OPAD: bv8 := 0x5C

  // ---- the specification --------------------------------------------------------------------------

  function XorAll(s: Bytes, c: bv8): (r: Bytes)
    ensures |r| == |s|
  {
    seq(|s|, (i: nat) requires i < |s| => Xor8(s[i], c))
  }

  /** The key made exactly one block long; a longer key is replaced by its hash. */
  function KeyBlock(h: Bytes -> Bytes, key: Bytes): (r: Bytes)
    ensures |h(key)| == 64 ==> |r| == BLOCK
  {
    if |key| > BLOCK then h(key) + Zeros(64) else key + Zeros(BLOCK - |key|)
  }

  function HmacOf(h: Bytes -> Bytes, key: Bytes, text: Bytes): Bytes {
    h(XorAll(KeyBlock(h, key), OPAD) + h(XorAll(KeyBlock(h, key), IPAD) + text))
  }

  /** Byte i of a key of one block or less, with zeros behind it. */
  function KeyByte(k: Bytes, i: nat): bv8 {
    if i < |k| then k[i] else 0
  }

  /** RFC 2104 section 2 with the pads written out, for blocks of 128 bytes. */
  lemma HmacIs(h: Bytes -> Bytes, key: Bytes, text: Bytes)
    requires |h(key)| == 64
    ensures var k := if |key| > 128 then h(key) else key;
            var inner := seq(128, (i: nat) => KeyByte(k, i) ^ 0x36);
            var outer := seq(128, (i: nat) => KeyByte(k, i) ^ 0x5C);
            HmacOf(h, key, text) == h(outer + h(inner + text))
  {
    var k := if |key| > 128 then h(key) else key;
    var inner := seq(128, (i: nat) => KeyByte(k, i) ^ 0x36);
    var outer := seq(128, (i: nat) => KeyByte(k, i) ^ 0x5C);
    var block := KeyBlock(h, key);
    assert forall i: nat | i < 128 :: block[i] == KeyByte(k, i);
    assert XorAll(block, IPAD) == inner;
    assert XorAll(block, OPAD) == outer;
  }

  ghost predicate Sized<H(!new)>(alg: Algorithm<H>) {
    forall s :: |alg.digest(s)| == 64
  }

  /** The hash a context computes, as a function of the message. */
  function HashOf<H>(alg: Algorithm<H>): Bytes -> Bytes {
    msg => CodeHash(alg, msg)
  }

  function FipsHashOf<H>(alg: Algorithm<H>): Bytes -> Bytes {
    msg => Hash(alg, msg)
  }

  /** For all keys and texts whose hashed messages stay under 2^64 bits, this is HMAC over the standard's hash. */
  lemma HmacIsStandard<H(!new)>(alg: Algorithm<H>, key: Bytes, text: Bytes)
    requires Sized(alg) && 8 * |key| < WRAP && 8 * (BLOCK + |text|) < WRAP
    ensures HmacOf(HashOf(alg), key, text) == HmacOf(FipsHashOf(alg), key, text)
  {
    var h, f := HashOf(alg), FipsHashOf(alg);
    CodeHashIsHash(alg, key);
    assert h(key) == f(key) && |h(key)| == 64;
    var k := KeyBlock(h, key);
    CodeHashIsHash(alg, XorAll(k, IPAD) + text);
    var inner := h(XorAll(k, IPAD) + text);
    assert |inner| == 64;
    CodeHashIsHash(alg, XorAll(k, OPAD) + inner);
  }

  // ---- the context --------------------------------------------------------------------------------

  lemma Associative(a: Bytes, b: Bytes, c: Bytes)
    ensures (a + b) + c == a + (b + c)
  {
  }

  /** sha512_hmac_ctx as a value. */
  datatype SavedHmac<H> = SavedHmac(hash: Saved<H>, paddedKey: Bytes)

  /** The value stands for this key and this text. */
  ghost predicate Keyed<H>(alg: Algorithm<H>, s: SavedHmac<H>, key: Bytes, text: Bytes, q: nat) {
    && |s.paddedKey| == BLOCK && s.paddedKey == KeyBlock(HashOf(alg), key)
    && Stands(alg, s.hash, XorAll(s.paddedKey, IPAD) + text, q)
  }

  /** sha512_hmac_ctx; key and text are what it has been given. */
  class HmacContext<!H(!new)> {
    const hash: Context<H>
    const paddedKey: array<bv8>
    ghost var key: Bytes
    ghost var text: Bytes

    ghost function Repr(): set<object> {
      {this, hash, hash.buf, paddedKey}
    }

    ghost predicate Shape() {
      paddedKey.Length == BLOCK && hash.buf.Length == BLOCK && hash.buf != paddedKey && Sized(hash.alg)
    }

    ghost predicate Valid()
      reads Repr()
    {
      && Shape() && hash.Valid()
      && paddedKey[..] == KeyBlock(HashOf(hash.alg), key)
      && hash.msg == XorAll(paddedKey[..], IPAD) + text
    }

    constructor (alg: Algorithm<H>)
      requires Sized(alg)
      ensures Shape() && hash.alg == alg && fresh(Repr())
    {
      hash := new Context(alg);
      paddedKey := new bv8[BLOCK];
    }

    method StoreKey(k: Bytes)
      requires Shape() && |k| <= BLOCK
      modifies paddedKey
      ensures paddedKey[..] == k + Zeros(BLOCK - |k|)
    {
      for i := 0 to BLOCK
        invariant forall j | 0 <= j < i :: paddedKey[j] == (k + Zeros(BLOCK - |k|))[j]
      {
        paddedKey[i] := if i < |k| then k[i] else 0;
      }
    }

    /** The pad block loops. */
    method PadBlock(c: bv8) returns (block: Bytes)
      requires Shape()
      ensures block == XorAll(paddedKey[..], c)
    {
      block := [];
      for i := 0 to BLOCK
        invariant block == XorAll(paddedKey[..i], c)
      {
        assert paddedKey[..i + 1] == paddedKey[..i] + [paddedKey[i]];
        block := block + [Xor8(paddedKey[i], c)];
      }
      assert paddedKey[..] == paddedKey[..BLOCK];
    }

    /** The first half of sha512_hmac_init: a key longer than a block is replaced by its digest. */
    method FillKey(k: Bytes)
      requires Shape()
      modifies Repr()
      ensures paddedKey[..] == KeyBlock(HashOf(hash.alg), k)
    {
      if |k| > BLOCK {
        hash.Init();
        hash.Update(k);
        assert hash.msg == k;
        var d := hash.Done();
        StoreKey(d);
      } else {
        StoreKey(k);
      }
    }

    /** sha512_hmac_init. */
    method Init(k: Bytes)
      requires Shape()
      modifies Repr()
      ensures Valid() && key == k && text == []
    {
      FillKey(k);
      var block := PadBlock(IPAD);
      hash.Init();
      hash.Update(block);
      assert hash.msg == block + [];
      key, text := k, [];
    }

    /** sha512_hmac_hash. */
    method Update(data: Bytes)
      requires Valid()
      modifies Repr()
      ensures Valid() && key == old(key) && text == old(text) + data
    {
      ghost var pad := XorAll(paddedKey[..], IPAD);
      hash.Update(data);
      Associative(pad, text, data);
      assert XorAll(paddedKey[..], IPAD) == pad;
      text := text + data;
    }

    /** sha512_hmac_done. */
    method Done() returns (out: Bytes)
      requires Valid()
      modifies Repr()
      ensures Shape()
      ensures out == HmacOf(HashOf(hash.alg), old(key), old(text)) && |out| == 64
    {
      var inner := hash.Done();
      var block := PadBlock(OPAD);
      hash.Init();
      hash.Update(block);
      hash.Update(inner);
      assert [] + block + inner == block + inner;
      out := hash.Done();
    }

    method Save() returns (s: SavedHmac<H>)
      requires Valid()
      ensures Keyed(hash.alg, s, key, text, hash.blocks)
    {
      var inner := hash.Save();
      s := SavedHmac(inner, paddedKey[..]);
    }

    /** The structure assignment ctx = base. */
    method Restore(s: SavedHmac<H>, ghost k: Bytes, ghost t: Bytes, ghost q: nat)
      requires Shape() && Keyed(hash.alg, s, k, t, q)
      modifies Repr()
      ensures Valid() && key == k && text == t
    {
      hash.Restore(s.hash, XorAll(s.paddedKey, IPAD) + t, q);
      StoreKey(s.paddedKey);
      assert s.paddedKey + Zeros(0) == s.paddedKey;
      key, text := k, t;
    }
  }

  /** The one-shot sha512_hmac. */
  method HmacOnce<H(!new)>(alg: Algorithm<H>, key: Bytes, data: Bytes) returns (out: Bytes)
    requires Sized(alg)
    ensures out == HmacOf(HashOf(alg), key, data) && |out| == 64
  {
    var ctx := new HmacContext(alg);
    ctx.Init(key);
    ctx.Update(data);
    assert [] + data == data;
    out := ctx.Done();
  }
}
