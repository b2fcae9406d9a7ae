/** PBKDF2 (RFC 8018 section 5.2): one keyed context, copied for every call of the pseudo-random function. */
module Pbkdf2 {
  import opened Wrappers
  import opened Words
  import opened Hashing
  import opened Hmac

  // ---- the specification --------------------------------------------------------------------------

  ghost predicate DigestSized(prf: Bytes -> Bytes) {
    forall t :: |prf(t)| == 64
  }

  function XorBytes(a: Bytes, b: Bytes): (r: Bytes)
    requires |a| == |b|
    ensures |r| == |a|
  {
    seq(|a|, (i: nat) requires i < |a| => Xor8(a[i], b[i]))
  }

  /** U_j of block i. */
  function U(prf: Bytes -> Bytes, salt: Bytes, i: nat, j: nat): Bytes {
    if j <= 1 then prf(salt + BigEndian(i, 4)) else prf(U(prf, salt, i, j - 1))
  }

  /** F (P, S, c, i): the exclusive or of U_1 to U_c. */
  ghost function F(prf: Bytes -> Bytes, salt: Bytes, c: nat, i: nat): (r: Bytes)
    requires DigestSized(prf)
    ensures |r| == 64
    decreases c, i
  {
    if c <= 1 then U(prf, salt, i, 1) else XorBytes(F(prf, salt, c - 1, i), U(prf, salt, i, c))
  }

  /** T_1 || ... || T_n. */
  ghost function T(prf: Bytes -> Bytes, salt: Bytes, c: nat, n: nat): (r: Bytes)
    requires DigestSized(prf)
    ensures |r| == 64 * n
    decreases n, c
  {
    if n == 0 then [] else T(prf, salt, c, n - 1) + F(prf, salt, c, n)
  }

  /** The first len bytes of as many blocks as it takes. */
  ghost function DerivedKey(prf: Bytes -> Bytes, salt: Bytes, c: nat, len: nat): (r: Bytes)
    requires DigestSized(prf)
    ensures |r| == len
  {
    T(prf, salt, c, (len + 63) / 64)[..len]
  }

  lemma {:induction false} BlocksPrefix(prf: Bytes -> Bytes, salt: Bytes, c: nat, m: nat, n: nat)
    requires DigestSized(prf) && m <= n
    ensures T(prf, salt, c, m) == T(prf, salt, c, n)[..64 * m]
  {
    if m < n {
      BlocksPrefix(prf, salt, c, m, n - 1);
      assert T(prf, salt, c, n)[..64 * m] == T(prf, salt, c, n - 1)[..64 * m];
    }
  }

  /** A shorter derived key is a prefix of a longer one. */
  lemma ShorterIsPrefix(prf: Bytes -> Bytes, salt: Bytes, c: nat, len: nat, longer: nat)
    requires DigestSized(prf) && len <= longer
    ensures DerivedKey(prf, salt, c, len) == DerivedKey(prf, salt, c, longer)[..len]
  {
    var m, n := (len + 63) / 64, (longer + 63) / 64;
    BlocksPrefix(prf, salt, c, m, n);
    assert T(prf, salt, c, n)[..64 * m][..len] == T(prf, salt, c, n)[..len];
  }

  // ---- the code -----------------------------------------------------------------------------------

  function Prf<H>(alg: Algorithm<H>, pwd: Bytes): Bytes -> Bytes {
    text => HmacOf(HashOf(alg), pwd, text)
  }

  lemma PrfSized<H(!new)>(alg: Algorithm<H>, pwd: Bytes)
    requires Sized(alg)
    ensures DigestSized(Prf(alg, pwd))
  {
  }

  /** prf is HMAC under the password. */
  ghost predicate IsPrf<H>(alg: Algorithm<H>, pwd: Bytes, prf: Bytes -> Bytes) {
    DigestSized(prf) && forall t {:trigger Asked(t)} | Asked(t) :: prf(t) == HmacOf(HashOf(alg), pwd, t)
  }

  /** One call of the pseudo-random function: the keyed context is copied, not built again. */
  method Call<H(!new)>(base: SavedHmac<H>, ctx: HmacContext<H>, a: Bytes, b: Bytes,
                       ghost pwd: Bytes, ghost q: nat, ghost prf: Bytes -> Bytes) returns (u: Bytes)
    requires ctx.Shape() && Keyed(ctx.hash.alg, base, pwd, [], q) && IsPrf(ctx.hash.alg, pwd, prf)
    modifies ctx.Repr()
    ensures u == prf(a + b)
  {
    ctx.Restore(base, pwd, [], q);
    ctx.Update(a);
    assert ctx.text == a;
    ctx.Update(b);
    assert ctx.text == a + b && ctx.key == pwd;
    u := ctx.Done();
    assert Asked(a + b);
  }

  method XorInto(t: Bytes, u: Bytes) returns (r: Bytes)
    requires |t| == |u|
    ensures r == XorBytes(t, u)
  {
    r := [];
    for i := 0 to |t|
      invariant r == XorBytes(t[..i], u[..i])
    {
      assert t[..i + 1] == t[..i] + [t[i]] && u[..i + 1] == u[..i] + [u[i]];
      r := r + [Xor8(t[i], u[i])];
    }
    assert t[..|t|] == t && u[..|u|] == u;
  }

  /** The iterations behind U_1. */
  method Iterate<H(!new)>(base: SavedHmac<H>, ctx: HmacContext<H>, u1: Bytes, iCount: int,
                          ghost pwd: Bytes, ghost q: nat, ghost prf: Bytes -> Bytes,
                          ghost salt: Bytes, ghost block: nat) returns (t: Bytes)
    requires ctx.Shape() && Keyed(ctx.hash.alg, base, pwd, [], q) && IsPrf(ctx.hash.alg, pwd, prf)
    requires u1 == U(prf, salt, block, 1)
    modifies ctx.Repr()
    ensures t == F(prf, salt, if iCount < 1 then 1 else iCount, block)
  {
    var u, j := u1, 1;
    t := u;
    while j < iCount
      invariant 1 <= j && (j <= iCount || j == 1)
      invariant u == U(prf, salt, block, j) && t == F(prf, salt, j, block)
    {
      u, t := IterateOnce(base, ctx, u, t, pwd, q, prf);
      j := j + 1;
    }
  }

  method IterateOnce<H(!new)>(base: SavedHmac<H>, ctx: HmacContext<H>, u: Bytes, t: Bytes,
                              ghost pwd: Bytes, ghost q: nat, ghost prf: Bytes -> Bytes) returns (u': Bytes, t': Bytes)
    requires ctx.Shape() && Keyed(ctx.hash.alg, base, pwd, [], q) && IsPrf(ctx.hash.alg, pwd, prf) && |t| == 64
    modifies ctx.Repr()
    ensures u' == prf(u) && |u'| == 64 && t' == XorBytes(t, u')
  {
    u' := Call(base, ctx, u, [], pwd, q, prf);
    assert u + [] == u;
    t' := XorInto(t, u');
  }

  /** One block of the derived key.  A count below one behaves as one. */
  method Block<H(!new)>(base: SavedHmac<H>, ctx: HmacContext<H>, salt: Bytes, iCount: int, block: nat,
                        ghost pwd: Bytes, ghost q: nat, ghost prf: Bytes -> Bytes) returns (t: Bytes)
    requires ctx.Shape() && Keyed(ctx.hash.alg, base, pwd, [], q) && IsPrf(ctx.hash.alg, pwd, prf)
    modifies ctx.Repr()
    ensures t == F(prf, salt, if iCount < 1 then 1 else iCount, block)
  {
    var u := Call(base, ctx, salt, BigEndian(block, 4), pwd, q, prf);
    t := Iterate(base, ctx, u, iCount, pwd, q, prf, salt, block);
  }

  method Store(dk: array<bv8>, p: nat, t: Bytes, n: nat)
    requires p + n <= dk.Length && n <= |t|
    modifies dk
    ensures dk[..p + n] == old(dk[..p]) + t[..n]
  {
    for i := 0 to n
      invariant dk[..p + i] == old(dk[..p]) + t[..i]
    {
      dk[p + i] := t[i];
    }
  }

  /** What is derived after some blocks: p bytes, all of them unless the key is full. */
  ghost predicate Derived(prf: Bytes -> Bytes, salt: Bytes, c: nat, dk: Bytes, p: nat, blocks: nat) {
    && DigestSized(prf) && p <= |dk| && p <= 64 * blocks
    && (p == 64 * blocks || (p == |dk| && 64 * (blocks - 1) < p))
    && dk[..p] == T(prf, salt, c, blocks)[..p]
  }

  lemma OneMoreBlock(prf: Bytes -> Bytes, salt: Bytes, c: nat, dk: Bytes, dk': Bytes, p: nat, n: nat, blocks: nat)
    requires Derived(prf, salt, c, dk, p, blocks) && p < |dk| && |dk'| == |dk|
    requires n == if |dk| - p < 64 then |dk| - p else 64
    requires dk'[..p + n] == dk[..p] + F(prf, salt, c, blocks + 1)[..n]
    ensures Derived(prf, salt, c, dk', p + n, blocks + 1)
  {
    var done, more := T(prf, salt, c, blocks), F(prf, salt, c, blocks + 1);
    assert p == 64 * blocks && done[..p] == done;
    assert (done + more)[..p + n] == done + more[..n];
  }

  /** sha512_pkcs5_2. */
  method Derive<H(!new)>(alg: Algorithm<H>, iCount: int, pwd: Bytes, salt: Bytes, dk: array<bv8>)
    requires Sized(alg)
    modifies dk
    ensures DigestSized(Prf(alg, pwd))
    ensures dk[..] == DerivedKey(Prf(alg, pwd), salt, if iCount < 1 then 1 else iCount, dk.Length)
  {
    var ctx := new HmacContext(alg);
    ctx.Init(pwd);
    var base := ctx.Save();
    PrfSized(alg, pwd);
    DeriveBlocks(base, ctx, iCount, salt, dk, pwd, ctx.hash.blocks, Prf(alg, pwd));
  }

  /** The bytes of a block that the derived key still takes. */
  method Append(dk: array<bv8>, p: nat, t: Bytes, ghost block: nat,
                ghost prf: Bytes -> Bytes, ghost salt: Bytes, ghost c: nat) returns (n: nat)
    requires 1 <= block && Derived(prf, salt, c, dk[..], p, block - 1) && p < dk.Length && t == F(prf, salt, c, block)
    modifies dk
    ensures 0 < n && Derived(prf, salt, c, dk[..], p + n, block)
  {
    n := if dk.Length - p < 64 then dk.Length - p else 64;
    ghost var before := dk[..];
    assert before[..p] == dk[..p];
    Store(dk, p, t, n);
    assert dk[..][..p + n] == dk[..p + n];
    OneMoreBlock(prf, salt, c, before, dk[..], p, n, block - 1);
  }

  method DeriveBlocks<H(!new)>(base: SavedHmac<H>, ctx: HmacContext<H>, iCount: int, salt: Bytes, dk: array<bv8>,
                               ghost pwd: Bytes, ghost q: nat, ghost prf: Bytes -> Bytes)
    requires ctx.Shape() && Keyed(ctx.hash.alg, base, pwd, [], q) && IsPrf(ctx.hash.alg, pwd, prf) && dk !in ctx.Repr()
    modifies dk, ctx.Repr()
    ensures dk[..] == DerivedKey(prf, salt, if iCount < 1 then 1 else iCount, dk.Length)
  {
    ghost var c := if iCount < 1 then 1 else iCount;
    var block, p := 1, 0;
    NothingDerived(prf, salt, c, dk[..]);
    while p < dk.Length
      invariant 1 <= block && Derived(prf, salt, c, dk[..], p, block - 1)
    {
      var n := NextBlock(base, ctx, iCount, salt, dk, p, block, pwd, q, prf, c);
      p, block := p + n, block + 1;
    }
    AllDerived(prf, salt, c, dk[..], block - 1);
  }

  /** One pass of the loop over the blocks. */
  method NextBlock<H(!new)>(base: SavedHmac<H>, ctx: HmacContext<H>, iCount: int, salt: Bytes, dk: array<bv8>,
                            p: nat, block: nat, ghost pwd: Bytes, ghost q: nat, ghost prf: Bytes -> Bytes, ghost c: nat)
    returns (n: nat)
    requires ctx.Shape() && Keyed(ctx.hash.alg, base, pwd, [], q) && IsPrf(ctx.hash.alg, pwd, prf) && dk !in ctx.Repr()
    requires 1 <= block && p < dk.Length && Derived(prf, salt, c, dk[..], p, block - 1)
    requires c == if iCount < 1 then 1 else iCount
    modifies dk, ctx.Repr()
    ensures 0 < n && Derived(prf, salt, c, dk[..], p + n, block)
  {
    ghost var before := dk[..];
    var t := Block(base, ctx, salt, iCount, block, pwd, q, prf);
    assert dk[..] == before;
    n := Append(dk, p, t, block, prf, salt, c);
  }

  lemma NothingDerived(prf: Bytes -> Bytes, salt: Bytes, c: nat, dk: Bytes)
    requires DigestSized(prf)
    ensures Derived(prf, salt, c, dk, 0, 0)
  {
    assert dk[..0] == T(prf, salt, c, 0)[..0];
  }

  lemma AllDerived(prf: Bytes -> Bytes, salt: Bytes, c: nat, dk: Bytes, blocks: nat)
    requires Derived(prf, salt, c, dk, |dk|, blocks)
    ensures dk == DerivedKey(prf, salt, c, |dk|)
  {
    assert dk == dk[..|dk|];
    assert (|dk| + 63) / 64 == blocks;
  }

  // ---- the standard's hash ------------------------------------------------------------------------

  lemma {:induction false} SameU(prf: Bytes -> Bytes, std: Bytes -> Bytes, salt: Bytes, i: nat, j: nat)
    requires DigestSized(prf) && forall t | |t| <= 64 || |t| <= |salt| + 4 :: prf(t) == std(t)
    ensures U(prf, salt, i, j) == U(std, salt, i, j)
  {
    if j > 1 {
      SameU(prf, std, salt, i, j - 1);
    }
  }

  lemma {:induction false} SameF(prf: Bytes -> Bytes, std: Bytes -> Bytes, salt: Bytes, c: nat, i: nat)
    requires DigestSized(prf) && DigestSized(std)
    requires forall t | |t| <= 64 || |t| <= |salt| + 4 :: prf(t) == std(t)
    ensures F(prf, salt, c, i) == F(std, salt, c, i)
  {
    SameU(prf, std, salt, i, 1);
    if c > 1 {
      SameU(prf, std, salt, i, c);
      SameF(prf, std, salt, c - 1, i);
    }
  }

  lemma {:induction false} SameT(prf: Bytes -> Bytes, std: Bytes -> Bytes, salt: Bytes, c: nat, n: nat)
    requires DigestSized(prf) && DigestSized(std) && forall i :: F(prf, salt, c, i) == F(std, salt, c, i)
    ensures T(prf, salt, c, n) == T(std, salt, c, n)
  {
    if n > 0 {
      SameT(prf, std, salt, c, n - 1);
    }
  }

  function StandardPrf<H>(alg: Algorithm<H>, pwd: Bytes): Bytes -> Bytes {
    text => HmacOf(FipsHashOf(alg), pwd, text)
  }

  lemma StandardPrfSized<H(!new)>(alg: Algorithm<H>, pwd: Bytes)
    requires Sized(alg)
    ensures DigestSized(StandardPrf(alg, pwd))
  {
  }

  /** For passwords and salts under 2^64 bits the derived key is the one of the standards. */
  lemma DerivedKeyIsStandard<H(!new)>(alg: Algorithm<H>, pwd: Bytes, salt: Bytes, c: nat, len: nat)
    requires Sized(alg) && 8 * |pwd| < WRAP && 8 * (BLOCK + 64 + |salt|) < WRAP
    ensures DigestSized(Prf(alg, pwd)) && DigestSized(StandardPrf(alg, pwd))
    ensures DerivedKey(Prf(alg, pwd), salt, c, len) == DerivedKey(StandardPrf(alg, pwd), salt, c, len)
  {
    var prf, std := Prf(alg, pwd), StandardPrf(alg, pwd);
    PrfSized(alg, pwd);
    StandardPrfSized(alg, pwd);
    forall t | |t| <= 64 || |t| <= |salt| + 4 ensures prf(t) == std(t) {
      HmacIsStandard(alg, pwd, t);
    }
    forall i ensures F(prf, salt, c, i) == F(std, salt, c, i) {
      SameF(prf, std, salt, c, i);
    }
    SameT(prf, std, salt, c, (len + 63) / 64);
  }
}
