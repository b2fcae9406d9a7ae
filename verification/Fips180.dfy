/** SHA-512 as sections 3.2, 4.1.3 and 6.4.2 of FIPS 180-4 write it, over 64-bit words, for comparison. */
module Fips180 {
  import opened Sha512Core

  // ---- the standard -------------------------------------------------------------------------------

  /** ROTR and SHR by each of the amounts in use. */
  function Rotr1(x: bv64): bv64 {
    (x >> 1) | (x << 63)
  }

  function Rotr8(x: bv64): bv64 {
    (x >> 8) | (x << 56)
  }

  function Rotr14(x: bv64): bv64 {
    (x >> 14) | (x << 50)
  }

  function Rotr18(x: bv64): bv64 {
    (x >> 18) | (x << 46)
  }

  function Rotr19(x: bv64): bv64 {
    (x >> 19) | (x << 45)
  }

  function Rotr28(x: bv64): bv64 {
    (x >> 28) | (x << 36)
  }

  function Rotr34(x: bv64): bv64 {
    (x >> 34) | (x << 30)
  }

  function Rotr39(x: bv64): bv64 {
    (x >> 39) | (x << 25)
  }

  function Rotr41(x: bv64): bv64 {
    (x >> 41) | (x << 23)
  }

  function Rotr61(x: bv64): bv64 {
    (x >> 61) | (x << 3)
  }

  function Shr6(x: bv64): bv64 {
    x >> 6
  }

  function Shr7(x: bv64): bv64 {
    x >> 7
  }

  function CapSigma0(x: bv64): bv64 {
    Rotr28(x) ^ Rotr34(x) ^ Rotr39(x)
  }

  function CapSigma1(x: bv64): bv64 {
    Rotr14(x) ^ Rotr18(x) ^ Rotr41(x)
  }

  function LowSigma0(x: bv64): bv64 {
    Rotr1(x) ^ Rotr8(x) ^ Shr7(x)
  }

  function LowSigma1(x: bv64): bv64 {
    Rotr19(x) ^ Rotr61(x) ^ Shr6(x)
  }

  /** Where x has ones the bits of y, elsewhere those of z. */
  function Choose(x: bv64, y: bv64, z: bv64): bv64 {
    (x & y) | (!x & z)
  }

  /** The bits that at least two of the three have. */
  function Majority(x: bv64, y: bv64, z: bv64): bv64 {
    (x & y) | (x & z) | (y & z)
  }

  function Sum(x: bv64, y: bv64): bv64 {
    x + y
  }

  /** W_t. */
  function W(m: seq<bv64>, t: nat): bv64
    requires |m| == 16
    decreases t
  {
    if t < 16 then m[t]
    else Sum(Sum(Sum(LowSigma1(W(m, t - 2)), W(m, t - 7)), LowSigma0(W(m, t - 15))), W(m, t - 16))
  }

  /** Step 3 of section 6.4.2. */
  function NextVariables(r: Regs<bv64>, k: bv64, w: bv64): Regs<bv64> {
    var t1 := Sum(Sum(Sum(Sum(r.h, CapSigma1(r.e)), Choose(r.e, r.f, r.g)), k), w);
    var t2 := Sum(CapSigma0(r.a), Majority(r.a, r.b, r.c));
    Regs(Sum(t1, t2), r.a, r.b, r.c, Sum(r.d, t1), r.e, r.f, r.g)
  }

  /** What t steps with the constants k and the words w make of the variables. */
  function After<V>(step: (Regs<V>, V, V) -> Regs<V>, k: seq<V>, w: nat -> V, hash: Regs<V>, t: nat): Regs<V>
    requires t <= |k|
  {
    if t == 0 then hash else step(After(step, k, w, hash, t - 1), k[t - 1], w(t - 1))
  }

  /** The eight working variables behind all eighty steps. */
  function Variables(k: seq<bv64>, m: seq<bv64>, hash: Regs<bv64>): Regs<bv64>
    requires |k| == 80 && |m| == 16
  {
    After(NextVariables, k, Words(m), hash, 80)
  }

  function Words(m: seq<bv64>): nat -> bv64
    requires |m| == 16
  {
    (t: nat) => W(m, t)
  }

  /** The intermediate hash value after one block. */
  function NextHash(k: seq<bv64>, m: seq<bv64>, hash: Regs<bv64>): Regs<bv64>
    requires |k| == 80 && |m| == 16
  {
    var r := Variables(k, m, hash);
    Regs(Sum(hash.a, r.a), Sum(hash.b, r.b), Sum(hash.c, r.c), Sum(hash.d, r.d),
         Sum(hash.e, r.e), Sum(hash.f, r.f), Sum(hash.g, r.g), Sum(hash.h, r.h))
  }

  // ---- the model's functions are these ------------------------------------------------------------

  lemma SameRotr1(x: bv64)
    ensures Rotr(x, 1) == Rotr1(x)
  {
  }

  lemma SameRotr8(x: bv64)
    ensures Rotr(x, 8) == Rotr8(x)
  {
  }

  lemma SameRotr14(x: bv64)
    ensures Rotr(x, 14) == Rotr14(x)
  {
  }

  lemma SameRotr18(x: bv64)
    ensures Rotr(x, 18) == Rotr18(x)
  {
  }

  lemma SameRotr19(x: bv64)
    ensures Rotr(x, 19) == Rotr19(x)
  {
  }

  lemma SameRotr28(x: bv64)
    ensures Rotr(x, 28) == Rotr28(x)
  {
  }

  lemma SameRotr34(x: bv64)
    ensures Rotr(x, 34) == Rotr34(x)
  {
  }

  lemma SameRotr39(x: bv64)
    ensures Rotr(x, 39) == Rotr39(x)
  {
  }

  lemma SameRotr41(x: bv64)
    ensures Rotr(x, 41) == Rotr41(x)
  {
  }

  lemma SameRotr61(x: bv64)
    ensures Rotr(x, 61) == Rotr61(x)
  {
  }

  lemma SameShr6(x: bv64)
    ensures Shr(x, 6) == Shr6(x)
  {
  }

  lemma SameShr7(x: bv64)
    ensures Shr(x, 7) == Shr7(x)
  {
  }

  lemma SameCapSigma0(x: bv64)
    ensures BigSigma0(x) == CapSigma0(x)
  {
    SameRotr28(x);
    SameRotr34(x);
    SameRotr39(x);
  }

  lemma SameCapSigma1(x: bv64)
    ensures BigSigma1(x) == CapSigma1(x)
  {
    SameRotr14(x);
    SameRotr18(x);
    SameRotr41(x);
  }

  lemma SameLowSigma0(x: bv64)
    ensures Sigma0(x) == LowSigma0(x)
  {
    SameRotr1(x);
    SameRotr8(x);
    SameShr7(x);
  }

  lemma SameLowSigma1(x: bv64)
    ensures Sigma1(x) == LowSigma1(x)
  {
    SameRotr19(x);
    SameRotr61(x);
    SameShr6(x);
  }

  lemma RawChoose(x: bv64, y: bv64, z: bv64)
    ensures (x & y) ^ (!x & z) == (x & y) | (!x & z)
  {
  }

  lemma RawMajority(x: bv64, y: bv64, z: bv64)
    ensures (x & y) ^ (x & z) ^ (y & z) == (x & y) | (x & z) | (y & z)
  {
  }

  lemma SameChoose(x: bv64, y: bv64, z: bv64)
    ensures FipsCh(x, y, z) == Choose(x, y, z)
  {
    RawChoose(x, y, z);
  }

  lemma SameMajority(x: bv64, y: bv64, z: bv64)
    ensures FipsMaj(x, y, z) == Majority(x, y, z)
  {
    RawMajority(x, y, z);
  }

  lemma SameSum(x: bv64, y: bv64)
    ensures Add64(x, y) == Sum(x, y)
  {
  }

  /** The operations of the model agree with the standard's on all words. */
  ghost predicate Standard(o: WordOps<bv64>) {
    && (forall x, y :: o.add(x, y) == Sum(x, y))
    && (forall x, y, z :: o.ch(x, y, z) == Choose(x, y, z)) && (forall x, y, z :: o.maj(x, y, z) == Majority(x, y, z))
    && (forall x :: o.bigSigma0(x) == CapSigma0(x)) && (forall x :: o.bigSigma1(x) == CapSigma1(x))
    && (forall x :: o.sigma0(x) == LowSigma0(x)) && (forall x :: o.sigma1(x) == LowSigma1(x))
  }

  lemma FipsIsStandard()
    ensures Standard(FIPS)
  {
    forall x, y ensures FIPS.add(x, y) == Sum(x, y) {
      SameSum(x, y);
    }
    forall x, y, z ensures FIPS.ch(x, y, z) == Choose(x, y, z) {
      SameChoose(x, y, z);
    }
    forall x, y, z ensures FIPS.maj(x, y, z) == Majority(x, y, z) {
      SameMajority(x, y, z);
    }
    forall x ensures FIPS.bigSigma0(x) == CapSigma0(x) {
      SameCapSigma0(x);
    }
    forall x ensures FIPS.bigSigma1(x) == CapSigma1(x) {
      SameCapSigma1(x);
    }
    forall x ensures FIPS.sigma0(x) == LowSigma0(x) {
      SameLowSigma0(x);
    }
    forall x ensures FIPS.sigma1(x) == LowSigma1(x) {
      SameLowSigma1(x);
    }
  }

  lemma {:induction false} SameW(o: WordOps<bv64>, m: seq<bv64>, t: nat)
    requires Standard(o) && |m| == 16
    ensures ScheduleWord(o, m, t) == W(m, t)
  {
    if t >= 16 {
      SameW(o, m, t - 2);
      SameW(o, m, t - 7);
      SameW(o, m, t - 15);
      SameW(o, m, t - 16);
    }
  }

  lemma {:induction false} SameAfter<V(!new)>(o: WordOps<V>, step: (Regs<V>, V, V) -> Regs<V>, k: seq<V>, ws: seq<V>,
                                              w: nat -> V, hash: Regs<V>, t: nat)
    requires forall r, a, b :: Round(o, r, a, b) == step(r, a, b)
    requires t <= |k| && t <= |ws| && forall i: nat | i < |ws| :: ws[i] == w(i)
    ensures Rounds(o, k, ws, hash, t) == After(step, k, w, hash, t)
  {
    if t > 0 {
      SameAfter(o, step, k, ws, w, hash, t - 1);
    }
  }

  lemma SameVariables(o: WordOps<bv64>, k: seq<bv64>, m: seq<bv64>, hash: Regs<bv64>)
    requires Standard(o) && |k| == 80 && |m| == 16
    ensures Rounds(o, k, MessageSchedule(o, m), hash, 80) == Variables(k, m, hash)
  {
    forall r, a, b ensures Round(o, r, a, b) == NextVariables(r, a, b) {
      SameRound(o, r, a, b);
    }
    var ws := MessageSchedule(o, m);
    forall i: nat | i < |ws| ensures ws[i] == Words(m)(i) {
      SameW(o, m, i);
    }
    SameAfter(o, NextVariables, k, ws, Words(m), hash, 80);
  }

  lemma SameRound(o: WordOps<bv64>, r: Regs<bv64>, k: bv64, w: bv64)
    requires Standard(o)
    ensures Round(o, r, k, w) == NextVariables(r, k, w)
  {
  }

  /** The compression over word operations is the one of the standard over 64-bit words. */
  lemma CompressedIsNextHash(k: seq<bv64>, m: seq<bv64>, hash: Regs<bv64>)
    requires |k| == 80 && |m| == 16
    ensures Compressed(FIPS, k, hash, m) == NextHash(k, m, hash)
  {
    FipsIsStandard();
    SameVariables(FIPS, k, m, hash);
  }
}
