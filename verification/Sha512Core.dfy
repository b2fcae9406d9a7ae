/**
 The SHA-512 compression function: the unrolled rounds of the code against section 6.4.2 of FIPS 180-4.

 The rounds are written over an arbitrary word type W and a record of word operations.
 */
module Sha512Core {

  /** The logical functions of FIPS 180-4 section 4.1.3 and addition. */
  datatype WordOps<!W> = WordOps(
    add: (W, W) -> W,
    ch: (W, W, W) -> W,
    maj: (W, W, W) -> W,
    bigSigma0: W -> W,
    bigSigma1: W -> W,
    sigma0: W -> W,
    sigma1: W -> W)

  datatype Regs<W> = Regs(a: W, b: W, c: W, d: W, e: W, f: W, g: W, h: W)

  // ---- the textbook -------------------------------------------------------------------------------

  function T1<W>(o: WordOps<W>, r: Regs<W>, k: W, w: W): W {
    o.add(o.add(o.add(o.add(r.h, o.bigSigma1(r.e)), o.ch(r.e, r.f, r.g)), k), w)
  }

  function T2<W>(o: WordOps<W>, r: Regs<W>): W {
    o.add(o.bigSigma0(r.a), o.maj(r.a, r.b, r.c))
  }

  /** Step 3 of the computation: every register moves on by one. */
  function Round<W>(o: WordOps<W>, r: Regs<W>, k: W, w: W): Regs<W> {
    var t1 := T1(o, r, k, w);
    Regs(o.add(t1, T2(o, r)), r.a, r.b, r.c, o.add(r.d, t1), r.e, r.f, r.g)
  }

  function Rounds<W>(o: WordOps<W>, k: seq<W>, w: seq<W>, r: Regs<W>, n: nat): Regs<W>
    requires n <= |k| && n <= |w|
    decreases n, k
  {
    if n == 0 then r else Round(o, Rounds(o, k, w, r, n - 1), k[n - 1], w[n - 1])
  }

  /** The message schedule, word t. */
  function ScheduleWord<W>(o: WordOps<W>, m: seq<W>, t: nat): W
    requires |m| == 16
    decreases t, m
  {
    if t < 16 then m[t]
    else o.add(o.add(o.add(o.sigma1(ScheduleWord(o, m, t - 2)), ScheduleWord(o, m, t - 7)),
                     o.sigma0(ScheduleWord(o, m, t - 15))), ScheduleWord(o, m, t - 16))
  }

  function MessageSchedule<W>(o: WordOps<W>, m: seq<W>): (w: seq<W>)
    requires |m| == 16
    ensures |w| == 80
  {
    seq(80, (t: nat) => ScheduleWord(o, m, t))
  }

  function AddRegs<W>(o: WordOps<W>, r: Regs<W>, s: Regs<W>): Regs<W> {
    Regs(o.add(r.a, s.a), o.add(r.b, s.b), o.add(r.c, s.c), o.add(r.d, s.d),
         o.add(r.e, s.e), o.add(r.f, s.f), o.add(r.g, s.g), o.add(r.h, s.h))
  }

  /** The hash value after one more block of sixteen words. */
  function Compressed<W>(o: WordOps<W>, k: seq<W>, hash: Regs<W>, m: seq<W>): Regs<W>
    requires |k| == 80 && |m| == 16
  {
    AddRegs(o, hash, Rounds(o, k, MessageSchedule(o, m), hash, 80))
  }

  // ---- the code -----------------------------------------------------------------------------------

  /** The macro RND: only the fourth and the last of its registers are assigned. */
  function Rnd<W>(o: WordOps<W>, r: Regs<W>, k: W, w: W): (W, W) {
    var t0 := T1(o, r, k, w);
    (o.add(r.d, t0), o.add(t0, T2(o, r)))
  }

  /** One pass of the round loop: eight rounds, the names rotating instead of the values. */
  function EightRounds<W>(o: WordOps<W>, k: seq<W>, w: seq<W>, r: Regs<W>, i: nat): Regs<W>
    requires i + 8 <= |k| && i + 8 <= |w|
  {
    var Regs(s0, s1, s2, s3, s4, s5, s6, s7) := r;
    var (s3, s7) := Rnd(o, Regs(s0, s1, s2, s3, s4, s5, s6, s7), k[i + 0], w[i + 0]);
    var (s2, s6) := Rnd(o, Regs(s7, s0, s1, s2, s3, s4, s5, s6), k[i + 1], w[i + 1]);
    var (s1, s5) := Rnd(o, Regs(s6, s7, s0, s1, s2, s3, s4, s5), k[i + 2], w[i + 2]);
    var (s0, s4) := Rnd(o, Regs(s5, s6, s7, s0, s1, s2, s3, s4), k[i + 3], w[i + 3]);
    var (s7, s3) := Rnd(o, Regs(s4, s5, s6, s7, s0, s1, s2, s3), k[i + 4], w[i + 4]);
    var (s6, s2) := Rnd(o, Regs(s3, s4, s5, s6, s7, s0, s1, s2), k[i + 5], w[i + 5]);
    var (s5, s1) := Rnd(o, Regs(s2, s3, s4, s5, s6, s7, s0, s1), k[i + 6], w[i + 6]);
    var (s4, s0) := Rnd(o, Regs(s1, s2, s3, s4, s5, s6, s7, s0), k[i + 7], w[i + 7]);
    Regs(s0, s1, s2, s3, s4, s5, s6, s7)
  }

  /** After eight rounds every name is back in its place. */
  lemma EightRoundsAreRounds<W>(o: WordOps<W>, k: seq<W>, w: seq<W>, r: Regs<W>, i: nat)
    requires i + 8 <= |k| && i + 8 <= |w|
    ensures EightRounds(o, k, w, Rounds(o, k, w, r, i), i) == Rounds(o, k, w, r, i + 8)
  {
    FourRounds(o, k, w, r, i);
    FourRounds(o, k, w, r, i + 4);
  }

  lemma FourRounds<W>(o: WordOps<W>, k: seq<W>, w: seq<W>, r: Regs<W>, i: nat)
    requires i + 4 <= |k| && i + 4 <= |w|
    ensures var r0 := Rounds(o, k, w, r, i);
            var r1 := Round(o, r0, k[i], w[i]);
            var r2 := Round(o, r1, k[i + 1], w[i + 1]);
            var r3 := Round(o, r2, k[i + 2], w[i + 2]);
            Rounds(o, k, w, r, i + 4) == Round(o, r3, k[i + 3], w[i + 3])
  {
    assert Rounds(o, k, w, r, i + 1) == Round(o, Rounds(o, k, w, r, i), k[i], w[i]);
    assert Rounds(o, k, w, r, i + 2) == Round(o, Rounds(o, k, w, r, i + 1), k[i + 1], w[i + 1]);
    assert Rounds(o, k, w, r, i + 3) == Round(o, Rounds(o, k, w, r, i + 2), k[i + 2], w[i + 2]);
  }

  method FillSchedule<W>(o: WordOps<W>, m: seq<W>, w: array<W>)
    requires |m| == 16 && w.Length == 80
    modifies w
    ensures w[..] == MessageSchedule(o, m)
  {
    for i := 0 to 16
      invariant forall t: nat | t < i :: w[t] == ScheduleWord(o, m, t)
    {
      w[i] := m[i];
    }
    for i := 16 to 80
      invariant forall t: nat | t < i :: w[t] == ScheduleWord(o, m, t)
    {
      w[i] := o.add(o.add(o.add(o.sigma1(w[i - 2]), w[i - 7]), o.sigma0(w[i - 15])), w[i - 16]);
    }
  }

  method EightMore<W>(o: WordOps<W>, k: seq<W>, w: seq<W>, s: Regs<W>, i: nat, ghost hash: Regs<W>)
    returns (s': Regs<W>)
    requires i + 8 <= |k| && i + 8 <= |w| && s == Rounds(o, k, w, hash, i)
    ensures s' == Rounds(o, k, w, hash, i + 8)
  {
    EightRoundsAreRounds(o, k, w, hash, i);
    s' := EightRounds(o, k, w, s, i);
  }

  method RunRounds<W>(o: WordOps<W>, k: seq<W>, w: seq<W>, hash: Regs<W>, n: nat) returns (s: Regs<W>)
    requires 8 * n <= |k| && 8 * n <= |w|
    ensures s == Rounds(o, k, w, hash, 8 * n)
  {
    s := hash;
    assert s == Rounds(o, k, w, hash, 0);
    for j := 0 to n
      invariant s == Rounds(o, k, w, hash, 8 * j)
    {
      s := EightMore(o, k, w, s, 8 * j, hash);
    }
  }

  /** sha512_compress on the sixteen words of a block. */
  method Compress<W>(o: WordOps<W>, k: seq<W>, hash: Regs<W>, m: seq<W>, w: array<W>) returns (r: Regs<W>)
    requires |k| == 80 && |m| == 16 && w.Length == 80
    modifies w
    ensures r == Compressed(o, k, hash, m)
  {
    FillSchedule(o, m, w);
    var s := RunRounds(o, k, w[..], hash, 10);
    r := AddRegs(o, hash, s);
  }

  // ---- the two forms of the logical functions -----------------------------------------------------

  /** Operations that agree on all words give the same compression. */
  ghost predicate SameOps<W(!new)>(o: WordOps<W>, p: WordOps<W>) {
    && o.add == p.add && o.bigSigma0 == p.bigSigma0 && o.bigSigma1 == p.bigSigma1
    && o.sigma0 == p.sigma0 && o.sigma1 == p.sigma1
    && (forall x, y, z :: o.ch(x, y, z) == p.ch(x, y, z)) && (forall x, y, z :: o.maj(x, y, z) == p.maj(x, y, z))
  }

  lemma {:induction false} SameRounds<W(!new)>(o: WordOps<W>, p: WordOps<W>, k: seq<W>, w: seq<W>, r: Regs<W>, n: nat)
    requires SameOps(o, p) && n <= |k| && n <= |w|
    ensures Rounds(o, k, w, r, n) == Rounds(p, k, w, r, n)
  {
    if n > 0 {
      SameRounds(o, p, k, w, r, n - 1);
    }
  }

  lemma {:induction false} SameScheduleWord<W(!new)>(o: WordOps<W>, p: WordOps<W>, m: seq<W>, t: nat)
    requires SameOps(o, p) && |m| == 16
    ensures ScheduleWord(o, m, t) == ScheduleWord(p, m, t)
  {
    if t >= 16 {
      SameScheduleWord(o, p, m, t - 2);
      SameScheduleWord(o, p, m, t - 7);
      SameScheduleWord(o, p, m, t - 15);
      SameScheduleWord(o, p, m, t - 16);
    }
  }

  lemma SameCompression<W(!new)>(o: WordOps<W>, p: WordOps<W>, k: seq<W>, hash: Regs<W>, m: seq<W>)
    requires SameOps(o, p) && |k| == 80 && |m| == 16
    ensures Compressed(o, k, hash, m) == Compressed(p, k, hash, m)
  {
    forall t: nat ensures ScheduleWord(o, m, t) == ScheduleWord(p, m, t) {
      SameScheduleWord(o, p, m, t);
    }
    assert MessageSchedule(o, m) == MessageSchedule(p, m);
    SameRounds(o, p, k, MessageSchedule(o, m), hash, 80);
  }

  // ---- 64-bit words -------------------------------------------------------------------------------

  function Rotr(x: bv64, n: bv6): bv64 {
    (x >> n) | (x << (0 - n))
  }

  function Shr(x: bv64, n: bv6): bv64 {
    x >> n
  }

  function Xor3(x: bv64, y: bv64, z: bv64): bv64 {
    x ^ y ^ z
  }

  function Add64(x: bv64, y: bv64): bv64 {
    x + y
  }

  function BigSigma0(x: bv64): bv64 {
    Xor3(Rotr(x, 28), Rotr(x, 34), Rotr(x, 39))
  }

  function BigSigma1(x: bv64): bv64 {
    Xor3(Rotr(x, 14), Rotr(x, 18), Rotr(x, 41))
  }

  function Sigma0(x: bv64): bv64 {
    Xor3(Rotr(x, 1), Rotr(x, 8), Shr(x, 7))
  }

  function Sigma1(x: bv64): bv64 {
    Xor3(Rotr(x, 19), Rotr(x, 61), Shr(x, 6))
  }

  /** Ch and Maj as the standard writes them. */
  function FipsCh(x: bv64, y: bv64, z: bv64): bv64 {
    (x & y) ^ (!x & z)
  }

  function FipsMaj(x: bv64, y: bv64, z: bv64): bv64 {
    (x & y) ^ (x & z) ^ (y & z)
  }

  /** Ch and Maj as the macros write them. */
  function Ch(x: bv64, y: bv64, z: bv64): bv64 {
    z ^ (x & (y ^ z))
  }

  function Maj(x: bv64, y: bv64, z: bv64): bv64 {
    ((x | y) & z) | (x & y)
  }

  lemma RawCh(x: bv64, y: bv64, z: bv64)
    ensures z ^ (x & (y ^ z)) == (x & y) ^ (!x & z)
  {
  }

  lemma RawMaj(x: bv64, y: bv64, z: bv64)
    ensures ((x | y) & z) | (x & y) == (x & y) ^ (x & z) ^ (y & z)
  {
  }

  lemma ChForm(x: bv64, y: bv64, z: bv64)
    ensures Ch(x, y, z) == FipsCh(x, y, z)
  {
    RawCh(x, y, z);
  }

  lemma MajForm(x: bv64, y: bv64, z: bv64)
    ensures Maj(x, y, z) == FipsMaj(x, y, z)
  {
    RawMaj(x, y, z);
  }

  const FIPS: WordOps<bv64> := WordOps(Add64, FipsCh, FipsMaj, BigSigma0, BigSigma1, Sigma0, Sigma1)
  const CODE: WordOps<bv64> := WordOps(Add64, Ch, Maj, BigSigma0, BigSigma1, Sigma0, Sigma1)

  lemma CodeIsFips()
    ensures SameOps(CODE, FIPS)
  {
    forall x, y, z ensures Ch(x, y, z) == FipsCh(x, y, z) {
      ChForm(x, y, z);
    }
    forall x, y, z ensures Maj(x, y, z) == FipsMaj(x, y, z) {
      MajForm(x, y, z);
    }
  }
}
