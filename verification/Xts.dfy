/**
 XTS mode (IEEE Std 1619-2007 clause 5) over an arbitrary block cipher: the scalar sector loop and the
 pipelined loops, all against one specification.

 A buffer is an array of 16-byte blocks; a sector is 32 of them.
 */
module Xts {

  /**
   What the mode is built from: adding a tweak to a block, advancing a tweak by one block, the block transform
   under the data key, and the first tweak of a sector, which is its number encrypted under the tweak key.
   */
  datatype Mode<!S, !T> = Mode(add: (S, T) -> S, mul: T -> T, crypt: S -> S, index: nat -> T)

  // ---- the specification --------------------------------------------------------------------------

  /** The first tweak of a sector advanced by j blocks. */
  function Advance<S, T>(m: Mode<S, T>, t: T, j: nat): T {
    if j == 0 then t else m.mul(Advance(m, t, j - 1))
  }

  /** XTS-blockEnc and XTS-blockDec. */
  function CryptBlock<S, T>(m: Mode<S, T>, t: T, x: S): S {
    m.add(m.crypt(m.add(x, t)), t)
  }

  /** Block i of a run of sectors whose first one has number first. */
  function CryptAt<S, T>(m: Mode<S, T>, first: nat, i: nat, x: S): S {
    CryptBlock(m, Advance(m, m.index(first + i / 32), i % 32), x)
  }

  function Crypt<S, T>(m: Mode<S, T>, first: nat, data: seq<S>): seq<S> {
    seq(|data|, (i: nat) requires i < |data| => CryptAt(m, first, i, data[i]))
  }

  /** The number of the sector at a byte offset: counting starts at one. */
  function SectorOf(offset: nat): nat {
    offset / 512 + 1
  }

  predicate WholeSectors(n: nat) {
    n > 0 && n % 32 == 0
  }

  lemma CryptedBlock<S, T>(m: Mode<S, T>, first: nat, data: seq<S>, s: nat, i: nat)
    requires i < 32 && 32 * s + i < |data|
    ensures Crypt(m, first, data)[32 * s + i]
         == CryptBlock(m, Advance(m, m.index(first + s), i), data[32 * s + i])
  {
    assert (32 * s + i) / 32 == s && (32 * s + i) % 32 == i;
  }

  /** A buffer processed up to block p: what is behind p is as wanted, what is ahead is as it was. */
  ghost predicate Progress<S>(want: seq<S>, was: seq<S>, input: seq<S>, output: seq<S>, p: nat) {
    && |want| == |was| == |input| == |output| && p <= |was|
    && output[..p] == want[..p] && input[p..] == was[p..]
  }

  /** A group of n blocks further. */
  lemma ProgressBy<S>(want: seq<S>, was: seq<S>, input: seq<S>, output: seq<S>,
                   input': seq<S>, output': seq<S>, p: nat, n: nat)
    requires Progress(want, was, input, output, p) && p + n <= |was|
    requires |input'| == |output'| == |was| && output'[..p] == output[..p] && input'[p + n..] == input[p + n..]
    requires forall i | p <= i < p + n :: output'[i] == want[i]
    ensures Progress(want, was, input', output', p + n)
  {
    forall i | 0 <= i < p + n
      ensures output'[i] == want[i]
    {
      if i < p {
        assert output'[i] == output'[..p][i] == output[..p][i];
      }
    }
    assert input'[p + n..] == input[p..][n..] == was[p..][n..];
  }

  // ---- the scalar loop ----------------------------------------------------------------------------

  /** The body of the block loop: add the tweak, run the cipher in place, add the tweak again. */
  method CryptOne<S, T>(m: Mode<S, T>, t: T, input: array<S>, output: array<S>, p: nat)
    requires output.Length == input.Length && p < input.Length
    modifies output
    ensures output[..] == old(output[..])[p := CryptBlock(m, t, old(input[p]))]
    ensures input[p + 1..] == old(input[p + 1..])
  {
    output[p] := m.add(input[p], t);
    output[p] := m.crypt(output[p]);
    output[p] := m.add(output[p], t);
  }

  /** The block loop over sector s of a run. */
  method ScalarSector<S, T>(m: Mode<S, T>, ghost first: nat, ghost was: seq<S>,
                      t0: T, s: nat, input: array<S>, output: array<S>)
    requires 32 * s + 32 <= |was| && t0 == m.index(first + s)
    requires Progress(Crypt(m, first, was), was, input[..], output[..], 32 * s)
    modifies output
    ensures Progress(Crypt(m, first, was), was, input[..], output[..], 32 * s + 32)
  {
    var t, p := t0, 32 * s;
    ghost var want := Crypt(m, first, was);
    for i := 0 to 32
      invariant p == 32 * s + i && t == Advance(m, t0, i)
      invariant Progress(want, was, input[..], output[..], p)
    {
      ghost var before, after := input[..], output[..];
      CryptOne(m, t, input, output, p);
      CryptedBlock(m, first, was, s, i);
      assert before[p] == before[p..][0];
      ProgressBy(want, was, before, after, input[..], output[..], p, 1);
      p, t := p + 1, m.mul(t);
    }
  }

  /** DEF_XTS_PROC: one sector at a time, one block at a time; input and output may be the same buffer. */
  method CryptScalar<S, T>(m: Mode<S, T>, offset: nat, input: array<S>, output: array<S>)
    requires WholeSectors(input.Length) && output.Length == input.Length
    modifies output
    ensures output[..] == Crypt(m, SectorOf(offset), old(input[..]))
  {
    var sector, len, s := offset / 512, input.Length, 0;
    ghost var want := Crypt(m, SectorOf(offset), old(input[..]));
    while len > 0
      invariant len + 32 * s == input.Length && sector == offset / 512 + s
      invariant Progress(want, old(input[..]), input[..], output[..], 32 * s)
    {
      sector := sector + 1;
      ScalarSector(m, SectorOf(offset), old(input[..]), m.index(sector), s, input, output);
      len, s := len - 32, s + 1;
    }
  }

  // ---- the pipelined loops ------------------------------------------------------------------------

  /** What one pass over a group must deliver: the tweak after the group, and every block under its own tweak. */
  ghost predicate IsPass<S, T>(m: Mode<S, T>, t: T, xs: seq<S>, r: (T, seq<S>)) {
    && r.0 == Advance(m, t, |xs|) && |r.1| == |xs|
    && forall i | 0 <= i < |xs| :: r.1[i] == CryptBlock(m, Advance(m, t, i), xs[i])
  }

  ghost predicate IsGroup<S(!new), T(!new)>(m: Mode<S, T>, g: nat, group: (T, seq<S>) --> (T, seq<S>)) {
    forall t, xs | |xs| == g :: group.requires(t, xs) && IsPass(m, t, xs, group(t, xs))
  }

  lemma {:induction false} AdvanceMore<S, T>(m: Mode<S, T>, t: T, j: nat, k: nat)
    ensures Advance(m, Advance(m, t, j), k) == Advance(m, t, j + k)
  {
    if k > 0 {
      AdvanceMore(m, t, j, k - 1);
    }
  }

  method Store<S>(output: array<S>, p: nat, ys: seq<S>)
    requires p + |ys| <= output.Length
    modifies output
    ensures output[..] == old(output[..p]) + ys + old(output[p + |ys|..])
  {
    for i := 0 to |ys|
      invariant forall k | 0 <= k < output.Length :: output[k] == if p <= k < p + i then ys[k - p] else old(output[k])
    {
      output[p + i] := ys[i];
    }
  }

  lemma PassDelivers<S, T>(m: Mode<S, T>, first: nat, was: seq<S>,
                     s: nat, j: nat, t: T, xs: seq<S>, r: (T, seq<S>))
    requires j + |xs| <= 32 && 32 * s + 32 <= |was| && xs == was[32 * s + j..32 * s + j + |xs|]
    requires t == Advance(m, m.index(first + s), j) && IsPass(m, t, xs, r)
    ensures r.0 == Advance(m, m.index(first + s), j + |xs|)
    ensures r.1 == Crypt(m, first, was)[32 * s + j..32 * s + j + |xs|]
  {
    AdvanceMore(m, m.index(first + s), j, |xs|);
    forall i | 0 <= i < |xs|
      ensures r.1[i] == Crypt(m, first, was)[32 * s + j + i]
    {
      AdvanceMore(m, m.index(first + s), j, i);
      CryptedBlock(m, first, was, s, j + i);
    }
  }

  /** Storing the wanted group advances the buffer. */
  lemma GroupStored<S>(want: seq<S>, was: seq<S>, input: seq<S>, output: seq<S>,
                    input': seq<S>, output': seq<S>, p: nat, ys: seq<S>)
    requires Progress(want, was, input, output, p) && p + |ys| <= |was| && ys == want[p..p + |ys|]
    requires output' == output[..p] + ys + output[p + |ys|..] && (input' == input || input' == output')
    requires |input'| == |input| && input'[p + |ys|..] == input[p + |ys|..]
    ensures Progress(want, was, input', output', p + |ys|)
  {
    ProgressBy(want, was, input, output, input', output', p, |ys|);
  }

  /** One group of a pipelined loop: load it, run the pass, store it. */
  method PassGroup<S(!new), T(!new)>(m: Mode<S, T>, group: (T, seq<S>) --> (T, seq<S>), g: nat,
                   ghost first: nat, ghost was: seq<S>,
                   t: T, ghost s: nat, ghost j: nat, p: nat, input: array<S>, output: array<S>)
    returns (t': T)
    requires IsGroup(m, g, group) && j + g <= 32 && 32 * s + 32 <= |was|
    requires t == Advance(m, m.index(first + s), j) && p == 32 * s + j
    requires Progress(Crypt(m, first, was), was, input[..], output[..], p)
    modifies output
    ensures t' == Advance(m, m.index(first + s), j + g)
    ensures Progress(Crypt(m, first, was), was, input[..], output[..], p + g)
  {
    ghost var before, after := input[..], output[..];
    var xs := input[p..p + g];
    assert xs == before[p..][..g] == was[p..][..g] == was[p..p + g];
    var (tn, ys) := group(t, xs);
    PassDelivers(m, first, was, s, j, t, xs, (tn, ys));
    Store(output, p, ys);
    assert input[p + g..] == before[p + g..];
    GroupStored(Crypt(m, first, was), was, before, after, input[..], output[..], p, ys);
    t' := tn;
  }

  /** j blocks of a sector in groups of g. */
  ghost predicate Fits(j: nat, g: nat) {
    j <= 32 && j % 4 == 0 && (g == 8 ==> j % 8 == 0)
  }

  lemma NextGroup(j: nat, g: nat)
    requires Fits(j, g) && j < 32 && (g == 4 || g == 8)
    ensures Fits(j + g, g)
  {
  }

  /** The group loop over sector s of a run. */
  method PassSector<S(!new), T(!new)>(m: Mode<S, T>, group: (T, seq<S>) --> (T, seq<S>), g: nat,
                                      ghost first: nat, ghost was: seq<S>,
                                      t0: T, s: nat, input: array<S>, output: array<S>)
    requires IsGroup(m, g, group) && (g == 4 || g == 8)
    requires 32 * s + 32 <= |was| && t0 == m.index(first + s)
    requires Progress(Crypt(m, first, was), was, input[..], output[..], 32 * s)
    modifies output
    ensures Progress(Crypt(m, first, was), was, input[..], output[..], 32 * s + 32)
  {
    var t, j := t0, 0;
    ghost var want := Crypt(m, first, was);
    while j < 32
      invariant Fits(j, g) && t == Advance(m, t0, j)
      invariant Progress(want, was, input[..], output[..], 32 * s + j)
    {
      NextGroup(j, g);
      t := PassGroup(m, group, g, first, was, t, s, j, 32 * s + j, input, output);
      j := j + g;
    }
  }

  /**
   The loop the AES-NI, ARM64 and Twofish cores share: the tweak of the next sector is derived before the current
   sector is processed, and only when there is one; the sector goes by in groups of g blocks.
   */
  method CryptPipelined<S(!new), T(!new)>(m: Mode<S, T>, group: (T, seq<S>) --> (T, seq<S>), g: nat,
                                          offset: nat, input: array<S>, output: array<S>)
    requires IsGroup(m, g, group) && (g == 4 || g == 8)
    requires WholeSectors(input.Length) && output.Length == input.Length
    modifies output
    ensures output[..] == Crypt(m, SectorOf(offset), old(input[..]))
  {
    var sector, len, s := offset / 512, input.Length, 0;
    sector := sector + 1;
    var t, next := m.index(sector), m.index(sector);
    ghost var want := Crypt(m, SectorOf(offset), old(input[..]));
    while true
      invariant 0 < len && len + 32 * s == input.Length
      invariant sector == SectorOf(offset) + s && t == m.index(sector)
      invariant Progress(want, old(input[..]), input[..], output[..], 32 * s)
      decreases len
    {
      len := len - 32;
      var more := len != 0;
      if more {
        next := m.index(sector + 1);
      }
      sector := sector + 1;
      PassSector(m, group, g, SectorOf(offset), old(input[..]), t, s, input, output);
      s := s + 1;
      if !more {
        break;
      }
      t := next;
    }
  }

  // ---- the passes of the AES cores ----------------------------------------------------------------

  datatype Eight<S> = Eight(x0: S, x1: S, x2: S, x3: S, x4: S, x5: S, x6: S, x7: S)
  datatype Four<S> = Four(x0: S, x1: S, x2: S, x3: S)

  function Map8<R, S>(f: R -> S, e: Eight<R>): Eight<S> {
    Eight(f(e.x0), f(e.x1), f(e.x2), f(e.x3), f(e.x4), f(e.x5), f(e.x6), f(e.x7))
  }

  function Map4<R, S>(f: R -> S, e: Four<R>): Four<S> {
    Four(f(e.x0), f(e.x1), f(e.x2), f(e.x3))
  }

  /** One group of XTS_AES_NI_BODY: seven of the tweaks are dropped before the rounds and rebuilt after them. */
  function PassNi<S, T>(add: (S, T) -> S, mul: T -> T, crypt8: Eight<S> -> Eight<S>, base: T, xs: seq<S>): (T, seq<S>)
    requires |xs| == 8
  {
    var t0 := base;
    var t1 := mul(t0); var t2 := mul(t1); var t3 := mul(t2); var t4 := mul(t3);
    var t5 := mul(t4); var t6 := mul(t5); var t7 := mul(t6); var tw := mul(t7);
    var y := crypt8(Eight(add(xs[0], t0), add(xs[1], t1), add(xs[2], t2), add(xs[3], t3),
                          add(xs[4], t4), add(xs[5], t5), add(xs[6], t6), add(xs[7], t7)));
    var t0 := base;
    var t1 := mul(t0); var t2 := mul(t1); var t3 := mul(t2); var t4 := mul(t3);
    var t5 := mul(t4); var t6 := mul(t5); var t7 := mul(t6);
    (tw, [add(y.x0, t0), add(y.x1, t1), add(y.x2, t2), add(y.x3, t3),
          add(y.x4, t4), add(y.x5, t5), add(y.x6, t6), add(y.x7, t7)])
  }

  /** One group of the ARM64 core: four tweaks, kept across the rounds. */
  function PassCe<S, T>(add: (S, T) -> S, mul: T -> T, crypt4: Four<S> -> Four<S>, t: T, xs: seq<S>): (T, seq<S>)
    requires |xs| == 4
  {
    var t0 := t;
    var t1 := mul(t0); var t2 := mul(t1); var t3 := mul(t2); var t := mul(t3);
    var y := crypt4(Four(add(xs[0], t0), add(xs[1], t1), add(xs[2], t2), add(xs[3], t3)));
    (t, [add(y.x0, t0), add(y.x1, t1), add(y.x2, t2), add(y.x3, t3)])
  }

  lemma FourTweaks<S(!new), T(!new)>(m: Mode<S, T>, mul: T -> T, t: T)
    requires forall u :: mul(u) == m.mul(u)
    ensures mul(t) == Advance(m, t, 1) && mul(mul(t)) == Advance(m, t, 2)
    ensures mul(mul(mul(t))) == Advance(m, t, 3) && mul(mul(mul(mul(t)))) == Advance(m, t, 4)
  {
    assert Advance(m, t, 1) == m.mul(Advance(m, t, 0));
    assert Advance(m, t, 2) == m.mul(Advance(m, t, 1));
    assert Advance(m, t, 3) == m.mul(Advance(m, t, 2));
    assert Advance(m, t, 4) == m.mul(Advance(m, t, 3));
  }

  lemma PassCeDelivers<S(!new), T(!new)>(m: Mode<S, T>, mul: T -> T, crypt4: Four<S> -> Four<S>, t: T, xs: seq<S>)
    requires forall u :: mul(u) == m.mul(u)
    requires forall e :: crypt4(e) == Map4(m.crypt, e)
    requires |xs| == 4
    ensures IsPass(m, t, xs, PassCe(m.add, mul, crypt4, t, xs))
  {
    FourTweaks(m, mul, t);
  }

  lemma PassNiDelivers<S(!new), T(!new)>(m: Mode<S, T>, mul: T -> T, crypt8: Eight<S> -> Eight<S>, t: T, xs: seq<S>)
    requires forall u :: mul(u) == m.mul(u)
    requires forall e :: crypt8(e) == Map8(m.crypt, e)
    requires |xs| == 8
    ensures IsPass(m, t, xs, PassNi(m.add, mul, crypt8, t, xs))
  {
    FourTweaks(m, mul, t);
    FourTweaks(m, mul, Advance(m, t, 4));
    AdvanceMore(m, t, 4, 1);
    AdvanceMore(m, t, 4, 2);
    AdvanceMore(m, t, 4, 3);
    AdvanceMore(m, t, 4, 4);
  }

  function GroupNi<S, T>(add: (S, T) -> S, mul: T -> T, crypt8: Eight<S> -> Eight<S>): (T, seq<S>) --> (T, seq<S>) {
    (t: T, xs: seq<S>) requires |xs| == 8 => PassNi(add, mul, crypt8, t, xs)
  }

  function GroupCe<S, T>(add: (S, T) -> S, mul: T -> T, crypt4: Four<S> -> Four<S>): (T, seq<S>) --> (T, seq<S>) {
    (t: T, xs: seq<S>) requires |xs| == 4 => PassCe(add, mul, crypt4, t, xs)
  }

  /** Rebuilding the tweaks is sound: the AES-NI pass treats every block of its group under its own tweak. */
  lemma NiIsGroup<S(!new), T(!new)>(m: Mode<S, T>, mul: T -> T, crypt8: Eight<S> -> Eight<S>)
    requires forall u :: mul(u) == m.mul(u)
    requires forall e :: crypt8(e) == Map8(m.crypt, e)
    ensures IsGroup(m, 8, GroupNi(m.add, mul, crypt8))
  {
    forall t: T, xs: seq<S> | |xs| == 8
      ensures IsPass(m, t, xs, GroupNi(m.add, mul, crypt8)(t, xs))
    {
      PassNiDelivers(m, mul, crypt8, t, xs);
    }
  }

  lemma CeIsGroup<S(!new), T(!new)>(m: Mode<S, T>, mul: T -> T, crypt4: Four<S> -> Four<S>)
    requires forall u :: mul(u) == m.mul(u)
    requires forall e :: crypt4(e) == Map4(m.crypt, e)
    ensures IsGroup(m, 4, GroupCe(m.add, mul, crypt4))
  {
    forall t: T, xs: seq<S> | |xs| == 4
      ensures IsPass(m, t, xs, GroupCe(m.add, mul, crypt4)(t, xs))
    {
      PassCeDelivers(m, mul, crypt4, t, xs);
    }
  }

  // ---- what the mode promises ---------------------------------------------------------------------

  /** Adding a tweak twice changes nothing, and back undoes the block transform. */
  ghost predicate Undoes<S(!new), T(!new)>(m: Mode<S, T>, back: S -> S) {
    && (forall x, t :: m.add(m.add(x, t), t) == x)
    && (forall x :: back(m.crypt(x)) == x)
  }

  /** Decryption takes the tweaks of encryption; only the block transform is the inverse one. */
  lemma RoundTrip<S(!new), T(!new)>(m: Mode<S, T>, back: S -> S, first: nat, data: seq<S>)
    requires Undoes(m, back)
    ensures Crypt(m.(crypt := back), first, Crypt(m, first, data)) == data
  {
    var d := m.(crypt := back);
    forall i | 0 <= i < |data|
      ensures CryptAt(d, first, i, CryptAt(m, first, i, data[i])) == data[i]
    {
      SameTweaks(m, back, m.index(first + i / 32), i % 32);
    }
  }

  lemma {:induction false} SameTweaks<S, T>(m: Mode<S, T>, back: S -> S, t: T, j: nat)
    ensures Advance(m.(crypt := back), t, j) == Advance(m, t, j)
  {
    if j > 0 {
      SameTweaks(m, back, t, j - 1);
    }
  }

  /** Only the values of the sector tweaks matter, not the routine that derives them. */
  lemma SameSectorTweaks<S, T>(m: Mode<S, T>, index: nat -> T, first: nat, data: seq<S>)
    requires forall n :: index(n) == m.index(n)
    ensures Crypt(m.(index := index), first, data) == Crypt(m, first, data)
  {
    var d := m.(index := index);
    forall i | 0 <= i < |data|
      ensures CryptAt(d, first, i, data[i]) == CryptAt(m, first, i, data[i])
    {
      SameSteps(m, index, m.index(first + i / 32), i % 32);
    }
  }

  lemma {:induction false} SameSteps<S, T>(m: Mode<S, T>, index: nat -> T, t: T, j: nat)
    ensures Advance(m.(index := index), t, j) == Advance(m, t, j)
  {
    if j > 0 {
      SameSteps(m, index, t, j - 1);
    }
  }

  /** One call over two runs is two calls, the second at the offset where the first one ends. */
  lemma CallsSplit<S, T>(m: Mode<S, T>, offset: nat, a: seq<S>, b: seq<S>)
    requires |a| % 32 == 0
    ensures Crypt(m, SectorOf(offset), a + b)
         == Crypt(m, SectorOf(offset), a) + Crypt(m, SectorOf(offset + 16 * |a|), b)
  {
    assert 16 * |a| == 512 * (|a| / 32);
    assert SectorOf(offset + 16 * |a|) == SectorOf(offset) + |a| / 32;
    forall i | 0 <= i < |b|
      ensures (|a| + i) / 32 == |a| / 32 + i / 32 && (|a| + i) % 32 == i % 32
    {
    }
  }
}
