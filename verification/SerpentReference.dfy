/**
 Serpent bit by bit, after its specification: key bits, S-box tables on nibbles, and the linear transform as equations
 between bits.  Bit numbers are taken modulo 32; words are of any type with 32 bits in them.
 */
module SerpentReference {
  import opened Wrappers
  import opened Words
  import opened Serpent
  import opened Schedule
  import SerpentKeys

  // ---- the specification --------------------------------------------------------------------------

  type Bits<!W> = (W, int) -> bool

  function BitAt<W>(bit: Bits<W>, i: int): W -> bool {
    w => bit(w, i)
  }

  /** The four bits of a nibble, least significant first. */
  function FromNibble(n: nat): Quad<bool> {
    Quad(n % 2 == 1, n / 2 % 2 == 1, n / 4 % 2 == 1, n / 8 % 2 == 1)
  }

  /** S-box number s modulo 8 of the tables. */
  function TableBox(s: nat, x: Quad<bool>): Quad<bool> {
    FromNibble(TABLES[s % 8][Nibble(x)])
  }

  type Substitution = (nat, Quad<bool>) -> Quad<bool>

  function Sum(x: Quad<bool>, y: Quad<bool>): Quad<bool> {
    Quad(x.x0 != y.x0, x.x1 != y.x1, x.x2 != y.x2, x.x3 != y.x3)
  }

  /** The four words of a state or of a round key as 32 nibbles. */
  type Nibbles = s: seq<Quad<bool>> | |s| == 32 witness seq(32, _ => Quad(false, false, false, false))

  function NibblesOf<W>(bit: Bits<W>, y: Quad<W>): Nibbles {
    seq(32, (i: nat) => Map(BitAt(bit, i), y))
  }

  function KeyQuad<W>(k: seq<W>, r: nat): Quad<W>
    requires |k| == 132 && r < 33
  {
    Quad(k[4 * r], k[4 * r + 1], k[4 * r + 2], k[4 * r + 3])
  }

  function Added(s: Nibbles, t: Nibbles): Nibbles {
    seq(32, (i: nat) requires i < 32 => Sum(s[i], t[i]))
  }

  function Boxed(sub: Substitution, r: nat, s: Nibbles): Nibbles {
    seq(32, (i: nat) requires i < 32 => sub(r, s[i]))
  }

  function Mixed(s: Nibbles): Nibbles {
    seq(32, (i: nat) => Transformed(Cyclic(s), i))
  }

  function Cyclic(s: Nibbles): int -> Quad<bool> {
    (j: int) => s[j % 32]
  }

  /** Before round r. */
  function Before<W>(bit: Bits<W>, sub: Substitution, k: seq<W>, x: Quad<W>, r: nat): Nibbles
    requires |k| == 132 && r <= 31
  {
    if r == 0 then NibblesOf(bit, x)
    else Mixed(Boxed(sub, r - 1, Added(Before(bit, sub, k, x, r - 1), NibblesOf(bit, KeyQuad(k, r - 1)))))
  }

  /** The ciphertext: the last round has the key words 128 to 131 instead of the transform. */
  function CipherNibbles<W>(bit: Bits<W>, sub: Substitution, k: seq<W>, x: Quad<W>): Nibbles
    requires |k| == 132
  {
    Added(Boxed(sub, 31, Added(Before(bit, sub, k, x, 31), NibblesOf(bit, KeyQuad(k, 31)))),
          NibblesOf(bit, KeyQuad(k, 32)))
  }

  /** The linear transform of the bits s(j). */
  function Transformed1(s: int -> Quad<bool>, i: int): bool {
    (s(i - 1).x1 != s(i - 14).x0) != s(i - 4).x2
  }

  function Transformed3(s: int -> Quad<bool>, i: int): bool {
    (s(i - 7).x3 != s(i - 10).x2) != ((i - 7) % 32 >= 3 && s(i - 23).x0)
  }

  function Transformed(s: int -> Quad<bool>, i: int): Quad<bool> {
    Quad((s(i - 18).x0 != Transformed1(s, i - 5)) != Transformed3(s, i - 5),
         Transformed1(s, i),
         (s(i - 25).x2 != Transformed3(s, i - 22)) != ((i - 22) % 32 >= 7 && Transformed1(s, i - 29)),
         Transformed3(s, i))
  }

  // ---- the operations on words, bit by bit --------------------------------------------------------

  /** What the operations do to bit i. */
  ghost predicate ByBits<W(!new)>(o: Ops<W>, bit: Bits<W>) {
    ByLanes(o, bit) && XorBits(o, bit) && ShiftBits(o, bit) && Periodic(bit)
  }

  ghost predicate Periodic<W(!new)>(bit: Bits<W>) {
    forall w, i :: bit(w, i % 32) == bit(w, i)
  }

  ghost predicate ByLanes<W(!new)>(o: Ops<W>, bit: Bits<W>) {
    forall i {:trigger Asked(i)} | Asked(i) :: Homomorphism(o, BitOps, BitAt(bit, i))
  }

  ghost predicate XorBits<W(!new)>(o: Ops<W>, bit: Bits<W>) {
    forall i {:trigger Asked(i)} | Asked(i) :: XorAt(o, bit, i)
  }

  ghost predicate ShiftBits<W(!new)>(o: Ops<W>, bit: Bits<W>) {
    forall i {:trigger Asked(i)} | Asked(i) :: ShiftAt(o, bit, i)
  }

  ghost predicate XorAt<W(!new)>(o: Ops<W>, bit: Bits<W>, i: int) {
    forall a, b :: bit(o.xor(a, b), i) == (bit(a, i) != bit(b, i))
  }

  ghost predicate ShiftAt<W(!new)>(o: Ops<W>, bit: Bits<W>, i: int) {
    && (forall a :: bit(o.rol(a, 13), i) == bit(a, i - 13))
    && (forall a :: bit(o.rol(a, 3), i) == bit(a, i - 3))
    && (forall a :: bit(o.rol(a, 1), i) == bit(a, i - 1))
    && (forall a :: bit(o.rol(a, 7), i) == bit(a, i - 7))
    && (forall a :: bit(o.rol(a, 5), i) == bit(a, i - 5))
    && (forall a :: bit(o.rol(a, 22), i) == bit(a, i - 22))
    && (forall a :: bit(o.shl(a, 3), i) == (i % 32 >= 3 && bit(a, i - 3)))
    && (forall a :: bit(o.shl(a, 7), i) == (i % 32 >= 7 && bit(a, i - 7)))
  }

  lemma FromNibbleOf(x: Quad<bool>)
    ensures FromNibble(Nibble(x)) == x
  {
  }

  lemma KxBits<W(!new)>(o: Ops<W>, bit: Bits<W>, x: Quad<W>, k: seq<W>, r: nat, i: int)
    requires XorBits(o, bit) && |k| == 132 && r < 33
    ensures Map(BitAt(bit, i), Kx(o, x, k, r)) == Sum(Map(BitAt(bit, i), x), Map(BitAt(bit, i), KeyQuad(k, r)))
  {
    assert Asked(i);
  }

  lemma BoxBits<W(!new)>(o: Ops<W>, bit: Bits<W>, s: nat, y: Quad<W>, i: int)
    requires ByLanes(o, bit)
    ensures Map(BitAt(bit, i), Sbox(o, s, y)) == TableBox(s, Map(BitAt(bit, i), y))
  {
    assert Asked(i);
    SboxLanes(o, BitOps, BitAt(bit, i), s, y);
    var q := Map(BitAt(bit, i), y);
    SboxBits(s, q);
    FromNibbleOf(Sbox(BitOps, s, q));
  }

  /** The bits of the words of a state. */
  function BitsOf<W>(bit: Bits<W>, y: Quad<W>): int -> Quad<bool> {
    i => Map(BitAt(bit, i), y)
  }

  lemma Lt1Bits<W(!new)>(o: Ops<W>, bit: Bits<W>, y: Quad<W>, i: int)
    requires XorBits(o, bit) && ShiftBits(o, bit)
    ensures bit(Lt(o, y).x1, i) == Transformed1(BitsOf(bit, y), i)
  {
    assert Asked(i) && Asked(i - 1);
    var a, c := o.rol(y.x0, 13), o.rol(y.x2, 3);
    var d := o.xor(o.xor(y.x1, a), c);
    assert Lt(o, y).x1 == o.rol(d, 1);
    assert bit(d, i - 1) == ((bit(y.x1, i - 1) != bit(a, i - 1)) != bit(c, i - 1));
    assert bit(a, i - 1) == bit(y.x0, i - 1 - 13) && bit(c, i - 1) == bit(y.x2, i - 1 - 3);
  }

  lemma Lt3Bits<W(!new)>(o: Ops<W>, bit: Bits<W>, y: Quad<W>, i: int)
    requires XorBits(o, bit) && ShiftBits(o, bit)
    ensures bit(Lt(o, y).x3, i) == Transformed3(BitsOf(bit, y), i)
  {
    assert Asked(i) && Asked(i - 7) && Asked(i - 10);
    var a, c := o.rol(y.x0, 13), o.rol(y.x2, 3);
    var d := o.xor(o.xor(y.x3, c), o.shl(a, 3));
    assert Lt(o, y).x3 == o.rol(d, 7);
    assert bit(d, i - 7) == ((bit(y.x3, i - 7) != bit(c, i - 7)) != bit(o.shl(a, 3), i - 7));
    assert bit(c, i - 7) == bit(y.x2, i - 7 - 3) && bit(a, i - 7 - 3) == bit(y.x0, i - 7 - 3 - 13);
  }

  lemma Lt0Bits<W(!new)>(o: Ops<W>, bit: Bits<W>, y: Quad<W>, i: int)
    requires XorBits(o, bit) && ShiftBits(o, bit)
    ensures bit(Lt(o, y).x0, i) == Transformed(BitsOf(bit, y), i).x0
  {
    assert Asked(i) && Asked(i - 5);
    var z := Lt(o, y);
    var a := o.rol(y.x0, 13);
    var d := o.xor(o.xor(a, z.x1), z.x3);
    assert z.x0 == o.rol(d, 5);
    assert bit(d, i - 5) == ((bit(a, i - 5) != bit(z.x1, i - 5)) != bit(z.x3, i - 5));
    assert bit(a, i - 5) == bit(y.x0, i - 5 - 13);
    Lt1Bits(o, bit, y, i - 5);
    Lt3Bits(o, bit, y, i - 5);
  }

  lemma Lt2Bits<W(!new)>(o: Ops<W>, bit: Bits<W>, y: Quad<W>, i: int)
    requires XorBits(o, bit) && ShiftBits(o, bit)
    ensures bit(Lt(o, y).x2, i) == Transformed(BitsOf(bit, y), i).x2
  {
    assert Asked(i) && Asked(i - 22);
    var z := Lt(o, y);
    var c := o.rol(y.x2, 3);
    var d := o.xor(o.xor(c, z.x3), o.shl(z.x1, 7));
    assert z.x2 == o.rol(d, 22);
    assert bit(d, i - 22) == ((bit(c, i - 22) != bit(z.x3, i - 22)) != bit(o.shl(z.x1, 7), i - 22));
    assert bit(c, i - 22) == bit(y.x2, i - 22 - 3);
    Lt3Bits(o, bit, y, i - 22);
    Lt1Bits(o, bit, y, i - 22 - 7);
  }

  /** The linear transform, bit by bit. */
  lemma LtBits<W(!new)>(o: Ops<W>, bit: Bits<W>, y: Quad<W>, i: int)
    requires XorBits(o, bit) && ShiftBits(o, bit)
    ensures Map(BitAt(bit, i), Lt(o, y)) == Transformed(BitsOf(bit, y), i)
  {
    Lt0Bits(o, bit, y, i);
    Lt1Bits(o, bit, y, i);
    Lt2Bits(o, bit, y, i);
    Lt3Bits(o, bit, y, i);
  }

  // ---- the cipher ---------------------------------------------------------------------------------

  lemma SameTransformed(s: int -> Quad<bool>, t: int -> Quad<bool>, i: int)
    requires forall j :: s(j) == t(j)
    ensures Transformed(s, i) == Transformed(t, i)
  {
  }

  type Boxes<!W> = (nat, Quad<W>) -> Quad<W>

  /** The S-boxes do to the bits what the tables say. */
  ghost predicate BoxedBits<W(!new)>(bit: Bits<W>, sub: Substitution, box: Boxes<W>) {
    forall i {:trigger Asked(i)} | Asked(i) :: BoxedAtBit(bit, sub, box, i)
  }

  ghost predicate BoxedAtBit<W(!new)>(bit: Bits<W>, sub: Substitution, box: Boxes<W>, i: int) {
    forall r: nat, y :: Map(BitAt(bit, i), box(r, y)) == sub(r, Map(BitAt(bit, i), y))
  }

  /** The state before round r. */
  function State<W>(o: Ops<W>, box: Boxes<W>, k: seq<W>, x: Quad<W>, r: nat): Quad<W>
    requires |k| == 132 && r <= 31
  {
    if r == 0 then x else Lt(o, Middle(o, box, k, State(o, box, k, x, r - 1), r - 1))
  }

  /** A state behind the key addition and the S-boxes of round r. */
  function Middle<W>(o: Ops<W>, box: Boxes<W>, k: seq<W>, y: Quad<W>, r: nat): Quad<W>
    requires |k| == 132 && r < 33
  {
    box(r, Kx(o, y, k, r))
  }

  lemma KxNibbles<W(!new)>(o: Ops<W>, bit: Bits<W>, x: Quad<W>, k: seq<W>, r: nat)
    requires XorBits(o, bit) && |k| == 132 && r < 33
    ensures NibblesOf(bit, Kx(o, x, k, r)) == Added(NibblesOf(bit, x), NibblesOf(bit, KeyQuad(k, r)))
  {
    forall i: nat | i < 32
      ensures NibblesOf(bit, Kx(o, x, k, r))[i] == Added(NibblesOf(bit, x), NibblesOf(bit, KeyQuad(k, r)))[i]
    {
      KxBits(o, bit, x, k, r, i);
    }
  }

  lemma BoxNibbles<W(!new)>(bit: Bits<W>, sub: Substitution, box: Boxes<W>, y: Quad<W>, r: nat)
    requires BoxedBits(bit, sub, box)
    ensures NibblesOf(bit, box(r, y)) == Boxed(sub, r, NibblesOf(bit, y))
  {
    forall i: nat | i < 32 ensures NibblesOf(bit, box(r, y))[i] == Boxed(sub, r, NibblesOf(bit, y))[i] {
      assert Asked(i as int);
    }
  }

  lemma LtNibbles<W(!new)>(o: Ops<W>, bit: Bits<W>, y: Quad<W>)
    requires XorBits(o, bit) && ShiftBits(o, bit) && Periodic(bit)
    ensures NibblesOf(bit, Lt(o, y)) == Mixed(NibblesOf(bit, y))
  {
    CyclicIs(bit, y);
    forall i: nat | i < 32 ensures NibblesOf(bit, Lt(o, y))[i] == Mixed(NibblesOf(bit, y))[i] {
      LtBits(o, bit, y, i);
      SameTransformed(BitsOf(bit, y), Cyclic(NibblesOf(bit, y)), i);
    }
  }

  lemma CyclicIs<W(!new)>(bit: Bits<W>, y: Quad<W>)
    requires Periodic(bit)
    ensures forall j :: BitsOf(bit, y)(j) == Cyclic(NibblesOf(bit, y))(j)
  {
  }

  lemma MiddleNibbles<W(!new)>(o: Ops<W>, bit: Bits<W>, sub: Substitution, box: Boxes<W>, k: seq<W>, y: Quad<W>, r: nat)
    requires XorBits(o, bit) && BoxedBits(bit, sub, box) && |k| == 132 && r < 33
    ensures NibblesOf(bit, Middle(o, box, k, y, r)) ==
            Boxed(sub, r, Added(NibblesOf(bit, y), NibblesOf(bit, KeyQuad(k, r))))
  {
    KxNibbles(o, bit, y, k, r);
    BoxNibbles(bit, sub, box, Kx(o, y, k, r), r);
  }

  lemma {:induction false} StateNibbles<W(!new)>(o: Ops<W>, bit: Bits<W>, sub: Substitution, box: Boxes<W>,
                                                 k: seq<W>, x: Quad<W>, r: nat)
    requires XorBits(o, bit) && ShiftBits(o, bit) && Periodic(bit) && BoxedBits(bit, sub, box) && |k| == 132 && r <= 31
    ensures NibblesOf(bit, State(o, box, k, x, r)) == Before(bit, sub, k, x, r)
  {
    if r > 0 {
      var y := State(o, box, k, x, r - 1);
      StateNibbles(o, bit, sub, box, k, x, r - 1);
      MiddleNibbles(o, bit, sub, box, k, y, r - 1);
      LtNibbles(o, bit, Middle(o, box, k, y, r - 1));
    }
  }

  lemma LastNibbles<W(!new)>(o: Ops<W>, bit: Bits<W>, sub: Substitution, box: Boxes<W>, k: seq<W>, x: Quad<W>)
    requires XorBits(o, bit) && ShiftBits(o, bit) && Periodic(bit) && BoxedBits(bit, sub, box) && |k| == 132
    ensures NibblesOf(bit, Kx(o, Middle(o, box, k, State(o, box, k, x, 31), 31), k, 32)) ==
            CipherNibbles(bit, sub, k, x)
  {
    var y := State(o, box, k, x, 31);
    StateNibbles(o, bit, sub, box, k, x, 31);
    MiddleNibbles(o, bit, sub, box, k, y, 31);
    KxNibbles(o, bit, Middle(o, box, k, y, 31), k, 32);
  }

  /** The gate sequences as such boxes. */
  function GatesOf<W>(o: Ops<W>): Boxes<W> {
    (r: nat, y: Quad<W>) => Sbox(o, r, y)
  }

  lemma GatesByBits<W(!new)>(o: Ops<W>, bit: Bits<W>)
    requires ByLanes(o, bit)
    ensures BoxedBits(bit, TableBox, GatesOf(o))
  {
    forall i: int | Asked(i) ensures BoxedAtBit(bit, TableBox, GatesOf(o), i) {
      GatesAtBit(o, bit, i);
    }
  }

  lemma GatesAtBit<W(!new)>(o: Ops<W>, bit: Bits<W>, i: int)
    requires ByLanes(o, bit)
    ensures BoxedAtBit(bit, TableBox, GatesOf(o), i)
  {
    forall r: nat, y: Quad<W>
      ensures Map(BitAt(bit, i), GatesOf(o)(r, y)) == TableBox(r, Map(BitAt(bit, i), y))
    {
      BoxBits(o, bit, r, y, i);
    }
  }

  lemma {:induction false} LoopIsState<W(!new)>(o: Ops<W>, k: seq<W>, x: Quad<W>, r: nat)
    requires |k| == 132 && r <= 31
    ensures Forward(EncRounds(o, k), x, r) == State(o, GatesOf(o), k, x, r)
  {
    if r > 0 {
      LoopIsState(o, k, x, r - 1);
      RoundIsState(o, k, State(o, GatesOf(o), k, x, r - 1), r - 1);
    }
  }

  lemma RoundIsState<W>(o: Ops<W>, k: seq<W>, y: Quad<W>, r: nat)
    requires |k| == 132 && r < 31
    ensures EncRound(o, k, r, SboxOf(r), y) == Lt(o, Middle(o, GatesOf(o), k, y, r))
  {
  }

  lemma LastIsMiddle<W>(o: Ops<W>, k: seq<W>, y: Quad<W>)
    requires |k| == 132
    ensures EncLast(o, k, y) == Kx(o, Middle(o, GatesOf(o), k, y, 31), k, 32)
  {
    assert SboxOf<W>(31) == S7;
  }

  /** The unrolled schedule is the cipher of the specification, bit by bit, over every type of words. */
  lemma EncryptIsCipher<W(!new)>(o: Ops<W>, bit: Bits<W>, k: seq<W>, x: Quad<W>)
    requires ByBits(o, bit) && |k| == 132
    ensures NibblesOf(bit, Encrypt(o, k, x)) == CipherNibbles(bit, TableBox, k, x)
  {
    EncryptIsLoop(o, k, x);
    LoopIsState(o, k, x, 31);
    LastIsMiddle(o, k, State(o, GatesOf(o), k, x, 31));
    GatesByBits(o, bit);
    LastNibbles(o, bit, TableBox, GatesOf(o), k, x);
  }

  // ---- 32-bit words -------------------------------------------------------------------------------

  /** A bit number modulo 32. */
  function Index(n: nat): bv5
    decreases n
  {
    if n == 0 then 0 else Index(n - 1) + 1
  }

  function MaskOf(j: bv5): bv32 {
    1 << j
  }

  predicate Meets(w: bv32, m: bv32) {
    w & m != 0
  }

  /** All of m or nothing of it. */
  predicate Whole(w: bv32, m: bv32) {
    w & m == 0 || w & m == m
  }

  predicate RawBit(w: bv32, j: bv5) {
    Meets(w, MaskOf(j))
  }

  predicate Bit(w: bv32, i: int) {
    RawBit(w, Index(i % 32))
  }

  lemma IndexSuccessor(b: bv5)
    requires b != 31
    ensures (b + 1) as int == b as int + 1
  {
  }

  lemma LastIndex(b: bv5)
    requires b == 31 || b as int == 31
    ensures b + 1 == 0 && b as int == 31
  {
  }

  lemma {:induction false} IndexValue(n: nat)
    requires n < 32
    ensures Index(n) as int == n
  {
    if n > 0 {
      IndexValue(n - 1);
      if Index(n - 1) == 31 {
        LastIndex(Index(n - 1));
      }
      IndexSuccessor(Index(n - 1));
    }
  }

  lemma PreviousIndex(i: int)
    ensures (i - 1) % 32 == if i % 32 == 0 then 31 else i % 32 - 1
  {
  }

  lemma IndexWraps(m: nat)
    requires m == 31
    ensures Index(m) + 1 == 0
  {
    IndexValue(m);
    LastIndex(Index(m));
  }

  lemma IndexNext(n: nat)
    requires n > 0
    ensures Index(n) == Index(n - 1) + 1
  {
  }

  lemma IndexUp(i: int)
    ensures Index(i % 32) == Index((i - 1) % 32) + 1
  {
    PreviousIndex(i);
    if i % 32 == 0 {
      IndexWraps((i - 1) % 32);
    } else {
      IndexNext(i % 32);
    }
  }

  lemma {:induction false} IndexBack(i: int, n: nat)
    ensures Index((i - n) % 32) == Index(i % 32) - Index(n)
    decreases n
  {
    if n > 0 {
      IndexBack(i, n - 1);
      IndexUp(i - n + 1);
    }
  }

  lemma SameIndex(a: bv5, b: bv5)
    requires a as int == b as int
    ensures a == b
  {
  }

  lemma OneBit(a: bv32, j: bv5)
    ensures MaskOf(j) != 0 && Whole(a, MaskOf(j))
  {
  }

  lemma RawXor(a: bv32, b: bv32, m: bv32)
    requires (a & m == 0 || a & m == m) && (b & m == 0 || b & m == m)
    ensures (a ^ b) & m != 0 <==> ((a & m != 0) != (b & m != 0))
  {
  }

  lemma MeetsXor(a: bv32, b: bv32, m: bv32)
    requires Whole(a, m) && Whole(b, m)
    ensures Meets(a ^ b, m) == (Meets(a, m) != Meets(b, m))
  {
    RawXor(a, b, m);
  }

  lemma RawAnd(a: bv32, b: bv32, m: bv32)
    requires (a & m == 0 || a & m == m) && (b & m == 0 || b & m == m)
    ensures (a & b) & m != 0 <==> a & m != 0 && b & m != 0
  {
  }

  lemma MeetsAnd(a: bv32, b: bv32, m: bv32)
    requires Whole(a, m) && Whole(b, m)
    ensures Meets(a & b, m) == (Meets(a, m) && Meets(b, m))
  {
    RawAnd(a, b, m);
  }

  lemma RawOr(a: bv32, b: bv32, m: bv32)
    ensures (a | b) & m != 0 <==> a & m != 0 || b & m != 0
  {
  }

  lemma MeetsOr(a: bv32, b: bv32, m: bv32)
    ensures Meets(a | b, m) == (Meets(a, m) || Meets(b, m))
  {
    RawOr(a, b, m);
  }

  lemma RawNot(a: bv32, m: bv32)
    requires m != 0 && (a & m == 0 || a & m == m)
    ensures !a & m != 0 <==> !(a & m != 0)
  {
  }

  lemma MeetsNot(a: bv32, m: bv32)
    requires m != 0 && Whole(a, m)
    ensures Meets(!a, m) == !Meets(a, m)
  {
    RawNot(a, m);
  }

  lemma RawBitXor(a: bv32, b: bv32, j: bv5)
    ensures RawBit(Xor(a, b), j) == (RawBit(a, j) != RawBit(b, j))
  {
    OneBit(a, j);
    OneBit(b, j);
    MeetsXor(a, b, MaskOf(j));
  }

  lemma RawBitAnd(a: bv32, b: bv32, j: bv5)
    ensures RawBit(And(a, b), j) == (RawBit(a, j) && RawBit(b, j))
  {
    OneBit(a, j);
    OneBit(b, j);
    MeetsAnd(a, b, MaskOf(j));
  }

  lemma RawBitOr(a: bv32, b: bv32, j: bv5)
    ensures RawBit(Or(a, b), j) == (RawBit(a, j) || RawBit(b, j))
  {
    MeetsOr(a, b, MaskOf(j));
  }

  lemma RawBitNot(a: bv32, j: bv5)
    ensures RawBit(Not(a), j) == !RawBit(a, j)
  {
    OneBit(a, j);
    MeetsNot(a, MaskOf(j));
  }

  lemma RawRol13(a: bv32, j: bv5)
    ensures RawBit(Rol(a, 13), j) == RawBit(a, j - 13)
  {
  }

  lemma BitRol13(a: bv32, i: int)
    ensures Bit(Rol(a, 13), i) == Bit(a, i - 13)
  {
    IndexBack(i, 13);
    IndexValue(13);
    SameIndex(Index(13), 13);
    RawRol13(a, Index(i % 32));
  }

  lemma RawRol3(a: bv32, j: bv5)
    ensures RawBit(Rol(a, 3), j) == RawBit(a, j - 3)
  {
  }

  lemma BitRol3(a: bv32, i: int)
    ensures Bit(Rol(a, 3), i) == Bit(a, i - 3)
  {
    IndexBack(i, 3);
    IndexValue(3);
    SameIndex(Index(3), 3);
    RawRol3(a, Index(i % 32));
  }

  lemma RawRol1(a: bv32, j: bv5)
    ensures RawBit(Rol(a, 1), j) == RawBit(a, j - 1)
  {
  }

  lemma BitRol1(a: bv32, i: int)
    ensures Bit(Rol(a, 1), i) == Bit(a, i - 1)
  {
    IndexBack(i, 1);
    IndexValue(1);
    SameIndex(Index(1), 1);
    RawRol1(a, Index(i % 32));
  }

  lemma RawRol7(a: bv32, j: bv5)
    ensures RawBit(Rol(a, 7), j) == RawBit(a, j - 7)
  {
  }

  lemma BitRol7(a: bv32, i: int)
    ensures Bit(Rol(a, 7), i) == Bit(a, i - 7)
  {
    IndexBack(i, 7);
    IndexValue(7);
    SameIndex(Index(7), 7);
    RawRol7(a, Index(i % 32));
  }

  lemma RawRol5(a: bv32, j: bv5)
    ensures RawBit(Rol(a, 5), j) == RawBit(a, j - 5)
  {
  }

  lemma BitRol5(a: bv32, i: int)
    ensures Bit(Rol(a, 5), i) == Bit(a, i - 5)
  {
    IndexBack(i, 5);
    IndexValue(5);
    SameIndex(Index(5), 5);
    RawRol5(a, Index(i % 32));
  }

  lemma RawRol22(a: bv32, j: bv5)
    ensures RawBit(Rol(a, 22), j) == RawBit(a, j - 22)
  {
  }

  lemma BitRol22(a: bv32, i: int)
    ensures Bit(Rol(a, 22), i) == Bit(a, i - 22)
  {
    IndexBack(i, 22);
    IndexValue(22);
    SameIndex(Index(22), 22);
    RawRol22(a, Index(i % 32));
  }

  lemma RawShl3High(a: bv32, j: bv5)
    requires j >= 3
    ensures RawBit(Shl(a, 3), j) == RawBit(a, j - 3)
  {
  }

  lemma RawShl3Low(a: bv32, j: bv5)
    requires j < 3
    ensures !RawBit(Shl(a, 3), j)
  {
  }

  lemma RawBitShl3(a: bv32, j: bv5)
    ensures RawBit(Shl(a, 3), j) == (j as int >= 3 && RawBit(a, j - 3))
  {
    AtLeast3(j);
    if j >= 3 {
      RawShl3High(a, j);
    } else {
      RawShl3Low(a, j);
    }
  }

  lemma AtLeast3(j: bv5)
    ensures j >= 3 <==> j as int >= 3
  {
  }

  lemma BitShl3(a: bv32, i: int)
    ensures Bit(Shl(a, 3), i) == (i % 32 >= 3 && Bit(a, i - 3))
  {
    IndexBack(i, 3);
    IndexValue(3);
    SameIndex(Index(3), 3);
    IndexValue(i % 32);
    RawBitShl3(a, Index(i % 32));
  }

  lemma RawShl7High(a: bv32, j: bv5)
    requires j >= 7
    ensures RawBit(Shl(a, 7), j) == RawBit(a, j - 7)
  {
  }

  lemma RawShl7Low(a: bv32, j: bv5)
    requires j < 7
    ensures !RawBit(Shl(a, 7), j)
  {
  }

  lemma RawBitShl7(a: bv32, j: bv5)
    ensures RawBit(Shl(a, 7), j) == (j as int >= 7 && RawBit(a, j - 7))
  {
    AtLeast7(j);
    if j >= 7 {
      RawShl7High(a, j);
    } else {
      RawShl7Low(a, j);
    }
  }

  lemma AtLeast7(j: bv5)
    ensures j >= 7 <==> j as int >= 7
  {
  }

  lemma BitShl7(a: bv32, i: int)
    ensures Bit(Shl(a, 7), i) == (i % 32 >= 7 && Bit(a, i - 7))
  {
    IndexBack(i, 7);
    IndexValue(7);
    SameIndex(Index(7), 7);
    IndexValue(i % 32);
    RawBitShl7(a, Index(i % 32));
  }

  lemma BitXor(a: bv32, b: bv32, i: int)
    ensures Bit(WordOps.xor(a, b), i) == (Bit(a, i) != Bit(b, i))
  {
    assert WordOps.xor(a, b) == Xor(a, b);
    RawBitXor(a, b, Index(i % 32));
  }

  lemma WordXor(a: bv32, b: bv32, i: int)
    ensures BitAt(Bit, i)(WordOps.xor(a, b)) == BitOps.xor(BitAt(Bit, i)(a), BitAt(Bit, i)(b))
  {
    BitXor(a, b, i);
  }

  lemma BitAnd(a: bv32, b: bv32, i: int)
    ensures Bit(WordOps.and(a, b), i) == (Bit(a, i) && Bit(b, i))
  {
    assert WordOps.and(a, b) == And(a, b);
    RawBitAnd(a, b, Index(i % 32));
  }

  lemma WordAnd(a: bv32, b: bv32, i: int)
    ensures BitAt(Bit, i)(WordOps.and(a, b)) == BitOps.and(BitAt(Bit, i)(a), BitAt(Bit, i)(b))
  {
    BitAnd(a, b, i);
  }

  lemma BitOr(a: bv32, b: bv32, i: int)
    ensures Bit(WordOps.or(a, b), i) == (Bit(a, i) || Bit(b, i))
  {
    assert WordOps.or(a, b) == Or(a, b);
    RawBitOr(a, b, Index(i % 32));
  }

  lemma WordOr(a: bv32, b: bv32, i: int)
    ensures BitAt(Bit, i)(WordOps.or(a, b)) == BitOps.or(BitAt(Bit, i)(a), BitAt(Bit, i)(b))
  {
    BitOr(a, b, i);
  }

  lemma BitNot(a: bv32, i: int)
    ensures Bit(WordOps.not(a), i) == !Bit(a, i)
  {
    assert WordOps.not(a) == Not(a);
    RawBitNot(a, Index(i % 32));
  }

  lemma WordNot(a: bv32, i: int)
    ensures BitAt(Bit, i)(WordOps.not(a)) == BitOps.not(BitAt(Bit, i)(a))
  {
    BitNot(a, i);
  }

  lemma WordLanes(i: int)
    ensures Homomorphism(WordOps, BitOps, BitAt(Bit, i))
  {
    forall a: bv32, b: bv32 {
      WordXor(a, b, i);
    }
    forall a: bv32, b: bv32 {
      WordAnd(a, b, i);
    }
    forall a: bv32, b: bv32 {
      WordOr(a, b, i);
    }
    forall a: bv32 {
      WordNot(a, i);
    }
  }

  lemma WordXorAt(i: int)
    ensures XorAt(WordOps, Bit, i)
  {
    forall a: bv32, b: bv32 ensures Bit(WordOps.xor(a, b), i) == (Bit(a, i) != Bit(b, i)) {
      BitXor(a, b, i);
    }
  }

  lemma WordShifts(a: bv32, i: int)
    ensures Bit(WordOps.rol(a, 13), i) == Bit(a, i - 13)
    ensures Bit(WordOps.rol(a, 3), i) == Bit(a, i - 3)
    ensures Bit(WordOps.rol(a, 1), i) == Bit(a, i - 1)
    ensures Bit(WordOps.rol(a, 7), i) == Bit(a, i - 7)
    ensures Bit(WordOps.rol(a, 5), i) == Bit(a, i - 5)
    ensures Bit(WordOps.rol(a, 22), i) == Bit(a, i - 22)
    ensures Bit(WordOps.shl(a, 3), i) == (i % 32 >= 3 && Bit(a, i - 3))
    ensures Bit(WordOps.shl(a, 7), i) == (i % 32 >= 7 && Bit(a, i - 7))
  {
    BitRol13(a, i);
    BitRol3(a, i);
    BitRol1(a, i);
    BitRol7(a, i);
    BitRol5(a, i);
    BitRol22(a, i);
    BitShl3(a, i);
    BitShl7(a, i);
  }

  lemma WordShiftAt(i: int)
    ensures ShiftAt(WordOps, Bit, i)
  {
    forall a: bv32 {
      WordShifts(a, i);
    }
  }

  /** 32-bit words have the operations of the specification in every bit. */
  lemma WordsByBits()
    ensures ByBits(WordOps, Bit)
  {
    forall i: int | Asked(i)
      ensures Homomorphism(WordOps, BitOps, BitAt(Bit, i)) && XorAt(WordOps, Bit, i) && ShiftAt(WordOps, Bit, i)
    {
      WordLanes(i);
      WordXorAt(i);
      WordShiftAt(i);
    }
    WordBitsPeriodic();
  }

  lemma WordBitsPeriodic()
    ensures Periodic(Bit)
  {
    forall w: bv32, i: int ensures Bit(w, i % 32) == Bit(w, i) {
    }
  }

  /** serpent256_encrypt is the cipher of the specification for every expanded key and block. */
  lemma WordEncryptIsCipher(k: seq<bv32>, x: Quad<bv32>)
    requires |k| == 132
    ensures NibblesOf(Bit, Encrypt(WordOps, k, x)) == CipherNibbles(Bit, TableBox, k, x)
  {
    WordsByBits();
    EncryptIsCipher(WordOps, Bit, k, x);
  }

  // ---- the key schedule ---------------------------------------------------------------------------

  /** The fractional part of the golden ratio: with PHI / 2^32 for (sqrt 5 - 1) / 2, rounded down. */
  lemma PhiIsGolden()
    ensures var p, one := SerpentKeys.PHI as nat, 0x1_0000_0000;
            (2 * p + one) * (2 * p + one) <= 5 * one * one < (2 * (p + 1) + one) * (2 * (p + 1) + one)
  {
    assert SerpentKeys.PHI as nat == 0x9e3779b9;
  }

  /** The key words are the little-endian numbers of the key. */
  lemma KeyWordsAreNumbers(key: seq<bv8>, j: nat)
    requires |key| == 32 && j < 8
    ensures SerpentKeys.KeyWords(key)[j] as nat == LittleValue(key[4 * j..4 * j + 4])
  {
    Load32IsValue(key, 4 * j);
  }

  function Word(key: seq<bv8>, n: nat): bv32
    requires |key| == 32
  {
    SerpentKeys.Prekey(SerpentKeys.Affine, SerpentKeys.KeyWords(key), n)
  }

  function Plus(a: bv32, b: bv32): bv32 {
    a ^ b
  }

  function Sum6(a: bv32, b: bv32, c: bv32, d: bv32, e: bv32, f: bv32): bv32 {
    Plus(Plus(Plus(Plus(Plus(a, b), c), d), e), f)
  }

  lemma PlusIs(a: bv32, b: bv32)
    ensures Xor(a, b) == Plus(a, b)
  {
  }

  function Rotated11(w: bv32): bv32 {
    (w << 11) | (w >> 21)
  }

  lemma Sum6Is(a: bv32, b: bv32, c: bv32, d: bv32, e: bv32, f: bv32)
    ensures Xor(Xor(Xor(Xor(Xor(a, b), c), d), e), f) == Sum6(a, b, c, d, e, f)
  {
    PlusIs(a, b);
    PlusIs(Xor(a, b), c);
    PlusIs(Xor(Xor(a, b), c), d);
    PlusIs(Xor(Xor(Xor(a, b), c), d), e);
    PlusIs(Xor(Xor(Xor(Xor(a, b), c), d), e), f);
  }

  lemma Rotated11Is(w: bv32)
    ensures Rol(w, 11) == Rotated11(w)
  {
  }

  /** The affine recurrence: word n + 8 from words n, n + 3, n + 5 and n + 7, the golden ratio and n, rotated by 11. */
  lemma NextWord(key: seq<bv8>, n: nat)
    requires |key| == 32
    ensures Word(key, n + 8) == Rotated11(Sum6(Word(key, n), Word(key, n + 3), Word(key, n + 5), Word(key, n + 7),
                                               0x9e3779b9, ToByte(n) as bv32))
  {
    var a, b, c, d := Word(key, n), Word(key, n + 3), Word(key, n + 5), Word(key, n + 7);
    Sum6Is(a, b, c, d, SerpentKeys.PHI, ToByte(n) as bv32);
    Rotated11Is(Sum6(a, b, c, d, SerpentKeys.PHI, ToByte(n) as bv32));
  }

  function FourWords(key: seq<bv8>, g: nat): Quad<bv32>
    requires |key| == 32
  {
    Quad(Word(key, 8 + 4 * g), Word(key, 9 + 4 * g), Word(key, 10 + 4 * g), Word(key, 11 + 4 * g))
  }

  ghost function Schedule33(key: seq<bv8>): nat -> Quad<bv32>
    requires |key| == 32
  {
    SerpentKeys.RoundKeys(WordOps, SerpentKeys.Affine, SerpentKeys.KeyWords(key))
  }

  /** Round key g: S-box (3 - g) modulo 8 on the bits of four words of the recurrence. */
  lemma RoundKeyNibbles(key: seq<bv8>, g: nat)
    requires |key| == 32 && g < 33
    ensures NibblesOf(Bit, KeyQuad(SerpentKeys.ExpandKey(key), g)) ==
            Boxed(TableBox, 35 - g, NibblesOf(Bit, FourWords(key, g)))
  {
    var q := KeyQuad(SerpentKeys.ExpandKey(key), g);
    RowIs(Schedule33(key), g);
    RoundKeyIs(key, g);
    forall i: nat | i < 32 ensures Map(BitAt(Bit, i), q) == TableBox(35 - g, Map(BitAt(Bit, i), FourWords(key, g))) {
      BoxedKey(g, FourWords(key, g), i);
    }
  }

  lemma BoxedKey(g: nat, y: Quad<bv32>, i: int)
    requires g < 33
    ensures Map(BitAt(Bit, i), Sbox(WordOps, SerpentKeys.NextBox(g), y)) == TableBox(35 - g, Map(BitAt(Bit, i), y))
  {
    BoxBitsOfWords(SerpentKeys.NextBox(g), y, i);
    NextBoxIs(g);
    SameBox(SerpentKeys.NextBox(g), 35 - g, Map(BitAt(Bit, i), y));
  }

  lemma SameBox(s: nat, t: nat, x: Quad<bool>)
    requires s % 8 == t % 8
    ensures TableBox(s, x) == TableBox(t, x)
  {
  }

  lemma RoundKeyIs(key: seq<bv8>, g: nat)
    requires |key| == 32
    ensures Schedule33(key)(g) == Sbox(WordOps, SerpentKeys.NextBox(g), FourWords(key, g))
  {
  }

  lemma BoxBitsOfWords(s: nat, y: Quad<bv32>, i: int)
    ensures Map(BitAt(Bit, i), Sbox(WordOps, s, y)) == TableBox(s, Map(BitAt(Bit, i), y))
  {
    WordsByBits();
    BoxBits(WordOps, Bit, s, y, i);
  }

  lemma NextBoxIs(g: nat)
    requires g < 33
    ensures SerpentKeys.NextBox(g) % 8 == (35 - g) % 8
  {
    assert 3 + 7 * g == (35 - g) + 8 * (g - 4);
  }

  lemma RowIs(rk: nat -> Quad<bv32>, g: nat)
    requires g < 33
    ensures KeyQuad(SerpentKeys.InARow(rk), g) == rk(g)
  {
    InARowAt(rk, g, 0);
    InARowAt(rk, g, 1);
    InARowAt(rk, g, 2);
    InARowAt(rk, g, 3);
  }

  lemma InARowAt(rk: nat -> Quad<bv32>, g: nat, j: nat)
    requires g < 33 && j < 4
    ensures SerpentKeys.InARow(rk)[4 * g + j] == SerpentKeys.Pick(rk(g), j)
  {
    assert (4 * g + j) / 4 == g && (4 * g + j) % 4 == j;
  }
}
