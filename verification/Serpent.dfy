/**
 Serpent-256: bitsliced S-boxes, linear transform and the two unrolled round schedules.

 The gate sequences are written, as in the header they come from, over an arbitrary word type W and a
 record of word operations, so that one definition serves the scalar words and every vector type.
 */
module Serpent {
  import opened Schedule
  import opened Words

  datatype Quad<W> = Quad(x0: W, x1: W, x2: W, x3: W)

  /** SB_XOR, SB_AND, SB_OR, SB_NOT, SB_ROL and SB_SHL. */
  datatype Ops<!W> = Ops(
    xor: (W, W) -> W,
    and: (W, W) -> W,
    or: (W, W) -> W,
    not: W -> W,
    rol: (W, bv5) -> W,
    shl: (W, bv5) -> W)

  // ---- gate sequences -----------------------------------------------------------------------------

  function S0<W>(o: Ops<W>, x: Quad<W>): Quad<W> {
    var Quad(b0, b1, b2, b3) := x;
    var t := b1; var b3 := o.xor(b3, b0); var b1 := o.and(b1, b3); var t := o.xor(t, b2);
    var b1 := o.xor(b1, b0); var b0 := o.or(b0, b3); var b0 := o.xor(b0, t); var t := o.xor(t, b3);
    var b3 := o.xor(b3, b2); var b2 := o.or(b2, b1); var b2 := o.xor(b2, t); var t := o.not(t);
    var t := o.or(t, b1); var b1 := o.xor(b1, b3); var b1 := o.xor(b1, t); var b3 := o.or(b3, b0);
    var b1 := o.xor(b1, b3); var t := o.xor(t, b3); var b3 := b0; var b0 := b1; var b1 := t;
    Quad(b0, b1, b2, b3)
  }

  function S1<W>(o: Ops<W>, x: Quad<W>): Quad<W> {
    var Quad(b0, b1, b2, b3) := x;
    var b0 := o.not(b0); var b2 := o.not(b2); var t := b0; var b0 := o.and(b0, b1);
    var b2 := o.xor(b2, b0); var b0 := o.or(b0, b3); var b3 := o.xor(b3, b2); var b1 := o.xor(b1, b0);
    var b0 := o.xor(b0, t); var t := o.or(t, b1); var b1 := o.xor(b1, b3); var b2 := o.or(b2, b0);
    var b2 := o.and(b2, t); var b0 := o.xor(b0, b1); var b1 := o.and(b1, b2); var b1 := o.xor(b1, b0);
    var b0 := o.and(b0, b2); var t := o.xor(t, b0); var b0 := b2; var b2 := b3; var b3 := b1; var b1 := t;
    Quad(b0, b1, b2, b3)
  }

  function S2<W>(o: Ops<W>, x: Quad<W>): Quad<W> {
    var Quad(b0, b1, b2, b3) := x;
    var t := b0; var b0 := o.and(b0, b2); var b0 := o.xor(b0, b3); var b2 := o.xor(b2, b1);
    var b2 := o.xor(b2, b0); var b3 := o.or(b3, t); var b3 := o.xor(b3, b1); var t := o.xor(t, b2);
    var b1 := b3; var b3 := o.or(b3, t); var b3 := o.xor(b3, b0); var b0 := o.and(b0, b1);
    var t := o.xor(t, b0); var b1 := o.xor(b1, b3); var b1 := o.xor(b1, t); var b0 := b2; var b2 := b1;
    var b1 := b3; var b3 := o.not(t);
    Quad(b0, b1, b2, b3)
  }

  function S3<W>(o: Ops<W>, x: Quad<W>): Quad<W> {
    var Quad(b0, b1, b2, b3) := x;
    var t := b0; var b0 := o.or(b0, b3); var b3 := o.xor(b3, b1); var b1 := o.and(b1, t);
    var t := o.xor(t, b2); var b2 := o.xor(b2, b3); var b3 := o.and(b3, b0); var t := o.or(t, b1);
    var b3 := o.xor(b3, t); var b0 := o.xor(b0, b1); var t := o.and(t, b0); var b1 := o.xor(b1, b3);
    var t := o.xor(t, b2); var b1 := o.or(b1, b0); var b1 := o.xor(b1, b2); var b0 := o.xor(b0, b3);
    var b2 := b1; var b1 := o.or(b1, b3); var b0 := o.xor(b0, b1); var b1 := b2; var b2 := b3; var b3 := t;
    Quad(b0, b1, b2, b3)
  }

  function S4<W>(o: Ops<W>, x: Quad<W>): Quad<W> {
    var Quad(b0, b1, b2, b3) := x;
    var b1 := o.xor(b1, b3); var b3 := o.not(b3); var b2 := o.xor(b2, b3); var b3 := o.xor(b3, b0);
    var t := b1; var b1 := o.and(b1, b3); var b1 := o.xor(b1, b2); var t := o.xor(t, b3);
    var b0 := o.xor(b0, t); var b2 := o.and(b2, t); var b2 := o.xor(b2, b0); var b0 := o.and(b0, b1);
    var b3 := o.xor(b3, b0); var t := o.or(t, b1); var t := o.xor(t, b0); var b0 := o.or(b0, b3);
    var b0 := o.xor(b0, b2); var b2 := o.and(b2, b3); var b0 := o.not(b0); var t := o.xor(t, b2);
    var b2 := b0; var b0 := b1; var b1 := t;
    Quad(b0, b1, b2, b3)
  }

  function S5<W>(o: Ops<W>, x: Quad<W>): Quad<W> {
    var Quad(b0, b1, b2, b3) := x;
    var b0 := o.xor(b0, b1); var b1 := o.xor(b1, b3); var b3 := o.not(b3); var t := b1;
    var b1 := o.and(b1, b0); var b2 := o.xor(b2, b3); var b1 := o.xor(b1, b2); var b2 := o.or(b2, t);
    var t := o.xor(t, b3); var b3 := o.and(b3, b1); var b3 := o.xor(b3, b0); var t := o.xor(t, b1);
    var t := o.xor(t, b2); var b2 := o.xor(b2, b0); var b0 := o.and(b0, b3); var b2 := o.not(b2);
    var b0 := o.xor(b0, t); var t := o.or(t, b3); var t := o.xor(t, b2); var b2 := b0; var b0 := b1;
    var b1 := b3; var b3 := t;
    Quad(b0, b1, b2, b3)
  }

  function S6<W>(o: Ops<W>, x: Quad<W>): Quad<W> {
    var Quad(b0, b1, b2, b3) := x;
    var b2 := o.not(b2); var t := b3; var b3 := o.and(b3, b0); var b0 := o.xor(b0, t);
    var b3 := o.xor(b3, b2); var b2 := o.or(b2, t); var b1 := o.xor(b1, b3); var b2 := o.xor(b2, b0);
    var b0 := o.or(b0, b1); var b2 := o.xor(b2, b1); var t := o.xor(t, b0); var b0 := o.or(b0, b3);
    var b0 := o.xor(b0, b2); var t := o.xor(t, b3); var t := o.xor(t, b0); var b3 := o.not(b3);
    var b2 := o.and(b2, t); var b3 := o.xor(b3, b2); var b2 := t;
    Quad(b0, b1, b2, b3)
  }

  function S7<W>(o: Ops<W>, x: Quad<W>): Quad<W> {
    var Quad(b0, b1, b2, b3) := x;
    var t := b1; var b1 := o.or(b1, b2); var b1 := o.xor(b1, b3); var t := o.xor(t, b2);
    var b2 := o.xor(b2, b1); var b3 := o.or(b3, t); var b3 := o.and(b3, b0); var t := o.xor(t, b2);
    var b3 := o.xor(b3, b1); var b1 := o.or(b1, t); var b1 := o.xor(b1, b0); var b0 := o.or(b0, t);
    var b0 := o.xor(b0, b2); var b1 := o.xor(b1, t); var b2 := o.xor(b2, b1); var b1 := o.and(b1, b0);
    var b1 := o.xor(b1, t); var b2 := o.not(b2); var b2 := o.or(b2, b0); var t := o.xor(t, b2);
    var b2 := b1; var b1 := b3; var b3 := b0; var b0 := t;
    Quad(b0, b1, b2, b3)
  }

  function InvS0<W>(o: Ops<W>, x: Quad<W>): Quad<W> {
    var Quad(b0, b1, b2, b3) := x;
    var t := b1; var b2 := o.not(b2); var b1 := o.or(b1, b0); var t := o.not(t); var b1 := o.xor(b1, b2);
    var b2 := o.or(b2, t); var b1 := o.xor(b1, b3); var b0 := o.xor(b0, t); var b2 := o.xor(b2, b0);
    var b0 := o.and(b0, b3); var t := o.xor(t, b0); var b0 := o.or(b0, b1); var b0 := o.xor(b0, b2);
    var b3 := o.xor(b3, t); var b2 := o.xor(b2, b1); var b3 := o.xor(b3, b0); var b3 := o.xor(b3, b1);
    var b2 := o.and(b2, b3); var t := o.xor(t, b2); var b2 := b1; var b1 := t;
    Quad(b0, b1, b2, b3)
  }

  function InvS1<W>(o: Ops<W>, x: Quad<W>): Quad<W> {
    var Quad(b0, b1, b2, b3) := x;
    var t := b1; var b1 := o.xor(b1, b3); var b3 := o.and(b3, b1); var t := o.xor(t, b2);
    var b3 := o.xor(b3, b0); var b0 := o.or(b0, b1); var b2 := o.xor(b2, b3); var b0 := o.xor(b0, t);
    var b0 := o.or(b0, b2); var b1 := o.xor(b1, b3); var b0 := o.xor(b0, b1); var b1 := o.or(b1, b3);
    var b1 := o.xor(b1, b0); var t := o.not(t); var t := o.xor(t, b1); var b1 := o.or(b1, b0);
    var b1 := o.xor(b1, b0); var b1 := o.or(b1, t); var b3 := o.xor(b3, b1); var b1 := b0; var b0 := t;
    var t := b2; var b2 := b3; var b3 := t;
    Quad(b0, b1, b2, b3)
  }

  function InvS2<W>(o: Ops<W>, x: Quad<W>): Quad<W> {
    var Quad(b0, b1, b2, b3) := x;
    var b2 := o.xor(b2, b3); var b3 := o.xor(b3, b0); var t := b3; var b3 := o.and(b3, b2);
    var b3 := o.xor(b3, b1); var b1 := o.or(b1, b2); var b1 := o.xor(b1, t); var t := o.and(t, b3);
    var b2 := o.xor(b2, b3); var t := o.and(t, b0); var t := o.xor(t, b2); var b2 := o.and(b2, b1);
    var b2 := o.or(b2, b0); var b3 := o.not(b3); var b2 := o.xor(b2, b3); var b0 := o.xor(b0, b3);
    var b0 := o.and(b0, b1); var b3 := o.xor(b3, t); var b3 := o.xor(b3, b0); var b0 := b1; var b1 := t;
    Quad(b0, b1, b2, b3)
  }

  function InvS3<W>(o: Ops<W>, x: Quad<W>): Quad<W> {
    var Quad(b0, b1, b2, b3) := x;
    var t := b2; var b2 := o.xor(b2, b1); var b0 := o.xor(b0, b2); var t := o.and(t, b2);
    var t := o.xor(t, b0); var b0 := o.and(b0, b1); var b1 := o.xor(b1, b3); var b3 := o.or(b3, t);
    var b2 := o.xor(b2, b3); var b0 := o.xor(b0, b3); var b1 := o.xor(b1, t); var b3 := o.and(b3, b2);
    var b3 := o.xor(b3, b1); var b1 := o.xor(b1, b0); var b1 := o.or(b1, b2); var b0 := o.xor(b0, b3);
    var b1 := o.xor(b1, t); var b0 := o.xor(b0, b1); var t := b0; var b0 := b2; var b2 := b3; var b3 := t;
    Quad(b0, b1, b2, b3)
  }

  function InvS4<W>(o: Ops<W>, x: Quad<W>): Quad<W> {
    var Quad(b0, b1, b2, b3) := x;
    var t := b2; var b2 := o.and(b2, b3); var b2 := o.xor(b2, b1); var b1 := o.or(b1, b3);
    var b1 := o.and(b1, b0); var t := o.xor(t, b2); var t := o.xor(t, b1); var b1 := o.and(b1, b2);
    var b0 := o.not(b0); var b3 := o.xor(b3, t); var b1 := o.xor(b1, b3); var b3 := o.and(b3, b0);
    var b3 := o.xor(b3, b2); var b0 := o.xor(b0, b1); var b2 := o.and(b2, b0); var b3 := o.xor(b3, b0);
    var b2 := o.xor(b2, t); var b2 := o.or(b2, b3); var b3 := o.xor(b3, b0); var b2 := o.xor(b2, b1);
    var b1 := b3; var b3 := t;
    Quad(b0, b1, b2, b3)
  }

  function InvS5<W>(o: Ops<W>, x: Quad<W>): Quad<W> {
    var Quad(b0, b1, b2, b3) := x;
    var t := b3; var b1 := o.not(b1); var b2 := o.xor(b2, b1); var b3 := o.or(b3, b0);
    var b3 := o.xor(b3, b2); var b2 := o.or(b2, b1); var b2 := o.and(b2, b0); var t := o.xor(t, b3);
    var b2 := o.xor(b2, t); var t := o.or(t, b0); var t := o.xor(t, b1); var b1 := o.and(b1, b2);
    var b1 := o.xor(b1, b3); var t := o.xor(t, b2); var b3 := o.and(b3, t); var t := o.xor(t, b1);
    var b3 := o.xor(b3, t); var t := o.not(t); var b3 := o.xor(b3, b0); var b0 := b1; var b1 := t;
    var t := b3; var b3 := b2; var b2 := t;
    Quad(b0, b1, b2, b3)
  }

  function InvS6<W>(o: Ops<W>, x: Quad<W>): Quad<W> {
    var Quad(b0, b1, b2, b3) := x;
    var t := b2; var b0 := o.xor(b0, b2); var b2 := o.and(b2, b0); var t := o.xor(t, b3);
    var b2 := o.not(b2); var b3 := o.xor(b3, b1); var b2 := o.xor(b2, b3); var t := o.or(t, b0);
    var b0 := o.xor(b0, b2); var b3 := o.xor(b3, t); var t := o.xor(t, b1); var b1 := o.and(b1, b3);
    var b1 := o.xor(b1, b0); var b0 := o.xor(b0, b3); var b0 := o.or(b0, b2); var b3 := o.xor(b3, b1);
    var t := o.xor(t, b0); var b0 := b1; var b1 := b2; var b2 := t;
    Quad(b0, b1, b2, b3)
  }

  function InvS7<W>(o: Ops<W>, x: Quad<W>): Quad<W> {
    var Quad(b0, b1, b2, b3) := x;
    var t := b2; var b2 := o.xor(b2, b0); var b0 := o.and(b0, b3); var t := o.or(t, b3);
    var b2 := o.not(b2); var b3 := o.xor(b3, b1); var b1 := o.or(b1, b0); var b0 := o.xor(b0, b2);
    var b2 := o.and(b2, t); var b3 := o.and(b3, t); var b1 := o.xor(b1, b2); var b2 := o.xor(b2, b0);
    var b0 := o.or(b0, b2); var t := o.xor(t, b1); var b0 := o.xor(b0, b3); var b3 := o.xor(b3, t);
    var t := o.or(t, b0); var b3 := o.xor(b3, b2); var t := o.xor(t, b2); var b2 := b1; var b1 := b0;
    var b0 := b3; var b3 := t;
    Quad(b0, b1, b2, b3)
  }

  /** The S-box of round i. */
  function SboxOf<W>(i: nat): (Ops<W>, Quad<W>) -> Quad<W> {
    match i % 8
    case 0 => S0
    case 1 => S1
    case 2 => S2
    case 3 => S3
    case 4 => S4
    case 5 => S5
    case 6 => S6
    case _ => S7
  }

  function InvSboxOf<W>(i: nat): (Ops<W>, Quad<W>) -> Quad<W> {
    match i % 8
    case 0 => InvS0
    case 1 => InvS1
    case 2 => InvS2
    case 3 => InvS3
    case 4 => InvS4
    case 5 => InvS5
    case 6 => InvS6
    case _ => InvS7
  }

  function Sbox<W>(o: Ops<W>, i: nat, x: Quad<W>): Quad<W> {
    SboxOf<W>(i)(o, x)
  }

  function InvSbox<W>(o: Ops<W>, i: nat, x: Quad<W>): Quad<W> {
    InvSboxOf<W>(i)(o, x)
  }

  // ---- one bit lane -------------------------------------------------------------------------------

  /** A single lane: the rotations and shifts are not used by the S-boxes. */
  const BitOps: Ops<bool> := Ops(
    (a: bool, b: bool) => a != b,
    (a: bool, b: bool) => a && b,
    (a: bool, b: bool) => a || b,
    (a: bool) => !a,
    (a: bool, n: bv5) => a,
    (a: bool, n: bv5) => a)

  /** The eight S-boxes of the Serpent specification, as tables of 4-bit values. */
  const TABLES: seq<seq<nat>> := [
    [3, 8, 15, 1, 10, 6, 5, 11, 14, 13, 4, 2, 7, 0, 9, 12],
    [15, 12, 2, 7, 9, 0, 5, 10, 1, 11, 14, 8, 6, 13, 3, 4],
    [8, 6, 7, 9, 3, 12, 10, 15, 13, 1, 14, 4, 0, 11, 5, 2],
    [0, 15, 11, 8, 12, 9, 6, 3, 13, 1, 2, 4, 10, 7, 5, 14],
    [1, 15, 8, 3, 12, 0, 11, 6, 2, 5, 4, 10, 9, 14, 7, 13],
    [15, 5, 2, 11, 4, 10, 9, 12, 0, 3, 14, 8, 13, 6, 7, 1],
    [7, 2, 12, 5, 8, 4, 6, 11, 14, 9, 1, 15, 13, 3, 10, 0],
    [1, 13, 15, 0, 14, 8, 2, 11, 7, 4, 12, 10, 9, 3, 5, 6]]

  function Nibble(x: Quad<bool>): (n: nat)
    ensures n < 16
  {
    (if x.x0 then 1 else 0) + (if x.x1 then 2 else 0) + (if x.x2 then 4 else 0) + (if x.x3 then 8 else 0)
  }

  /** h carries the four logical operations of o to those of p. */
  ghost predicate Homomorphism<V(!new), W(!new)>(o: Ops<V>, p: Ops<W>, h: V -> W) {
    && (forall a, b :: h(o.xor(a, b)) == p.xor(h(a), h(b)))
    && (forall a, b :: h(o.and(a, b)) == p.and(h(a), h(b)))
    && (forall a, b :: h(o.or(a, b)) == p.or(h(a), h(b)))
    && (forall a :: h(o.not(a)) == p.not(h(a)))
  }

  function Map<V, W>(h: V -> W, x: Quad<V>): Quad<W> {
    Quad(h(x.x0), h(x.x1), h(x.x2), h(x.x3))
  }

  lemma S0Bits(x: Quad<bool>)
    ensures InvS0(BitOps, S0(BitOps, x)) == x
    ensures Nibble(S0(BitOps, x)) == TABLES[0][Nibble(x)]
  {
  }

  lemma S0Lanes<V(!new), W(!new)>(o: Ops<V>, p: Ops<W>, h: V -> W, x: Quad<V>)
    requires Homomorphism(o, p, h)
    ensures Map(h, S0(o, x)) == S0(p, Map(h, x))
    ensures Map(h, InvS0(o, x)) == InvS0(p, Map(h, x))
  {
  }

  lemma S1Bits(x: Quad<bool>)
    ensures InvS1(BitOps, S1(BitOps, x)) == x
    ensures Nibble(S1(BitOps, x)) == TABLES[1][Nibble(x)]
  {
  }

  lemma S1Lanes<V(!new), W(!new)>(o: Ops<V>, p: Ops<W>, h: V -> W, x: Quad<V>)
    requires Homomorphism(o, p, h)
    ensures Map(h, S1(o, x)) == S1(p, Map(h, x))
    ensures Map(h, InvS1(o, x)) == InvS1(p, Map(h, x))
  {
  }

  lemma S2Bits(x: Quad<bool>)
    ensures InvS2(BitOps, S2(BitOps, x)) == x
    ensures Nibble(S2(BitOps, x)) == TABLES[2][Nibble(x)]
  {
  }

  lemma S2Lanes<V(!new), W(!new)>(o: Ops<V>, p: Ops<W>, h: V -> W, x: Quad<V>)
    requires Homomorphism(o, p, h)
    ensures Map(h, S2(o, x)) == S2(p, Map(h, x))
    ensures Map(h, InvS2(o, x)) == InvS2(p, Map(h, x))
  {
  }

  lemma S3Bits(x: Quad<bool>)
    ensures InvS3(BitOps, S3(BitOps, x)) == x
    ensures Nibble(S3(BitOps, x)) == TABLES[3][Nibble(x)]
  {
  }

  lemma S3Lanes<V(!new), W(!new)>(o: Ops<V>, p: Ops<W>, h: V -> W, x: Quad<V>)
    requires Homomorphism(o, p, h)
    ensures Map(h, S3(o, x)) == S3(p, Map(h, x))
    ensures Map(h, InvS3(o, x)) == InvS3(p, Map(h, x))
  {
  }

  lemma S4Bits(x: Quad<bool>)
    ensures InvS4(BitOps, S4(BitOps, x)) == x
    ensures Nibble(S4(BitOps, x)) == TABLES[4][Nibble(x)]
  {
  }

  lemma S4Lanes<V(!new), W(!new)>(o: Ops<V>, p: Ops<W>, h: V -> W, x: Quad<V>)
    requires Homomorphism(o, p, h)
    ensures Map(h, S4(o, x)) == S4(p, Map(h, x))
    ensures Map(h, InvS4(o, x)) == InvS4(p, Map(h, x))
  {
  }

  lemma S5Bits(x: Quad<bool>)
    ensures InvS5(BitOps, S5(BitOps, x)) == x
    ensures Nibble(S5(BitOps, x)) == TABLES[5][Nibble(x)]
  {
  }

  lemma S5Lanes<V(!new), W(!new)>(o: Ops<V>, p: Ops<W>, h: V -> W, x: Quad<V>)
    requires Homomorphism(o, p, h)
    ensures Map(h, S5(o, x)) == S5(p, Map(h, x))
    ensures Map(h, InvS5(o, x)) == InvS5(p, Map(h, x))
  {
  }

  lemma S6Bits(x: Quad<bool>)
    ensures InvS6(BitOps, S6(BitOps, x)) == x
    ensures Nibble(S6(BitOps, x)) == TABLES[6][Nibble(x)]
  {
  }

  lemma S6Lanes<V(!new), W(!new)>(o: Ops<V>, p: Ops<W>, h: V -> W, x: Quad<V>)
    requires Homomorphism(o, p, h)
    ensures Map(h, S6(o, x)) == S6(p, Map(h, x))
    ensures Map(h, InvS6(o, x)) == InvS6(p, Map(h, x))
  {
  }

  lemma S7Bits(x: Quad<bool>)
    ensures InvS7(BitOps, S7(BitOps, x)) == x
    ensures Nibble(S7(BitOps, x)) == TABLES[7][Nibble(x)]
  {
  }

  lemma S7Lanes<V(!new), W(!new)>(o: Ops<V>, p: Ops<W>, h: V -> W, x: Quad<V>)
    requires Homomorphism(o, p, h)
    ensures Map(h, S7(o, x)) == S7(p, Map(h, x))
    ensures Map(h, InvS7(o, x)) == InvS7(p, Map(h, x))
  {
  }

  /** On one lane the gates compute the specification's table, and the inverse gates undo them. */
  lemma SboxBits(i: nat, x: Quad<bool>)
    ensures InvSbox(BitOps, i, Sbox(BitOps, i, x)) == x
    ensures |TABLES| == 8 && |TABLES[i % 8]| == 16
    ensures Nibble(Sbox(BitOps, i, x)) == TABLES[i % 8][Nibble(x)]
  {
    match i % 8
    case 0 => S0Bits(x);
    case 1 => S1Bits(x);
    case 2 => S2Bits(x);
    case 3 => S3Bits(x);
    case 4 => S4Bits(x);
    case 5 => S5Bits(x);
    case 6 => S6Bits(x);
    case _ => S7Bits(x);
  }

  /** The gates act on every lane separately. */
  lemma SboxLanes<V(!new), W(!new)>(o: Ops<V>, p: Ops<W>, h: V -> W, i: nat, x: Quad<V>)
    requires Homomorphism(o, p, h)
    ensures Map(h, Sbox(o, i, x)) == Sbox(p, i, Map(h, x))
    ensures Map(h, InvSbox(o, i, x)) == InvSbox(p, i, Map(h, x))
  {
    match i % 8
    case 0 => S0Lanes(o, p, h, x);
    case 1 => S1Lanes(o, p, h, x);
    case 2 => S2Lanes(o, p, h, x);
    case 3 => S3Lanes(o, p, h, x);
    case 4 => S4Lanes(o, p, h, x);
    case 5 => S5Lanes(o, p, h, x);
    case 6 => S6Lanes(o, p, h, x);
    case _ => S7Lanes(o, p, h, x);
  }

  // ---- whole words --------------------------------------------------------------------------------

  /** A word is n independent lanes: the gates act lane by lane, and the lanes determine the word. */
  ghost predicate Bitwise<W(!new)>(o: Ops<W>, lane: (nat, W) -> bool, n: nat) {
    && (forall i: nat | i < n :: Homomorphism(o, BitOps, Lane(lane, i)))
    && (forall a: W, b: W :: SameLanes(lane, n, a, b) ==> a == b)
  }

  ghost function Lane<W>(lane: (nat, W) -> bool, i: nat): W -> bool {
    (w: W) => lane(i, w)
  }

  ghost predicate SameLanes<W>(lane: (nat, W) -> bool, n: nat, a: W, b: W) {
    forall i: nat | i < n :: lane(i, a) == lane(i, b)
  }

  lemma SboxInverseInLane<W(!new)>(o: Ops<W>, h: W -> bool, i: nat, x: Quad<W>)
    requires Homomorphism(o, BitOps, h)
    ensures Map(h, InvSbox(o, i, Sbox(o, i, x))) == Map(h, x)
  {
    SboxLanes(o, BitOps, h, i, x);
    SboxLanes(o, BitOps, h, i, Sbox(o, i, x));
    SboxBits(i, Map(h, x));
  }

  lemma QuadByLanes<W(!new)>(o: Ops<W>, lane: (nat, W) -> bool, n: nat, x: Quad<W>, y: Quad<W>)
    requires Bitwise(o, lane, n)
    requires forall j: nat | j < n :: Map(Lane(lane, j), x) == Map(Lane(lane, j), y)
    ensures x == y
  {
    forall j: nat | j < n
      ensures lane(j, x.x0) == lane(j, y.x0) && lane(j, x.x1) == lane(j, y.x1)
      ensures lane(j, x.x2) == lane(j, y.x2) && lane(j, x.x3) == lane(j, y.x3)
    {
      assert Map(Lane(lane, j), x) == Map(Lane(lane, j), y);
    }
    assert SameLanes(lane, n, x.x0, y.x0) && SameLanes(lane, n, x.x1, y.x1);
    assert SameLanes(lane, n, x.x2, y.x2) && SameLanes(lane, n, x.x3, y.x3);
  }

  /** Each inverse gate sequence inverts its forward one on all lanes of every word. */
  lemma SboxInverse<W(!new)>(o: Ops<W>, lane: (nat, W) -> bool, n: nat, i: nat, x: Quad<W>)
    requires Bitwise(o, lane, n)
    ensures InvSbox(o, i, Sbox(o, i, x)) == x
  {
    var y := InvSbox(o, i, Sbox(o, i, x));
    forall j: nat | j < n ensures Map(Lane(lane, j), y) == Map(Lane(lane, j), x) {
      SboxInverseInLane(o, Lane(lane, j), i, x);
    }
    QuadByLanes(o, lane, n, y, x);
  }

  /** What the linear transform needs of the rotations and of xor. */
  ghost predicate Linear<W(!new)>(o: Ops<W>) {
    && (forall a, b :: o.xor(o.xor(a, b), b) == a)
    && (forall a, b, c :: o.xor(o.xor(o.xor(o.xor(a, b), c), b), c) == a)
    && (forall a :: o.rol(o.rol(a, 13), 19) == a && o.rol(o.rol(a, 3), 29) == a && o.rol(o.rol(a, 1), 31) == a)
    && (forall a :: o.rol(o.rol(a, 7), 25) == a && o.rol(o.rol(a, 5), 27) == a && o.rol(o.rol(a, 22), 10) == a)
  }

  function Lt<W>(o: Ops<W>, x: Quad<W>): Quad<W> {
    var Quad(b0, b1, b2, b3) := x;
    var b0 := o.rol(b0, 13); var b2 := o.rol(b2, 3); var b1 := o.xor(b1, b0); var b1 := o.xor(b1, b2);
    var b3 := o.xor(b3, b2); var b3 := o.xor(b3, o.shl(b0, 3)); var b1 := o.rol(b1, 1);
    var b3 := o.rol(b3, 7); var b0 := o.xor(b0, b1); var b0 := o.xor(b0, b3); var b2 := o.xor(b2, b3);
    var b2 := o.xor(b2, o.shl(b1, 7)); var b0 := o.rol(b0, 5); var b2 := o.rol(b2, 22);
    Quad(b0, b1, b2, b3)
  }

  function InvLt<W>(o: Ops<W>, x: Quad<W>): Quad<W> {
    var Quad(b0, b1, b2, b3) := x;
    var b2 := o.rol(b2, 10); var b0 := o.rol(b0, 27); var b2 := o.xor(b2, b3);
    var b2 := o.xor(b2, o.shl(b1, 7)); var b0 := o.xor(b0, b1); var b0 := o.xor(b0, b3);
    var b3 := o.rol(b3, 25); var b1 := o.rol(b1, 31); var b3 := o.xor(b3, b2);
    var b3 := o.xor(b3, o.shl(b0, 3)); var b1 := o.xor(b1, b0); var b1 := o.xor(b1, b2);
    var b2 := o.rol(b2, 29); var b0 := o.rol(b0, 19);
    Quad(b0, b1, b2, b3)
  }

  lemma LtInverse<W(!new)>(o: Ops<W>, x: Quad<W>)
    requires Linear(o)
    ensures InvLt(o, Lt(o, x)) == x
  {
  }

  // ---- rounds -------------------------------------------------------------------------------------

  /** KX: xors in the four words of round key r. */
  function Kx<W>(o: Ops<W>, x: Quad<W>, k: seq<W>, r: nat): Quad<W>
    requires |k| == 132 && r < 33
  {
    Quad(o.xor(x.x0, k[4 * r]), o.xor(x.x1, k[4 * r + 1]), o.xor(x.x2, k[4 * r + 2]), o.xor(x.x3, k[4 * r + 3]))
  }

  type Gates<!W> = (Ops<W>, Quad<W>) -> Quad<W>

  /** ENC_ROUND(r, sb). */
  function EncRound<W>(o: Ops<W>, k: seq<W>, r: nat, sb: Gates<W>, x: Quad<W>): Quad<W>
    requires |k| == 132 && r < 31
  {
    Lt(o, sb(o, Kx(o, x, k, r)))
  }

  /** DEC_ROUND(r, sb). */
  function DecRound<W>(o: Ops<W>, k: seq<W>, r: nat, sb: Gates<W>, x: Quad<W>): Quad<W>
    requires |k| == 132 && r < 31
  {
    Kx(o, sb(o, InvLt(o, x)), k, r)
  }

  /** The final round: an extra key xor instead of the linear transform. */
  function EncLast<W>(o: Ops<W>, k: seq<W>, x: Quad<W>): Quad<W>
    requires |k| == 132
  {
    Kx(o, S7(o, Kx(o, x, k, 31)), k, 32)
  }

  function DecLast<W>(o: Ops<W>, k: seq<W>, x: Quad<W>): Quad<W>
    requires |k| == 132
  {
    Kx(o, InvS7(o, Kx(o, x, k, 32)), k, 31)
  }

  ghost function EncRounds<W>(o: Ops<W>, k: seq<W>): (nat, Quad<W>) --> Quad<W> {
    (r: nat, x: Quad<W>) requires |k| == 132 && r < 31 => EncRound(o, k, r, SboxOf(r), x)
  }

  /** The cipher as a plain loop over its rounds. */
  ghost function EncryptLoop<W(!new)>(o: Ops<W>, k: seq<W>, x: Quad<W>): Quad<W>
    requires |k| == 132
  {
    EncLast(o, k, Forward(EncRounds(o, k), x, 31))
  }

  lemma KxInverse<W(!new)>(o: Ops<W>, k: seq<W>, x: Quad<W>, r: nat)
    requires Linear(o) && |k| == 132 && r < 33
    ensures Kx(o, Kx(o, x, k, r), k, r) == x
  {
  }

  lemma RoundInverse<W(!new)>(o: Ops<W>, lane: (nat, W) -> bool, lanes: nat, k: seq<W>, x: Quad<W>, r: nat)
    requires Bitwise(o, lane, lanes) && Linear(o) && |k| == 132 && r < 31
    ensures DecRound(o, k, r, InvSboxOf(r), EncRound(o, k, r, SboxOf(r), x)) == x
  {
    var z := Kx(o, x, k, r);
    LtInverse(o, Sbox(o, r, z));
    SboxInverse(o, lane, lanes, r, z);
    KxInverse(o, k, x, r);
  }

  lemma LastInverse<W(!new)>(o: Ops<W>, lane: (nat, W) -> bool, lanes: nat, k: seq<W>, x: Quad<W>)
    requires Bitwise(o, lane, lanes) && Linear(o) && |k| == 132
    ensures DecLast(o, k, EncLast(o, k, x)) == x
  {
    var z := Kx(o, x, k, 31);
    KxInverse(o, k, S7(o, z), 32);
    assert SboxOf<W>(7) == S7 && InvSboxOf<W>(7) == InvS7;
    SboxInverse(o, lane, lanes, 7, z);
    KxInverse(o, k, x, 31);
  }

  // ---- the unrolled schedules ---------------------------------------------------------------------

  /** Seven consecutive rounds as they are written out, S0 to S6; the eighth uses S7. */
  function EncSeven<W>(o: Ops<W>, k: seq<W>, r: nat, x: Quad<W>): Quad<W>
    requires |k| == 132 && r + 7 <= 31
  {
    var x := EncRound(o, k, r, S0, x);
    var x := EncRound(o, k, r + 1, S1, x);
    var x := EncRound(o, k, r + 2, S2, x);
    var x := EncRound(o, k, r + 3, S3, x);
    var x := EncRound(o, k, r + 4, S4, x);
    var x := EncRound(o, k, r + 5, S5, x);
    var x := EncRound(o, k, r + 6, S6, x);
    x
  }

  function EncEight<W>(o: Ops<W>, k: seq<W>, r: nat, x: Quad<W>): Quad<W>
    requires |k| == 132 && r + 8 <= 31
  {
    EncRound(o, k, r + 7, S7, EncSeven(o, k, r, x))
  }

  function DecSeven<W>(o: Ops<W>, k: seq<W>, r: nat, x: Quad<W>): Quad<W>
    requires |k| == 132 && r + 7 <= 31
  {
    var x := DecRound(o, k, r + 6, InvS6, x);
    var x := DecRound(o, k, r + 5, InvS5, x);
    var x := DecRound(o, k, r + 4, InvS4, x);
    var x := DecRound(o, k, r + 3, InvS3, x);
    var x := DecRound(o, k, r + 2, InvS2, x);
    var x := DecRound(o, k, r + 1, InvS1, x);
    var x := DecRound(o, k, r, InvS0, x);
    x
  }

  function DecEight<W>(o: Ops<W>, k: seq<W>, r: nat, x: Quad<W>): Quad<W>
    requires |k| == 132 && r + 8 <= 31
  {
    DecSeven(o, k, r, DecRound(o, k, r + 7, InvS7, x))
  }

  /** serpent256_encrypt after loading the four words. */
  function Encrypt<W>(o: Ops<W>, k: seq<W>, x: Quad<W>): Quad<W>
    requires |k| == 132
  {
    var x := EncEight(o, k, 0, x);
    var x := EncEight(o, k, 8, x);
    var x := EncEight(o, k, 16, x);
    var x := EncSeven(o, k, 24, x);
    EncLast(o, k, x)
  }

  /** serpent256_decrypt after loading the four words. */
  function Decrypt<W>(o: Ops<W>, k: seq<W>, x: Quad<W>): Quad<W>
    requires |k| == 132
  {
    var x := DecLast(o, k, x);
    var x := DecSeven(o, k, 24, x);
    var x := DecEight(o, k, 16, x);
    var x := DecEight(o, k, 8, x);
    DecEight(o, k, 0, x)
  }

  lemma SboxOfGroup<W>(r: nat)
    requires r % 8 == 0
    ensures SboxOf<W>(r) == S0 && SboxOf<W>(r + 1) == S1 && SboxOf<W>(r + 2) == S2 && SboxOf<W>(r + 3) == S3
    ensures SboxOf<W>(r + 4) == S4 && SboxOf<W>(r + 5) == S5 && SboxOf<W>(r + 6) == S6 && SboxOf<W>(r + 7) == S7
    ensures InvSboxOf<W>(r) == InvS0 && InvSboxOf<W>(r + 1) == InvS1 && InvSboxOf<W>(r + 2) == InvS2
    ensures InvSboxOf<W>(r + 3) == InvS3 && InvSboxOf<W>(r + 4) == InvS4 && InvSboxOf<W>(r + 5) == InvS5
    ensures InvSboxOf<W>(r + 6) == InvS6 && InvSboxOf<W>(r + 7) == InvS7
  {
  }

  lemma EncSevenIsLoop<W(!new)>(o: Ops<W>, k: seq<W>, x: Quad<W>, r: nat)
    requires |k| == 132 && r % 8 == 0 && r + 7 <= 31
    ensures EncSeven(o, k, r, Forward(EncRounds(o, k), x, r)) == Forward(EncRounds(o, k), x, r + 7)
  {
    SboxOfGroup<W>(r);
    ForwardSeven(EncRounds(o, k), x, r);
  }

  lemma EncEightIsLoop<W(!new)>(o: Ops<W>, k: seq<W>, x: Quad<W>, r: nat)
    requires |k| == 132 && r % 8 == 0 && r + 8 <= 31
    ensures EncEight(o, k, r, Forward(EncRounds(o, k), x, r)) == Forward(EncRounds(o, k), x, r + 8)
  {
    SboxOfGroup<W>(r);
    EncSevenIsLoop(o, k, x, r);
  }

  /** The schedule written out round by round is the plain loop. */
  lemma EncryptIsLoop<W(!new)>(o: Ops<W>, k: seq<W>, x: Quad<W>)
    requires |k| == 132
    ensures Encrypt(o, k, x) == EncryptLoop(o, k, x)
  {
    EncEightIsLoop(o, k, x, 0);
    EncEightIsLoop(o, k, x, 8);
    EncEightIsLoop(o, k, x, 16);
    EncSevenIsLoop(o, k, x, 24);
  }

  lemma SevenInverse<W(!new)>(o: Ops<W>, lane: (nat, W) -> bool, lanes: nat, k: seq<W>, r: nat, x: Quad<W>)
    requires Bitwise(o, lane, lanes) && Linear(o) && |k| == 132 && r % 8 == 0 && r + 7 <= 31
    ensures DecSeven(o, k, r, EncSeven(o, k, r, x)) == x
  {
    SboxOfGroup<W>(r);
    var x1 := EncRound(o, k, r, S0, x);
    var x2 := EncRound(o, k, r + 1, S1, x1);
    var x3 := EncRound(o, k, r + 2, S2, x2);
    var x4 := EncRound(o, k, r + 3, S3, x3);
    var x5 := EncRound(o, k, r + 4, S4, x4);
    var x6 := EncRound(o, k, r + 5, S5, x5);
    RoundInverse(o, lane, lanes, k, x6, r + 6);
    RoundInverse(o, lane, lanes, k, x5, r + 5);
    RoundInverse(o, lane, lanes, k, x4, r + 4);
    RoundInverse(o, lane, lanes, k, x3, r + 3);
    RoundInverse(o, lane, lanes, k, x2, r + 2);
    RoundInverse(o, lane, lanes, k, x1, r + 1);
    RoundInverse(o, lane, lanes, k, x, r);
  }

  lemma EightInverse<W(!new)>(o: Ops<W>, lane: (nat, W) -> bool, lanes: nat, k: seq<W>, r: nat, x: Quad<W>)
    requires Bitwise(o, lane, lanes) && Linear(o) && |k| == 132 && r % 8 == 0 && r + 8 <= 31
    ensures DecEight(o, k, r, EncEight(o, k, r, x)) == x
  {
    SboxOfGroup<W>(r);
    RoundInverse(o, lane, lanes, k, EncSeven(o, k, r, x), r + 7);
    SevenInverse(o, lane, lanes, k, r, x);
  }

  /** Over every word type made of lanes, decryption undoes encryption for every expanded key and block. */
  lemma DecryptInverse<W(!new)>(o: Ops<W>, lane: (nat, W) -> bool, lanes: nat, k: seq<W>, x: Quad<W>)
    requires Bitwise(o, lane, lanes) && Linear(o) && |k| == 132
    ensures Decrypt(o, k, Encrypt(o, k, x)) == x
  {
    var x1 := EncEight(o, k, 0, x);
    var x2 := EncEight(o, k, 8, x1);
    var x3 := EncEight(o, k, 16, x2);
    EightInverse(o, lane, lanes, k, 0, x);
    EightInverse(o, lane, lanes, k, 8, x1);
    EightInverse(o, lane, lanes, k, 16, x2);
    SevenInverse(o, lane, lanes, k, 24, x3);
    LastInverse(o, lane, lanes, k, EncSeven(o, k, 24, x3));
  }

  // ---- 32-bit words -------------------------------------------------------------------------------

  const WordOps: Ops<bv32> := Ops(Xor, And, Or, Not, Rol, Shl)

  /** One arithmetic shift to the right: it commutes with all four logical operations. */
  function Half(w: bv32): bv32 {
    (w >> 1) ^ (w & SIGN)
  }

  const SIGN: bv32 := 0x80000000

  function Asr(w: bv32, i: nat): bv32
    decreases i
  {
    if i == 0 then w else Half(Asr(w, i - 1))
  }

  predicate Odd(w: bv32) {
    w & 1 != 0
  }

  /** Bit i of a word. */
  function BitLane(i: nat, w: bv32): bool {
    Odd(Asr(w, i))
  }

  lemma RawHalfXor(a: bv32, b: bv32)
    ensures Half(a ^ b) == Half(a) ^ Half(b)
  {
  }

  lemma HalfXor(a: bv32, b: bv32)
    ensures Half(Xor(a, b)) == Xor(Half(a), Half(b))
  {
    RawHalfXor(a, b);
  }

  lemma RawHalfAnd(a: bv32, b: bv32)
    ensures Half(a & b) == Half(a) & Half(b)
  {
  }

  lemma HalfAnd(a: bv32, b: bv32)
    ensures Half(And(a, b)) == And(Half(a), Half(b))
  {
    RawHalfAnd(a, b);
  }

  lemma RawHalfOr(a: bv32, b: bv32)
    ensures Half(a | b) == Half(a) | Half(b)
  {
  }

  lemma HalfOr(a: bv32, b: bv32)
    ensures Half(Or(a, b)) == Or(Half(a), Half(b))
  {
    RawHalfOr(a, b);
  }

  lemma HalfNot(a: bv32)
    ensures Half(Not(a)) == Not(Half(a))
  {
    NotIsXor(a);
    NotIsXor(Half(a));
    HalfXor(a, 0xFFFFFFFF);
  }

  lemma NotIsXor(a: bv32)
    ensures Not(a) == Xor(a, 0xFFFFFFFF)
  {
  }

  lemma {:induction false} AsrXor(a: bv32, b: bv32, i: nat)
    ensures Asr(Xor(a, b), i) == Xor(Asr(a, i), Asr(b, i))
    decreases i
  {
    if i > 0 {
      AsrXor(a, b, i - 1);
      HalfXor(Asr(a, i - 1), Asr(b, i - 1));
    }
  }

  lemma {:induction false} AsrAnd(a: bv32, b: bv32, i: nat)
    ensures Asr(And(a, b), i) == And(Asr(a, i), Asr(b, i))
    decreases i
  {
    if i > 0 {
      AsrAnd(a, b, i - 1);
      HalfAnd(Asr(a, i - 1), Asr(b, i - 1));
    }
  }

  lemma {:induction false} AsrOr(a: bv32, b: bv32, i: nat)
    ensures Asr(Or(a, b), i) == Or(Asr(a, i), Asr(b, i))
    decreases i
  {
    if i > 0 {
      AsrOr(a, b, i - 1);
      HalfOr(Asr(a, i - 1), Asr(b, i - 1));
    }
  }

  lemma {:induction false} AsrNot(a: bv32, i: nat)
    ensures Asr(Not(a), i) == Not(Asr(a, i))
    decreases i
  {
    if i > 0 {
      AsrNot(a, i - 1);
      HalfNot(Asr(a, i - 1));
    }
  }

  lemma OddXor(a: bv32, b: bv32)
    ensures Odd(Xor(a, b)) <==> (Odd(a) != Odd(b))
  {
  }

  lemma LaneXor(i: nat, a: bv32, b: bv32)
    ensures BitLane(i, Xor(a, b)) == (BitLane(i, a) != BitLane(i, b))
  {
    AsrXor(a, b, i);
    OddXor(Asr(a, i), Asr(b, i));
  }

  lemma OddAnd(a: bv32, b: bv32)
    ensures Odd(And(a, b)) <==> (Odd(a) && Odd(b))
  {
  }

  lemma LaneAnd(i: nat, a: bv32, b: bv32)
    ensures BitLane(i, And(a, b)) == (BitLane(i, a) && BitLane(i, b))
  {
    AsrAnd(a, b, i);
    OddAnd(Asr(a, i), Asr(b, i));
  }

  lemma OddOr(a: bv32, b: bv32)
    ensures Odd(Or(a, b)) <==> (Odd(a) || Odd(b))
  {
  }

  lemma LaneOr(i: nat, a: bv32, b: bv32)
    ensures BitLane(i, Or(a, b)) == (BitLane(i, a) || BitLane(i, b))
  {
    AsrOr(a, b, i);
    OddOr(Asr(a, i), Asr(b, i));
  }

  lemma OddNot(a: bv32)
    ensures Odd(Not(a)) <==> !Odd(a)
  {
  }

  lemma LaneNot(i: nat, a: bv32)
    ensures BitLane(i, Not(a)) == !BitLane(i, a)
  {
    AsrNot(a, i);
    OddNot(Asr(a, i));
  }

  lemma WordLaneXor(i: nat, a: bv32, b: bv32)
    ensures Lane(BitLane, i)(WordOps.xor(a, b)) == BitOps.xor(Lane(BitLane, i)(a), Lane(BitLane, i)(b))
  {
    LaneXor(i, a, b);
  }

  lemma WordLaneAnd(i: nat, a: bv32, b: bv32)
    ensures Lane(BitLane, i)(WordOps.and(a, b)) == BitOps.and(Lane(BitLane, i)(a), Lane(BitLane, i)(b))
  {
    LaneAnd(i, a, b);
  }

  lemma WordLaneOr(i: nat, a: bv32, b: bv32)
    ensures Lane(BitLane, i)(WordOps.or(a, b)) == BitOps.or(Lane(BitLane, i)(a), Lane(BitLane, i)(b))
  {
    LaneOr(i, a, b);
  }

  lemma WordLaneNot(i: nat, a: bv32)
    ensures Lane(BitLane, i)(WordOps.not(a)) == BitOps.not(Lane(BitLane, i)(a))
  {
    LaneNot(i, a);
  }

  lemma WordLane(i: nat)
    ensures Homomorphism(WordOps, BitOps, Lane(BitLane, i))
  {
    forall a: bv32, b: bv32 {
      WordLaneXor(i, a, b);
    }
    forall a: bv32, b: bv32 {
      WordLaneAnd(i, a, b);
    }
    forall a: bv32, b: bv32 {
      WordLaneOr(i, a, b);
    }
    forall a: bv32 {
      WordLaneNot(i, a);
    }
  }

  lemma HalfAndOdd(a: bv32, b: bv32)
    requires Half(a) == Half(b) && Odd(a) == Odd(b)
    ensures a == b
  {
  }

  /** After 31 shifts only copies of the sign bit are left. */
  lemma AsrAll(a: bv32)
    ensures Asr(a, 31) == 0 || Asr(a, 31) == 0xFFFFFFFF
  {
    AsrAnd(a, SIGN, 31);
    AsrSign();
    AndSign(a);
    AndOnes(Asr(a, 31));
  }

  lemma AsrSign()
    ensures Asr(SIGN, 31) == 0xFFFFFFFF && Asr(0, 31) == 0
  {
    assert Asr(SIGN, 4) == 0xF8000000 && Asr(0, 4) == 0;
    assert Asr(SIGN, 8) == 0xFF800000 && Asr(0, 8) == 0;
    assert Asr(SIGN, 12) == 0xFFF80000 && Asr(0, 12) == 0;
    assert Asr(SIGN, 16) == 0xFFFF8000 && Asr(0, 16) == 0;
    assert Asr(SIGN, 20) == 0xFFFFF800 && Asr(0, 20) == 0;
    assert Asr(SIGN, 24) == 0xFFFFFF80 && Asr(0, 24) == 0;
    assert Asr(SIGN, 28) == 0xFFFFFFF8 && Asr(0, 28) == 0;
  }

  lemma AndSign(a: bv32)
    ensures And(a, SIGN) == 0 || And(a, SIGN) == SIGN
  {
  }

  lemma AndOnes(a: bv32)
    ensures And(a, 0xFFFFFFFF) == a
  {
  }

  lemma {:induction false} SameFrom(a: bv32, b: bv32, i: nat)
    requires i <= 31 && SameLanes(BitLane, 32, a, b)
    ensures Asr(a, i) == Asr(b, i)
    decreases 31 - i
  {
    assert BitLane(i, a) == BitLane(i, b);
    if i == 31 {
      AsrAll(a);
      AsrAll(b);
    } else {
      SameFrom(a, b, i + 1);
      HalfAndOdd(Asr(a, i), Asr(b, i));
    }
  }

  /** 32-bit words are thirty-two lanes. */
  lemma WordsAreBitwise()
    ensures Bitwise(WordOps, BitLane, 32)
  {
    forall i: nat | i < 32 ensures Homomorphism(WordOps, BitOps, Lane(BitLane, i)) {
      WordLane(i);
    }
    forall a: bv32, b: bv32 | SameLanes(BitLane, 32, a, b) ensures a == b {
      SameFrom(a, b, 0);
    }
  }

  lemma Rol13Undone(a: bv32)
    ensures Rol(Rol(a, 13), 19) == a
  {
  }

  lemma Rol3Undone(a: bv32)
    ensures Rol(Rol(a, 3), 29) == a
  {
  }

  lemma Rol1Undone(a: bv32)
    ensures Rol(Rol(a, 1), 31) == a
  {
  }

  lemma Rol7Undone(a: bv32)
    ensures Rol(Rol(a, 7), 25) == a
  {
  }

  lemma Rol5Undone(a: bv32)
    ensures Rol(Rol(a, 5), 27) == a
  {
  }

  lemma Rol22Undone(a: bv32)
    ensures Rol(Rol(a, 22), 10) == a
  {
  }

  lemma WordsAreLinear()
    ensures Linear(WordOps)
  {
    forall a: bv32, b: bv32 ensures WordOps.xor(WordOps.xor(a, b), b) == a {
      XorUndone(a, b, b);
    }
    forall a: bv32, b: bv32, c: bv32
      ensures WordOps.xor(WordOps.xor(WordOps.xor(WordOps.xor(a, b), c), b), c) == a
    {
      XorUndone(a, b, c);
    }
    forall a: bv32
      ensures WordOps.rol(WordOps.rol(a, 13), 19) == a && WordOps.rol(WordOps.rol(a, 3), 29) == a
           && WordOps.rol(WordOps.rol(a, 1), 31) == a
    {
      Rol13Undone(a);
      Rol3Undone(a);
      Rol1Undone(a);
    }
    forall a: bv32
      ensures WordOps.rol(WordOps.rol(a, 7), 25) == a && WordOps.rol(WordOps.rol(a, 5), 27) == a
           && WordOps.rol(WordOps.rol(a, 22), 10) == a
    {
      Rol7Undone(a);
      Rol5Undone(a);
      Rol22Undone(a);
    }
  }

  /** serpent256_decrypt undoes serpent256_encrypt. */
  lemma WordDecryptInverse(k: seq<bv32>, x: Quad<bv32>)
    requires |k| == 132
    ensures Decrypt(WordOps, k, Encrypt(WordOps, k, x)) == x
  {
    WordsAreBitwise();
    WordsAreLinear();
    DecryptInverse(WordOps, BitLane, 32, k, x);
  }
}
