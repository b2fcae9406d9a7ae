/**
 Twofish-256: the sixteen role-swapping rounds, the four-way interleaved form and the key-dependent tables.
 */
module Twofish {
  import opened Words
  import opened Schedule

  /** The expanded key: four key-dependent S-boxes folded into the MDS matrix, whitening and round subkeys. */
  datatype Key = Key(s: seq<seq<bv32>>, w: seq<bv32>, k: seq<bv32>)

  predicate IsKey(key: Key) {
    && |key.s| == 4 && (forall j | 0 <= j < 4 :: |key.s[j]| == 256)
    && |key.w| == 8 && |key.k| == 32
  }

  datatype State = State(a: bv32, b: bv32, c: bv32, d: bv32)

  // ---- the round function -------------------------------------------------------------------------

  function At(t: seq<bv32>, i: bv8): bv32
    requires |t| == 256
  {
    t[i as int]
  }

  /** The macro G1: g(X) by table lookups. */
  function G1(key: Key, x: bv32): bv32
    requires IsKey(key)
  {
    Xor(Xor(Xor(At(key.s[0], Byte0(x)), At(key.s[1], Byte1(x))), At(key.s[2], Byte2(x))), At(key.s[3], Byte3(x)))
  }

  /** The macro G2: g(X <<< 8) without the rotation. */
  function G2(key: Key, x: bv32): bv32
    requires IsKey(key)
  {
    Xor(Xor(Xor(At(key.s[0], Byte3(x)), At(key.s[1], Byte0(x))), At(key.s[2], Byte1(x))), At(key.s[3], Byte2(x)))
  }

  /** The x and y of round n: the pseudo-Hadamard transform of G1 and G2, plus the round subkeys. */
  function Fx(key: Key, n: nat, a: bv32, b: bv32): bv32
    requires IsKey(key) && n < 16
  {
    Add(Add(G1(key, a), G2(key, b)), key.k[2 * n])
  }

  function Fy(key: Key, n: nat, a: bv32, b: bv32): bv32
    requires IsKey(key) && n < 16
  {
    Add(G2(key, b), Add(Add(G1(key, a), G2(key, b)), key.k[2 * n + 1]))
  }

  /** ENC_ROUND(n, a, b, c, d). */
  function EncRound(key: Key, n: nat, q: State): State
    requires IsKey(key) && n < 16
  {
    var x, y := Fx(key, n, q.a, q.b), Fy(key, n, q.a, q.b);
    State(q.a, q.b, Ror1(Xor(q.c, x)), Xor(Rol1(q.d), y))
  }

  /** DEC_ROUND(n, a, b, c, d). */
  function DecRound(key: Key, n: nat, q: State): State
    requires IsKey(key) && n < 16
  {
    var x, y := Fx(key, n, q.a, q.b), Fy(key, n, q.a, q.b);
    State(q.a, q.b, Xor(Rol1(q.c), x), Ror1(Xor(q.d, y)))
  }

  /** The same four words with the roles of the two halves exchanged. */
  function Roles(q: State): State {
    State(q.c, q.d, q.a, q.b)
  }

  lemma RoundInverse(key: Key, n: nat, q: State)
    requires IsKey(key) && n < 16
    ensures DecRound(key, n, EncRound(key, n, q)) == q
  {
    var x, y := Fx(key, n, q.a, q.b), Fy(key, n, q.a, q.b);
    RotateUndone(Xor(q.c, x));
    RotateUndone(q.d);
    XorUndone(q.c, x, 0);
    XorUndone(Rol1(q.d), y, 0);
  }

  // ---- the unrolled schedules ---------------------------------------------------------------------

  /** Rounds n and n + 1 of encryption, one line of the schedule: a,b drive c,d and then c,d drive a,b. */
  function EncPair(key: Key, n: nat, q: State): State
    requires IsKey(key) && n + 1 < 16
  {
    Roles(EncRound(key, n + 1, Roles(EncRound(key, n, q))))
  }

  function DecPair(key: Key, n: nat, q: State): State
    requires IsKey(key) && n + 1 < 16
  {
    DecRound(key, n, Roles(DecRound(key, n + 1, Roles(q))))
  }

  function EncRounds(key: Key, q: State): State
    requires IsKey(key)
  {
    var q := EncPair(key, 0, q);
    var q := EncPair(key, 2, q);
    var q := EncPair(key, 4, q);
    var q := EncPair(key, 6, q);
    var q := EncPair(key, 8, q);
    var q := EncPair(key, 10, q);
    var q := EncPair(key, 12, q);
    EncPair(key, 14, q)
  }

  function DecRounds(key: Key, q: State): State
    requires IsKey(key)
  {
    var q := DecPair(key, 14, q);
    var q := DecPair(key, 12, q);
    var q := DecPair(key, 10, q);
    var q := DecPair(key, 8, q);
    var q := DecPair(key, 6, q);
    var q := DecPair(key, 4, q);
    var q := DecPair(key, 2, q);
    DecPair(key, 0, q)
  }

  function WhitenIn(key: Key, q: State): State
    requires IsKey(key)
  {
    State(Xor(q.a, key.w[0]), Xor(q.b, key.w[1]), Xor(q.c, key.w[2]), Xor(q.d, key.w[3]))
  }

  /** The output whitening; the halves leave in exchanged order. */
  function WhitenOut(key: Key, q: State): State
    requires IsKey(key)
  {
    State(Xor(q.c, key.w[4]), Xor(q.d, key.w[5]), Xor(q.a, key.w[6]), Xor(q.b, key.w[7]))
  }

  /** Loading a ciphertext: the output whitening is undone and the halves return to their places. */
  function UnwhitenOut(key: Key, q: State): State
    requires IsKey(key)
  {
    State(Xor(q.c, key.w[6]), Xor(q.d, key.w[7]), Xor(q.a, key.w[4]), Xor(q.b, key.w[5]))
  }

  /** twofish256_encrypt on the four words of a block. */
  function Encrypt(key: Key, q: State): State
    requires IsKey(key)
  {
    WhitenOut(key, EncRounds(key, WhitenIn(key, q)))
  }

  /** twofish256_decrypt on the four words of a block. */
  function Decrypt(key: Key, q: State): State
    requires IsKey(key)
  {
    WhitenIn(key, DecRounds(key, UnwhitenOut(key, q)))
  }

  lemma PairInverse(key: Key, n: nat, q: State)
    requires IsKey(key) && n + 1 < 16
    ensures DecPair(key, n, EncPair(key, n, q)) == q
  {
    var p := EncRound(key, n, q);
    RoundInverse(key, n + 1, Roles(p));
    RoundInverse(key, n, q);
  }

  lemma RoundsInverse(key: Key, q: State)
    requires IsKey(key)
    ensures DecRounds(key, EncRounds(key, q)) == q
  {
    var q1 := EncPair(key, 0, q);
    var q2 := EncPair(key, 2, q1);
    var q3 := EncPair(key, 4, q2);
    var q4 := EncPair(key, 6, q3);
    var q5 := EncPair(key, 8, q4);
    var q6 := EncPair(key, 10, q5);
    var q7 := EncPair(key, 12, q6);
    PairInverse(key, 14, q7);
    PairInverse(key, 12, q6);
    PairInverse(key, 10, q5);
    PairInverse(key, 8, q4);
    PairInverse(key, 6, q3);
    PairInverse(key, 4, q2);
    PairInverse(key, 2, q1);
    PairInverse(key, 0, q);
  }

  lemma WhiteningInverse(key: Key, q: State)
    requires IsKey(key)
    ensures WhitenIn(key, WhitenIn(key, q)) == q
    ensures UnwhitenOut(key, WhitenOut(key, q)) == q
  {
    XorUndone(q.a, key.w[0], 0);
    XorUndone(q.b, key.w[1], 0);
    XorUndone(q.c, key.w[2], 0);
    XorUndone(q.d, key.w[3], 0);
    XorUndone(q.c, key.w[4], 0);
    XorUndone(q.d, key.w[5], 0);
    XorUndone(q.a, key.w[6], 0);
    XorUndone(q.b, key.w[7], 0);
  }

  /** Decryption undoes encryption for every key schedule and every block. */
  lemma DecryptInverse(key: Key, q: State)
    requires IsKey(key)
    ensures Decrypt(key, Encrypt(key, q)) == q
  {
    var p := WhitenIn(key, q);
    WhiteningInverse(key, EncRounds(key, p));
    RoundsInverse(key, p);
    WhiteningInverse(key, q);
  }

  // ---- the textbook Feistel network ---------------------------------------------------------------

  /** One round of the specification: the halves are physically exchanged after every round. */
  function TextbookRound(key: Key, n: nat, r: State): State
    requires IsKey(key) && n < 16
  {
    State(Ror1(Xor(r.c, Fx(key, n, r.a, r.b))), Xor(Rol1(r.d), Fy(key, n, r.a, r.b)), r.a, r.b)
  }

  ghost function TextbookRounds(key: Key): (nat, State) --> State {
    (n: nat, r: State) requires IsKey(key) && n < 16 => TextbookRound(key, n, r)
  }

  /** Sixteen rounds; the output undoes the last exchange and adds the subkeys K4 to K7. */
  ghost function TextbookEncrypt(key: Key, q: State): State
    requires IsKey(key)
  {
    var r := Forward(TextbookRounds(key), WhitenIn(key, q), 16);
    State(Xor(r.c, key.w[4]), Xor(r.d, key.w[5]), Xor(r.a, key.w[6]), Xor(r.b, key.w[7]))
  }

  lemma PairIsTwoRounds(key: Key, q: State, n: nat)
    requires IsKey(key) && n + 1 < 16
    ensures Forward(TextbookRounds(key), q, n + 2) == EncPair(key, n, Forward(TextbookRounds(key), q, n))
  {
    var f := TextbookRounds(key);
    var p := Forward(f, q, n);
    assert Forward(f, q, n + 1) == f(n, p) == TextbookRound(key, n, p);
  }

  lemma FourPairs(key: Key, q: State, n: nat)
    requires IsKey(key) && n + 8 <= 16
    ensures Forward(TextbookRounds(key), q, n + 8) ==
            EncPair(key, n + 6, EncPair(key, n + 4, EncPair(key, n + 2,
                                                            EncPair(key, n, Forward(TextbookRounds(key), q, n)))))
  {
    PairIsTwoRounds(key, q, n);
    PairIsTwoRounds(key, q, n + 2);
    PairIsTwoRounds(key, q, n + 4);
    PairIsTwoRounds(key, q, n + 6);
  }

  /** The schedule that renames instead of exchanging computes the textbook cipher. */
  lemma EncryptIsTextbook(key: Key, q: State)
    requires IsKey(key)
    ensures Encrypt(key, q) == TextbookEncrypt(key, q)
  {
    FourPairs(key, WhitenIn(key, q), 0);
    FourPairs(key, WhitenIn(key, q), 8);
  }

  // ---- four blocks interleaved --------------------------------------------------------------------

  datatype Four = Four(q0: State, q1: State, q2: State, q3: State)

  /** The macro ER4: round n on four blocks, step by step across the blocks. */
  function EncRound4(key: Key, n: nat, f: Four): Four
    requires IsKey(key) && n < 16
  {
    var x0, y0, x1, y1 := G1(key, f.q0.a), G2(key, f.q0.b), G1(key, f.q1.a), G2(key, f.q1.b);
    var x2, y2, x3, y3 := G1(key, f.q2.a), G2(key, f.q2.b), G1(key, f.q3.a), G2(key, f.q3.b);
    var x0, x1, x2, x3 := Add(x0, y0), Add(x1, y1), Add(x2, y2), Add(x3, y3);
    var y0, y1 := Add(y0, Add(x0, key.k[2 * n + 1])), Add(y1, Add(x1, key.k[2 * n + 1]));
    var y2, y3 := Add(y2, Add(x2, key.k[2 * n + 1])), Add(y3, Add(x3, key.k[2 * n + 1]));
    var x0, x1, x2, x3 := Add(x0, key.k[2 * n]), Add(x1, key.k[2 * n]), Add(x2, key.k[2 * n]), Add(x3, key.k[2 * n]);
    var c0, c1 := Ror1(Xor(f.q0.c, x0)), Ror1(Xor(f.q1.c, x1));
    var c2, c3 := Ror1(Xor(f.q2.c, x2)), Ror1(Xor(f.q3.c, x3));
    var d0, d1 := Xor(Rol1(f.q0.d), y0), Xor(Rol1(f.q1.d), y1);
    var d2, d3 := Xor(Rol1(f.q2.d), y2), Xor(Rol1(f.q3.d), y3);
    Four(State(f.q0.a, f.q0.b, c0, d0), State(f.q1.a, f.q1.b, c1, d1),
         State(f.q2.a, f.q2.b, c2, d2), State(f.q3.a, f.q3.b, c3, d3))
  }

  /** The macro DR4. */
  function DecRound4(key: Key, n: nat, f: Four): Four
    requires IsKey(key) && n < 16
  {
    var x0, y0, x1, y1 := G1(key, f.q0.a), G2(key, f.q0.b), G1(key, f.q1.a), G2(key, f.q1.b);
    var x2, y2, x3, y3 := G1(key, f.q2.a), G2(key, f.q2.b), G1(key, f.q3.a), G2(key, f.q3.b);
    var x0, x1, x2, x3 := Add(x0, y0), Add(x1, y1), Add(x2, y2), Add(x3, y3);
    var y0, y1 := Add(y0, Add(x0, key.k[2 * n + 1])), Add(y1, Add(x1, key.k[2 * n + 1]));
    var y2, y3 := Add(y2, Add(x2, key.k[2 * n + 1])), Add(y3, Add(x3, key.k[2 * n + 1]));
    var x0, x1, x2, x3 := Add(x0, key.k[2 * n]), Add(x1, key.k[2 * n]), Add(x2, key.k[2 * n]), Add(x3, key.k[2 * n]);
    var d0, d1 := Ror1(Xor(f.q0.d, y0)), Ror1(Xor(f.q1.d, y1));
    var d2, d3 := Ror1(Xor(f.q2.d, y2)), Ror1(Xor(f.q3.d, y3));
    var c0, c1 := Xor(Rol1(f.q0.c), x0), Xor(Rol1(f.q1.c), x1);
    var c2, c3 := Xor(Rol1(f.q2.c), x2), Xor(Rol1(f.q3.c), x3);
    Four(State(f.q0.a, f.q0.b, c0, d0), State(f.q1.a, f.q1.b, c1, d1),
         State(f.q2.a, f.q2.b, c2, d2), State(f.q3.a, f.q3.b, c3, d3))
  }

  function Roles4(f: Four): Four {
    Four(Roles(f.q0), Roles(f.q1), Roles(f.q2), Roles(f.q3))
  }

  /** ROUNDS_A(ER4, n) ROUNDS_B(ER4, n + 1). */
  function EncPair4(key: Key, n: nat, f: Four): Four
    requires IsKey(key) && n + 1 < 16
  {
    Roles4(EncRound4(key, n + 1, Roles4(EncRound4(key, n, f))))
  }

  /** ROUNDS_B(DR4, n + 1) ROUNDS_A(DR4, n). */
  function DecPair4(key: Key, n: nat, f: Four): Four
    requires IsKey(key) && n + 1 < 16
  {
    DecRound4(key, n, Roles4(DecRound4(key, n + 1, Roles4(f))))
  }

  /** ENCRYPT_16. */
  function EncRounds4(key: Key, f: Four): Four
    requires IsKey(key)
  {
    var f := EncPair4(key, 0, f);
    var f := EncPair4(key, 2, f);
    var f := EncPair4(key, 4, f);
    var f := EncPair4(key, 6, f);
    var f := EncPair4(key, 8, f);
    var f := EncPair4(key, 10, f);
    var f := EncPair4(key, 12, f);
    EncPair4(key, 14, f)
  }

  /** DECRYPT_16. */
  function DecRounds4(key: Key, f: Four): Four
    requires IsKey(key)
  {
    var f := DecPair4(key, 14, f);
    var f := DecPair4(key, 12, f);
    var f := DecPair4(key, 10, f);
    var f := DecPair4(key, 8, f);
    var f := DecPair4(key, 6, f);
    var f := DecPair4(key, 4, f);
    var f := DecPair4(key, 2, f);
    DecPair4(key, 0, f)
  }

  lemma EncRound4IsFour(key: Key, n: nat, f: Four)
    requires IsKey(key) && n < 16
    ensures EncRound4(key, n, f) ==
            Four(EncRound(key, n, f.q0), EncRound(key, n, f.q1), EncRound(key, n, f.q2), EncRound(key, n, f.q3))
  {
  }

  lemma DecRound4IsFour(key: Key, n: nat, f: Four)
    requires IsKey(key) && n < 16
    ensures DecRound4(key, n, f) ==
            Four(DecRound(key, n, f.q0), DecRound(key, n, f.q1), DecRound(key, n, f.q2), DecRound(key, n, f.q3))
  {
  }

  lemma EncPair4IsFour(key: Key, n: nat, f: Four)
    requires IsKey(key) && n + 1 < 16
    ensures EncPair4(key, n, f) ==
            Four(EncPair(key, n, f.q0), EncPair(key, n, f.q1), EncPair(key, n, f.q2), EncPair(key, n, f.q3))
  {
    EncRound4IsFour(key, n, f);
    EncRound4IsFour(key, n + 1, Roles4(EncRound4(key, n, f)));
  }

  lemma DecPair4IsFour(key: Key, n: nat, f: Four)
    requires IsKey(key) && n + 1 < 16
    ensures DecPair4(key, n, f) ==
            Four(DecPair(key, n, f.q0), DecPair(key, n, f.q1), DecPair(key, n, f.q2), DecPair(key, n, f.q3))
  {
    DecRound4IsFour(key, n + 1, Roles4(f));
    DecRound4IsFour(key, n, Roles4(DecRound4(key, n + 1, Roles4(f))));
  }

  /** Four interleaved copies of the sixteen rounds are four independent blocks. */
  lemma EncRounds4IsFour(key: Key, f: Four)
    requires IsKey(key)
    ensures EncRounds4(key, f) ==
            Four(EncRounds(key, f.q0), EncRounds(key, f.q1), EncRounds(key, f.q2), EncRounds(key, f.q3))
  {
    var f1 := EncPair4(key, 0, f);
    var f2 := EncPair4(key, 2, f1);
    var f3 := EncPair4(key, 4, f2);
    var f4 := EncPair4(key, 6, f3);
    var f5 := EncPair4(key, 8, f4);
    var f6 := EncPair4(key, 10, f5);
    EncPair4IsFour(key, 0, f);
    EncPair4IsFour(key, 2, f1);
    EncPair4IsFour(key, 4, f2);
    EncPair4IsFour(key, 6, f3);
    EncPair4IsFour(key, 8, f4);
    EncPair4IsFour(key, 10, f5);
    EncPair4IsFour(key, 12, f6);
    EncPair4IsFour(key, 14, EncPair4(key, 12, f6));
  }

  lemma DecRounds4IsFour(key: Key, f: Four)
    requires IsKey(key)
    ensures DecRounds4(key, f) ==
            Four(DecRounds(key, f.q0), DecRounds(key, f.q1), DecRounds(key, f.q2), DecRounds(key, f.q3))
  {
    var f1 := DecPair4(key, 14, f);
    var f2 := DecPair4(key, 12, f1);
    var f3 := DecPair4(key, 10, f2);
    var f4 := DecPair4(key, 8, f3);
    var f5 := DecPair4(key, 6, f4);
    var f6 := DecPair4(key, 4, f5);
    DecPair4IsFour(key, 14, f);
    DecPair4IsFour(key, 12, f1);
    DecPair4IsFour(key, 10, f2);
    DecPair4IsFour(key, 8, f3);
    DecPair4IsFour(key, 6, f4);
    DecPair4IsFour(key, 4, f5);
    DecPair4IsFour(key, 2, f6);
    DecPair4IsFour(key, 0, DecPair4(key, 2, f6));
  }
}
