/** The AES rounds on several blocks at once, as the AES-NI and the ARM64 loops inline them. */
module AesLanes {
  import opened AesRounds
  import opened Xts

  /** ROUND8(op, r) and XOR8_RK0. */
  function Round8<S>(op: (S, S) -> S, k: S, e: Eight<S>): Eight<S> {
    Eight(op(e.x0, k), op(e.x1, k), op(e.x2, k), op(e.x3, k), op(e.x4, k), op(e.x5, k), op(e.x6, k), op(e.x7, k))
  }

  /** AES8(op, oplast). */
  function Aes8<S>(xor: (S, S) -> S, op: (S, S) -> S, last: (S, S) -> S, k: seq<S>, e: Eight<S>): Eight<S>
    requires |k| == 15
  {
    var e := Round8(xor, k[0], e);
    var e := Round8(op, k[1], e);
    var e := Round8(op, k[2], e);
    var e := Round8(op, k[3], e);
    var e := Round8(op, k[4], e);
    var e := Round8(op, k[5], e);
    var e := Round8(op, k[6], e);
    var e := Round8(op, k[7], e);
    var e := Round8(op, k[8], e);
    var e := Round8(op, k[9], e);
    var e := Round8(op, k[10], e);
    var e := Round8(op, k[11], e);
    var e := Round8(op, k[12], e);
    var e := Round8(op, k[13], e);
    Round8(last, k[14], e)
  }

  lemma Aes8IsEight<S>(xor: (S, S) -> S, op: (S, S) -> S, last: (S, S) -> S, k: seq<S>, e: Eight<S>)
    requires |k| == 15
    ensures Aes8(xor, op, last, k, e) == Map8(x => RunNi(xor, op, last, k, x), e)
  {
  }

  /** AES_ENC_ROUND and AES_DEC_ROUND: both steps of a round on one block after the other. */
  function Round4<S>(es: (S, S) -> S, mc: S -> S, k: S, e: Four<S>): Four<S> {
    Four(mc(es(e.x0, k)), mc(es(e.x1, k)), mc(es(e.x2, k)), mc(es(e.x3, k)))
  }

  /** The rounds inlined in xts_aes_ce_encrypt and xts_aes_ce_decrypt. */
  function Aes4<S>(xor: (S, S) -> S, es: (S, S) -> S, mc: S -> S, k: seq<S>, e: Four<S>): Four<S>
    requires |k| == 15
  {
    var e := Round4(es, mc, k[0], e);
    var e := Round4(es, mc, k[1], e);
    var e := Round4(es, mc, k[2], e);
    var e := Round4(es, mc, k[3], e);
    var e := Round4(es, mc, k[4], e);
    var e := Round4(es, mc, k[5], e);
    var e := Round4(es, mc, k[6], e);
    var e := Round4(es, mc, k[7], e);
    var e := Round4(es, mc, k[8], e);
    var e := Round4(es, mc, k[9], e);
    var e := Round4(es, mc, k[10], e);
    var e := Round4(es, mc, k[11], e);
    var e := Round4(es, mc, k[12], e);
    var e := Four(es(e.x0, k[13]), es(e.x1, k[13]), es(e.x2, k[13]), es(e.x3, k[13]));
    Four(xor(e.x0, k[14]), xor(e.x1, k[14]), xor(e.x2, k[14]), xor(e.x3, k[14]))
  }

  function Encrypt4<S>(o: Core<S>, k: seq<S>, e: Four<S>): Four<S>
    requires |k| == 15
  {
    Aes4(o.xor, (a, b) => AesE(o, a, b), o.mix, k, e)
  }

  function Decrypt4<S>(o: Core<S>, k: seq<S>, e: Four<S>): Four<S>
    requires |k| == 15
  {
    Aes4(o.xor, (a, b) => AesD(o, a, b), o.unmix, k, e)
  }

  function Encrypt8<S>(o: Core<S>, k: seq<S>, e: Eight<S>): Eight<S>
    requires |k| == 15
  {
    Aes8(o.xor, (a, b) => AesEnc(o, a, b), (a, b) => AesEncLast(o, a, b), k, e)
  }

  function Decrypt8<S>(o: Core<S>, k: seq<S>, e: Eight<S>): Eight<S>
    requires |k| == 15
  {
    Aes8(o.xor, (a, b) => AesDec(o, a, b), (a, b) => AesDecLast(o, a, b), k, e)
  }

  /** Four inlined copies of the rounds are the single-block routine on each block. */
  lemma Encrypt4IsFour<S>(o: Core<S>, k: seq<S>, e: Four<S>)
    requires |k| == 15
    ensures Encrypt4(o, k, e) == Map4(x => EncryptCe(o, k, x), e)
  {
  }

  lemma Decrypt4IsFour<S>(o: Core<S>, k: seq<S>, e: Four<S>)
    requires |k| == 15
    ensures Decrypt4(o, k, e) == Map4(x => DecryptCe(o, k, x), e)
  {
  }

  /** Eight interleaved copies of the AES-NI rounds are the single-block routine on each block. */
  lemma Encrypt8IsEight<S>(o: Core<S>, k: seq<S>, e: Eight<S>)
    requires |k| == 15
    ensures Encrypt8(o, k, e) == Map8(x => EncryptCe(o, k, x), e)
  {
    Aes8IsEight(o.xor, (a, b) => AesEnc(o, a, b), (a, b) => AesEncLast(o, a, b), k, e);
    NiIsCe(o, k, e.x0);
    NiIsCe(o, k, e.x1);
    NiIsCe(o, k, e.x2);
    NiIsCe(o, k, e.x3);
    NiIsCe(o, k, e.x4);
    NiIsCe(o, k, e.x5);
    NiIsCe(o, k, e.x6);
    NiIsCe(o, k, e.x7);
  }

  lemma Decrypt8IsEight<S>(o: Core<S>, k: seq<S>, e: Eight<S>)
    requires |k| == 15
    ensures Decrypt8(o, k, e) == Map8(x => DecryptCe(o, k, x), e)
  {
    Aes8IsEight(o.xor, (a, b) => AesDec(o, a, b), (a, b) => AesDecLast(o, a, b), k, e);
    NiIsCe(o, k, e.x0);
    NiIsCe(o, k, e.x1);
    NiIsCe(o, k, e.x2);
    NiIsCe(o, k, e.x3);
    NiIsCe(o, k, e.x4);
    NiIsCe(o, k, e.x5);
    NiIsCe(o, k, e.x6);
    NiIsCe(o, k, e.x7);
  }

  // ---- the routines as values ---------------------------------------------------------------------

  function Enc<S>(o: Core<S>, k: seq<S>): S -> S
    requires |k| == 15
  {
    x => EncryptCe(o, k, x)
  }

  function Dec<S>(o: Core<S>, k: seq<S>): S -> S
    requires |k| == 15
  {
    x => DecryptCe(o, k, x)
  }

  function Enc4<S>(o: Core<S>, k: seq<S>): Four<S> -> Four<S>
    requires |k| == 15
  {
    e => Encrypt4(o, k, e)
  }

  function Dec4<S>(o: Core<S>, k: seq<S>): Four<S> -> Four<S>
    requires |k| == 15
  {
    e => Decrypt4(o, k, e)
  }

  function Enc8<S>(o: Core<S>, k: seq<S>): Eight<S> -> Eight<S>
    requires |k| == 15
  {
    e => Encrypt8(o, k, e)
  }

  function Dec8<S>(o: Core<S>, k: seq<S>): Eight<S> -> Eight<S>
    requires |k| == 15
  {
    e => Decrypt8(o, k, e)
  }

  lemma LanesEnc4<S>(o: Core<S>, k: seq<S>, e: Four<S>)
    requires |k| == 15
    ensures Enc4(o, k)(e) == Map4(Enc(o, k), e)
  {
    Encrypt4IsFour(o, k, e);
  }

  lemma LanesDec4<S>(o: Core<S>, k: seq<S>, e: Four<S>)
    requires |k| == 15
    ensures Dec4(o, k)(e) == Map4(Dec(o, k), e)
  {
    Decrypt4IsFour(o, k, e);
  }

  lemma LanesEnc8<S>(o: Core<S>, k: seq<S>, e: Eight<S>)
    requires |k| == 15
    ensures Enc8(o, k)(e) == Map8(Enc(o, k), e)
  {
    Encrypt8IsEight(o, k, e);
  }

  lemma LanesDec8<S>(o: Core<S>, k: seq<S>, e: Eight<S>)
    requires |k| == 15
    ensures Dec8(o, k)(e) == Map8(Dec(o, k), e)
  {
    Decrypt8IsEight(o, k, e);
  }

  lemma EncDec<S(!new)>(o: Core<S>, k: seq<S>, d: seq<S>, x: S)
    requires Lawful(o) && IsInverseSchedule(o, k, d)
    ensures Dec(o, d)(Enc(o, k)(x)) == x
  {
    DecryptCeInverse(o, k, d, x);
  }

  /** aes256_ni_encrypt_block as a value. */
  function EncNi<S>(o: Core<S>, k: seq<S>): S -> S
    requires |k| == 15
  {
    x => EncryptNi(o, k, x)
  }

  lemma EncNiIsEnc<S>(o: Core<S>, k: seq<S>, x: S)
    requires |k| == 15
    ensures EncNi(o, k)(x) == Enc(o, k)(x)
  {
    NiIsCe(o, k, x);
  }
}
