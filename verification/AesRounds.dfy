/**
 The fourteen rounds of AES-256 over an abstract state, in the two groupings the processors offer.

 The ARM64 instructions add the round key first (AESE, AESD) and mix columns separately (AESMC, AESIMC);
 the AES-NI instructions add it last (AESENC, AESENCLAST, AESDEC, AESDECLAST).
 */
module AesRounds {

  /** sub is SubBytes with ShiftRows, unsub their inverses; mix and unmix are (Inv)MixColumns. */
  datatype Core<!S> = Core(xor: (S, S) -> S, sub: S -> S, unsub: S -> S, mix: S -> S, unmix: S -> S)

  ghost predicate Lawful<S(!new)>(o: Core<S>) {
    && (forall a, b :: o.xor(o.xor(a, b), b) == a)
    && (forall a :: o.unsub(o.sub(a)) == a)
    && (forall a :: o.unmix(o.mix(a)) == a)
    && (forall a, b :: o.unmix(o.xor(a, b)) == o.xor(o.unmix(a), o.unmix(b)))
  }

  // ---- ARM64 crypto extensions --------------------------------------------------------------------

  function AesE<S>(o: Core<S>, x: S, k: S): S {
    o.sub(o.xor(x, k))
  }

  function AesD<S>(o: Core<S>, x: S, k: S): S {
    o.unsub(o.xor(x, k))
  }

  /** aes256_arm64_encrypt. */
  function EncryptCe<S>(o: Core<S>, k: seq<S>, x: S): S
    requires |k| == 15
  {
    var b := o.mix(AesE(o, x, k[0]));
    var b := o.mix(AesE(o, b, k[1]));
    var b := o.mix(AesE(o, b, k[2]));
    var b := o.mix(AesE(o, b, k[3]));
    var b := o.mix(AesE(o, b, k[4]));
    var b := o.mix(AesE(o, b, k[5]));
    var b := o.mix(AesE(o, b, k[6]));
    var b := o.mix(AesE(o, b, k[7]));
    var b := o.mix(AesE(o, b, k[8]));
    var b := o.mix(AesE(o, b, k[9]));
    var b := o.mix(AesE(o, b, k[10]));
    var b := o.mix(AesE(o, b, k[11]));
    var b := o.mix(AesE(o, b, k[12]));
    var b := AesE(o, b, k[13]);
    o.xor(b, k[14])
  }

  /** aes256_arm64_decrypt. */
  function DecryptCe<S>(o: Core<S>, k: seq<S>, x: S): S
    requires |k| == 15
  {
    var b := o.unmix(AesD(o, x, k[0]));
    var b := o.unmix(AesD(o, b, k[1]));
    var b := o.unmix(AesD(o, b, k[2]));
    var b := o.unmix(AesD(o, b, k[3]));
    var b := o.unmix(AesD(o, b, k[4]));
    var b := o.unmix(AesD(o, b, k[5]));
    var b := o.unmix(AesD(o, b, k[6]));
    var b := o.unmix(AesD(o, b, k[7]));
    var b := o.unmix(AesD(o, b, k[8]));
    var b := o.unmix(AesD(o, b, k[9]));
    var b := o.unmix(AesD(o, b, k[10]));
    var b := o.unmix(AesD(o, b, k[11]));
    var b := o.unmix(AesD(o, b, k[12]));
    var b := AesD(o, b, k[13]);
    o.xor(b, k[14])
  }

  /** d is the equivalent-inverse schedule of k: the groups reversed, unmixed except for the outer two. */
  ghost predicate IsInverseSchedule<S>(o: Core<S>, k: seq<S>, d: seq<S>) {
    && |k| == 15 && |d| == 15 && d[0] == k[14] && d[14] == k[0]
    && (forall i: nat | 1 <= i < 14 :: d[i] == o.unmix(k[14 - i]))
  }

  /** The encryption state after n full rounds. */
  function StateAfter<S>(o: Core<S>, k: seq<S>, x: S, n: nat): S
    requires |k| == 15 && n <= 13
    decreases n, k
  {
    if n == 0 then x else o.mix(AesE(o, StateAfter(o, k, x, n - 1), k[n - 1]))
  }

  /** One decryption round takes the masked state before round n + 1 to the masked state before round n. */
  lemma UndoRound<S(!new)>(o: Core<S>, k: seq<S>, d: seq<S>, x: S, t: S, n: nat)
    requires Lawful(o) && IsInverseSchedule(o, k, d) && n < 13
    requires t == o.xor(AesE(o, StateAfter(o, k, x, n + 1), k[n + 1]), d[12 - n])
    ensures o.unmix(AesD(o, t, d[12 - n])) == o.xor(AesE(o, StateAfter(o, k, x, n), k[n]), d[13 - n])
  {
    var s := StateAfter(o, k, x, n + 1);
    assert o.xor(t, d[12 - n]) == o.sub(o.xor(s, k[n + 1]));
    assert s == o.mix(AesE(o, StateAfter(o, k, x, n), k[n]));
    assert d[13 - n] == o.unmix(k[14 - (13 - n)]);
  }

  /** The decryption state after n full rounds. */
  function UndoneAfter<S>(o: Core<S>, d: seq<S>, y: S, n: nat): S
    requires |d| == 15 && n <= 13
    decreases n, d
  {
    if n == 0 then y else o.unmix(AesD(o, UndoneAfter(o, d, y, n - 1), d[n - 1]))
  }

  lemma {:induction false} UndoRounds<S(!new)>(o: Core<S>, k: seq<S>, d: seq<S>, x: S, n: nat)
    requires Lawful(o) && IsInverseSchedule(o, k, d) && n <= 13
    ensures var y := o.xor(AesE(o, StateAfter(o, k, x, 13), k[13]), k[14]);
            UndoneAfter(o, d, y, n) == o.xor(AesE(o, StateAfter(o, k, x, 13 - n), k[13 - n]), d[n])
  {
    if n > 0 {
      UndoRounds(o, k, d, x, n - 1);
      var y := o.xor(AesE(o, StateAfter(o, k, x, 13), k[13]), k[14]);
      UndoRound(o, k, d, x, UndoneAfter(o, d, y, n - 1), 13 - n);
    }
  }

  lemma EncryptCeIsLoop<S>(o: Core<S>, k: seq<S>, x: S)
    requires |k| == 15
    ensures EncryptCe(o, k, x) == o.xor(AesE(o, StateAfter(o, k, x, 13), k[13]), k[14])
  {
    assert StateAfter(o, k, x, 1) == o.mix(AesE(o, x, k[0]));
    assert StateAfter(o, k, x, 3) == o.mix(AesE(o, StateAfter(o, k, x, 2), k[2]));
    assert StateAfter(o, k, x, 6) == o.mix(AesE(o, o.mix(AesE(o, StateAfter(o, k, x, 4), k[4])), k[5]));
    assert StateAfter(o, k, x, 9) == o.mix(AesE(o, o.mix(AesE(o, StateAfter(o, k, x, 7), k[7])), k[8]));
    assert StateAfter(o, k, x, 12) == o.mix(AesE(o, o.mix(AesE(o, StateAfter(o, k, x, 10), k[10])), k[11]));
  }

  lemma DecryptCeIsLoop<S>(o: Core<S>, d: seq<S>, y: S)
    requires |d| == 15
    ensures DecryptCe(o, d, y) == o.xor(AesD(o, UndoneAfter(o, d, y, 13), d[13]), d[14])
  {
    assert UndoneAfter(o, d, y, 1) == o.unmix(AesD(o, y, d[0]));
    assert UndoneAfter(o, d, y, 3) == o.unmix(AesD(o, UndoneAfter(o, d, y, 2), d[2]));
    assert UndoneAfter(o, d, y, 6) == o.unmix(AesD(o, o.unmix(AesD(o, UndoneAfter(o, d, y, 4), d[4])), d[5]));
    assert UndoneAfter(o, d, y, 9) == o.unmix(AesD(o, o.unmix(AesD(o, UndoneAfter(o, d, y, 7), d[7])), d[8]));
    assert UndoneAfter(o, d, y, 12) == o.unmix(AesD(o, o.unmix(AesD(o, UndoneAfter(o, d, y, 10), d[10])), d[11]));
  }

  /** The equivalent inverse cipher under the inverse schedule undoes the cipher. */
  lemma DecryptCeInverse<S(!new)>(o: Core<S>, k: seq<S>, d: seq<S>, x: S)
    requires Lawful(o) && IsInverseSchedule(o, k, d)
    ensures DecryptCe(o, d, EncryptCe(o, k, x)) == x
  {
    EncryptCeIsLoop(o, k, x);
    DecryptCeIsLoop(o, d, EncryptCe(o, k, x));
    UndoRounds(o, k, d, x, 13);
  }

  // ---- AES-NI -------------------------------------------------------------------------------------

  function AesEnc<S>(o: Core<S>, x: S, k: S): S {
    o.xor(o.mix(o.sub(x)), k)
  }

  function AesEncLast<S>(o: Core<S>, x: S, k: S): S {
    o.xor(o.sub(x), k)
  }

  function AesDec<S>(o: Core<S>, x: S, k: S): S {
    o.xor(o.unmix(o.unsub(x)), k)
  }

  function AesDecLast<S>(o: Core<S>, x: S, k: S): S {
    o.xor(o.unsub(x), k)
  }

  /** AES8(op, oplast) on one of the eight blocks. */
  function RunNi<S>(xor: (S, S) -> S, op: (S, S) -> S, last: (S, S) -> S, k: seq<S>, x: S): S
    requires |k| == 15
  {
    var x := xor(x, k[0]);
    var x := op(op(op(op(x, k[1]), k[2]), k[3]), k[4]);
    var x := op(op(op(op(x, k[5]), k[6]), k[7]), k[8]);
    var x := op(op(op(op(x, k[9]), k[10]), k[11]), k[12]);
    last(op(x, k[13]), k[14])
  }

  function EncryptNi<S>(o: Core<S>, k: seq<S>, x: S): S
    requires |k| == 15
  {
    RunNi(o.xor, (a, b) => AesEnc(o, a, b), (a, b) => AesEncLast(o, a, b), k, x)
  }

  function DecryptNi<S>(o: Core<S>, k: seq<S>, x: S): S
    requires |k| == 15
  {
    RunNi(o.xor, (a, b) => AesDec(o, a, b), (a, b) => AesDecLast(o, a, b), k, x)
  }

  /** Both groupings of the same rounds are the same cipher. */
  lemma NiIsCe<S>(o: Core<S>, k: seq<S>, x: S)
    requires |k| == 15
    ensures EncryptNi(o, k, x) == EncryptCe(o, k, x)
    ensures DecryptNi(o, k, x) == DecryptCe(o, k, x)
  {
  }
}
