/** HMAC_DRBG (NIST SP 800-90A section 10.1.2): the three entry points, their limits, and every run of them. */
module Drbg {
  import opened Wrappers
  import opened Hashing
  import opened Hmac

  /** A pointer argument with its length. */
  datatype Input = Null | Given(bytes: Bytes)

  const MIN_ENTROPY: nat := 32
  const MAX_INPUT: nat := 0x1_0000_0000
  const MAX_GENERATED: nat := 65536
  const RESEED_INTERVAL: nat := 128

  type Mac = (Bytes, Bytes) -> Bytes

  // ---- the specification --------------------------------------------------------------------------

  datatype State = State(key: Bytes, val: Bytes, counter: nat)

  function BytesOf(i: Input): Bytes {
    if i.Null? then [] else i.bytes
  }

  /** HMAC_DRBG_Update of section 10.1.2.2 on the concatenated seed material. */
  function Updated(mac: Mac, s: State, data: Bytes): State {
    var k := mac(s.key, s.val + [0] + data);
    var v := mac(k, s.val);
    if data == [] then State(k, v, s.counter) else
      var k2 := mac(k, v + [1] + data);
      State(k2, mac(k2, v), s.counter)
  }

  /** V after n output blocks, and the blocks themselves in a row. */
  function ValAfter(mac: Mac, s: State, n: nat): Bytes
    decreases n, s.counter
  {
    if n == 0 then s.val else mac(s.key, ValAfter(mac, s, n - 1))
  }

  function Output(mac: Mac, s: State, n: nat): Bytes
    decreases n, s.counter
  {
    if n == 0 then [] else Output(mac, s, n - 1) + ValAfter(mac, s, n)
  }

  datatype Call =
    | Instantiate(entropy: Input, personal: Input)
    | Reseed(entropy: Input, additional: Input)
    | Generate(additional: Input, len: nat)

  /** The checks of the entry points. */
  predicate Accepted(s: State, c: Call) {
    match c
    case Instantiate(e, p) => e.Given? && MIN_ENTROPY <= |e.bytes| <= MAX_INPUT && |BytesOf(p)| <= MAX_INPUT
    case Reseed(e, a) => e.Given? && MIN_ENTROPY <= |e.bytes| <= MAX_INPUT && |BytesOf(a)| <= MAX_INPUT
    case Generate(a, len) => len <= MAX_GENERATED && |BytesOf(a)| <= MAX_INPUT && s.counter <= RESEED_INTERVAL
  }

  /** Section 10.1.2.2 with its separators written out: the second round only with data. */
  lemma UpdateIs(mac: Mac, s: State, data: Bytes)
    ensures var k := mac(s.key, s.val + [0x00] + data);
            var v := mac(k, s.val);
            var k' := mac(k, v + [0x01] + data);
            Updated(mac, s, data) ==
            if data == [] then State(k, v, s.counter) else State(k', mac(k', v), s.counter)
  {
  }

  /** The limits: 32 bytes of entropy, 2^32 bytes of input, 2^16 bytes of output, 128 calls. */
  lemma LimitsAre(s: State, e: Input, a: Input, len: nat)
    ensures Accepted(s, Instantiate(e, a)) == Accepted(s, Reseed(e, a)) ==
            (e.Given? && 32 <= |e.bytes| <= 0x1_0000_0000 && |BytesOf(a)| <= 0x1_0000_0000)
    ensures Accepted(s, Generate(a, len)) == (len <= 0x1_0000 && |BytesOf(a)| <= 0x1_0000_0000 && s.counter <= 128)
  {
  }

  function Initial(s: State): State {
    State(seq(64, _ => 0), seq(64, _ => 1), s.counter)
  }

  function BeforeOutput(mac: Mac, s: State, additional: Bytes): State {
    if additional == [] then s else Updated(mac, s, additional)
  }

  /** The state after a call; a rejected call changes nothing. */
  function Step(mac: Mac, s: State, c: Call): State {
    if !Accepted(s, c) then s else
      match c
      case Instantiate(e, p) => Updated(mac, Initial(s), e.bytes + BytesOf(p)).(counter := 1)
      case Reseed(e, a) => Updated(mac, s, e.bytes + BytesOf(a)).(counter := 1)
      case Generate(a, len) =>
        var t := BeforeOutput(mac, s, BytesOf(a));
        Updated(mac, t.(val := ValAfter(mac, t, (len + 63) / 64)), BytesOf(a)).(counter := s.counter + 1)
  }

  // ---- every run ----------------------------------------------------------------------------------

  function Run(mac: Mac, s: State, calls: seq<Call>): State {
    if calls == [] then s else Step(mac, Run(mac, s, calls[..|calls| - 1]), calls[|calls| - 1])
  }

  /** Whether some instantiate or reseed of the run was accepted. */
  ghost predicate Seeded(mac: Mac, s: State, calls: seq<Call>) {
    exists i | 0 <= i < |calls| :: !calls[i].Generate? && Accepted(Run(mac, s, calls[..i]), calls[i])
  }

  /** The generate calls that succeeded since the last accepted instantiate or reseed, or since the start. */
  function Since(mac: Mac, s: State, calls: seq<Call>): nat {
    if calls == [] then 0 else
      var before, c := calls[..|calls| - 1], calls[|calls| - 1];
      if !Accepted(Run(mac, s, before), c) then Since(mac, s, before)
      else if c.Generate? then Since(mac, s, before) + 1
      else 0
  }

  lemma StepCounter(mac: Mac, s: State, c: Call)
    ensures Step(mac, s, c).counter
         == if !Accepted(s, c) then s.counter else if c.Generate? then s.counter + 1 else 1
  {
  }

  lemma {:induction false} CounterCounts(mac: Mac, s: State, calls: seq<Call>)
    ensures Seeded(mac, s, calls) ==> Run(mac, s, calls).counter == Since(mac, s, calls) + 1
    ensures !Seeded(mac, s, calls) ==> Run(mac, s, calls).counter == Since(mac, s, calls) + s.counter
  {
    if calls != [] {
      var before, c := calls[..|calls| - 1], calls[|calls| - 1];
      CounterCounts(mac, s, before);
      SeededGrows(mac, s, before, c);
      assert calls == before + [c];
      StepCounter(mac, Run(mac, s, before), c);
    }
  }

  lemma SeededGrows(mac: Mac, s: State, before: seq<Call>, c: Call)
    ensures Seeded(mac, s, before + [c]) <==>
              Seeded(mac, s, before) || (!c.Generate? && Accepted(Run(mac, s, before), c))
  {
    var calls := before + [c];
    forall i | 0 <= i < |before| ensures calls[..i] == before[..i] && calls[i] == before[i] {
    }
    assert calls[..|before|] == before && calls[|before|] == c;
    if Seeded(mac, s, before) {
      var i :| 0 <= i < |before| && !before[i].Generate? && Accepted(Run(mac, s, before[..i]), before[i]);
      assert !calls[i].Generate? && Accepted(Run(mac, s, calls[..i]), calls[i]);
    }
    if Seeded(mac, s, calls) {
      var i :| 0 <= i < |calls| && !calls[i].Generate? && Accepted(Run(mac, s, calls[..i]), calls[i]);
      if i < |before| {
        assert !before[i].Generate? && Accepted(Run(mac, s, before[..i]), before[i]);
      }
    }
    if !c.Generate? && Accepted(Run(mac, s, before), c) {
      assert !calls[|before|].Generate? && Accepted(Run(mac, s, calls[..|before|]), calls[|before|]);
    }
  }

  /** No more than 128 generate calls succeed after any instantiate or reseed, over every run. */
  lemma {:induction false} AtMost128(mac: Mac, s: State, calls: seq<Call>)
    requires Seeded(mac, s, calls) || s.counter >= 1
    ensures Since(mac, s, calls) <= 128
  {
    if calls != [] {
      var before, c := calls[..|calls| - 1], calls[|calls| - 1];
      assert calls == before + [c];
      SeededGrows(mac, s, before, c);
      CounterCounts(mac, s, before);
      if Seeded(mac, s, before) || s.counter >= 1 {
        AtMost128(mac, s, before);
      }
    }
  }

  /** The bound is met: from a fresh seed, 128 requests in a row all succeed and the next one is refused. */
  lemma {:induction false} Exactly128(mac: Mac, s: State, calls: seq<Call>)
    requires s.counter == 1 && |calls| <= 128
    requires forall i | 0 <= i < |calls| :: calls[i] == Generate(Null, 64)
    ensures Since(mac, s, calls) == |calls| && Run(mac, s, calls).counter == |calls| + 1
    ensures |calls| == 128 ==> !Accepted(Run(mac, s, calls), Generate(Null, 64))
  {
    if calls != [] {
      Exactly128(mac, s, calls[..|calls| - 1]);
    }
  }

  // ---- the code -----------------------------------------------------------------------------------

  /** The seed material in its parts; absent parts count for nothing. */
  function Material(parts: seq<Input>): Bytes {
    if parts == [] then [] else Material(parts[..|parts| - 1]) + BytesOf(parts[|parts| - 1])
  }

  ghost predicate Computes<H(!new)>(mac: Mac, alg: Algorithm<H>) {
    && Sized(alg)
    && forall k, t {:trigger Asked((k, t))} | Asked((k, t)) :: mac(k, t) == HmacOf(HashOf(alg), k, t)
  }

  function MacOf<H>(alg: Algorithm<H>): Mac {
    (key: Bytes, text: Bytes) => HmacOf(HashOf(alg), key, text)
  }

  method MacOnce<H(!new)>(alg: Algorithm<H>, key: Bytes, text: Bytes, ghost mac: Mac) returns (out: Bytes)
    requires Computes(mac, alg)
    ensures out == mac(key, text) && |out| == 64
  {
    assert Asked((key, text));
    out := HmacOnce(alg, key, text);
  }

  lemma MaterialGrows(parts: seq<Input>, i: nat)
    requires i < |parts|
    ensures Material(parts[..i + 1]) == Material(parts[..i]) + BytesOf(parts[i])
  {
    assert parts[..i + 1][..i] == parts[..i];
  }

  method FeedOne<H(!new)>(ctx: HmacContext<H>, part: Input)
    requires ctx.Valid()
    modifies ctx.Repr()
    ensures ctx.Valid() && ctx.key == old(ctx.key) && ctx.text == old(ctx.text) + BytesOf(part)
  {
    if part.Given? && |part.bytes| != 0 {
      ctx.Update(part.bytes);
    }
  }

  ghost function Fed(start: Bytes, parts: seq<Input>, i: nat): Bytes
    requires i <= |parts|
    decreases i
  {
    if i == 0 then start else Fed(start, parts, i - 1) + BytesOf(parts[i - 1])
  }

  lemma {:induction false} FedAll(start: Bytes, parts: seq<Input>, i: nat)
    requires i <= |parts|
    ensures Fed(start, parts, i) == start + Material(parts[..i])
  {
    if i > 0 {
      FedAll(start, parts, i - 1);
      MaterialGrows(parts, i - 1);
    }
  }

  method Feed<H(!new)>(ctx: HmacContext<H>, parts: seq<Input>)
    requires ctx.Valid()
    modifies ctx.Repr()
    ensures ctx.Valid() && ctx.key == old(ctx.key) && ctx.text == old(ctx.text) + Material(parts)
  {
    ghost var k, start := ctx.key, ctx.text;
    for i := 0 to |parts|
      invariant ctx.Valid() && ctx.key == k && ctx.text == Fed(start, parts, i)
    {
      FeedOne(ctx, parts[i]);
    }
    FedAll(start, parts, |parts|);
    assert parts[..|parts|] == parts;
  }

  /** The first three and the last line of the round loop: HMAC over V, the round number and the parts. */
  method MacParts<H(!new)>(alg: Algorithm<H>, key: Bytes, val: Bytes, sep: bv8, parts: seq<Input>, ghost mac: Mac)
    returns (out: Bytes)
    requires Computes(mac, alg)
    ensures out == mac(key, val + [sep] + Material(parts)) && |out| == 64
  {
    assert Asked((key, val + [sep] + Material(parts)));
    var ctx := new HmacContext(alg);
    ctx.Init(key);
    ctx.Update(val);
    assert ctx.text == val;
    ctx.Update([sep]);
    Feed(ctx, parts);
    out := ctx.Done();
  }

  method Total(parts: seq<Input>) returns (total: nat)
    ensures total == |Material(parts)|
  {
    total := 0;
    for i := 0 to |parts|
      invariant total == |Material(parts[..i])|
    {
      MaterialGrows(parts, i);
      if parts[i].Given? {
        total := total + |parts[i].bytes|;
      }
    }
    assert parts[..|parts|] == parts;
  }

  /** sha512_hmac_drbg_ctx. */
  class Generator<!H(!new)> {
    const alg: Algorithm<H>
    ghost const mac: Mac
    var key: Bytes
    var val: Bytes
    var reseedCounter: nat

    ghost predicate Valid()
      reads this
    {
      Computes(mac, alg)
    }

    ghost function Value(): State
      reads this
    {
      State(key, val, reseedCounter)
    }

    constructor (alg: Algorithm<H>)
      requires Sized(alg)
      ensures Valid() && this.alg == alg && mac == MacOf(alg)
    {
      this.alg, mac := alg, MacOf(alg);
      key, val, reseedCounter := [], [], 0;
    }

    /** drbg_update. */
    method Update(parts: seq<Input>)
      requires Valid()
      modifies this`key, this`val
      ensures Value() == Updated(mac, old(Value()), Material(parts))
    {
      var total := Total(parts);
      ghost var s, data := Value(), Material(parts);
      ghost var k := mac(s.key, s.val + [0] + data);
      ghost var v := mac(k, s.val);
      var round := 0;
      while round < 2
        invariant 0 <= round <= 2
        invariant round == 0 ==> Value() == s
        invariant round == 1 ==> key == k && val == v && total != 0
        invariant round == 2 ==> total != 0 && key == mac(k, v + [1] + data) && val == mac(key, v)
      {
        key := MacParts(alg, key, val, if round == 0 then 0 else 1, parts, mac);
        val := MacOnce(alg, key, val, mac);
        if total == 0 {
          break;
        }
        round := round + 1;
      }
    }

    /** sha512_hmac_drbg_instantiate. */
    method Instantiate(entropy: Input, personal: Input) returns (ok: bool)
      requires Valid()
      modifies this
      ensures ok == Accepted(old(Value()), Call.Instantiate(entropy, personal))
      ensures Value() == Step(mac, old(Value()), Call.Instantiate(entropy, personal))
    {
      if entropy.Null? || |entropy.bytes| < MIN_ENTROPY || |entropy.bytes| > MAX_INPUT {
        return false;
      }
      if personal.Given? && |personal.bytes| > MAX_INPUT {
        return false;
      }
      key, val := seq(64, _ => 0), seq(64, _ => 1);
      TwoParts(entropy, personal);
      Update([entropy, personal]);
      reseedCounter := 1;
      return true;
    }

    /** sha512_hmac_drbg_reseed. */
    method Reseed(entropy: Input, additional: Input) returns (ok: bool)
      requires Valid()
      modifies this
      ensures ok == Accepted(old(Value()), Call.Reseed(entropy, additional))
      ensures Value() == Step(mac, old(Value()), Call.Reseed(entropy, additional))
    {
      if entropy.Null? || |entropy.bytes| < MIN_ENTROPY || |entropy.bytes| > MAX_INPUT {
        return false;
      }
      if additional.Given? && |additional.bytes| > MAX_INPUT {
        return false;
      }
      TwoParts(entropy, additional);
      Update([entropy, additional]);
      reseedCounter := 1;
      return true;
    }

    /** The output loop of sha512_hmac_drbg_generate. */
    method Produce(output: array<bv8>)
      requires Valid()
      modifies this`val, output
      ensures Value() == old(Value()).(val := ValAfter(mac, old(Value()), (output.Length + 63) / 64))
      ensures output.Length <= |Output(mac, old(Value()), (output.Length + 63) / 64)|
      ensures output[..] == Output(mac, old(Value()), (output.Length + 63) / 64)[..output.Length]
    {
      var p := 0;
      ghost var s, n := Value(), 0;
      while p < output.Length
        invariant Filled(mac, s, output[..], p, n)
        invariant val == ValAfter(mac, s, n)
        decreases output.Length - p
      {
        val := MacOnce(alg, key, val, mac);
        var k := if output.Length - p < 64 then output.Length - p else 64;
        ghost var before := output[..];
        CopyOut(output, p, val, k);
        FilledMore(mac, s, before, output[..], p, n, k);
        p, n := p + k, n + 1;
      }
      FilledAll(mac, s, output[..], n);
    }

    /** sha512_hmac_drbg_generate. */
    method Generate(additional: Input, output: array?<bv8>) returns (ok: bool)
      requires Valid()
      modifies this, output
      ensures output == null ==> !ok && Value() == old(Value())
      ensures output != null ==> ok == Accepted(old(Value()), Call.Generate(additional, output.Length))
      ensures output != null ==> Value() == Step(mac, old(Value()), Call.Generate(additional, output.Length))
      ensures ok ==> Produced(mac, old(Value()), BytesOf(additional), output[..])
      ensures output != null && !ok ==> output[..] == old(output[..])
    {
      if output == null || output.Length > MAX_GENERATED {
        return false;
      }
      if additional.Given? && |additional.bytes| > MAX_INPUT {
        return false;
      }
      if reseedCounter > RESEED_INTERVAL {
        return false;
      }
      OnePart(additional);
      if additional.Given? && |additional.bytes| != 0 {
        Update([additional]);
      }
      Produce(output);
      Update([additional]);
      reseedCounter := reseedCounter + 1;
      return true;
    }
  }

  lemma TwoParts(a: Input, b: Input)
    ensures Material([a, b]) == BytesOf(a) + BytesOf(b)
  {
    assert [a, b][..1] == [a] && [a][..0] == [];
    assert Material([a]) == BytesOf(a);
  }

  lemma OnePart(a: Input)
    ensures Material([a]) == BytesOf(a)
  {
    assert [a][..0] == [];
  }

  method CopyOut(output: array<bv8>, p: nat, v: Bytes, k: nat)
    requires p + k <= output.Length && k <= |v|
    modifies output
    ensures output[..p + k] == old(output[..p]) + v[..k]
  {
    for i := 0 to k
      invariant output[..p + i] == old(output[..p]) + v[..i]
    {
      output[p + i] := v[i];
    }
  }

  /** The bytes handed out are the leftmost ones of the output blocks. */
  ghost predicate Produced(mac: Mac, s: State, additional: Bytes, out: Bytes) {
    var all := Output(mac, BeforeOutput(mac, s, additional), (|out| + 63) / 64);
    |out| <= |all| && out == all[..|out|]
  }

  /** n blocks have been produced; p bytes are filled, whole blocks unless the buffer is full. */
  ghost predicate Filled(mac: Mac, s: State, out: Bytes, p: nat, n: nat) {
    && p <= |out| && |Output(mac, s, n)| == 64 * n && p <= 64 * n
    && (p == 64 * n || (p == |out| && 64 * (n - 1) < p))
    && out[..p] == Output(mac, s, n)[..p]
  }

  lemma FilledMore(mac: Mac, s: State, out: Bytes, out': Bytes, p: nat, n: nat, k: nat)
    requires Filled(mac, s, out, p, n) && p < |out| && |out'| == |out| && |ValAfter(mac, s, n + 1)| == 64
    requires k == if |out| - p < 64 then |out| - p else 64
    requires out'[..p + k] == out[..p] + ValAfter(mac, s, n + 1)[..k]
    ensures Filled(mac, s, out', p + k, n + 1)
  {
    var done, more := Output(mac, s, n), ValAfter(mac, s, n + 1);
    assert p == 64 * n && done[..p] == done;
    assert Output(mac, s, n + 1) == done + more;
    assert (done + more)[..p + k] == done + more[..k];
  }

  lemma FilledAll(mac: Mac, s: State, out: Bytes, n: nat)
    requires Filled(mac, s, out, |out|, n)
    ensures n == (|out| + 63) / 64 && |out| <= |Output(mac, s, n)| && out == Output(mac, s, n)[..|out|]
  {
    assert out[..|out|] == out;
  }
}
