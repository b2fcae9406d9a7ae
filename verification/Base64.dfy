/** Base64 (RFC 4648 section 4): encoding, decoding and their sizes.  Characters are their code points. */
module Base64 {
  import opened Wrappers
  import opened DiskAccess

  type Text = seq<int>

  const PAD: int := 61

  /** b64_chars: A to Z, a to z, 0 to 9, plus and slash. */
  function CharOf(i: nat): int
    requires i < 64
  {
    if i < 26 then 65 + i
    else if i < 52 then 97 + (i - 26)
    else if i < 62 then 48 + (i - 52)
    else if i == 62 then 43 else 47
  }

  /** b64_invs, the table from the plus sign on; minus one where no character of the alphabet stands. */
  function InverseOf(c: int): (x: int)
    requires 43 <= c < 123
    ensures -1 <= x < 64
  {
    if c == 43 then 62
    else if c == 47 then 63
    else if 48 <= c <= 57 then c - 48 + 52
    else if 65 <= c <= 90 then c - 65
    else if 97 <= c <= 122 then c - 97 + 26
    else -1
  }

  predicate IsValidChar(c: int) {
    48 <= c <= 57 || 65 <= c <= 90 || 97 <= c <= 122 || c == 43 || c == 47 || c == PAD
  }

  /** The table inverts the alphabet, which does not contain the padding character. */
  lemma AlphabetInverted(i: nat)
    requires i < 64
    ensures 43 <= CharOf(i) < 123 && CharOf(i) != PAD && IsValidChar(CharOf(i)) && InverseOf(CharOf(i)) == i
  {
  }

  /** And nothing else has a value: the valid characters are the alphabet and the padding. */
  lemma ValidIsAlphabet(c: int)
    ensures IsValidChar(c) <==> c == PAD || (43 <= c < 123 && InverseOf(c) >= 0 && CharOf(InverseOf(c)) == c)
  {
  }

  // ---- the specification --------------------------------------------------------------------------

  function At(s: seq<Byte>, i: nat): int {
    if i < |s| then s[i] else 0
  }

  /** The 24 bits of the first group. */
  function Group(s: seq<Byte>): nat {
    65536 * At(s, 0) + 256 * At(s, 1) + At(s, 2)
  }

  function Quad(s: seq<Byte>): (q: Text)
    requires s != []
    ensures |q| == 4
  {
    var v := Group(s);
    [CharOf(v / 262144 % 64), CharOf(v / 4096 % 64),
     if |s| > 1 then CharOf(v / 64 % 64) else PAD, if |s| > 2 then CharOf(v % 64) else PAD]
  }

  function Rest(s: seq<Byte>): seq<Byte> {
    if |s| <= 3 then [] else s[3..]
  }

  /** Three bytes at a time through quad, and four characters at a time through bytes. */
  function InQuads(quad: seq<Byte> -> Text, s: seq<Byte>): Text
    decreases |s|
  {
    if s == [] then [] else quad(s) + InQuads(quad, Rest(s))
  }

  function FromQuads(bytes: Text -> seq<Byte>, t: Text): seq<Byte> {
    if |t| < 4 then [] else bytes(t[..4]) + FromQuads(bytes, t[4..])
  }

  function QuadOf(s: seq<Byte>): Text {
    if s == [] then [] else Quad(s)
  }

  function Encoded(s: seq<Byte>): Text {
    InQuads(QuadOf, s)
  }

  /** v << 6 | x for the table value x. */
  function Shifted(v: int, x: int): int {
    if x < 0 then -1 else 64 * v + x
  }

  function Value(t: Text): int
    requires |t| >= 4 && forall i | 0 <= i < 4 :: 43 <= t[i] < 123
  {
    var v := Shifted(InverseOf(t[0]), InverseOf(t[1]));
    var v := if t[2] == PAD then 64 * v else Shifted(v, InverseOf(t[2]));
    if t[3] == PAD then 64 * v else Shifted(v, InverseOf(t[3]))
  }

  predicate InRange(t: Text) {
    forall i | 0 <= i < |t| :: 43 <= t[i] < 123
  }

  function FirstBytes(t: Text): seq<Byte>
    requires |t| == 4 && InRange(t)
  {
    var v := Value(t);
    [v / 65536 % 256] + (if t[2] != PAD then [v / 256 % 256] else []) + (if t[3] != PAD then [v % 256] else [])
  }

  function BytesOf(t: Text): seq<Byte> {
    if |t| == 4 && InRange(t) then FirstBytes(t) else []
  }

  function Decoded(t: Text): seq<Byte> {
    FromQuads(BytesOf, t)
  }

  // ---- the round trip -----------------------------------------------------------------------------

  lemma Digits(v: nat)
    requires v < 16777216
    ensures 64 * (64 * (64 * (v / 262144 % 64) + v / 4096 % 64) + v / 64 % 64) + v % 64 == v
  {
  }

  lemma BytesOfGroup(a: int, b: int, c: int)
    requires 0 <= a < 256 && 0 <= b < 256 && 0 <= c < 256
    ensures var v := 65536 * a + 256 * b + c;
            0 <= v < 16777216 && v / 65536 % 256 == a && v / 256 % 256 == b && v % 256 == c
  {
  }

  lemma LowZeros(a: int, b: int)
    requires 0 <= a < 256 && 0 <= b < 256
    ensures (65536 * a) / 64 % 64 == 0 && (65536 * a) % 64 == 0 && (65536 * a + 256 * b) % 64 == 0
  {
  }

  /** What four characters with given alphabet indices stand for. */
  lemma ValueOfChars(t: Text, a: nat, b: nat, c: nat, d: nat)
    requires a < 64 && b < 64 && c < 64 && d < 64 && |t| >= 4
    requires t[0] == CharOf(a) && t[1] == CharOf(b)
    requires (t[2] == CharOf(c) && t[2] != PAD) || (t[2] == PAD && c == 0)
    requires (t[3] == CharOf(d) && t[3] != PAD) || (t[3] == PAD && d == 0)
    ensures (forall i | 0 <= i < 4 :: 43 <= t[i] < 123) && Value(t) == 64 * (64 * (64 * a + b) + c) + d
  {
    AlphabetInverted(a);
    AlphabetInverted(b);
    AlphabetInverted(c);
    AlphabetInverted(d);
  }

  lemma QuadValue(s: seq<Byte>)
    requires s != []
    ensures InRange(Quad(s)) && Value(Quad(s)) == Group(s)
    ensures (Quad(s)[2] != PAD <==> |s| > 1) && (Quad(s)[3] != PAD <==> |s| > 2)
  {
    var v := Group(s);
    BytesOfGroup(At(s, 0), At(s, 1), At(s, 2));
    LowZeros(At(s, 0), At(s, 1));
    Digits(v);
    AlphabetInverted(v / 64 % 64);
    AlphabetInverted(v % 64);
    ValueOfChars(Quad(s), v / 262144 % 64, v / 4096 % 64, v / 64 % 64, v % 64);
  }

  /** A group comes back from its four characters, with one, two or three bytes. */
  lemma QuadBack(s: seq<Byte>)
    requires s != []
    ensures InRange(Quad(s)) && FirstBytes(Quad(s)) == s[..|s| - |Rest(s)|]
  {
    QuadValue(s);
    BytesOfGroup(At(s, 0), At(s, 1), At(s, 2));
  }

  /** What a group of bytes must do to come back from its quad. */
  ghost predicate Inverts(quad: seq<Byte> -> Text, bytes: Text -> seq<Byte>) {
    forall s | s != [] :: |quad(s)| == 4 && bytes(quad(s)) == s[..|s| - |Rest(s)|]
  }

  lemma {:induction false} QuadsBack(quad: seq<Byte> -> Text, bytes: Text -> seq<Byte>, s: seq<Byte>)
    requires Inverts(quad, bytes)
    ensures FromQuads(bytes, InQuads(quad, s)) == s
    decreases |s|
  {
    if s != [] {
      var q, rest := quad(s), Rest(s);
      var t := InQuads(quad, rest);
      QuadsBack(quad, bytes, rest);
      assert (q + t)[..4] == q && (q + t)[4..] == t;
      assert s == s[..|s| - |rest|] + rest;
    }
  }

  lemma QuadsInvert()
    ensures Inverts(QuadOf, BytesOf)
  {
    forall s: seq<Byte> | s != [] ensures |QuadOf(s)| == 4 && BytesOf(QuadOf(s)) == s[..|s| - |Rest(s)|] {
      QuadBack(s);
    }
  }

  /** Decoding gives every byte string back. */
  lemma RoundTrip(s: seq<Byte>)
    ensures Decoded(Encoded(s)) == s
  {
    QuadsInvert();
    QuadsBack(QuadOf, BytesOf, s);
  }

  // ---- the sizes ----------------------------------------------------------------------------------

  /** b64_encoded_size. */
  function EncodedSize(n: nat): nat {
    var padded := if n % 3 != 0 then n + (3 - n % 3) else n;
    padded / 3 * 4
  }

  lemma {:induction false} EncodedLength(quad: seq<Byte> -> Text, s: seq<Byte>)
    requires forall x: seq<Byte> | x != [] :: |quad(x)| == 4
    ensures |InQuads(quad, s)| == EncodedSize(|s|)
    decreases |s|
  {
    if s != [] {
      EncodedLength(quad, Rest(s));
      SizeStep(|s|);
    }
  }

  lemma SizeStep(n: nat)
    requires n > 0
    ensures EncodedSize(n) == 4 + EncodedSize(if n <= 3 then 0 else n - 3)
  {
  }

  /** The encoder fills exactly the space b64_encoded_size asks for. */
  lemma EncodedFits(s: seq<Byte>)
    ensures |Encoded(s)| == EncodedSize(|s|)
  {
    forall x: seq<Byte> | x != [] ensures |QuadOf(x)| == 4 {
    }
    EncodedLength(QuadOf, s);
  }

  function TrailingPads(t: Text): nat {
    if t == [] || t[|t| - 1] != PAD then 0 else 1 + TrailingPads(t[..|t| - 1])
  }

  /** b64_decoded_size, before the subtraction wraps around. */
  function DecodedSize(t: Text): int {
    |t| / 4 * 3 - TrailingPads(t)
  }

  method CountDecoded(t: Text) returns (n: int)
    ensures n == DecodedSize(t)
  {
    n := |t| / 4 * 3;
    var i := |t|;
    assert t[..i] == t;
    while i > 0
      invariant 0 <= i <= |t| && n == |t| / 4 * 3 - TrailingPads(t) + TrailingPads(t[..i])
    {
      i := i - 1;
      assert t[..i + 1][..i] == t[..i];
      if t[i] != PAD {
        break;
      }
      n := n - 1;
    }
  }

  lemma {:induction false} PadsOfConcat(a: Text, b: Text)
    requires TrailingPads(b) < |b|
    ensures TrailingPads(a + b) == TrailingPads(b)
  {
    if b[|b| - 1] == PAD {
      assert (a + b)[..|a + b| - 1] == a + b[..|b| - 1];
      PadsOfConcat(a, b[..|b| - 1]);
    }
  }

  lemma PadsOfQuad(q: Text, n: nat)
    requires |q| == 4 && 1 <= n <= 3 && q[1] != PAD && (q[2] != PAD <==> n > 1) && (q[3] != PAD <==> n > 2)
    ensures TrailingPads(q) == 3 - n
  {
    assert q[..3][..2] == q[..2];
    assert TrailingPads(q[..2]) == 0;
    assert TrailingPads(q[..3]) == if n > 1 then 0 else 1;
  }

  /** The quads of a string: padded as its length asks, and never in the first two places. */
  ghost predicate PadsRightly(quad: seq<Byte> -> Text) {
    forall s: seq<Byte> | s != [] ::
      && |quad(s)| == 4 && quad(s)[1] != PAD
      && (quad(s)[2] != PAD <==> |s| > 1) && (quad(s)[3] != PAD <==> |s| > 2)
  }

  lemma QuadsPadRightly()
    ensures PadsRightly(QuadOf)
  {
    forall s: seq<Byte> | s != []
      ensures |QuadOf(s)| == 4 && QuadOf(s)[1] != PAD
      ensures (QuadOf(s)[2] != PAD <==> |s| > 1) && (QuadOf(s)[3] != PAD <==> |s| > 2)
    {
      QuadValue(s);
      AlphabetInverted(Group(s) / 4096 % 64);
    }
  }

  lemma {:induction false} PadsOfText(quad: seq<Byte> -> Text, s: seq<Byte>, q: nat, r: nat)
    requires PadsRightly(quad) && |s| == 3 * q + r && 1 <= r <= 3
    ensures TrailingPads(InQuads(quad, s)) == 3 - r && |InQuads(quad, s)| == 4 * q + 4
    decreases q
  {
    if q == 0 {
      PadsOfQuad(quad(s), r);
      assert Rest(s) == [] && quad(s) + [] == quad(s);
    } else {
      PadsOfText(quad, Rest(s), q - 1, r);
      PadsOfConcat(quad(s), InQuads(quad, Rest(s)));
    }
  }

  lemma SizeBack(quad: seq<Byte> -> Text, s: seq<Byte>)
    requires PadsRightly(quad)
    ensures DecodedSize(InQuads(quad, s)) == |s|
  {
    if s != [] {
      var q, r := InThrees(|s|);
      PadsOfText(quad, s, q, r);
      SizeOf(InQuads(quad, s), q, 3 - r);
    } else {
      assert InQuads(quad, s) == [];
    }
  }

  lemma InThrees(n: nat) returns (q: nat, r: nat)
    requires n > 0
    ensures n == 3 * q + r && 1 <= r <= 3
  {
    q, r := (n - 1) / 3, (n - 1) % 3 + 1;
  }

  lemma SizeOf(t: Text, q: nat, p: nat)
    requires |t| == 4 * q + 4 && TrailingPads(t) == p
    ensures DecodedSize(t) == 3 * q + 3 - p
  {
    assert |t| / 4 == q + 1;
  }

  /** The decoded size of an encoded string is the length of the string. */
  lemma DecodedSizeBack(s: seq<Byte>)
    ensures DecodedSize(Encoded(s)) == |s|
  {
    QuadsPadRightly();
    SizeBack(QuadOf, s);
  }

  // ---- the code -----------------------------------------------------------------------------------

  /** The body of the loop of b64_encode. */
  method EncodeGroup(input: seq<Byte>, i: nat) returns (q: Text)
    requires i < |input|
    ensures q == Quad(input[i..])
  {
    var v: int := input[i];
    v := if i + 1 < |input| then 256 * v + input[i + 1] else 256 * v;
    v := if i + 2 < |input| then 256 * v + input[i + 2] else 256 * v;
    assert v == Group(input[i..]);
    q := [CharOf(v / 262144 % 64), CharOf(v / 4096 % 64),
          if i + 1 < |input| then CharOf(v / 64 % 64) else PAD, if i + 2 < |input| then CharOf(v % 64) else PAD];
  }

  method StoreQuad(out: array<int>, j: nat, q: Text)
    requires j + 4 <= out.Length && |q| == 4
    modifies out
    ensures out[..j + 4] == old(out[..j]) + q
  {
    out[j] := q[0];
    out[j + 1] := q[1];
    out[j + 2] := q[2];
    out[j + 3] := q[3];
  }

  /** What is still to be written when the loop has come to byte i. */
  lemma {:induction false} StillToCome(quad: seq<Byte> -> Text, s: seq<Byte>, i: nat)
    requires i < |s|
    ensures InQuads(quad, s[i..]) == quad(s[i..]) + InQuads(quad, s[if i + 3 < |s| then i + 3 else |s|..])
  {
    assert Rest(s[i..]) == s[if i + 3 < |s| then i + 3 else |s|..];
  }

  /** b64_encode; only an empty input is refused. */
  method Encode(input: seq<Byte>, out: array<int>) returns (r: bool)
    requires EncodedSize(|input|) <= out.Length
    modifies out
    ensures r <==> input != []
    ensures |Encoded(input)| == EncodedSize(|input|) && out[..EncodedSize(|input|)] == Encoded(input)
  {
    EncodedFits(input);
    if input == [] {
      return false;
    }
    EncodeLoop(QuadOf, input, out);
    return true;
  }

  function Least(i: nat, n: nat): nat {
    if i < n then i else n
  }

  /** The first j characters are written when the loop has come to byte i. */
  ghost predicate EncodedUpTo(quad: seq<Byte> -> Text, s: seq<Byte>, i: nat, j: nat, out: Text) {
    j <= |out| && InQuads(quad, s) == out[..j] + InQuads(quad, s[Least(i, |s|)..])
  }

  lemma EncodeStep(quad: seq<Byte> -> Text, s: seq<Byte>, i: nat, j: nat, out: Text, out': Text, q: Text)
    requires i < |s| && EncodedUpTo(quad, s, i, j, out) && q == quad(s[i..])
    requires j + |q| <= |out'| && out'[..j + |q|] == out[..j] + q
    ensures EncodedUpTo(quad, s, i + 3, j + |q|, out')
  {
    StillToCome(quad, s, i);
    var rest := InQuads(quad, s[Least(i + 3, |s|)..]);
    Associates(out[..j], q, rest);
  }

  lemma Associates(a: Text, b: Text, c: Text)
    ensures a + (b + c) == (a + b) + c
  {
  }

  method EncodeLoop(ghost quad: seq<Byte> -> Text, input: seq<Byte>, out: array<int>)
    requires forall s: seq<Byte> | s != [] :: |quad(s)| == 4 && quad(s) == QuadOf(s)
    requires |InQuads(quad, input)| <= out.Length
    modifies out
    ensures out[..|InQuads(quad, input)|] == InQuads(quad, input)
  {
    var i, j := 0, 0;
    assert input[0..] == input;
    while i < |input|
      invariant 0 <= i && 0 <= j && EncodedUpTo(quad, input, i, j, out[..])
    {
      j := EncodeOne(quad, input, i, j, out);
      i := i + 3;
    }
    assert input[|input|..] == [];
  }

  /** One pass of the encoding loop. */
  method EncodeOne(ghost quad: seq<Byte> -> Text, input: seq<Byte>, i: nat, j: nat, out: array<int>) returns (j': nat)
    requires forall s: seq<Byte> | s != [] :: |quad(s)| == 4 && quad(s) == QuadOf(s)
    requires i < |input| && |InQuads(quad, input)| <= out.Length && EncodedUpTo(quad, input, i, j, out[..])
    modifies out
    ensures EncodedUpTo(quad, input, i + 3, j', out[..])
  {
    ghost var before := out[..];
    var q := EncodeGroup(input, i);
    StillToCome(quad, input, i);
    assert before[..j] == out[..j] && q == quad(input[i..]);
    StoreQuad(out, j, q);
    assert out[..][..j + 4] == out[..j + 4];
    EncodeStep(quad, input, i, j, before, out[..], q);
    return j + 4;
  }

  /** Padding in the last two places only, as the encoder leaves it. */
  predicate WellPadded(t: Text) {
    && |t| % 4 == 0 && (forall i | 0 <= i < |t| - 2 :: t[i] != PAD)
    && (|t| > 0 && t[|t| - 2] == PAD ==> t[|t| - 1] == PAD)
  }

  /** Quad k of a text. */
  function QuadAt(t: Text, k: nat): (q: Text)
    requires 4 * k + 4 <= |t|
    ensures |q| == 4
  {
    t[4 * k..4 * k + 4]
  }

  /** What the decoding loop writes for quad q at offset j lies in a buffer of n bytes. */
  predicate QuadFits(q: Text, j: nat, n: nat)
    requires |q| == 4
  {
    j < n && (q[2] != PAD ==> j + 1 < n) && (q[3] != PAD ==> j + 2 < n)
  }

  /** Every write of the decoding loop does. */
  ghost predicate Fits(t: Text, n: nat) {
    forall k: nat | 4 * k + 4 <= |t| :: QuadFits(QuadAt(t, k), 3 * k, n)
  }

  /** The extent of the writes: one more than the highest index written. */
  function Extent(t: Text): nat
    requires |t| % 4 == 0
  {
    if t == [] then 0
    else |t| / 4 * 3 - if t[|t| - 1] != PAD then 0 else if t[|t| - 2] != PAD then 1 else 2
  }

  lemma FitsIff(t: Text, n: nat)
    requires |t| % 4 == 0
    ensures Fits(t, n) <==> Extent(t) <= n
  {
    if t != [] {
      var m := |t| / 4;
      assert |t| == 4 * m;
      var last := QuadAt(t, m - 1);
      assert last[2] == t[|t| - 2] && last[3] == t[|t| - 1];
      if Extent(t) <= n {
        forall k: nat | 4 * k + 4 <= |t| ensures QuadFits(QuadAt(t, k), 3 * k, n) {
          if k < m - 1 {
            assert 3 * k + 2 < 3 * (m - 1);
          }
        }
      }
    }
  }

  /** Up to two trailing pads the size is the extent; with three or more it falls short. */
  lemma ExtentAndSize(t: Text)
    requires |t| % 4 == 0
    ensures TrailingPads(t) <= 2 ==> Extent(t) == DecodedSize(t)
    ensures TrailingPads(t) > 2 ==> DecodedSize(t) < Extent(t)
  {
    if t != [] {
      var n := |t|;
      assert t[..n - 1][..n - 2] == t[..n - 2];
      assert TrailingPads(t) == if t[n - 1] != PAD then 0 else 1 + TrailingPads(t[..n - 1]);
      assert TrailingPads(t[..n - 1]) == if t[n - 2] != PAD then 0 else 1 + TrailingPads(t[..n - 2]);
    }
  }

  predicate IsValid(t: Text) {
    |t| % 4 == 0 && forall i | 0 <= i < |t| :: IsValidChar(t[i])
  }

  /** The tests of b64_decode; a size below zero wraps around to more than any buffer holds. */
  ghost predicate Accepts(t: Text, n: nat) {
    0 <= DecodedSize(t) <= n && IsValid(t)
  }

  /**
   The tests of b64_decode bound the writes of its loop exactly for texts with at most two trailing pads and for texts
   that no buffer is accepted for: invalid ones, and those whose size wraps around.
   */
  lemma SizeCheckBounds(t: Text)
    ensures (forall n: nat | Accepts(t, n) :: Fits(t, n)) <==>
              TrailingPads(t) <= 2 || !IsValid(t) || DecodedSize(t) < 0
  {
    if IsValid(t) && DecodedSize(t) >= 0 {
      ExtentAndSize(t);
      forall n: nat ensures Fits(t, n) <==> Extent(t) <= n {
        FitsIff(t, n);
      }
      assert Accepts(t, DecodedSize(t));
    }
  }

  /** Padding alone, whose size wraps around: it is refused for every buffer. */
  lemma AllPads()
    ensures var t := [PAD, PAD, PAD, PAD]; IsValid(t) && DecodedSize(t) == -1 && forall n: nat :: !Accepts(t, n)
  {
    PadsOfFour(PAD, PAD, PAD, PAD);
  }

  lemma PadsPush(s: Text, c: int)
    ensures TrailingPads(s + [c]) == if c != PAD then 0 else 1 + TrailingPads(s)
  {
    assert (s + [c])[..|s|] == s;
  }

  lemma PadsOfFour(a: int, b: int, c: int, d: int)
    ensures TrailingPads([a, b, c, d]) ==
            if d != PAD then 0 else if c != PAD then 1 else if b != PAD then 2 else if a != PAD then 3 else 4
  {
    assert [a, b, c, d] == [] + [a] + [b] + [c] + [d];
    PadsPush([], a);
    PadsPush([] + [a], b);
    PadsPush([] + [a] + [b], c);
    PadsPush([] + [a] + [b] + [c], d);
  }

  /** A text that is accepted into an empty buffer and of which the loop writes a byte. */
  lemma OnePastTheEnd()
    ensures var t := [65, PAD, PAD, PAD]; Accepts(t, 0) && !Fits(t, 0) && Fits(t, 1)
  {
    var t := [65, PAD, PAD, PAD];
    PadsOfFour(65, PAD, PAD, PAD);
    FitsIff(t, 0);
    FitsIff(t, 1);
  }

  /** Padding inside the last group alone does no harm: this text fits into what its size asks for. */
  lemma PadInside()
    ensures var t := [65, PAD, 65, PAD]; Accepts(t, 2) && Fits(t, 2) && !WellPadded(t)
  {
    var t := [65, PAD, 65, PAD];
    PadsOfFour(65, PAD, 65, PAD);
    FitsIff(t, 2);
    assert t[1] == PAD;
  }

  /** Section 10 of RFC 4648: "f" is "Zg==", "fo" is "Zm8=" and "foo" is "Zm9v". */
  lemma Vectors()
    ensures Encoded([102]) == [90, 103, 61, 61]
    ensures Encoded([102, 111]) == [90, 109, 56, 61]
    ensures Encoded([102, 111, 111]) == [90, 109, 57, 118]
  {
    Vector1();
    Vector2();
    Vector3();
  }

  lemma Vector1()
    ensures Encoded([102]) == [90, 103, 61, 61]
  {
    OneQuad([102]);
  }

  lemma Vector2()
    ensures Encoded([102, 111]) == [90, 109, 56, 61]
  {
    OneQuad([102, 111]);
  }

  lemma Vector3()
    ensures Encoded([102, 111, 111]) == [90, 109, 57, 118]
  {
    OneQuad([102, 111, 111]);
  }

  lemma OneQuad(s: seq<Byte>)
    requires 0 < |s| <= 3
    ensures Encoded(s) == Quad(s)
  {
    assert Rest(s) == [];
    assert InQuads(QuadOf, []) == [];
  }

  // ---- the decoder --------------------------------------------------------------------------------

  /** The three places of quad q at offset j: written where the quad has characters, as they were elsewhere. */
  ghost predicate QuadWritten(value: Text -> int, q: Text, j: nat, out: seq<Byte>, was: seq<Byte>)
    requires |q| == 4
  {
    && |out| == |was| && j < |out| && out[j] == value(q) / 65536 % 256
    && (j + 1 < |out| ==> out[j + 1] == if q[2] != PAD then value(q) / 256 % 256 else was[j + 1])
    && (j + 2 < |out| ==> out[j + 2] == if q[3] != PAD then value(q) % 256 else was[j + 2])
  }

  /** The writes of one pass of the decoding loop. */
  method StoreBytes(out: array<Byte>, j: nat, q: Text, ghost bytes: Text -> seq<Byte>, ghost value: Text -> int)
    requires |q| == 4 && InRange(q) && QuadFits(q, j, out.Length) && Tables(bytes, value)
    modifies out
    ensures QuadWritten(value, q, j, out[..], old(out[..]))
    ensures forall p | 0 <= p < out.Length && !(j <= p < j + 3) :: out[p] == old(out[p])
    ensures (q[2] == PAD ==> q[3] == PAD) ==>
              j + |bytes(q)| <= out.Length && out[..j + |bytes(q)|] == old(out[..j]) + bytes(q)
  {
    assert Asked(q);
    var v := Value(q);
    out[j] := v / 65536 % 256;
    if q[2] != PAD {
      out[j + 1] := v / 256 % 256;
    }
    if q[3] != PAD {
      out[j + 2] := v % 256;
    }
  }

  method AllValid(t: Text) returns (ok: bool)
    ensures ok <==> forall i | 0 <= i < |t| :: IsValidChar(t[i])
  {
    for i := 0 to |t|
      invariant forall k | 0 <= k < i :: IsValidChar(t[k])
    {
      if !IsValidChar(t[i]) {
        return false;
      }
    }
    return true;
  }

  function ValueOf(q: Text): int {
    if |q| == 4 && InRange(q) then Value(q) else 0
  }

  /** Quads up to number m are written and nothing behind them has changed. */
  ghost predicate WrittenUpTo(value: Text -> int, t: Text, m: nat, out: seq<Byte>, was: seq<Byte>)
    requires 4 * m <= |t|
  {
    && |out| == |was|
    && (forall k: nat | k < m :: QuadWritten(value, QuadAt(t, k), 3 * k, out, was))
    && (forall p | 3 * m <= p < |out| :: out[p] == was[p])
  }

  /** b64_decode, for every text and buffer of which it does not write past the end. */
  method Decode(t: Text, out: array<Byte>) returns (r: bool)
    requires Accepts(t, out.Length) ==> Fits(t, out.Length)
    modifies out
    ensures r <==> Accepts(t, out.Length)
    ensures r ==> WrittenUpTo(ValueOf, t, |t| / 4, out[..], old(out[..]))
    ensures r && WellPadded(t) ==> |Decoded(t)| <= out.Length && out[..|Decoded(t)|] == Decoded(t)
    ensures !r ==> out[..] == old(out[..])
  {
    var size := CountDecoded(t);
    if size < 0 || out.Length < size || |t| % 4 != 0 {
      return false;
    }
    var ok := AllValid(t);
    if !ok {
      return false;
    }
    DecodeLoop(BytesOf, ValueOf, t, out);
    return true;
  }

  /** What an array holds of a decoded text when the loop has come to character i. */
  ghost predicate Progress(bytes: Text -> seq<Byte>, t: Text, out: seq<Byte>, i: nat, j: nat) {
    && i <= |t|
    && if i < |t| then j <= |out| && FromQuads(bytes, t) == out[..j] + FromQuads(bytes, t[i..])
       else |FromQuads(bytes, t)| <= |out| && FromQuads(bytes, t) == out[..|FromQuads(bytes, t)|]
  }

  lemma ProgressStep(bytes: Text -> seq<Byte>, t: Text, out: seq<Byte>, out': seq<Byte>, i: nat, j: nat)
    requires Progress(bytes, t, out, i, j) && i + 4 <= |t| && |out'| == |out|
    requires j + |bytes(t[i..i + 4])| <= |out| && out'[..j + |bytes(t[i..i + 4])|] == out[..j] + bytes(t[i..i + 4])
    requires i + 4 < |t| ==> |bytes(t[i..i + 4])| == 3
    ensures Progress(bytes, t, out', i + 4, j + 3)
  {
    var q := t[i..i + 4];
    assert t[i..][..4] == q && t[i..][4..] == t[i + 4..];
    assert FromQuads(bytes, t) == (out[..j] + bytes(q)) + FromQuads(bytes, t[i + 4..]);
    if i + 4 == |t| {
      assert FromQuads(bytes, t) == out'[..j + |bytes(q)|];
    }
  }

  lemma WrittenStep(value: Text -> int, t: Text, m: nat, out: seq<Byte>, out': seq<Byte>, was: seq<Byte>)
    requires 4 * m + 4 <= |t| && WrittenUpTo(value, t, m, out, was) && |out'| == |out|
    requires QuadWritten(value, QuadAt(t, m), 3 * m, out', out)
    requires forall p | 0 <= p < |out| && !(3 * m <= p < 3 * m + 3) :: out'[p] == out[p]
    ensures WrittenUpTo(value, t, m + 1, out', was)
  {
    forall k: nat | k < m ensures QuadWritten(value, QuadAt(t, k), 3 * k, out', was) {
      assert QuadWritten(value, QuadAt(t, k), 3 * k, out, was);
      assert 3 * k + 2 < 3 * m;
    }
  }

  /** What the loop knows of its two tables. */
  ghost predicate Tables(bytes: Text -> seq<Byte>, value: Text -> int) {
    forall q {:trigger Asked(q)} | Asked(q) :: bytes(q) == BytesOf(q) && value(q) == ValueOf(q)
  }

  /** One pass of the decoding loop. */
  method DecodeQuad(ghost bytes: Text -> seq<Byte>, ghost value: Text -> int, t: Text, out: array<Byte>, m: nat,
                    ghost was: seq<Byte>)
    requires Tables(bytes, value) && InRange(t) && Fits(t, out.Length) && 4 * m + 4 <= |t|
    requires WellPadded(t) ==> Progress(bytes, t, out[..], 4 * m, 3 * m)
    requires WrittenUpTo(value, t, m, out[..], was)
    modifies out
    ensures WellPadded(t) ==> Progress(bytes, t, out[..], 4 * m + 4, 3 * m + 3)
    ensures WrittenUpTo(value, t, m + 1, out[..], was)
  {
    var q := QuadAt(t, m);
    ghost var before := out[..];
    StoreBytes(out, 3 * m, q, bytes, value);
    WrittenStep(value, t, m, before, out[..], was);
    if WellPadded(t) {
      LengthOfQuad(bytes, value, t, m);
      assert out[..][..3 * m + |bytes(q)|] == before[..3 * m] + bytes(q);
      ProgressStep(bytes, t, before, out[..], 4 * m, 3 * m);
    }
  }

  /** Before the end of a well padded text every quad gives three bytes; the last one's padding is in order. */
  lemma LengthOfQuad(bytes: Text -> seq<Byte>, value: Text -> int, t: Text, m: nat)
    requires Tables(bytes, value) && WellPadded(t) && InRange(t) && 4 * m + 4 <= |t|
    ensures var q := QuadAt(t, m);
            (4 * m + 4 < |t| ==> |bytes(q)| == 3) && (q[2] == PAD ==> q[3] == PAD)
  {
    assert Asked(QuadAt(t, m));
  }

  method DecodeLoop(ghost bytes: Text -> seq<Byte>, ghost value: Text -> int, t: Text, out: array<Byte>)
    requires Tables(bytes, value) && |t| % 4 == 0 && InRange(t) && Fits(t, out.Length)
    modifies out
    ensures WrittenUpTo(value, t, |t| / 4, out[..], old(out[..]))
    ensures WellPadded(t) ==> |FromQuads(bytes, t)| <= out.Length
    ensures WellPadded(t) ==> out[..|FromQuads(bytes, t)|] == FromQuads(bytes, t)
  {
    assert t[0..] == t;
    for m := 0 to |t| / 4
      invariant WellPadded(t) ==> Progress(bytes, t, out[..], 4 * m, 3 * m)
      invariant WrittenUpTo(value, t, m, out[..], old(out[..]))
    {
      DecodeQuad(bytes, value, t, out, m, old(out[..]));
    }
    assert WellPadded(t) ==> Progress(bytes, t, out[..], |t|, |t| / 4 * 3);
  }

  // ---- what the encoder writes is accepted --------------------------------------------------------

  ghost predicate GoodQuad(s: seq<Byte>, q: Text) {
    && |q| == 4 && (forall i | 0 <= i < 4 :: IsValidChar(q[i])) && q[0] != PAD && q[1] != PAD
    && (q[2] == PAD ==> q[3] == PAD) && (|s| >= 3 ==> q[2] != PAD && q[3] != PAD)
  }

  lemma QuadIsGood(s: seq<Byte>)
    requires s != []
    ensures GoodQuad(s, QuadOf(s))
  {
    var v := Group(s);
    AlphabetInverted(v / 262144 % 64);
    AlphabetInverted(v / 4096 % 64);
    AlphabetInverted(v / 64 % 64);
    AlphabetInverted(v % 64);
  }

  lemma {:induction false} GoodText(quad: seq<Byte> -> Text, s: seq<Byte>)
    requires forall x | x != [] :: GoodQuad(x, quad(x))
    ensures WellPadded(InQuads(quad, s)) && forall i | 0 <= i < |InQuads(quad, s)| :: IsValidChar(InQuads(quad, s)[i])
    decreases |s|
  {
    if s != [] {
      var q, t := quad(s), InQuads(quad, Rest(s));
      GoodText(quad, Rest(s));
      assert GoodQuad(s, q) && InQuads(quad, s) == q + t;
      if |s| <= 3 {
        assert t == [];
      }
    }
  }

  /** The decoder accepts every encoded string into a buffer of b64_decoded_size, and gives the string back. */
  lemma EncodedAccepted(s: seq<Byte>)
    ensures var t := Encoded(s);
            && WellPadded(t) && (forall i | 0 <= i < |t| :: IsValidChar(t[i]))
            && DecodedSize(t) == |s| && Accepts(t, |s|) && Fits(t, |s|) && Decoded(t) == s
  {
    forall x: seq<Byte> | x != [] ensures GoodQuad(x, QuadOf(x)) {
      QuadIsGood(x);
    }
    GoodText(QuadOf, s);
    DecodedSizeBack(s);
    RoundTrip(s);
    EncodedIsShort(Encoded(s));
  }

  lemma EncodedIsShort(t: Text)
    requires WellPadded(t)
    ensures forall n: nat | DecodedSize(t) <= n :: Fits(t, n)
  {
    if t != [] {
      var n := |t|;
      assert t[..n - 1][..n - 2] == t[..n - 2];
      assert TrailingPads(t[..n - 2]) == 0;
      assert TrailingPads(t[..n - 1]) == if t[n - 2] != PAD then 0 else 1;
    }
    ExtentAndSize(t);
    forall n: nat | DecodedSize(t) <= n ensures Fits(t, n) {
      FitsIff(t, n);
    }
  }
}
