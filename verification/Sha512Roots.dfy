/**
 The constants of SHA-512 (sections 4.2.3 and 5.3.5 of FIPS 180-4): the first 64 bits of the fractional parts of the
 cube roots of the first eighty primes, and of the square roots of the first eight.
 */
module Sha512Roots {
  import opened Division
  import opened Sha512Constants

  // ---- primes -------------------------------------------------------------------------------------

  ghost predicate IsPrime(n: nat) {
    n >= 2 && forall d | 2 <= d < n :: n % d != 0
  }

  /** q is the first prime behind p. */
  ghost predicate NextPrime(p: nat, q: nat) {
    p < q && IsPrime(q) && forall n | p < n < q :: !IsPrime(n)
  }

  function PrimeRow(r: nat): (row: seq<nat>)
    ensures |row| == 8
  {
    match r
    case 0 => [2, 3, 5, 7, 11, 13, 17, 19]
    case 1 => [23, 29, 31, 37, 41, 43, 47, 53]
    case 2 => [59, 61, 67, 71, 73, 79, 83, 89]
    case 3 => [97, 101, 103, 107, 109, 113, 127, 131]
    case 4 => [137, 139, 149, 151, 157, 163, 167, 173]
    case 5 => [179, 181, 191, 193, 197, 199, 211, 223]
    case 6 => [227, 229, 233, 239, 241, 251, 257, 263]
    case 7 => [269, 271, 277, 281, 283, 293, 307, 311]
    case 8 => [313, 317, 331, 337, 347, 349, 353, 359]
    case _ => [367, 373, 379, 383, 389, 397, 401, 409]
  }

  /** The primes in order, counted from zero. */
  function Prime(t: nat): nat {
    PrimeRow(t / 8)[t % 8]
  }

  /** Not divisible by any prime below 23. */
  predicate Sieved(n: nat) {
    n % 2 != 0 && n % 3 != 0 && n % 5 != 0 && n % 7 != 0 && n % 11 != 0 && n % 13 != 0 && n % 17 != 0 && n % 19 != 0
  }

  lemma DividesProduct(s: nat, t: nat, p: nat)
    requires p > 0 && s % p == 0
    ensures (s * t) % p == 0
  {
    var q := s / p;
    assert s * t == p * (q * t);
    MultipleMod(p, q * t);
  }

  lemma SmallFactor(s: nat) returns (p: nat)
    requires 2 <= s < 23
    ensures p in {2, 3, 5, 7, 11, 13, 17, 19} && s % p == 0
  {
    p := if s % 2 == 0 then 2 else if s % 3 == 0 then 3 else if s % 5 == 0 then 5 else s;
  }

  lemma MultipleNotSieved(s: nat, t: nat)
    requires 2 <= s < 23
    ensures !Sieved(s * t)
  {
    var p := SmallFactor(s);
    DividesProduct(s, t, p);
  }

  lemma ProductNotSieved(d: nat, e: nat)
    requires d >= 2 && e >= 2 && d * e < 529
    ensures !Sieved(d * e)
  {
    if d < 23 {
      MultipleNotSieved(d, e);
    } else {
      assert 23 * e <= d * e;
      MultipleNotSieved(e, d);
      assert d * e == e * d;
    }
  }

  /** Below 23 * 23 the sieve leaves primes only. */
  lemma SievedIsPrime(n: nat)
    requires 2 <= n < 529 && Sieved(n)
    ensures IsPrime(n)
  {
    forall d | 2 <= d < n ensures n % d != 0 {
      if n % d == 0 {
        var e := n / d;
        assert n == d * e;
        assert e >= 2;
        ProductNotSieved(d, e);
      }
    }
  }

  lemma NotSieved(n: nat)
    requires n > 19 && !Sieved(n)
    ensures !IsPrime(n)
  {
  }

  /** The sieve leaves none of n, n + 1, ..., q - 1. */
  predicate NoneSieved(n: nat, q: nat)
    decreases q - n
  {
    n >= q || (!Sieved(n) && NoneSieved(n + 1, q))
  }

  lemma {:induction false} NonePrime(n: nat, q: nat)
    requires n > 19 && NoneSieved(n, q)
    ensures forall m | n <= m < q :: !IsPrime(m)
    decreases q - n
  {
    if n < q {
      NotSieved(n);
      NonePrime(n + 1, q);
    }
  }

  lemma Consecutive(p: nat, q: nat)
    requires 19 <= p < q < 529 && Sieved(q) && NoneSieved(p + 1, q)
    ensures NextPrime(p, q)
  {
    SievedIsPrime(q);
    NonePrime(p + 1, q);
  }

  lemma SmallPrimes()
    ensures IsPrime(2) && NextPrime(2, 3) && NextPrime(3, 5) && NextPrime(5, 7) && NextPrime(7, 11) && NextPrime(11, 13)
    ensures NextPrime(13, 17) && NextPrime(17, 19)
  {
    assert 4 % 2 == 0 && 6 % 2 == 0 && 8 % 2 == 0 && 9 % 3 == 0 && 10 % 2 == 0 && 12 % 2 == 0;
    assert 14 % 2 == 0 && 15 % 3 == 0 && 16 % 2 == 0 && 18 % 2 == 0;
  }

  lemma PrimeRow0(j: nat)
    requires 7 <= j < 8 && 0 + j < 79
    ensures NextPrime(Prime(0 + j), Prime(0 + j + 1))
  {
    match j {
      case _ =>
        assert NoneSieved(20, 23);
        Consecutive(19, 23);
    }
  }

  lemma PrimeRow1(j: nat)
    requires 0 <= j < 8 && 8 + j < 79
    ensures NextPrime(Prime(8 + j), Prime(8 + j + 1))
  {
    match j {
      case 0 =>
        assert NoneSieved(24, 29);
        Consecutive(23, 29);
      case 1 =>
        assert NoneSieved(30, 31);
        Consecutive(29, 31);
      case 2 =>
        assert NoneSieved(32, 37);
        Consecutive(31, 37);
      case 3 =>
        assert NoneSieved(38, 41);
        Consecutive(37, 41);
      case 4 =>
        assert NoneSieved(42, 43);
        Consecutive(41, 43);
      case 5 =>
        assert NoneSieved(44, 47);
        Consecutive(43, 47);
      case 6 =>
        assert NoneSieved(48, 53);
        Consecutive(47, 53);
      case _ =>
        assert NoneSieved(54, 59);
        Consecutive(53, 59);
    }
  }

  lemma PrimeRow2(j: nat)
    requires 0 <= j < 8 && 16 + j < 79
    ensures NextPrime(Prime(16 + j), Prime(16 + j + 1))
  {
    match j {
      case 0 =>
        assert NoneSieved(60, 61);
        Consecutive(59, 61);
      case 1 =>
        assert NoneSieved(62, 67);
        Consecutive(61, 67);
      case 2 =>
        assert NoneSieved(68, 71);
        Consecutive(67, 71);
      case 3 =>
        assert NoneSieved(72, 73);
        Consecutive(71, 73);
      case 4 =>
        assert NoneSieved(74, 79);
        Consecutive(73, 79);
      case 5 =>
        assert NoneSieved(80, 83);
        Consecutive(79, 83);
      case 6 =>
        assert NoneSieved(84, 89);
        Consecutive(83, 89);
      case _ =>
        assert NoneSieved(90, 97);
        Consecutive(89, 97);
    }
  }

  lemma PrimeRow3(j: nat)
    requires 0 <= j < 8 && 24 + j < 79
    ensures NextPrime(Prime(24 + j), Prime(24 + j + 1))
  {
    match j {
      case 0 =>
        assert NoneSieved(98, 101);
        Consecutive(97, 101);
      case 1 =>
        assert NoneSieved(102, 103);
        Consecutive(101, 103);
      case 2 =>
        assert NoneSieved(104, 107);
        Consecutive(103, 107);
      case 3 =>
        assert NoneSieved(108, 109);
        Consecutive(107, 109);
      case 4 =>
        assert NoneSieved(110, 113);
        Consecutive(109, 113);
      case 5 =>
        assert NoneSieved(114, 127);
        Consecutive(113, 127);
      case 6 =>
        assert NoneSieved(128, 131);
        Consecutive(127, 131);
      case _ =>
        assert NoneSieved(132, 137);
        Consecutive(131, 137);
    }
  }

  lemma PrimeRow4(j: nat)
    requires 0 <= j < 8 && 32 + j < 79
    ensures NextPrime(Prime(32 + j), Prime(32 + j + 1))
  {
    match j {
      case 0 =>
        assert NoneSieved(138, 139);
        Consecutive(137, 139);
      case 1 =>
        assert NoneSieved(140, 149);
        Consecutive(139, 149);
      case 2 =>
        assert NoneSieved(150, 151);
        Consecutive(149, 151);
      case 3 =>
        assert NoneSieved(152, 157);
        Consecutive(151, 157);
      case 4 =>
        assert NoneSieved(158, 163);
        Consecutive(157, 163);
      case 5 =>
        assert NoneSieved(164, 167);
        Consecutive(163, 167);
      case 6 =>
        assert NoneSieved(168, 173);
        Consecutive(167, 173);
      case _ =>
        assert NoneSieved(174, 179);
        Consecutive(173, 179);
    }
  }

  lemma PrimeRow5(j: nat)
    requires 0 <= j < 8 && 40 + j < 79
    ensures NextPrime(Prime(40 + j), Prime(40 + j + 1))
  {
    match j {
      case 0 =>
        assert NoneSieved(180, 181);
        Consecutive(179, 181);
      case 1 =>
        assert NoneSieved(182, 191);
        Consecutive(181, 191);
      case 2 =>
        assert NoneSieved(192, 193);
        Consecutive(191, 193);
      case 3 =>
        assert NoneSieved(194, 197);
        Consecutive(193, 197);
      case 4 =>
        assert NoneSieved(198, 199);
        Consecutive(197, 199);
      case 5 =>
        assert NoneSieved(200, 211);
        Consecutive(199, 211);
      case 6 =>
        assert NoneSieved(212, 223);
        Consecutive(211, 223);
      case _ =>
        assert NoneSieved(224, 227);
        Consecutive(223, 227);
    }
  }

  lemma PrimeRow6(j: nat)
    requires 0 <= j < 8 && 48 + j < 79
    ensures NextPrime(Prime(48 + j), Prime(48 + j + 1))
  {
    match j {
      case 0 =>
        assert NoneSieved(228, 229);
        Consecutive(227, 229);
      case 1 =>
        assert NoneSieved(230, 233);
        Consecutive(229, 233);
      case 2 =>
        assert NoneSieved(234, 239);
        Consecutive(233, 239);
      case 3 =>
        assert NoneSieved(240, 241);
        Consecutive(239, 241);
      case 4 =>
        assert NoneSieved(242, 251);
        Consecutive(241, 251);
      case 5 =>
        assert NoneSieved(252, 257);
        Consecutive(251, 257);
      case 6 =>
        assert NoneSieved(258, 263);
        Consecutive(257, 263);
      case _ =>
        assert NoneSieved(264, 269);
        Consecutive(263, 269);
    }
  }

  lemma PrimeRow7(j: nat)
    requires 0 <= j < 8 && 56 + j < 79
    ensures NextPrime(Prime(56 + j), Prime(56 + j + 1))
  {
    match j {
      case 0 =>
        assert NoneSieved(270, 271);
        Consecutive(269, 271);
      case 1 =>
        assert NoneSieved(272, 277);
        Consecutive(271, 277);
      case 2 =>
        assert NoneSieved(278, 281);
        Consecutive(277, 281);
      case 3 =>
        assert NoneSieved(282, 283);
        Consecutive(281, 283);
      case 4 =>
        assert NoneSieved(284, 293);
        Consecutive(283, 293);
      case 5 =>
        assert NoneSieved(294, 307);
        Consecutive(293, 307);
      case 6 =>
        assert NoneSieved(308, 311);
        Consecutive(307, 311);
      case _ =>
        assert NoneSieved(312, 313);
        Consecutive(311, 313);
    }
  }

  lemma PrimeRow8(j: nat)
    requires 0 <= j < 8 && 64 + j < 79
    ensures NextPrime(Prime(64 + j), Prime(64 + j + 1))
  {
    match j {
      case 0 =>
        assert NoneSieved(314, 317);
        Consecutive(313, 317);
      case 1 =>
        assert NoneSieved(318, 331);
        Consecutive(317, 331);
      case 2 =>
        assert NoneSieved(332, 337);
        Consecutive(331, 337);
      case 3 =>
        assert NoneSieved(338, 347);
        Consecutive(337, 347);
      case 4 =>
        assert NoneSieved(348, 349);
        Consecutive(347, 349);
      case 5 =>
        assert NoneSieved(350, 353);
        Consecutive(349, 353);
      case 6 =>
        assert NoneSieved(354, 359);
        Consecutive(353, 359);
      case _ =>
        assert NoneSieved(360, 367);
        Consecutive(359, 367);
    }
  }

  lemma PrimeRow9(j: nat)
    requires 0 <= j < 8 && 72 + j < 79
    ensures NextPrime(Prime(72 + j), Prime(72 + j + 1))
  {
    match j {
      case 0 =>
        assert NoneSieved(368, 373);
        Consecutive(367, 373);
      case 1 =>
        assert NoneSieved(374, 379);
        Consecutive(373, 379);
      case 2 =>
        assert NoneSieved(380, 383);
        Consecutive(379, 383);
      case 3 =>
        assert NoneSieved(384, 389);
        Consecutive(383, 389);
      case 4 =>
        assert NoneSieved(390, 397);
        Consecutive(389, 397);
      case 5 =>
        assert NoneSieved(398, 401);
        Consecutive(397, 401);
      case _ =>
        assert NoneSieved(402, 409);
        Consecutive(401, 409);
    }
  }

  /** Prime(0), Prime(1), ... are the primes in order. */
  lemma PrimesInOrder(t: nat)
    requires t < 79
    ensures Prime(0) == 2 && IsPrime(2) && NextPrime(Prime(t), Prime(t + 1))
  {
    SmallPrimes();
    if t >= 7 {
      match t / 8 {
        case 0 => PrimeRow0(t - 0);
        case 1 => PrimeRow1(t - 8);
        case 2 => PrimeRow2(t - 16);
        case 3 => PrimeRow3(t - 24);
        case 4 => PrimeRow4(t - 32);
        case 5 => PrimeRow5(t - 40);
        case 6 => PrimeRow6(t - 48);
        case 7 => PrimeRow7(t - 56);
        case 8 => PrimeRow8(t - 64);
        case _ => PrimeRow9(t - 72);
      }
    }
  }

  // ---- roots --------------------------------------------------------------------------------------

  const TWO64: nat := 0x1_0000_0000_0000_0000

  function Square(x: nat): nat {
    x * x
  }

  function Cube(x: nat): nat {
    x * x * x
  }

  /** a + f / 2^64 is the cube root of p, rounded down to 64 fractional bits. */
  predicate CubeRoot(p: nat, a: nat, f: nat) {
    f < TWO64 && Cube(a * TWO64 + f) <= p * Cube(TWO64) < Cube(a * TWO64 + f + 1)
  }

  ghost predicate IsCubeFraction(p: nat, f: nat) {
    exists a: nat :: CubeRoot(p, a, f)
  }

  predicate SquareRoot(p: nat, a: nat, f: nat) {
    f < TWO64 && Square(a * TWO64 + f) <= p * Square(TWO64) < Square(a * TWO64 + f + 1)
  }

  lemma Roots0(j: nat)
    requires j < 8
    ensures IsCubeFraction(PrimeRow(0)[j], KRow(0)[j] as nat)
  {
    match j {
      case 0 => assert CubeRoot(2, 1, 0x428a2f98d728ae22);
      case 1 => assert CubeRoot(3, 1, 0x7137449123ef65cd);
      case 2 => assert CubeRoot(5, 1, 0xb5c0fbcfec4d3b2f);
      case 3 => assert CubeRoot(7, 1, 0xe9b5dba58189dbbc);
      case 4 => assert CubeRoot(11, 2, 0x3956c25bf348b538);
      case 5 => assert CubeRoot(13, 2, 0x59f111f1b605d019);
      case 6 => assert CubeRoot(17, 2, 0x923f82a4af194f9b);
      case _ => assert CubeRoot(19, 2, 0xab1c5ed5da6d8118);
    }
  }

  lemma Roots1(j: nat)
    requires j < 8
    ensures IsCubeFraction(PrimeRow(1)[j], KRow(1)[j] as nat)
  {
    match j {
      case 0 => assert CubeRoot(23, 2, 0xd807aa98a3030242);
      case 1 => assert CubeRoot(29, 3, 0x12835b0145706fbe);
      case 2 => assert CubeRoot(31, 3, 0x243185be4ee4b28c);
      case 3 => assert CubeRoot(37, 3, 0x550c7dc3d5ffb4e2);
      case 4 => assert CubeRoot(41, 3, 0x72be5d74f27b896f);
      case 5 => assert CubeRoot(43, 3, 0x80deb1fe3b1696b1);
      case 6 => assert CubeRoot(47, 3, 0x9bdc06a725c71235);
      case _ => assert CubeRoot(53, 3, 0xc19bf174cf692694);
    }
  }

  lemma Roots2(j: nat)
    requires j < 8
    ensures IsCubeFraction(PrimeRow(2)[j], KRow(2)[j] as nat)
  {
    match j {
      case 0 => assert CubeRoot(59, 3, 0xe49b69c19ef14ad2);
      case 1 => assert CubeRoot(61, 3, 0xefbe4786384f25e3);
      case 2 => assert CubeRoot(67, 4, 0xfc19dc68b8cd5b5);
      case 3 => assert CubeRoot(71, 4, 0x240ca1cc77ac9c65);
      case 4 => assert CubeRoot(73, 4, 0x2de92c6f592b0275);
      case 5 => assert CubeRoot(79, 4, 0x4a7484aa6ea6e483);
      case 6 => assert CubeRoot(83, 4, 0x5cb0a9dcbd41fbd4);
      case _ => assert CubeRoot(89, 4, 0x76f988da831153b5);
    }
  }

  lemma Roots3(j: nat)
    requires j < 8
    ensures IsCubeFraction(PrimeRow(3)[j], KRow(3)[j] as nat)
  {
    match j {
      case 0 => assert CubeRoot(97, 4, 0x983e5152ee66dfab);
      case 1 => assert CubeRoot(101, 4, 0xa831c66d2db43210);
      case 2 => assert CubeRoot(103, 4, 0xb00327c898fb213f);
      case 3 => assert CubeRoot(107, 4, 0xbf597fc7beef0ee4);
      case 4 => assert CubeRoot(109, 4, 0xc6e00bf33da88fc2);
      case 5 => assert CubeRoot(113, 4, 0xd5a79147930aa725);
      case 6 => assert CubeRoot(127, 5, 0x6ca6351e003826f);
      case _ => assert CubeRoot(131, 5, 0x142929670a0e6e70);
    }
  }

  lemma Roots4(j: nat)
    requires j < 8
    ensures IsCubeFraction(PrimeRow(4)[j], KRow(4)[j] as nat)
  {
    match j {
      case 0 => assert CubeRoot(137, 5, 0x27b70a8546d22ffc);
      case 1 => assert CubeRoot(139, 5, 0x2e1b21385c26c926);
      case 2 => assert CubeRoot(149, 5, 0x4d2c6dfc5ac42aed);
      case 3 => assert CubeRoot(151, 5, 0x53380d139d95b3df);
      case 4 => assert CubeRoot(157, 5, 0x650a73548baf63de);
      case 5 => assert CubeRoot(163, 5, 0x766a0abb3c77b2a8);
      case 6 => assert CubeRoot(167, 5, 0x81c2c92e47edaee6);
      case _ => assert CubeRoot(173, 5, 0x92722c851482353b);
    }
  }

  lemma Roots5(j: nat)
    requires j < 8
    ensures IsCubeFraction(PrimeRow(5)[j], KRow(5)[j] as nat)
  {
    match j {
      case 0 => assert CubeRoot(179, 5, 0xa2bfe8a14cf10364);
      case 1 => assert CubeRoot(181, 5, 0xa81a664bbc423001);
      case 2 => assert CubeRoot(191, 5, 0xc24b8b70d0f89791);
      case 3 => assert CubeRoot(193, 5, 0xc76c51a30654be30);
      case 4 => assert CubeRoot(197, 5, 0xd192e819d6ef5218);
      case 5 => assert CubeRoot(199, 5, 0xd69906245565a910);
      case 6 => assert CubeRoot(211, 5, 0xf40e35855771202a);
      case _ => assert CubeRoot(223, 6, 0x106aa07032bbd1b8);
    }
  }

  lemma Roots6(j: nat)
    requires j < 8
    ensures IsCubeFraction(PrimeRow(6)[j], KRow(6)[j] as nat)
  {
    match j {
      case 0 => assert CubeRoot(227, 6, 0x19a4c116b8d2d0c8);
      case 1 => assert CubeRoot(229, 6, 0x1e376c085141ab53);
      case 2 => assert CubeRoot(233, 6, 0x2748774cdf8eeb99);
      case 3 => assert CubeRoot(239, 6, 0x34b0bcb5e19b48a8);
      case 4 => assert CubeRoot(241, 6, 0x391c0cb3c5c95a63);
      case 5 => assert CubeRoot(251, 6, 0x4ed8aa4ae3418acb);
      case 6 => assert CubeRoot(257, 6, 0x5b9cca4f7763e373);
      case _ => assert CubeRoot(263, 6, 0x682e6ff3d6b2b8a3);
    }
  }

  lemma Roots7(j: nat)
    requires j < 8
    ensures IsCubeFraction(PrimeRow(7)[j], KRow(7)[j] as nat)
  {
    match j {
      case 0 => assert CubeRoot(269, 6, 0x748f82ee5defb2fc);
      case 1 => assert CubeRoot(271, 6, 0x78a5636f43172f60);
      case 2 => assert CubeRoot(277, 6, 0x84c87814a1f0ab72);
      case 3 => assert CubeRoot(281, 6, 0x8cc702081a6439ec);
      case 4 => assert CubeRoot(283, 6, 0x90befffa23631e28);
      case 5 => assert CubeRoot(293, 6, 0xa4506cebde82bde9);
      case 6 => assert CubeRoot(307, 6, 0xbef9a3f7b2c67915);
      case _ => assert CubeRoot(311, 6, 0xc67178f2e372532b);
    }
  }

  lemma Roots8(j: nat)
    requires j < 8
    ensures IsCubeFraction(PrimeRow(8)[j], KRow(8)[j] as nat)
  {
    match j {
      case 0 => assert CubeRoot(313, 6, 0xca273eceea26619c);
      case 1 => assert CubeRoot(317, 6, 0xd186b8c721c0c207);
      case 2 => assert CubeRoot(331, 6, 0xeada7dd6cde0eb1e);
      case 3 => assert CubeRoot(337, 6, 0xf57d4f7fee6ed178);
      case 4 => assert CubeRoot(347, 7, 0x6f067aa72176fba);
      case 5 => assert CubeRoot(349, 7, 0xa637dc5a2c898a6);
      case 6 => assert CubeRoot(353, 7, 0x113f9804bef90dae);
      case _ => assert CubeRoot(359, 7, 0x1b710b35131c471b);
    }
  }

  lemma Roots9(j: nat)
    requires j < 8
    ensures IsCubeFraction(PrimeRow(9)[j], KRow(9)[j] as nat)
  {
    match j {
      case 0 => assert CubeRoot(367, 7, 0x28db77f523047d84);
      case 1 => assert CubeRoot(373, 7, 0x32caab7b40c72493);
      case 2 => assert CubeRoot(379, 7, 0x3c9ebe0a15c9bebc);
      case 3 => assert CubeRoot(383, 7, 0x431d67c49c100d4c);
      case 4 => assert CubeRoot(389, 7, 0x4cc5d4becb3e42b6);
      case 5 => assert CubeRoot(397, 7, 0x597f299cfc657e2a);
      case 6 => assert CubeRoot(401, 7, 0x5fcb6fab3ad6faec);
      case _ => assert CubeRoot(409, 7, 0x6c44198c4a475817);
    }
  }

  /** Section 4.2.3: K_t is the fraction of the cube root of prime number t. */
  lemma ConstantsAreRoots(t: nat)
    requires t < 80
    ensures |K| == 80 && IsCubeFraction(Prime(t), K[t] as nat)
  {
    KAt(t);
    match t / 8 {
      case 0 => Roots0(t % 8);
      case 1 => Roots1(t % 8);
      case 2 => Roots2(t % 8);
      case 3 => Roots3(t % 8);
      case 4 => Roots4(t % 8);
      case 5 => Roots5(t % 8);
      case 6 => Roots6(t % 8);
      case 7 => Roots7(t % 8);
      case 8 => Roots8(t % 8);
      case _ => Roots9(t % 8);
    }
  }

  /** Section 5.3.5: the initial hash value has the fractions of the square roots of the first eight primes. */
  lemma InitialAreRoots()
    ensures SquareRoot(Prime(0), 1, IV.a as nat)
    ensures SquareRoot(Prime(1), 1, IV.b as nat)
    ensures SquareRoot(Prime(2), 2, IV.c as nat)
    ensures SquareRoot(Prime(3), 2, IV.d as nat)
    ensures SquareRoot(Prime(4), 3, IV.e as nat)
    ensures SquareRoot(Prime(5), 3, IV.f as nat)
    ensures SquareRoot(Prime(6), 4, IV.g as nat)
    ensures SquareRoot(Prime(7), 4, IV.h as nat)
  {
  }
}
