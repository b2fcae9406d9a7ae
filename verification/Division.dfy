/** Quotients and remainders by a variable divisor. */
module Division {

  lemma Quotient(n: nat, d: nat, q: nat, r: nat)
    requires r < d && n == d * q + r
    ensures n % d == r && n / d == q
  {
    var x := n / d - q;
    assert d * x == r - n % d;
    if x >= 1 {
      AtLeast(d, x);
    } else if x <= -1 {
      AtLeast(d, -x);
    }
  }

  lemma AtLeast(d: nat, x: int)
    requires x >= 1
    ensures d * x >= d
  {
  }

  lemma MultipleMod(d: nat, q: nat)
    requires d > 0
    ensures (d * q) % d == 0
  {
    Quotient(d * q, d, q, 0);
  }

  lemma SumOfMultiples(d: nat, a: nat, b: nat)
    requires d > 0 && a % d == 0 && b % d == 0
    ensures (a + b) % d == 0
  {
    var x, y := a / d, b / d;
    assert a + b == d * (x + y);
    MultipleMod(d, x + y);
  }

  /** Two multiples that are less than d apart are not apart. */
  lemma MultiplesApart(d: nat, a: nat, b: nat)
    requires d > 0 && a % d == 0 && b % d == 0 && a < b + d
    ensures a <= b
  {
    var k := a / d - b / d;
    assert a - b == d * k;
    if k >= 1 {
      AtLeast(d, k);
    }
  }
}
