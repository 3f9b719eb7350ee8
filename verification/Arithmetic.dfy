/** The few facts about products and quotients the arithmetic models rest on. */
module Arithmetic {
  lemma Divide(n: nat, d: nat)
    requires d > 0
    ensures n == (n / d) * d + n % d && 0 <= n % d < d && 0 <= n / d
  {}

  lemma MulNonNegative(a: nat, b: nat)
    ensures 0 <= a * b
  {}

  lemma MulMonotone(a: int, b: int, s: nat)
    requires a <= b
    ensures a * s <= b * s
  {}

  lemma MulStep(a: int, b: int, s: nat)
    requires a < b
    ensures a * s + s <= b * s
  {
    MulMonotone(a + 1, b, s);
    assert (a + 1) * s == a * s + s;
  }

  lemma MulCancel(a: int, b: int, s: nat)
    requires s > 0 && a * s <= b * s
    ensures a <= b
  {
    if b < a {
      MulStep(b, a, s);
    }
  }

  lemma MulMinus(a: int, b: int, s: int)
    ensures (a - b) * s == a * s - b * s
  {}

  lemma MulSwap(a: int, b: int, s: int)
    ensures a * (b * s) == (b * a) * s
  {}

  lemma QuotientFits(n: nat, d: nat)
    requires d > 0
    ensures n / d <= n
  {
    Divide(n, d);
    MulMonotone(1, d, n / d);
  }

  lemma SameQuotient(p: int, q: int, d: nat, n: int, m: int)
    requires d > 0 && n == p * d + m && 0 <= m < d && q * d <= n < q * d + d
    ensures p == q
  {
    if p < q {
      MulStep(p, q, d);
    } else if q < p {
      MulStep(q, p, d);
    }
  }

  /** A quotient is the one number whose multiple comes closest from below. */
  lemma QuotientIs(n: nat, d: nat, q: nat)
    requires d > 0 && q * d <= n < q * d + d
    ensures n / d == q && n % d == n - q * d
  {
    Divide(n, d);
    SameQuotient(n / d, q, d, n, n % d);
  }

  lemma QuotientMonotone(a: nat, b: nat, d: nat)
    requires d > 0 && a <= b
    ensures a / d <= b / d
  {
    Divide(a, d);
    Divide(b, d);
    if b / d < a / d {
      MulStep(b / d, a / d, d);
    }
  }

  function Gcd(a: nat, b: nat): (g: nat)
    requires a > 0
    ensures g > 0
    decreases b
  {
    if b == 0 then a else Gcd(b, a % b)
  }

  lemma ProductOfSums(g: int, q: int, b: int, c: int, u: int, v: int)
    requires b == g * u && c == g * v
    ensures q * b + c == g * (q * u + v)
  {
    MulSwap(q, g, u);
    assert g * (q * u + v) == g * (q * u) + g * v;
    assert g * (q * u) == (g * q) * u == (q * g) * u == q * (g * u);
  }

  lemma Rearranged(x: int, y: int, q: int, b: int, c: int)
    ensures x * b + y * c == y * (q * b + c) + (x - q * y) * b
  {
    assert y * (q * b + c) == y * (q * b) + y * c;
    assert (x - q * y) * b == x * b - (q * y) * b;
    assert y * (q * b) == (q * y) * b;
  }

  /** The greatest common divisor divides both numbers and is a combination of them. */
  lemma {:induction false} GcdCombines(a: nat, b: nat) returns (u: int, v: int, x: int, y: int)
    requires a > 0
    ensures a == Gcd(a, b) * u && b == Gcd(a, b) * v && Gcd(a, b) == x * a + y * b
    decreases b
  {
    if b == 0 {
      u, v, x, y := 1, 0, 1, 0;
    } else {
      var g, q, c := Gcd(b, a % b), a / b, a % b;
      var u', v', x', y' := GcdCombines(b, c);
      Divide(a, b);
      assert a == q * b + c;
      ProductOfSums(g, q, b, c, u', v');
      Rearranged(x', y', q, b, c);
      u, v, x, y := q * u' + v', u', y', x' - q * y';
    }
  }
}
