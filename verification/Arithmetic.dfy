/** Facts about products, quotients and remainders. */
module Arithmetic {

  lemma Sign(k: int, d: nat)
    ensures k >= 1 ==> k * d >= d
    ensures k <= -1 ==> k * d + d <= 0
  {
    if k >= 1 {
      Scale(1, k, d);
    } else if k <= -1 {
      Scale(k, -1, d);
    }
  }

  lemma {:induction false} Scale(x: int, y: int, d: nat)
    requires x <= y
    ensures x * d <= y * d
  {
    if d > 0 {
      Scale(x, y, d - 1);
      Less(x, d);
      Less(y, d);
    }
  }

  lemma Less(x: int, d: nat)
    requires d > 0
    ensures x * d == x * (d - 1) + x
  {
  }

  lemma More(q: int, d: nat)
    ensures (q + 1) * d == q * d + d
  {
  }

  lemma Minus(x: int, y: int, d: nat)
    ensures (x - y) * d == x * d - y * d
  {
  }

  lemma Cancel(x: int, y: int, d: nat)
    requires d > 0
    ensures x * d < y * d ==> x < y
    ensures x * d <= y * d ==> x <= y
    ensures x * d == y * d ==> x == y
  {
    Sign(x - y, d);
    Minus(x, y, d);
  }

  /** Quotient and remainder. */
  lemma Parts(x: nat, d: nat)
    requires d > 0
    ensures x == x / d * d + x % d && x % d < d
  {
  }

  lemma DivUnique(x: nat, d: nat, q: nat, r: nat)
    requires x == q * d + r && r < d
    ensures x / d == q && x % d == r
  {
    Parts(x, d);
    Sign(x / d - q, d);
    Minus(x / d, q, d);
  }

  lemma Floor(x: nat, d: nat)
    requires d > 0
    ensures x / d * d <= x < (x / d + 1) * d
  {
    Parts(x, d);
    More(x / d, d);
  }

  lemma Product(s: nat, b: nat, a: nat, r: nat)
    requires s < b && r < a
    ensures 0 < a * b && s * a + r < a * b
  {
    Scale(s, b - 1, a);
    More(b - 1, a);
    Swap(a, b);
  }

  lemma Swap(a: nat, b: nat)
    ensures a * b == b * a
  {
  }

  lemma Regroup(q: nat, b: nat, s: nat, a: nat, r: nat)
    ensures (q * b + s) * a + r == q * (a * b) + (s * a + r)
  {
    assert (q * b + s) * a == q * b * a + s * a;
    assert q * b * a == q * (a * b);
  }

  lemma Nested(x: nat, a: nat, b: nat, q: nat, s: nat, r: nat)
    requires x == (q * b + s) * a + r && s < b && r < a
    ensures a * b > 0 && x / (a * b) == q
  {
    Regroup(q, b, s, a, r);
    Product(s, b, a, r);
    DivUnique(x, a * b, q, s * a + r);
  }

  lemma DivDiv(x: nat, a: nat, b: nat)
    requires a > 0 && b > 0
    ensures a * b > 0 && x / (a * b) == x / a / b
  {
    Parts(x, a);
    Parts(x / a, b);
    Nested(x, a, b, x / a / b, x / a % b, x % a);
  }

  /** Adding a multiple of `512 d` does not change the base-512 digit at weight `d`. */
  lemma DigitOfSum(k: nat, x: nat, c: nat, d: nat)
    requires d > 0
    ensures (k * (c * 512 * d) + x) / d % 512 == x / d % 512
  {
    var y := x / d;
    Parts(x, d);
    Gather(k, c, d, y);
    DivUnique(k * (c * 512 * d) + x, d, k * c * 512 + y, x % d);
    WholeTurns(k * c, y);
  }

  lemma Gather(k: nat, c: nat, d: nat, y: nat)
    ensures k * (c * 512 * d) + y * d == (k * c * 512 + y) * d
  {
    assert k * (c * 512 * d) == k * c * 512 * d;
  }

  lemma WholeTurns(k: nat, y: nat)
    ensures (k * 512 + y) % 512 == y % 512
  {
  }
}
