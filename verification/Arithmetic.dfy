/** The few facts about products and quotients that the models need. */
module Arithmetic {

  function Min(a: int, b: int): int {
    if a < b then a else b
  }

  function Max(a: int, b: int): int {
    if a < b then b else a
  }

  lemma {:induction false} ProductGrows(a: int, b: int, d: nat)
    requires a <= b
    ensures a * d <= b * d
  {
    assert (b - a) * d >= 0;
    assert b * d == a * d + (b - a) * d;
  }

  lemma Quotient(x: int, d: int)
    requires d > 0
    ensures x / d * d <= x < x / d * d + d
    ensures x == x / d * d + x % d
  {
  }

  /** A quotient is known from the interval that the dividend lies in. */
  lemma QuotientIs(x: int, d: int, q: int)
    requires d > 0 && q * d <= x < q * d + d
    ensures x / d == q && x % d == x - q * d
  {
    Quotient(x, d);
    if x / d < q {
      ProductGrows(x / d + 1, q, d);
    } else if q < x / d {
      ProductGrows(q + 1, x / d, d);
    }
  }

  lemma QuotientShift(x: int, d: int, n: int)
    requires d > 0
    ensures (x + n * d) / d == x / d + n && (x + n * d) % d == x % d
  {
    Quotient(x, d);
    assert (x / d + n) * d == x / d * d + n * d;
    QuotientIs(x + n * d, d, x / d + n);
  }

  lemma QuotientGrows(x: int, y: int, d: int)
    requires d > 0 && x <= y
    ensures x / d <= y / d
  {
    Quotient(x, d);
    Quotient(y, d);
    if y / d < x / d {
      ProductGrows(y / d + 1, x / d, d);
    }
  }

  function Pow2(b: nat): (r: nat)
    ensures r > 0
  {
    if b == 0 then 1 else 2 * Pow2(b - 1)
  }

  lemma ProductAssociates(a: int, b: int, c: int)
    ensures a * b * c == a * (b * c)
  {
  }

  lemma {:induction false} Pow2Sum(a: nat, b: nat)
    ensures Pow2(a + b) == Pow2(a) * Pow2(b)
  {
    if a > 0 {
      Pow2Sum(a - 1, b);
      ProductAssociates(2, Pow2(a - 1), Pow2(b));
    }
  }

  lemma {:induction false} Pow2Grows(a: nat, b: nat)
    requires a <= b
    ensures Pow2(a) <= Pow2(b)
  {
    if a < b {
      Pow2Grows(a, b - 1);
    }
  }
}
