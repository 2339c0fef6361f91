/** Facts about multiplication and integer division shared by the byte
    encodings and the prime search. */
module Arithmetic {

  lemma MulLe(a: int, b: int, c: nat)
    requires a <= b
    ensures a * c <= b * c
  {
  }

  /** Quotient and remainder are unique. */
  lemma DivUnique(x: nat, d: nat, q: nat, r: nat)
    requires d > 0 && x == q * d + r && r < d
    ensures x / d == q
  {
    var q0, r0 := x / d, x % d;
    assert x == q0 * d + r0;
    if q0 > q {
      MulLe(q + 1, q0, d);
    } else if q0 < q {
      MulLe(q0 + 1, q, d);
    }
  }

  /** Dividing by a and then by b is dividing by a * b. */
  lemma DivDiv(x: nat, a: nat, b: nat)
    requires a > 0 && b > 0
    ensures x / a / b == x / (a * b)
  {
    var q, r := x / a, x % a;
    var q2, r2 := q / b, q % b;
    assert x == q * a + r;
    assert q == q2 * b + r2;
    assert q * a == q2 * (a * b) + r2 * a by {
      assert q * a == (q2 * b + r2) * a;
    }
    MulLe(r2, b - 1, a);
    assert r2 * a + r < a * b;
    DivUnique(x, a * b, q2, r2 * a + r);
  }

  /** Quotient and remainder of a natural number by a positive divisor. */
  lemma DivMod(x: nat, d: nat)
    requires d > 0
    ensures x / d >= 0 && x == (x / d) * d + x % d && 0 <= x % d < d
  {
    if x / d < 0 {
      MulLe(x / d, -1, d);
    }
  }

  /** The remainder is unique. */
  lemma ModUnique(x: nat, d: nat, q: nat, r: nat)
    requires d > 0 && x == q * d + r && r < d
    ensures x % d == r
  {
    DivUnique(x, d, q, r);
  }
}
