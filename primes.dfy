/** The largest-prime search used to size the light cache and the full
    dataset. Only its contract is part of the source; the body here is a
    reference trial-division search that meets it. */
module Primes {
  import opened Arithmetic

  /** No k with d <= k and k * k <= n divides n (trial division up to the
      square root). */
  predicate NoDivisorFrom(n: int, d: int)
    requires 2 <= d
    decreases n - d
  {
    d * d > n || (n % d != 0 && NoDivisorFrom(n, d + 1))
  }

  predicate IsPrime(n: int)
  {
    n >= 2 && NoDivisorFrom(n, 2)
  }

  lemma {:induction false} NoDivisorFromMeans(n: int, d: int)
    requires 2 <= d
    ensures NoDivisorFrom(n, d) <==> forall k :: d <= k && k * k <= n ==> n % k != 0
    decreases n - d
  {
    if d * d <= n {
      NoDivisorFromMeans(n, d + 1);
      forall k | d <= k && k * k <= n && k != d
        ensures d + 1 <= k
      {
      }
    } else {
      forall k | d <= k
        ensures k * k > n
      {
        MulMonotone(d, k);
      }
    }
  }

  lemma MulMonotone(a: nat, b: nat)
    requires a <= b
    ensures a * a <= b * b
  {
    assert a * a <= a * b <= b * b;
  }

  lemma ModOfMultiple(q: int, m: int)
    requires m > 0
    ensures (q * m) % m == 0
  {
    var d, r := (q * m) / m, (q * m) % m;
    assert q * m == d * m + r && 0 <= r < m;
    assert (q - d) * m == r;
    if q - d >= 1 {
      MulLe(1, q - d, m);
    } else if q - d <= -1 {
      MulLe(q - d, -1, m);
    }
  }

  /** A divisor above the square root has a cofactor below it. */
  lemma CofactorBelowRoot(n: int, k: int)
    requires 2 <= k < n && n % k == 0 && k * k > n
    ensures 2 <= n / k && (n / k) * (n / k) <= n && n % (n / k) == 0
  {
    var m := n / k;
    assert n == m * k;
    if m <= 1 {
      MulLe(m, 1, k);
    }
    if m >= k {
      MulLe(k, m, k);
    }
    MulLe(m, k, m);
    assert m * m <= k * m;
    ModOfMultiple(k, m);
    assert k * m == n;
  }

  /** The trial-division predicate is the textbook definition of a prime. */
  lemma IsPrimeMeans(n: int)
    ensures IsPrime(n) <==> n >= 2 && forall k :: 2 <= k < n ==> n % k != 0
  {
    NoDivisorFromMeans(n, 2);
    if IsPrime(n) {
      forall k | 2 <= k < n
        ensures n % k != 0
      {
        if n % k == 0 {
          if k * k > n {
            CofactorBelowRoot(n, k);
            assert false;
          }
        }
      }
    } else if n >= 2 {
      var k :| 2 <= k && k * k <= n && n % k == 0;
      MulLe(2, k, k);
      assert 2 <= k < n;
    }
  }

  /** The largest prime not greater than upperBound, or 0 when upperBound <= 1. */
  function FindLargestPrime(upperBound: int): (p: int)
    ensures upperBound <= 1 ==> p == 0
    ensures upperBound > 1 ==> IsPrime(p) && p <= upperBound
    ensures upperBound > 1 ==> forall q :: p < q <= upperBound ==> !IsPrime(q)
    decreases upperBound
  {
    if upperBound <= 1 then 0
    else if IsPrime(upperBound) then upperBound
    else
      assert IsPrime(2);
      FindLargestPrime(upperBound - 1)
  }

  /** A larger bound never yields a smaller prime. */
  lemma FindLargestPrimeMonotone(a: int, b: int)
    requires a <= b
    ensures FindLargestPrime(a) <= FindLargestPrime(b)
  {
  }

  lemma Prime131()
    ensures IsPrime(131)
  {
  }

  /** Any bound of at least 131 gives a prime of at least 131. */
  lemma LargestPrimeAtLeast131(upperBound: int)
    requires upperBound >= 131
    ensures FindLargestPrime(upperBound) >= 131
  {
    Prime131();
  }
}
