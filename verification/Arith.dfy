/** Least and greatest, and non-linear facts about products, quotients and remainders. */
module Arith {

  function Min(a: nat, b: nat): (m: nat)
  {
    if a < b then a else b
  }

  function Max(a: nat, b: nat): (m: nat)
  {
    if a < b then b else a
  }

  lemma Commutes(a: int, b: int)
    ensures a * b == b * a
  {
  }

  lemma Associates(a: int, b: int, c: int)
    ensures (a * b) * c == a * (b * c)
  {
  }

  lemma MulNonneg(a: int, b: int)
    requires a >= 0 && b >= 0
    ensures a * b >= 0
  {
  }

  lemma MulPositive(a: int, b: int)
    requires a >= 1 && b >= 1
    ensures a * b >= 1
  {
  }

  lemma MulMono(a: int, b: int, c: int)
    requires a <= b && c >= 0
    ensures a * c <= b * c
  {
    MulNonneg(b - a, c);
    assert (b - a) * c == b * c - a * c;
  }

  /** Quotient and remainder are determined by x == q * m + r with r below m. */
  lemma DivModUnique(q: int, r: int, m: int)
    requires 0 <= r < m
    ensures (q * m + r) / m == q && (q * m + r) % m == r
  {
    var x := q * m + r;
    var q' := x / m;
    assert q' * m <= x < q' * m + m;
    assert q' == q by {
      if q' > q {
        MulMono(q + 1, q', m);
      } else if q' < q {
        MulMono(q' + 1, q, m);
      }
    }
  }

  lemma DivNonneg(a: int, m: int)
    requires a >= 0 && m > 0
    ensures a / m >= 0
  {
  }

  /** The multiple of m at or below n. */
  lemma WholePart(n: int, m: int)
    requires m > 0
    ensures n == n / m * m + n % m && n - m < n / m * m <= n && n / m * m % m == 0
  {
    DivModUnique(n / m, 0, m);
  }

  lemma DivMono(a: int, b: int, m: int)
    requires a <= b && m > 0
    ensures a / m <= b / m
  {
    var p, q := a / m, b / m;
    assert p * m <= a && b < q * m + m;
    assert p <= q by {
      if p > q {
        MulMono(q + 1, p, m);
      }
    }
  }

  lemma ModShift(x: int, k: int, m: int)
    requires m > 0
    ensures (x + k * m) % m == x % m
  {
    var q, r := x / m, x % m;
    assert x + k * m == (q + k) * m + r;
    DivModUnique(q + k, r, m);
  }

  /** The two digits of k in a mixed radix of p below n. */
  lemma Digits(k: int, p: int, n: int)
    requires p > 0 && 0 <= k < p * n
    ensures 0 <= k / p < n && 0 <= k % p < p && k == (k / p) * p + k % p
  {
    var q := k / p;
    assert q * p <= k < q * p + p;
    assert 0 <= q < n by {
      if q >= n {
        MulMono(n, q, p);
      } else if q < 0 {
        MulMono(q + 1, 0, p);
      }
    }
  }

  /** Two digits in range make a number in range. */
  lemma Compose(q: int, r: int, p: int, n: int)
    requires 0 <= q < n && 0 <= r < p
    ensures 0 <= q * p + r < p * n
    ensures (q * p + r) / p == q && (q * p + r) % p == r
  {
    MulMono(q + 1, n, p);
    MulNonneg(q, p);
    DivModUnique(q, r, p);
  }
}
