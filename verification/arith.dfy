/** Facts about Euclidean division and remainder on integers, used to wrap
    the ring buffer's cursor and to split elapsed time into rounds and slots. */
module Arith {

  /** Euclidean division is determined by its quotient and remainder bounds. */
  lemma ModUnique(a: int, d: int, q: int, r: int)
    requires d > 0 && a == d * q + r && 0 <= r < d
    ensures a % d == r
  {
    var q0, r0 := a / d, a % d;
    assert a == d * q0 + r0;
    if q0 > q {
      assert d * q0 >= d * (q + 1) by { MulMono(d, q + 1, q0); }
    } else if q0 < q {
      assert d * q >= d * (q0 + 1) by { MulMono(d, q0 + 1, q); }
    }
  }

  lemma MulMono(d: int, x: int, y: int)
    requires d > 0 && x <= y
    ensures d * x <= d * y
  {
  }

  lemma ModTwice(a: nat, p: nat)
    requires p >= 1
    ensures a % (2 * p) == 2 * ((a / 2) % p) + a % 2
  {
    var h := a / 2;
    var q := h / p;
    var m := h % p;
    assert h == p * q + m;
    assert a == 2 * h + a % 2;
    assert a == (2 * p) * q + (2 * m + a % 2);
    ModUnique(a, 2 * p, q, 2 * m + a % 2);
  }

  /** Two numbers closer together than the modulus leave different remainders. */
  lemma ModDistinct(n: int, m: int, d: int)
    requires d > 0 && n < m < n + d
    ensures n % d != m % d
  {
    var qn, qm := n / d, m / d;
    assert n == d * qn + n % d;
    assert m == d * qm + m % d;
    if n % d == m % d {
      assert m - n == d * (qm - qn);
      if qm - qn >= 1 {
        MulMono(d, 1, qm - qn);
      } else {
        MulMono(d, qm - qn, 0);
      }
    }
  }

  /** Stepping a remainder by one and reducing again agrees with stepping first. */
  lemma ModSucc(n: int, d: int)
    requires d > 0
    ensures (n % d + 1) % d == (n + 1) % d
  {
    var q, m := n / d, n % d;
    assert n == d * q + m;
    if m + 1 == d {
      assert d * (q + 1) == d * q + d;
      ModUnique(n + 1, d, q + 1, 0);
      ModUnique(m + 1, d, 1, 0);
    } else {
      ModUnique(n + 1, d, q, m + 1);
      ModUnique(m + 1, d, 0, m + 1);
    }
  }

  /** Removing one whole modulus does not change the remainder. */
  lemma ModSubModulus(n: int, d: int)
    requires d > 0
    ensures (n - d) % d == n % d
  {
    var q := n / d;
    assert n == d * q + n % d;
    assert n - d == d * (q - 1) + n % d;
    ModUnique(n - d, d, q - 1, n % d);
  }

  /** A number already below the modulus is its own remainder. */
  lemma ModSmall(a: int, d: int)
    requires 0 <= a < d
    ensures a % d == a
  {
    ModUnique(a, d, 0, a);
  }

  /** Division by a positive number is monotone. */
  lemma DivMono(a: int, b: int, d: int)
    requires d > 0 && a <= b
    ensures a / d <= b / d
  {
    var qa, qb := a / d, b / d;
    assert a == d * qa + a % d;
    assert b == d * qb + b % d;
    if qa > qb {
      MulMono(d, qb + 1, qa);
    }
  }
}
