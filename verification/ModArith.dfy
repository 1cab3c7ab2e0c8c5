/** Remainders of a fixed positive modulus. */
module ModArith {
  lemma AtLeast(k: int, m: int)
    requires k >= 1 && m > 0
    ensures k * m >= m
  {
  }

  lemma NoGap(k: int, m: int)
    requires -m < k * m < m
    ensures k == 0
  {
    assert (-k) * m == -(k * m);
    if k >= 1 { AtLeast(k, m); }
    if k <= -1 { AtLeast(-k, m); }
  }

  /** A quotient and a remainder in range are the quotient and the remainder. */
  lemma Unique(x: int, m: int, q: int, r: int)
    requires 0 <= r < m && x == q * m + r
    ensures x / m == q && x % m == r
  {
    var q', r' := x / m, x % m;
    assert x == q' * m + r';
    assert (q - q') * m == r' - r;
    NoGap(q - q', m);
  }

  /** Multiples of the modulus do not matter. */
  lemma Shift(x: int, k: int, m: int)
    requires 0 < m
    ensures (x + k * m) % m == x % m
  {
    var q, r := x / m, x % m;
    assert x == q * m + r;
    assert (q + k) * m == q * m + k * m;
    Unique(x + k * m, m, q + k, r);
  }

  lemma Sum(x: int, y: int, m: int)
    requires 0 < m
    ensures (x % m + y) % m == (x + y) % m
  {
    Shift(x % m + y, x / m, m);
    assert x == x / m * m + x % m;
  }

  lemma Small(x: int, m: int)
    requires 0 < m
    ensures 0 <= x < m ==> x % m == x
    ensures -m <= x < 0 ==> x % m == x + m
  {
    if 0 <= x < m { Unique(x, m, 0, x); }
    if -m <= x < 0 { Unique(x, m, -1, x + m); }
  }

  lemma Quotient(x: nat, m: nat)
    requires m >= 1
    ensures x / m <= x
  {
  }
}
