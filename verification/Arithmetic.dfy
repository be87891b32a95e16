/** Remainders and powers of two, for the index arithmetic of the tables. */
module Arithmetic {

  function Pow2(n: nat): (r: nat)
    ensures r > 0
  {
    if n == 0 then 1 else 2 * Pow2(n - 1)
  }

  lemma Doubled(x: nat, y: nat)
    ensures 2 * (x * y) == (2 * x) * y
  {
  }

  lemma {:induction false} Pow2Adds(a: nat, b: nat)
    ensures Pow2(a + b) == Pow2(a) * Pow2(b)
  {
    if a > 0 {
      Pow2Adds(a - 1, b);
      Doubled(Pow2(a - 1), Pow2(b));
    }
  }

  lemma PowersDivide(a: nat, b: nat)
    requires a <= b
    ensures Pow2(b) % Pow2(a) == 0
  {
    Pow2Adds(b - a, a);
    RemainderIsUnique(Pow2(b), Pow2(a), Pow2(b - a), 0);
  }

  lemma MultiplesAreApart(a: int, b: int, m: nat)
    requires a < b
    ensures a * m + m <= b * m
  {
    Distribute(a, 1, m);
    Distribute(a + 1, b - (a + 1), m);
    NotNegative(b - (a + 1), m);
  }

  lemma NotNegative(a: nat, b: nat)
    ensures a * b >= 0
  {
  }

  lemma RemainderIsUnique(i: nat, m: nat, k: int, r: nat)
    requires r < m && i == k * m + r
    ensures i % m == r
  {
    var k', r' := i / m, i % m;
    assert i == k' * m + r';
    if k' < k {
      MultiplesAreApart(k', k, m);
    } else if k < k' {
      MultiplesAreApart(k, k', m);
    }
  }

  /** Above a multiple of n, within n, the remainder is the distance. */
  lemma RemainderFromMultiple(x: nat, y: nat, n: nat)
    requires n > 0 && x % n == 0 && x <= y < x + n
    ensures y % n == y - x
  {
    var q := x / n;
    RemainderIsUnique(y, n, q, y - x);
  }

  lemma Divide(x: nat, n: nat) returns (q: nat, r: nat)
    requires n > 0
    ensures x == q * n + r && r < n && r == x % n
  {
    q, r := x / n, x % n;
  }

  lemma Distribute(a: int, b: int, n: int)
    ensures (a + b) * n == a * n + b * n
  {
  }

  /** Below twice the modulus a remainder is one subtraction. */
  lemma SmallRemainder(x: nat, n: nat)
    requires n > 0 && x < n + n
    ensures x % n == if x < n then x else x - n
  {
    RemainderIsUnique(x, n, if x < n then 0 else 1, if x < n then x else x - n);
  }

  lemma AddToRemainder(x: nat, y: nat, n: nat)
    requires n > 0
    ensures (x % n + y) % n == (x + y) % n
  {
    var q, r := Divide(x, n);
    var q2, r2 := Divide(r + y, n);
    Distribute(q, q2, n);
    RemainderIsUnique(x + y, n, q + q2, r2);
  }

  /** A remainder by a multiple of n has the same remainder by n. */
  lemma RemainderOfRemainder(x: nat, n: nat, m: nat)
    requires n > 0 && m > 0 && m % n == 0
    ensures (x % m) % n == x % n
  {
    var k, z := Divide(m, n);
    var q, r := Divide(x, m);
    var q2, r2 := Divide(r, n);
    assert q * (k * n) == (q * k) * n;
    Distribute(q * k, q2, n);
    RemainderIsUnique(x, n, q * k + q2, r2);
  }

  lemma PaddingAligns(x: nat, a: nat)
    requires a > 0
    ensures (x + (a - x % a)) % a == 0
  {
    var q, r := Divide(x, a);
    Distribute(q, 1, a);
    RemainderIsUnique(x + (a - r), a, q + 1, 0);
  }
}
