/** Congruences. */
module Modular {

  predicate Differ(a: int, b: int, n: int, k: int) {
    a == b + n * k
  }

  /** a and b differ by a multiple of n. */
  ghost predicate Congruent(a: int, b: int, n: int) {
    exists k :: Differ(a, b, n, k)
  }

  lemma AtLeastOnce(n: int, d: int)
    requires n > 0 && d >= 1
    ensures n * d >= n
  {
    assert n * d == n * (d - 1) + n;
    assert n * (d - 1) >= 0;
  }

  /** Division with remainder is unique. */
  lemma RemainderIsUnique(n: int, q: int, r: int, q': int, r': int)
    requires n > 0 && 0 <= r < n && 0 <= r' < n && n * q + r == n * q' + r'
    ensures q == q' && r == r'
  {
    if q > q' {
      AtLeastOnce(n, q - q');
    } else if q < q' {
      AtLeastOnce(n, q' - q);
    }
  }

  lemma DivisionIsUnique(a: int, n: int, q: int, r: int)
    requires n > 0 && 0 <= r < n && a == n * q + r
    ensures a / n == q && a % n == r
  {
    RemainderIsUnique(n, q, r, a / n, a % n);
  }

  lemma CongruentBy(a: int, b: int, n: int, k: int)
    requires a == b + n * k
    ensures Congruent(a, b, n)
  {
    assert Differ(a, b, n, k);
  }

  lemma Quotient(a: int, b: int, n: int) returns (k: int)
    requires Congruent(a, b, n)
    ensures a == b + n * k
  {
    k :| Differ(a, b, n, k);
  }

  lemma Reflexive(a: int, n: int)
    ensures Congruent(a, a, n)
  {
    CongruentBy(a, a, n, 0);
  }

  lemma ModIsCongruent(a: int, n: int)
    requires n > 0
    ensures Congruent(a % n, a, n)
  {
    assert a == n * (a / n) + a % n;
    CongruentBy(a % n, a, n, -(a / n));
  }

  lemma Symmetric(a: int, b: int, n: int)
    requires Congruent(a, b, n)
    ensures Congruent(b, a, n)
  {
    var k := Quotient(a, b, n);
    CongruentBy(b, a, n, -k);
  }

  lemma Transitive(a: int, b: int, c: int, n: int)
    requires Congruent(a, b, n) && Congruent(b, c, n)
    ensures Congruent(a, c, n)
  {
    var k := Quotient(a, b, n);
    var l := Quotient(b, c, n);
    CongruentBy(a, c, n, k + l);
  }

  lemma Sum(a: int, b: int, c: int, d: int, n: int)
    requires Congruent(a, b, n) && Congruent(c, d, n)
    ensures Congruent(a + c, b + d, n)
  {
    var k := Quotient(a, b, n);
    var l := Quotient(c, d, n);
    CongruentBy(a + c, b + d, n, k + l);
  }

  lemma Product(a: int, b: int, c: int, d: int, n: int)
    requires Congruent(a, b, n) && Congruent(c, d, n)
    ensures Congruent(a * c, b * d, n)
  {
    var k := Quotient(a, b, n);
    var l := Quotient(c, d, n);
    assert a * c == (b + n * k) * (d + n * l) == b * d + n * (b * l + k * d + k * (n * l));
    CongruentBy(a * c, b * d, n, b * l + k * d + k * (n * l));
  }

  lemma Negation(a: int, b: int, n: int)
    requires Congruent(a, b, n)
    ensures Congruent(-a, -b, n)
  {
    var k := Quotient(a, b, n);
    CongruentBy(-a, -b, n, -k);
  }

  /** Small representatives are unique. */
  lemma SmallEqual(a: int, b: int, n: int)
    requires 0 <= a < n && 0 <= b < n && Congruent(a, b, n)
    ensures a == b
  {
    var k := Quotient(a, b, n);
    assert a == n * k + b;
    DivisionIsUnique(a, n, k, b);
    DivisionIsUnique(a, n, 0, a);
  }

  lemma SameRemainder(a: int, b: int, n: int)
    requires n > 0
    ensures a % n == b % n <==> Congruent(a, b, n)
  {
    ModIsCongruent(a, n);
    ModIsCongruent(b, n);
    Symmetric(a % n, a, n);
    Symmetric(b % n, b, n);
    if a % n == b % n {
      Transitive(a, a % n, b, n);
    } else if Congruent(a, b, n) {
      Transitive(a % n, a, b, n);
      Transitive(a % n, b, b % n, n);
      SmallEqual(a % n, b % n, n);
    }
  }
}
