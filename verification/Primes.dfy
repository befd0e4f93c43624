/**
 The prime search that sizes the hashed n-gram tables.
 */
module Primes {
  import opened Arithmetic

  ghost predicate Product(n: nat, d: nat, k: nat) {
    n == d * k
  }

  ghost predicate Divides(d: nat, n: nat) {
    exists k: nat :: Product(n, d, k)
  }

  /** The test the code makes. */
  lemma RemainderDecides(d: nat, n: nat)
    requires d > 0
    ensures n % d == 0 <==> Divides(d, n)
  {
    var q, r := n / d, n % d;
    assert n == d * q + r;
    if r == 0 {
      assert Product(n, d, q);
    }
    if k: nat :| Product(n, d, k) {
      UniqueRemainder(d, k, 0, q, r);
    }
  }

  ghost predicate Prime(n: int) {
    n >= 2 && forall d: nat :: 2 <= d < n ==> !Divides(d, n)
  }

  /** `math.isqrt`. */
  function Isqrt(n: nat): (r: nat)
    ensures r * r <= n < (r + 1) * (r + 1)
  {
    if n == 0 then 0
    else
      var r := Isqrt(n - 1);
      if (r + 1) * (r + 1) <= n then r + 1 else r
  }

  /** A composite number has a divisor no larger than its root. */
  lemma SmallDivisor(n: nat, root: nat)
    requires n >= 2 && n < (root + 1) * (root + 1)
    ensures Prime(n) <==> forall d: nat :: 2 <= d <= root && d < n ==> !Divides(d, n)
  {
    if d: nat :| root < d < n && 2 <= d && Divides(d, n) {
      var c: nat :| Product(n, d, c);
      Cofactor(n, d, c, root);
      assert Product(n, c, d) && Divides(c, n);
    }
  }

  lemma Cofactor(n: nat, d: nat, c: nat, root: nat)
    requires n == d * c && 2 <= d < n && root < d && n < (root + 1) * (root + 1)
    ensures 2 <= c <= root && c < n
  {
    if c <= 1 {
      MulMonotone(d, c, 1);
    }
    if c > root {
      MulMonotone(d, root + 1, c);
      MulMonotone(root + 1, root + 1, d);
    }
    MulMonotone(c, 2, d);
  }

  /** Trial division by two and the odd numbers up to the root decides primality. */
  method IsPrime(value: int) returns (prime: bool)
    ensures prime <==> Prime(value)
  {
    if value < 2 {
      return false;
    }
    RemainderDecides(2, value);
    if value % 2 == 0 {
      return value == 2;
    }
    var root := Isqrt(value);
    var d := 3;
    while d < root + 1
      invariant d >= 3 && d % 2 == 1
      invariant forall c: nat :: 2 <= c < d ==> !Divides(c, value)
    {
      RemainderDecides(d, value);
      if value % d == 0 {
        RootBelow(value, root, d);
        return false;
      }
      if Divides(d + 1, value) {
        EvenDivisor(d + 1, value);
      }
      d := d + 2;
    }
    SmallDivisor(value, root);
    return true;
  }

  lemma RootBelow(n: nat, root: nat, d: nat)
    requires root * root <= n && 2 <= d <= root
    ensures d < n
  {
    MulMonotone(root, 2, root);
  }

  lemma EvenDivisor(c: nat, n: nat)
    requires c % 2 == 0 && Divides(c, n)
    ensures Divides(2, n)
  {
    var k: nat :| Product(n, c, k);
    MulAssociates(2, c / 2, k);
    assert Product(n, 2, c / 2 * k);
  }

  /******* Euclid: the search always ends *******/

  function Factorial(n: nat): (f: nat)
    ensures f >= 1
  {
    if n == 0 then 1
    else
      var f := Factorial(n - 1);
      assert n * f >= 1;
      n * f
  }

  lemma {:induction false} FactorialDivisible(n: nat, d: nat)
    requires 1 <= d <= n
    ensures Divides(d, Factorial(n))
  {
    var f := Factorial(n - 1);
    if d == n {
      assert Product(Factorial(n), d, f);
    } else {
      FactorialDivisible(n - 1, d);
      var k: nat :| Product(f, d, k);
      MulAssociates(d, k, n);
      assert Product(Factorial(n), d, k * n);
    }
  }

  lemma DividesTransitive(a: nat, b: nat, c: nat)
    requires Divides(a, b) && Divides(b, c)
    ensures Divides(a, c)
  {
    var j: nat :| Product(b, a, j);
    var k: nat :| Product(c, b, k);
    MulAssociates(a, j, k);
    assert Product(c, a, j * k);
  }

  lemma {:induction false} HasPrimeDivisor(n: nat)
    requires n >= 2
    ensures exists p: nat :: 2 <= p <= n && Prime(p) && Divides(p, n)
  {
    if Prime(n) {
      assert Product(n, n, 1);
    } else {
      var d: nat :| 2 <= d < n && Divides(d, n);
      HasPrimeDivisor(d);
      var p: nat :| 2 <= p <= d && Prime(p) && Divides(p, d);
      DividesTransitive(p, d, n);
    }
  }

  lemma PrimeAbove(n: nat)
    ensures exists p: nat :: n < p <= Factorial(n) + 1 && Prime(p)
  {
    var f := Factorial(n);
    HasPrimeDivisor(f + 1);
    var p: nat :| 2 <= p <= f + 1 && Prime(p) && Divides(p, f + 1);
    if p <= n {
      FactorialDivisible(n, p);
      var j: nat :| Product(f + 1, p, j);
      var k: nat :| Product(f, p, k);
      UniqueRemainder(p, j, 0, k, 1);
    }
  }

  /** How many primes there are in `(start, stop]`. */
  ghost function PrimesIn(start: int, stop: int): (n: nat)
    decreases stop - start
  {
    if stop <= start then 0 else PrimesIn(start, stop - 1) + if Prime(stop) then 1 else 0
  }

  /** `p` is the `count`-th prime after `start`. */
  ghost predicate NthPrimeAfter(start: int, count: nat, p: int) {
    start <= p && PrimesIn(start, p) == count && (if count == 0 then p == start else Prime(p))
  }

  lemma {:induction false} PrimesInGrows(start: int, a: int, b: int)
    requires a <= b
    ensures PrimesIn(start, a) <= PrimesIn(start, b)
    ensures a < b && start < b && Prime(b) ==> PrimesIn(start, a) < PrimesIn(start, b)
    decreases b - a
  {
    if a < b {
      PrimesInGrows(start, a, b - 1);
    }
  }

  /** The n-th prime after a start is unique, and grows strictly with n. */
  lemma NthPrimeIncreases(start: int, m: nat, n: nat, p: int, q: int)
    requires NthPrimeAfter(start, m, p) && NthPrimeAfter(start, n, q)
    ensures p < q <==> m < n
    ensures p == q <==> m == n
  {
    if p < q {
      PrimesInGrows(start, p, q);
      assert n > 0;
    } else if q < p {
      PrimesInGrows(start, q, p);
      assert m > 0;
    }
  }

  lemma {:induction false} NoPrimesIn(start: int, a: int, b: int)
    requires a <= b && forall x :: a < x <= b ==> !Prime(x)
    ensures PrimesIn(start, a) == PrimesIn(start, b)
    decreases b - a
  {
    if a < b {
      NoPrimesIn(start, a, b - 1);
    }
  }

  /** The search ends for every start and count, at the prime it is named for. */
  method FindNthPrimeAfter(start: int, count: nat) returns (p: int)
    ensures NthPrimeAfter(start, count, p)
  {
    p := start;
    var i := 0;
    while i < count
      invariant 0 <= i <= count && NthPrimeAfter(start, i, p)
    {
      ghost var from := p;
      p := p + 1;
      var prime := IsPrime(p);
      var base: nat := if from < 0 then 0 else from;
      PrimeAbove(base);
      ghost var bound: nat :| base < bound && Prime(bound);
      while !prime
        invariant from < p <= bound && (prime <==> Prime(p))
        invariant forall x :: from < x < p ==> !Prime(x)
        decreases bound - p
      {
        p := p + 1;
        prime := IsPrime(p);
      }
      NoPrimesIn(start, from, p - 1);
      i := i + 1;
    }
  }
}
