/**
 Products and quotients. Byte offsets use multiplication as repeated addition and
 division as repeated subtraction, so that reasoning about them stays linear.
 */
module Arithmetic {

  lemma MulMonotone(d: nat, x: int, y: int)
    requires x <= y
    ensures d * x <= d * y
  {
  }

  lemma MulAssociates(a: nat, b: nat, c: nat)
    ensures a * b * c == a * (b * c)
  {
  }

  lemma MulSuccessor(d: nat, x: int)
    ensures d * (x + 1) == d * x + d
  {
  }

  /** Quotient and remainder are the only way to write a number. */
  lemma UniqueRemainder(m: nat, q: int, r: nat, q': int, r': nat)
    requires m > 0 && r < m && r' < m && m * q + r == m * q' + r'
    ensures q == q' && r == r'
  {
    if q' < q {
      MulMonotone(m, q' + 1, q);
      MulSuccessor(m, q');
    } else if q < q' {
      MulMonotone(m, q + 1, q');
      MulSuccessor(m, q);
    }
  }

  function Mul(n: nat, width: nat): nat {
    if n == 0 then 0 else Mul(n - 1, width) + width
  }

  /** It is the product. */
  lemma {:induction false} MulIsProduct(n: nat, width: nat)
    ensures Mul(n, width) == n * width
  {
    if n > 0 {
      MulIsProduct(n - 1, width);
    }
  }

  lemma {:induction false} MulAdds(m: nat, n: nat, width: nat)
    ensures Mul(m + n, width) == Mul(m, width) + Mul(n, width)
  {
    if n > 0 {
      MulAdds(m, n - 1, width);
    }
  }

  /** Slots of one width do not overlap. */
  lemma SlotsDisjoint(m: nat, n: nat, width: nat)
    requires m < n
    ensures Mul(m, width) + width <= Mul(n, width)
  {
    MulAdds(m + 1, n - m - 1, width);
  }

  lemma SlotsMonotone(m: nat, n: nat, width: nat)
    requires m <= n
    ensures Mul(m, width) <= Mul(n, width)
  {
    MulAdds(m, n - m, width);
  }

  /** Quotient and remainder, likewise. */
  function Quot(n: nat, d: nat): nat
    requires d > 0
  {
    if n < d then 0 else 1 + Quot(n - d, d)
  }

  function Rem(n: nat, d: nat): nat
    requires d > 0
  {
    if n < d then n else Rem(n - d, d)
  }

  lemma {:induction false} QuotRemDivide(n: nat, d: nat)
    requires d > 0
    ensures n == Mul(Quot(n, d), d) + Rem(n, d) && Rem(n, d) < d
    ensures Quot(n, d) == n / d && Rem(n, d) == n % d
  {
    if n >= d {
      QuotRemDivide(n - d, d);
      OneMore(n - d, d);
    }
  }

  lemma OneMore(n: nat, d: nat)
    requires d > 0
    ensures (n + d) / d == n / d + 1 && (n + d) % d == n % d
  {
    var q, r := n / d, n % d;
    assert n + d == d * (q + 1) + r;
    UniqueDivision(n + d, d, q + 1, r);
  }

  lemma UniqueDivision(n: nat, d: nat, q: nat, r: nat)
    requires d > 0 && r < d && n == d * q + r
    ensures n / d == q && n % d == r
  {
    UniqueRemainder(d, n / d, n % d, q, r);
  }
}
