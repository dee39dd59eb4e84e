/** Remainders and multiples, for counters that wrap, rings that go round, and blocks that lie one behind the other. */
module Modular {

  lemma MultiplesApart(a: int, b: int, m: nat)
    requires a < b
    ensures a * m + m <= b * m
  {
    assert b * m == a * m + (b - a) * m;
    assert (b - a) * m == m + (b - a - 1) * m;
    NonNegativeProduct(b - a - 1, m);
  }

  lemma NonNegativeProduct(a: nat, m: nat)
    ensures 0 <= a * m
  {
  }

  /** Quotient and remainder are determined by the division equation. */
  lemma DivisionUnique(x: int, q: int, r: int, m: nat)
    requires 0 <= r < m && x == q * m + r
    ensures x / m == q && x % m == r
  {
    var q', r' := x / m, x % m;
    assert x == q' * m + r';
    if q' < q {
      MultiplesApart(q', q, m);
    } else if q < q' {
      MultiplesApart(q, q', m);
    }
  }

  lemma NextRemainder(x: int, m: nat)
    requires m > 0
    ensures (x + 1) % m == if x % m == m - 1 then 0 else x % m + 1
  {
    var q, r := x / m, x % m;
    assert x == q * m + r;
    if r == m - 1 {
      assert x + 1 == (q + 1) * m + 0;
      DivisionUnique(x + 1, q + 1, 0, m);
    } else {
      DivisionUnique(x + 1, q, r + 1, m);
    }
  }

  lemma AddMultiple(x: int, k: int, m: nat)
    requires m > 0
    ensures (x + k * m) % m == x % m
  {
    assert x + k * m == (x / m + k) * m + x % m;
    DivisionUnique(x + k * m, x / m + k, x % m, m);
  }

  /** Numbers less than m apart have different remainders unless they are equal. */
  lemma CloseRemaindersDiffer(x: int, y: int, m: nat)
    requires m > 0 && x < y < x + m
    ensures x % m != y % m
  {
    if x % m == y % m {
      assert y - x == (y / m - x / m) * m;
      if y / m > x / m {
        MultiplesApart(0, y / m - x / m, m);
      } else if y / m < x / m {
        MultiplesApart(y / m - x / m, 0, m);
      }
    }
  }

  /** The difference of two wrapped counters is the wrapped difference of the counters. */
  lemma WrappedDifference(x: int, y: int, m: nat)
    requires m > 0
    ensures (x % m - y % m) % m == (x - y) % m
  {
    assert x % m - y % m == (x - y) + (y / m - x / m) * m;
    AddMultiple(x - y, y / m - x / m, m);
  }

  lemma RemainderOfRemainder(x: int, m: nat, k: nat)
    requires m > 0 && k > 0
    ensures (x % (k * m)) % m == x % m
  {
    NonNegativeProduct(k - 1, m);
    assert k * m == (k - 1) * m + m;
    var q := x / (k * m);
    assert x % (k * m) == x - q * (k * m);
    assert q * (k * m) == (q * k) * m;
    AddMultiple(x, -(q * k), m);
    assert x + -(q * k) * m == x - (q * k) * m;
  }

  /** Where a pointer stands that went k steps round a ring of m places. */
  function Position(k: nat, m: nat): (p: nat)
    requires m > 0
    ensures p < m
  {
    if k == 0 then 0
    else var p := Position(k - 1, m); if p == m - 1 then 0 else p + 1
  }

  lemma {:induction false} PositionIsRemainder(k: nat, m: nat)
    requires m > 0
    ensures Position(k, m) == k % m
  {
    if k > 0 {
      PositionIsRemainder(k - 1, m);
      NextRemainder(k - 1, m);
    }
  }

  /** k times n; the size of k pieces of n bytes. */
  function Span(k: nat, n: nat): nat {
    if k == 0 then 0 else Span(k - 1, n) + n
  }

  lemma {:induction false} SpanIsProduct(k: nat, n: nat)
    ensures Span(k, n) == k * n
  {
    if k > 0 {
      SpanIsProduct(k - 1, n);
    }
  }

  lemma {:induction false} SpanMonotone(j: nat, k: nat, n: nat)
    requires j <= k
    ensures Span(j, n) <= Span(k, n) && (j < k ==> Span(j, n) + n <= Span(k, n))
  {
    if j < k {
      SpanMonotone(j, k - 1, n);
    }
  }

  lemma {:induction false} SpanAdds(j: nat, k: nat, n: nat)
    ensures Span(j + k, n) == Span(j, n) + Span(k, n)
  {
    if k > 0 {
      SpanAdds(j, k - 1, n);
    }
  }

  /** n / d is below b exactly when n is below d * b. */
  lemma QuotientBelow(n: nat, d: nat, b: nat)
    requires d > 0
    ensures n / d < b <==> n < d * b
  {
    var q, r := n / d, n % d;
    assert n == d * q + r;
    if q < b {
      Multiples(q, b, d);
    } else {
      Multiples(b, q + 1, d);
    }
  }

  lemma Multiples(a: nat, b: nat, d: nat)
    requires a < b
    ensures d * a + d <= d * b
  {
    assert d * b == d * a + d * (b - a);
    assert d * (b - a) == d + d * (b - a - 1);
  }
}
