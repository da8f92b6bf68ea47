/** Products, quotients and the single wrap of a rotation. */
module Arithmetic {

  /** x modulo n, for the one wrap a rotation can make. */
  function Wrap(n: nat, x: nat): (r: nat)
    requires x < 2 * n
    ensures r < n
  {
    if x < n then x else x - n
  }

  lemma {:induction false} WrapIsModulo(n: nat, x: nat)
    requires x < 2 * n
    ensures x % n == Wrap(n, x)
  {
    if x >= n {
      assert (n + (x - n)) % n == (x - n) % n;
    }
  }

  lemma {:induction false} MulMonotone(a: nat, b: nat, d: nat)
    requires a <= b
    ensures a * d <= b * d
  {
    assert (b - a) * d >= 0;
  }

  lemma {:induction false} AtLeastQuotient(y: nat, d: nat, q: nat)
    requires d >= 1
    ensures q <= y / d <==> q * d <= y
  {
    var p := y / d;
    assert p * d <= y < p * d + d;
    if q <= p {
      MulMonotone(q, p, d);
    } else {
      MulMonotone(p + 1, q, d);
    }
  }

  lemma {:induction false} QuotientIs(y: nat, d: nat, q: nat)
    requires d >= 1 && q * d <= y < q * d + d
    ensures y / d == q && y % d == y - q * d
  {
    AtLeastQuotient(y, d, q);
    AtLeastQuotient(y, d, q + 1);
    assert (q + 1) * d == q * d + d;
    assert y == y / d * d + y % d;
  }
}
