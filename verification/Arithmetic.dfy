/** Small facts about products and quotients, each stated once so that no larger proof multiplies variables. */
module Arithmetic {

  lemma MulOrder(a: int, b: int, c: int)
    requires c >= 0
    ensures a <= b ==> a * c <= b * c
  {
    if a <= b {
      assert (b - a) * c >= 0;
    }
  }

  lemma MulCommutes(a: int, b: int)
    ensures a * b == b * a
  {}

  lemma MulAssociates(a: int, b: int, c: int)
    ensures (a * b) * c == a * (b * c)
  {}

  lemma QuotientUnique(x: nat, f: nat, q: nat)
    requires f > 0 && q * f <= x < q * f + f
    ensures x / f == q
  {
    var d := x / f;
    assert d * f <= x < d * f + f;
    MulOrder(d + 1, q, f);
    MulOrder(q + 1, d, f);
  }

  lemma QuotientBounds(x: nat, f: nat)
    requires f > 0
    ensures (x / f) * f <= x < (x / f) * f + f
  {}

  lemma ExactQuotient(q: nat, f: nat)
    requires f > 0
    ensures (q * f) / f == q
  {
    QuotientUnique(q * f, f, q);
  }

  lemma PositiveProduct(a: nat, b: nat)
    ensures a * b > 0 <==> a > 0 && b > 0
  {
    MulOrder(1, a, b);
  }

  lemma FactorAtMost(a: nat, b: nat)
    requires b >= 1
    ensures a <= a * b
  {
    MulOrder(1, b, a);
  }

  lemma CastProduct(a: int, b: int)
    ensures (a * b) as real == a as real * b as real
  {}
}
