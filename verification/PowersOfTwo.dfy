/** Powers of two and the floor logarithm that every size computation of CACTI goes through. */
module PowersOfTwo {
  import opened Arithmetic

  datatype Option<+T> = None | Some(value: T)

  function Pow2(n: nat): (p: nat)
    ensures p >= 1
  {
    if n == 0 then 1 else 2 * Pow2(n - 1)
  }

  ghost predicate IsPowerOfTwo(v: int) {
    exists k: nat :: v == Pow2(k)
  }

  lemma {:induction false} Pow2Monotone(m: nat, n: nat)
    ensures m <= n ==> Pow2(m) <= Pow2(n)
    ensures m < n ==> 2 * Pow2(m) <= Pow2(n)
    decreases n
  {
    if m < n {
      Pow2Monotone(m, n - 1);
    }
  }

  lemma {:induction false} Pow2Add(m: nat, n: nat)
    ensures Pow2(m + n) == Pow2(m) * Pow2(n)
    decreases n
  {
    if n > 0 {
      Pow2Add(m, n - 1);
      MulAssociates(2, Pow2(m), Pow2(n - 1));
      MulCommutes(2, Pow2(m));
      MulAssociates(Pow2(m), 2, Pow2(n - 1));
    }
  }

  /** The largest k with 2^k <= n. */
  function FloorLog2(n: nat): (k: nat)
    requires n > 0
    ensures Pow2(k) <= n < Pow2(k + 1)
  {
    if n == 1 then 0 else 1 + FloorLog2(n / 2)
  }

  lemma FloorLog2Unique(n: nat, k: nat)
    requires Pow2(k) <= n < Pow2(k + 1)
    ensures FloorLog2(n) == k
  {
    var j := FloorLog2(n);
    Pow2Monotone(j + 1, k);
    Pow2Monotone(k + 1, j);
  }

  lemma FloorLog2OfPow2(k: nat)
    ensures FloorLog2(Pow2(k)) == k
  {
    FloorLog2Unique(Pow2(k), k);
  }

  lemma PowerOfTwoDouble(h: nat)
    requires IsPowerOfTwo(h)
    ensures IsPowerOfTwo(2 * h)
  {
    var k: nat :| h == Pow2(k);
    assert 2 * h == Pow2(k + 1);
  }

  /** Both factors of a power of two are powers of two. */
  lemma {:induction false} FactorsOfPow2(a: nat, b: nat, t: nat)
    requires a * b == Pow2(t)
    ensures IsPowerOfTwo(a) && IsPowerOfTwo(b)
    decreases t
  {
    if t == 0 {
      PositiveProduct(a, b);
      FactorAtMost(a, b);
      FactorAtMost(b, a);
      MulCommutes(a, b);
      assert a == Pow2(0) && b == Pow2(0);
    } else if a % 2 == 0 {
      HalfProduct(a, b);
      FactorsOfPow2(a / 2, b, t - 1);
      PowerOfTwoDouble(a / 2);
    } else {
      OddProduct(a, b);
      MulCommutes(a, b);
      HalfProduct(b, a);
      FactorsOfPow2(b / 2, a, t - 1);
      PowerOfTwoDouble(b / 2);
    }
  }

  lemma HalfProduct(a: nat, b: nat)
    requires a % 2 == 0
    ensures 2 * ((a / 2) * b) == a * b
  {
    MulAssociates(2, a / 2, b);
  }

  lemma OddProduct(a: nat, b: nat)
    requires a % 2 == 1
    ensures (a * b) % 2 == b % 2
  {
    var x := a / 2;
    assert a * b == (2 * x + 1) * b == 2 * (x * b) + b;
  }
}
