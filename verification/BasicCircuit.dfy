/** The integer helpers of basic_circuit.cc and the leakage sums built on them. */
module BasicCircuit {
  import opened Arithmetic
  import opened PowersOfTwo
  import opened Binomial

  /** `_log2`; None is the process exit on zero. */
  method Log2(num: nat) returns (r: Option<nat>)
    ensures num == 0 ==> r == None
    ensures num > 0 ==> r == Some(FloorLog2(num))
  {
    if num == 0 {
      return None;
    }
    var n, log := num, 0;
    while n > 1
      invariant n >= 1
      invariant FloorLog2(num) == log + FloorLog2(n)
    {
      n := n / 2;
      log := log + 1;
    }
    return Some(log);
  }

  /** The floor logarithm moves between val-1 and val exactly at the powers of two. */
  lemma LogStepsAtPowers(val: nat)
    requires val >= 2
    ensures FloorLog2(val) != FloorLog2(val - 1) <==> IsPowerOfTwo(val)
  {
    var k := FloorLog2(val);
    if val != Pow2(k) {
      FloorLog2Unique(val - 1, k);
      forall j: nat
        ensures val == Pow2(j) ==> j == k
      {
        FloorLog2OfPow2(j);
      }
    }
  }

  /** `is_pow2`, on every signed argument. */
  method IsPow2(val: int) returns (b: bool)
    ensures b <==> IsPowerOfTwo(val)
  {
    if val <= 0 {
      return false;
    } else if val == 1 {
      assert val == Pow2(0);
      return true;
    } else {
      var hi := Log2(val);
      var lo := Log2(val - 1);
      LogStepsAtPowers(val);
      return hi != lo;
    }
  }

  // ----- factorial and combination -----

  /** m * (m+1) * ... * n, and m when that range is empty. */
  ghost function ProductFrom(n: int, m: int): int
    decreases n - m
  {
    if n <= m then m else ProductFrom(n - 1, m) * n
  }

  /** `factorial(n, m)`. */
  method Factorial(n: int, m: int) returns (fa: int)
    ensures fa == ProductFrom(n, m)
  {
    fa := m;
    var i := m + 1;
    while i <= n
      invariant m + 1 <= i
      invariant i <= n + 1 || i == m + 1
      invariant fa == ProductFrom(i - 1, m)
    {
      fa := fa * i;
      i := i + 1;
    }
    if n < m {
      assert ProductFrom(n, m) == m == ProductFrom(m, m);
    }
  }

  lemma {:induction false} ProductFromOne(n: nat)
    ensures ProductFrom(n, 1) == Fact(n)
  {
    if n >= 2 {
      ProductFromOne(n - 1);
    }
  }

  lemma ProductStep(n: int, b: int, b1: int, f: int, f1: int, d: int)
    requires f == d * f1 && d * b == n * b1
    ensures b * f == (b1 * f1) * n
  {
    assert b * f == (d * b) * f1;
    assert (n * b1) * f1 == (b1 * f1) * n;
  }

  lemma {:induction false} ProductIsBinomial(n: nat, m: nat)
    requires m < n
    ensures ProductFrom(n, m + 1) == Binom(n, m) * Fact(n - m)
    decreases n
  {
    Absorption(n, m);
    ProductStep(n, Binom(n, m), Binom(n - 1, m), Fact(n - m), Fact(n - m - 1), n - m);
    if m + 1 == n {
      BinomDiagonal(m);
    } else {
      ProductIsBinomial(n - 1, m);
    }
  }

  /** `combination(n, m)`: a quotient that never has a remainder, and the binomial coefficient
      exactly when m < n (or both are zero); on and above the diagonal it is m + 1. */
  method Combination(n: nat, m: nat) returns (ret: int)
    ensures m < n ==> ret == Binom(n, m)
    ensures m < n ==> ret * Fact(n - m) == ProductFrom(n, m + 1)
    ensures m >= n ==> ret == m + 1
    ensures ret == Binom(n, m) <==> m < n || (n == 0 && m == 0)
  {
    var top := Factorial(n, m + 1);
    var bottom := Factorial(n - m, 1);
    if m < n {
      ProductIsBinomial(n, m);
      ProductFromOne(n - m);
      ExactQuotient(Binom(n, m), Fact(n - m));
    } else if m == n {
      BinomDiagonal(n);
    } else {
      BinomBeyondRow(n, m);
    }
    ret := top / bottom;
  }
}
