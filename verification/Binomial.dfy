/** Binomial coefficients by Pascal's recurrence, and the row sums the leakage models need. */
module Binomial {

  function Binom(n: nat, k: nat): nat {
    if k == 0 then 1 else if n == 0 then 0 else Binom(n - 1, k - 1) + Binom(n - 1, k)
  }

  function Fact(n: nat): (f: nat)
    ensures f >= 1
  {
    if n == 0 then 1 else n * Fact(n - 1)
  }

  lemma {:induction false} BinomBeyondRow(n: nat, k: nat)
    requires n < k
    ensures Binom(n, k) == 0
    decreases n
  {
    if n > 0 {
      BinomBeyondRow(n - 1, k - 1);
      BinomBeyondRow(n - 1, k);
    }
  }

  lemma {:induction false} BinomDiagonal(n: nat)
    ensures Binom(n, n) == 1
  {
    if n > 0 {
      BinomDiagonal(n - 1);
      BinomBeyondRow(n - 1, n);
    }
  }

  lemma AbsorbStep(n: int, k: int, a: int, b: int, c: int, d: int)
    requires a == c + d && (k - 1) * a == (n - 1) * c && k * b == (n - 1) * d
    ensures k * (a + b) == n * a
  {
    assert (n - 1) * a == (n - 1) * c + (n - 1) * d;
    assert k * (a + b) == (k - 1) * a + a + k * b;
  }

  lemma AbsorbOther(n: int, k: int, a: int, b: int)
    requires k * (a + b) == n * a
    ensures (n - k) * (a + b) == n * b
  {
    assert (n - k) * (a + b) == n * (a + b) - k * (a + b);
    assert n * (a + b) == n * a + n * b;
  }

  /** k * C(n, k) == n * C(n-1, k-1) and (n-k) * C(n, k) == n * C(n-1, k). */
  lemma {:induction false} Absorption(n: nat, k: nat)
    requires n >= 1
    ensures k >= 1 ==> k * Binom(n, k) == n * Binom(n - 1, k - 1)
    ensures (n - k) * Binom(n, k) == n * Binom(n - 1, k)
    decreases n
  {
    if k >= 1 {
      var a, b := Binom(n - 1, k - 1), Binom(n - 1, k);
      if n >= 2 {
        Absorption(n - 1, k);
        if k >= 2 {
          Absorption(n - 1, k - 1);
          AbsorbStep(n, k, a, b, Binom(n - 2, k - 2), Binom(n - 2, k - 1));
        } else {
          AbsorbStep(n, k, a, b, 0, 1);
        }
      } else {
        BinomBeyondRow(0, k);
        if k >= 2 {
          BinomBeyondRow(0, k - 1);
        }
      }
      AbsorbOther(n, k, a, b);
    }
  }

  function RealPow(x: real, n: nat): real {
    if n == 0 then 1.0 else x * RealPow(x, n - 1)
  }

  /** Sum of x^k * C(n, k) for k = 0 .. j. */
  ghost function RowSum(n: nat, j: nat, x: real): real {
    (if j == 0 then 0.0 else RowSum(n, j - 1, x)) + RealPow(x, j) * Binom(n, j) as real
  }

  lemma RowSumTerm(x: real, p: real, xp: real, a: real, b: real, ab: real,
                   r: real, s: real, t: real, r0: real, t0: real)
    requires xp == x * p && ab == a + b && r0 == t + x * t0
    requires t == t0 + p * a && s == t + xp * b && r == r0 + xp * ab
    ensures r == s + x * t
  {
    assert xp * ab == xp * b + xp * a;
    assert x * t == x * t0 + x * (p * a);
    assert xp * a == x * (p * a);
  }

  lemma RowSumLast(n: nat, j: nat, x: real, r: real, p: real, b: real)
    requires j >= 1 && r == RowSum(n, j - 1, x) && p == RealPow(x, j) && b == Binom(n, j) as real
    ensures RowSum(n, j, x) == r + p * b
  {}

  lemma {:induction false} RowSumStep(n: nat, j: nat, x: real, r: real, s: real, t: real)
    requires n >= 1
    requires r == RowSum(n, j, x) && s == RowSum(n - 1, j, x)
    requires t == if j == 0 then 0.0 else RowSum(n - 1, j - 1, x)
    ensures r == s + x * t
    decreases j
  {
    if j > 0 {
      var r0, t0 := RowSum(n, j - 1, x), if j == 1 then 0.0 else RowSum(n - 1, j - 2, x);
      RowSumStep(n, j - 1, x, r0, t, t0);
      var p, xp := RealPow(x, j - 1), RealPow(x, j);
      var a, b, ab := Binom(n - 1, j - 1) as real, Binom(n - 1, j) as real, Binom(n, j) as real;
      RowSumLast(n, j, x, r0, xp, ab);
      RowSumLast(n - 1, j, x, t, xp, b);
      if j >= 2 {
        RowSumLast(n - 1, j - 1, x, t0, p, a);
      }
      RowSumTerm(x, p, xp, a, b, ab, r, s, t, r0, t0);
    }
  }

  lemma NextPower(x: real, r: real, s: real, t: real, next: real, p: real)
    requires s == r + p * 0.0 && t == s + x * r && next == (1.0 + x) * r
    ensures t == next
  {}

  /** The binomial theorem for (1 + x)^n. */
  lemma {:induction false} BinomialTheorem(n: nat, x: real)
    ensures RowSum(n, n, x) == RealPow(1.0 + x, n)
  {
    if n > 0 {
      BinomialTheorem(n - 1, x);
      var r := RowSum(n - 1, n - 1, x);
      RowSumStep(n, n, x, RowSum(n, n, x), RowSum(n - 1, n, x), r);
      BinomBeyondRow(n - 1, n);
      RowSumLast(n - 1, n, x, r, RealPow(x, n), 0.0);
      NextPower(x, r, RowSum(n - 1, n, x), RowSum(n, n, x), RealPow(1.0 + x, n), RealPow(x, n));
    }
  }
}
