/** The leakage of a stack of transistors in basic_circuit.cc: loops over binomial coefficients. */
module Leakage {
  import opened Arithmetic
  import opened BasicCircuit
  import opened Binomial
  import opened PowersOfTwo

  const UNI_LEAK_STACK_FACTOR := 0.43

  /** Sum of C(n, k) for k = 0 .. j. */
  ghost function RowCount(n: nat, j: nat): nat {
    (if j == 0 then 0 else RowCount(n, j - 1)) + Binom(n, j)
  }

  lemma {:induction false} RowCountStep(n: nat, j: nat)
    requires n >= 1
    ensures RowCount(n, j) == RowCount(n - 1, j) + (if j == 0 then 0 else RowCount(n - 1, j - 1))
    decreases j
  {
    if j > 0 {
      RowCountStep(n, j - 1);
    }
  }

  lemma {:induction false} RowCountFull(n: nat)
    ensures RowCount(n, n) == Pow2(n)
  {
    if n > 0 {
      RowCountFull(n - 1);
      RowCountStep(n, n);
      BinomBeyondRow(n - 1, n);
    }
  }

  /** Sum of k * C(n, k) for k = 1 .. j. */
  ghost function OnSum(n: nat, j: nat): nat {
    if j == 0 then 0 else OnSum(n, j - 1) + j * Binom(n, j)
  }

  lemma AddScaled(n: int, o0: int, t: int, o: int, s0: int, b: int, s: int)
    requires o0 == n * s0 && t == n * b && o == o0 + t && s == s0 + b
    ensures o == n * s
  {}

  lemma {:induction false} OnSumClosed(n: nat, j: nat, o: nat, s: nat)
    requires n >= 1 && j >= 1 && o == OnSum(n, j) && s == RowCount(n - 1, j - 1)
    ensures o == n * s
    decreases j
  {
    var b, t := Binom(n - 1, j - 1), j * Binom(n, j);
    var o0, s0 := OnSum(n, j - 1), if j == 1 then 0 else RowCount(n - 1, j - 2);
    Absorption(n, j);
    if j > 1 {
      OnSumClosed(n, j - 1, o0, s0);
    }
    AddScaled(n, o0, t, o, s0, b, s);
  }

  /** Sum of k * C(n, k) over k < n: n * 2^(n-1) without its last term n. */
  lemma OnSumBelowDiagonal(n: nat, p: nat, o: nat)
    requires n >= 1 && p == Pow2(n - 1) && o == OnSum(n, n - 1)
    ensures o as real == n as real * p as real - n as real
  {
    RowCountFull(n - 1);
    BinomDiagonal(n);
    OnSumClosed(n, n, o + n, p);
    CastProduct(n, p);
  }

  lemma Distribute(n: real, a: real, b: real, c: real)
    requires c == a + b
    ensures n * c == n * a + n * b
  {}

  lemma ScaledTerm(leak: real, share: real, s: real, k: real, c: real, t: real,
                   start: real, before: real, after: real, next: real)
    requires t == k * c && next == s + t
    requires before == start + share * (leak * s) && after == before + share * (leak * c * k)
    ensures after == start + share * (leak * next)
  {
    Distribute(leak, s, t, next);
    assert leak * t == leak * c * k;
    Distribute(share, leak * s, leak * t, leak * next);
  }

  ghost predicate Accumulated(ig: real, start: real, share: real, leak: real, on: nat) {
    ig == start + share * (leak * on as real)
  }

  lemma NothingAccumulated(start: real, share: real, leak: real, on: nat)
    requires on == 0
    ensures Accumulated(start, start, share, leak, on)
  {}

  ghost predicate OnStep(n: nat, k: nat, sum: nat, next: nat) {
    next == sum + k * Binom(n, k)
  }

  /** The partial sums of k * C(n, k). */
  ghost predicate OnSums(n: nat, sums: seq<nat>) {
    |sums| == n && n >= 1 && sums[0] == 0 && forall k | 1 <= k < n :: OnStep(n, k, sums[k - 1], sums[k])
  }

  lemma {:induction false} OnSumsUpTo(n: nat, m: nat) returns (sums: seq<nat>)
    requires m < n
    ensures |sums| == m + 1 && sums[0] == 0 && sums[m] == OnSum(n, m)
    ensures forall k | 1 <= k <= m :: OnStep(n, k, sums[k - 1], sums[k])
  {
    if m == 0 {
      sums := [0];
    } else {
      var front := OnSumsUpTo(n, m - 1);
      sums := front + [OnSum(n, m)];
      assert OnStep(n, m, front[m - 1], OnSum(n, m));
    }
  }

  lemma OnTotal(n: nat, p: nat, on: nat) returns (sum: real)
    requires n >= 1 && p == Pow2(n - 1) && on == OnSum(n, n - 1)
    ensures sum == on as real && sum == n as real * p as real - n as real
  {
    OnSumBelowDiagonal(n, p, on);
    sum := on as real;
  }

  /** c states with k conducting transistors leak c * k times as much as one transistor. */
  method AddStates(leak: real, c: nat, k: nat, share: real, ghost start: real, ig: real, ghost sum: nat, ghost next: nat)
    returns (after: real)
    requires Accumulated(ig, start, share, leak, sum) && next == sum + k * c
    ensures Accumulated(after, start, share, leak, next)
  {
    after := ig + share * (leak * c as real * k as real);
    CastProduct(k, c);
    ScaledTerm(leak, share, sum as real, k as real, c as real, (next - sum) as real, start, ig, after, next as real);
  }

  /** The body of both gate-leakage loops: k of the transistors conduct. */
  method AddOnTerm(leak: real, n: nat, k: nat, share: real, ghost start: real, ig: real, ghost sum: nat, ghost next: nat)
    returns (after: real)
    requires 1 <= k < n && Accumulated(ig, start, share, leak, sum) && OnStep(n, k, sum, next)
    ensures Accumulated(after, start, share, leak, next)
  {
    var c := CoefficientOf(n, k);
    after := AddStates(leak, c, k, share, start, ig, sum, next);
  }

  /** Both loops, over the number of conducting transistors. */
  method AccumulateOnStates(leak: real, fanin: nat, start: real, share: real, ghost sums: seq<nat>) returns (ig: real)
    requires OnSums(fanin, sums)
    ensures Accumulated(ig, start, share, leak, sums[fanin - 1])
  {
    ig := start;
    var k := 1;
    NothingAccumulated(start, share, leak, sums[0]);
    while k < fanin
      invariant 1 <= k <= fanin
      invariant Accumulated(ig, start, share, leak, sums[k - 1])
    {
      ig := AddOnTerm(leak, fanin, k, share, start, ig, sums[k - 1], sums[k]);
      k := k + 1;
    }
  }

  lemma AccumulatedSum(ig: real, start: real, share: real, leak: real, on: nat, sum: real)
    requires Accumulated(ig, start, share, leak, on) && sum == on as real
    ensures ig == start + share * (leak * sum)
  {}

  /** The sum they accumulate. */
  method WeightedOnStates(leak: real, fanin: nat, start: real, share: real)
    returns (ig: real, ghost sum: real)
    requires fanin >= 1
    ensures sum == fanin as real * Pow2(fanin - 1) as real - fanin as real
    ensures ig == start + share * (leak * sum)
  {
    ghost var sums := OnSumsUpTo(fanin, fanin - 1);
    ig := AccumulateOnStates(leak, fanin, start, share, sums);
    sum := OnTotal(fanin, Pow2(fanin - 1), sums[fanin - 1]);
    AccumulatedSum(ig, start, share, leak, sums[fanin - 1], sum);
  }

  /** The series stack of `cmos_Ig_leakage`: one closed form for every fan-in, whichever branch
      computes it. */
  method SeriesGateLeakage(leak: real, fanin: nat) returns (ig: real)
    requires fanin >= 1
    ensures ig * Pow2(fanin + 1) as real == leak * (fanin as real * (1.0 + Pow2(fanin - 1) as real))
  {
    var n := fanin as real;
    var states := Pow2(fanin) as real;
    if fanin == 1 {
      ig := leak / states;
    } else {
      ghost var sum;
      ig, sum := WeightedOnStates(leak, fanin, leak * n, 0.5);
      ghost var p := Pow2(fanin - 1) as real;
      AverageOverStates(leak, n, p, sum, ig, n * (1.0 + p), states, Pow2(fanin + 1) as real);
      ig := ig / states;
    }
  }

  /** The parallel network: its loop includes the diagonal, where `combination` returns n + 1, and
      the sum is not divided by the number of states. */
  method ParallelGateLeakage(leak: real, fanin: nat) returns (ig: real)
    requires fanin >= 2
    ensures ig == leak * (fanin as real * (Pow2(fanin - 1) as real + fanin as real))
  {
    var n := fanin as real;
    ghost var sum;
    ig, sum := WeightedOnStates(leak, fanin, 0.0, 1.0);
    var c := Combination(fanin, fanin);
    ghost var p := Pow2(fanin - 1) as real;
    DiagonalTerm(leak, n, p, c as real, sum, n * (p + n));
    ig := ig + leak * c as real * n;
  }

  lemma DiagonalTerm(leak: real, n: real, p: real, c: real, sum: real, w: real)
    requires c == n + 1.0 && sum == n * p - n && w == n * (p + n)
    ensures leak * sum + leak * c * n == leak * w
  {
    assert w == sum + n * c;
    Distribute(leak, sum, n * c, w);
    assert leak * (n * c) == leak * c * n;
  }

  lemma AverageOverStates(leak: real, n: real, p: real, sum: real, ig: real, w: real, states: real, twice: real)
    requires states > 0.0 && twice == 2.0 * states
    requires ig == leak * n + 0.5 * (leak * sum) && sum == n * p - n && w == n * (1.0 + p)
    ensures (ig / states) * twice == leak * w
  {
    assert w == sum + n + n;
    assert leak * w == leak * sum + leak * n + leak * n;
    assert (ig / states) * states == ig;
  }

  /** The coefficient `combination` delivers: n + 1 on the diagonal. */
  function Coefficient(n: nat, k: nat): nat {
    if k < n then Binom(n, k) else n + 1
  }

  ghost predicate RowStep(n: nat, f: real, k: nat, row: real, next: real) {
    next == row + RealPow(f, k) * Coefficient(n, k) as real
  }

  /** The partial sums of the row with these coefficients. */
  ghost predicate PartialSums(n: nat, f: real, rows: seq<real>) {
    && |rows| == n + 1 && rows[0] == 1.0
    && forall k | 1 <= k <= n :: RowStep(n, f, k, rows[k - 1], rows[k])
  }

  /** The series branch of `cmos_Isub_leakage`. The binomial theorem gives the intended sum
      ((1+f)^n - 1)/f; the last term adds n * f^(n-1) because `combination(n, n)` is n + 1. */
  method SubthresholdStack(leak: real, fanin: nat) returns (isub: real)
    requires fanin >= 2
    ensures isub * Pow2(fanin) as real * 0.43
              == leak * (RealPow(1.43, fanin) - 1.0 + fanin as real * RealPow(0.43, fanin))
  {
    ghost var rows := RowSums(fanin, UNI_LEAK_STACK_FACTOR);
    var total := 0.0;
    var k := 1;
    while k <= fanin
      invariant 1 <= k <= fanin + 1
      invariant Stacked(total, leak, rows[k - 1])
    {
      total := AddStackTerm(leak, fanin, k, total, rows[k - 1], rows[k]);
      k := k + 1;
    }
    isub := total / Pow2(fanin) as real;
    StackEnds(leak, total, Pow2(fanin) as real, isub, rows[fanin],
              RealPow(1.0 + UNI_LEAK_STACK_FACTOR, fanin), fanin as real * RealPow(UNI_LEAK_STACK_FACTOR, fanin));
  }

  ghost predicate Stacked(total: real, leak: real, row: real) {
    total * UNI_LEAK_STACK_FACTOR == leak * (row - 1.0)
  }

  /** c states leak p times as much as one transistor each. */
  method AddPower(leak: real, c: nat, p: real, total: real, ghost fp: real, ghost row: real, ghost next: real)
    returns (after: real)
    requires Stacked(total, leak, row) && fp == UNI_LEAK_STACK_FACTOR * p && next == row + fp * c as real
    ensures Stacked(after, leak, next)
  {
    after := total + leak * p * c as real;
    StackTerm(total, leak, UNI_LEAK_STACK_FACTOR, p, fp, c as real, row, next);
  }

  /** What `combination` delivers, without the quotient behind it. */
  method CoefficientOf(n: nat, k: nat) returns (c: nat)
    requires k <= n
    ensures c == Coefficient(n, k)
  {
    c := Combination(n, k);
  }

  /** The body of the loop: k of the transistors are off. */
  method AddStackTerm(leak: real, n: nat, k: nat, total: real, ghost row: real, ghost next: real) returns (after: real)
    requires 1 <= k <= n && Stacked(total, leak, row) && RowStep(n, UNI_LEAK_STACK_FACTOR, k, row, next)
    ensures Stacked(after, leak, next)
  {
    var c := CoefficientOf(n, k);
    var p := RealPow(UNI_LEAK_STACK_FACTOR, k - 1);
    after := AddPower(leak, c, p, total, RealPow(UNI_LEAK_STACK_FACTOR, k), row, next);
  }

  lemma StackEnds(leak: real, total: real, states: real, isub: real, row: real, full: real, more: real)
    requires Stacked(total, leak, row) && row == full + more && states > 0.0 && isub == total / states
    ensures isub * states * UNI_LEAK_STACK_FACTOR == leak * (full - 1.0 + more)
  {
    DivideBack(total, states, UNI_LEAK_STACK_FACTOR);
  }

  lemma {:induction false} RowsUpTo(n: nat, f: real, m: nat) returns (rows: seq<real>)
    requires n >= 2 && m <= n
    ensures |rows| == m + 1 && rows[0] == 1.0 && rows[m] == OffSum(n, m, f)
    ensures forall k | 1 <= k <= m :: RowStep(n, f, k, rows[k - 1], rows[k])
    decreases m
  {
    if m == 0 {
      rows := [1.0];
    } else {
      var front := RowsUpTo(n, f, m - 1);
      var next := RowNext(n, f, m, front[m - 1], RealPow(f, m), Coefficient(n, m) as real);
      rows := front + [next];
    }
  }

  lemma RowNext(n: nat, f: real, m: nat, row: real, p: real, c: real) returns (next: real)
    requires n >= 2 && 1 <= m <= n && row == OffSum(n, m - 1, f) && p == RealPow(f, m) && c == Coefficient(n, m) as real
    ensures next == row + p * c && next == OffSum(n, m, f)
  {
    next := row + p * c;
    OffSumLast(n, m, f, row, p, c, next);
  }

  lemma RowSums(n: nat, f: real) returns (rows: seq<real>)
    requires n >= 2
    ensures PartialSums(n, f, rows) && rows[n] == RealPow(1.0 + f, n) + n as real * RealPow(f, n)
  {
    rows := RowsUpTo(n, f, n);
    OffSumClosed(n, f, RealPow(f, n), rows[n], RealPow(1.0 + f, n));
  }

  /** The row sum with the coefficients `combination` delivers: n + 1 on the diagonal. */
  ghost function OffSum(n: nat, j: nat, f: real): real
    requires n >= 2 && j <= n
  {
    if j == n then RowSum(n, n - 1, f) + RealPow(f, n) * (n as real + 1.0) else RowSum(n, j, f)
  }

  lemma DivideBack(x: real, states: real, f: real)
    requires states != 0.0
    ensures x / states * states * f == x * f
  {}

  lemma OffSumLast(n: nat, j: nat, f: real, r: real, p: real, c: real, next: real)
    requires n >= 2 && 1 <= j <= n && r == OffSum(n, j - 1, f) && p == RealPow(f, j)
    requires c == if j < n then Binom(n, j) as real else n as real + 1.0
    requires next == r + p * c
    ensures OffSum(n, j, f) == next
  {
    if j < n {
      RowSumLast(n, j, f, r, p, c);
    }
  }

  lemma RowDiagonal(n: nat, f: real, fp: real, r: real)
    requires n >= 1 && fp == RealPow(f, n) && r == RowSum(n, n - 1, f)
    ensures r + fp * 1.0 == RealPow(1.0 + f, n)
  {
    BinomialTheorem(n, f);
    BinomDiagonal(n);
    RowSumLast(n, n, f, r, fp, 1.0);
  }

  lemma OffSumClosed(n: nat, f: real, fp: real, row: real, full: real)
    requires n >= 2 && fp == RealPow(f, n) && row == OffSum(n, n, f) && full == RealPow(1.0 + f, n)
    ensures row == full + n as real * fp
  {
    var r := RowSum(n, n - 1, f);
    RowDiagonal(n, f, fp, r);
    ExtraDiagonal(n as real, fp, r, row, full);
  }

  lemma ExtraDiagonal(n: real, fp: real, r: real, row: real, full: real)
    requires full == r + fp * 1.0 && row == r + fp * (n + 1.0)
    ensures row == full + n * fp
  {}

  lemma StackTerm(isub: real, leak: real, f: real, p: real, fp: real, c: real, row: real, next: real)
    requires fp == f * p && isub * f == leak * (row - 1.0) && next == row + fp * c
    ensures (isub + leak * p * c) * f == leak * (next - 1.0)
  {
    assert leak * p * c * f == leak * (fp * c);
    Distribute(leak, row - 1.0, fp * c, next - 1.0);
  }
}
