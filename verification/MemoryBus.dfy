/** The tiling of banks into rows and columns in `Memorybus::Network`. */
module MemoryBus {
  import opened Arithmetic
  import opened BasicCircuit
  import opened PowersOfTwo

  lemma HalfLog(n: nat, half: nat)
    requires n >= 1 && half == (FloorLog2(n) + 1) / 2
    ensures Pow2(half) <= n
  {
    Pow2Monotone(half, FloorLog2(n));
  }

  lemma QuotientAtLeastOne(total: nat, hor: nat)
    requires 1 <= hor <= total
    ensures total / hor >= 1
  {
    QuotientBounds(total, hor);
    MulOrder(total / hor, 0, hor);
  }

  lemma QuotientOfPowers(k: nat, half: nat)
    requires half <= k
    ensures Pow2(k) / Pow2(half) == Pow2(k - half)
    ensures Pow2(half) * Pow2(k - half) == Pow2(k)
  {
    Pow2Add(half, k - half);
    MulCommutes(Pow2(half), Pow2(k - half));
    ExactQuotient(Pow2(k - half), Pow2(half));
  }

  lemma TilingBelow(total: nat, hor: nat, q: nat, ver: nat)
    requires hor >= 1 && q == total / hor && ver <= q
    ensures hor * ver <= total
  {
    QuotientBounds(total, hor);
    MulOrder(ver, q, hor);
    MulCommutes(hor, ver);
  }

  lemma TilingOfPower(t: nat, half: nat)
    requires Pow2(half) <= Pow2(t)
    ensures var q := Pow2(t) / Pow2(half); q >= 1 && Pow2(half) * Pow2(FloorLog2(q)) == Pow2(t)
  {
    Pow2Monotone(t + 1, half);
    Pow2Monotone(t, half);
    QuotientOfPowers(t, half);
    FloorLog2OfPow2(t - half);
  }

  /** Rounding down to powers of two loses banks unless the total is itself a power of two. */
  lemma TilingFits(total: nat, half: nat, q: nat, logq: nat)
    requires Pow2(half) <= total && q == total / Pow2(half) && q >= 1 && logq == FloorLog2(q)
    ensures Pow2(half) * Pow2(logq) <= total
    ensures Pow2(half) * Pow2(logq) == total <==> IsPowerOfTwo(total)
  {
    TilingBelow(total, Pow2(half), q, Pow2(logq));
    Pow2Add(half, logq);
    if IsPowerOfTwo(total) {
      var t: nat :| total == Pow2(t);
      TilingOfPower(t, half);
    }
  }

  /** Rounding down before and after dividing by a power of two is the same. */
  lemma LogOfQuotient(n: nat, k: nat, half: nat, p: nat, q: nat, low: nat)
    requires n >= 1 && k == FloorLog2(n) && half <= k
    requires p == Pow2(half) && q == n / p && low == Pow2(k - half)
    ensures q >= 1 && FloorLog2(q) == k - half
  {
    Pow2Add(half, k - half);
    Pow2Add(half, k + 1 - half);
    BetweenMultiples(n, p, q, low, 2 * low, Pow2(k), Pow2(k + 1));
    FloorLog2Unique(q, k - half);
  }

  lemma BetweenMultiples(n: nat, p: nat, q: nat, low: nat, high: nat, from: nat, to: nat)
    requires p >= 1 && q == n / p && from == p * low && to == p * high && from <= n < to
    ensures low <= q < high
  {
    QuotientBounds(n, p);
    MulCommutes(p, low);
    MulCommutes(p, high);
    MulOrder(q + 1, low, p);
    MulOrder(high, q, p);
  }

  lemma SingleTier(n: nat, half: nat, p: nat, q: nat)
    requires n >= 1 && half == (FloorLog2(n) + 1) / 2 && p == Pow2(half) && q == n / p
    ensures q >= 1 && Pow2(FloorLog2(q)) <= p <= 2 * Pow2(FloorLog2(q))
  {
    var k := FloorLog2(n);
    LogOfQuotient(n, k, half, p, q, Pow2(k - half));
    Pow2Monotone(k - half, half);
    Pow2Monotone(half, k - half + 1);
  }

  lemma HalfExponent(n: nat, half: nat, p: nat)
    requires n >= 1 && half == (FloorLog2(n) + 1) / 2 && p == Pow2(half)
    ensures p * p <= 2 * n < 4 * (p * p)
  {
    Pow2Add(half, half);
    var k := FloorLog2(n);
    assert half + half == k || half + half == k + 1;
  }

  lemma LargestBelow(total: nat, hor: nat, q: nat, ver: nat)
    requires hor >= 1 && q == total / hor && q < 2 * ver
    ensures total < 2 * (hor * ver)
  {
    QuotientBounds(total, hor);
    MulOrder(q + 1, 2 * ver, hor);
    MulAssociates(2, ver, hor);
    MulCommutes(ver, hor);
  }

  method Tile(n: nat, total: nat) returns (hor: nat, ver: nat)
    requires 1 <= n <= total
    ensures IsPowerOfTwo(hor) && IsPowerOfTwo(ver) && hor * ver <= total
    ensures hor * ver == total <==> IsPowerOfTwo(total)
    ensures hor * hor <= 2 * n < 4 * (hor * hor) && total < 2 * (hor * ver)
    ensures total == n ==> ver <= hor <= 2 * ver
  {
    var log := Log2(n);
    var half := (log.value + 1) / 2;
    hor := Pow2(half);
    HalfLog(n, half);
    HalfExponent(n, half, hor);
    var q := total / hor;
    QuotientAtLeastOne(total, hor);
    var logq := Log2(q);
    ver := Pow2(logq.value);
    TilingFits(total, half, q, logq.value);
    LargestBelow(total, hor, q, ver);
    if total == n {
      SingleTier(n, half, hor, q);
    }
  }

  /** The two bank counts. Their product never exceeds the number of banks to place, and equals it
      exactly when that number is a power of two; without column tiers the tiling is square or
      twice as wide as high. The bounds leave one power of two for each count. */
  method BankTiling(nbanks: nat, rowTiers: nat, colTiers: nat) returns (hor: nat, ver: nat)
    requires nbanks >= 1 && rowTiers >= 1 && colTiers >= 1
    ensures IsPowerOfTwo(hor) && IsPowerOfTwo(ver)
    ensures hor * ver <= nbanks * colTiers * rowTiers
    ensures hor * ver == nbanks * colTiers * rowTiers <==> IsPowerOfTwo(nbanks * colTiers * rowTiers)
    ensures hor * hor <= 2 * (nbanks * rowTiers) < 4 * (hor * hor) && nbanks * colTiers * rowTiers < 2 * (hor * ver)
    ensures colTiers == 1 ==> ver <= hor <= 2 * ver
  {
    var n, total := nbanks * rowTiers, nbanks * colTiers * rowTiers;
    TotalAtLeast(nbanks, colTiers, rowTiers);
    hor, ver := Tile(n, total);
  }

  lemma TotalAtLeast(a: nat, b: nat, c: nat)
    requires a >= 1 && b >= 1 && c >= 1
    ensures 1 <= a * c <= a * b * c
    ensures b == 1 ==> a * b * c == a * c
  {
    PositiveProduct(a, c);
    FactorAtMost(a, b);
    MulOrder(a, a * b, c);
  }
}
