/** The grid search of `Nuca::sim_nuca` and the bank-size loop in front of it. */
module Nuca {
  import opened Arithmetic
  import opened Limits
  import opened PowersOfTwo

  const CONTR_2_BANK_LAT: nat := 0
  const INF := 9999999.0
  /** One wire type and router: hop latencies in cycles, router delay, and cycles of a bank access. */
  datatype Network = Network(hor: nat, ver: nat, routerDelay: real, bankCycles: int)

  /** The optimum the search keeps in opt_acclat, opt_rows, opt_columns and opt_avg_hop. */
  datatype Best = Best(latency: real, rows: nat, columns: nat, avgHop: real)

  // ----- the hop sums of one grid -----

  datatype HopTotals = HopTotals(hops: int, hor: int, ver: int, lat: int)

  /** What the source's comment describes: the sums over all banks (i, j) of an r x c grid. */
  ghost function RowTotals(net: Network, i: nat, c: nat): HopTotals {
    if c == 0 then HopTotals(0, 0, 0, 0) else
      var t := RowTotals(net, i, c - 1);
      HopTotals(t.hops + i + 1 + (c - 1), t.hor + (c - 1), t.ver + i + 1,
                t.lat + i * net.ver + CONTR_2_BANK_LAT + (c - 1) * net.hor)
  }

  ghost function GridTotals(net: Network, r: nat, c: nat): HopTotals {
    if r == 0 then HopTotals(0, 0, 0, 0) else
      var t, row := GridTotals(net, r - 1, c), RowTotals(net, r - 1, c);
      HopTotals(t.hops + row.hops, t.hor + row.hor, t.ver + row.ver, t.lat + row.lat)
  }

  lemma RowStep(c: int, i: int, iv: int, h: int, a: int, a0: int, b: int, b0: int, d: int, d0: int)
    requires a == c * (c - 1) && a0 == (c - 1) * (c - 2)
    requires b == c * iv && b0 == (c - 1) * iv && d == c * (i + 1) && d0 == (c - 1) * (i + 1)
    ensures a == a0 + 2 * (c - 1) && b == b0 + iv && d == d0 + i + 1
    ensures h * a == h * a0 + 2 * ((c - 1) * h)
  {
    assert h * a == h * (a0 + 2 * (c - 1));
  }

  lemma {:induction false} RowClosed(net: Network, i: nat, c: nat, iv: int, a: int, b: int, d: int)
    requires iv == i * net.ver && a == c * (c - 1) && b == c * iv && d == c * (i + 1)
    ensures RowTotals(net, i, c).hor * 2 == a
    ensures RowTotals(net, i, c).ver == d
    ensures RowTotals(net, i, c).hops * 2 == 2 * d + a
    ensures RowTotals(net, i, c).lat * 2 == 2 * b + net.hor * a
  {
    if c > 0 {
      var a0, b0, d0 := (c - 1) * (c - 2), (c - 1) * iv, (c - 1) * (i + 1);
      RowClosed(net, i, c - 1, iv, a0, b0, d0);
      RowStep(c, i, iv, net.hor, a, a0, b, b0, d, d0);
    }
  }

  lemma GridStep(net: Network, r: nat, c: nat, a: int)
    requires r > 0 && a == c * (c - 1)
    ensures r * a == (r - 1) * a + a
    ensures c * (r * (r + 1)) == c * ((r - 1) * r) + 2 * (c * r)
    ensures net.ver * (c * (r * (r - 1))) == net.ver * (c * ((r - 1) * (r - 2))) + 2 * (c * ((r - 1) * net.ver))
    ensures net.hor * (r * a) == net.hor * ((r - 1) * a) + net.hor * a
  {
    assert r * (r + 1) == (r - 1) * r + 2 * r;
    assert r * (r - 1) == (r - 1) * (r - 2) + 2 * (r - 1);
    assert c * (r * (r - 1)) == c * ((r - 1) * (r - 2)) + 2 * (c * (r - 1));
    assert net.ver * (c * (r - 1)) == c * ((r - 1) * net.ver);
  }

  /** Twice each total in closed form. */
  lemma {:induction false} GridClosed(net: Network, r: nat, c: nat, a: int)
    requires a == c * (c - 1)
    ensures GridTotals(net, r, c).hor * 2 == r * a
    ensures GridTotals(net, r, c).ver * 2 == c * (r * (r + 1))
    ensures GridTotals(net, r, c).hops == GridTotals(net, r, c).hor + GridTotals(net, r, c).ver
    ensures GridTotals(net, r, c).lat * 2 == net.ver * (c * (r * (r - 1))) + net.hor * (r * a)
  {
    if r > 0 {
      var iv := (r - 1) * net.ver;
      GridClosed(net, r - 1, c, a);
      RowClosed(net, r - 1, c, iv, a, c * iv, c * r);
      GridStep(net, r, c, a);
    }
  }

  /** The two inner loops over the banks of a grid. */
  method SumHops(net: Network, r: nat, c: nat) returns (hops: int, hor: int, ver: int, lat: int)
    ensures HopTotals(hops, hor, ver, lat) == GridTotals(net, r, c)
  {
    hops, hor, ver, lat := 0, 0, 0, 0;
    for i := 0 to r
      invariant HopTotals(hops, hor, ver, lat) == GridTotals(net, i, c)
    {
      ghost var start := GridTotals(net, i, c);
      for j := 0 to c
        invariant var row := RowTotals(net, i, j);
                  hops == start.hops + row.hops && hor == start.hor + row.hor
                  && ver == start.ver + row.ver && lat == start.lat + row.lat
      {
        var currHop := i + 1;
        currHop := currHop + j;
        hor := hor + j;
        ver := ver + (i + 1);
        var currLat := i * net.ver + CONTR_2_BANK_LAT + j * net.hor;
        lat := lat + currLat;
        hops := hops + currHop;
      }
    }
  }

  /** The net access latency of an r x c grid in closed form. */
  function NetLatency(net: Network, r: nat, c: nat): real {
    net.ver as real * (r as real - 1.0) + net.hor as real * (c as real - 1.0)
    + net.routerDelay * (r as real + c as real) + net.bankCycles as real
  }

  /** The same totals as multiples of the number of banks n. */
  lemma TotalsPerBank(r: int, c: int, n: int, a: int, x: int, y: int, h: int, v: int)
    requires n == r * c && a == c * (c - 1) && x == c * (r * (r + 1)) && y == c * (r * (r - 1))
    ensures r * a + x == (r + c) * n
    ensures v * y + h * (r * a) == (v * (r - 1) + h * (c - 1)) * n
  {
    assert r * a == (c - 1) * n;
    assert x == (r + 1) * n;
    assert y == (r - 1) * n;
    MulAssociates(v, r - 1, n);
    MulAssociates(h, c - 1, n);
    assert (v * (r - 1) + h * (c - 1)) * n == v * (r - 1) * n + h * (c - 1) * n;
  }

  lemma AverageOf(x: int, w: int, n: nat)
    requires n > 0 && x * 2 == w * n
    ensures x as real / n as real == w as real / 2.0
  {
    CastProduct(w, n);
    DivideOut(x as real, w as real / 2.0, n as real);
  }

  lemma DivideOut(x: real, q: real, n: real)
    requires n > 0.0 && x == q * n
    ensures x / n == q
  {}

  lemma CastHops(v: nat, h: nat, r: nat, c: nat, w: int, r1: real, c1: real)
    requires w == v * (r - 1) + h * (c - 1) && r1 == (r - 1) as real && c1 == (c - 1) as real
    ensures w as real == v as real * r1 + h as real * c1
  {
    CastProduct(v, r - 1);
    CastProduct(h, c - 1);
  }

  /** Loops and divisions together: the averages over the grid collapse to the closed forms. */
  method GridLatency(net: Network, r: nat, c: nat, bankCount: nat) returns (latency: real, avgHop: real)
    requires r >= 1 && c >= 1 && r * c == bankCount
    ensures latency == NetLatency(net, r, c)
    ensures avgHop == (r + c) as real / 2.0
  {
    var hops, hor, ver, lat := SumHops(net, r, c);
    PositiveProduct(r, c);
    var avgLat := lat as real / bankCount as real;
    avgHop := hops as real / bankCount as real;
    AveragesClosed(net, r, c, bankCount, hops, lat, avgHop, avgLat);
    latency := 2.0 * avgLat + 2.0 * (net.routerDelay * avgHop) + net.bankCycles as real;
    LatencyClosed(net, r, c, avgHop, avgLat, latency);
  }

  lemma LatencyClosed(net: Network, r: nat, c: nat, avgHop: real, avgLat: real, latency: real)
    requires avgHop == (r + c) as real / 2.0
    requires 2.0 * avgLat == net.ver as real * (r as real - 1.0) + net.hor as real * (c as real - 1.0)
    requires latency == 2.0 * avgLat + 2.0 * (net.routerDelay * avgHop) + net.bankCycles as real
    ensures latency == NetLatency(net, r, c)
  {
    RouterTerm(net.routerDelay, avgHop, r as real + c as real);
  }

  lemma RouterTerm(d: real, avg: real, s: real)
    requires avg == s / 2.0
    ensures 2.0 * (d * avg) == d * s
  {}

  lemma {:induction false} TotalsClosed(net: Network, r: nat, c: nat, n: nat)
    requires n == r * c
    ensures GridTotals(net, r, c).hops * 2 == (r + c) * n
    ensures GridTotals(net, r, c).lat * 2 == (net.ver * (r - 1) + net.hor * (c - 1)) * n
  {
    var a, x, y := c * (c - 1), c * (r * (r + 1)), c * (r * (r - 1));
    GridClosed(net, r, c, a);
    TotalsPerBank(r, c, n, a, x, y, net.hor, net.ver);
  }

  /** The latency of a grid, taken over all its n banks: twice the wires and routers on the way to every
      bank, and one bank access each. */
  lemma LatencyOverBanks(net: Network, r: nat, c: nat, n: nat)
    requires n == r * c && r >= 1 && c >= 1
    ensures NetLatency(net, r, c) * n as real == 2.0 * GridTotals(net, r, c).lat as real
            + 2.0 * (net.routerDelay * GridTotals(net, r, c).hops as real) + net.bankCycles as real * n as real
  {
    var w, s := CyclesAndHops(net, r, c, n);
    OverBanks(net, n, w, s, GridTotals(net, r, c), NetLatency(net, r, c));
  }

  lemma OverBanks(net: Network, n: nat, w: int, s: nat, t: HopTotals, latency: real)
    requires t.lat * 2 == w * n && t.hops * 2 == s * n
    requires latency == w as real + net.routerDelay * s as real + net.bankCycles as real
    ensures latency * n as real == 2.0 * t.lat as real + 2.0 * (net.routerDelay * t.hops as real) + net.bankCycles as real * n as real
  {
    ScaledByBanks(w, s, n, t.lat, t.hops, net.routerDelay, net.bankCycles as real, latency);
  }

  lemma CyclesAndHops(net: Network, r: nat, c: nat, n: nat) returns (w: int, s: nat)
    requires n == r * c && r >= 1 && c >= 1
    ensures GridTotals(net, r, c).lat * 2 == w * n && GridTotals(net, r, c).hops * 2 == s * n
    ensures NetLatency(net, r, c) == w as real + net.routerDelay * s as real + net.bankCycles as real
  {
    w, s := net.ver * (r - 1) + net.hor * (c - 1), r + c;
    TotalsClosed(net, r, c, n);
    LatencyInCycles(net, r, c, w, s);
  }

  lemma LatencyInCycles(net: Network, r: nat, c: nat, w: int, s: nat)
    requires r >= 1 && c >= 1 && w == net.ver * (r - 1) + net.hor * (c - 1) && s == r + c
    ensures NetLatency(net, r, c) == w as real + net.routerDelay * s as real + net.bankCycles as real
  {
    CastHops(net.ver, net.hor, r, c, w, r as real - 1.0, c as real - 1.0);
  }

  lemma ScaledByBanks(w: int, s: nat, n: nat, lat: int, hops: int, delay: real, bank: real, latency: real)
    requires lat * 2 == w * n && hops * 2 == s * n && latency == w as real + delay * s as real + bank
    ensures latency * n as real == 2.0 * lat as real + 2.0 * (delay * hops as real) + bank * n as real
  {
    CastProduct(w, n);
    CastProduct(s, n);
    Distribute3(w as real, delay, s as real, bank, n as real, lat as real, hops as real, latency);
  }

  lemma Distribute3(w: real, delay: real, s: real, bank: real, n: real, lat: real, hops: real, latency: real)
    requires latency == w + delay * s + bank && 2.0 * lat == w * n && 2.0 * hops == s * n
    ensures latency * n == 2.0 * lat + 2.0 * (delay * hops) + bank * n
  {
    assert delay * (2.0 * hops) == delay * (s * n) == delay * s * n;
    assert latency * n == w * n + delay * s * n + bank * n;
  }

  lemma AveragesClosed(net: Network, r: nat, c: nat, n: nat, hops: int, lat: int, avgHop: real, avgLat: real)
    requires n > 0 && n == r * c
    requires hops == GridTotals(net, r, c).hops && lat == GridTotals(net, r, c).lat
    requires avgHop == hops as real / n as real && avgLat == lat as real / n as real
    ensures avgHop == (r + c) as real / 2.0
    ensures 2.0 * avgLat == net.ver as real * (r as real - 1.0) + net.hor as real * (c as real - 1.0)
  {
    TotalsClosed(net, r, c, n);
    AveragesOf(net.ver, net.hor, r, c, n, hops, lat, net.ver * (r - 1) + net.hor * (c - 1), avgHop, avgLat);
  }

  lemma AveragesOf(v: nat, h: nat, r: nat, c: nat, n: nat, hops: int, lat: int, w: int, avgHop: real, avgLat: real)
    requires n > 0 && hops * 2 == (r + c) * n && lat * 2 == w * n && w == v * (r - 1) + h * (c - 1)
    requires avgHop == hops as real / n as real && avgLat == lat as real / n as real
    ensures avgHop == (r + c) as real / 2.0
    ensures 2.0 * avgLat == v as real * (r as real - 1.0) + h as real * (c as real - 1.0)
  {
    AverageOf(hops, r + c, n);
    AverageOf(lat, w, n);
    CastHops(v, h, r, c, w, r as real - 1.0, c as real - 1.0);
  }

  // ----- the search over factorisations -----

  predicate Divides(c: nat, n: nat) {
    c >= 1 && n % c == 0
  }

  lemma DividesExactly(n: nat, c: nat)
    requires Divides(c, n) && n >= 1
    ensures (n / c) * c == n && n / c >= 1 && c <= n
  {
    QuotientBounds(n, c);
    PositiveProduct(n / c, c);
    FactorAtMost(c, n / c);
    MulCommutes(n / c, c);
  }

  lemma FactorDivides(n: nat, r: nat, c: nat)
    requires r * c == n && n >= 1
    ensures Divides(c, n) && n / c == r && c <= n
  {
    PositiveProduct(r, c);
    ExactQuotient(r, c);
    QuotientBounds(n, c);
    FactorAtMost(c, r);
    MulCommutes(r, c);
  }

  type Latency = (nat, nat) -> real

  ghost function LatencyOf(net: Network): Latency {
    (r: nat, c: nat) => NetLatency(net, r, c)
  }

  ghost function Grid(lat: Latency, r: nat, c: nat): Best {
    Best(lat(r, c), r, c, (r + c) as real / 2.0)
  }

  /** The grids with fewer than bound columns, in the order of increasing columns. */
  ghost function Grids(lat: Latency, n: nat, bound: nat): seq<Best> {
    if bound == 0 then [] else
      Grids(lat, n, bound - 1) + (if Divides(bound - 1, n) then [Grid(lat, n / (bound - 1), bound - 1)] else [])
  }

  /** The strict comparison of the search, folded over the grids. */
  ghost function Scan(start: Best, grids: seq<Best>): Best {
    if grids == [] then start else
      var best, next := Scan(start, grids[..|grids| - 1]), grids[|grids| - 1];
      if next.latency < best.latency then next else best
  }

  lemma {:induction false} NoDivisorBetween(lat: Latency, n: nat, lo: nat, hi: nat)
    requires lo <= hi
    requires forall c: nat | lo <= c < hi :: !Divides(c, n)
    ensures Grids(lat, n, hi) == Grids(lat, n, lo)
    decreases hi - lo
  {
    if lo < hi {
      NoDivisorBetween(lat, n, lo, hi - 1);
    }
  }

  lemma ScanStep(lat: Latency, n: nat, c: nat, r: nat, start: Best)
    requires Divides(c, n) && r == n / c
    ensures Scan(start, Grids(lat, n, c + 1)) ==
            var best := Scan(start, Grids(lat, n, c));
            if lat(r, c) < best.latency then Grid(lat, r, c) else best
  {
    var grids := Grids(lat, n, c);
    assert (grids + [Grid(lat, r, c)])[..|grids|] == grids;
  }

  /** The inner loop, which advances the column count to the next divisor. */
  method NextDivisor(n: nat, from: nat) returns (c: nat)
    requires 1 <= from <= n
    ensures from <= c <= n && Divides(c, n)
    ensures forall d: nat | from <= d < c :: !Divides(d, n)
  {
    c := from;
    while n % c != 0
      invariant from <= c <= n
      invariant forall d: nat | from <= d < c :: !Divides(d, n)
      decreases n - c
    {
      c := c + 1;
    }
  }

  /** The grid loop, which advances `c` to the next divisor inside its body. */
  method GridSearch(net: Network, bankCount: nat, start: Best) returns (best: Best)
    ensures best == Scan(start, Grids(LatencyOf(net), bankCount, bankCount + 1))
  {
    ghost var lat := LatencyOf(net);
    best := start;
    var c := 1;
    assert Grids(lat, bankCount, 1) == [];
    while c <= bankCount
      invariant 1 <= c <= bankCount + 1
      invariant best == Scan(start, Grids(LatencyOf(net), bankCount, c))
    {
      ghost var lo := c;
      c := NextDivisor(bankCount, c);
      NoDivisorBetween(lat, bankCount, lo, c);
      DividesExactly(bankCount, c);
      var r := bankCount / c;
      ScanStep(lat, bankCount, c, r, start);
      var latency, avgHop := GridLatency(net, r, c, bankCount);
      if latency < best.latency {
        best := Best(latency, r, c, avgHop);
      }
      c := c + 1;
    }
  }

  predicate Factors(r: nat, c: nat, n: nat) {
    r * c == n
  }

  ghost predicate GridOf(lat: Latency, n: nat, g: Best) {
    Factors(g.rows, g.columns, n) && g == Grid(lat, g.rows, g.columns)
  }

  /** The grids are factorisations, by strictly increasing columns. */
  lemma {:induction false} GridsFactor(lat: Latency, n: nat, bound: nat, gs: seq<Best>)
    requires n >= 1 && gs == Grids(lat, n, bound)
    ensures forall i | 0 <= i < |gs| :: gs[i].columns < bound && GridOf(lat, n, gs[i])
    ensures forall i, j | 0 <= i < j < |gs| :: gs[i].columns < gs[j].columns
  {
    if bound > 0 {
      var b, before := bound - 1, Grids(lat, n, bound - 1);
      GridsFactor(lat, n, b, before);
      if Divides(b, n) {
        DividesExactly(n, b);
        assert gs == before + [Grid(lat, n / b, b)];
        assert GridOf(lat, n, Grid(lat, n / b, b));
      } else {
        assert gs == before;
      }
    }
  }

  lemma ColumnsAtMost(r: nat, c: nat, n: nat)
    requires n >= 1 && Factors(r, c, n)
    ensures c <= n
  {
    FactorDivides(n, r, c);
  }

  lemma GridIndex(lat: Latency, n: nat, r: nat, c: nat) returns (i: nat)
    requires n >= 1 && Factors(r, c, n)
    ensures i < |Grids(lat, n, n + 1)| && Grids(lat, n, n + 1)[i] == Grid(lat, r, c)
  {
    ColumnsAtMost(r, c, n);
    FactorsInGrids(lat, n, n + 1, r, c);
    i :| 0 <= i < |Grids(lat, n, n + 1)| && Grids(lat, n, n + 1)[i] == Grid(lat, r, c);
  }

  /** Every factorisation is among the grids. */
  lemma {:induction false} FactorsInGrids(lat: Latency, n: nat, bound: nat, r: nat, c: nat)
    requires n >= 1 && Factors(r, c, n) && c < bound
    ensures Grid(lat, r, c) in Grids(lat, n, bound)
  {
    if c < bound - 1 {
      FactorsInGrids(lat, n, bound - 1, r, c);
    } else {
      FactorDivides(n, r, c);
    }
  }

  /** The fold keeps the first of the best grids, or the start if none is better. */
  lemma {:induction false} ScanIsFirstMinimum(start: Best, grids: seq<Best>) returns (k: int)
    ensures -1 <= k < |grids|
    ensures Scan(start, grids) == if k < 0 then start else grids[k]
    ensures forall g | g in grids :: Scan(start, grids).latency <= g.latency
    ensures Scan(start, grids).latency <= start.latency
    ensures k >= 0 ==> grids[k].latency < start.latency
    ensures forall i | 0 <= i < k :: grids[k].latency < grids[i].latency
  {
    k := -1;
    if grids != [] {
      var last := |grids| - 1;
      k := ScanIsFirstMinimum(start, grids[..last]);
      forall g | g in grids
        ensures Scan(start, grids).latency <= g.latency
      {
        assert g in grids[..last] || g == grids[last];
      }
      if grids[last].latency < Scan(start, grids[..last]).latency {
        forall i | 0 <= i < last
          ensures grids[last].latency < grids[i].latency
        {
          assert grids[i] in grids[..last];
        }
        k := last;
      }
    }
  }

  /** The record the search must end with: a factorisation no worse than any other, and strictly
      better than every one with fewer columns. */
  ghost predicate OptimalGrid(lat: Latency, n: nat, best: Best) {
    && Factors(best.rows, best.columns, n)
    && best == Grid(lat, best.rows, best.columns)
    && (forall r: nat, c: nat | Factors(r, c, n) :: best.latency <= lat(r, c))
    && (forall r: nat, c: nat | Factors(r, c, n) && c < best.columns :: best.latency < lat(r, c))
  }

  lemma BestAgainst(lat: Latency, n: nat, gs: seq<Best>, k: int, best: Best, r: nat, c: nat)
    requires n >= 1 && gs == Grids(lat, n, n + 1) && -1 <= k < |gs| && (k >= 0 ==> best == gs[k])
    requires forall g | g in gs :: best.latency <= g.latency
    requires forall i | 0 <= i < k :: gs[k].latency < gs[i].latency
    requires Factors(r, c, n)
    ensures best.latency <= lat(r, c)
    ensures k >= 0 && c < best.columns ==> best.latency < lat(r, c)
  {
    var i := GridIndex(lat, n, r, c);
    GridsFactor(lat, n, n + 1, gs);
    assert gs[i] in gs;
    assert k >= 0 && i > k ==> best.columns < c;
  }

  lemma RecordedIsOptimal(lat: Latency, n: nat, start: Best, gs: seq<Best>, k: nat)
    requires n >= 1 && gs == Grids(lat, n, n + 1) && k < |gs| && gs[k].latency < start.latency
    requires forall g | g in gs :: gs[k].latency <= g.latency
    requires forall i | 0 <= i < k :: gs[k].latency < gs[i].latency
    ensures OptimalGrid(lat, n, gs[k])
  {
    BestIsGrid(lat, n, gs, k);
    forall r: nat, c: nat | Factors(r, c, n)
      ensures gs[k].latency <= lat(r, c)
      ensures c < gs[k].columns ==> gs[k].latency < lat(r, c)
    {
      BestAgainst(lat, n, gs, k, gs[k], r, c);
    }
  }

  /** The search ends on the optimal grid, or leaves the record of the previous configuration in
      place because no factorisation beats the initial latency. */
  lemma GridSearchOptimal(lat: Latency, n: nat, start: Best, best: Best)
    requires n >= 1 && best == Scan(start, Grids(lat, n, n + 1))
    ensures best == start || (OptimalGrid(lat, n, best) && best.latency < start.latency)
    ensures forall r: nat, c: nat | Factors(r, c, n) :: best.latency <= lat(r, c)
  {
    var gs := Grids(lat, n, n + 1);
    var k := ScanIsFirstMinimum(start, gs);
    if k >= 0 {
      RecordedIsOptimal(lat, n, start, gs, k);
    } else {
      forall r: nat, c: nat | Factors(r, c, n) {
        BestAgainst(lat, n, gs, -1, start, r, c);
      }
    }
  }

  lemma BestIsGrid(lat: Latency, n: nat, gs: seq<Best>, k: nat)
    requires n >= 1 && gs == Grids(lat, n, n + 1) && k < |gs|
    ensures Factors(gs[k].rows, gs[k].columns, n) && gs[k] == Grid(lat, gs[k].rows, gs[k].columns)
  {
    GridsFactor(lat, n, n + 1, gs);
  }

  /** Some factorisation beats the initial latency. */
  ghost predicate Beatable(lat: Latency, n: nat, limit: real) {
    n >= 1 && exists r: nat, c: nat :: Factors(r, c, n) && lat(r, c) < limit
  }

  lemma Beaten(lat: Latency, n: nat, start: Best, best: Best, r: nat, c: nat)
    requires n >= 1 && best == Scan(start, Grids(lat, n, n + 1)) && Factors(r, c, n) && lat(r, c) < start.latency
    ensures OptimalGrid(lat, n, best)
  {
    GridSearchOptimal(lat, n, start, best);
  }

  lemma Beats(lat: Latency, n: nat, limit: real, best: Best)
    requires n >= 1 && OptimalGrid(lat, n, best) && best.latency < limit
    ensures Beatable(lat, n, limit)
  {
    assert Factors(best.rows, best.columns, n) && lat(best.rows, best.columns) < limit;
  }

  lemma BeatenIfBeatable(lat: Latency, n: nat, start: Best, best: Best)
    requires best == Scan(start, Grids(lat, n, n + 1))
    ensures Beatable(lat, n, start.latency) ==> OptimalGrid(lat, n, best)
    ensures !Beatable(lat, n, start.latency) ==> best == start
  {
    if Beatable(lat, n, start.latency) {
      var r: nat, c: nat :| Factors(r, c, n) && lat(r, c) < start.latency;
      Beaten(lat, n, start, best, r, c);
    } else if n == 0 {
      assert Grids(lat, 0, 1) == [];
    } else {
      GridSearchOptimal(lat, n, start, best);
      if best != start {
        Beats(lat, n, start.latency, best);
      }
    }
  }

  /** What the entry of one network is. */
  ghost predicate Recorded(net: Network, bankCount: nat, start: Best, entry: Best) {
    && (Beatable(LatencyOf(net), bankCount, start.latency) ==> OptimalGrid(LatencyOf(net), bankCount, entry))
    && (!Beatable(LatencyOf(net), bankCount, start.latency) ==> entry == start)
  }

  const NO_GRID := Best(INF, 0, 0, 0.0)

  /** The record a network starts from: the latency is reset, the rows and columns are not. */
  ghost function StartOf(entries: seq<Best>, k: nat): Best
    requires k <= |entries|
  {
    if k == 0 then NO_GRID else entries[k - 1].(latency := BIGNUM)
  }

  /** One pass of the two inner loops: a wire type and a router, for some number of banks. */
  datatype Case = Case(net: Network, bankCount: nat)

  ghost predicate AllRecorded(cases: seq<Case>, entries: seq<Best>) {
    |entries| <= |cases| &&
    forall k | 0 <= k < |entries| :: Recorded(cases[k].net, cases[k].bankCount, StartOf(entries, k), entries[k])
  }

  lemma RecordNext(cases: seq<Case>, entries: seq<Best>, entry: Best)
    requires AllRecorded(cases, entries) && |entries| < |cases|
    requires Recorded(cases[|entries|].net, cases[|entries|].bankCount, StartOf(entries, |entries|), entry)
    ensures AllRecorded(cases, entries + [entry])
  {
    var more := entries + [entry];
    forall k | 0 <= k < |more|
      ensures Recorded(cases[k].net, cases[k].bankCount, StartOf(more, k), more[k])
    {
      assert StartOf(more, k) == StartOf(entries, k);
      if k < |entries| {
        assert more[k] == entries[k];
      }
    }
  }

  /** What an entry is, in plain terms: the optimum of its own case when some factorisation is below the
      initial latency, and otherwise the rows and columns of the entry before under that latency. */
  lemma EntryMeans(cases: seq<Case>, entries: seq<Best>, k: nat, initial: real)
    requires AllRecorded(cases, entries) && |entries| == |cases| && k < |cases|
    requires initial == if k == 0 then 9999999.0 else 1e30
    ensures forall r: nat, c: nat | cases[k].bankCount >= 1 && Factors(r, c, cases[k].bankCount) ::
              LatencyOf(cases[k].net)(r, c) < initial ==> OptimalGrid(LatencyOf(cases[k].net), cases[k].bankCount, entries[k])
    ensures Beatable(LatencyOf(cases[k].net), cases[k].bankCount, initial) ||
              entries[k] == Best(initial, if k == 0 then 0 else entries[k - 1].rows, if k == 0 then 0 else entries[k - 1].columns,
                                 if k == 0 then 0.0 else entries[k - 1].avgHop)
  {
    var lat, n := LatencyOf(cases[k].net), cases[k].bankCount;
    assert Recorded(cases[k].net, n, StartOf(entries, k), entries[k]);
    forall r: nat, c: nat | n >= 1 && Factors(r, c, n) && lat(r, c) < initial
      ensures OptimalGrid(lat, n, entries[k])
    {
      assert Beatable(lat, n, initial);
    }
  }

  method SearchNetwork(net: Network, bankCount: nat, start: Best) returns (best: Best)
    ensures Recorded(net, bankCount, start, best)
  {
    best := GridSearch(net, bankCount, start);
    BeatenIfBeatable(LatencyOf(net), bankCount, start, best);
  }

  /** Every number of banks, wire type and router in turn. Each recorded entry is the optimum of its own
      case and of no other, unless no factorisation beats the initial latency: then the previous record
      stands, even one that belongs to another number of banks. */
  method SearchNetworks(cases: seq<Case>) returns (entries: seq<Best>)
    ensures |entries| == |cases| && AllRecorded(cases, entries)
    ensures forall k, r: nat, c: nat | 0 <= k < |cases| && cases[k].bankCount >= 1 && Factors(r, c, cases[k].bankCount) ::
              LatencyOf(cases[k].net)(r, c) < (if k == 0 then 9999999.0 else 1e30) ==>
                OptimalGrid(LatencyOf(cases[k].net), cases[k].bankCount, entries[k])
  {
    entries := [];
    var opt := NO_GRID;
    for k := 0 to |cases|
      invariant |entries| == k && opt == StartOf(entries, k)
      invariant AllRecorded(cases, entries)
    {
      opt := SearchNetwork(cases[k].net, cases[k].bankCount, opt);
      RecordNext(cases, entries, opt);
      entries := entries + [opt];
      opt := opt.(latency := BIGNUM);
    }
    forall k | 0 <= k < |cases| {
      EntryMeans(cases, entries, k, if k == 0 then 9999999.0 else 1e30);
    }
  }

  // ----- the balanced grid -----

  lemma {:induction false} BalancedSplit(k: nat, a: nat)
    requires a <= k / 2
    ensures Pow2(a) + Pow2(k - a) >= Pow2(k / 2) + Pow2(k - k / 2)
    ensures a < k / 2 ==> Pow2(a) + Pow2(k - a) > Pow2(k / 2) + Pow2(k - k / 2)
    decreases k / 2 - a
  {
    if a < k / 2 {
      BalancedSplit(k, a + 1);
      Pow2Monotone(a, k - a - 1);
    }
  }

  lemma FactorsAsPowers(k: nat, r: nat, c: nat) returns (a: nat)
    requires r * c == Pow2(k)
    ensures a <= k && c == Pow2(a) && r == Pow2(k - a)
  {
    FactorsOfPow2(r, c, k);
    a :| c == Pow2(a);
    FactorAtMost(c, r);
    PositiveProduct(r, c);
    MulCommutes(r, c);
    Pow2Monotone(k, a);
    Pow2Monotone(k + 1, a);
    Pow2Add(a, k - a);
    MulCommutes(Pow2(a), Pow2(k - a));
    ExactQuotient(Pow2(k - a), c);
    ExactQuotient(r, c);
  }

  lemma EqualHopOrder(net: Network, r: nat, c: nat, r2: nat, c2: nat)
    requires net.hor == net.ver && net.hor as real + net.routerDelay > 0.0
    ensures NetLatency(net, r, c) < NetLatency(net, r2, c2) <==> r + c < r2 + c2
  {
    var w, d := net.hor as real + net.routerDelay, (r2 + c2) as real - (r + c) as real;
    assert NetLatency(net, r2, c2) - NetLatency(net, r, c) == w * d;
    assert w * d > 0.0 <==> d > 0.0;
  }

  /** With 2^k banks and equal hop latencies the search ends on the squarest grid; for odd k the
      strict comparison keeps the one with fewer columns. */
  lemma BalancedGrid(net: Network, k: nat, best: Best)
    requires net.hor == net.ver && net.hor as real + net.routerDelay > 0.0
    requires OptimalGrid(LatencyOf(net), Pow2(k), best)
    ensures best.columns == Pow2(k / 2) && best.rows == Pow2(k - k / 2)
  {
    var half, rest := Pow2(k / 2), Pow2(k - k / 2);
    var lat := LatencyOf(net);
    Pow2Add(k - k / 2, k / 2);
    assert Factors(rest, half, Pow2(k));
    assert best.latency <= lat(rest, half) && (half < best.columns ==> best.latency < lat(rest, half));
    assert lat(rest, half) == NetLatency(net, rest, half);
    EqualHopOrder(net, rest, half, best.rows, best.columns);
    EqualHopOrder(net, best.rows, best.columns, rest, half);
    SquarestFactors(k, best.rows, best.columns);
  }

  /** So every entry the search records for such a network is that grid, if any grid beats its start. */
  lemma BalancedEntry(net: Network, k: nat, start: Best, entry: Best)
    requires net.hor == net.ver && net.hor as real + net.routerDelay > 0.0
    requires Recorded(net, Pow2(k), start, entry) && Beatable(LatencyOf(net), Pow2(k), start.latency)
    ensures entry.columns == Pow2(k / 2) && entry.rows == Pow2(k - k / 2)
  {
    BalancedGrid(net, k, entry);
  }

  lemma SquarestFactors(k: nat, r: nat, c: nat)
    requires r * c == Pow2(k)
    requires r + c <= Pow2(k - k / 2) + Pow2(k / 2)
    requires c > Pow2(k / 2) ==> r + c < Pow2(k - k / 2) + Pow2(k / 2)
    ensures c == Pow2(k / 2) && r == Pow2(k - k / 2)
  {
    var a := FactorsAsPowers(k, r, c);
    SquarestSplit(k, a);
  }

  /** Every other split of 2^k has a larger sum, or the same sum and more columns. */
  lemma SquarestSplit(k: nat, a: nat)
    requires a <= k
    ensures var sum, least := Pow2(a) + Pow2(k - a), Pow2(k / 2) + Pow2(k - k / 2);
            sum >= least && (sum == least && Pow2(a) <= Pow2(k / 2) ==> a == k / 2)
  {
    if a <= k / 2 {
      BalancedSplit(k, a);
    } else {
      BalancedSplit(k, k - a);
      Pow2Monotone(k / 2, a);
    }
  }

  // ----- the lower bound on the bank size -----

  /** Value of the counter `i` after n doublings in 32-bit unsigned arithmetic. */
  function DoubledCounter(n: nat): nat {
    if n == 0 then 2 else DoubledCounter(n - 1) * 2 % UINT32
  }

  lemma {:induction false} DoubledCounterValue(n: nat)
    ensures DoubledCounter(n) == if n < 31 then Pow2(n + 1) else 0
  {
    if n > 0 {
      DoubledCounterValue(n - 1);
      CounterStep(n, DoubledCounter(n - 1));
    }
  }

  lemma CounterStep(n: nat, before: nat)
    requires n >= 1 && before == if n < 32 then Pow2(n) else 0
    ensures before * 2 % UINT32 == if n < 31 then Pow2(n + 1) else 0
  {
    Pow2Of32();
    if n < 31 {
      Pow2Monotone(n + 1, 31);
    }
  }

  lemma Pow2Of32()
    ensures Pow2(31) == 0x8000_0000 && Pow2(32) == UINT32
  {
    assert Pow2(8) == 256;
    Pow2Add(8, 8);
    Pow2Add(16, 8);
    Pow2Add(24, 7);
    assert Pow2(7) == 128;
  }

  /** The loop `while (i != assoc)` ends if and only if the associativity is a power of two. */
  lemma CounterReaches(assoc: nat)
    requires 2 < assoc < UINT32
    ensures (exists n: nat :: DoubledCounter(n) == assoc) <==> IsPowerOfTwo(assoc)
  {
    if IsPowerOfTwo(assoc) {
      var k: nat :| assoc == Pow2(k);
      if k >= 32 {
        Pow2Of32();
        Pow2Monotone(32, k);
      }
      assert k >= 1;
      DoubledCounterValue(k - 1);
      assert DoubledCounter(k - 1) == assoc;
    }
    forall n: nat | DoubledCounter(n) == assoc
      ensures IsPowerOfTwo(assoc)
    {
      DoubledCounterValue(n);
    }
  }

  /** MIN_BANKSIZE after n doublings in 32-bit unsigned arithmetic. */
  function ScaledSize(size: nat, n: nat): nat {
    if n == 0 then size else ScaledSize(size, n - 1) * 2 % UINT32
  }

  lemma {:induction false} ScaledSizeValue(size: nat, n: nat, p: nat)
    requires size < UINT32 && p == size * Pow2(n)
    ensures ScaledSize(size, n) == p % UINT32
  {
    if n > 0 {
      var h := size * Pow2(n - 1);
      MulAssociates(size, Pow2(n - 1), 2);
      MulCommutes(Pow2(n - 1), 2);
      ScaledSizeValue(size, n - 1, h);
      DoubleModulo(h);
    }
  }

  /** The loop itself. */
  method DoubleUntil(assoc: nat, minBankSize: nat) returns (m: nat, ghost n: nat)
    requires 2 < assoc < UINT32 && IsPowerOfTwo(assoc)
    ensures assoc == Pow2(n + 1) && m == ScaledSize(minBankSize, n)
  {
    ghost var k: nat :| assoc == Pow2(k);
    m, n := minBankSize, 0;
    var i: nat := 2;
    while i != assoc
      invariant n + 1 <= k && i == Pow2(n + 1) && m == ScaledSize(minBankSize, n)
      decreases k - n
    {
      Pow2Monotone(n + 1, k);
      Pow2Monotone(n + 2, k);
      m := m * 2 % UINT32;
      i := i * 2 % UINT32;
      n := n + 1;
    }
  }

  /** MIN_BANKSIZE is scaled by assoc / 2, in 32-bit unsigned arithmetic. */
  method ScaleMinBankSize(assoc: nat, minBankSize: nat) returns (m: nat)
    requires assoc < UINT32 && minBankSize < UINT32
    requires assoc > 2 ==> IsPowerOfTwo(assoc)
    ensures assoc <= 2 ==> m == minBankSize
    ensures assoc > 2 ==> assoc % 2 == 0 && m == minBankSize * (assoc / 2) % UINT32
  {
    m := minBankSize;
    if assoc > 2 {
      ghost var n;
      m, n := DoubleUntil(assoc, minBankSize);
      ScaledSizeValue(minBankSize, n, minBankSize * Pow2(n));
    }
  }

  lemma ModuloOf(x: nat, q: int, r: nat)
    requires x == q * UINT32 + r && r < UINT32
    ensures x % UINT32 == r
  {}

  lemma DoubleModulo(x: nat)
    ensures (x % UINT32) * 2 % UINT32 == 2 * x % UINT32
  {
    var q, r := x / UINT32, x % UINT32;
    if 2 * r < UINT32 {
      ModuloOf(2 * x, 2 * q, 2 * r);
      ModuloOf(2 * r, 0, 2 * r);
    } else {
      ModuloOf(2 * x, 2 * q + 1, 2 * r - UINT32);
      ModuloOf(2 * r, 1, 2 * r - UINT32);
    }
  }
}
