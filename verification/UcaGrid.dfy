/** The strided sweep covers the grid of partitions exactly once, for every number of threads. */
module UcaGrid {
  import opened PowersOfTwo
  import opened UcaModel
  import opened UcaSweep

  // ----- the strides partition the iterations -----

  type Parts = nat -> seq<Config>

  /** Everything in the first count parts. */
  ghost function UnionOf(parts: Parts, count: nat): multiset<Config> {
    if count == 0 then multiset{} else UnionOf(parts, count - 1) + multiset(parts(count - 1))
  }

  lemma {:induction false} UnionFirst(parts: Parts, later: Parts, count: nat)
    requires count >= 1 && forall t: nat :: later(t) == parts(t + 1)
    ensures UnionOf(parts, count) == multiset(parts(0)) + UnionOf(later, count - 1)
  {
    if count > 1 {
      UnionFirst(parts, later, count - 1);
      assert later(count - 2) == parts(count - 1);
    } else {
      assert UnionOf(parts, 0) == multiset{};
    }
  }

  lemma {:induction false} UnionSum(a: Parts, b: Parts, both: Parts, count: nat)
    requires forall t: nat :: both(t) == a(t) + b(t)
    ensures UnionOf(both, count) == UnionOf(a, count) + UnionOf(b, count)
  {
    if count > 0 {
      UnionSum(a, b, both, count - 1);
      assert both(count - 1) == a(count - 1) + b(count - 1);
    }
  }

  lemma {:induction false} UnionEmpty(parts: Parts, count: nat)
    requires forall t: nat :: parts(t) == []
    ensures UnionOf(parts, count) == multiset{}
  {
    if count > 0 {
      UnionEmpty(parts, count - 1);
    }
  }

  /** What each worker visits in one round, the first starting at iter. */
  ghost function StridedParts(r: Round, iter: nat, stride: nat): Parts
    requires stride >= 1
  {
    (t: nat) => Iters(r, iter + t, stride)
  }

  /** What each worker visits in a whole sweep. */
  ghost function WorkerParts(rounds: seq<Round>, stride: nat): Parts
    requires stride >= 1
  {
    (t: nat) => WorkerConfigs(rounds, t, stride)
  }

  /** Everything the first count of stride workers visit in a whole sweep. */
  ghost function WorkersUnion(rounds: seq<Round>, stride: nat, count: nat): multiset<Config>
    requires stride >= 1
  {
    UnionOf(WorkerParts(rounds, stride), count)
  }

  lemma NothingLeft(r: Round, iter: nat, stride: nat, count: nat)
    requires stride >= 1 && iter >= NITER
    ensures UnionOf(StridedParts(r, iter, stride), count) == multiset{}
  {
    var parts := StridedParts(r, iter, stride);
    forall t: nat
      ensures parts(t) == []
    {
      assert parts(t) == Iters(r, iter + t, stride);
    }
    UnionEmpty(parts, count);
  }

  lemma PartShifts(r: Round, iter: nat, stride: nat, t: nat)
    requires stride >= 1
    ensures StridedParts(r, iter + 1, stride)(t) == StridedParts(r, iter, stride)(t + 1)
  {
    var i := iter + 1 + t;
    assert i == iter + (t + 1);
  }

  /** The first of count workers, and the others a step further on. */
  lemma FirstWorker(r: Round, iter: nat, stride: nat, count: nat)
    requires stride >= 1 && count >= 1
    ensures UnionOf(StridedParts(r, iter, stride), count)
            == multiset(Iters(r, iter, stride)) + UnionOf(StridedParts(r, iter + 1, stride), count - 1)
  {
    var now, next := StridedParts(r, iter, stride), StridedParts(r, iter + 1, stride);
    forall t: nat
      ensures next(t) == now(t + 1)
    {
      PartShifts(r, iter, stride, t);
    }
    UnionFirst(now, next, count);
    assert now(0) == Iters(r, iter + 0, stride);
  }

  lemma UnionLast(parts: Parts, count: nat, last: seq<Config>)
    requires count >= 1 && parts(count - 1) == last
    ensures UnionOf(parts, count) == UnionOf(parts, count - 1) + multiset(last)
  {}

  /** Worker t visits what a worker that starts at i does. */
  lemma PartIs(r: Round, iter: nat, stride: nat, t: nat, i: nat)
    requires stride >= 1 && i == iter + t
    ensures StridedParts(r, iter, stride)(t) == Iters(r, i, stride)
  {}

  lemma LastWorker(r: Round, iter: nat, stride: nat)
    requires stride >= 1
    ensures UnionOf(StridedParts(r, iter + 1, stride), stride)
            == UnionOf(StridedParts(r, iter + 1, stride), stride - 1) + multiset(Iters(r, iter + stride, stride))
  {
    PartIs(r, iter + 1, stride, stride - 1, iter + stride);
    UnionLast(StridedParts(r, iter + 1, stride), stride, Iters(r, iter + stride, stride));
  }

  lemma ItersApart(r: Round, iter: nat, stride: nat)
    requires iter < NITER && stride >= 1
    ensures multiset(Iters(r, iter, stride)) == multiset(Lev1(Decode(r, iter), 1)) + multiset(Iters(r, iter + stride, stride))
  {
    assert Iters(r, iter, stride) == Lev1(Decode(r, iter), 1) + Iters(r, iter + stride, stride);
  }

  lemma Exchange<T>(all: multiset<T>, others: multiset<T>, first: multiset<T>, last: multiset<T>, here: multiset<T>, later: multiset<T>)
    requires all == first + others && first == here + last && others + last == later
    ensures all == here + later
  {}

  /** The stride workers of a round together visit every iteration from iter on. */
  lemma {:induction false} StridesPartition(r: Round, iter: nat, stride: nat)
    requires stride >= 1
    ensures UnionOf(StridedParts(r, iter, stride), stride) == multiset(Iters(r, iter, 1))
    decreases NITER - iter
  {
    if iter >= NITER {
      NothingLeft(r, iter, stride, stride);
    } else {
      StridesPartition(r, iter + 1, stride);
      FirstWorker(r, iter, stride, stride);
      LastWorker(r, iter, stride);
      ItersApart(r, iter, stride);
      ItersApart(r, iter, 1);
      Exchange(UnionOf(StridedParts(r, iter, stride), stride), UnionOf(StridedParts(r, iter + 1, stride), stride - 1),
               multiset(Iters(r, iter, stride)), multiset(Iters(r, iter + stride, stride)),
               multiset(Lev1(Decode(r, iter), 1)), multiset(Iters(r, iter + 1, 1)));
    }
  }

  lemma RoundByRound(rounds: seq<Round>, stride: nat, count: nat)
    requires stride >= 1 && rounds != []
    ensures WorkersUnion(rounds, stride, count)
            == UnionOf(StridedParts(rounds[0], 0, stride), count) + WorkersUnion(rounds[1..], stride, count)
  {
    UnionSum(StridedParts(rounds[0], 0, stride), WorkerParts(rounds[1..], stride), WorkerParts(rounds, stride), count);
  }

  /** The workers together visit what a single thread visits, each partition as often. */
  lemma {:induction false} WorkersPartition(rounds: seq<Round>, stride: nat)
    requires stride >= 1
    ensures WorkersUnion(rounds, stride, stride) == multiset(WorkerConfigs(rounds, 0, 1))
  {
    if rounds == [] {
      UnionEmpty(WorkerParts(rounds, stride), stride);
    } else {
      RoundByRound(rounds, stride, stride);
      StridesPartition(rounds[0], 0, stride);
      WorkersPartition(rounds[1..], stride);
      assert WorkerConfigs(rounds, 0, 1) == Iters(rounds[0], 0, 1) + WorkerConfigs(rounds[1..], 0, 1);
    }
  }

  // ----- a single thread visits every grid point once -----

  /** x is reached from s by doubling, within the bound of the multiplexing loops. */
  predicate Doubles(x: nat, s: nat)
    decreases MAX_COL_MUX + 1 - s, x
  {
    1 <= s <= MAX_COL_MUX && (x == s || Doubles(x, 2 * s))
  }

  lemma {:induction false} DoublesAtLeast(x: nat, s: nat)
    requires Doubles(x, s)
    ensures x >= s
    decreases MAX_COL_MUX + 1 - s
  {
    if x != s {
      DoublesAtLeast(x, 2 * s);
    }
  }

  predicate SameBase(cfg: Config, base: Config) {
    cfg.nspd == base.nspd && cfg.wr == base.wr && cfg.ndwl == base.ndwl && cfg.ndbl == base.ndbl && cfg.ndcm == base.ndcm
  }

  lemma {:induction false} Lev2Count(base: Config, s1: nat, s2: nat, cfg: Config)
    requires s2 >= 1
    ensures multiset(Lev2(base, s1, s2))[cfg] ==
            if SameBase(cfg, base) && cfg.ndsam1 == s1 && Doubles(cfg.ndsam2, s2) then 1 else 0
    decreases MAX_COL_MUX + 1 - s2
  {
    if s2 <= MAX_COL_MUX {
      Lev2Count(base, s1, 2 * s2, cfg);
      var here := base.(ndsam1 := s1, ndsam2 := s2);
      assert multiset(Lev2(base, s1, s2)) == multiset{here} + multiset(Lev2(base, s1, 2 * s2));
      assert cfg == here <==> SameBase(cfg, base) && cfg.ndsam1 == s1 && cfg.ndsam2 == s2;
      if Doubles(cfg.ndsam2, 2 * s2) {
        DoublesAtLeast(cfg.ndsam2, 2 * s2);
      }
    }
  }

  lemma {:induction false} Lev1Count(base: Config, s1: nat, cfg: Config)
    requires s1 >= 1
    ensures multiset(Lev1(base, s1))[cfg] ==
            if SameBase(cfg, base) && Doubles(cfg.ndsam1, s1) && Doubles(cfg.ndsam2, 1) then 1 else 0
    decreases MAX_COL_MUX + 1 - s1
  {
    if s1 <= MAX_COL_MUX {
      Lev1Count(base, 2 * s1, cfg);
      Lev2Count(base, s1, 1, cfg);
      assert multiset(Lev1(base, s1)) == multiset(Lev2(base, s1, 1)) + multiset(Lev1(base, 2 * s1));
      if Doubles(cfg.ndsam1, 2 * s1) {
        DoublesAtLeast(cfg.ndsam1, 2 * s1);
      }
    }
  }

  lemma Pow2Injective(a: nat, b: nat)
    ensures Pow2(a) == Pow2(b) ==> a == b
  {
    Pow2Monotone(a, b);
    Pow2Monotone(b, a);
  }

  /** The mixed-radix digits of an iteration number. */
  function High(iter: nat): nat { iter / (NDBL_NITER * NDCM_NITER) }

  function Middle(iter: nat): nat { (iter / NDCM_NITER) % NDBL_NITER }

  function Low(iter: nat): nat { iter % NDCM_NITER }

  /** Decoding is a bijection between the iterations and the triples of exponents. */
  lemma DecodeBijective(iter: nat, a: nat, b: nat, c: nat)
    requires b < NDBL_NITER && c < NDCM_NITER
    ensures High(iter) == a && Middle(iter) == b && Low(iter) == c <==> iter == (a * NDBL_NITER + b) * NDCM_NITER + c
    ensures iter < NITER <==> High(iter) < NDWL_NITER
  {
    assert iter == (iter / 9) * 9 + iter % 9;
    assert iter / 9 == (iter / 90) * 10 + (iter / 9) % 10;
  }

  lemma DecodeInjective(r: Round, i: nat, j: nat)
    requires Decode(r, i) == Decode(r, j)
    ensures i == j
  {
    Pow2Injective(High(i), High(j));
    Pow2Injective(Middle(i), Middle(j));
    Pow2Injective(Low(i), Low(j));
    DecodeBijective(i, High(j), Middle(j), Low(j));
    DecodeBijective(j, High(j), Middle(j), Low(j));
  }

  ghost predicate DecodedFrom(r: Round, iter: nat, cfg: Config) {
    exists i: nat :: iter <= i < NITER && SameBase(cfg, Decode(r, i))
  }

  ghost predicate Muxed(cfg: Config) {
    Doubles(cfg.ndsam1, 1) && Doubles(cfg.ndsam2, 1)
  }

  lemma SplitCount<T>(here: seq<T>, rest: seq<T>, all: seq<T>, x: T)
    requires all == here + rest
    ensures multiset(all)[x] == multiset(here)[x] + multiset(rest)[x]
  {}

  lemma ItersHead(r: Round, iter: nat, cfg: Config)
    requires iter < NITER
    ensures multiset(Iters(r, iter, 1))[cfg] == multiset(Iters(r, iter + 1, 1))[cfg]
            + (if SameBase(cfg, Decode(r, iter)) && Muxed(cfg) then 1 else 0)
  {
    var base := Decode(r, iter);
    Lev1Count(base, 1, cfg);
    SplitCount(Lev1(base, 1), Iters(r, iter + 1, 1), Iters(r, iter, 1), cfg);
  }

  lemma NoItersLeft(r: Round, iter: nat, cfg: Config)
    requires iter >= NITER
    ensures multiset(Iters(r, iter, 1))[cfg] == 0 && !DecodedFrom(r, iter, cfg)
  {}

  lemma {:induction false} ItersCount(r: Round, iter: nat, cfg: Config)
    ensures multiset(Iters(r, iter, 1))[cfg] == if DecodedFrom(r, iter, cfg) && Muxed(cfg) then 1 else 0
    decreases NITER - iter
  {
    if iter < NITER {
      ItersCount(r, iter + 1, cfg);
      ItersHead(r, iter, cfg);
      DecodedNext(r, iter, cfg);
    } else {
      NoItersLeft(r, iter, cfg);
    }
  }

  lemma DecodedNext(r: Round, iter: nat, cfg: Config)
    requires iter < NITER
    ensures DecodedFrom(r, iter, cfg) <==> SameBase(cfg, Decode(r, iter)) || DecodedFrom(r, iter + 1, cfg)
    ensures !(SameBase(cfg, Decode(r, iter)) && DecodedFrom(r, iter + 1, cfg))
  {
    if DecodedFrom(r, iter, cfg) {
      var i: nat :| iter <= i < NITER && SameBase(cfg, Decode(r, i));
      assert i == iter || iter + 1 <= i;
    }
    forall i: nat | iter + 1 <= i < NITER && SameBase(cfg, Decode(r, i))
      ensures !SameBase(cfg, Decode(r, iter))
    {
      if SameBase(cfg, Decode(r, iter)) {
        DecodeInjective(r, i, iter);
      }
    }
  }

  // ----- the rounds -----

  lemma {:induction false} RoundsAhead(nspd: real, wr: int, wtMin: int, wtMax: int, q: Round)
    requires nspd > 0.0 && wtMin <= wr && wtMin <= wtMax
    ensures q in Rounds(nspd, wr, wtMin, wtMax) ==> q.nspd > nspd || (q.nspd == nspd && wr <= q.wr)
    decreases SpeedsLeft(nspd), wtMax - wr
  {
    if nspd <= MAXDATASPD {
      if wr > wtMax {
        SpeedDoubles(nspd);
        RoundsAhead(2.0 * nspd, wtMin, wtMin, wtMax, q);
      } else {
        RoundsAhead(nspd, wr + 1, wtMin, wtMax, q);
      }
    }
  }

  /** nspd is reached by doubling and stays within its bound; the wire type is one of the range. */
  ghost predicate IsRound(nspdMin: real, wtMin: int, wtMax: int, q: Round)
    requires nspdMin > 0.0
    decreases SpeedsLeft(nspdMin)
  {
    nspdMin <= MAXDATASPD && wtMin <= q.wr <= wtMax &&
    (q.nspd == nspdMin || (SpeedDoubles(nspdMin); IsRound(2.0 * nspdMin, wtMin, wtMax, q)))
  }

  lemma NextSpeed(nspd: real, wtMin: int, wtMax: int, q: Round)
    requires 0.0 < nspd <= MAXDATASPD
    ensures IsRound(nspd, wtMin, wtMax, q) <==>
            wtMin <= q.wr <= wtMax && (q.nspd == nspd || IsRound(2.0 * nspd, wtMin, wtMax, q))
  {
    SpeedDoubles(nspd);
  }

  lemma FirstRound(nspd: real, wr: int, wtMin: int, wtMax: int, q: Round)
    requires 0.0 < nspd <= MAXDATASPD && wtMin <= wr <= wtMax
    requires q in Rounds(nspd, wr + 1, wtMin, wtMax) <==> IsRound(nspd, wtMin, wtMax, q) && (q.nspd != nspd || q.wr >= wr + 1)
    ensures q in Rounds(nspd, wr, wtMin, wtMax) <==> IsRound(nspd, wtMin, wtMax, q) && (q.nspd != nspd || q.wr >= wr)
  {
    var rest := Rounds(nspd, wr + 1, wtMin, wtMax);
    assert q in [Round(nspd, wr)] + rest <==> q == Round(nspd, wr) || q in rest;
    NextSpeed(nspd, wtMin, wtMax, q);
  }

  lemma WiresDone(nspd: real, wr: int, wtMin: int, wtMax: int, q: Round)
    requires 0.0 < nspd <= MAXDATASPD && wtMin <= wtMax < wr
    requires q in Rounds(2.0 * nspd, wtMin, wtMin, wtMax) <==> IsRound(2.0 * nspd, wtMin, wtMax, q)
    ensures q in Rounds(nspd, wr, wtMin, wtMax) <==> IsRound(nspd, wtMin, wtMax, q) && q.nspd != nspd
  {
    AllWiresDone(nspd, wr, wtMin, wtMax);
    RoundsAhead(2.0 * nspd, wtMin, wtMin, wtMax, q);
    NextSpeed(nspd, wtMin, wtMax, q);
    InWireRange(2.0 * nspd, wtMin, wtMax, q);
  }

  lemma InWireRange(nspd: real, wtMin: int, wtMax: int, q: Round)
    requires nspd > 0.0
    ensures IsRound(nspd, wtMin, wtMax, q) ==> wtMin <= q.wr <= wtMax
  {}

  /** The rounds from one speed and wire type on: the later wire types of that speed, and all of
      every speed reached from it by doubling. */
  lemma RoundsExact(nspd: real, wr: int, wtMin: int, wtMax: int, q: Round)
    requires nspd > 0.0 && wtMin <= wr && wtMin <= wtMax
    ensures q in Rounds(nspd, wr, wtMin, wtMax) <==> IsRound(nspd, wtMin, wtMax, q) && (q.nspd != nspd || q.wr >= wr)
  {
    RoundsOfSpeed(nspd, wr, wtMin, wtMax, q, SpeedsLeft(nspd), WiresLeft(wr, wtMax));
  }

  function WiresLeft(wr: int, wtMax: int): nat {
    if wr > wtMax then 0 else wtMax - wr + 1
  }

  lemma {:induction false} RoundsOfSpeed(nspd: real, wr: int, wtMin: int, wtMax: int, q: Round, left: nat, wires: nat)
    requires nspd > 0.0 && wtMin <= wr && wtMin <= wtMax && left == SpeedsLeft(nspd) && wires == WiresLeft(wr, wtMax)
    ensures q in Rounds(nspd, wr, wtMin, wtMax) <==> IsRound(nspd, wtMin, wtMax, q) && (q.nspd != nspd || q.wr >= wr)
    decreases left, wires, 1
  {
    if nspd > MAXDATASPD {
      NoRoundPast(nspd, wr, wtMin, wtMax, q);
    } else if wr > wtMax {
      FasterRounds(nspd, wtMin, wtMax, q, left);
      WiresDone(nspd, wr, wtMin, wtMax, q);
      InWireRange(nspd, wtMin, wtMax, q);
    } else {
      RoundsOfSpeed(nspd, wr + 1, wtMin, wtMax, q, left, wires - 1);
      FirstRound(nspd, wr, wtMin, wtMax, q);
    }
  }

  lemma NoRoundPast(nspd: real, wr: int, wtMin: int, wtMax: int, q: Round)
    requires nspd > MAXDATASPD && wtMin <= wtMax
    ensures q !in Rounds(nspd, wr, wtMin, wtMax) && !IsRound(nspd, wtMin, wtMax, q)
  {}

  lemma {:induction false} FasterRounds(nspd: real, wtMin: int, wtMax: int, q: Round, left: nat)
    requires 0.0 < nspd <= MAXDATASPD && wtMin <= wtMax && left == SpeedsLeft(nspd)
    ensures q in Rounds(2.0 * nspd, wtMin, wtMin, wtMax) <==> IsRound(2.0 * nspd, wtMin, wtMax, q)
    decreases left, 0, 0
  {
    SpeedDoubles(nspd);
    RoundsOfSpeed(2.0 * nspd, wtMin, wtMin, wtMax, q, SpeedsLeft(2.0 * nspd), WiresLeft(wtMin, wtMax));
    InWireRange(2.0 * nspd, wtMin, wtMax, q);
  }

  ghost predicate DistinctRounds(rounds: seq<Round>) {
    forall i, j | 0 <= i < j < |rounds| :: rounds[i] != rounds[j]
  }

  lemma DistinctCons(q: Round, rest: seq<Round>)
    requires DistinctRounds(rest) && q !in rest
    ensures DistinctRounds([q] + rest)
  {
    assert forall j | 0 <= j < |rest| :: rest[j] in rest;
  }

  lemma {:induction false} RoundsDistinct(nspd: real, wr: int, wtMin: int, wtMax: int)
    requires nspd > 0.0 && wtMin <= wr && wtMin <= wtMax
    ensures DistinctRounds(Rounds(nspd, wr, wtMin, wtMax))
    decreases SpeedsLeft(nspd), wtMax - wr
  {
    if nspd <= MAXDATASPD {
      if wr > wtMax {
        SpeedDoubles(nspd);
        RoundsDistinct(2.0 * nspd, wtMin, wtMin, wtMax);
      } else {
        var rest := Rounds(nspd, wr + 1, wtMin, wtMax);
        RoundsDistinct(nspd, wr + 1, wtMin, wtMax);
        RoundsAhead(nspd, wr + 1, wtMin, wtMax, Round(nspd, wr));
        DistinctCons(Round(nspd, wr), rest);
      }
    }
  }

  lemma {:induction false} SequentialCount(rounds: seq<Round>, cfg: Config)
    requires DistinctRounds(rounds)
    ensures multiset(WorkerConfigs(rounds, 0, 1))[cfg] ==
            var q := Round(cfg.nspd, cfg.wr); if q in rounds && DecodedFrom(q, 0, cfg) && Muxed(cfg) then 1 else 0
  {
    if rounds != [] {
      var q := Round(cfg.nspd, cfg.wr);
      SequentialCount(rounds[1..], cfg);
      ItersCount(rounds[0], 0, cfg);
      assert multiset(WorkerConfigs(rounds, 0, 1))
             == multiset(Iters(rounds[0], 0, 1)) + multiset(WorkerConfigs(rounds[1..], 0, 1));
      assert q in rounds <==> q == rounds[0] || q in rounds[1..];
      assert DecodedFrom(rounds[0], 0, cfg) ==> q == rounds[0];
    }
  }

  ghost predicate PowerPartition(cfg: Config) {
    && IsPowerOfTwo(cfg.ndwl) && cfg.ndwl <= MAXDATAN
    && IsPowerOfTwo(cfg.ndbl) && cfg.ndbl <= MAXDATAN
    && IsPowerOfTwo(cfg.ndcm) && cfg.ndcm <= MAX_COL_MUX
  }

  /** A grid point: Nspd a doubling of its minimum, a wire type of the range, and every partition
      count a power of two within its bound. */
  ghost predicate InGrid(nspdMin: real, wtMin: int, wtMax: int, cfg: Config)
    requires nspdMin > 0.0
  {
    && IsRound(nspdMin, wtMin, wtMax, Round(cfg.nspd, cfg.wr))
    && PowerPartition(cfg)
    && IsPowerOfTwo(cfg.ndsam1) && cfg.ndsam1 <= MAX_COL_MUX
    && IsPowerOfTwo(cfg.ndsam2) && cfg.ndsam2 <= MAX_COL_MUX
  }

  ghost predicate PowerFrom(x: nat, k: nat) {
    exists j: nat :: j >= k && x == Pow2(j)
  }

  lemma PowerFromNext(x: nat, k: nat)
    ensures PowerFrom(x, k) <==> x == Pow2(k) || PowerFrom(x, k + 1)
  {
    if PowerFrom(x, k) {
      var j: nat :| j >= k && x == Pow2(j);
      assert j == k || j >= k + 1;
    }
    if x == Pow2(k) {
      assert k >= k && x == Pow2(k);
    }
  }

  lemma {:induction false} DoublesIsPower(x: nat, k: nat)
    ensures Doubles(x, Pow2(k)) <==> x <= MAX_COL_MUX && PowerFrom(x, k)
    decreases MAX_COL_MUX + 1 - Pow2(k)
  {
    if Pow2(k) <= MAX_COL_MUX {
      DoublesIsPower(x, k + 1);
      PowerFromNext(x, k);
    } else {
      forall j: nat
        ensures j >= k ==> Pow2(j) > MAX_COL_MUX
      {
        Pow2Monotone(k, j);
      }
    }
  }

  lemma ExponentBelow(x: nat, bound: nat, j: nat)
    requires x == Pow2(j)
    ensures x < Pow2(bound) <==> j < bound
  {
    Pow2Monotone(j, bound);
    Pow2Monotone(bound, j);
    Pow2Monotone(j + 1, bound);
  }

  lemma DecodedArePowers(q: Round, i: nat)
    requires i < NITER
    ensures PowerPartition(Decode(q, i))
  {
    DecodeBijective(i, High(i), Middle(i), Low(i));
    Pow2Monotone(High(i), 9);
    Pow2Monotone(Middle(i), 9);
    Pow2Monotone(Low(i), 8);
    assert Pow2(9) == 512 && Pow2(8) == 256;
  }

  lemma PowersAreDecoded(q: Round, cfg: Config) returns (i: nat)
    requires q == Round(cfg.nspd, cfg.wr) && PowerPartition(cfg)
    ensures i < NITER && SameBase(cfg, Decode(q, i))
  {
    var a: nat :| cfg.ndwl == Pow2(a);
    var b: nat :| cfg.ndbl == Pow2(b);
    var c: nat :| cfg.ndcm == Pow2(c);
    assert Pow2(10) == 1024 && Pow2(9) == 512;
    ExponentBelow(cfg.ndwl, 10, a);
    ExponentBelow(cfg.ndbl, 10, b);
    ExponentBelow(cfg.ndcm, 9, c);
    i := (a * NDBL_NITER + b) * NDCM_NITER + c;
    DecodeBijective(i, a, b, c);
    assert Decode(q, i).ndwl == Pow2(High(i)) && Decode(q, i).ndbl == Pow2(Middle(i)) && Decode(q, i).ndcm == Pow2(Low(i));
  }

  lemma DecodedIsPowers(q: Round, cfg: Config)
    requires q == Round(cfg.nspd, cfg.wr)
    ensures DecodedFrom(q, 0, cfg) <==> PowerPartition(cfg)
  {
    if DecodedFrom(q, 0, cfg) {
      var i: nat :| 0 <= i < NITER && SameBase(cfg, Decode(q, i));
      DecodedArePowers(q, i);
    }
    if PowerPartition(cfg) {
      var i := PowersAreDecoded(q, cfg);
      assert 0 <= i < NITER && SameBase(cfg, Decode(q, i));
    }
  }

  lemma MuxedIsPowers(cfg: Config)
    ensures Muxed(cfg) <==> IsPowerOfTwo(cfg.ndsam1) && cfg.ndsam1 <= MAX_COL_MUX
                            && IsPowerOfTwo(cfg.ndsam2) && cfg.ndsam2 <= MAX_COL_MUX
  {
    assert Pow2(0) == 1;
    DoublesIsPower(cfg.ndsam1, 0);
    DoublesIsPower(cfg.ndsam2, 0);
    assert forall x: nat :: PowerFrom(x, 0) <==> IsPowerOfTwo(x);
  }

  /** For every number of threads, the workers together visit each grid point exactly once and
      nothing else. */
  lemma SweepCoversGrid(nspdMin: real, wtMin: int, wtMax: int, nthreads: nat, cfg: Config)
    requires nspdMin > 0.0 && wtMin <= wtMax && nthreads >= 1
    ensures WorkersUnion(Rounds(nspdMin, wtMin, wtMin, wtMax), nthreads, nthreads)[cfg]
            == if InGrid(nspdMin, wtMin, wtMax, cfg) then 1 else 0
  {
    var rounds, q := Rounds(nspdMin, wtMin, wtMin, wtMax), Round(cfg.nspd, cfg.wr);
    WorkersPartition(rounds, nthreads);
    RoundsDistinct(nspdMin, wtMin, wtMin, wtMax);
    RoundsExact(nspdMin, wtMin, wtMin, wtMax, q);
    SequentialCount(rounds, cfg);
    DecodedIsPowers(q, cfg);
    MuxedIsPowers(cfg);
    assert IsRound(nspdMin, wtMin, wtMax, q) ==> q.wr >= wtMin;
  }

  /** y is reached from x by doubling. */
  ghost predicate DoubledFrom(x: real, y: real) {
    exists n: nat :: y == SpeedAt(x, n)
  }

  lemma DoubledNext(x: real, y: real)
    ensures DoubledFrom(x, y) <==> y == x || DoubledFrom(2.0 * x, y)
  {
    assert SpeedAt(x, 0) == x;
    if DoubledFrom(x, y) {
      var n: nat :| y == SpeedAt(x, n);
      if n > 0 {
        SpeedShifts(x, n - 1);
      }
    }
    if DoubledFrom(2.0 * x, y) {
      var n: nat :| y == SpeedAt(2.0 * x, n);
      SpeedShifts(x, n);
    }
  }

  lemma {:induction false} DoubledAtLeast(x: real, n: nat)
    requires x > 0.0
    ensures SpeedAt(x, n) >= x
  {
    if n > 0 {
      DoubledAtLeast(x, n - 1);
    }
  }

  /** n doublings multiply by 2^n. */
  lemma {:induction false} SpeedIsPower(x: real, n: nat)
    ensures SpeedAt(x, n) == x * Pow2(n) as real
  {
    if n > 0 {
      SpeedIsPower(x, n - 1);
      assert Pow2(n) as real == 2.0 * Pow2(n - 1) as real;
    }
  }

  /** The speeds of the rounds: the doublings of the least one up to 256. */
  lemma {:induction false} SpeedsOfRounds(nspdMin: real, wtMin: int, wtMax: int, q: Round, left: nat)
    requires nspdMin > 0.0 && left == SpeedsLeft(nspdMin)
    ensures IsRound(nspdMin, wtMin, wtMax, q) <==> wtMin <= q.wr <= wtMax && q.nspd <= 256.0 && DoubledFrom(nspdMin, q.nspd)
    decreases left
  {
    DoubledNext(nspdMin, q.nspd);
    if nspdMin > MAXDATASPD {
      BeyondBound(nspdMin, wtMin, wtMax, q);
    } else {
      SpeedDoubles(nspdMin);
      SpeedsOfRounds(2.0 * nspdMin, wtMin, wtMax, q, SpeedsLeft(2.0 * nspdMin));
      NextSpeed(nspdMin, wtMin, wtMax, q);
    }
  }

  lemma BeyondBound(nspdMin: real, wtMin: int, wtMax: int, q: Round)
    requires nspdMin > MAXDATASPD
    ensures !IsRound(nspdMin, wtMin, wtMax, q)
    ensures DoubledFrom(nspdMin, q.nspd) ==> q.nspd > 256.0
  {
    if DoubledFrom(nspdMin, q.nspd) {
      var n: nat :| q.nspd == SpeedAt(nspdMin, n);
      DoubledAtLeast(nspdMin, n);
    }
  }

  /** The grid in plain numbers: up to 512 word-line and bit-line divisions and 256 columns on each of the
      three multiplexing levels, all powers of two, and Nspd a doubling of its least value up to 256. */
  lemma GridMeans(nspdMin: real, wtMin: int, wtMax: int, cfg: Config)
    requires nspdMin > 0.0
    ensures InGrid(nspdMin, wtMin, wtMax, cfg) <==>
              && wtMin <= cfg.wr <= wtMax && cfg.nspd <= 256.0 && DoubledFrom(nspdMin, cfg.nspd)
              && IsPowerOfTwo(cfg.ndwl) && cfg.ndwl <= 512 && IsPowerOfTwo(cfg.ndbl) && cfg.ndbl <= 512
              && IsPowerOfTwo(cfg.ndcm) && cfg.ndcm <= 256 && IsPowerOfTwo(cfg.ndsam1) && cfg.ndsam1 <= 256
              && IsPowerOfTwo(cfg.ndsam2) && cfg.ndsam2 <= 256
  {
    SpeedsOfRounds(nspdMin, wtMin, wtMax, Round(cfg.nspd, cfg.wr), SpeedsLeft(nspdMin));
  }

  /** Which digit of an iteration number decides which division. */
  lemma DecodeDigits(r: Round, iter: nat, a: nat, b: nat, c: nat)
    requires b < 10 && c < 9 && iter == (a * 10 + b) * 9 + c
    ensures Decode(r, iter) == Config(r.nspd, r.wr, Pow2(a), Pow2(b), Pow2(c), 0, 0)
  {
    DecodeBijective(iter, a, b, c);
    assert Decode(r, iter).ndwl == Pow2(High(iter)) && Decode(r, iter).ndbl == Pow2(Middle(iter))
           && Decode(r, iter).ndcm == Pow2(Low(iter));
  }
}
