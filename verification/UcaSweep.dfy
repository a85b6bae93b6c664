/** The strided sweep of `calc_time_mt_wrapper` over all partitions, one worker per thread. */
module UcaSweep {
  import opened PowersOfTwo
  import opened Sequences
  import opened UcaModel

  const MAXDATAN: nat := 512
  const MAXDATASPD := 256.0
  const MAX_COL_MUX: nat := 256

  const NDWL_NITER: nat := 10
  const NDBL_NITER: nat := 10
  const NDCM_NITER: nat := 9
  const NITER: nat := 900

  /** `calculate_time` as a deterministic function of the partition: None is an invalid one. */
  type Evaluator = Config -> Option<Metrics>

  /** One pass of the two outer loops: a value of Nspd and a wire type. */
  datatype Round = Round(nspd: real, wr: int)

  /** Ndwl, Ndbl and Ndcm reconstructed from the iteration number. */
  function Decode(r: Round, iter: nat): Config {
    Config(r.nspd, r.wr, Pow2(iter / (NDBL_NITER * NDCM_NITER)), Pow2((iter / NDCM_NITER) % NDBL_NITER),
           Pow2(iter % NDCM_NITER), 0, 0)
  }

  // ----- the partitions each loop has still to visit -----

  ghost function Lev2(base: Config, s1: nat, s2: nat): seq<Config>
    decreases MAX_COL_MUX + 1 - s2, base
  {
    if s2 == 0 || s2 > MAX_COL_MUX then [] else [base.(ndsam1 := s1, ndsam2 := s2)] + Lev2(base, s1, 2 * s2)
  }

  ghost function Lev1(base: Config, s1: nat): seq<Config>
    decreases MAX_COL_MUX + 1 - s1, base
  {
    if s1 == 0 || s1 > MAX_COL_MUX then [] else Lev2(base, s1, 1) + Lev1(base, 2 * s1)
  }

  ghost function Iters(r: Round, iter: nat, stride: nat): seq<Config>
    requires stride >= 1
    decreases NITER - iter, r
  {
    if iter >= NITER then [] else Lev1(Decode(r, iter), 1) + Iters(r, iter + stride, stride)
  }

  /** How many more doublings Nspd has before it exceeds its bound, at most. */
  ghost function SpeedsLeft(nspd: real): nat
    requires nspd > 0.0
  {
    if nspd > MAXDATASPD then 0 else (assert MAXDATASPD / nspd >= 0.0; (MAXDATASPD / nspd).Floor + 1)
  }

  lemma SpeedDoubles(nspd: real)
    requires 0.0 < nspd <= MAXDATASPD
    ensures SpeedsLeft(2.0 * nspd) < SpeedsLeft(nspd)
  {
    var x, y := MAXDATASPD / nspd, MAXDATASPD / (2.0 * nspd);
    assert x * nspd == MAXDATASPD;
    assert x >= 1.0 && y == x / 2.0;
  }

  /** Nspd after n rounds of its loop. */
  ghost function SpeedAt(nspd: real, n: nat): real {
    if n == 0 then nspd else 2.0 * SpeedAt(nspd, n - 1)
  }

  lemma {:induction false} SpeedShifts(nspd: real, n: nat)
    ensures SpeedAt(2.0 * nspd, n) == SpeedAt(nspd, n + 1)
  {
    if n > 0 {
      SpeedShifts(nspd, n - 1);
    }
  }

  lemma {:induction false} SpeedPasses(nspd: real) returns (n: nat)
    requires nspd > 0.0
    ensures SpeedAt(nspd, n) > MAXDATASPD
    decreases SpeedsLeft(nspd)
  {
    if nspd > MAXDATASPD {
      n := 0;
    } else {
      SpeedDoubles(nspd);
      var m := SpeedPasses(2.0 * nspd);
      SpeedShifts(nspd, m);
      n := m + 1;
    }
  }

  lemma {:induction false} SpeedStaysZero(n: nat)
    ensures SpeedAt(0.0, n) == 0.0
  {
    if n > 0 {
      SpeedStaysZero(n - 1);
    }
  }

  /** The loop over Nspd ends if and only if it starts above zero; it starts at zero for an accepted
      request without output bits. */
  lemma SweepEnds(nspdMin: real)
    requires nspdMin >= 0.0
    ensures (exists n: nat :: SpeedAt(nspdMin, n) > MAXDATASPD) <==> nspdMin > 0.0
  {
    if nspdMin > 0.0 {
      var n := SpeedPasses(nspdMin);
    } else {
      forall n: nat
        ensures !(SpeedAt(nspdMin, n) > MAXDATASPD)
      {
        SpeedStaysZero(n);
      }
    }
  }

  ghost function Rounds(nspd: real, wr: int, wtMin: int, wtMax: int): seq<Round>
    requires nspd > 0.0 && wtMin <= wtMax
    decreases SpeedsLeft(nspd), wtMax - wr
  {
    if nspd > MAXDATASPD then []
    else if wr > wtMax then
      (SpeedDoubles(nspd); Rounds(2.0 * nspd, wtMin, wtMin, wtMax))
    else [Round(nspd, wr)] + Rounds(nspd, wr + 1, wtMin, wtMax)
  }

  ghost function WorkerConfigs(rounds: seq<Round>, tid: nat, stride: nat): seq<Config>
    requires stride >= 1
  {
    if rounds == [] then [] else Iters(rounds[0], tid, stride) + WorkerConfigs(rounds[1..], tid, stride)
  }

  /** The valid partitions among a list, with their results. */
  ghost function ValidOrgs(eval: Evaluator, cfgs: seq<Config>): seq<Org> {
    if cfgs == [] then []
    else
      var last := cfgs[|cfgs| - 1];
      ValidOrgs(eval, cfgs[..|cfgs| - 1]) + (match eval(last) case Some(m) => [Org(last, m)] case None => [])
  }

  /** What the loop over the wire types has still to visit. */
  ghost function WireConfigs(nspd: real, wr: int, wtMax: int, tid: nat, stride: nat): seq<Config>
    requires stride >= 1
    decreases wtMax - wr
  {
    if wr > wtMax then [] else Iters(Round(nspd, wr), tid, stride) + WireConfigs(nspd, wr + 1, wtMax, tid, stride)
  }

  lemma WireStep(nspd: real, wr: int, wtMax: int, tid: nat, stride: nat, before: seq<Config>, after: seq<Config>)
    requires wr <= wtMax && stride >= 1 && after == before + Iters(Round(nspd, wr), tid, stride)
    ensures after + WireConfigs(nspd, wr + 1, wtMax, tid, stride) == before + WireConfigs(nspd, wr, wtMax, tid, stride)
  {
    Advance(before, Iters(Round(nspd, wr), tid, stride), WireConfigs(nspd, wr + 1, wtMax, tid, stride),
            WireConfigs(nspd, wr, wtMax, tid, stride));
  }

  lemma HeadRound(nspd: real, wr: int, wtMin: int, wtMax: int, tid: nat, stride: nat)
    requires 0.0 < nspd <= MAXDATASPD && wtMin <= wtMax && wr <= wtMax && stride >= 1
    ensures WorkerConfigs(Rounds(nspd, wr, wtMin, wtMax), tid, stride)
            == Iters(Round(nspd, wr), tid, stride) + WorkerConfigs(Rounds(nspd, wr + 1, wtMin, wtMax), tid, stride)
  {
    var rest := Rounds(nspd, wr + 1, wtMin, wtMax);
    assert ([Round(nspd, wr)] + rest)[1..] == rest;
  }

  /** The rounds of one speed are its wire types. */
  lemma {:induction false} WiresAreRounds(nspd: real, wr: int, wtMin: int, wtMax: int, tid: nat, stride: nat)
    requires 0.0 < nspd <= MAXDATASPD && wtMin <= wtMax && stride >= 1
    ensures WorkerConfigs(Rounds(nspd, wr, wtMin, wtMax), tid, stride)
            == WireConfigs(nspd, wr, wtMax, tid, stride) + WorkerConfigs(Rounds(2.0 * nspd, wtMin, wtMin, wtMax), tid, stride)
    decreases wtMax - wr
  {
    if wr <= wtMax {
      HeadRound(nspd, wr, wtMin, wtMax, tid, stride);
      WiresAreRounds(nspd, wr + 1, wtMin, wtMax, tid, stride);
      Advance(Iters(Round(nspd, wr), tid, stride), WireConfigs(nspd, wr + 1, wtMax, tid, stride),
              WorkerConfigs(Rounds(2.0 * nspd, wtMin, wtMin, wtMax), tid, stride),
              WorkerConfigs(Rounds(nspd, wr + 1, wtMin, wtMax), tid, stride));
    } else {
      AllWiresDone(nspd, wr, wtMin, wtMax);
    }
  }

  lemma AllWiresDone(nspd: real, wr: int, wtMin: int, wtMax: int)
    requires 0.0 < nspd <= MAXDATASPD && wtMin <= wtMax < wr
    ensures Rounds(nspd, wr, wtMin, wtMax) == Rounds(2.0 * nspd, wtMin, wtMin, wtMax)
  {}

  lemma SpeedStep(nspd: real, wtMin: int, wtMax: int, tid: nat, stride: nat, before: seq<Config>, after: seq<Config>)
    requires 0.0 < nspd <= MAXDATASPD && wtMin <= wtMax && stride >= 1
    requires after == before + WireConfigs(nspd, wtMin, wtMax, tid, stride)
    ensures after + WorkerConfigs(Rounds(2.0 * nspd, wtMin, wtMin, wtMax), tid, stride)
            == before + WorkerConfigs(Rounds(nspd, wtMin, wtMin, wtMax), tid, stride)
  {
    WiresAreRounds(nspd, wtMin, wtMin, wtMax, tid, stride);
    Advance(before, WireConfigs(nspd, wtMin, wtMax, tid, stride), WorkerConfigs(Rounds(2.0 * nspd, wtMin, wtMin, wtMax), tid, stride),
            WorkerConfigs(Rounds(nspd, wtMin, wtMin, wtMax), tid, stride));
  }

  lemma NoRounds(nspd: real, wtMin: int, wtMax: int, tid: nat, stride: nat, tried: seq<Config>)
    requires nspd > MAXDATASPD && wtMin <= wtMax && stride >= 1
    ensures tried + WorkerConfigs(Rounds(nspd, wtMin, wtMin, wtMax), tid, stride) == tried
  {}

  lemma ItersStep(r: Round, iter: nat, stride: nat, before: seq<Config>, after: seq<Config>)
    requires iter < NITER && stride >= 1 && after == before + Lev1(Decode(r, iter), 1)
    ensures after + Iters(r, iter + stride, stride) == before + Iters(r, iter, stride)
  {
    Advance(before, Lev1(Decode(r, iter), 1), Iters(r, iter + stride, stride), Iters(r, iter, stride));
  }

  lemma Lev1Step(base: Config, s1: nat, before: seq<Config>, after: seq<Config>)
    requires 1 <= s1 <= MAX_COL_MUX && after == before + Lev2(base, s1, 1)
    ensures after + Lev1(base, 2 * s1) == before + Lev1(base, s1)
  {
    Advance(before, Lev2(base, s1, 1), Lev1(base, 2 * s1), Lev1(base, s1));
  }

  lemma Lev2Step(base: Config, s1: nat, s2: nat, before: seq<Config>, after: seq<Config>)
    requires 1 <= s2 <= MAX_COL_MUX && after == before + [base.(ndsam1 := s1, ndsam2 := s2)]
    ensures after + Lev2(base, s1, 2 * s2) == before + Lev2(base, s1, s2)
  {
    Advance(before, [base.(ndsam1 := s1, ndsam2 := s2)], Lev2(base, s1, 2 * s2), Lev2(base, s1, s2));
  }

  lemma NoLev2Left(base: Config, s1: nat, s2: nat, tried: seq<Config>)
    requires s2 > MAX_COL_MUX
    ensures tried + Lev2(base, s1, s2) == tried
  {}

  /** A worker: the list it fills, the blank array at its back, and the unused list's blank. */
  class Worker {
    const eval: Evaluator
    const heap: Heap
    const res: MinValues
    var arr: seq<MemArray>
    var blank: nat
    var spare: nat
    /** The partitions tried so far, and what was allocated before. */
    ghost var tried: seq<Config>
    ghost const others: set<nat>

    ghost predicate Valid()
      reads this, heap, res
    {
      && heap.Valid()
      && DistinctIds(arr) && blank != spare && blank !in Ids(arr) && spare !in Ids(arr)
      && others !! (Ids(arr) + {blank, spare}) && heap.live == others + Ids(arr) + {blank, spare}
      && OrgsOf(arr) == ValidOrgs(eval, tried) && res.v == Least(FiguresOf(OrgsOf(arr)))
    }

    constructor (eval: Evaluator, heap: Heap)
      requires heap.Valid()
      modifies heap
      ensures Valid() && this.eval == eval && this.heap == heap && fresh(res)
      ensures arr == [] && tried == [] && others == old(heap.live)
    {
      var data := heap.New();
      var tag := heap.New();
      this.eval, this.heap := eval, heap;
      this.res := new MinValues();
      arr, blank, spare, tried := [], data, tag, [];
      others := old(heap.live);
    }

    /** The body of the loop nest: a valid partition fills the blank array and appends a new one. */
    method Try(cfg: Config)
      requires Valid()
      modifies this`arr, this`blank, this`tried, heap, res
      ensures Valid() && tried == old(tried) + [cfg]
    {
      var r := eval(cfg);
      assert (tried + [cfg])[..|tried|] == tried;
      if r.Some? {
        var a := MemArray(blank, Org(cfg, r.value));
        AddArray(arr, a);
        res.Update(r.value.figures);
        arr := arr + [a];
        blank := heap.New();
      }
      tried := tried + [cfg];
    }

    /** One round of the innermost loop. */
    method TryLev2(base: Config, s1: nat, s2: nat, ghost all: seq<Config>)
      requires Valid() && 1 <= s2 <= MAX_COL_MUX && tried + Lev2(base, s1, s2) == all
      modifies this`arr, this`blank, this`tried, heap, res
      ensures Valid() && tried + Lev2(base, s1, 2 * s2) == all
    {
      ghost var before := tried;
      Try(base.(ndsam1 := s1, ndsam2 := s2));
      Lev2Step(base, s1, s2, before, tried);
    }

    method SweepLev2(base: Config, s1: nat)
      requires Valid()
      modifies this`arr, this`blank, this`tried, heap, res
      ensures Valid() && tried == old(tried) + Lev2(base, s1, 1)
    {
      ghost var all := tried + Lev2(base, s1, 1);
      var s2 := 1;
      while s2 <= MAX_COL_MUX
        invariant s2 >= 1 && Valid() && tried + Lev2(base, s1, s2) == all
      {
        TryLev2(base, s1, s2, all);
        s2 := s2 * 2;
      }
      NoLev2Left(base, s1, s2, tried);
    }

    method SweepLev1(base: Config)
      requires Valid()
      modifies this`arr, this`blank, this`tried, heap, res
      ensures Valid() && tried == old(tried) + Lev1(base, 1)
    {
      ghost var all := tried + Lev1(base, 1);
      var s1 := 1;
      while s1 <= MAX_COL_MUX
        invariant s1 >= 1 && Valid() && tried + Lev1(base, s1) == all
      {
        ghost var before := tried;
        SweepLev2(base, s1);
        Lev1Step(base, s1, before, tried);
        s1 := s1 * 2;
      }
    }

    method SweepIters(r: Round, tid: nat, stride: nat)
      requires Valid() && stride >= 1
      modifies this`arr, this`blank, this`tried, heap, res
      ensures Valid() && tried == old(tried) + Iters(r, tid, stride)
    {
      ghost var all := tried + Iters(r, tid, stride);
      var iter := tid;
      while iter < NITER
        invariant iter >= 0 && Valid() && tried + Iters(r, iter, stride) == all
      {
        ghost var before := tried;
        SweepLev1(Decode(r, iter));
        ItersStep(r, iter, stride, before, tried);
        iter := iter + stride;
      }
    }

    /** The loop over the wire types. */
    method SweepWires(tid: nat, stride: nat, nspd: real, wtMin: int, wtMax: int)
      requires Valid() && stride >= 1
      modifies this`arr, this`blank, this`tried, heap, res
      ensures Valid() && tried == old(tried) + WireConfigs(nspd, wtMin, wtMax, tid, stride)
    {
      ghost var all := tried + WireConfigs(nspd, wtMin, wtMax, tid, stride);
      var wr := wtMin;
      while wr <= wtMax
        invariant Valid() && tried + WireConfigs(nspd, wr, wtMax, tid, stride) == all
      {
        ghost var before := tried;
        SweepIters(Round(nspd, wr), tid, stride);
        WireStep(nspd, wr, wtMax, tid, stride, before, tried);
        wr := wr + 1;
      }
    }

    /** The outermost loop, over Nspd. */
    method Sweep(tid: nat, stride: nat, nspdMin: real, wtMin: int, wtMax: int)
      requires Valid() && stride >= 1 && nspdMin > 0.0 && wtMin <= wtMax && tried == []
      modifies this`arr, this`blank, this`tried, heap, res
      ensures Valid() && tried == WorkerConfigs(Rounds(nspdMin, wtMin, wtMin, wtMax), tid, stride)
    {
      ghost var all := WorkerConfigs(Rounds(nspdMin, wtMin, wtMin, wtMax), tid, stride);
      var nspd := nspdMin;
      ghost var left: int := SpeedPasses(nspdMin);
      while nspd <= MAXDATASPD
        invariant nspd > 0.0 && left >= 0 && SpeedAt(nspd, left) > MAXDATASPD && Valid()
        invariant tried + WorkerConfigs(Rounds(nspd, wtMin, wtMin, wtMax), tid, stride) == all
        decreases left
      {
        ghost var before := tried;
        SweepWires(tid, stride, nspd, wtMin, wtMax);
        SpeedStep(nspd, wtMin, wtMax, tid, stride, before, tried);
        SpeedShifts(nspd, left - 1);
        nspd, left := 2.0 * nspd, left - 1;
      }
      NoRounds(nspd, wtMin, wtMax, tid, stride, tried);
    }

    /** The end of the worker: both blank arrays are deleted, only the list stays allocated. */
    method Finish()
      requires Valid()
      modifies heap
      ensures heap.Valid() && heap.live == others + Ids(arr)
    {
      heap.Delete(blank);
      heap.Delete(spare);
    }
  }
}
