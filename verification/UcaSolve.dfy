/** `solve`: the parallel sweeps, the filters, the choice, and who owns the arrays at the end. */
module UcaSolve {
  import opened PowersOfTwo
  import opened Sorting
  import opened UcaFilter
  import opened UcaGrid
  import opened UcaModel
  import opened UcaOptimal
  import opened UcaSweep

  // ----- what a permutation of a list keeps -----

  function Map<T, U>(f: T -> U, s: seq<T>): (r: seq<U>)
    ensures |r| == |s| && forall i | 0 <= i < |r| :: r[i] == f(s[i])
  {
    seq(|s|, i requires 0 <= i < |s| => f(s[i]))
  }

  lemma TakeOut<T>(b: seq<T>, k: nat)
    requires k < |b|
    ensures multiset(b) == multiset(b[..k] + b[k + 1..]) + multiset{b[k]}
  {
    assert b == b[..k] + [b[k]] + b[k + 1..];
  }

  lemma MapTakeOut<T, U>(f: T -> U, b: seq<T>, k: nat)
    requires k < |b|
    ensures multiset(Map(f, b)) == multiset(Map(f, b[..k] + b[k + 1..])) + multiset{f(b[k])}
  {
    TakeOut(Map(f, b), k);
    assert Map(f, b)[..k] + Map(f, b)[k + 1..] == Map(f, b[..k] + b[k + 1..]);
  }

  lemma {:induction false} MapPermutes<T, U>(f: T -> U, a: seq<T>, b: seq<T>)
    requires multiset(a) == multiset(b)
    ensures multiset(Map(f, a)) == multiset(Map(f, b))
    decreases |a|
  {
    SameElements(b, a);
    if a != [] {
      var n := |a| - 1;
      assert a[n] in b;
      var k :| 0 <= k < |b| && b[k] == a[n];
      TakeOut(a, n);
      TakeOut(b, k);
      var front, rest := a[..n] + a[n + 1..], b[..k] + b[k + 1..];
      assert multiset(front) == multiset(a) - multiset{a[n]} == multiset(rest);
      MapPermutes(f, front, rest);
      MapTakeOut(f, a, n);
      MapTakeOut(f, b, k);
    }
  }

  lemma OrgsPermute(a: seq<MemArray>, b: seq<MemArray>)
    requires multiset(a) == multiset(b)
    ensures multiset(OrgsOf(a)) == multiset(OrgsOf(b))
    ensures Least(FiguresOf(OrgsOf(a))) == Least(FiguresOf(OrgsOf(b)))
  {
    var org, figures := (x: MemArray) => x.org, (x: MemArray) => x.org.m.figures;
    MapPermutes(org, a, b);
    MapPermutes(figures, a, b);
    assert OrgsOf(a) == Map(org, a) && OrgsOf(b) == Map(org, b);
    assert FiguresOf(OrgsOf(a)) == Map(figures, a) && FiguresOf(OrgsOf(b)) == Map(figures, b);
    LeastOfPermutation(FiguresOf(OrgsOf(a)), FiguresOf(OrgsOf(b)));
  }

  lemma CountTwice(b: seq<MemArray>, i: nat, j: nat)
    requires i < j < |b|
    ensures b[i] == b[j] ==> multiset(b)[b[i]] >= 2
  {
    assert b == b[..j] + [b[j]] + b[j + 1..];
    assert b[i] in b[..j];
  }

  lemma {:induction false} CountOnce(a: seq<MemArray>, x: MemArray)
    requires DistinctIds(a)
    ensures multiset(a)[x] <= 1
  {
    if a != [] {
      var n := |a| - 1;
      CountOnce(a[..n], x);
      assert a == a[..n] + [a[n]];
      if x == a[n] {
        assert forall i | 0 <= i < n :: a[..n][i] != x;
      }
    }
  }

  lemma SameIdSameArray(a: seq<MemArray>, x: MemArray, y: MemArray)
    requires DistinctIds(a) && x in a && y in a
    ensures x.id == y.id ==> x == y
  {
    var i :| 0 <= i < |a| && a[i] == x;
    var j :| 0 <= j < |a| && a[j] == y;
    assert i == j || i < j || j < i;
  }

  lemma OwnershipPermutes(a: seq<MemArray>, b: seq<MemArray>)
    requires multiset(a) == multiset(b) && DistinctIds(a)
    ensures DistinctIds(b) && Ids(b) == Ids(a)
  {
    SameElements(a, b);
    forall i, j | 0 <= i < j < |b|
      ensures b[i].id != b[j].id
    {
      CountTwice(b, i, j);
      CountOnce(a, b[i]);
      SameIdSameArray(a, b[i], b[j]);
    }
  }

  // ----- the parallel sweep -----

  /** How often an organisation is found: once for each time its partition is tried, if valid. */
  lemma {:induction false} ValidCount(eval: Evaluator, cfgs: seq<Config>, o: Org)
    ensures multiset(ValidOrgs(eval, cfgs))[o] == if eval(o.cfg) == Some(o.m) then multiset(cfgs)[o.cfg] else 0
  {
    if cfgs != [] {
      var n := |cfgs| - 1;
      ValidCount(eval, cfgs[..n], o);
      assert cfgs == cfgs[..n] + [cfgs[n]];
    }
  }

  lemma {:induction false} ValidConcat(eval: Evaluator, a: seq<Config>, b: seq<Config>)
    ensures ValidOrgs(eval, a + b) == ValidOrgs(eval, a) + ValidOrgs(eval, b)
    decreases |b|
  {
    if b == [] {
      assert a + b == a;
    } else {
      assert (a + b)[..|a + b| - 1] == a + b[..|b| - 1];
      ValidConcat(eval, a, b[..|b| - 1]);
    }
  }

  function Concat(lists: seq<seq<MemArray>>): seq<MemArray> {
    if lists == [] then [] else Concat(lists[..|lists| - 1]) + lists[|lists| - 1]
  }

  /** The result a sequential sweep would give: every valid grid point once. */
  ghost predicate ExactlyTheValid(eval: Evaluator, nspdMin: real, wtMin: int, wtMax: int, arrays: seq<MemArray>)
    requires nspdMin > 0.0
  {
    forall o: Org :: multiset(OrgsOf(arrays))[o]
      == if InGrid(nspdMin, wtMin, wtMax, o.cfg) && eval(o.cfg) == Some(o.m) then 1 else 0
  }

  /** One thread: a fresh worker, its sweep, and what it hands over. */
  method RunWorker(heap: Heap, eval: Evaluator, tid: nat, nthreads: nat, nspdMin: real, wtMin: int, wtMax: int,
                   ghost base: set<nat>, ghost before: seq<MemArray>)
    returns (list: seq<MemArray>, min: Figures)
    requires nthreads >= 1 && nspdMin > 0.0 && wtMin <= wtMax && OwnedBeside(heap, base, before)
    modifies heap
    ensures OwnedBeside(heap, base, before + list)
    ensures OrgsOf(list) == ValidOrgs(eval, WorkerConfigs(Rounds(nspdMin, wtMin, wtMin, wtMax), tid, nthreads))
    ensures min == Least(FiguresOf(OrgsOf(list)))
  {
    var worker := new Worker(eval, heap);
    worker.Sweep(tid, nthreads, nspdMin, wtMin, wtMax);
    worker.Finish();
    list, min := worker.arr, worker.res.v;
    OrgsConcat(before, list);
    JoinDistinct(before, list);
  }

  lemma JoinDistinct(a: seq<MemArray>, b: seq<MemArray>)
    requires DistinctIds(a) && DistinctIds(b) && Ids(a) !! Ids(b)
    ensures DistinctIds(a + b)
  {
    forall i, j | 0 <= i < |a| && 0 <= j < |b|
      ensures a[i].id != b[j].id
    {
      assert a[i].id in Ids(a) && b[j].id in Ids(b);
    }
  }

  /** All threads, joined. */
  method RunWorkers(heap: Heap, eval: Evaluator, nthreads: nat, nspdMin: real, wtMin: int, wtMax: int, ghost base: set<nat>)
    returns (lists: seq<seq<MemArray>>, mins: seq<Figures>, ghost tried: seq<Config>)
    requires nthreads >= 1 && nspdMin > 0.0 && wtMin <= wtMax && OwnedBeside(heap, base, [])
    modifies heap
    ensures |lists| == |mins| == nthreads && OwnedBeside(heap, base, Concat(lists))
    ensures OrgsOf(Concat(lists)) == ValidOrgs(eval, tried)
    ensures multiset(tried) == WorkersUnion(Rounds(nspdMin, wtMin, wtMin, wtMax), nthreads, nthreads)
    ensures forall t | 0 <= t < nthreads :: mins[t] == Least(FiguresOf(OrgsOf(lists[t])))
  {
    lists, mins, tried := [], [], [];
    ghost var rounds := Rounds(nspdMin, wtMin, wtMin, wtMax);
    for t := 0 to nthreads
      invariant |lists| == |mins| == t && OwnedBeside(heap, base, Concat(lists))
      invariant OrgsOf(Concat(lists)) == ValidOrgs(eval, tried)
      invariant multiset(tried) == WorkersUnion(rounds, nthreads, t)
      invariant forall i | 0 <= i < t :: mins[i] == Least(FiguresOf(OrgsOf(lists[i])))
    {
      ghost var before := Concat(lists);
      var list, min := RunWorker(heap, eval, t, nthreads, nspdMin, wtMin, wtMax, base, before);
      ghost var more := WorkerConfigs(rounds, t, nthreads);
      OrgsConcat(before, list);
      ValidConcat(eval, tried, more);
      assert (lists + [list])[..t] == lists;
      lists, mins, tried := lists + [list], mins + [min], tried + more;
    }
  }

  /** Each list sorted and merged into the result. */
  method MergeLists(lists: seq<seq<MemArray>>) returns (merged: seq<MemArray>)
    ensures multiset(merged) == multiset(Concat(lists)) && SortedBy(NotAfter(), merged)
  {
    NotAfterPreorder();
    merged := [];
    for t := 0 to |lists|
      invariant multiset(merged) == multiset(Concat(lists[..t])) && SortedBy(NotAfter(), merged)
    {
      assert lists[..t + 1][..t] == lists[..t];
      var sorted := Sort(lists[t], NotAfter());
      merged := Merge(merged, sorted, NotAfter());
    }
    assert lists[..|lists|] == lists;
  }

  lemma LeastNext(front: seq<MemArray>, list: seq<MemArray>)
    ensures Least(FiguresOf(OrgsOf(front + list))) == PointMin(Least(FiguresOf(OrgsOf(front))), Least(FiguresOf(OrgsOf(list))))
  {
    OrgsConcat(front, list);
    FiguresConcat(OrgsOf(front), OrgsOf(list));
    LeastConcat(FiguresOf(OrgsOf(front)), FiguresOf(OrgsOf(list)));
  }

  /** The minima of the workers folded. */
  method FoldMinima(lists: seq<seq<MemArray>>, mins: seq<Figures>) returns (min: Figures)
    requires |lists| == |mins| && forall t | 0 <= t < |lists| :: mins[t] == Least(FiguresOf(OrgsOf(lists[t])))
    ensures min == Least(FiguresOf(OrgsOf(Concat(lists))))
  {
    var minValues := new MinValues();
    for t := 0 to |lists|
      invariant minValues.v == Least(FiguresOf(OrgsOf(Concat(lists[..t]))))
    {
      assert lists[..t + 1][..t] == lists[..t];
      LeastNext(Concat(lists[..t]), lists[t]);
      minValues.Update(mins[t]);
    }
    assert lists[..|lists|] == lists;
    min := minValues.v;
  }

  /** What the order of the merged list means. */
  lemma SmallPartitionsFirst(arrays: seq<MemArray>)
    requires SortedBy(NotAfter(), arrays)
    ensures forall i, j | 0 <= i < j < |arrays| ::
              var (a, b) := (arrays[i].org.cfg, arrays[j].org.cfg);
              a.nspd <= b.nspd && (a.nspd == b.nspd ==> a.ndwl <= b.ndwl && (a.ndwl == b.ndwl ==> a.ndbl <= b.ndbl))
  {
    forall i, j | 0 <= i < j < |arrays|
      ensures var (a, b) := (arrays[i].org.cfg, arrays[j].org.cfg);
              a.nspd <= b.nspd && (a.nspd == b.nspd ==> a.ndwl <= b.ndwl && (a.ndwl == b.ndwl ==> a.ndbl <= b.ndbl))
    {
      assert NotAfter()(arrays[i], arrays[j]);
      NotBefore(arrays[i].org, arrays[j].org);
    }
  }

  /** The parallel sweep: for every number of threads the merged list is a sorted arrangement of
      exactly the valid arrays of the grid, and the merged minimum is their pointwise minimum. */
  method ParallelSweep(heap: Heap, eval: Evaluator, nthreads: nat, nspdMin: real, wtMin: int, wtMax: int, ghost base: set<nat>)
    returns (arrays: seq<MemArray>, min: Figures)
    requires nthreads >= 1 && nspdMin > 0.0 && wtMin <= wtMax && OwnedBeside(heap, base, [])
    modifies heap
    ensures OwnedBeside(heap, base, arrays) && SortedBy(NotAfter(), arrays)
    ensures ExactlyTheValid(eval, nspdMin, wtMin, wtMax, arrays)
    ensures min == Least(FiguresOf(OrgsOf(arrays)))
    ensures forall i, j | 0 <= i < j < |arrays| ::
              var (a, b) := (arrays[i].org.cfg, arrays[j].org.cfg);
              a.nspd <= b.nspd && (a.nspd == b.nspd ==> a.ndwl <= b.ndwl && (a.ndwl == b.ndwl ==> a.ndbl <= b.ndbl))
  {
    var lists, mins;
    ghost var tried;
    lists, mins, tried := RunWorkers(heap, eval, nthreads, nspdMin, wtMin, wtMax, base);
    arrays := MergeLists(lists);
    min := FoldMinima(lists, mins);
    OwnershipPermutes(Concat(lists), arrays);
    OrgsPermute(arrays, Concat(lists));
    forall o: Org
      ensures multiset(OrgsOf(arrays))[o] == if InGrid(nspdMin, wtMin, wtMax, o.cfg) && eval(o.cfg) == Some(o.m) then 1 else 0
    {
      ValidCount(eval, tried, o);
      SweepCoversGrid(nspdMin, wtMin, wtMax, nthreads, o.cfg);
    }
    SmallPartitionsFirst(arrays);
  }

  // ----- the candidates -----

  /** The configuration as far as the choice depends on it; plain means a RAM, CAM or fully
      associative cache, which has no separate tag array. */
  datatype Options = Options(plain: bool, fastAccess: bool, seqAccess: bool, ed: int, wt: Figures, dev: Figures,
                             nthreads: nat, wtMin: int, wtMax: int, nspdMin: real)

  function Max(x: real, y: real): real {
    if x > y then x else y
  }

  /** `find_delay`. */
  function AccessTime(opts: Options, tag: Option<MemArray>, data: Metrics): real {
    match tag
    case None => data.figures.delay
    case Some(t) =>
      var tagTime := t.org.m.figures.delay;
      if opts.fastAccess then Max(tagTime, data.figures.delay)
      else if opts.seqAccess then tagTime + data.figures.delay
      else Max(tagTime + data.senseampMuxDecoder, data.beforeDriver) + data.fromDriver
  }

  /** `find_delay`, `find_energy`, `find_area` and `find_cyc` for a tag and a data array. */
  function Combine(opts: Options, tag: Option<MemArray>, data: MemArray): UcaOrg {
    var d := data.org.m;
    match tag
    case None =>
      UcaOrg(tag, data, Figures(AccessTime(opts, tag, d), d.figures.dyn, d.figures.leakage, d.height * d.width, d.figures.cyc))
    case Some(t) =>
      var g := t.org.m;
      UcaOrg(tag, data, Figures(AccessTime(opts, tag, d), d.figures.dyn + g.figures.dyn, d.figures.leakage + g.figures.leakage,
                                Max(g.height, d.height) * (g.width + d.width), Max(g.figures.cyc, d.figures.cyc)))
  }

  /** A data array alone keeps its figures. Beside a tag array the energies add up, the slower cycle counts,
      and the area is the box around both side by side. The access time is the larger delay in fast mode
      and the sum in sequential mode; otherwise the block waits for the way select or for its own read,
      whichever is later, and then leaves the array. */
  lemma PairFigures(opts: Options, tag: Option<MemArray>, data: MemArray) returns (height: real, width: real)
    ensures var (f, d) := (Combine(opts, tag, data).figures, data.org.m);
            match tag
            case None =>
              && f.delay == d.figures.delay && f.dyn == d.figures.dyn && f.leakage == d.figures.leakage
              && f.cyc == d.figures.cyc && height == d.height && width == d.width
            case Some(a) =>
              var g := a.org.m;
              && (opts.fastAccess ==>
                    f.delay >= g.figures.delay && f.delay >= d.figures.delay && (f.delay == g.figures.delay || f.delay == d.figures.delay))
              && (!opts.fastAccess && opts.seqAccess ==> f.delay == g.figures.delay + d.figures.delay)
              && (!opts.fastAccess && !opts.seqAccess ==>
                    var (select, read) := (g.figures.delay + d.senseampMuxDecoder + d.fromDriver, d.beforeDriver + d.fromDriver);
                    f.delay >= select && f.delay >= read && (f.delay == select || f.delay == read))
              && f.dyn == g.figures.dyn + d.figures.dyn && f.leakage == g.figures.leakage + d.figures.leakage
              && f.cyc >= g.figures.cyc && f.cyc >= d.figures.cyc && (f.cyc == g.figures.cyc || f.cyc == d.figures.cyc)
              && width == g.width + d.width
              && height >= g.height && height >= d.height && (height == g.height || height == d.height)
    ensures Combine(opts, tag, data).figures.area == height * width
  {
    var d := data.org.m;
    match tag
    case None => height, width := d.height, d.width;
    case Some(a) => height, width := Max(a.org.m.height, d.height), a.org.m.width + d.width;
  }

  lemma CombinePositive(opts: Options, tag: Option<MemArray>, data: MemArray)
    requires PositiveMetrics(data.org.m) && (tag.Some? ==> PositiveMetrics(tag.value.org.m))
    ensures PositiveFigures(Combine(opts, tag, data).figures)
  {
    var d := data.org.m;
    PositiveArea(d.height, d.width);
    if tag.Some? {
      var g := tag.value.org.m;
      PositiveArea(Max(g.height, d.height), g.width + d.width);
    }
  }

  lemma PositiveArea(h: real, w: real)
    requires h > 0.0 && w > 0.0
    ensures h * w > 0.0
  {}

  function Candidates(opts: Options, tag: Option<MemArray>, data: seq<MemArray>): (cands: seq<UcaOrg>)
    ensures |cands| == |data| && forall i | 0 <= i < |cands| :: cands[i] == Combine(opts, tag, data[i])
  {
    seq(|data|, i requires 0 <= i < |data| => Combine(opts, tag, data[i]))
  }

  /** The objective of `find_optimal_uca`. */
  function Objective(opts: Options, min: Figures): (j: Judge)
    requires min.delay != 0.0 && min.dyn != 0.0 && min.leakage != 0.0 && min.cyc != 0.0 && min.area != 0.0
  {
    if opts.ed == 1 then
      Judge((o: UcaOrg) => true, (o: UcaOrg) => (o.figures.delay / min.delay) * (o.figures.dyn / min.dyn), false)
    else if opts.ed == 2 then
      Judge((o: UcaOrg) => true,
            (o: UcaOrg) => (o.figures.delay / min.delay) * (o.figures.delay / min.delay) * (o.figures.dyn / min.dyn), false)
    else
      Judge((o: UcaOrg) => MeetsBounds(o.figures, min, opts.dev), (o: UcaOrg) => WeightedCost(o.figures, min, opts.wt), true)
  }

  lemma RatioProduct(x: real, y: real, m: real, n: real)
    requires m > 0.0 && n > 0.0
    ensures (x / m) * (y / n) * (m * n) == x * y
  {
    var p, q := x / m, y / n;
    assert p * m == x && q * n == y;
    assert p * q * (m * n) == (p * m) * (q * n);
  }

  lemma ProductOrder(x: real, y: real, x2: real, y2: real, m: real, n: real, c: real, c2: real, s: real)
    requires m > 0.0 && n > 0.0 && c == (x / m) * (y / n) && c2 == (x2 / m) * (y2 / n) && s == m * n
    ensures c <= c2 <==> x * y <= x2 * y2
  {
    RatioProduct(x, y, m, n);
    RatioProduct(x2, y2, m, n);
    ScaledOrder(c, c2, s);
  }

  lemma ScaledOrder(c: real, c2: real, s: real)
    requires s > 0.0
    ensures c <= c2 <==> c * s <= c2 * s
  {}

  lemma DelayTimesEnergy(opts: Options, min: Figures, a: UcaOrg, b: UcaOrg, f: Figures, g: Figures) returns (x: real, y: real)
    requires PositiveFigures(min) && a.figures == f && b.figures == g && opts.ed == 1
    ensures x == f.delay * f.dyn && y == g.delay * g.dyn
    ensures Objective(opts, min).cost(a) <= Objective(opts, min).cost(b) <==> x <= y
  {
    x, y := f.delay * f.dyn, g.delay * g.dyn;
    ProductOrder(f.delay, f.dyn, g.delay, g.dyn, min.delay, min.dyn, Objective(opts, min).cost(a), Objective(opts, min).cost(b),
                 min.delay * min.dyn);
  }

  lemma DelaySquaredTimesEnergy(opts: Options, min: Figures, a: UcaOrg, b: UcaOrg, f: Figures, g: Figures)
    returns (x: real, y: real)
    requires PositiveFigures(min) && a.figures == f && b.figures == g && opts.ed == 2
    ensures x == f.delay * f.delay * f.dyn && y == g.delay * g.delay * g.dyn
    ensures Objective(opts, min).cost(a) <= Objective(opts, min).cost(b) <==> x <= y
  {
    x, y := f.delay * f.delay * f.dyn, g.delay * g.delay * g.dyn;
    SquareOrder(f.delay, f.dyn, g.delay, g.dyn, min.delay, min.dyn, Objective(opts, min).cost(a), Objective(opts, min).cost(b));
  }

  /** The energy-delay objectives order by delay times energy, and by the square of the delay times energy. */
  lemma EnergyDelayMeans(opts: Options, min: Figures, a: UcaOrg, b: UcaOrg, f: Figures, g: Figures) returns (x: real, y: real)
    requires PositiveFigures(min) && a.figures == f && b.figures == g && (opts.ed == 1 || opts.ed == 2)
    ensures opts.ed == 1 ==> x == f.delay * f.dyn && y == g.delay * g.dyn
    ensures opts.ed == 2 ==> x == f.delay * f.delay * f.dyn && y == g.delay * g.delay * g.dyn
    ensures Objective(opts, min).cost(a) <= Objective(opts, min).cost(b) <==> x <= y
  {
    if opts.ed == 1 {
      x, y := DelayTimesEnergy(opts, min, a, b, f, g);
    } else {
      x, y := DelaySquaredTimesEnergy(opts, min, a, b, f, g);
    }
  }

  lemma QuotientIs(q: real, p: real, s: real)
    requires s > 0.0 && q * s == p
    ensures q == p / s
  {}

  lemma QuotientTimes(q: real, x: real, m: real)
    requires m > 0.0 && q == x / m
    ensures q * m == x
  {}

  lemma SquareProduct(q: real, m: real, x: real, xx: real, mm: real)
    requires q * m == x && xx == x * x && mm == m * m
    ensures (q * q) * mm == xx
  {
    assert (q * q) * (m * m) == (q * m) * (q * m);
  }

  lemma ProductPositive(a: real, b: real, p: real)
    requires a > 0.0 && b > 0.0 && p == a * b
    ensures p > 0.0
  {}

  lemma SquareRatio(x: real, m: real, xx: real, mm: real)
    requires m > 0.0 && xx == x * x && mm == m * m
    ensures mm > 0.0 && (x / m) * (x / m) == xx / mm
  {
    var q := x / m;
    ProductPositive(m, m, mm);
    QuotientTimes(q, x, m);
    SquareProduct(q, m, x, xx, mm);
    QuotientIs(q * q, xx, mm);
  }

  lemma SquareOrder(x: real, y: real, x2: real, y2: real, m: real, n: real, c: real, c2: real)
    requires m > 0.0 && n > 0.0 && c == (x / m) * (x / m) * (y / n) && c2 == (x2 / m) * (x2 / m) * (y2 / n)
    ensures c <= c2 <==> x * x * y <= x2 * x2 * y2
  {
    var xx, xx2, mm := x * x, x2 * x2, m * m;
    SquareRatio(x, m, xx, mm);
    SquareRatio(x2, m, xx2, mm);
    ProductOrder(xx, y, xx2, y2, mm, n, c, c2, mm * n);
  }

  function FiguresOfOrgs(cands: seq<UcaOrg>): (fs: seq<Figures>)
    ensures |fs| == |cands| && forall i | 0 <= i < |fs| :: fs[i] == cands[i].figures
  {
    seq(|cands|, i requires 0 <= i < |cands| => cands[i].figures)
  }

  lemma CandidatesNext(opts: Options, tag: Option<MemArray>, data: seq<MemArray>, i: nat, cands: seq<UcaOrg>, org: UcaOrg)
    requires i < |data| && cands == Candidates(opts, tag, data[..i]) && org == Combine(opts, tag, data[i])
    ensures cands + [org] == Candidates(opts, tag, data[..i + 1])
    ensures Least(FiguresOfOrgs(cands + [org])) == PointMin(Least(FiguresOfOrgs(cands)), org.figures)
  {
    assert FiguresOfOrgs(cands + [org]) == FiguresOfOrgs(cands) + [org.figures];
    LeastAppend(FiguresOfOrgs(cands), org.figures);
  }

  lemma PointMinPositive(a: Figures, b: Figures)
    requires PositiveFigures(a) && PositiveFigures(b)
    ensures PositiveFigures(PointMin(a, b))
  {}

  /** The candidate list and the minima over it. */
  method BuildCandidates(opts: Options, tag: Option<MemArray>, data: seq<MemArray>) returns (cands: seq<UcaOrg>, min: Figures)
    requires forall d | d in data :: PositiveMetrics(d.org.m)
    requires tag.Some? ==> PositiveMetrics(tag.value.org.m)
    ensures cands == Candidates(opts, tag, data) && min == Least(FiguresOfOrgs(cands)) && PositiveFigures(min)
  {
    var cacheMin := new MinValues();
    cands := [];
    for i := 0 to |data|
      invariant cands == Candidates(opts, tag, data[..i])
      invariant cacheMin.v == Least(FiguresOfOrgs(cands)) && PositiveFigures(cacheMin.v)
    {
      var org := Combine(opts, tag, data[i]);
      CombinePositive(opts, tag, data[i]);
      CandidatesNext(opts, tag, data, i, cands, org);
      PointMinPositive(cacheMin.v, org.figures);
      cacheMin.Update(org.figures);
      cands := cands + [org];
    }
    min := cacheMin.v;
    assert data[..|data|] == data;
  }

  /** The last loop of `solve`: deletes every data array but the chosen one. */
  method DeleteOthers(heap: Heap, data: seq<MemArray>, chosen: MemArray, ghost base: set<nat>)
    requires OwnedBeside(heap, base, data) && chosen in data
    modifies heap`live
    ensures heap.Valid() && heap.live == base + {chosen.id}
  {
    var i := 0;
    assert data[0..] == data;
    while i < |data|
      invariant 0 <= i <= |data| && heap.Valid() && heap.live == base + Ids(data[i..]) + {chosen.id}
    {
      assert data[i..] == [data[i]] + data[i + 1..];
      FrontAlone(data, i);
      if data[i].id != chosen.id {
        heap.Delete(data[i].id);
      }
      i := i + 1;
    }
  }

  lemma FrontAlone(data: seq<MemArray>, i: nat)
    requires DistinctIds(data) && i < |data|
    ensures data[i].id in Ids(data) && data[i].id !in Ids(data[i + 1..])
    ensures Ids(data[i..]) == {data[i].id} + Ids(data[i + 1..])
  {
    assert data[i..] == [data[i]] + data[i + 1..];
    OrgsConcat([data[i]], data[i + 1..]);
    assert Ids([data[i]]) == {data[i].id};
    assert forall k | i + 1 <= k < |data| :: data[k].id != data[i].id;
  }

  datatype Solution = Solved(org: UcaOrg) | Exited | Undefined

  ghost predicate PositiveResults(eval: Evaluator) {
    forall c: Config :: eval(c).Some? ==> PositiveMetrics(eval(c).value)
  }

  lemma {:induction false} CountIsMember<T>(s: seq<T>, i: nat)
    requires i < |s|
    ensures multiset(s)[s[i]] >= 1
  {
    assert s[i] in s;
    assert s[i] in multiset(s);
  }

  lemma SweepPositive(eval: Evaluator, nspdMin: real, wtMin: int, wtMax: int, arrays: seq<MemArray>)
    requires nspdMin > 0.0 && ExactlyTheValid(eval, nspdMin, wtMin, wtMax, arrays) && PositiveResults(eval)
    ensures forall a | a in arrays :: PositiveMetrics(a.org.m)
    ensures PositiveFigures(Least(FiguresOf(OrgsOf(arrays))))
  {
    forall i | 0 <= i < |arrays|
      ensures PositiveMetrics(arrays[i].org.m)
    {
      var o := OrgsOf(arrays)[i];
      CountIsMember(OrgsOf(arrays), i);
      assert eval(o.cfg) == Some(o.m);
    }
    LeastPositive(FiguresOf(OrgsOf(arrays)));
  }

  const TAG_NSPD_MIN := 0.125

  /** The intermediate results of a run: the swept tag and data arrays, the index of the kept tag
      array, the kept data arrays, and the index of the chosen candidate. */
  datatype Trace = Trace(tags: seq<MemArray>, tag: int, data: seq<MemArray>, kept: seq<MemArray>, best: int)

  ghost function MinOf(arrays: seq<MemArray>): Figures {
    Least(FiguresOf(OrgsOf(arrays)))
  }

  ghost function CandidateMin(opts: Options, tag: Option<MemArray>, kept: seq<MemArray>): Figures {
    Least(FiguresOfOrgs(Candidates(opts, tag, kept)))
  }

  /** The minima the objectives divide by are those of the candidates, tag array included: no candidate is
      below them, and each is attained unless nothing is below 10^30. */
  lemma CandidateMinMeans(opts: Options, tag: Option<MemArray>, kept: seq<MemArray>, d: MemArray)
    requires d in kept
    ensures var (min, f) := (CandidateMin(opts, tag, kept), Combine(opts, tag, d).figures);
            min.delay <= f.delay && min.dyn <= f.dyn && min.leakage <= f.leakage && min.area <= f.area && min.cyc <= f.cyc
    ensures var min := CandidateMin(opts, tag, kept);
            && (min.delay < 1e30 ==> exists a :: a in kept && Combine(opts, tag, a).figures.delay == min.delay)
            && (min.dyn < 1e30 ==> exists a :: a in kept && Combine(opts, tag, a).figures.dyn == min.dyn)
            && (min.leakage < 1e30 ==> exists a :: a in kept && Combine(opts, tag, a).figures.leakage == min.leakage)
            && (min.area < 1e30 ==> exists a :: a in kept && Combine(opts, tag, a).figures.area == min.area)
            && (min.cyc < 1e30 ==> exists a :: a in kept && Combine(opts, tag, a).figures.cyc == min.cyc)
  {
    var fs := FiguresOfOrgs(Candidates(opts, tag, kept));
    var k :| 0 <= k < |kept| && kept[k] == d;
    LeastIsBelow(fs, fs[k]);
    LeastAttained(fs);
    forall i | 0 <= i < |fs|
      ensures kept[i] in kept && fs[i] == Combine(opts, tag, kept[i]).figures
    {}
  }

  /** The arrays of a run before the choices: both sweeps, and the data arrays that pass the filter. */
  ghost predicate Swept(opts: Options, evalTag: Evaluator, evalData: Evaluator, t: Trace)
    requires opts.nspdMin > 0.0
  {
    && (if opts.plain then t.tags == [] else ExactlyTheValid(evalTag, TAG_NSPD_MIN, opts.wtMin, opts.wtMax, t.tags))
    && ExactlyTheValid(evalData, opts.nspdMin, opts.wtMin, opts.wtMax, t.data)
    && PositiveFigures(MinOf(t.data)) && t.kept == Kept(t.data, KeepTest(MinOf(t.data)))
  }

  /** How a solved organisation comes about. */
  ghost predicate SolvedBy(opts: Options, evalTag: Evaluator, evalData: Evaluator, t: Trace, org: UcaOrg)
    requires opts.nspdMin > 0.0
  {
    && Swept(opts, evalTag, evalData, t)
    && (opts.plain || TagChoice(opts, t.tags, t.tag)) && org.tag == TagOf(opts, t.tags, t.tag)
    && DataChoice(opts, t.kept, t.best, org)
  }

  /** The kept tag array: the last of the cheapest that meet the bounds. */
  ghost predicate TagChoice(opts: Options, tags: seq<MemArray>, k: int) {
    k >= 0 && PositiveFigures(MinOf(tags))
    && LastCheapest(tags, 0, BoundsTest(MinOf(tags), opts.dev), CostBy(MinOf(tags), opts.wt), k)
  }

  /** The chosen candidate: the first of the cheapest the walk visits. */
  ghost predicate DataChoice(opts: Options, kept: seq<MemArray>, k: int, org: UcaOrg) {
    k >= 0 && PositiveFigures(CandidateMin(opts, org.tag, kept))
    && FirstCheapest(Objective(opts, CandidateMin(opts, org.tag, kept)), Candidates(opts, org.tag, kept), |kept|, k)
    && org == Candidates(opts, org.tag, kept)[k]
  }

  ghost predicate NoTag(opts: Options, tags: seq<MemArray>) {
    PositiveFigures(MinOf(tags))
    && forall a | a in tags :: !Eligible(a, BoundsTest(MinOf(tags), opts.dev), CostBy(MinOf(tags), opts.wt))
  }

  /** The candidates make the walk step past the end of its list. */
  ghost predicate StepsPast(opts: Options, tag: Option<MemArray>, kept: seq<MemArray>) {
    var min := CandidateMin(opts, tag, kept);
    |kept| == 1 && PositiveFigures(min) && HeadErased(Objective(opts, min), Candidates(opts, tag, kept))
  }

  ghost predicate NoChoice(opts: Options, tag: Option<MemArray>, kept: seq<MemArray>) {
    var min := CandidateMin(opts, tag, kept);
    PositiveFigures(min) && NoneChoosable(Objective(opts, min), Candidates(opts, tag, kept), |kept|)
  }

  /** The walk steps over the only cheapest candidate. */
  ghost predicate Skips(opts: Options, tag: Option<MemArray>, kept: seq<MemArray>) {
    var min := CandidateMin(opts, tag, kept);
    PositiveFigures(min) && SkipsOptimum(Objective(opts, min), Candidates(opts, tag, kept))
  }

  /** Some candidate may be chosen. */
  ghost predicate Offers(opts: Options, tag: Option<MemArray>, kept: seq<MemArray>) {
    var min := CandidateMin(opts, tag, kept);
    PositiveFigures(min) && SomeChoosable(Objective(opts, min), Candidates(opts, tag, kept))
  }

  /** k is a cheapest candidate of all. */
  ghost predicate IsCheapest(opts: Options, tag: Option<MemArray>, kept: seq<MemArray>, k: int) {
    var min := CandidateMin(opts, tag, kept);
    k >= 0 && PositiveFigures(min) && CheapestOfAll(Objective(opts, min), Candidates(opts, tag, kept), k)
  }

  /** How the choice ends, decided by the kept arrays alone. */
  ghost predicate EndsAs(opts: Options, tag: Option<MemArray>, kept: seq<MemArray>, s: Solution) {
    && (s.Undefined? <==> StepsPast(opts, tag, kept))
    && (s.Exited? <==> NoChoice(opts, tag, kept) && !StepsPast(opts, tag, kept))
  }

  /** How a run ends. */
  ghost predicate Outcome(opts: Options, evalTag: Evaluator, evalData: Evaluator, t: Trace, s: Solution)
    requires opts.nspdMin > 0.0
  {
    && Swept(opts, evalTag, evalData, t)
    && if t.data == [] || (!opts.plain && NoTag(opts, t.tags)) then s.Exited?
       else (opts.plain || TagChoice(opts, t.tags, t.tag)) && EndsAs(opts, TagOf(opts, t.tags, t.tag), t.kept, s)
  }

  /** The tag array in use, given its position among the swept ones. */
  ghost function TagOf(opts: Options, tags: seq<MemArray>, k: int): Option<MemArray> {
    if opts.plain || !(0 <= k < |tags|) then None else Some(tags[k])
  }

  lemma ChosenTag(opts: Options, tags: seq<MemArray>, k: int)
    requires TagChoice(opts, tags, k)
    ensures !NoTag(opts, tags)
  {
    assert tags[k] in tags;
  }

  ghost function ArraysOf(org: UcaOrg): set<nat> {
    {org.data.id} + IdOf(org.tag)
  }

  /** Both sweeps. The tag arrays stay allocated beside the data arrays. */
  method Sweeps(heap: Heap, opts: Options, evalTag: Evaluator, evalData: Evaluator, ghost base: set<nat>)
    returns (tags: seq<MemArray>, tagMin: Figures, data: seq<MemArray>, dataMin: Figures)
    requires opts.nthreads >= 1 && opts.nspdMin > 0.0 && opts.wtMin <= opts.wtMax && OwnedBeside(heap, base, [])
    requires PositiveResults(evalTag) && PositiveResults(evalData)
    modifies heap
    ensures OwnedBeside(heap, base + Ids(tags), data) && DistinctIds(tags) && base !! Ids(tags)
    ensures if opts.plain then tags == [] else ExactlyTheValid(evalTag, TAG_NSPD_MIN, opts.wtMin, opts.wtMax, tags)
    ensures ExactlyTheValid(evalData, opts.nspdMin, opts.wtMin, opts.wtMax, data)
    ensures tagMin == MinOf(tags) && dataMin == MinOf(data) && PositiveFigures(tagMin) && PositiveFigures(dataMin)
    ensures forall a | a in tags || a in data :: PositiveMetrics(a.org.m)
  {
    tags, tagMin := [], TOP;
    if !opts.plain {
      tags, tagMin := ParallelSweep(heap, evalTag, opts.nthreads, TAG_NSPD_MIN, opts.wtMin, opts.wtMax, base);
      SweepPositive(evalTag, TAG_NSPD_MIN, opts.wtMin, opts.wtMax, tags);
    }
    data, dataMin := ParallelSweep(heap, evalData, opts.nthreads, opts.nspdMin, opts.wtMin, opts.wtMax, base + Ids(tags));
    SweepPositive(evalData, opts.nspdMin, opts.wtMin, opts.wtMax, data);
  }

  /** The tag filter; None is the process exit. */
  method ChooseTag(heap: Heap, opts: Options, tags: seq<MemArray>, ghost base: set<nat>, min: Figures)
    returns (r: Option<MemArray>, ghost best: int)
    requires OwnedBeside(heap, base, tags) && min == MinOf(tags) && PositiveFigures(min)
    modifies heap`live
    ensures r == None ==> NoTag(opts, tags)
    ensures r.Some? ==> !NoTag(opts, tags) && TagChoice(opts, tags, best) && r.value == tags[best]
    ensures heap.Valid() && heap.live == base + IdOf(r) && base !! IdOf(r)
  {
    var filtered;
    filtered, best := FilterTagArr(heap, tags, min, opts.wt, opts.dev, base);
    if filtered == None {
      return None, best;
    }
    ChosenTag(opts, tags, best);
    r := Some(filtered.value[0]);
    assert Ids(filtered.value) == IdOf(r);
  }

  ghost function IdOf(a: Option<MemArray>): set<nat> {
    match a case Some(x) => {x.id} case None => {}
  }

  /** The choice, and the deletion of the data arrays that were not chosen. */
  method FinishData(heap: Heap, opts: Options, tag: Option<MemArray>, kept: seq<MemArray>, ghost base: set<nat>)
    returns (s: Solution, ghost best: int)
    requires OwnedBeside(heap, base, kept) && (forall d | d in kept :: PositiveMetrics(d.org.m))
    requires tag.Some? ==> PositiveMetrics(tag.value.org.m)
    modifies heap`live
    ensures heap.Valid() && EndsAs(opts, tag, kept, s)
    ensures s.Solved? ==> s.org.tag == tag && DataChoice(opts, kept, best, s.org)
    ensures s.Solved? ==> heap.live == base + {s.org.data.id} && s.org.data.id !in base
  {
    var pick;
    pick, best := ChooseOrg(opts, tag, kept);
    match pick
    case Chosen(org) =>
      DeleteOthers(heap, kept, org.data, base);
      assert org.data.id in Ids(kept);
      s := Solved(org);
    case PastTheEnd => s := Undefined;
    case NoCandidates => s := Exited;
    case NoneMeetsCriteria => s := Exited;
  }

  /** Candidates and walk together. */
  method ChooseOrg(opts: Options, tag: Option<MemArray>, kept: seq<MemArray>) returns (pick: Pick, ghost best: int)
    requires forall d | d in kept :: PositiveMetrics(d.org.m)
    requires tag.Some? ==> PositiveMetrics(tag.value.org.m)
    ensures pick.PastTheEnd? <==> StepsPast(opts, tag, kept)
    ensures !pick.Chosen? <==> StepsPast(opts, tag, kept) || NoChoice(opts, tag, kept)
    ensures Offers(opts, tag, kept) ==>
              ((pick.Chosen? && IsCheapest(opts, tag, kept, best)) <==> !Skips(opts, tag, kept) && !StepsPast(opts, tag, kept))
    ensures pick.Chosen? ==> 0 <= best < |kept| && pick.org.tag == tag && pick.org.data == kept[best]
                             && DataChoice(opts, kept, best, pick.org)
  {
    var cands, cacheMin := BuildCandidates(opts, tag, kept);
    ghost var visited;
    pick, visited, best := Walk(Objective(opts, cacheMin), cands);
    if pick.Chosen? {
      assert pick.org == Combine(opts, tag, kept[best]);
    }
  }

  /** `solve`. A run that returns an organisation has freed every array it allocated except the
      chosen data array and, for a cache, the tag array. */
  method Solve(heap: Heap, opts: Options, evalTag: Evaluator, evalData: Evaluator)
    returns (s: Solution, ghost t: Trace)
    requires heap.Valid() && opts.nthreads >= 1 && opts.nspdMin > 0.0 && opts.wtMin <= opts.wtMax
    requires PositiveResults(evalTag) && PositiveResults(evalData)
    modifies heap
    ensures heap.Valid()
    ensures Outcome(opts, evalTag, evalData, t, s)
    ensures s.Solved? ==> SolvedBy(opts, evalTag, evalData, t, s.org)
    ensures s.Solved? ==> heap.live == old(heap.live) + ArraysOf(s.org) && old(heap.live) !! ArraysOf(s.org)
    ensures s.Solved? && s.org.tag.Some? ==> s.org.tag.value.id != s.org.data.id
  {
    ghost var base := heap.live;
    assert Ids([]) == {};
    var tags, tagMin, data, dataMin := Sweeps(heap, opts, evalTag, evalData, base);
    s, t := FilterAndChoose(heap, opts, tags, tagMin, data, dataMin, base);
  }

  /** What follows the sweeps: both filters and the choice. */
  method FilterAndChoose(heap: Heap, opts: Options, tags: seq<MemArray>, tagMin: Figures, data: seq<MemArray>,
                         dataMin: Figures, ghost base: set<nat>)
    returns (s: Solution, ghost t: Trace)
    requires OwnedBeside(heap, base + Ids(tags), data) && DistinctIds(tags) && base !! Ids(tags)
    requires (opts.plain ==> tags == []) && tagMin == MinOf(tags) && dataMin == MinOf(data)
    requires PositiveFigures(tagMin) && PositiveFigures(dataMin)
    requires forall a | a in tags || a in data :: PositiveMetrics(a.org.m)
    modifies heap`live
    ensures heap.Valid() && t.tags == tags && t.data == data && t.kept == Kept(data, KeepTest(dataMin))
    ensures if data == [] || (!opts.plain && NoTag(opts, tags)) then s.Exited?
            else (opts.plain || TagChoice(opts, tags, t.tag)) && EndsAs(opts, TagOf(opts, tags, t.tag), t.kept, s)
    ensures s.Solved? ==> s.org.tag == TagOf(opts, tags, t.tag)
                          && DataChoice(opts, t.kept, t.best, s.org)
    ensures s.Solved? ==> heap.live == base + ArraysOf(s.org) && base !! ArraysOf(s.org)
    ensures s.Solved? && s.org.tag.Some? ==> s.org.tag.value.id != s.org.data.id
  {
    t := Trace(tags, -1, data, Kept(data, KeepTest(dataMin)), -1);
    var kept := FilterDataArr(heap, data, dataMin, base + Ids(tags));
    if kept == None {
      return Exited, t;
    }
    KeptPositive(data, KeepTest(dataMin));
    ghost var tagBest, best;
    s, tagBest, best := Choose(heap, opts, tags, tagMin, kept.value, base);
    t := t.(tag := tagBest, best := best);
  }

  /** The tag filter and the choice among the kept data arrays. */
  method Choose(heap: Heap, opts: Options, tags: seq<MemArray>, tagMin: Figures, kept: seq<MemArray>, ghost base: set<nat>)
    returns (s: Solution, ghost tagBest: int, ghost best: int)
    requires OwnedBeside(heap, base + Ids(tags), kept) && DistinctIds(tags) && base !! Ids(tags)
    requires (opts.plain ==> tags == []) && tagMin == MinOf(tags) && PositiveFigures(tagMin)
    requires forall a | a in tags || a in kept :: PositiveMetrics(a.org.m)
    modifies heap`live
    ensures heap.Valid()
    ensures if !opts.plain && NoTag(opts, tags) then s.Exited?
            else (opts.plain || TagChoice(opts, tags, tagBest)) && EndsAs(opts, TagOf(opts, tags, tagBest), kept, s)
    ensures s.Solved? ==> s.org.tag == TagOf(opts, tags, tagBest)
    ensures s.Solved? ==> DataChoice(opts, kept, best, s.org)
    ensures s.Solved? ==> heap.live == base + IdOf(s.org.tag) + {s.org.data.id}
    ensures s.Solved? ==> base !! IdOf(s.org.tag) && s.org.data.id !in base + IdOf(s.org.tag)
  {
    var tag: Option<MemArray> := None;
    tagBest, best := -1, -1;
    if !opts.plain {
      tag, tagBest := ChooseTag(heap, opts, tags, base + Ids(kept), tagMin);
      if tag == None {
        return Exited, tagBest, best;
      }
      assert tags[tagBest] in tags;
    }
    assert tag == TagOf(opts, tags, tagBest);
    s, best := FinishData(heap, opts, tag, kept, base + IdOf(tag));
  }

  lemma KeptPositive(data: seq<MemArray>, keep: MemArray -> bool)
    requires forall a | a in data :: PositiveMetrics(a.org.m)
    ensures forall a | a in Kept(data, keep) :: PositiveMetrics(a.org.m)
  {
    forall a | a in Kept(data, keep)
      ensures PositiveMetrics(a.org.m)
    {
      KeptMember(data, keep, a);
    }
  }

  // ----- what the chosen organisation is worth -----

  /** Its arrays are valid, and the tag array is missing exactly for a RAM, CAM or fully associative cache. */
  lemma SolvedArrays(opts: Options, evalTag: Evaluator, evalData: Evaluator, t: Trace, org: UcaOrg)
    requires opts.nspdMin > 0.0 && SolvedBy(opts, evalTag, evalData, t, org)
    ensures org == Combine(opts, org.tag, org.data) && evalData(org.data.org.cfg) == Some(org.data.org.m)
    ensures match org.tag
            case None => opts.plain
            case Some(a) => !opts.plain && evalTag(a.org.cfg) == Some(a.org.m)
  {
    assert org.data == t.kept[t.best];
    KeptMember(t.data, KeepTest(MinOf(t.data)), org.data);
    SweptIsValid(evalData, opts.nspdMin, opts.wtMin, opts.wtMax, t.data, org.data);
    if !opts.plain {
      SweptIsValid(evalTag, TAG_NSPD_MIN, opts.wtMin, opts.wtMax, t.tags, t.tags[t.tag]);
    }
  }

  /** The figures a run reports, in terms of those of its arrays alone. */
  lemma SolvedFigures(opts: Options, evalTag: Evaluator, evalData: Evaluator, t: Trace, org: UcaOrg, f: Figures, d: Metrics)
    returns (height: real, width: real)
    requires opts.nspdMin > 0.0 && SolvedBy(opts, evalTag, evalData, t, org) && f == org.figures && d == org.data.org.m
    ensures match org.tag
            case None =>
              && opts.plain && f.delay == d.figures.delay && f.dyn == d.figures.dyn && f.leakage == d.figures.leakage
              && f.cyc == d.figures.cyc && height == d.height && width == d.width
            case Some(a) =>
              var g := a.org.m;
              && !opts.plain
              && (opts.fastAccess ==>
                    f.delay >= g.figures.delay && f.delay >= d.figures.delay && (f.delay == g.figures.delay || f.delay == d.figures.delay))
              && (!opts.fastAccess && opts.seqAccess ==> f.delay == g.figures.delay + d.figures.delay)
              && (!opts.fastAccess && !opts.seqAccess ==>
                    var (select, read) := (g.figures.delay + d.senseampMuxDecoder + d.fromDriver, d.beforeDriver + d.fromDriver);
                    f.delay >= select && f.delay >= read && (f.delay == select || f.delay == read))
              && f.dyn == g.figures.dyn + d.figures.dyn && f.leakage == g.figures.leakage + d.figures.leakage
              && f.cyc >= g.figures.cyc && f.cyc >= d.figures.cyc && (f.cyc == g.figures.cyc || f.cyc == d.figures.cyc)
              && width == g.width + d.width
              && height >= g.height && height >= d.height && (height == g.height || height == d.height)
    ensures f.area == height * width
  {
    SolvedArrays(opts, evalTag, evalData, t, org);
    height, width := PairFigures(opts, org.tag, org.data);
  }

  lemma BoxAround(h1: real, w1: real, h2: real, w2: real)
    requires h1 >= h2 >= 0.0 && w1 >= 0.0 && w2 >= 0.0
    ensures h1 * (w1 + w2) >= h1 * w1 + h2 * w2
  {
    assert h1 * (w1 + w2) == h1 * w1 + h1 * w2;
    assert (h1 - h2) * w2 >= 0.0;
  }

  lemma PairCoversArrays(opts: Options, tag: MemArray, data: MemArray, g: Metrics, d: Metrics) returns (both: real)
    requires g == tag.org.m && d == data.org.m && PositiveMetrics(g) && PositiveMetrics(d)
    ensures both == g.height * g.width + d.height * d.width && Combine(opts, Some(tag), data).figures.area >= both
  {
    both := g.height * g.width + d.height * d.width;
    if g.height >= d.height {
      BoxAround(g.height, g.width, d.height, d.width);
    } else {
      BoxAround(d.height, d.width, g.height, g.width);
    }
  }

  /** A cache covers at least the area of its two arrays. */
  lemma AreaCoversArrays(opts: Options, evalTag: Evaluator, evalData: Evaluator, t: Trace, org: UcaOrg, g: Metrics, d: Metrics)
    returns (both: real)
    requires opts.nspdMin > 0.0 && SolvedBy(opts, evalTag, evalData, t, org)
    requires org.tag.Some? && g == org.tag.value.org.m && d == org.data.org.m && PositiveMetrics(g) && PositiveMetrics(d)
    ensures both == g.height * g.width + d.height * d.width && org.figures.area >= both
  {
    SolvedArrays(opts, evalTag, evalData, t, org);
    both := PairCoversArrays(opts, org.tag.value, org.data, g, d);
  }

  lemma PairModes(fast: Options, sequential: Options, tag: MemArray, data: MemArray)
    requires fast.fastAccess && !sequential.fastAccess && sequential.seqAccess
    ensures var (f, f2) := (Combine(fast, Some(tag), data).figures, Combine(sequential, Some(tag), data).figures);
            var (saved, g, d) := (f2.delay - f.delay, tag.org.m.figures.delay, data.org.m.figures.delay);
            saved <= g && saved <= d && (saved == g || saved == d) && f2 == f.(delay := f2.delay)
  {}

  /** Of two runs that end on the same arrays, one in fast and one in sequential mode, the fast one saves the
      smaller of the two delays, and nothing else differs. */
  lemma FastAgainstSequential(fast: Options, sequential: Options, evalTag: Evaluator, evalData: Evaluator, t: Trace, t2: Trace,
                              org: UcaOrg, org2: UcaOrg, tag: MemArray)
    requires fast.nspdMin > 0.0 && SolvedBy(fast, evalTag, evalData, t, org)
    requires sequential.nspdMin > 0.0 && SolvedBy(sequential, evalTag, evalData, t2, org2)
    requires fast.fastAccess && !sequential.fastAccess && sequential.seqAccess
    requires org.tag == org2.tag == Some(tag) && org2.data == org.data
    ensures var (saved, g, d) := (org2.figures.delay - org.figures.delay, tag.org.m.figures.delay, org.data.org.m.figures.delay);
            saved <= g && saved <= d && (saved == g || saved == d)
    ensures org2.figures == org.figures.(delay := org2.figures.delay)
  {
    SolvedArrays(fast, evalTag, evalData, t, org);
    SolvedArrays(sequential, evalTag, evalData, t2, org2);
    PairModes(fast, sequential, tag, org.data);
  }

  /** The tag arrays a run chooses from: the valid points of the grid with Nspd from an eighth on, once each. */
  lemma TagGrid(opts: Options, evalTag: Evaluator, evalData: Evaluator, t: Trace, o: Org)
    requires opts.nspdMin > 0.0 && !opts.plain && Swept(opts, evalTag, evalData, t)
    ensures multiset(OrgsOf(t.tags))[o] == if InGrid(0.125, opts.wtMin, opts.wtMax, o.cfg) && evalTag(o.cfg) == Some(o.m) then 1 else 0
  {
    assert ExactlyTheValid(evalTag, 0.125, opts.wtMin, opts.wtMax, t.tags);
  }

  lemma ValidIsSwept(eval: Evaluator, nspdMin: real, wtMin: int, wtMax: int, arrays: seq<MemArray>, o: Org) returns (a: MemArray)
    requires nspdMin > 0.0 && ExactlyTheValid(eval, nspdMin, wtMin, wtMax, arrays)
    requires InGrid(nspdMin, wtMin, wtMax, o.cfg) && eval(o.cfg) == Some(o.m)
    ensures a in arrays && a.org == o
  {
    assert multiset(OrgsOf(arrays))[o] == 1;
    assert o in multiset(OrgsOf(arrays));
    var i :| 0 <= i < |OrgsOf(arrays)| && OrgsOf(arrays)[i] == o;
    a := arrays[i];
  }

  lemma CheapestOverall(j: Judge, cands: seq<UcaOrg>, k: nat, i: nat)
    requires FirstCheapest(j, cands, |cands|, k) && !j.edits && i < |cands| && j.ok(cands[i])
    ensures j.cost(cands[k]) <= j.cost(cands[i])
  {
    assert Visits(j, cands, i);
  }

  lemma SameOrgSameFigures(opts: Options, tag: Option<MemArray>, a: MemArray, b: MemArray)
    requires a.org == b.org
    ensures Combine(opts, tag, a).figures == Combine(opts, tag, b).figures
  {}

  lemma CostByFigures(opts: Options, min: Figures, a: UcaOrg, b: UcaOrg)
    requires PositiveFigures(min) && a.figures == b.figures
    ensures Objective(opts, min).cost(a) == Objective(opts, min).cost(b)
  {}

  /** With an energy-delay objective the result is the optimum of the grid: no valid partition that
      survives the data filter has, beside the chosen tag array, a smaller product of delay and energy, or
      of the delay squared and energy. */
  lemma EnergyDelayOptimum(opts: Options, evalTag: Evaluator, evalData: Evaluator, t: Trace, org: UcaOrg, d: MemArray,
                           f: Figures, g: Figures)
    returns (x: real, y: real)
    requires opts.nspdMin > 0.0 && SolvedBy(opts, evalTag, evalData, t, org) && (opts.ed == 1 || opts.ed == 2)
    requires InGrid(opts.nspdMin, opts.wtMin, opts.wtMax, d.org.cfg) && evalData(d.org.cfg) == Some(d.org.m)
    requires Keeps(d, MinOf(t.data)) && f == org.figures && g == Combine(opts, org.tag, d).figures
    ensures var cost := Objective(opts, CandidateMin(opts, org.tag, t.kept)).cost;
            cost(org) <= cost(Combine(opts, org.tag, d))
    ensures opts.ed == 1 ==> x == f.delay * f.dyn && y == g.delay * g.dyn
    ensures opts.ed == 2 ==> x == f.delay * f.delay * f.dyn && y == g.delay * g.delay * g.dyn
    ensures x <= y
  {
    var i := Survivor(evalData, opts.nspdMin, opts.wtMin, opts.wtMax, t.data, d);
    CandidateCosts(opts, t.kept, t.best, org, i, d);
    x, y := EnergyDelayMeans(opts, CandidateMin(opts, org.tag, t.kept), org, Combine(opts, org.tag, d), f, g);
  }

  lemma SameOrgKept(data: seq<MemArray>, min: Figures, a: MemArray, d: MemArray) returns (i: nat)
    requires PositiveFigures(min) && a in data && a.org == d.org && Keeps(d, min)
    ensures i < |Kept(data, KeepTest(min))| && Kept(data, KeepTest(min))[i] == a
  {
    var kept := Kept(data, KeepTest(min));
    KeptMember(data, KeepTest(min), a);
    i :| 0 <= i < |kept| && kept[i] == a;
  }

  /** A valid partition that passes the filter is among the kept arrays. */
  lemma Survivor(eval: Evaluator, nspdMin: real, wtMin: int, wtMax: int, data: seq<MemArray>, d: MemArray) returns (i: nat)
    requires nspdMin > 0.0 && ExactlyTheValid(eval, nspdMin, wtMin, wtMax, data) && PositiveFigures(MinOf(data))
    requires InGrid(nspdMin, wtMin, wtMax, d.org.cfg) && eval(d.org.cfg) == Some(d.org.m) && Keeps(d, MinOf(data))
    ensures var kept := Kept(data, KeepTest(MinOf(data))); i < |kept| && kept[i].org == d.org
  {
    var a := ValidIsSwept(eval, nspdMin, wtMin, wtMax, data, d.org);
    i := SameOrgKept(data, MinOf(data), a, d);
  }

  lemma CandidateCosts(opts: Options, kept: seq<MemArray>, k: int, org: UcaOrg, i: nat, d: MemArray)
    requires DataChoice(opts, kept, k, org) && (opts.ed == 1 || opts.ed == 2) && i < |kept| && kept[i].org == d.org
    ensures var cost := Objective(opts, CandidateMin(opts, org.tag, kept)).cost;
            cost(org) <= cost(Combine(opts, org.tag, d))
  {
    var min, cands := CandidateMin(opts, org.tag, kept), Candidates(opts, org.tag, kept);
    CheapestOverall(Objective(opts, min), cands, k, i);
    SameOrgSameFigures(opts, org.tag, kept[i], d);
    CostByFigures(opts, min, cands[i], Combine(opts, org.tag, d));
  }

  lemma JudgedByFigures(opts: Options, min: Figures, a: UcaOrg, b: UcaOrg)
    requires PositiveFigures(min) && a.figures == b.figures
    ensures Choosable(Objective(opts, min), a) <==> Choosable(Objective(opts, min), b)
  {
    CostByFigures(opts, min, a, b);
  }

  /** A valid partition that passes the data filter and may be chosen with the tag array. */
  ghost predicate GridChoice(opts: Options, eval: Evaluator, tag: Option<MemArray>, t: Trace, d: MemArray)
    requires opts.nspdMin > 0.0
  {
    var min := CandidateMin(opts, tag, t.kept);
    && PositiveFigures(MinOf(t.data)) && PositiveFigures(min)
    && InGrid(opts.nspdMin, opts.wtMin, opts.wtMax, d.org.cfg) && eval(d.org.cfg) == Some(d.org.m) && Keeps(d, MinOf(t.data))
    && Choosable(Objective(opts, min), Combine(opts, tag, d))
  }

  /** The choosable candidates are the choosable points of the grid: each one is such a point, ... */
  lemma CandidateIsChoice(opts: Options, evalTag: Evaluator, eval: Evaluator, tag: Option<MemArray>, t: Trace, i: nat)
    requires opts.nspdMin > 0.0 && Swept(opts, evalTag, eval, t) && PositiveFigures(CandidateMin(opts, tag, t.kept))
    requires i < |t.kept|
    requires Choosable(Objective(opts, CandidateMin(opts, tag, t.kept)), Candidates(opts, tag, t.kept)[i])
    ensures GridChoice(opts, eval, tag, t, t.kept[i])
  {
    var d := t.kept[i];
    KeptMember(t.data, KeepTest(MinOf(t.data)), d);
    SweptIsValid(eval, opts.nspdMin, opts.wtMin, opts.wtMax, t.data, d);
  }

  lemma SweptIsValid(eval: Evaluator, nspdMin: real, wtMin: int, wtMax: int, arrays: seq<MemArray>, a: MemArray)
    requires nspdMin > 0.0 && ExactlyTheValid(eval, nspdMin, wtMin, wtMax, arrays) && a in arrays
    ensures InGrid(nspdMin, wtMin, wtMax, a.org.cfg) && eval(a.org.cfg) == Some(a.org.m)
  {
    var i :| 0 <= i < |arrays| && arrays[i] == a;
    CountIsMember(OrgsOf(arrays), i);
  }

  /** ... and each such point is a candidate, up to its address. */
  lemma ChoiceIsCandidate(opts: Options, evalTag: Evaluator, eval: Evaluator, tag: Option<MemArray>, t: Trace, d: MemArray)
    returns (i: nat)
    requires opts.nspdMin > 0.0 && Swept(opts, evalTag, eval, t) && GridChoice(opts, eval, tag, t, d)
    ensures i < |t.kept|
    ensures var j, cands := Objective(opts, CandidateMin(opts, tag, t.kept)), Candidates(opts, tag, t.kept);
            Choosable(j, cands[i]) && j.cost(cands[i]) == j.cost(Combine(opts, tag, d))
  {
    i := Survivor(eval, opts.nspdMin, opts.wtMin, opts.wtMax, t.data, d);
    var min := CandidateMin(opts, tag, t.kept);
    SameOrgSameFigures(opts, tag, t.kept[i], d);
    JudgedByFigures(opts, min, Combine(opts, tag, t.kept[i]), Combine(opts, tag, d));
    CostByFigures(opts, min, Combine(opts, tag, t.kept[i]), Combine(opts, tag, d));
  }

  /** No choosable point of the grid costs less than an organisation. */
  ghost predicate CheapestOfGrid(opts: Options, eval: Evaluator, tag: Option<MemArray>, t: Trace, org: UcaOrg)
    requires opts.nspdMin > 0.0
  {
    var min := CandidateMin(opts, tag, t.kept);
    && PositiveFigures(min)
    && forall d | GridChoice(opts, eval, tag, t, d) :: Objective(opts, min).cost(org) <= Objective(opts, min).cost(Combine(opts, tag, d))
  }

  lemma PointMayBeChosen(opts: Options, eval: Evaluator, tag: Option<MemArray>, t: Trace, d: MemArray, min: Figures, g: Figures)
    requires opts.nspdMin > 0.0 && opts.ed != 1 && opts.ed != 2 && PositiveFigures(min)
    requires min == CandidateMin(opts, tag, t.kept) && g == Combine(opts, tag, d).figures
    requires PositiveFigures(MinOf(t.data)) && InGrid(opts.nspdMin, opts.wtMin, opts.wtMax, d.org.cfg)
    requires eval(d.org.cfg) == Some(d.org.m) && Keeps(d, MinOf(t.data))
    requires MeetsBounds(g, min, opts.dev) && WeightedCost(g, min, opts.wt) < 1e30
    ensures GridChoice(opts, eval, tag, t, d)
  {
    WeightedJudge(opts, min, Combine(opts, tag, d));
  }

  /** With a weighted objective a cheapest of the grid has no positive weighted relative excess over any valid
      point that passes the filter and stays within every bound. */
  lemma CheapestMeans(opts: Options, eval: Evaluator, tag: Option<MemArray>, t: Trace, org: UcaOrg, d: MemArray,
                      min: Figures, f: Figures, g: Figures)
    returns (excess: real)
    requires opts.nspdMin > 0.0 && opts.ed != 1 && opts.ed != 2 && CheapestOfGrid(opts, eval, tag, t, org)
    requires min == CandidateMin(opts, tag, t.kept) && f == org.figures && g == Combine(opts, tag, d).figures
    requires GridChoice(opts, eval, tag, t, d)
    ensures excess == opts.wt.delay * ((f.delay - g.delay) / min.delay) + opts.wt.dyn * ((f.dyn - g.dyn) / min.dyn)
                      + opts.wt.leakage * ((f.leakage - g.leakage) / min.leakage) + opts.wt.area * ((f.area - g.area) / min.area)
                      + opts.wt.cyc * ((f.cyc - g.cyc) / min.cyc)
    ensures excess <= 0.0
  {
    excess := WeightedExcess(opts, min, org, Combine(opts, tag, d), f, g);
  }

  lemma WeightedExcess(opts: Options, min: Figures, a: UcaOrg, b: UcaOrg, f: Figures, g: Figures) returns (excess: real)
    requires opts.ed != 1 && opts.ed != 2 && PositiveFigures(min) && a.figures == f && b.figures == g
    requires Objective(opts, min).cost(a) <= Objective(opts, min).cost(b)
    ensures excess == opts.wt.delay * ((f.delay - g.delay) / min.delay) + opts.wt.dyn * ((f.dyn - g.dyn) / min.dyn)
                      + opts.wt.leakage * ((f.leakage - g.leakage) / min.leakage) + opts.wt.area * ((f.area - g.area) / min.area)
                      + opts.wt.cyc * ((f.cyc - g.cyc) / min.cyc)
    ensures excess <= 0.0
  {
    WeightedJudge(opts, min, a);
    WeightedJudge(opts, min, b);
    excess := CostExcess(f, g, min, opts.wt);
  }

  lemma WeightedJudge(opts: Options, min: Figures, o: UcaOrg)
    requires PositiveFigures(min) && opts.ed != 1 && opts.ed != 2
    ensures Objective(opts, min).cost(o) == WeightedCost(o.figures, min, opts.wt)
    ensures Objective(opts, min).ok(o) <==> MeetsBounds(o.figures, min, opts.dev)
  {}

  lemma CheapestInGrid(opts: Options, evalTag: Evaluator, eval: Evaluator, tag: Option<MemArray>, t: Trace, k: nat)
    requires opts.nspdMin > 0.0 && Swept(opts, evalTag, eval, t) && PositiveFigures(CandidateMin(opts, tag, t.kept)) && k < |t.kept|
    requires Choosable(Objective(opts, CandidateMin(opts, tag, t.kept)), Candidates(opts, tag, t.kept)[k])
    ensures IsCheapest(opts, tag, t.kept, k) <==> CheapestOfGrid(opts, eval, tag, t, Candidates(opts, tag, t.kept)[k])
  {
    var j, cands := Objective(opts, CandidateMin(opts, tag, t.kept)), Candidates(opts, tag, t.kept);
    if IsCheapest(opts, tag, t.kept, k) {
      forall d | GridChoice(opts, eval, tag, t, d)
        ensures j.cost(cands[k]) <= j.cost(Combine(opts, tag, d))
      {
        var i := ChoiceIsCandidate(opts, evalTag, eval, tag, t, d);
      }
    }
    if CheapestOfGrid(opts, eval, tag, t, cands[k]) {
      forall i: nat | i < |cands| && Choosable(j, cands[i])
        ensures j.cost(cands[k]) <= j.cost(cands[i])
      {
        CandidateIsChoice(opts, evalTag, eval, tag, t, i);
      }
    }
  }

  /** How a run ends among its candidates, for every objective. */
  lemma EndsOnCheapest(opts: Options, tag: Option<MemArray>, kept: seq<MemArray>, k: int, s: Solution)
    requires EndsAs(opts, tag, kept, s) && Offers(opts, tag, kept)
    requires s.Solved? ==> s.org.tag == tag && DataChoice(opts, kept, k, s.org)
    ensures (s.Solved? && IsCheapest(opts, tag, kept, k)) <==> !StepsPast(opts, tag, kept) && !Skips(opts, tag, kept)
  {
    var j, cands := Objective(opts, CandidateMin(opts, tag, kept)), Candidates(opts, tag, kept);
    if s.Solved? {
      EndsOptimal(j, cands, k);
    } else if s.Exited? {
      EndsOptimal(j, cands, -1);
    }
  }

  /** When some valid partition may be chosen, the run returns a cheapest organisation of the whole grid
      if and only if its walk neither steps over the only cheapest candidate nor past the end of its
      list. Neither happens with an energy-delay objective. */
  lemma WeightedOptimum(opts: Options, evalTag: Evaluator, evalData: Evaluator, t: Trace, s: Solution, tag: Option<MemArray>, d: MemArray)
    requires opts.nspdMin > 0.0 && Outcome(opts, evalTag, evalData, t, s) && (s.Solved? ==> SolvedBy(opts, evalTag, evalData, t, s.org))
    requires (opts.plain || !NoTag(opts, t.tags)) && tag == TagOf(opts, t.tags, t.tag)
    requires GridChoice(opts, evalData, tag, t, d)
    ensures (s.Solved? && CheapestOfGrid(opts, evalData, tag, t, s.org)) <==> !StepsPast(opts, tag, t.kept) && !Skips(opts, tag, t.kept)
    ensures opts.ed == 1 || opts.ed == 2 ==> !StepsPast(opts, tag, t.kept) && !Skips(opts, tag, t.kept)
  {
    var i := ChoiceIsCandidate(opts, evalTag, evalData, tag, t, d);
    assert t.data != [];
    EndsOnCheapest(opts, tag, t.kept, t.best, s);
    if s.Solved? {
      CheapestInGrid(opts, evalTag, evalData, tag, t, t.best);
    }
  }

  // ----- two lists on which the walk misses the optimum -----

  ghost function SampleArray(id: nat, delay: real): MemArray {
    MemArray(id, Org(Config(1.0, 0, 1, 1, 1, 1, 1), Metrics(0, Figures(delay, 1.0, 1.0, 1.0, 1.0), 1.0, 1.0, 0.0, 0.0, 0.0)))
  }

  /** Weighing only the delay, which may exceed its minimum by a given percentage. */
  ghost predicate DelayOnly(opts: Options, percent: real) {
    opts.ed == 0 && opts.wt == Figures(1.0, 0.0, 0.0, 0.0, 0.0) && opts.dev == Figures(percent, 0.0, 0.0, 0.0, 0.0)
  }

  lemma SampleMin(opts: Options, kept: seq<MemArray>)
    requires SampleArrays(kept)
    ensures CandidateMin(opts, None, kept) == Figures(1.0, 1.0, 1.0, 1.0, 1.0)
  {
    var fs := FiguresOfOrgs(Candidates(opts, None, kept));
    assert fs[..1][..0] == [] && fs[..2][..1] == fs[..1];
    assert Least(fs[..1]) == Figures(2.0, 1.0, 1.0, 1.0, 1.0);
    assert Least(fs[..2]) == Figures(1.0, 1.0, 1.0, 1.0, 1.0);
    assert |kept| == 2 ==> fs == fs[..2];
  }

  lemma DelayJudged(opts: Options, percent: real, min: Figures, o: UcaOrg, delay: real)
    requires DelayOnly(opts, percent) && min == Figures(1.0, 1.0, 1.0, 1.0, 1.0) && o.figures == Figures(delay, 1.0, 1.0, 1.0, 1.0)
    ensures Objective(opts, min).cost(o) == delay
    ensures Objective(opts, min).ok(o) <==> (delay - 1.0) * 100.0 <= percent
  {
    assert WeightedCost(o.figures, min, opts.wt) == delay;
    assert MeetsBounds(o.figures, min, opts.dev) <==> (delay - 1.0) * 100.0 <= percent;
  }

  ghost predicate SampleArrays(kept: seq<MemArray>) {
    && 2 <= |kept| <= 3 && kept[0] == SampleArray(0, 2.0) && kept[1] == SampleArray(1, 1.0)
    && (|kept| == 3 ==> kept[2] == SampleArray(2, 2.0))
  }

  /** Of two candidates within their bounds the dearer is chosen. */
  lemma SecondIsSteppedOver(opts: Options, kept: seq<MemArray>)
    requires DelayOnly(opts, 100.0) && SampleArrays(kept) && |kept| == 2
    ensures var min, cands := CandidateMin(opts, None, kept), Candidates(opts, None, kept);
            PositiveFigures(min)
            && var j := Objective(opts, min);
               FirstCheapest(j, cands, 2, 0) && Choosable(j, cands[1]) && j.cost(cands[1]) < j.cost(cands[0])
  {
    SampleMin(opts, kept);
    var min, cands := CandidateMin(opts, None, kept), Candidates(opts, None, kept);
    DelayJudged(opts, 100.0, min, cands[0], 2.0);
    DelayJudged(opts, 100.0, min, cands[1], 1.0);
    DearerHeadWins(Objective(opts, min), cands);
  }

  /** Of three candidates only the second is within its bounds, and none is chosen. */
  lemma OnlyChoiceIsSteppedOver(opts: Options, kept: seq<MemArray>)
    requires DelayOnly(opts, 50.0) && SampleArrays(kept) && |kept| == 3
    ensures Offers(opts, None, kept) && NoChoice(opts, None, kept) && Skips(opts, None, kept)
  {
    SampleMin(opts, kept);
    var min, cands := CandidateMin(opts, None, kept), Candidates(opts, None, kept);
    DelayJudged(opts, 50.0, min, cands[0], 2.0);
    DelayJudged(opts, 50.0, min, cands[1], 1.0);
    DelayJudged(opts, 50.0, min, cands[2], 2.0);
    RejectedHeadShields(Objective(opts, min), cands);
  }
}
