/** The two filters of Ucache.cc, which edit a list of arrays in place and delete what they drop. */
module UcaFilter {
  import opened Limits
  import opened PowersOfTwo
  import opened Sorting
  import opened UcaModel

  /** `check_uca_org` and `check_mem_org`: no figure exceeds its minimum by more than its deviation,
      in percent. */
  predicate MeetsBounds(f: Figures, min: Figures, dev: Figures)
    requires min.delay != 0.0 && min.dyn != 0.0 && min.leakage != 0.0 && min.cyc != 0.0 && min.area != 0.0
  {
    if (f.delay - min.delay) * 100.0 / min.delay > dev.delay then false
    else if (f.dyn - min.dyn) / min.dyn * 100.0 > dev.dyn then false
    else if (f.leakage - min.leakage) / min.leakage * 100.0 > dev.leakage then false
    else if (f.cyc - min.cyc) / min.cyc * 100.0 > dev.cyc then false
    else if (f.area - min.area) / min.area * 100.0 > dev.area then false
    else true
  }

  /** The weighted sum of the figures, each relative to its minimum. */
  function WeightedCost(f: Figures, min: Figures, wt: Figures): real
    requires min.delay != 0.0 && min.dyn != 0.0 && min.leakage != 0.0 && min.cyc != 0.0 && min.area != 0.0
  {
    wt.delay * (f.delay / min.delay) + wt.cyc * (f.cyc / min.cyc) + wt.dyn * (f.dyn / min.dyn)
    + wt.leakage * (f.leakage / min.leakage) + wt.area * (f.area / min.area)
  }

  lemma PercentAbove(x: real, min: real, dev: real)
    requires min > 0.0
    ensures (x - min) * 100.0 / min > dev <==> x > min * (1.0 + dev / 100.0)
    ensures (x - min) / min * 100.0 > dev <==> x > min * (1.0 + dev / 100.0)
  {
    var q := (x - min) / min;
    assert q * min == x - min;
    assert (x - min) * 100.0 / min == q * 100.0;
    assert min * (1.0 + dev / 100.0) == min + dev / 100.0 * min;
    assert q > dev / 100.0 ==> q * min > dev / 100.0 * min;
    assert q <= dev / 100.0 ==> q * min <= dev / 100.0 * min;
  }

  /** Every figure may exceed its minimum by its own percentage. */
  lemma BoundsMean(f: Figures, min: Figures, dev: Figures)
    requires PositiveFigures(min)
    ensures MeetsBounds(f, min, dev) <==>
              && f.delay <= min.delay * (1.0 + dev.delay / 100.0)
              && f.dyn <= min.dyn * (1.0 + dev.dyn / 100.0)
              && f.leakage <= min.leakage * (1.0 + dev.leakage / 100.0)
              && f.cyc <= min.cyc * (1.0 + dev.cyc / 100.0)
              && f.area <= min.area * (1.0 + dev.area / 100.0)
  {
    PercentAbove(f.delay, min.delay, dev.delay);
    PercentAbove(f.dyn, min.dyn, dev.dyn);
    PercentAbove(f.leakage, min.leakage, dev.leakage);
    PercentAbove(f.cyc, min.cyc, dev.cyc);
    PercentAbove(f.area, min.area, dev.area);
  }

  lemma WeightedDifference(w: real, x: real, y: real, min: real)
    requires min > 0.0
    ensures w * (x / min) - w * (y / min) == w * ((x - y) / min)
  {
    assert x / min - y / min == (x - y) / min;
  }

  /** One organisation costs no more than another exactly when its weighted relative excess over it is
      not positive. */
  lemma CostOrder(a: Figures, b: Figures, min: Figures, wt: Figures)
    requires PositiveFigures(min)
    ensures WeightedCost(a, min, wt) - WeightedCost(b, min, wt)
            == wt.delay * ((a.delay - b.delay) / min.delay) + wt.dyn * ((a.dyn - b.dyn) / min.dyn)
               + wt.leakage * ((a.leakage - b.leakage) / min.leakage) + wt.area * ((a.area - b.area) / min.area)
               + wt.cyc * ((a.cyc - b.cyc) / min.cyc)
  {
    WeightedDifference(wt.delay, a.delay, b.delay, min.delay);
    WeightedDifference(wt.dyn, a.dyn, b.dyn, min.dyn);
    WeightedDifference(wt.leakage, a.leakage, b.leakage, min.leakage);
    WeightedDifference(wt.area, a.area, b.area, min.area);
    WeightedDifference(wt.cyc, a.cyc, b.cyc, min.cyc);
  }

  lemma ExcessSign(w: real, x: real, y: real, min: real)
    requires min > 0.0
    ensures w >= 0.0 && x <= y ==> w * ((x - y) / min) <= 0.0
    ensures w > 0.0 ==> (w * ((x - y) / min) <= 0.0 <==> x <= y)
    ensures w == 0.0 ==> w * ((x - y) / min) == 0.0
  {
    var q := (x - y) / min;
    assert q * min == x - y;
    assert q <= 0.0 <==> x - y <= 0.0;
  }

  lemma CostSign(a: Figures, b: Figures, min: Figures, wt: Figures)
    requires PositiveFigures(min)
    ensures WeightedCost(a, min, wt) <= WeightedCost(b, min, wt) <==>
              wt.delay * ((a.delay - b.delay) / min.delay) + wt.dyn * ((a.dyn - b.dyn) / min.dyn)
              + wt.leakage * ((a.leakage - b.leakage) / min.leakage) + wt.area * ((a.area - b.area) / min.area)
              + wt.cyc * ((a.cyc - b.cyc) / min.cyc) <= 0.0
  {
    CostOrder(a, b, min, wt);
  }

  lemma NotPositive(sum: real, d: real, e: real, l: real, a: real, c: real)
    requires sum == d + e + l + a + c && d <= 0.0 && e <= 0.0 && l <= 0.0 && a <= 0.0 && c <= 0.0
    ensures sum <= 0.0
  {}

  /** With non-negative weights, being no worse in every figure costs no more. */
  lemma NoWorseCostsNoMore(a: Figures, b: Figures, min: Figures, wt: Figures)
    requires PositiveFigures(min)
    requires wt.delay >= 0.0 && wt.dyn >= 0.0 && wt.leakage >= 0.0 && wt.area >= 0.0 && wt.cyc >= 0.0
    requires a.delay <= b.delay && a.dyn <= b.dyn && a.leakage <= b.leakage && a.area <= b.area && a.cyc <= b.cyc
    ensures WeightedCost(a, min, wt) <= WeightedCost(b, min, wt)
  {
    CostOrder(a, b, min, wt);
    ExcessSign(wt.delay, a.delay, b.delay, min.delay);
    ExcessSign(wt.dyn, a.dyn, b.dyn, min.dyn);
    ExcessSign(wt.leakage, a.leakage, b.leakage, min.leakage);
    ExcessSign(wt.area, a.area, b.area, min.area);
    ExcessSign(wt.cyc, a.cyc, b.cyc, min.cyc);
    NotPositive(WeightedCost(a, min, wt) - WeightedCost(b, min, wt), wt.delay * ((a.delay - b.delay) / min.delay),
                wt.dyn * ((a.dyn - b.dyn) / min.dyn), wt.leakage * ((a.leakage - b.leakage) / min.leakage),
                wt.area * ((a.area - b.area) / min.area), wt.cyc * ((a.cyc - b.cyc) / min.cyc));
  }

  /** With a single weight the cost orders by the figure of that weight. */
  lemma OneWeightOrders(a: Figures, b: Figures, min: Figures, wt: Figures, w: real)
    requires PositiveFigures(min) && w > 0.0
    ensures wt == Figures(w, 0.0, 0.0, 0.0, 0.0) ==> (WeightedCost(a, min, wt) <= WeightedCost(b, min, wt) <==> a.delay <= b.delay)
    ensures wt == Figures(0.0, w, 0.0, 0.0, 0.0) ==> (WeightedCost(a, min, wt) <= WeightedCost(b, min, wt) <==> a.dyn <= b.dyn)
    ensures wt == Figures(0.0, 0.0, w, 0.0, 0.0) ==> (WeightedCost(a, min, wt) <= WeightedCost(b, min, wt) <==> a.leakage <= b.leakage)
    ensures wt == Figures(0.0, 0.0, 0.0, w, 0.0) ==> (WeightedCost(a, min, wt) <= WeightedCost(b, min, wt) <==> a.area <= b.area)
    ensures wt == Figures(0.0, 0.0, 0.0, 0.0, w) ==> (WeightedCost(a, min, wt) <= WeightedCost(b, min, wt) <==> a.cyc <= b.cyc)
  {
    CostSign(a, b, min, wt);
    ExcessSign(wt.delay, a.delay, b.delay, min.delay);
    ExcessSign(wt.dyn, a.dyn, b.dyn, min.dyn);
    ExcessSign(wt.leakage, a.leakage, b.leakage, min.leakage);
    ExcessSign(wt.area, a.area, b.area, min.area);
    ExcessSign(wt.cyc, a.cyc, b.cyc, min.cyc);
  }

  // ----- owned lists -----

  lemma RemoveAt(arrays: seq<MemArray>, k: nat)
    requires k < |arrays| && DistinctIds(arrays)
    ensures DistinctIds(arrays[..k] + arrays[k + 1..])
    ensures Ids(arrays[..k] + arrays[k + 1..]) == Ids(arrays) - {arrays[k].id}
    ensures arrays[k].id in Ids(arrays)
  {
    var rest := arrays[..k] + arrays[k + 1..];
    assert forall i | 0 <= i < |rest| :: rest[i] == arrays[if i < k then i else i + 1];
    forall id
      ensures id in Ids(rest) <==> id in Ids(arrays) && id != arrays[k].id
    {
      if id in Ids(arrays) && id != arrays[k].id {
        var a :| a in arrays && a.id == id;
        var i :| 0 <= i < |arrays| && arrays[i] == a;
        assert rest[if i < k then i else i - 1] == a;
      }
      if id in Ids(rest) {
        var a :| a in rest && a.id == id;
        var i :| 0 <= i < |rest| && rest[i] == a;
        assert a == arrays[if i < k then i else i + 1];
      }
    }
  }

  // ----- filter_data_arr -----

  /** Not more than half again above the minimum on delay or on dynamic energy. */
  predicate Keeps(a: MemArray, min: Figures)
    requires min.delay != 0.0 && min.dyn != 0.0
  {
    !((a.org.m.figures.delay - min.delay) / min.delay > 0.5 && (a.org.m.figures.dyn - min.dyn) / min.dyn > 0.5)
  }

  lemma KeepsWithin(a: MemArray, min: Figures)
    requires PositiveFigures(min)
    ensures Keeps(a, min) <==> a.org.m.figures.delay <= 1.5 * min.delay || a.org.m.figures.dyn <= 1.5 * min.dyn
  {
    RatioAbove(a.org.m.figures.delay, min.delay);
    RatioAbove(a.org.m.figures.dyn, min.dyn);
  }

  lemma RatioAbove(x: real, min: real)
    requires min > 0.0
    ensures (x - min) / min > 0.5 <==> x > 1.5 * min
  {
    var q := (x - min) / min;
    assert q * min == x - min;
    assert q > 0.5 ==> q * min > 0.5 * min;
    assert q <= 0.5 ==> q * min <= 0.5 * min;
  }

  function KeepTest(min: Figures): MemArray -> bool
    requires min.delay != 0.0 && min.dyn != 0.0
  {
    (a: MemArray) => Keeps(a, min)
  }

  ghost function Kept(arrays: seq<MemArray>, keep: MemArray -> bool): seq<MemArray> {
    if arrays == [] then []
    else Kept(arrays[..|arrays| - 1], keep) + (if keep(arrays[|arrays| - 1]) then [arrays[|arrays| - 1]] else [])
  }

  lemma {:induction false} KeptMember(arrays: seq<MemArray>, keep: MemArray -> bool, a: MemArray)
    ensures a in Kept(arrays, keep) <==> a in arrays && keep(a)
  {
    if arrays != [] {
      var front, last := arrays[..|arrays| - 1], arrays[|arrays| - 1];
      KeptMember(front, keep, a);
      assert a in arrays <==> a in front || a == last;
    }
  }

  /** Every array is kept as often as it occurs or not at all, ... */
  lemma {:induction false} KeptCount(arrays: seq<MemArray>, keep: MemArray -> bool, a: MemArray)
    ensures multiset(Kept(arrays, keep))[a] == if keep(a) then multiset(arrays)[a] else 0
  {
    if arrays != [] {
      var front, last := arrays[..|arrays| - 1], arrays[|arrays| - 1];
      KeptCount(front, keep, a);
      assert arrays == front + [last];
    }
  }

  /** ... and what is kept stays in order. */
  lemma {:induction false} KeptInOrder(arrays: seq<MemArray>, keep: MemArray -> bool, leq: (MemArray, MemArray) -> bool)
    requires SortedBy(leq, arrays)
    ensures SortedBy(leq, Kept(arrays, keep))
  {
    if arrays != [] {
      var n := |arrays| - 1;
      var front := Kept(arrays[..n], keep);
      KeptInOrder(arrays[..n], keep, leq);
      forall i | 0 <= i < |front|
        ensures leq(front[i], arrays[n])
      {
        KeptMember(arrays[..n], keep, front[i]);
        var j :| 0 <= j < n && arrays[..n][j] == front[i];
        assert leq(arrays[j], arrays[n]);
      }
    }
  }

  lemma KeptNext(arrays: seq<MemArray>, keep: MemArray -> bool, k: nat)
    requires k < |arrays|
    ensures Kept(arrays[..k + 1], keep) == Kept(arrays[..k], keep) + (if keep(arrays[k]) then [arrays[k]] else [])
  {
    assert arrays[..k + 1][..k] == arrays[..k];
  }

  /** The array with the least delay survives, so a list with one array below BIGNUM never empties. */
  lemma SomethingIsKept(arrays: seq<MemArray>)
    requires forall a | a in arrays :: PositiveFigures(a.org.m.figures)
    requires exists a :: a in arrays && a.org.m.figures.delay < BIGNUM
    ensures var min := Least(FiguresOf(OrgsOf(arrays)));
            PositiveFigures(min) && exists a :: a in Kept(arrays, KeepTest(min)) && a.org.m.figures.delay == min.delay
  {
    var fs := FiguresOf(OrgsOf(arrays));
    forall f | f in fs
      ensures PositiveFigures(f)
    {
      var i :| 0 <= i < |fs| && fs[i] == f;
      assert arrays[i] in arrays;
    }
    LeastPositive(fs);
    var a :| a in arrays && a.org.m.figures.delay < BIGNUM;
    var i :| 0 <= i < |arrays| && arrays[i] == a;
    assert fs[i] in fs;
    LeastIsBelow(fs, fs[i]);
    LeastDelayAttained(fs);
    var f :| f in fs && f.delay == Least(fs).delay;
    var j :| 0 <= j < |fs| && fs[j] == f;
    KeepsWithin(arrays[j], Least(fs));
    KeptMember(arrays, KeepTest(Least(fs)), arrays[j]);
  }

  /** The list half-way: what was kept so far, then the part not seen yet. */
  ghost function Partly(arrays: seq<MemArray>, keep: MemArray -> bool, seen: nat): seq<MemArray>
    requires seen <= |arrays|
  {
    Kept(arrays[..seen], keep) + arrays[seen..]
  }

  ghost predicate Sifted(arrays: seq<MemArray>, keep: MemArray -> bool, seen: nat, list: seq<MemArray>, pos: int) {
    seen <= |arrays| && list == Partly(arrays, keep, seen) && pos == |Kept(arrays[..seen], keep)|
  }

  lemma EraseStep(arrays: seq<MemArray>, keep: MemArray -> bool, seen: nat, list: seq<MemArray>, pos: int)
    requires Sifted(arrays, keep, seen, list, pos) && pos < |list|
    ensures 0 <= pos && seen < |arrays|
    ensures keep(list[pos]) ==> Sifted(arrays, keep, seen + 1, list, pos + 1)
    ensures !keep(list[pos]) ==> Sifted(arrays, keep, seen + 1, list[..pos] + list[pos + 1..], pos)
  {
    var front := Kept(arrays[..seen], keep);
    KeptNext(arrays, keep, seen);
    assert arrays[seen..] == [arrays[seen]] + arrays[seen + 1..];
    assert list[..pos] == front && list[pos + 1..] == arrays[seen + 1..];
  }

  lemma SiftStarts(arrays: seq<MemArray>, keep: MemArray -> bool)
    ensures Sifted(arrays, keep, 0, arrays, 0)
  {
    assert arrays[..0] == [] && [] + arrays[0..] == arrays;
  }

  lemma SiftEnds(arrays: seq<MemArray>, keep: MemArray -> bool, seen: nat, list: seq<MemArray>, pos: int)
    requires Sifted(arrays, keep, seen, list, pos) && pos >= |list|
    ensures list == Kept(arrays, keep)
  {
    assert arrays[..seen] == arrays;
  }

  /** What a list owns, next to the other allocations. */
  ghost predicate OwnedBeside(heap: Heap, base: set<nat>, list: seq<MemArray>)
    reads heap
  {
    heap.Valid() && DistinctIds(list) && base !! Ids(list) && heap.live == base + Ids(list)
  }

  /** Deletes the array at a position and erases it from the list. */
  method Erase(heap: Heap, list: seq<MemArray>, pos: nat, ghost base: set<nat>) returns (rest: seq<MemArray>)
    requires pos < |list| && OwnedBeside(heap, base, list)
    modifies heap`live
    ensures rest == list[..pos] + list[pos + 1..] && OwnedBeside(heap, base, rest)
  {
    RemoveAt(list, pos);
    heap.Delete(list[pos].id);
    rest := list[..pos] + list[pos + 1..];
  }

  /** One round of the loop of `filter_data_arr`: the array at a position is passed or erased. */
  method EraseOrPass(heap: Heap, arrays: seq<MemArray>, keep: MemArray -> bool, ghost base: set<nat>, ghost seen: nat,
                     list: seq<MemArray>, pos: nat)
    returns (rest: seq<MemArray>, next: nat)
    requires Sifted(arrays, keep, seen, list, pos) && pos < |list| && OwnedBeside(heap, base, list)
    modifies heap`live
    ensures Sifted(arrays, keep, seen + 1, rest, next) && OwnedBeside(heap, base, rest)
  {
    EraseStep(arrays, keep, seen, list, pos);
    rest := list;
    var at: int := pos;
    if !keep(list[pos]) {
      rest := Erase(heap, list, pos, base);
      at := pos - 1;
    }
    next := at + 1;
  }

  /** The loop of `filter_data_arr`. Erasing at position pos leaves the iterator one before it, at -1
      when the head goes, and the loop step brings it back. */
  method EraseUnless(heap: Heap, arrays: seq<MemArray>, keep: MemArray -> bool, ghost base: set<nat>)
    returns (list: seq<MemArray>)
    requires OwnedBeside(heap, base, arrays)
    modifies heap`live
    ensures list == Kept(arrays, keep) && OwnedBeside(heap, base, list)
  {
    list := arrays;
    var pos := 0;
    ghost var seen := 0;
    SiftStarts(arrays, keep);
    while pos < |list|
      invariant pos >= 0 && Sifted(arrays, keep, seen, list, pos)
      invariant OwnedBeside(heap, base, list)
      decreases |arrays| - seen
    {
      list, pos := EraseOrPass(heap, arrays, keep, base, seen, list, pos);
      seen := seen + 1;
    }
    SiftEnds(arrays, keep, seen, list, pos);
  }

  /** `filter_data_arr`; None is the process exit on an empty list. */
  method FilterDataArr(heap: Heap, arrays: seq<MemArray>, min: Figures, ghost base: set<nat>)
    returns (r: Option<seq<MemArray>>)
    requires OwnedBeside(heap, base, arrays) && PositiveFigures(min)
    modifies heap`live
    ensures heap.Valid() && (r == None <==> arrays == [])
    ensures r.Some? ==> r.value == Kept(arrays, KeepTest(min)) && OwnedBeside(heap, base, r.value)
  {
    if arrays == [] {
      return None;
    }
    var list := EraseUnless(heap, arrays, KeepTest(min), base);
    r := Some(list);
  }

  // ----- filter_tag_arr -----

  function BoundsTest(min: Figures, dev: Figures): MemArray -> bool
    requires min.delay != 0.0 && min.dyn != 0.0 && min.leakage != 0.0 && min.cyc != 0.0 && min.area != 0.0
  {
    (a: MemArray) => MeetsBounds(a.org.m.figures, min, dev)
  }

  function CostBy(min: Figures, wt: Figures): MemArray -> real
    requires min.delay != 0.0 && min.dyn != 0.0 && min.leakage != 0.0 && min.cyc != 0.0 && min.area != 0.0
  {
    (a: MemArray) => WeightedCost(a.org.m.figures, min, wt)
  }

  ghost predicate Eligible(a: MemArray, meets: MemArray -> bool, cost: MemArray -> real) {
    meets(a) && cost(a) < BIGNUM
  }

  /** The last of the cheapest eligible arrays from position lo on. */
  ghost predicate LastCheapest(arrays: seq<MemArray>, lo: nat, meets: MemArray -> bool, cost: MemArray -> real, k: nat) {
    && lo <= k < |arrays| && Eligible(arrays[k], meets, cost)
    && (forall i | lo <= i < |arrays| && Eligible(arrays[i], meets, cost) :: cost(arrays[k]) <= cost(arrays[i]))
    && (forall i | k < i < |arrays| && Eligible(arrays[i], meets, cost) :: cost(arrays[k]) < cost(arrays[i]))
  }

  /** The array kept, against any other within its bounds: it costs no more, and less than a later one. */
  lemma LastCheapestMeans(arrays: seq<MemArray>, min: Figures, wt: Figures, dev: Figures, k: nat, i: nat)
    requires PositiveFigures(min) && LastCheapest(arrays, 0, BoundsTest(min, dev), CostBy(min, wt), k)
    requires i < |arrays| && MeetsBounds(arrays[i].org.m.figures, min, dev)
    ensures var cost := CostBy(min, wt); cost(arrays[k]) <= cost(arrays[i]) && (i > k ==> cost(arrays[k]) < cost(arrays[i]))
    ensures MeetsBounds(arrays[k].org.m.figures, min, dev)
  {
    assert BoundsTest(min, dev)(arrays[i]) && BoundsTest(min, dev)(arrays[k]);
    if !(CostBy(min, wt)(arrays[i]) < BIGNUM) {
      assert CostBy(min, wt)(arrays[k]) < CostBy(min, wt)(arrays[i]);
    }
  }

  lemma CostExcess(a: Figures, b: Figures, min: Figures, wt: Figures) returns (excess: real)
    requires PositiveFigures(min)
    ensures excess == WeightedCost(a, min, wt) - WeightedCost(b, min, wt)
    ensures excess == wt.delay * ((a.delay - b.delay) / min.delay) + wt.dyn * ((a.dyn - b.dyn) / min.dyn)
                      + wt.leakage * ((a.leakage - b.leakage) / min.leakage) + wt.area * ((a.area - b.area) / min.area)
                      + wt.cyc * ((a.cyc - b.cyc) / min.cyc)
  {
    CostOrder(a, b, min, wt);
    excess := WeightedCost(a, min, wt) - WeightedCost(b, min, wt);
  }

  /** What the tag filter leaves, figure by figure: its weighted relative excess over any other array within
      the bounds is not positive, and is negative over a later one. */
  lemma KeptTagIsCheapest(arrays: seq<MemArray>, min: Figures, wt: Figures, dev: Figures, k: nat, i: nat) returns (excess: real)
    requires PositiveFigures(min) && LastCheapest(arrays, 0, BoundsTest(min, dev), CostBy(min, wt), k)
    requires i < |arrays| && MeetsBounds(arrays[i].org.m.figures, min, dev)
    ensures var (f, g) := (arrays[k].org.m.figures, arrays[i].org.m.figures);
            excess == wt.delay * ((f.delay - g.delay) / min.delay) + wt.dyn * ((f.dyn - g.dyn) / min.dyn)
                      + wt.leakage * ((f.leakage - g.leakage) / min.leakage) + wt.area * ((f.area - g.area) / min.area)
                      + wt.cyc * ((f.cyc - g.cyc) / min.cyc)
    ensures excess <= 0.0 && (i > k ==> excess < 0.0)
  {
    LastCheapestMeans(arrays, min, wt, dev, k, i);
    excess := CostExcess(arrays[k].org.m.figures, arrays[i].org.m.figures, min, wt);
  }

  /** With a single weight the array kept has the least of that figure among the arrays within bounds. */
  lemma KeptTagIsLeast(arrays: seq<MemArray>, min: Figures, wt: Figures, dev: Figures, k: nat, i: nat, w: real)
    requires PositiveFigures(min) && LastCheapest(arrays, 0, BoundsTest(min, dev), CostBy(min, wt), k) && i < |arrays|
    requires MeetsBounds(arrays[i].org.m.figures, min, dev) && w > 0.0
    ensures var (f, g) := (arrays[k].org.m.figures, arrays[i].org.m.figures);
            && (wt == Figures(w, 0.0, 0.0, 0.0, 0.0) ==> f.delay <= g.delay)
            && (wt == Figures(0.0, w, 0.0, 0.0, 0.0) ==> f.dyn <= g.dyn)
            && (wt == Figures(0.0, 0.0, w, 0.0, 0.0) ==> f.leakage <= g.leakage)
            && (wt == Figures(0.0, 0.0, 0.0, w, 0.0) ==> f.area <= g.area)
            && (wt == Figures(0.0, 0.0, 0.0, 0.0, w) ==> f.cyc <= g.cyc)
  {
    LastCheapestMeans(arrays, min, wt, dev, k, i);
    OneWeightOrders(arrays[k].org.m.figures, arrays[i].org.m.figures, min, wt, w);
  }

  lemma CostIs(f: Figures, min: Figures, wt: Figures)
    requires PositiveFigures(min)
    ensures WeightedCost(f, min, wt) == wt.delay * (f.delay / min.delay) + wt.dyn * (f.dyn / min.dyn)
            + wt.leakage * (f.leakage / min.leakage) + wt.area * (f.area / min.area) + wt.cyc * (f.cyc / min.cyc)
  {}

  /** An array the filter cannot keep exceeds a bound or costs 10^30 or more. */
  lemma IneligibleMeans(a: MemArray, min: Figures, wt: Figures, dev: Figures)
    requires PositiveFigures(min)
    ensures !Eligible(a, BoundsTest(min, dev), CostBy(min, wt)) <==>
              var f := a.org.m.figures;
              !MeetsBounds(f, min, dev) ||
              wt.delay * (f.delay / min.delay) + wt.dyn * (f.dyn / min.dyn) + wt.leakage * (f.leakage / min.leakage)
              + wt.area * (f.area / min.area) + wt.cyc * (f.cyc / min.cyc) >= 1e30
  {
    var f := a.org.m.figures;
    assert BoundsTest(min, dev)(a) == MeetsBounds(f, min, dev);
    assert CostBy(min, wt)(a) == WeightedCost(f, min, wt);
    CostIs(f, min, wt);
  }

  lemma PopBack(arrays: seq<MemArray>, k: nat)
    requires 1 <= k <= |arrays| && DistinctIds(arrays)
    ensures DistinctIds(arrays[..k - 1])
    ensures arrays[k - 1].id in Ids(arrays[..k]) && Ids(arrays[..k - 1]) == Ids(arrays[..k]) - {arrays[k - 1].id}
    ensures forall i | k - 1 < i < |arrays| :: arrays[i].id != arrays[k - 1].id && arrays[i].id !in Ids(arrays[..k])
  {
    RemoveAt(arrays[..k], k - 1);
    assert arrays[..k][..k - 1] + arrays[..k][k..] == arrays[..k - 1];
  }

  /** The choice among the arrays from position lo on; best is -1 while there is none. */
  ghost predicate CheapestSoFar(arrays: seq<MemArray>, lo: nat, meets: MemArray -> bool, costOf: MemArray -> real,
                                best: int, cost: real) {
    if best < 0 then cost == BIGNUM && forall i | lo <= i < |arrays| :: !Eligible(arrays[i], meets, costOf)
    else LastCheapest(arrays, lo, meets, costOf, best) && cost == costOf(arrays[best])
  }

  lemma CheapestStep(arrays: seq<MemArray>, n: nat, meets: MemArray -> bool, costOf: MemArray -> real, best: int, cost: real)
    requires 1 <= n <= |arrays| && CheapestSoFar(arrays, n, meets, costOf, best, cost)
    ensures var back := arrays[n - 1];
            var cur := if meets(back) then costOf(back) else BIGNUM;
            CheapestSoFar(arrays, n - 1, meets, costOf, if cur < cost then n - 1 else best, if cur < cost then cur else cost)
  {}

  /** The allocations while the list is popped: its front, and the choice so far. */
  ghost predicate Popping(heap: Heap, base: set<nat>, arrays: seq<MemArray>, n: nat, best: int)
    requires n <= |arrays| && -1 <= best < |arrays|
    reads heap
  {
    var chosen := if best < 0 then {} else {arrays[best].id};
    && heap.Valid() && (best >= 0 ==> best >= n)
    && base !! Ids(arrays[..n]) && base !! chosen && heap.live == base + Ids(arrays[..n]) + chosen
  }

  /** One pop: deletes the loser of the back of the list and the choice so far. */
  method Pop(heap: Heap, ghost base: set<nat>, arrays: seq<MemArray>, n: nat, best: int, wins: bool)
    requires 1 <= n <= |arrays| && -1 <= best < |arrays| && DistinctIds(arrays)
    requires Popping(heap, base, arrays, n, best)
    modifies heap`live
    ensures Popping(heap, base, arrays, n - 1, if wins then n - 1 else best)
  {
    PopBack(arrays, n);
    if wins {
      if best >= 0 {
        heap.Delete(arrays[best].id);
      }
    } else {
      heap.Delete(arrays[n - 1].id);
    }
  }

  /** The loop of `filter_tag_arr`: pops the list from the back and deletes whatever is not, or no
      longer, the cheapest. */
  method PopCheapest(heap: Heap, arrays: seq<MemArray>, meets: MemArray -> bool, costOf: MemArray -> real,
                     ghost base: set<nat>)
    returns (best: int)
    requires OwnedBeside(heap, base, arrays)
    modifies heap`live
    ensures -1 <= best < |arrays| && Popping(heap, base, arrays, 0, best)
    ensures best < 0 ==> forall i | 0 <= i < |arrays| :: !Eligible(arrays[i], meets, costOf)
    ensures best >= 0 ==> LastCheapest(arrays, 0, meets, costOf, best)
  {
    best := -1;
    var cost := BIGNUM;
    var n := |arrays|;
    assert arrays[..n] == arrays;
    while n > 0
      invariant 0 <= n <= |arrays| && -1 <= best < |arrays|
      invariant CheapestSoFar(arrays, n, meets, costOf, best, cost) && Popping(heap, base, arrays, n, best)
    {
      CheapestStep(arrays, n, meets, costOf, best, cost);
      var back := arrays[n - 1];
      var curCost := if meets(back) then costOf(back) else BIGNUM;
      Pop(heap, base, arrays, n, best, curCost < cost);
      if curCost < cost {
        cost := curCost;
        best := n - 1;
      }
      n := n - 1;
    }
  }

  /** `filter_tag_arr`; None is the process exit. */
  method FilterTagArr(heap: Heap, arrays: seq<MemArray>, min: Figures, wt: Figures, dev: Figures,
                      ghost base: set<nat>)
    returns (r: Option<seq<MemArray>>, ghost best: int)
    requires OwnedBeside(heap, base, arrays) && PositiveFigures(min)
    modifies heap`live
    ensures r == None ==> forall a | a in arrays :: !Eligible(a, BoundsTest(min, dev), CostBy(min, wt))
    ensures r.Some? ==> best >= 0 && LastCheapest(arrays, 0, BoundsTest(min, dev), CostBy(min, wt), best) && r.value == [arrays[best]]
    ensures OwnedBeside(heap, base, if r.Some? then r.value else [])
  {
    if arrays == [] {
      return None, -1;
    }
    var at := PopCheapest(heap, arrays, BoundsTest(min, dev), CostBy(min, wt), base);
    best := at;
    if at < 0 {
      return None, best;
    }
    r := Some([arrays[at]]);
  }
}
