/** The values the uniform-cache search of Ucache.cc works on: array organisations, their order, the
    running minima, and the allocator that owns the arrays. */
module UcaModel {
  import opened Limits
  import opened Sorting

  /** The five figures that minima, deviations and weights are kept for. */
  datatype Figures = Figures(delay: real, dyn: real, leakage: real, area: real, cyc: real)

  /** The partition parameters of one array. */
  datatype Config = Config(nspd: real, wr: int, ndwl: nat, ndbl: nat, ndcm: nat, ndsam1: nat, ndsam2: nat)

  /** What `calculate_time` fills in for a valid partition. */
  datatype Metrics = Metrics(degBlMuxing: int, figures: Figures, height: real, width: real,
                             senseampMuxDecoder: real, beforeDriver: real, fromDriver: real)

  datatype Org = Org(cfg: Config, m: Metrics)

  /** A `mem_array`: an organisation at an address. */
  datatype MemArray = MemArray(id: nat, org: Org)

  ghost predicate PositiveFigures(f: Figures) {
    f.delay > 0.0 && f.dyn > 0.0 && f.leakage > 0.0 && f.area > 0.0 && f.cyc > 0.0
  }

  ghost predicate PositiveMetrics(m: Metrics) {
    PositiveFigures(m.figures) && m.height > 0.0 && m.width > 0.0
    && m.senseampMuxDecoder >= 0.0 && m.beforeDriver >= 0.0 && m.fromDriver >= 0.0
  }

  // ----- mem_array::lt -----

  /** The fields the comparison looks at, most significant first. */
  predicate Lt(a: Org, b: Org) {
    if a.cfg.nspd < b.cfg.nspd then true
    else if a.cfg.nspd > b.cfg.nspd then false
    else if a.cfg.ndwl < b.cfg.ndwl then true
    else if a.cfg.ndwl > b.cfg.ndwl then false
    else if a.cfg.ndbl < b.cfg.ndbl then true
    else if a.cfg.ndbl > b.cfg.ndbl then false
    else if a.m.degBlMuxing < b.m.degBlMuxing then true
    else if a.m.degBlMuxing > b.m.degBlMuxing then false
    else if a.cfg.ndsam1 < b.cfg.ndsam1 then true
    else if a.cfg.ndsam1 > b.cfg.ndsam1 then false
    else a.cfg.ndsam2 < b.cfg.ndsam2
  }

  /** A strict weak order: what `list::sort` and `list::merge` need. */
  lemma LtIsStrictWeak(a: Org, b: Org, c: Org)
    ensures !Lt(a, a)
    ensures Lt(a, b) && Lt(b, c) ==> Lt(a, c)
    ensures !Lt(a, b) && !Lt(b, c) ==> !Lt(a, c)
  {}

  /** The order of two arrays of which the second does not come before the first: fewer sets per line
      first, then fewer divisions of the word lines, of the bit lines, and so on. */
  lemma NotBefore(a: Org, b: Org)
    ensures !Lt(b, a) <==>
              a.cfg.nspd < b.cfg.nspd || (a.cfg.nspd == b.cfg.nspd &&
              (a.cfg.ndwl < b.cfg.ndwl || (a.cfg.ndwl == b.cfg.ndwl &&
              (a.cfg.ndbl < b.cfg.ndbl || (a.cfg.ndbl == b.cfg.ndbl &&
              (a.m.degBlMuxing < b.m.degBlMuxing || (a.m.degBlMuxing == b.m.degBlMuxing &&
              (a.cfg.ndsam1 < b.cfg.ndsam1 || (a.cfg.ndsam1 == b.cfg.ndsam1 && a.cfg.ndsam2 <= b.cfg.ndsam2)))))))))
  {}

  function NotAfter(): (MemArray, MemArray) -> bool {
    (a: MemArray, b: MemArray) => !Lt(b.org, a.org)
  }

  lemma NotAfterPreorder()
    ensures TotalPreorder(NotAfter())
  {
    var leq := NotAfter();
    forall a: MemArray, b: MemArray
      ensures leq(a, b) || leq(b, a)
    {
      LtIsStrictWeak(a.org, b.org, a.org);
    }
    forall a: MemArray, b: MemArray, c: MemArray | leq(a, b) && leq(b, c)
      ensures leq(a, c)
    {
      LtIsStrictWeak(c.org, b.org, a.org);
    }
  }

  // ----- min_values_t -----

  function Min(x: real, y: real): real {
    if x > y then y else x
  }

  function PointMin(a: Figures, b: Figures): Figures {
    Figures(Min(a.delay, b.delay), Min(a.dyn, b.dyn), Min(a.leakage, b.leakage), Min(a.area, b.area), Min(a.cyc, b.cyc))
  }

  const TOP := Figures(BIGNUM, BIGNUM, BIGNUM, BIGNUM, BIGNUM)

  /** The pointwise minimum of a list, starting from BIGNUM. */
  function Least(fs: seq<Figures>): Figures {
    if fs == [] then TOP else PointMin(Least(fs[..|fs| - 1]), fs[|fs| - 1])
  }

  lemma LeastAppend(fs: seq<Figures>, f: Figures)
    ensures Least(fs + [f]) == PointMin(Least(fs), f)
  {
    assert (fs + [f])[..|fs|] == fs;
  }

  lemma {:induction false} LeastConcat(a: seq<Figures>, b: seq<Figures>)
    ensures Least(a + b) == PointMin(Least(a), Least(b))
    decreases |b|
  {
    if b == [] {
      assert a + b == a;
      LeastBelowTop(a);
    } else {
      var front, last := b[..|b| - 1], b[|b| - 1];
      assert a + b == (a + front) + [last];
      LeastConcat(a, front);
      LeastAppend(a + front, last);
    }
  }

  ghost predicate Below(a: Figures, b: Figures) {
    a.delay <= b.delay && a.dyn <= b.dyn && a.leakage <= b.leakage && a.area <= b.area && a.cyc <= b.cyc
  }

  lemma {:induction false} LeastBelowTop(fs: seq<Figures>)
    ensures Below(Least(fs), TOP)
  {
    if fs != [] {
      LeastBelowTop(fs[..|fs| - 1]);
    }
  }

  lemma {:induction false} LeastIsBelow(fs: seq<Figures>, f: Figures)
    requires f in fs
    ensures Below(Least(fs), f)
  {
    if f in fs[..|fs| - 1] {
      LeastIsBelow(fs[..|fs| - 1], f);
    }
  }

  /** The least delay is attained unless nothing is faster than BIGNUM. */
  lemma {:induction false} LeastDelayAttained(fs: seq<Figures>)
    ensures Least(fs).delay < BIGNUM ==> exists f :: f in fs && f.delay == Least(fs).delay
  {
    if fs != [] {
      var front, last := fs[..|fs| - 1], fs[|fs| - 1];
      LeastDelayAttained(front);
      assert last in fs;
      if Least(front).delay <= last.delay && Least(fs).delay < BIGNUM {
        var f :| f in front && f.delay == Least(front).delay;
        assert f in fs;
      }
    }
  }

  /** Every least figure is that of some entry, or the 10^30 the minima start from. */
  lemma {:induction false} LeastAttained(fs: seq<Figures>)
    ensures Least(fs).delay == 1e30 || exists i :: 0 <= i < |fs| && fs[i].delay == Least(fs).delay
    ensures Least(fs).dyn == 1e30 || exists i :: 0 <= i < |fs| && fs[i].dyn == Least(fs).dyn
    ensures Least(fs).leakage == 1e30 || exists i :: 0 <= i < |fs| && fs[i].leakage == Least(fs).leakage
    ensures Least(fs).area == 1e30 || exists i :: 0 <= i < |fs| && fs[i].area == Least(fs).area
    ensures Least(fs).cyc == 1e30 || exists i :: 0 <= i < |fs| && fs[i].cyc == Least(fs).cyc
  {
    if fs != [] {
      var n := |fs| - 1;
      LeastAttained(fs[..n]);
      if i :| 0 <= i < n && fs[..n][i].delay == Least(fs[..n]).delay { assert fs[i] == fs[..n][i]; }
      if i :| 0 <= i < n && fs[..n][i].dyn == Least(fs[..n]).dyn { assert fs[i] == fs[..n][i]; }
      if i :| 0 <= i < n && fs[..n][i].leakage == Least(fs[..n]).leakage { assert fs[i] == fs[..n][i]; }
      if i :| 0 <= i < n && fs[..n][i].area == Least(fs[..n]).area { assert fs[i] == fs[..n][i]; }
      if i :| 0 <= i < n && fs[..n][i].cyc == Least(fs[..n]).cyc { assert fs[i] == fs[..n][i]; }
    }
  }

  /** Any bound below the list and BIGNUM is below the minimum: the minimum is the greatest such bound. */
  lemma {:induction false} LeastIsGreatest(fs: seq<Figures>, bound: Figures)
    requires Below(bound, TOP) && forall f | f in fs :: Below(bound, f)
    ensures Below(bound, Least(fs))
  {
    if fs != [] {
      assert fs[|fs| - 1] in fs;
      LeastIsGreatest(fs[..|fs| - 1], bound);
    }
  }

  /** So the minimum depends only on which figures occur, not on their order. */
  lemma LeastOfPermutation(a: seq<Figures>, b: seq<Figures>)
    requires multiset(a) == multiset(b)
    ensures Least(a) == Least(b)
  {
    SameElements(b, a);
    LeastBelowTop(a);
    LeastBelowTop(b);
    forall f | f in b
      ensures Below(Least(a), f)
    {
      LeastIsBelow(a, f);
    }
    LeastIsGreatest(b, Least(a));
    forall f | f in a
      ensures Below(Least(b), f)
    {
      LeastIsBelow(b, f);
    }
    LeastIsGreatest(a, Least(b));
  }

  lemma {:induction false} LeastPositive(fs: seq<Figures>)
    requires forall f | f in fs :: PositiveFigures(f)
    ensures PositiveFigures(Least(fs))
  {
    if fs != [] {
      assert fs[|fs| - 1] in fs;
      LeastPositive(fs[..|fs| - 1]);
    }
  }

  /** `min_values_t`: every overload of `update_min_values` compares the same five figures. */
  class MinValues {
    var v: Figures

    constructor ()
      ensures v == TOP
    {
      v := TOP;
    }

    method Update(f: Figures)
      modifies this
      ensures v == PointMin(old(v), f)
    {
      v := v.(delay := if v.delay > f.delay then f.delay else v.delay);
      v := v.(dyn := if v.dyn > f.dyn then f.dyn else v.dyn);
      v := v.(leakage := if v.leakage > f.leakage then f.leakage else v.leakage);
      v := v.(area := if v.area > f.area then f.area else v.area);
      v := v.(cyc := if v.cyc > f.cyc then f.cyc else v.cyc);
    }
  }

  // ----- ownership -----

  /** The mem_array allocations of a run: deleting one twice, or one never allocated, is not possible. */
  class Heap {
    var live: set<nat>
    var next: nat

    ghost predicate Valid()
      reads this
    {
      forall id | id in live :: id < next
    }

    constructor ()
      ensures Valid() && live == {}
    {
      live, next := {}, 0;
    }

    method New() returns (id: nat)
      requires Valid()
      modifies this
      ensures Valid() && id == old(next) && next == old(next) + 1
      ensures id !in old(live) && live == old(live) + {id}
    {
      id := next;
      next := next + 1;
      live := live + {id};
    }

    method Delete(id: nat)
      requires Valid() && id in live
      modifies this`live
      ensures Valid() && live == old(live) - {id}
    {
      live := live - {id};
    }
  }

  ghost function Ids(arrays: seq<MemArray>): set<nat> {
    set a | a in arrays :: a.id
  }

  ghost predicate DistinctIds(arrays: seq<MemArray>) {
    forall i, j | 0 <= i < j < |arrays| :: arrays[i].id != arrays[j].id
  }

  function OrgsOf(arrays: seq<MemArray>): (orgs: seq<Org>)
    ensures |orgs| == |arrays| && forall i | 0 <= i < |orgs| :: orgs[i] == arrays[i].org
  {
    seq(|arrays|, i requires 0 <= i < |arrays| => arrays[i].org)
  }

  function FiguresOf(orgs: seq<Org>): (fs: seq<Figures>)
    ensures |fs| == |orgs| && forall i | 0 <= i < |fs| :: fs[i] == orgs[i].m.figures
  {
    seq(|orgs|, i requires 0 <= i < |orgs| => orgs[i].m.figures)
  }

  lemma OrgsConcat(a: seq<MemArray>, b: seq<MemArray>)
    ensures OrgsOf(a + b) == OrgsOf(a) + OrgsOf(b)
    ensures Ids(a + b) == Ids(a) + Ids(b)
  {}

  lemma FiguresConcat(a: seq<Org>, b: seq<Org>)
    ensures FiguresOf(a + b) == FiguresOf(a) + FiguresOf(b)
  {}

  /** One more array at a new address. */
  lemma AddArray(arrays: seq<MemArray>, a: MemArray)
    ensures OrgsOf(arrays + [a]) == OrgsOf(arrays) + [a.org]
    ensures Ids(arrays + [a]) == Ids(arrays) + {a.id}
    ensures DistinctIds(arrays) && a.id !in Ids(arrays) ==> DistinctIds(arrays + [a])
    ensures Least(FiguresOf(OrgsOf(arrays + [a]))) == PointMin(Least(FiguresOf(OrgsOf(arrays))), a.org.m.figures)
  {
    OrgsConcat(arrays, [a]);
    assert OrgsOf([a]) == [a.org] && Ids([a]) == {a.id};
    FiguresConcat(OrgsOf(arrays), [a.org]);
    assert FiguresOf([a.org]) == [a.org.m.figures];
    LeastAppend(FiguresOf(OrgsOf(arrays)), a.org.m.figures);
    if a.id !in Ids(arrays) {
      assert forall i | 0 <= i < |arrays| :: arrays[i] in arrays && arrays[i].id != a.id;
    }
  }
}
