/** The figures of merit of MemCAD configurations and the comparison the three searches sort by. */
module MemCadScore {
  import opened Sorting

  datatype Metric = Bandwidth | Energy | Cost

  datatype Order = Order(first: Metric, second: Metric, third: Metric)

  /** Energies are counted in quanta, so that sums of them never differ by less than EPS. */
  datatype Score = Score(capacity: nat, cost: real, bandwidth: int, energy: int)

  const EPS := 0.0000001
  const QUANTUM := 0.000001

  const ZERO := Score(0, 0.0, 0, 0)

  function EnergyOf(s: Score): real {
    s.energy as real * QUANTUM
  }

  function Abs(x: real): real {
    if x < 0.0 then -x else x
  }

  /** Whether a metric tells two configurations apart, by the source's test. */
  predicate Differs(m: Metric, a: Score, b: Score) {
    match m
    case Cost => a.cost != b.cost
    case Bandwidth => a.bandwidth != b.bandwidth
    case Energy => Abs(EnergyOf(a) - EnergyOf(b)) > EPS
  }

  predicate Better(m: Metric, a: Score, b: Score) {
    match m
    case Cost => a.cost < b.cost
    case Bandwidth => a.bandwidth > b.bandwidth
    case Energy => EnergyOf(a) < EnergyOf(b)
  }

  /** `compare_channels`, `compare_bobs` and `compare_memories`, which share one body. */
  predicate Compare(order: Order, a: Score, b: Score) {
    if a.capacity != b.capacity then a.capacity < b.capacity
    else if Differs(order.first, a, b) then Better(order.first, a, b)
    else if Differs(order.second, a, b) then Better(order.second, a, b)
    else if Differs(order.third, a, b) then Better(order.third, a, b)
    else true
  }

  function Plus(a: Score, b: Score): Score {
    Score(a.capacity + b.capacity, a.cost + b.cost, a.bandwidth + b.bandwidth, a.energy + b.energy)
  }

  /** n copies of a configuration. */
  function Times(n: nat, s: Score): Score {
    if n == 0 then ZERO else Plus(Times(n - 1, s), s)
  }

  function Total(scores: seq<Score>): Score {
    if scores == [] then ZERO else Plus(Total(scores[..|scores| - 1]), scores[|scores| - 1])
  }

  // ----- the comparison is a lexicographic order on additive keys -----

  ghost function Key(m: Metric, s: Score): real {
    match m
    case Cost => s.cost
    case Bandwidth => -(s.bandwidth as real)
    case Energy => s.energy as real
  }

  lemma MetricIsKey(m: Metric, a: Score, b: Score)
    ensures Differs(m, a, b) <==> Key(m, a) != Key(m, b)
    ensures Better(m, a, b) <==> Key(m, a) < Key(m, b)
  {
    if m == Energy {
      assert EnergyOf(a) - EnergyOf(b) == (a.energy - b.energy) as real * QUANTUM;
    }
  }

  ghost predicate LexLeq(order: Order, a: Score, b: Score) {
    var (a1, a2, a3) := (Key(order.first, a), Key(order.second, a), Key(order.third, a));
    var (b1, b2, b3) := (Key(order.first, b), Key(order.second, b), Key(order.third, b));
    a.capacity < b.capacity ||
    (a.capacity == b.capacity && (a1 < b1 || (a1 == b1 && (a2 < b2 || (a2 == b2 && a3 <= b3)))))
  }

  lemma CompareIsLex(order: Order, a: Score, b: Score)
    ensures Compare(order, a, b) <==> LexLeq(order, a, b)
  {
    MetricIsKey(order.first, a, b);
    MetricIsKey(order.second, a, b);
    MetricIsKey(order.third, a, b);
  }

  /** Of two configurations of one capacity the preferred one is no worse in the first metric, on a tie in
      the second, and on ties in both in the third: cheaper, less energy, more bandwidth. */
  lemma CompareMeans(order: Order, a: Score, b: Score)
    requires a.capacity == b.capacity
    ensures var tie1 := match order.first
                        case Cost => a.cost == b.cost case Energy => a.energy == b.energy case Bandwidth => a.bandwidth == b.bandwidth;
            var tie2 := match order.second
                        case Cost => a.cost == b.cost case Energy => a.energy == b.energy case Bandwidth => a.bandwidth == b.bandwidth;
            Compare(order, a, b) <==>
              && (match order.first
                  case Cost => a.cost <= b.cost case Energy => a.energy <= b.energy case Bandwidth => a.bandwidth >= b.bandwidth)
              && (tie1 ==>
                    match order.second
                    case Cost => a.cost <= b.cost case Energy => a.energy <= b.energy case Bandwidth => a.bandwidth >= b.bandwidth)
              && (tie1 && tie2 ==>
                    match order.third
                    case Cost => a.cost <= b.cost case Energy => a.energy <= b.energy case Bandwidth => a.bandwidth >= b.bandwidth)
  {
    CompareIsLex(order, a, b);
  }

  lemma CompareTransitive(order: Order, a: Score, b: Score, c: Score)
    requires Compare(order, a, b) && Compare(order, b, c)
    ensures Compare(order, a, c)
  {
    CompareIsLex(order, a, b);
    CompareIsLex(order, b, c);
    CompareIsLex(order, a, c);
  }

  /** The comparison, which holds on ties, is a total preorder. */
  lemma ComparePreorder(order: Order)
    ensures TotalPreorder((a: Score, b: Score) => Compare(order, a, b))
  {
    forall a: Score, b: Score
      ensures Compare(order, a, b) || Compare(order, b, a)
    {
      CompareIsLex(order, a, b);
      CompareIsLex(order, b, a);
    }
    forall a: Score, b: Score, c: Score | Compare(order, a, b) && Compare(order, b, c)
      ensures Compare(order, a, c)
    {
      CompareTransitive(order, a, b, c);
    }
  }

  /** Adding configurations preserves the comparison. */
  lemma CompareAdds(order: Order, a: Score, b: Score, c: Score, d: Score)
    requires Compare(order, a, b) && Compare(order, c, d)
    ensures Compare(order, Plus(a, c), Plus(b, d))
  {
    CompareIsLex(order, a, b);
    CompareIsLex(order, c, d);
    CompareIsLex(order, Plus(a, c), Plus(b, d));
  }

  lemma {:induction false} CompareScales(order: Order, n: nat, a: Score, b: Score)
    requires Compare(order, a, b)
    ensures Compare(order, Times(n, a), Times(n, b))
    ensures a.capacity == b.capacity ==> Times(n, a).capacity == Times(n, b).capacity
  {
    if n > 0 {
      CompareScales(order, n - 1, a, b);
      CompareAdds(order, Times(n - 1, a), Times(n - 1, b), a, b);
    }
  }

  predicate Tied(x: real, y: real) {
    Abs(x - y) <= EPS
  }

  /** The tolerance test on arbitrary energies would be no such order: ties do not chain. */
  lemma ToleranceIsNotTransitive()
    ensures exists x: real, y: real, z: real :: Tied(x, y) && Tied(y, z) && !Tied(x, z)
  {
    assert Tied(0.0, EPS) && Tied(EPS, EPS + EPS) && !Tied(0.0, EPS + EPS);
  }
}
