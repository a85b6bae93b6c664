/** The index lists the recursive searches of memcad.cc push and pop: which ones they reach, in which
    order, and how many. */
module MemCadEnumerate {
  import opened Binomial

  ghost predicate NonDecreasing(idx: seq<nat>) {
    forall i, j | 0 <= i < j < |idx| :: idx[i] <= idx[j]
  }

  ghost predicate LexLess(a: seq<nat>, b: seq<nat>) {
    |a| == |b| && a != [] && (a[0] < b[0] || (a[0] == b[0] && LexLess(a[1..], b[1..])))
  }

  lemma {:induction false} LexLessIrreflexive(a: seq<nat>)
    ensures !LexLess(a, a)
  {
    if a != [] {
      LexLessIrreflexive(a[1..]);
    }
  }

  ghost predicate LexSorted(s: seq<seq<nat>>) {
    forall i, j | 0 <= i < j < |s| :: LexLess(s[i], s[j])
  }

  /** A list in strict lexicographic order holds nothing twice. */
  lemma LexSortedDistinct(s: seq<seq<nat>>)
    requires LexSorted(s)
    ensures forall i, j | 0 <= i < j < |s| :: s[i] != s[j]
  {
    forall i, j | 0 <= i < j < |s|
      ensures s[i] != s[j]
    {
      LexLessIrreflexive(s[i]);
    }
  }

  ghost function Prepend(i: nat, lists: seq<seq<nat>>): (r: seq<seq<nat>>)
    ensures |r| == |lists| && forall k | 0 <= k < |r| :: r[k] == [i] + lists[k]
  {
    seq(|lists|, k requires 0 <= k < |lists| => [i] + lists[k])
  }

  lemma PrependMember(i: nat, lists: seq<seq<nat>>, idx: seq<nat>)
    ensures idx in Prepend(i, lists) <==> idx != [] && idx[0] == i && idx[1..] in lists
  {
    var r := Prepend(i, lists);
    if idx in r {
      var k :| 0 <= k < |r| && r[k] == idx;
      assert idx[1..] == lists[k];
    }
    if idx != [] && idx[0] == i && idx[1..] in lists {
      var k :| 0 <= k < |lists| && lists[k] == idx[1..];
      assert r[k] == [i] + idx[1..] == idx;
    }
  }

  lemma PrependSorted(i: nat, lists: seq<seq<nat>>)
    requires LexSorted(lists)
    ensures LexSorted(Prepend(i, lists))
  {
    var r := Prepend(i, lists);
    forall j, k | 0 <= j < k < |r|
      ensures LexLess(r[j], r[k])
    {
      assert r[j][1..] == lists[j] && r[k][1..] == lists[k];
    }
  }

  /** All lists have length n and begin at i; or, for the later ones, beyond i. */
  ghost predicate BeginAt(lists: seq<seq<nat>>, i: nat, n: nat) {
    forall k | 0 <= k < |lists| :: |lists[k]| == n && n > 0 && lists[k][0] == i
  }

  ghost predicate BeginBeyond(lists: seq<seq<nat>>, i: nat, n: nat) {
    forall k | 0 <= k < |lists| :: |lists[k]| == n && n > 0 && lists[k][0] > i
  }

  lemma LexSortedJoin(front: seq<seq<nat>>, rest: seq<seq<nat>>, i: nat, n: nat)
    requires LexSorted(front) && LexSorted(rest) && BeginAt(front, i, n) && BeginBeyond(rest, i, n)
    ensures LexSorted(front + rest)
    ensures i > 0 ==> BeginBeyond(front + rest, i - 1, n)
  {
    var all := front + rest;
    forall j, k | 0 <= j < k < |all|
      ensures LexLess(all[j], all[k])
    {
      if k < |front| {
        assert all[j] == front[j] && all[k] == front[k];
      } else if j < |front| {
        assert all[j] == front[j] && all[k] == rest[k - |front|];
      } else {
        assert all[j] == rest[j - |front|] && all[k] == rest[k - |front|];
      }
    }
    forall j | 0 <= j < |all|
      ensures |all[j]| == n && n > 0 && all[j][0] >= i
    {
      assert all[j] == if j < |front| then front[j] else rest[j - |front|];
    }
  }

  // ----- choices by capacity: find_mems_recursive -----

  ghost function CapacitySum(caps: seq<nat>, idx: seq<nat>): nat
    requires forall k | 0 <= k < |idx| :: idx[k] < |caps|
  {
    if idx == [] then 0 else caps[idx[0]] + CapacitySum(caps, idx[1..])
  }

  /** The index lists a call should reach. */
  ghost predicate IsChoice(caps: seq<nat>, remaining: int, start: nat, nb: nat, idx: seq<nat>) {
    && |idx| == nb && NonDecreasing(idx)
    && (forall k | 0 <= k < |idx| :: start <= idx[k] < |caps|)
    && CapacitySum(caps, idx) == remaining
  }

  /** The index lists one round of the loop of `find_mems_recursive` reaches, in its order. */
  ghost function ChoicesAt(caps: seq<nat>, remaining: int, i: nat, nb: nat): seq<seq<nat>>
    requires nb >= 1 && i < |caps|
    decreases nb, |caps| - i, 0
  {
    if nb == 1 then (if caps[i] == remaining then [[i]] else [])
    else if caps[i] > remaining then []
    else Prepend(i, Choices(caps, remaining - caps[i], i, nb - 1))
  }

  /** The index lists a call reaches, in its order. */
  ghost function Choices(caps: seq<nat>, remaining: int, start: nat, nb: nat): seq<seq<nat>>
    requires nb >= 1
    decreases nb, |caps| - start, 1
  {
    if start >= |caps| then []
    else ChoicesAt(caps, remaining, start, nb) + Choices(caps, remaining, start + 1, nb)
  }

  lemma ChoiceHead(caps: seq<nat>, remaining: int, start: nat, nb: nat, idx: seq<nat>)
    requires start < |caps| && nb >= 2 && |idx| >= 1
    ensures IsChoice(caps, remaining, start, nb, idx) && idx[0] == start <==>
              idx[0] == start && IsChoice(caps, remaining - caps[start], start, nb - 1, idx[1..])
    ensures IsChoice(caps, remaining, start, nb, idx) && idx[0] == start ==> caps[start] <= remaining
  {
    assert idx == [idx[0]] + idx[1..];
  }

  lemma ChoiceTail(caps: seq<nat>, remaining: int, start: nat, nb: nat, idx: seq<nat>)
    requires |idx| >= 1
    ensures IsChoice(caps, remaining, start, nb, idx) && idx[0] != start <==>
              IsChoice(caps, remaining, start + 1, nb, idx)
  {
    assert forall k | 0 < k < |idx| && NonDecreasing(idx) :: idx[0] <= idx[k];
  }

  lemma ChoiceSingle(caps: seq<nat>, remaining: int, i: nat, idx: seq<nat>)
    requires i < |caps|
    ensures IsChoice(caps, remaining, i, 1, idx) && idx[0] == i <==> idx == [i] && caps[i] == remaining
  {
    if |idx| == 1 {
      assert idx == [idx[0]] && idx[1..] == [];
      assert idx[0] < |caps| ==> CapacitySum(caps, idx) == caps[idx[0]] + CapacitySum(caps, idx[1..]);
    }
  }

  lemma {:induction false} ChoicesAtExact(caps: seq<nat>, remaining: int, i: nat, nb: nat, idx: seq<nat>)
    requires nb >= 1 && i < |caps|
    ensures idx in ChoicesAt(caps, remaining, i, nb) <==> IsChoice(caps, remaining, i, nb, idx) && idx[0] == i
    decreases nb, |caps| - i, 0
  {
    if nb == 1 {
      ChoiceSingle(caps, remaining, i, idx);
    } else {
      if |idx| >= 1 {
        ChoicesExact(caps, remaining - caps[i], i, nb - 1, idx[1..]);
      }
      ChoicesAtMember(caps, remaining, i, nb, idx, Choices(caps, remaining - caps[i], i, nb - 1));
    }
  }

  lemma ChoicesAtMember(caps: seq<nat>, remaining: int, i: nat, nb: nat, idx: seq<nat>, sub: seq<seq<nat>>)
    requires nb >= 2 && i < |caps|
    requires |idx| >= 1 ==> (idx[1..] in sub <==> IsChoice(caps, remaining - caps[i], i, nb - 1, idx[1..]))
    ensures (caps[i] <= remaining && idx in Prepend(i, sub)) <==> IsChoice(caps, remaining, i, nb, idx) && idx[0] == i
  {
    PrependMember(i, sub, idx);
    if |idx| >= 1 {
      ChoiceHead(caps, remaining, i, nb, idx);
    }
  }

  /** Exactly the index lists with the requested capacity: the cut on a too large BoB loses none,
      because no capacity is negative. */
  lemma {:induction false} ChoicesExact(caps: seq<nat>, remaining: int, start: nat, nb: nat, idx: seq<nat>)
    requires nb >= 1
    ensures idx in Choices(caps, remaining, start, nb) <==> IsChoice(caps, remaining, start, nb, idx)
    decreases nb, |caps| - start, 1
  {
    if start < |caps| {
      ChoicesAtExact(caps, remaining, start, nb, idx);
      ChoicesExact(caps, remaining, start + 1, nb, idx);
      if |idx| >= 1 {
        ChoiceTail(caps, remaining, start, nb, idx);
      }
    }
  }

  lemma {:induction false} ChoicesAtSorted(caps: seq<nat>, remaining: int, i: nat, nb: nat)
    requires nb >= 1 && i < |caps|
    ensures LexSorted(ChoicesAt(caps, remaining, i, nb)) && BeginAt(ChoicesAt(caps, remaining, i, nb), i, nb)
    decreases nb, |caps| - i, 0
  {
    var at := ChoicesAt(caps, remaining, i, nb);
    if nb > 1 && caps[i] <= remaining {
      ChoicesSorted(caps, remaining - caps[i], i, nb - 1);
      PrependSorted(i, Choices(caps, remaining - caps[i], i, nb - 1));
    }
    forall k | 0 <= k < |at|
      ensures |at[k]| == nb && at[k][0] == i
    {
      assert at[k] in at;
      ChoicesAtExact(caps, remaining, i, nb, at[k]);
    }
  }

  /** Each of them once, in lexicographic order. */
  lemma {:induction false} ChoicesSorted(caps: seq<nat>, remaining: int, start: nat, nb: nat)
    requires nb >= 1
    ensures LexSorted(Choices(caps, remaining, start, nb))
    ensures start > 0 ==> BeginBeyond(Choices(caps, remaining, start, nb), start - 1, nb)
    decreases nb, |caps| - start, 1
  {
    if start < |caps| {
      ChoicesAtSorted(caps, remaining, start, nb);
      ChoicesSorted(caps, remaining, start + 1, nb);
      LexSortedJoin(ChoicesAt(caps, remaining, start, nb), Choices(caps, remaining, start + 1, nb), start, nb);
    }
  }

  // ----- choices within a run of channels: find_bobs_recursive -----

  ghost predicate IsPick(start: nat, end: int, nb: nat, idx: seq<nat>) {
    |idx| == nb && NonDecreasing(idx) && forall k | 0 <= k < |idx| :: start <= idx[k] <= end
  }

  /** The index lists one round of the loop of `find_bobs_recursive` reaches, in its order. */
  ghost function PicksAt(i: nat, end: int, nb: nat): seq<seq<nat>>
    requires nb >= 1 && i <= end
    decreases nb, end - i, 0
  {
    if nb == 1 then [[i]] else Prepend(i, Picks(i, end, nb - 1))
  }

  ghost function Picks(start: nat, end: int, nb: nat): seq<seq<nat>>
    requires nb >= 1
    decreases nb, end - start, 1
  {
    if start > end then [] else PicksAt(start, end, nb) + Picks(start + 1, end, nb)
  }

  lemma PickHead(start: nat, end: int, nb: nat, idx: seq<nat>)
    requires start <= end && nb >= 2 && |idx| >= 1
    ensures IsPick(start, end, nb, idx) && idx[0] == start <==> idx[0] == start && IsPick(start, end, nb - 1, idx[1..])
  {
    assert idx == [idx[0]] + idx[1..];
  }

  lemma PickTail(start: nat, end: int, nb: nat, idx: seq<nat>)
    requires |idx| >= 1
    ensures IsPick(start, end, nb, idx) && idx[0] != start <==> IsPick(start + 1, end, nb, idx)
  {
    assert forall k | 0 < k < |idx| && NonDecreasing(idx) :: idx[0] <= idx[k];
  }

  lemma PickSingle(i: nat, end: int, idx: seq<nat>)
    requires i <= end
    ensures IsPick(i, end, 1, idx) && idx[0] == i <==> idx == [i]
  {}

  lemma {:induction false} PicksAtExact(i: nat, end: int, nb: nat, idx: seq<nat>)
    requires nb >= 1 && i <= end
    ensures idx in PicksAt(i, end, nb) <==> IsPick(i, end, nb, idx) && idx[0] == i
    decreases nb, end - i, 0
  {
    if nb == 1 {
      PickSingle(i, end, idx);
    } else {
      PrependMember(i, Picks(i, end, nb - 1), idx);
      if |idx| >= 1 {
        PicksExact(i, end, nb - 1, idx[1..]);
        PickHead(i, end, nb, idx);
      }
    }
  }

  /** Exactly the multisets of nb channels of the run, each written in increasing order. */
  lemma {:induction false} PicksExact(start: nat, end: int, nb: nat, idx: seq<nat>)
    requires nb >= 1
    ensures idx in Picks(start, end, nb) <==> IsPick(start, end, nb, idx)
    decreases nb, end - start, 1
  {
    if |idx| >= 1 {
      PickTail(start, end, nb, idx);
    }
    if start <= end {
      PicksAtExact(start, end, nb, idx);
      PicksExact(start + 1, end, nb, idx);
    }
  }

  lemma {:induction false} PicksAtSorted(i: nat, end: int, nb: nat)
    requires nb >= 1 && i <= end
    ensures LexSorted(PicksAt(i, end, nb)) && BeginAt(PicksAt(i, end, nb), i, nb)
    decreases nb, end - i, 0
  {
    var at := PicksAt(i, end, nb);
    if nb > 1 {
      PicksSorted(i, end, nb - 1);
      PrependSorted(i, Picks(i, end, nb - 1));
    }
    forall k | 0 <= k < |at|
      ensures |at[k]| == nb && at[k][0] == i
    {
      assert at[k] in at;
      PicksAtExact(i, end, nb, at[k]);
    }
  }

  lemma {:induction false} PicksSorted(start: nat, end: int, nb: nat)
    requires nb >= 1
    ensures LexSorted(Picks(start, end, nb))
    ensures start > 0 ==> BeginBeyond(Picks(start, end, nb), start - 1, nb)
    decreases nb, end - start, 1
  {
    if start <= end {
      PicksAtSorted(start, end, nb);
      PicksSorted(start + 1, end, nb);
      LexSortedJoin(PicksAt(start, end, nb), Picks(start + 1, end, nb), start, nb);
    }
  }

  /** There are C(m + nb - 1, nb) of them in a run of m channels. */
  lemma {:induction false} PicksCount(start: nat, end: int, nb: nat)
    requires nb >= 1 && start <= end + 1
    ensures |Picks(start, end, nb)| == Binom(end + 1 - start + nb - 1, nb)
    decreases nb, end - start
  {
    if start > end {
      BinomBeyondRow(nb - 1, nb);
    } else {
      PicksCount(start + 1, end, nb);
      if nb > 1 {
        PicksCount(start, end, nb - 1);
      }
    }
  }
}
