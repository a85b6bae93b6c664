/** The equal-bandwidth runs of `find_all_bobs` and the channel multisets reached within them. */
module MemCadRuns {
  import opened Binomial
  import opened MemCadEnumerate

  ghost predicate OneBandwidth(bws: seq<int>, start: nat, end: int) {
    start <= end < |bws| && forall i | start <= i <= end :: bws[i] == bws[start]
  }

  /** start_index and end_index cut the list into consecutive, non-empty runs of equal bandwidth
      that cannot be extended. */
  ghost predicate Runs(bws: seq<int>, starts: seq<nat>, ends: seq<int>) {
    && |starts| == |ends| >= 1 && starts[0] == 0 && ends[|ends| - 1] == |bws| - 1
    && (forall k | 0 <= k < |starts| :: OneBandwidth(bws, starts[k], ends[k]))
    && (forall k | 0 <= k < |starts| - 1 :: starts[k + 1] == ends[k] + 1 && bws[starts[k + 1]] != bws[ends[k]])
  }

  /** The runs cut so far, with the last one still open at index i. */
  ghost predicate RunsSoFar(bws: seq<int>, starts: seq<nat>, ends: seq<int>, i: nat) {
    && 1 <= i <= |bws| && |starts| == |ends| + 1 && starts[0] == 0
    && OneBandwidth(bws, starts[|ends|], i - 1)
    && (forall k | 0 <= k < |ends| :: OneBandwidth(bws, starts[k], ends[k]))
    && (forall k | 0 <= k < |ends| :: starts[k + 1] == ends[k] + 1 < |bws| && bws[starts[k + 1]] != bws[ends[k]])
  }

  lemma SameRun(bws: seq<int>, starts: seq<nat>, ends: seq<int>, i: nat)
    requires RunsSoFar(bws, starts, ends, i) && i < |bws| && bws[i] == bws[i - 1]
    ensures RunsSoFar(bws, starts, ends, i + 1)
  {
    assert OneBandwidth(bws, starts[|ends|], i - 1);
    assert OneBandwidth(bws, starts[|ends|], i);
  }

  lemma NextRun(bws: seq<int>, starts: seq<nat>, ends: seq<int>, i: nat)
    requires RunsSoFar(bws, starts, ends, i) && i < |bws| && bws[i] != bws[i - 1]
    ensures RunsSoFar(bws, starts + [i], ends + [i - 1], i + 1)
  {
    var s, e := starts + [i], ends + [i - 1];
    assert forall k | 0 <= k <= |ends| :: s[k] == starts[k];
    assert s[|e|] == i && OneBandwidth(bws, i, i);
    forall k | 0 <= k < |e|
      ensures OneBandwidth(bws, s[k], e[k])
    {
      assert k < |ends| ==> e[k] == ends[k];
    }
    forall k | 0 <= k < |e|
      ensures s[k + 1] == e[k] + 1 < |bws| && bws[s[k + 1]] != bws[e[k]]
    {
      assert k < |ends| ==> e[k] == ends[k];
    }
  }

  lemma LastRun(bws: seq<int>, starts: seq<nat>, ends: seq<int>)
    requires RunsSoFar(bws, starts, ends, |bws|)
    ensures Runs(bws, starts, ends + [|bws| - 1])
  {
    var e := ends + [|bws| - 1];
    forall k | 0 <= k < |starts|
      ensures OneBandwidth(bws, starts[k], e[k])
    {
      assert k < |ends| ==> e[k] == ends[k];
    }
    forall k | 0 <= k < |starts| - 1
      ensures starts[k + 1] == e[k] + 1 && bws[starts[k + 1]] != bws[e[k]]
    {
      assert e[k] == ends[k];
    }
  }

  method FindRuns(bws: seq<int>) returns (starts: seq<nat>, ends: seq<int>)
    requires bws != []
    ensures Runs(bws, starts, ends)
  {
    starts, ends := [0], [];
    var lastBw := bws[0];
    for i := 0 to |bws|
      invariant i == 0 ==> starts == [0] && ends == [] && lastBw == bws[0]
      invariant i > 0 ==> RunsSoFar(bws, starts, ends, i) && lastBw == bws[i - 1]
    {
      if i == 0 {
        assert OneBandwidth(bws, 0, 0);
      } else if lastBw != bws[i] {
        NextRun(bws, starts, ends, i);
      } else {
        SameRun(bws, starts, ends, i);
      }
      if lastBw != bws[i] {
        ends := ends + [i - 1];
        starts := starts + [i];
        lastBw := bws[i];
      }
    }
    LastRun(bws, starts, ends);
    ends := ends + [|bws| - 1];
  }

  /** Everything the calls of `find_bobs_recursive` reach from run k on. */
  ghost function RunPicks(starts: seq<nat>, ends: seq<int>, nb: nat, k: nat): seq<seq<nat>>
    requires nb >= 1 && |starts| == |ends|
    decreases |starts| - k
  {
    if k >= |starts| then [] else Picks(starts[k], ends[k], nb) + RunPicks(starts, ends, nb, k + 1)
  }

  ghost predicate Ascending(bws: seq<int>) {
    forall i, j | 0 <= i < j < |bws| :: bws[i] <= bws[j]
  }

  /** A multiset of nb channels of one bandwidth, as an increasing index list from lo on. */
  ghost predicate IsEqualPick(bws: seq<int>, lo: nat, nb: nat, idx: seq<nat>) {
    && |idx| == nb && NonDecreasing(idx) && (forall k | 0 <= k < |idx| :: lo <= idx[k] < |bws|)
    && (forall k | 0 <= k < |idx| :: bws[idx[k]] == bws[idx[0]])
  }

  lemma BeyondRun(bws: seq<int>, starts: seq<nat>, ends: seq<int>, k: nat, j: nat)
    requires Ascending(bws) && Runs(bws, starts, ends) && k < |starts| && j < |bws|
    ensures j > ends[k] ==> bws[j] > bws[starts[k]]
  {
    if k + 1 < |starts| && j > ends[k] {
      var next := starts[k + 1];
      assert bws[ends[k]] < bws[next];
      assert j == next || bws[next] <= bws[j];
    }
  }

  /** The last index of an equal-bandwidth list stays in the run of the first. */
  lemma WithinRun(bws: seq<int>, starts: seq<nat>, ends: seq<int>, k: nat, nb: nat, idx: seq<nat>)
    requires Ascending(bws) && Runs(bws, starts, ends) && k < |starts| && nb >= 1
    requires IsEqualPick(bws, starts[k], nb, idx) && idx[0] <= ends[k]
    ensures IsPick(starts[k], ends[k], nb, idx)
  {
    assert OneBandwidth(bws, starts[k], ends[k]);
    forall i | 0 <= i < |idx|
      ensures idx[i] <= ends[k]
    {
      BeyondRun(bws, starts, ends, k, idx[i]);
    }
  }

  /** Exactly the multisets of channels of equal bandwidth. */
  lemma {:induction false} RunPicksExact(bws: seq<int>, starts: seq<nat>, ends: seq<int>, nb: nat, k: nat, idx: seq<nat>)
    requires Ascending(bws) && Runs(bws, starts, ends) && nb >= 1 && k < |starts|
    ensures idx in RunPicks(starts, ends, nb, k) <==> IsEqualPick(bws, starts[k], nb, idx)
    decreases |starts| - k
  {
    PicksExact(starts[k], ends[k], nb, idx);
    assert k + 1 == |starts| ==> RunPicks(starts, ends, nb, k + 1) == [];
    if k + 1 < |starts| {
      RunPicksExact(bws, starts, ends, nb, k + 1, idx);
    }
    if IsEqualPick(bws, starts[k], nb, idx) {
      if idx[0] <= ends[k] {
        WithinRun(bws, starts, ends, k, nb, idx);
      } else {
        assert forall i | 0 <= i < |idx| :: idx[0] <= idx[i];
      }
    }
    assert OneBandwidth(bws, starts[k], ends[k]);
  }

  /** Each of them once. */
  lemma {:induction false} RunPicksSorted(bws: seq<int>, starts: seq<nat>, ends: seq<int>, nb: nat, k: nat)
    requires Ascending(bws) && Runs(bws, starts, ends) && nb >= 1 && k < |starts|
    ensures LexSorted(RunPicks(starts, ends, nb, k))
    decreases |starts| - k
  {
    var here, later := Picks(starts[k], ends[k], nb), RunPicks(starts, ends, nb, k + 1);
    PicksSorted(starts[k], ends[k], nb);
    if k + 1 < |starts| {
      RunPicksSorted(bws, starts, ends, nb, k + 1);
      forall i, j | 0 <= i < |here| && 0 <= j < |later|
        ensures LexLess(here[i], later[j])
      {
        assert here[i] in here && later[j] in later;
        PicksExact(starts[k], ends[k], nb, here[i]);
        RunPicksExact(bws, starts, ends, nb, k + 1, later[j]);
      }
    }
    forall i, j | 0 <= i < j < |here + later|
      ensures LexLess((here + later)[i], (here + later)[j])
    {}
  }

  /** Sum over the runs of C(m + nb - 1, nb), m the length of the run. */
  ghost function RunCount(starts: seq<nat>, ends: seq<int>, nb: nat, k: nat): nat
    requires nb >= 1 && |starts| == |ends|
    decreases |starts| - k
  {
    if k >= |starts| then 0
    else Binom(if starts[k] <= ends[k] then ends[k] - starts[k] + nb else 0, nb) + RunCount(starts, ends, nb, k + 1)
  }

  lemma {:induction false} RunPicksCount(starts: seq<nat>, ends: seq<int>, nb: nat, k: nat)
    requires nb >= 1 && |starts| == |ends| && forall i | 0 <= i < |starts| :: starts[i] <= ends[i]
    ensures |RunPicks(starts, ends, nb, k)| == RunCount(starts, ends, nb, k)
    decreases |starts| - k
  {
    if k < |starts| {
      PicksCount(starts[k], ends[k], nb);
      RunPicksCount(starts, ends, nb, k + 1);
    }
  }
}
