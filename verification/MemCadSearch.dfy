/** The three searches of memcad.cc over the global lists of channels, BoBs and memories. */
module MemCadSearch {
  import opened MemCadEnumerate
  import opened MemCadEqual
  import opened MemCadMirror
  import opened MemCadParts
  import opened MemCadRanking
  import opened MemCadRuns
  import opened MemCadScore
  import opened Sequences
  import opened Sorting

  datatype Params = Params(order: Order, capacity: nat, numBobs: nat, channelsPerBob: nat,
                           mirrorInBob: bool, sameBwInBob: bool, tables: Tables)

  ghost predicate ValidParams(p: Params) {
    1 <= p.numBobs <= MAX_NUM_BOBS && 1 <= p.channelsPerBob <= MAX_NUM_CHANNELS_PER_BOB
  }

  ghost function PrefixAll(prefix: seq<nat>, lists: seq<seq<nat>>): (r: seq<seq<nat>>)
    ensures |r| == |lists| && forall k | 0 <= k < |r| :: r[k] == prefix + lists[k]
  {
    seq(|lists|, k requires 0 <= k < |lists| => prefix + lists[k])
  }

  lemma PrefixConcat(prefix: seq<nat>, a: seq<seq<nat>>, b: seq<seq<nat>>)
    ensures PrefixAll(prefix, a + b) == PrefixAll(prefix, a) + PrefixAll(prefix, b)
    ensures PrefixAll([], a) == a
  {
    forall k | 0 <= k < |a|
      ensures [] + a[k] == a[k]
    {}
  }

  lemma PrefixNested(prefix: seq<nat>, i: nat, lists: seq<seq<nat>>)
    ensures PrefixAll(prefix + [i], lists) == PrefixAll(prefix, Prepend(i, lists))
    ensures PrefixAll(prefix, [[i]]) == [prefix + [i]]
  {
    forall k | 0 <= k < |lists|
      ensures (prefix + [i]) + lists[k] == prefix + Prepend(i, lists)[k]
    {}
  }

  lemma ChoicesStep(prefix: seq<nat>, caps: seq<nat>, remaining: int, i: nat, nb: nat)
    requires nb >= 1
    ensures PrefixAll(prefix, Choices(caps, remaining, i, nb)) ==
            if i >= |caps| then []
            else PrefixAll(prefix, ChoicesAt(caps, remaining, i, nb)) + PrefixAll(prefix, Choices(caps, remaining, i + 1, nb))
  {
    if i < |caps| {
      PrefixConcat(prefix, ChoicesAt(caps, remaining, i, nb), Choices(caps, remaining, i + 1, nb));
    }
  }

  lemma ChoicesAdvance(done: seq<seq<nat>>, next: seq<seq<nat>>, prefix: seq<nat>, caps: seq<nat>, remaining: int, i: nat, nb: nat)
    requires nb >= 1 && i < |caps| && next == done + PrefixAll(prefix, ChoicesAt(caps, remaining, i, nb))
    ensures next + PrefixAll(prefix, Choices(caps, remaining, i + 1, nb)) == done + PrefixAll(prefix, Choices(caps, remaining, i, nb))
  {
    ChoicesStep(prefix, caps, remaining, i, nb);
    Advance(done, PrefixAll(prefix, ChoicesAt(caps, remaining, i, nb)), PrefixAll(prefix, Choices(caps, remaining, i + 1, nb)),
            PrefixAll(prefix, Choices(caps, remaining, i, nb)));
  }

  lemma PicksStep(prefix: seq<nat>, i: nat, end: int, nb: nat)
    requires nb >= 1
    ensures PrefixAll(prefix, Picks(i, end, nb)) ==
            if i > end then []
            else PrefixAll(prefix, PicksAt(i, end, nb)) + PrefixAll(prefix, Picks(i + 1, end, nb))
  {
    if i <= end {
      PrefixConcat(prefix, PicksAt(i, end, nb), Picks(i + 1, end, nb));
    }
  }

  lemma PicksAdvance(done: seq<seq<nat>>, next: seq<seq<nat>>, prefix: seq<nat>, i: nat, end: int, nb: nat)
    requires nb >= 1 && i <= end && next == done + PrefixAll(prefix, PicksAt(i, end, nb))
    ensures next + PrefixAll(prefix, Picks(i + 1, end, nb)) == done + PrefixAll(prefix, Picks(i, end, nb))
  {
    PicksStep(prefix, i, end, nb);
    Advance(done, PrefixAll(prefix, PicksAt(i, end, nb)), PrefixAll(prefix, Picks(i + 1, end, nb)), PrefixAll(prefix, Picks(i, end, nb)));
  }

  lemma RunStep(starts: seq<nat>, ends: seq<int>, nb: nat, k: nat)
    requires nb >= 1 && |starts| == |ends| && k < |starts|
    ensures RunPicks(starts, ends, nb, k) == PrefixAll([], Picks(starts[k], ends[k], nb)) + RunPicks(starts, ends, nb, k + 1)
  {
    PrefixConcat([], Picks(starts[k], ends[k], nb), []);
  }

  /** `compare_channels_bw`, as the order it sorts by. */
  function ByBandwidth(): (Channel, Channel) -> bool {
    (a: Channel, b: Channel) => a.score.bandwidth <= b.score.bandwidth
  }

  class Search {
    const params: Params
    var channels: seq<Channel>
    var bobs: seq<Bob>
    var memories: seq<Memory>
    var index: seq<nat>
    /** The index lists the BoBs and the memories were built from. */
    ghost var bobPicks: seq<seq<nat>>
    ghost var memoryPicks: seq<seq<nat>>

    constructor (params: Params, channels: seq<Channel>)
      ensures this.params == params && this.channels == channels && index == []
    {
      this.params, this.channels := params, channels;
      bobs, memories, index := [], [], [];
      bobPicks, memoryPicks := [], [];
    }

    ghost predicate BobsMatch()
      reads this
    {
      |bobs| == |bobPicks| && forall k | 0 <= k < |bobs| ::
        InRange(bobPicks[k], |channels|) && bobs[k] == BobOf(Select(channels, bobPicks[k]))
    }

    ghost predicate MemoriesMatch()
      reads this
    {
      |memories| == |memoryPicks| && forall k | 0 <= k < |memories| ::
        InRange(memoryPicks[k], |bobs|) && memories[k] == MemoryOf(Select(bobs, memoryPicks[k]))
    }

    /** `prune_channels`: keeps a clone of every channel whose capacity differs from the last one kept. */
    method PruneChannels()
      requires forall ch | ch in channels :: Built(params.tables, ch)
      modifies this`channels
      ensures channels == Pruned(old(channels), ChannelScore, -1)
    {
      var temp := [];
      var lastAdded: int := -1;
      assert channels[0..] == channels;
      for i := 0 to |channels|
        invariant channels == old(channels)
        invariant temp + Pruned(channels[i..], ChannelScore, lastAdded) == Pruned(channels, ChannelScore, -1)
      {
        assert channels[i..][0] == channels[i] && channels[i..][1..] == channels[i + 1..];
        if lastAdded != channels[i].score.capacity {
          var copy := CloneChannel(params.tables, channels[i]);
          temp := temp + [copy];
          lastAdded := channels[i].score.capacity;
        }
      }
      channels := temp;
    }

    /** The sort and the pruning at the end of `find_all_channels`. */
    method SortAndPruneChannels() returns (ghost sorted: seq<Channel>)
      requires forall ch | ch in channels :: Built(params.tables, ch)
      modifies this`channels
      ensures SortOf(ByScore(params.order, ChannelScore), old(channels), sorted) && channels == Pruned(sorted, ChannelScore, -1)
    {
      ByScorePreorder(params.order, ChannelScore);
      ghost var before := channels;
      channels := Sort(channels, ByScore(params.order, ChannelScore));
      SameElements(before, channels);
      sorted := channels;
      PruneChannels();
    }

    /** `prune_bobs`. */
    method PruneBobs()
      requires forall b | b in bobs :: |b.channels| <= MAX_NUM_CHANNELS_PER_BOB && b == BobOf(b.channels)
      modifies this`bobs
      ensures bobs == Pruned(old(bobs), BobScore, -1)
    {
      var temp := [];
      var lastAdded: int := -1;
      assert bobs[0..] == bobs;
      for i := 0 to |bobs|
        invariant bobs == old(bobs)
        invariant temp + Pruned(bobs[i..], BobScore, lastAdded) == Pruned(bobs, BobScore, -1)
      {
        assert bobs[i..][0] == bobs[i] && bobs[i..][1..] == bobs[i + 1..];
        if lastAdded != bobs[i].score.capacity {
          var copy := CloneBob(bobs[i]);
          temp := temp + [copy];
          lastAdded := bobs[i].score.capacity;
        }
      }
      bobs := temp;
    }

    /** The memory of the current index list. */
    method EmitMemory()
      requires |index| <= MAX_NUM_BOBS && MemoriesMatch() && InRange(index, |bobs|)
      modifies this`memories, this`memoryPicks
      ensures MemoriesMatch() && memoryPicks == old(memoryPicks) + [index]
    {
      var memory := NewMemory(Select(bobs, index));
      memories := memories + [memory];
      memoryPicks := memoryPicks + [index];
    }

    /** The BoB of the current index list. */
    method EmitBob()
      requires |index| <= MAX_NUM_CHANNELS_PER_BOB && BobsMatch() && InRange(index, |channels|)
      modifies this`bobs, this`bobPicks
      ensures BobsMatch() && bobPicks == old(bobPicks) + [index]
    {
      var bob := NewBob(Select(channels, index));
      bobs := bobs + [bob];
      bobPicks := bobPicks + [index];
    }

    /** `find_bobs_recursive`: one BoB for every multiset of nb more channels of the run, and the
        shared index list as it was. */
    method FindBobsRecursive(start: nat, end: int, nb: nat)
      requires nb >= 1 && |index| + nb <= MAX_NUM_CHANNELS_PER_BOB && end < |channels|
      requires BobsMatch() && InRange(index, |channels|)
      modifies this`bobs, this`bobPicks, this`index
      ensures BobsMatch() && index == old(index)
      ensures bobPicks == old(bobPicks) + PrefixAll(index, Picks(start, end, nb))
      decreases nb, 1
    {
      var i := start;
      ghost var done, all := bobPicks, PrefixAll(index, Picks(start, end, nb));
      while i <= end
        invariant start <= i && BobsMatch() && index == old(index)
        invariant bobPicks + PrefixAll(index, Picks(i, end, nb)) == done + all
        decreases end - i
      {
        ghost var before := bobPicks;
        FindBobsAt(i, end, nb);
        PicksAdvance(before, bobPicks, index, i, end, nb);
        i := i + 1;
      }
      PicksStep(index, i, end, nb);
    }

    /** One round of its loop. */
    method FindBobsAt(i: nat, end: int, nb: nat)
      requires nb >= 1 && |index| + nb <= MAX_NUM_CHANNELS_PER_BOB && i <= end < |channels|
      requires BobsMatch() && InRange(index, |channels|)
      modifies this`bobs, this`bobPicks, this`index
      ensures BobsMatch() && index == old(index)
      ensures bobPicks == old(bobPicks) + PrefixAll(index, PicksAt(i, end, nb))
      decreases nb, 0
    {
      ghost var prefix := index;
      index := index + [i];
      if nb == 1 {
        PrefixNested(prefix, i, []);
        EmitBob();
      } else {
        PrefixNested(prefix, i, Picks(i, end, nb - 1));
        FindBobsRecursive(i, end, nb - 1);
      }
      index := index[..|index| - 1];
    }

    /** `find_mems_recursive`: one memory for every multiset of nb more BoBs with the remaining
        capacity, and the shared index list as it was. */
    method FindMemsRecursive(remaining: int, start: nat, nb: nat)
      requires nb >= 1 && |index| + nb <= MAX_NUM_BOBS
      requires MemoriesMatch() && InRange(index, |bobs|)
      modifies this`memories, this`memoryPicks, this`index
      ensures MemoriesMatch() && index == old(index)
      ensures memoryPicks == old(memoryPicks) + PrefixAll(index, Choices(Capacities(bobs), remaining, start, nb))
      decreases nb, 1
    {
      ghost var caps := Capacities(bobs);
      ghost var done, all := memoryPicks, PrefixAll(index, Choices(caps, remaining, start, nb));
      var i := start;
      while i < |bobs|
        invariant start <= i && MemoriesMatch() && index == old(index)
        invariant memoryPicks + PrefixAll(index, Choices(caps, remaining, i, nb)) == done + all
      {
        ghost var before := memoryPicks;
        FindMemsAt(remaining, i, nb);
        ChoicesAdvance(before, memoryPicks, index, caps, remaining, i, nb);
        i := i + 1;
      }
      ChoicesStep(index, caps, remaining, i, nb);
    }

    /** One round of its loop: the last BoB must fit exactly, an earlier one must not be too large. */
    method FindMemsAt(remaining: int, i: nat, nb: nat)
      requires nb >= 1 && |index| + nb <= MAX_NUM_BOBS && i < |bobs|
      requires MemoriesMatch() && InRange(index, |bobs|)
      modifies this`memories, this`memoryPicks, this`index
      ensures MemoriesMatch() && index == old(index)
      ensures memoryPicks == old(memoryPicks) + PrefixAll(index, ChoicesAt(Capacities(bobs), remaining, i, nb))
      decreases nb, 0
    {
      ghost var prefix := index;
      assert PrefixAll(prefix, []) == [];
      if nb == 1 {
        if bobs[i].score.capacity != remaining {
          return;
        }
        PrefixNested(prefix, i, []);
        index := index + [i];
        EmitMemory();
      } else {
        if bobs[i].score.capacity > remaining {
          return;
        }
        PrefixNested(prefix, i, Choices(Capacities(bobs), remaining - bobs[i].score.capacity, i, nb - 1));
        index := index + [i];
        FindMemsRecursive(remaining - bobs[i].score.capacity, i, nb - 1);
      }
      index := index[..|index| - 1];
    }

    /** The sort and the pruning at the end of `find_all_bobs`. */
    method SortAndPruneBobs() returns (ghost sorted: seq<Bob>)
      requires forall b | b in bobs :: |b.channels| <= MAX_NUM_CHANNELS_PER_BOB && b == BobOf(b.channels)
      modifies this`bobs
      ensures SortOf(ByScore(params.order, BobScore), old(bobs), sorted) && bobs == Pruned(sorted, BobScore, -1)
    {
      ByScorePreorder(params.order, BobScore);
      ghost var before := bobs;
      bobs := Sort(bobs, ByScore(params.order, BobScore));
      SameElements(before, bobs);
      sorted := bobs;
      PruneBobs();
    }

    /** `find_all_bobs` when all channels of a BoB are alike: one BoB per channel, sorted and pruned. */
    method FindMirroredBobs() returns (ghost sorted: seq<Bob>)
      requires ValidParams(params)
      modifies this`bobs
      ensures SortOf(ByScore(params.order, BobScore), Mirrors(params.channelsPerBob, channels), sorted)
      ensures bobs == Pruned(sorted, BobScore, -1)
    {
      var n := params.channelsPerBob;
      bobs := [];
      for i := 0 to |channels|
        invariant bobs == Mirrors(n, channels[..i])
      {
        var copies := [];
        for j := 0 to n
          invariant copies == CopiesOf(j, channels[i])
        {
          copies := copies + [channels[i]];
        }
        var bob := NewBob(copies);
        assert channels[..i + 1] == channels[..i] + [channels[i]];
        bobs := bobs + [bob];
      }
      assert channels[..|channels|] == channels;
      sorted := SortAndPruneBobs();
    }

    /** The loop over the runs of equal bandwidth. */
    method FindRunBobs(starts: seq<nat>, ends: seq<int>)
      requires ValidParams(params) && index == [] && BobsMatch() && bobPicks == []
      requires |starts| == |ends| && forall k | 0 <= k < |ends| :: ends[k] < |channels|
      modifies this`bobs, this`bobPicks, this`index
      ensures index == [] && BobsMatch()
      ensures bobPicks == RunPicks(starts, ends, params.channelsPerBob, 0)
    {
      var n := params.channelsPerBob;
      ghost var all := RunPicks(starts, ends, n, 0);
      var k := 0;
      while k < |starts|
        invariant 0 <= k <= |starts| && index == [] && BobsMatch()
        invariant bobPicks + RunPicks(starts, ends, n, k) == all
      {
        RunStep(starts, ends, n, k);
        FindBobsRecursive(starts[k], ends[k], n);
        k := k + 1;
      }
    }

    /** `find_all_bobs` when all channels of a BoB share a bandwidth. Before sorting and pruning it
        reaches every multiset of channels of equal bandwidth exactly once. */
    method FindEqualBandwidthBobs()
      returns (ghost reached: seq<Bob>, ghost sorted: seq<Bob>, ghost starts: seq<nat>, ghost ends: seq<int>)
      requires ValidParams(params) && channels != [] && index == []
      modifies this`channels, this`bobs, this`bobPicks, this`index
      ensures SortOf(ByBandwidth(), old(channels), channels) && index == []
      ensures |reached| == |bobPicks| && forall k | 0 <= k < |reached| ::
                InRange(bobPicks[k], |channels|) && reached[k] == BobOf(Select(channels, bobPicks[k]))
      ensures ReachesAll(Bandwidths(channels), starts, ends, params.channelsPerBob, bobPicks)
      ensures SortOf(ByScore(params.order, BobScore), reached, sorted) && bobs == Pruned(sorted, BobScore, -1)
    {
      bobs, bobPicks := [], [];
      ghost var before := channels;
      channels := Sort(channels, ByBandwidth());
      SameElements(before, channels);
      var startIndex, endIndex := FindRuns(Bandwidths(channels));
      starts, ends := startIndex, endIndex;
      assert forall k | 0 <= k < |ends| :: OneBandwidth(Bandwidths(channels), starts[k], ends[k]);
      FindRunBobs(startIndex, endIndex);
      BandwidthsAscend(channels);
      RunPicksReachAll(Bandwidths(channels), starts, ends, params.channelsPerBob);
      reached := bobs;
      forall k | 0 <= k < |bobs|
        ensures |bobs[k].channels| <= MAX_NUM_CHANNELS_PER_BOB && bobs[k] == BobOf(bobs[k].channels)
      {
        assert bobPicks[k] in bobPicks;
      }
      sorted := SortAndPruneBobs();
    }

    /** `find_all_memories`. */
    method FindAllMemories() returns (found: bool, ghost unsorted: seq<Memory>)
      requires ValidParams(params) && index == []
      modifies this`memories, this`memoryPicks, this`index
      ensures index == [] && FoundBy(bobs, params.capacity, params.numBobs, unsorted)
      ensures SortOf(ByScore(params.order, MemoryScore), unsorted, memories)
      ensures found <==> memories != []
    {
      memories, memoryPicks := [], [];
      FindMemsRecursive(params.capacity, 0, params.numBobs);
      ghost var choices := Choices(Capacities(bobs), params.capacity, 0, params.numBobs);
      PrefixConcat([], choices, []);
      ChoicesFound(bobs, params.capacity, params.numBobs, memories, memoryPicks);
      unsorted := memories;
      ByScorePreorder(params.order, MemoryScore);
      memories := Sort(memories, ByScore(params.order, MemoryScore));
      found := |memories| != 0;
    }
  }

  /** Every multiset of n channels of equal bandwidth, once each, as many as the runs account for. */
  ghost predicate ReachesAll(bws: seq<int>, starts: seq<nat>, ends: seq<int>, n: nat, picks: seq<seq<nat>>)
    requires n >= 1
  {
    && Runs(bws, starts, ends)
    && (forall idx :: idx in picks <==> IsEqualPick(bws, 0, n, idx))
    && (forall i, j | 0 <= i < j < |picks| :: picks[i] != picks[j])
    && |picks| == RunCount(starts, ends, n, 0)
  }

  lemma RunPicksReachAll(bws: seq<int>, starts: seq<nat>, ends: seq<int>, n: nat)
    requires Ascending(bws) && Runs(bws, starts, ends) && n >= 1
    ensures ReachesAll(bws, starts, ends, n, RunPicks(starts, ends, n, 0))
  {
    var picks := RunPicks(starts, ends, n, 0);
    RunPicksSorted(bws, starts, ends, n, 0);
    LexSortedDistinct(picks);
    RunPicksCount(starts, ends, n, 0);
    forall idx
      ensures idx in picks <==> IsEqualPick(bws, 0, n, idx)
    {
      RunPicksExact(bws, starts, ends, n, 0, idx);
    }
  }

  lemma BandwidthsAscend(channels: seq<Channel>)
    requires SortedBy(ByBandwidth(), channels)
    ensures Ascending(Bandwidths(channels))
  {
    var leq := ByBandwidth();
    forall i, j | 0 <= i < j < |channels|
      ensures Bandwidths(channels)[i] <= Bandwidths(channels)[j]
    {
      assert leq(channels[i], channels[j]);
    }
  }

  lemma ChoicesFound(bobs: seq<Bob>, capacity: nat, nb: nat, memories: seq<Memory>, picks: seq<seq<nat>>)
    requires nb >= 1 && picks == Choices(Capacities(bobs), capacity, 0, nb) && |memories| == |picks|
    requires forall k | 0 <= k < |memories| ::
               InRange(picks[k], |bobs|) && memories[k] == MemoryOf(Select(bobs, picks[k]))
    ensures FoundBy(bobs, capacity, nb, memories)
  {
    forall k | 0 <= k < |memories|
      ensures IsChoice(Capacities(bobs), capacity, 0, nb, picks[k])
    {
      assert picks[k] in picks;
      ChoicesExact(Capacities(bobs), capacity, 0, nb, picks[k]);
    }
  }

  /** `solve_memcad` from the sorting of the channels on, for BoBs of equal channels: the first
      memory is no worse than any memory with one mirrored channel per BoB, whichever of the given
      channels they are, and none is found only if there is none. */
  method SolveMirrored(params: Params, all: seq<Channel>) returns (found: bool, memories: seq<Memory>)
    requires ValidParams(params) && forall ch | ch in all :: Built(params.tables, ch)
    ensures found <==> memories != []
    ensures forall pick | IsCandidate(params.channelsPerBob, params.numBobs, params.capacity, all, pick) ::
              found && Compare(params.order, memories[0].score, MemoryOf(Mirrors(params.channelsPerBob, pick)).score)
    ensures found ==> exists pick :: IsCandidate(params.channelsPerBob, params.numBobs, params.capacity, all, pick)
                                     && memories[0] == MemoryOf(Mirrors(params.channelsPerBob, pick))
    ensures Ranks(params.order, memories)
    ensures forall m | m in memories :: FromChannels(params.channelsPerBob, params.numBobs, params.capacity, all, m)
    ensures forall pick | IsCandidate(params.channelsPerBob, params.numBobs, params.capacity, all, pick) ::
              Listed(params.order, memories, Mirrors(params.channelsPerBob, pick))
  {
    ghost var sorted, sortedBobs, bobs, unsorted;
    found, memories, sorted, sortedBobs, bobs, unsorted := RunMirrored(params, all);
    PruningKeepsOptimum(params.order, params.channelsPerBob, params.numBobs, params.capacity, all, sorted, sortedBobs, bobs,
                        unsorted, memories);
    MirroredRanks(params.order, params.channelsPerBob, params.numBobs, params.capacity, all, sorted, sortedBobs, bobs, unsorted,
                  memories);
  }

  /** The three searches of that mode in a row. */
  method RunMirrored(params: Params, all: seq<Channel>)
    returns (found: bool, memories: seq<Memory>, ghost sorted: seq<Channel>, ghost sortedBobs: seq<Bob>, ghost bobs: seq<Bob>,
             ghost unsorted: seq<Memory>)
    requires ValidParams(params) && forall ch | ch in all :: Built(params.tables, ch)
    ensures found <==> memories != []
    ensures Stages(params.order, params.channelsPerBob, all, sorted, sortedBobs, bobs)
    ensures FoundBy(bobs, params.capacity, params.numBobs, unsorted)
    ensures SortOf(ByScore(params.order, MemoryScore), unsorted, memories)
  {
    var search := new Search(params, all);
    sorted := search.SortAndPruneChannels();
    sortedBobs := search.FindMirroredBobs();
    bobs := search.bobs;
    found, unsorted := search.FindAllMemories();
    memories := search.memories;
  }

  /** `solve_memcad` from the sorting of the channels on, for BoBs of one bandwidth each. No memory of the
      channels the first pruning left is better than the first one found; nor is any of the given
      channels, if pruning them is harmless or, more generally, covers every BoB. */
  method SolveEqualBandwidth(params: Params, all: seq<Channel>)
    returns (found: bool, memories: seq<Memory>, ghost kept: seq<Channel>)
    requires ValidParams(params) && all != [] && forall ch | ch in all :: Built(params.tables, ch)
    ensures exists sorted :: SortOf(ByScore(params.order, ChannelScore), all, sorted) && kept == Pruned(sorted, ChannelScore, -1)
    ensures found <==> memories != []
    ensures forall groups | IsEqualMemory(kept, params.channelsPerBob, params.numBobs, params.capacity, groups) ::
              found && Compare(params.order, memories[0].score, MemoryOf(BobsOf(groups)).score)
    ensures found ==> exists groups :: IsEqualMemory(kept, params.channelsPerBob, params.numBobs, params.capacity, groups)
                                       && memories[0] == MemoryOf(BobsOf(groups))
    ensures Covered(params.order, params.channelsPerBob, all, kept) ==>
              forall groups | IsEqualMemory(all, params.channelsPerBob, params.numBobs, params.capacity, groups) ::
                found && Compare(params.order, memories[0].score, MemoryOf(BobsOf(groups)).score)
    ensures Harmless(params.channelsPerBob, all) ==> Covered(params.order, params.channelsPerBob, all, kept)
    ensures Ranks(params.order, memories)
    ensures forall m | m in memories :: FromGroups(params.channelsPerBob, params.numBobs, params.capacity, kept, m)
    ensures forall groups | IsEqualMemory(kept, params.channelsPerBob, params.numBobs, params.capacity, groups) ::
              Listed(params.order, memories, BobsOf(groups))
  {
    var search := new Search(params, all);
    ghost var sorted := search.SortAndPruneChannels();
    kept := search.channels;
    ghost var reached, sortedBobs, starts, ends, unsorted;
    reached, sortedBobs, starts, ends := search.FindEqualBandwidthBobs();
    PicksReachGroups(search.channels, params.channelsPerBob, reached, search.bobPicks);
    SameGroups(search.channels, kept, params.channelsPerBob, reached);
    found, unsorted := search.FindAllMemories();
    memories := search.memories;
    EqualKeepsOptimum(params.order, params.channelsPerBob, params.numBobs, params.capacity, all, kept, reached, sortedBobs,
                      search.bobs, unsorted, memories);
    EqualRanks(params.order, params.channelsPerBob, params.numBobs, params.capacity, all, kept, reached, sortedBobs, search.bobs,
               unsorted, memories);
    if Harmless(params.channelsPerBob, all) {
      HarmlessCovers(params.order, params.channelsPerBob, all, sorted);
    }
  }

  /** The outcome of a search; Unsupported is the failed assertion on BoBs of mixed bandwidths. */
  datatype Answer = Memories(sorted: seq<Memory>) | NoMemory | Unsupported

  /** The memories a search is about, as lists of BoBs each with its channels. */
  ghost predicate IsTarget(params: Params, channels: seq<Channel>, groups: seq<seq<Channel>>) {
    && IsEqualMemory(channels, params.channelsPerBob, params.numBobs, params.capacity, groups)
    && (params.mirrorInBob ==>
          forall k | 0 <= k < |groups| :: groups[k] != [] && groups[k] == CopiesOf(params.channelsPerBob, groups[k][0]))
  }

  /** No memory of the given channels is better than the first one, which is one of them; and none is
      reported only if there is none. */
  ghost predicate BestOf(params: Params, channels: seq<Channel>, answer: Answer) {
    && (answer.Memories? ==> answer.sorted != [])
    && (forall groups | IsTarget(params, channels, groups) ::
          answer.Memories? && Compare(params.order, answer.sorted[0].score, MemoryOf(BobsOf(groups)).score))
  }

  ghost predicate OneOf(params: Params, channels: seq<Channel>, answer: Answer) {
    answer.Memories? ==>
      answer.sorted != [] && exists groups :: IsTarget(params, channels, groups) && answer.sorted[0] == MemoryOf(BobsOf(groups))
  }

  /** The list holds one memory for every combination of BoB sizes that can be asked for, no worse than any
      other of these sizes, and nothing else; and it is in order. */
  ghost predicate RanksAll(params: Params, channels: seq<Channel>, answer: Answer) {
    && (answer.Memories? ==>
          && Ranks(params.order, answer.sorted)
          && forall m | m in answer.sorted :: exists groups :: IsTarget(params, channels, groups) && m == MemoryOf(BobsOf(groups)))
    && (forall groups | IsTarget(params, channels, groups) :: answer.Memories? && Listed(params.order, answer.sorted, BobsOf(groups)))
  }

  /** A mirrored memory, channel by channel of its BoBs. */
  lemma TargetIsCandidate(params: Params, channels: seq<Channel>, groups: seq<seq<Channel>>) returns (pick: seq<Channel>)
    requires ValidParams(params) && params.mirrorInBob && IsTarget(params, channels, groups)
    ensures IsCandidate(params.channelsPerBob, params.numBobs, params.capacity, channels, pick)
    ensures Mirrors(params.channelsPerBob, pick) == BobsOf(groups)
  {
    pick := seq(|groups|, k requires 0 <= k < |groups| && |groups[k]| >= 1 => groups[k][0]);
    forall k | 0 <= k < |groups|
      ensures pick[k] in channels && Mirror(params.channelsPerBob, pick[k]) == BobsOf(groups)[k]
    {
      assert EqualGroup(channels, params.channelsPerBob, groups[k]);
    }
    assert Mirrors(params.channelsPerBob, pick) == BobsOf(groups);
  }

  lemma CandidateIsTarget(params: Params, channels: seq<Channel>, pick: seq<Channel>) returns (groups: seq<seq<Channel>>)
    requires ValidParams(params) && params.mirrorInBob
    requires IsCandidate(params.channelsPerBob, params.numBobs, params.capacity, channels, pick)
    ensures IsTarget(params, channels, groups) && BobsOf(groups) == Mirrors(params.channelsPerBob, pick)
  {
    var n := params.channelsPerBob;
    groups := seq(|pick|, k requires 0 <= k < |pick| => CopiesOf(n, pick[k]));
    forall k | 0 <= k < |groups|
      ensures EqualGroup(channels, n, groups[k]) && groups[k] == CopiesOf(n, groups[k][0])
    {
      assert OfBandwidth(groups[k], pick[k].score.bandwidth);
    }
    assert BobsOf(groups) == Mirrors(n, pick);
  }

  /** The memory a search puts first, metric by metric: no memory it is about is better in the first, among
      ties in the second, and among ties in both in the third. */
  lemma FirstMemoryIsBest(params: Params, channels: seq<Channel>, searched: seq<Channel>, answer: Answer, groups: seq<seq<Channel>>)
    requires ValidParams(params) && BestOf(params, channels, answer) && OneOf(params, searched, answer)
    requires IsTarget(params, channels, groups)
    ensures answer.Memories?
    ensures var (a, b) := (answer.sorted[0].score, MemoryOf(BobsOf(groups)).score);
            var tie1 := match params.order.first
                        case Cost => a.cost == b.cost case Energy => a.energy == b.energy case Bandwidth => a.bandwidth == b.bandwidth;
            var tie2 := match params.order.second
                        case Cost => a.cost == b.cost case Energy => a.energy == b.energy case Bandwidth => a.bandwidth == b.bandwidth;
            && (match params.order.first
                case Cost => a.cost <= b.cost case Energy => a.energy <= b.energy case Bandwidth => a.bandwidth >= b.bandwidth)
            && (tie1 ==>
                  match params.order.second
                  case Cost => a.cost <= b.cost case Energy => a.energy <= b.energy case Bandwidth => a.bandwidth >= b.bandwidth)
            && (tie1 && tie2 ==>
                  match params.order.third
                  case Cost => a.cost <= b.cost case Energy => a.energy <= b.energy case Bandwidth => a.bandwidth >= b.bandwidth)
  {
    CompareMeans(params.order, answer.sorted[0].score, MemoryOf(BobsOf(groups)).score);
  }

  /** What the memories a search is about look like: the requested number of BoBs and capacity, and in every
      BoB the requested number of given channels, all of one bandwidth or, mirrored, all alike. */
  lemma TargetsMean(params: Params, channels: seq<Channel>, groups: seq<seq<Channel>>)
    requires ValidParams(params)
    ensures var m := MemoryOf(BobsOf(groups));
            IsTarget(params, channels, groups) <==>
              && |m.bobs| == params.numBobs && m.score.capacity == params.capacity
              && forall k | 0 <= k < |m.bobs| ::
                   var cs := m.bobs[k].channels;
                   && |cs| == params.channelsPerBob
                   && forall i | 0 <= i < |cs| ::
                        cs[i] in channels && cs[i].score.bandwidth == cs[0].score.bandwidth && (params.mirrorInBob ==> cs[i] == cs[0])
  {
    var n := params.channelsPerBob;
    forall k | 0 <= k < |groups|
      ensures EqualGroup(channels, n, groups[k]) <==> |groups[k]| == n && forall i | 0 <= i < n ::
                groups[k][i] in channels && groups[k][i].score.bandwidth == groups[k][0].score.bandwidth
    {
      if |groups[k]| == n {
        assert OfBandwidth(groups[k], groups[k][0].score.bandwidth) <==>
               forall i | 0 <= i < n :: groups[k][i].score.bandwidth == groups[k][0].score.bandwidth;
      }
    }
    assert forall k | 0 <= k < |groups| :: BobsOf(groups)[k].channels == groups[k];
  }

  method SolveMirroredMode(params: Params, all: seq<Channel>) returns (answer: Answer)
    requires ValidParams(params) && params.mirrorInBob && forall ch | ch in all :: Built(params.tables, ch)
    ensures !answer.Unsupported? && BestOf(params, all, answer) && OneOf(params, all, answer) && RanksAll(params, all, answer)
  {
    var found, memories := SolveMirrored(params, all);
    answer := if found then Memories(memories) else NoMemory;
    forall groups | IsTarget(params, all, groups)
      ensures answer.Memories? && Compare(params.order, answer.sorted[0].score, MemoryOf(BobsOf(groups)).score)
      ensures answer.Memories? && Listed(params.order, answer.sorted, BobsOf(groups))
    {
      var pick := TargetIsCandidate(params, all, groups);
    }
    forall m | m in memories
      ensures exists groups :: IsTarget(params, all, groups) && m == MemoryOf(BobsOf(groups))
    {
      ghost var pick :| IsCandidate(params.channelsPerBob, params.numBobs, params.capacity, all, pick)
                        && m.bobs == Mirrors(params.channelsPerBob, pick);
      ghost var groups := CandidateIsTarget(params, all, pick);
    }
    if found {
      ghost var pick :| IsCandidate(params.channelsPerBob, params.numBobs, params.capacity, all, pick)
                        && memories[0] == MemoryOf(Mirrors(params.channelsPerBob, pick));
      ghost var groups := CandidateIsTarget(params, all, pick);
    }
  }

  method SolveEqualMode(params: Params, all: seq<Channel>) returns (answer: Answer, ghost kept: seq<Channel>)
    requires ValidParams(params) && !params.mirrorInBob && all != [] && forall ch | ch in all :: Built(params.tables, ch)
    ensures !answer.Unsupported? && BestOf(params, kept, answer) && OneOf(params, kept, answer) && RanksAll(params, kept, answer)
    ensures Covered(params.order, params.channelsPerBob, all, kept) ==> BestOf(params, all, answer)
    ensures Harmless(params.channelsPerBob, all) ==> Covered(params.order, params.channelsPerBob, all, kept)
    ensures exists sorted :: SortOf(ByScore(params.order, ChannelScore), all, sorted) && kept == Pruned(sorted, ChannelScore, -1)
  {
    var found, memories;
    found, memories, kept := SolveEqualBandwidth(params, all);
    answer := if found then Memories(memories) else NoMemory;
    forall m | m in memories
      ensures exists groups :: IsTarget(params, kept, groups) && m == MemoryOf(BobsOf(groups))
    {
      ghost var groups :| IsEqualMemory(kept, params.channelsPerBob, params.numBobs, params.capacity, groups)
                          && m.bobs == BobsOf(groups);
      assert IsTarget(params, kept, groups);
    }
  }

  /** The channels no memory of which is better than the first: all of them when BoBs are mirrored, otherwise
      those the first pruning leaves. */
  ghost function Searched(params: Params, all: seq<Channel>, kept: seq<Channel>): seq<Channel> {
    if params.mirrorInBob then all else kept
  }

  /** `solve_memcad` from the sorting of the channels on. Mirrored BoBs take precedence over BoBs of one
      bandwidth; kept are the channels the first pruning leaves. */
  method SolveMemCad(params: Params, all: seq<Channel>) returns (answer: Answer, ghost kept: seq<Channel>)
    requires ValidParams(params) && (params.sameBwInBob && !params.mirrorInBob ==> all != [])
    requires forall ch | ch in all :: Built(params.tables, ch)
    ensures answer.Unsupported? <==> !params.mirrorInBob && !params.sameBwInBob
    ensures !answer.Unsupported? ==> RanksAll(params, Searched(params, all, kept), answer)
    ensures params.mirrorInBob ==> BestOf(params, all, answer) && OneOf(params, all, answer)
    ensures params.sameBwInBob && !params.mirrorInBob ==>
              && BestOf(params, kept, answer) && OneOf(params, kept, answer)
              && (Covered(params.order, params.channelsPerBob, all, kept) ==> BestOf(params, all, answer))
              && (Harmless(params.channelsPerBob, all) ==> Covered(params.order, params.channelsPerBob, all, kept))
              && exists sorted :: SortOf(ByScore(params.order, ChannelScore), all, sorted) && kept == Pruned(sorted, ChannelScore, -1)
    ensures forall groups | !answer.Unsupported? && IsTarget(params, Searched(params, all, kept), groups) ::
              answer.Memories? &&
              var (a, b) := (answer.sorted[0].score, MemoryOf(BobsOf(groups)).score);
              && (params.order.first == Cost ==> a.cost <= b.cost)
              && (params.order.first == Energy ==> a.energy <= b.energy)
              && (params.order.first == Bandwidth ==> a.bandwidth >= b.bandwidth)
  {
    kept := all;
    if params.mirrorInBob {
      answer := SolveMirroredMode(params, all);
    } else if params.sameBwInBob {
      answer, kept := SolveEqualMode(params, all);
    } else {
      answer := Unsupported;
    }
    forall groups | !answer.Unsupported? && IsTarget(params, Searched(params, all, kept), groups) {
      FirstMemoryIsBest(params, Searched(params, all, kept), Searched(params, all, kept), answer, groups);
    }
  }
}
