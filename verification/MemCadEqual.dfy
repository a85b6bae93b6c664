/** BoBs whose channels share a bandwidth: what the two prunings keep, and exactly when they keep the
    optimum over all channels. */
module MemCadEqual {
  import opened MemCadEnumerate
  import opened MemCadMirror
  import opened MemCadParts
  import opened MemCadRuns
  import opened MemCadScore
  import opened Sorting

  function Bandwidths(channels: seq<Channel>): (bws: seq<int>)
    ensures |bws| == |channels| && forall i | 0 <= i < |bws| :: bws[i] == channels[i].score.bandwidth
  {
    seq(|channels|, i requires 0 <= i < |channels| => channels[i].score.bandwidth)
  }

  ghost predicate InRange(idx: seq<nat>, n: nat) {
    forall k | 0 <= k < |idx| :: idx[k] < n
  }

  // ----- candidates -----

  ghost predicate OfBandwidth(cs: seq<Channel>, bandwidth: int) {
    forall i | 0 <= i < |cs| :: cs[i].score.bandwidth == bandwidth
  }

  ghost predicate AllFrom(cs: seq<Channel>, channels: seq<Channel>) {
    forall i | 0 <= i < |cs| :: cs[i] in channels
  }

  /** n channels of one bandwidth. */
  ghost predicate EqualGroup(channels: seq<Channel>, n: nat, cs: seq<Channel>) {
    |cs| == n && AllFrom(cs, channels) && exists bandwidth :: OfBandwidth(cs, bandwidth)
  }

  function BobsOf(groups: seq<seq<Channel>>): (bobs: seq<Bob>)
    ensures |bobs| == |groups| && forall k | 0 <= k < |bobs| :: bobs[k] == BobOf(groups[k])
  {
    seq(|groups|, k requires 0 <= k < |groups| => BobOf(groups[k]))
  }

  /** A memory whose BoBs each hold n of the channels, all of one bandwidth. */
  ghost predicate IsEqualMemory(channels: seq<Channel>, n: nat, nb: nat, capacity: nat, groups: seq<seq<Channel>>) {
    && |groups| == nb && (forall k | 0 <= k < nb :: EqualGroup(channels, n, groups[k]))
    && MemoryOf(BobsOf(groups)).score.capacity == capacity
  }

  // ----- exactly when nothing is lost -----

  ghost predicate NoWorse(order: Order, a: Score, b: Score) {
    a.capacity == b.capacity && Compare(order, a, b)
  }

  ghost predicate GroupCovered(order: Order, n: nat, kept: seq<Channel>, cs: seq<Channel>) {
    exists ks :: EqualGroup(kept, n, ks) && NoWorse(order, BobOf(ks).score, BobOf(cs).score)
  }

  /** For every BoB of one bandwidth, one of the channels kept has its capacity and is no worse. */
  ghost predicate Covered(order: Order, n: nat, all: seq<Channel>, kept: seq<Channel>) {
    forall cs | EqualGroup(all, n, cs) :: GroupCovered(order, n, kept, cs)
  }

  ghost predicate MemoryCovered(order: Order, n: nat, kept: seq<Channel>, groups: seq<seq<Channel>>) {
    exists ks :: IsEqualMemory(kept, n, |groups|, MemoryOf(BobsOf(groups)).score.capacity, ks)
                 && Compare(order, MemoryOf(BobsOf(ks)).score, MemoryOf(BobsOf(groups)).score)
  }

  /** Whatever the number of BoBs and the capacity, no memory is better than all those of the channels
      kept. */
  ghost predicate NoLoss(order: Order, n: nat, all: seq<Channel>, kept: seq<Channel>) {
    forall nb: nat, capacity: nat, groups | nb >= 1 && IsEqualMemory(all, n, nb, capacity, groups) ::
      MemoryCovered(order, n, kept, groups)
  }

  /** Adding up configurations preserves being no worse. */
  lemma {:induction false} TotalNoWorse(order: Order, a: seq<Score>, b: seq<Score>)
    requires |a| == |b| && forall i | 0 <= i < |a| :: NoWorse(order, a[i], b[i])
    ensures NoWorse(order, Total(a), Total(b))
  {
    if a == [] {
      CompareIsLex(order, ZERO, ZERO);
    } else {
      var n := |a| - 1;
      TotalNoWorse(order, a[..n], b[..n]);
      CompareAdds(order, Total(a[..n]), Total(b[..n]), a[n], b[n]);
    }
  }

  lemma CoverMemory(order: Order, n: nat, all: seq<Channel>, kept: seq<Channel>, groups: seq<seq<Channel>>)
    requires Covered(order, n, all, kept) && forall k | 0 <= k < |groups| :: EqualGroup(all, n, groups[k])
    ensures MemoryCovered(order, n, kept, groups)
  {
    var ks: seq<seq<Channel>> := [];
    for k := 0 to |groups|
      invariant |ks| == k
      invariant forall i | 0 <= i < k :: EqualGroup(kept, n, ks[i]) && NoWorse(order, BobOf(ks[i]).score, BobOf(groups[i]).score)
    {
      assert GroupCovered(order, n, kept, groups[k]);
      var cs :| EqualGroup(kept, n, cs) && NoWorse(order, BobOf(cs).score, BobOf(groups[k]).score);
      ks := ks + [cs];
    }
    var a, b := BobScores(BobsOf(ks)), BobScores(BobsOf(groups));
    forall i | 0 <= i < |a|
      ensures NoWorse(order, a[i], b[i])
    {
      assert EqualGroup(kept, n, ks[i]) && NoWorse(order, BobOf(ks[i]).score, BobOf(groups[i]).score);
    }
    TotalNoWorse(order, a, b);
    assert IsEqualMemory(kept, n, |groups|, MemoryOf(BobsOf(groups)).score.capacity, ks);
  }

  lemma SingleBob(cs: seq<Channel>)
    ensures MemoryOf(BobsOf([cs])).score == BobOf(cs).score
  {
    assert BobScores(BobsOf([cs])) == [BobOf(cs).score] + [];
    TotalFront(BobOf(cs).score, []);
    PlusAssociates(BobOf(cs).score, ZERO, ZERO);
  }

  /** Keeping only some channels loses no optimum, for any number of BoBs and any capacity, if and only
      if every single BoB is covered. */
  lemma NoLossIffCovered(order: Order, n: nat, all: seq<Channel>, kept: seq<Channel>)
    ensures NoLoss(order, n, all, kept) <==> Covered(order, n, all, kept)
  {
    if Covered(order, n, all, kept) {
      forall nb: nat, capacity: nat, groups | nb >= 1 && IsEqualMemory(all, n, nb, capacity, groups)
        ensures MemoryCovered(order, n, kept, groups)
      {
        CoverMemory(order, n, all, kept, groups);
      }
    }
    if NoLoss(order, n, all, kept) {
      forall cs | EqualGroup(all, n, cs)
        ensures GroupCovered(order, n, kept, cs)
      {
        SingleBob(cs);
        assert IsEqualMemory(all, n, 1, BobOf(cs).score.capacity, [cs]);
        var ks :| IsEqualMemory(kept, n, 1, MemoryOf(BobsOf([cs])).score.capacity, ks)
                  && Compare(order, MemoryOf(BobsOf(ks)).score, MemoryOf(BobsOf([cs])).score);
        assert ks == [ks[0]];
        SingleBob(ks[0]);
      }
    }
  }

  // ----- guards a caller can check -----

  /** All channels of one capacity share one bandwidth. */
  ghost predicate OneBandwidthPerCapacity(channels: seq<Channel>) {
    forall a, b | a in channels && b in channels && a.score.capacity == b.score.capacity :: a.score.bandwidth == b.score.bandwidth
  }

  /** One channel per BoB, or a bandwidth determined by the capacity. */
  ghost predicate Harmless(n: nat, channels: seq<Channel>) {
    n == 1 || OneBandwidthPerCapacity(channels)
  }

  /** The representatives of the channels of a BoB. */
  lemma Represent(order: Order, all: seq<Channel>, sorted: seq<Channel>, cs: seq<Channel>) returns (ks: seq<Channel>)
    requires SortOf(ByScore(order, ChannelScore), all, sorted) && AllFrom(cs, all)
    ensures |ks| == |cs| && AllFrom(ks, Pruned(sorted, ChannelScore, -1)) && AllFrom(ks, all)
    ensures forall i | 0 <= i < |cs| :: NoWorse(order, ks[i].score, cs[i].score)
  {
    SameElements(all, sorted);
    ks := [];
    for k := 0 to |cs|
      invariant |ks| == k && AllFrom(ks, Pruned(sorted, ChannelScore, -1)) && AllFrom(ks, all)
      invariant forall i | 0 <= i < k :: NoWorse(order, ks[i].score, cs[i].score)
    {
      var i :| 0 <= i < |sorted| && sorted[i] == cs[k];
      var rep := Representative(order, sorted, ChannelScore, -1, i);
      assert ChannelScore(rep) == rep.score && ChannelScore(cs[k]) == cs[k].score;
      PrunedFrom(sorted, ChannelScore, -1, rep);
      ks := ks + [rep];
    }
  }

  lemma SameBandwidth(n: nat, all: seq<Channel>, cs: seq<Channel>, ks: seq<Channel>)
    requires Harmless(n, all) && EqualGroup(all, n, cs) && |ks| == n && AllFrom(ks, all)
    requires forall i | 0 <= i < n :: ks[i].score.capacity == cs[i].score.capacity
    ensures exists bandwidth :: OfBandwidth(ks, bandwidth)
  {
    if n == 1 {
      assert OfBandwidth(ks, ks[0].score.bandwidth);
    } else {
      var bandwidth :| OfBandwidth(cs, bandwidth);
      assert OfBandwidth(ks, bandwidth);
    }
  }

  /** Under either guard pruning the channels covers every BoB. */
  lemma HarmlessCovers(order: Order, n: nat, all: seq<Channel>, sorted: seq<Channel>)
    requires SortOf(ByScore(order, ChannelScore), all, sorted) && Harmless(n, all)
    ensures Covered(order, n, all, Pruned(sorted, ChannelScore, -1))
  {
    var kept := Pruned(sorted, ChannelScore, -1);
    forall cs | EqualGroup(all, n, cs)
      ensures GroupCovered(order, n, kept, cs)
    {
      var ks := Represent(order, all, sorted, cs);
      SameBandwidth(n, all, cs, ks);
      TotalNoWorse(order, ChannelScores(ks), ChannelScores(cs));
      assert EqualGroup(kept, n, ks);
    }
  }

  // ----- the search -----

  /** The BoBs a search reached are groups of its channels, and every group occurs up to order. */
  ghost predicate ReachesGroups(channels: seq<Channel>, n: nat, reached: seq<Bob>) {
    && (forall b | b in reached :: b == BobOf(b.channels) && EqualGroup(channels, n, b.channels))
    && (forall cs | EqualGroup(channels, n, cs) :: HasScore(reached, BobOf(cs).score))
  }

  ghost predicate HasScore(bobs: seq<Bob>, s: Score) {
    exists b :: b in bobs && b.score == s
  }

  /** The index list of a group, in order. */
  lemma {:induction false} GroupIndices(channels: seq<Channel>, cs: seq<Channel>, bandwidth: int) returns (idx: seq<nat>)
    requires AllFrom(cs, channels) && OfBandwidth(cs, bandwidth)
    ensures |idx| == |cs| && NonDecreasing(idx) && InRange(idx, |channels|)
    ensures forall x | x in idx :: x < |channels| && channels[x].score.bandwidth == bandwidth
    ensures IndexScore(ChannelScores(channels), idx) == Total(ChannelScores(cs))
    decreases |cs|
  {
    if cs == [] {
      idx := [];
    } else {
      var rest := GroupIndices(channels, cs[1..], bandwidth);
      assert cs[0] in channels;
      var i :| 0 <= i < |channels| && channels[i] == cs[0];
      InsertOrdered(i, rest, |channels|);
      InsertScore(ChannelScores(channels), i, rest);
      idx := Insert(i, rest);
      forall x | x in idx
        ensures x < |channels| && channels[x].score.bandwidth == bandwidth
      {
        InsertMember(i, rest, x);
      }
      assert ChannelScores(cs) == [cs[0].score] + ChannelScores(cs[1..]);
      TotalFront(cs[0].score, ChannelScores(cs[1..]));
    }
  }

  lemma GroupIsPicked(channels: seq<Channel>, n: nat, cs: seq<Channel>) returns (idx: seq<nat>)
    requires n >= 1 && EqualGroup(channels, n, cs)
    ensures InRange(idx, |channels|) && IsEqualPick(Bandwidths(channels), 0, n, idx)
    ensures BobOf(Select(channels, idx)).score == BobOf(cs).score
  {
    var bandwidth :| OfBandwidth(cs, bandwidth);
    idx := GroupIndices(channels, cs, bandwidth);
    assert forall k | 0 <= k < n :: idx[k] in idx;
    IndexScoreIsTotal(ChannelScores(channels), idx);
    assert ChannelScores(Select(channels, idx)) == Select(ChannelScores(channels), idx);
  }

  lemma PickIsGroup(channels: seq<Channel>, n: nat, idx: seq<nat>)
    requires n >= 1 && InRange(idx, |channels|) && IsEqualPick(Bandwidths(channels), 0, n, idx)
    ensures EqualGroup(channels, n, Select(channels, idx))
  {
    assert OfBandwidth(Select(channels, idx), channels[idx[0]].score.bandwidth);
  }

  lemma PicksReachGroups(channels: seq<Channel>, n: nat, reached: seq<Bob>, picks: seq<seq<nat>>)
    requires n >= 1 && |reached| == |picks|
    requires forall k | 0 <= k < |reached| :: InRange(picks[k], |channels|) && reached[k] == BobOf(Select(channels, picks[k]))
    requires forall idx :: idx in picks <==> IsEqualPick(Bandwidths(channels), 0, n, idx)
    ensures ReachesGroups(channels, n, reached)
  {
    forall b | b in reached
      ensures b == BobOf(b.channels) && EqualGroup(channels, n, b.channels)
    {
      var k :| 0 <= k < |reached| && reached[k] == b;
      assert picks[k] in picks;
      PickIsGroup(channels, n, picks[k]);
    }
    forall cs | EqualGroup(channels, n, cs)
      ensures HasScore(reached, BobOf(cs).score)
    {
      var idx := GroupIsPicked(channels, n, cs);
      assert idx in picks;
      var k :| 0 <= k < |picks| && picks[k] == idx;
      assert reached[k] in reached && reached[k].score == BobOf(cs).score;
    }
  }

  /** The channels may be rearranged. */
  lemma SameGroups(channels: seq<Channel>, other: seq<Channel>, n: nat, reached: seq<Bob>)
    requires ReachesGroups(channels, n, reached) && multiset(channels) == multiset(other)
    ensures ReachesGroups(other, n, reached)
  {
    SameElements(channels, other);
    forall cs
      ensures EqualGroup(channels, n, cs) <==> EqualGroup(other, n, cs)
    {
      assert AllFrom(cs, channels) <==> AllFrom(cs, other);
    }
  }

  lemma GroupsFound(order: Order, n: nat, nb: nat, capacity: nat, channels: seq<Channel>, reached: seq<Bob>,
                    sortedBobs: seq<Bob>, bobs: seq<Bob>, memories: seq<Memory>, result: seq<Memory>, groups: seq<seq<Channel>>)
    requires nb >= 1 && ReachesGroups(channels, n, reached) && BobStages(order, reached, sortedBobs, bobs)
    requires FoundBy(bobs, capacity, nb, memories) && SortOf(ByScore(order, MemoryScore), memories, result)
    requires IsEqualMemory(channels, n, nb, capacity, groups)
    ensures result != [] && Compare(order, result[0].score, MemoryOf(BobsOf(groups)).score)
  {
    forall i | 0 <= i < nb
      ensures Dominated(order, bobs, BobsOf(groups)[i].score)
    {
      assert EqualGroup(channels, n, groups[i]);
      assert HasScore(reached, BobOf(groups[i]).score);
      var b :| b in reached && b.score == BobOf(groups[i]).score;
      ReachedDominated(order, reached, sortedBobs, bobs, b);
    }
    FirstBeats(order, nb, capacity, bobs, memories, result, BobsOf(groups));
  }

  lemma ChannelsOfBobs(n: nat, nb: nat, capacity: nat, channels: seq<Channel>, reached: seq<Bob>, pick: seq<Bob>)
    returns (groups: seq<seq<Channel>>)
    requires ReachesGroups(channels, n, reached) && FromBobs(reached, nb, capacity, pick)
    ensures IsEqualMemory(channels, n, nb, capacity, groups) && BobsOf(groups) == pick
  {
    groups := seq(nb, k requires 0 <= k < nb => pick[k].channels);
    forall k | 0 <= k < nb
      ensures EqualGroup(channels, n, groups[k]) && BobsOf(groups)[k] == pick[k]
    {
      assert pick[k] in reached;
    }
    assert BobsOf(groups) == pick;
  }

  /** Of the channels the search works on, no memory is better than the first one found, which is one of
      them; the same holds for any list of channels these cover. */
  lemma EqualKeepsOptimum(order: Order, n: nat, nb: nat, capacity: nat, all: seq<Channel>, kept: seq<Channel>, reached: seq<Bob>,
                          sortedBobs: seq<Bob>, bobs: seq<Bob>, memories: seq<Memory>, result: seq<Memory>)
    requires nb >= 1 && ReachesGroups(kept, n, reached) && BobStages(order, reached, sortedBobs, bobs)
    requires FoundBy(bobs, capacity, nb, memories) && SortOf(ByScore(order, MemoryScore), memories, result)
    ensures forall groups | IsEqualMemory(kept, n, nb, capacity, groups) ::
              result != [] && Compare(order, result[0].score, MemoryOf(BobsOf(groups)).score)
    ensures result != [] ==> exists groups :: IsEqualMemory(kept, n, nb, capacity, groups) && result[0] == MemoryOf(BobsOf(groups))
    ensures Covered(order, n, all, kept) ==>
              forall groups | IsEqualMemory(all, n, nb, capacity, groups) ::
                result != [] && Compare(order, result[0].score, MemoryOf(BobsOf(groups)).score)
  {
    forall groups | IsEqualMemory(kept, n, nb, capacity, groups)
      ensures result != [] && Compare(order, result[0].score, MemoryOf(BobsOf(groups)).score)
    {
      GroupsFound(order, n, nb, capacity, kept, reached, sortedBobs, bobs, memories, result, groups);
    }
    if result != [] {
      BobPruningKeepsOptimum(order, nb, capacity, reached, sortedBobs, bobs, memories, result);
      var pick :| FromBobs(reached, nb, capacity, pick) && result[0] == MemoryOf(pick);
      var groups := ChannelsOfBobs(n, nb, capacity, kept, reached, pick);
    }
    if Covered(order, n, all, kept) {
      forall groups | IsEqualMemory(all, n, nb, capacity, groups)
        ensures result != [] && Compare(order, result[0].score, MemoryOf(BobsOf(groups)).score)
      {
        CoverMemory(order, n, all, kept, groups);
        var ks :| IsEqualMemory(kept, n, |groups|, capacity, ks)
                  && Compare(order, MemoryOf(BobsOf(ks)).score, MemoryOf(BobsOf(groups)).score);
        CompareTransitive(order, result[0].score, MemoryOf(BobsOf(ks)).score, MemoryOf(BobsOf(groups)).score);
      }
    }
  }

  // ----- the first pruning is not harmless -----

  lemma TotalOfTwo(two: seq<Score>)
    requires |two| == 2
    ensures Total(two) == Plus(two[0], two[1])
  {
    assert two == [two[0]] + two[1..];
    TotalFront(two[0], two[1..]);
    assert two[1..] == [two[1]] + [];
    TotalFront(two[1], []);
    PlusAssociates(two[1], ZERO, ZERO);
  }

  /** The capacity of a memory of one BoB with two channels. */
  lemma PairCapacity(groups: seq<seq<Channel>>)
    requires |groups| == 1 && |groups[0]| == 2
    ensures MemoryOf(BobsOf(groups)).score.capacity == groups[0][0].score.capacity + groups[0][1].score.capacity
  {
    var cs := groups[0];
    assert groups == [cs];
    SingleBob(cs);
    TotalOfTwo(ChannelScores(cs));
  }

  lemma SumOfThree(s: seq<nat>)
    requires |s| == 3
    ensures Sum(s) == s[0] + s[1] + s[2]
  {
    assert s[..2][..1] == s[..1] && s[..1][..0] == [];
    assert Sum(s[..1]) == s[0];
    assert Sum(s[..2]) == s[0] + s[1];
  }

  const BANDWIDTH_FIRST := Order(Bandwidth, Energy, Cost)

  /** An unbuffered DDR4 channel. */
  ghost function Ddr4(tables: Tables, dimms: seq<nat>, bandwidth: int): (ch: Channel)
    requires |dimms| == 3 && AllSizes(dimms)
    ensures Built(tables, ch) && ch.score.bandwidth == bandwidth && ch.score.capacity == dimms[0] + dimms[1] + dimms[2]
  {
    SumOfThree(dimms);
    ChannelOfBuilt(tables, dimms, bandwidth, UDIMM, false);
    ChannelOf(tables, dimms, bandwidth, UDIMM, false)
  }

  const SPEEDS: seq<int> := [800, 933, 1066, 1200]

  /** The DIMM lists of `find_all_channels` for 20 GB of unbuffered DDR4, which comes in 4 and 8 GB only;
      low-power DIMMs are not permitted. */
  const DIMM_LISTS: seq<seq<nat>> :=
    [[0, 0, 4], [0, 0, 8], [0, 4, 4], [0, 4, 8], [0, 8, 8], [4, 4, 4], [4, 4, 8], [4, 8, 8]]

  /** How many bandwidths such a channel may have: fewer the more DIMMs it holds. */
  function SpeedCount(dimms: seq<nat>): (n: nat)
    requires |dimms| == 3
    ensures 2 <= n <= 4
  {
    if dimms[0] > 0 then 2 else if dimms[1] > 0 then 3 else 4
  }

  ghost predicate ValidLists(lists: seq<seq<nat>>) {
    forall dimms | dimms in lists :: |dimms| == 3 && AllSizes(dimms)
  }

  ghost function AtSpeeds(tables: Tables, dimms: seq<nat>, n: nat): seq<Channel>
    requires |dimms| == 3 && AllSizes(dimms) && n <= 4
  {
    if n == 0 then [] else AtSpeeds(tables, dimms, n - 1) + [Ddr4(tables, dimms, SPEEDS[n - 1])]
  }

  /** The channels for some DIMM lists, each at every bandwidth it may have. */
  ghost function ChannelsFor(tables: Tables, lists: seq<seq<nat>>): seq<Channel>
    requires ValidLists(lists)
  {
    if lists == [] then [] else AtSpeeds(tables, lists[0], SpeedCount(lists[0])) + ChannelsFor(tables, lists[1..])
  }

  ghost predicate IsChannelFor(tables: Tables, lists: seq<seq<nat>>, ch: Channel, dimms: seq<nat>, k: nat)
    requires ValidLists(lists)
  {
    dimms in lists && k < SpeedCount(dimms) && ch == Ddr4(tables, dimms, SPEEDS[k])
  }

  lemma {:induction false} AtSpeedsMember(tables: Tables, dimms: seq<nat>, n: nat, ch: Channel)
    requires |dimms| == 3 && AllSizes(dimms) && n <= 4
    ensures ch in AtSpeeds(tables, dimms, n) <==> exists k: nat :: k < n && ch == Ddr4(tables, dimms, SPEEDS[k])
  {
    if n > 0 {
      AtSpeedsMember(tables, dimms, n - 1, ch);
      assert ch in AtSpeeds(tables, dimms, n) <==> ch in AtSpeeds(tables, dimms, n - 1) || ch == Ddr4(tables, dimms, SPEEDS[n - 1]);
    }
  }

  lemma {:induction false} ChannelsForMember(tables: Tables, lists: seq<seq<nat>>, ch: Channel)
    requires ValidLists(lists)
    ensures ch in ChannelsFor(tables, lists) <==> exists dimms, k: nat :: IsChannelFor(tables, lists, ch, dimms, k)
  {
    if lists != [] {
      var first, rest := lists[0], lists[1..];
      AtSpeedsMember(tables, first, SpeedCount(first), ch);
      ChannelsForMember(tables, rest, ch);
      if dimms, k: nat :| IsChannelFor(tables, rest, ch, dimms, k) {
        assert IsChannelFor(tables, lists, ch, dimms, k);
      }
      if k: nat :| k < SpeedCount(first) && ch == Ddr4(tables, first, SPEEDS[k]) {
        assert IsChannelFor(tables, lists, ch, first, k);
      }
      if dimms, k: nat :| IsChannelFor(tables, lists, ch, dimms, k) {
        assert dimms == first || IsChannelFor(tables, rest, ch, dimms, k);
      }
    }
  }

  lemma DimmListsValid()
    ensures ValidLists(DIMM_LISTS)
  {}

  /** The channels of 20 GB of unbuffered DDR4. */
  ghost function AllDdr4(tables: Tables): (all: seq<Channel>)
    ensures forall ch | ch in all :: Built(tables, ch)
  {
    DimmListsValid();
    assert forall ch | ch in ChannelsFor(tables, DIMM_LISTS) :: Built(tables, ch) by {
      forall ch | ch in ChannelsFor(tables, DIMM_LISTS)
        ensures Built(tables, ch)
      {
        ChannelsForMember(tables, DIMM_LISTS, ch);
      }
    }
    ChannelsFor(tables, DIMM_LISTS)
  }

  lemma IsOffered(tables: Tables, dimms: seq<nat>, k: nat)
    requires dimms in DIMM_LISTS && k < SpeedCount(dimms)
    ensures Ddr4(tables, dimms, SPEEDS[k]) in AllDdr4(tables)
  {
    DimmListsValid();
    ChannelsForMember(tables, DIMM_LISTS, Ddr4(tables, dimms, SPEEDS[k]));
    assert IsChannelFor(tables, DIMM_LISTS, Ddr4(tables, dimms, SPEEDS[k]), dimms, k);
  }

  /** The highest bandwidth at which a capacity is offered, and DIMMs that reach it. */
  function BestSpeed(capacity: nat): int {
    if capacity <= 8 then 1200 else if capacity <= 16 then 1066 else 933
  }

  function BestDimms(capacity: nat): seq<nat> {
    if capacity == 4 then [0, 0, 4] else if capacity == 8 then [0, 0, 8] else if capacity == 12 then [0, 4, 8]
    else if capacity == 16 then [0, 8, 8] else [4, 8, 8]
  }

  ghost predicate OfferedCapacity(capacity: nat) {
    capacity == 4 || capacity == 8 || capacity == 12 || capacity == 16 || capacity == 20
  }

  function TopSpeed(n: nat): int {
    if n <= 2 then 933 else if n == 3 then 1066 else 1200
  }

  lemma SpeedsBelowTop(k: nat, n: nat)
    requires k < n && 2 <= n <= 4
    ensures SPEEDS[k] <= TopSpeed(n)
  {
    assert k == 0 || k == 1 || k == 2 || k == 3;
  }

  lemma ListTop(dimms: seq<nat>)
    requires dimms in DIMM_LISTS
    ensures |dimms| == 3
    ensures var capacity := dimms[0] + dimms[1] + dimms[2];
            OfferedCapacity(capacity) && TopSpeed(SpeedCount(dimms)) <= BestSpeed(capacity)
  {}

  lemma OfferedAtMost(tables: Tables, ch: Channel)
    requires ch in AllDdr4(tables)
    ensures OfferedCapacity(ch.score.capacity) && ch.score.bandwidth <= BestSpeed(ch.score.capacity)
  {
    DimmListsValid();
    ChannelsForMember(tables, DIMM_LISTS, ch);
    var dimms, k: nat :| IsChannelFor(tables, DIMM_LISTS, ch, dimms, k);
    ListTop(dimms);
    SpeedsBelowTop(k, SpeedCount(dimms));
  }

  lemma BestOffered(tables: Tables, capacity: nat) returns (ch: Channel)
    requires OfferedCapacity(capacity)
    ensures ch in AllDdr4(tables) && ch.score.capacity == capacity && ch.score.bandwidth == BestSpeed(capacity)
  {
    var dimms := BestDimms(capacity);
    IsOffered(tables, dimms, SpeedCount(dimms) - 1);
    ch := Ddr4(tables, dimms, SPEEDS[SpeedCount(dimms) - 1]);
  }

  /** Sorted by bandwidth first, every capacity is kept at its highest bandwidth only. */
  lemma KeptSpeed(tables: Tables, sorted: seq<Channel>, y: Channel)
    requires SortOf(ByScore(BANDWIDTH_FIRST, ChannelScore), AllDdr4(tables), sorted)
    requires y in Pruned(sorted, ChannelScore, -1)
    ensures OfferedCapacity(y.score.capacity) && y.score.bandwidth == BestSpeed(y.score.capacity)
  {
    SameElements(AllDdr4(tables), sorted);
    PrunedFrom(sorted, ChannelScore, -1, y);
    OfferedAtMost(tables, y);
    var x := BestOffered(tables, y.score.capacity);
    assert ChannelScore(x) == x.score && ChannelScore(y) == y.score;
    KeptIsBest(BANDWIDTH_FIRST, sorted, ChannelScore, -1, y, x);
  }

  /** Without a guard the first pruning can remove the only solution, as it looks at capacities alone.
      However the channels for 20 GB of unbuffered DDR4 are sorted, by bandwidth first, it leaves no two
      of one bandwidth with 20 GB in all, although there are such. */
  lemma ChannelPruningLosesEqualBandwidth(tables: Tables, sorted: seq<Channel>)
    requires SortOf(ByScore(BANDWIDTH_FIRST, ChannelScore), AllDdr4(tables), sorted)
    ensures exists groups :: IsEqualMemory(AllDdr4(tables), 2, 1, 20, groups)
    ensures !exists groups :: IsEqualMemory(Pruned(sorted, ChannelScore, -1), 2, 1, 20, groups)
  {
    IsOffered(tables, [0, 0, 8], 2);
    IsOffered(tables, [0, 4, 8], 2);
    var both := [[Ddr4(tables, [0, 0, 8], 1066), Ddr4(tables, [0, 4, 8], 1066)]];
    assert OfBandwidth(both[0], 1066);
    PairCapacity(both);
    assert IsEqualMemory(AllDdr4(tables), 2, 1, 20, both);
    forall groups
      ensures !IsEqualMemory(Pruned(sorted, ChannelScore, -1), 2, 1, 20, groups)
    {
      NoPair(tables, sorted, groups);
    }
  }

  lemma NoPair(tables: Tables, sorted: seq<Channel>, groups: seq<seq<Channel>>)
    requires SortOf(ByScore(BANDWIDTH_FIRST, ChannelScore), AllDdr4(tables), sorted)
    ensures !IsEqualMemory(Pruned(sorted, ChannelScore, -1), 2, 1, 20, groups)
  {
    var kept := Pruned(sorted, ChannelScore, -1);
    if |groups| == 1 && EqualGroup(kept, 2, groups[0]) {
      var cs := groups[0];
      var bandwidth :| OfBandwidth(cs, bandwidth);
      KeptSpeed(tables, sorted, cs[0]);
      KeptSpeed(tables, sorted, cs[1]);
      PairCapacity(groups);
    }
  }
}
