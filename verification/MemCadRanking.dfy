/** The whole list of memories a search ends with: the best memory for every combination of BoB
    capacities, in order. */
module MemCadRanking {
  import opened MemCadEnumerate
  import opened MemCadEqual
  import opened MemCadMirror
  import opened MemCadParts
  import opened MemCadScore
  import opened Sorting

  /** How much the BoBs of a memory hold, each by itself. */
  ghost function BobSizes(bobs: seq<Bob>): multiset<nat> {
    multiset(Capacities(bobs))
  }

  lemma SizesFront(b: Bob, rest: seq<Bob>)
    ensures BobSizes([b] + rest) == multiset{b.score.capacity} + BobSizes(rest)
  {
    assert Capacities([b] + rest) == [b.score.capacity] + Capacities(rest);
  }

  lemma SizesOfSelection(bobs: seq<Bob>, i: nat, rest: seq<nat>)
    requires i < |bobs| && forall k | 0 <= k < |rest| :: rest[k] < |bobs|
    ensures BobSizes(Select(bobs, [i] + rest)) == multiset{bobs[i].score.capacity} + BobSizes(Select(bobs, rest))
  {
    assert Select(bobs, [i] + rest) == [bobs[i]] + Select(bobs, rest);
    SizesFront(bobs[i], Select(bobs, rest));
  }

  lemma {:induction false} InsertSizes(bobs: seq<Bob>, i: nat, idx: seq<nat>)
    requires i < |bobs| && forall k | 0 <= k < |idx| :: idx[k] < |bobs|
    ensures forall k | 0 <= k < |Insert(i, idx)| :: Insert(i, idx)[k] < |bobs|
    ensures BobSizes(Select(bobs, Insert(i, idx))) == multiset{bobs[i].score.capacity} + BobSizes(Select(bobs, idx))
  {
    if idx == [] || i <= idx[0] {
      SizesOfSelection(bobs, i, idx);
    } else {
      InsertSizes(bobs, i, idx[1..]);
      SizesOfSelection(bobs, idx[0], Insert(i, idx[1..]));
      assert idx == [idx[0]] + idx[1..];
      SizesOfSelection(bobs, idx[0], idx[1..]);
    }
  }

  // ----- every combination is listed -----

  /** Some memory of the list has BoBs of the same sizes and is no worse. */
  ghost predicate Listed(order: Order, result: seq<Memory>, pick: seq<Bob>) {
    exists m :: m in result && BobSizes(m.bobs) == BobSizes(pick) && Compare(order, m.score, MemoryOf(pick).score)
  }

  /** Replacing each BoB by a dominating one of its size and putting the indices in order. */
  lemma {:induction false} ReplaceSizes(order: Order, bobs: seq<Bob>, pick: seq<Bob>) returns (idx: seq<nat>)
    requires forall i | 0 <= i < |pick| :: Dominated(order, bobs, pick[i].score)
    ensures |idx| == |pick| && NonDecreasing(idx) && forall k | 0 <= k < |idx| :: idx[k] < |bobs|
    ensures BobSizes(Select(bobs, idx)) == BobSizes(pick)
    ensures NoWorse(order, IndexScore(BobScores(bobs), idx), MemoryOf(pick).score)
    decreases |pick|
  {
    if pick == [] {
      idx := [];
      CompareIsLex(order, ZERO, ZERO);
      assert Select(bobs, idx) == pick;
    } else {
      var rest := ReplaceSizes(order, bobs, pick[1..]);
      assert Dominated(order, bobs, pick[0].score);
      var k: nat :| k < |bobs| && bobs[k].score.capacity == pick[0].score.capacity && Compare(order, bobs[k].score, pick[0].score);
      InsertOrdered(k, rest, |bobs|);
      InsertScore(BobScores(bobs), k, rest);
      InsertSizes(bobs, k, rest);
      idx := Insert(k, rest);
      assert pick == [pick[0]] + pick[1..];
      SizesFront(pick[0], pick[1..]);
      ScoreFront(order, bobs[k].score, pick[0], IndexScore(BobScores(bobs), rest), pick[1..]);
    }
  }

  lemma ScoreFront(order: Order, head: Score, b: Bob, tail: Score, rest: seq<Bob>)
    requires NoWorse(order, head, b.score) && NoWorse(order, tail, MemoryOf(rest).score)
    ensures NoWorse(order, Plus(head, tail), MemoryOf([b] + rest).score)
  {
    assert BobScores([b] + rest) == [b.score] + BobScores(rest);
    TotalFront(b.score, BobScores(rest));
    CompareAdds(order, head, b.score, tail, MemoryOf(rest).score);
  }

  lemma DominatedIsListed(order: Order, nb: nat, capacity: nat, bobs: seq<Bob>, memories: seq<Memory>, result: seq<Memory>,
                          pick: seq<Bob>)
    requires nb >= 1 && FoundBy(bobs, capacity, nb, memories) && multiset(result) == multiset(memories)
    requires |pick| == nb && MemoryOf(pick).score.capacity == capacity
    requires forall i | 0 <= i < nb :: Dominated(order, bobs, pick[i].score)
    ensures Listed(order, result, pick)
  {
    var idx := ReplaceSizes(order, bobs, pick);
    var choices := Choices(Capacities(bobs), capacity, 0, nb);
    IndexIsChoice(bobs, capacity, nb, idx);
    var k :| 0 <= k < |choices| && choices[k] == idx;
    SameElements(memories, result);
    IndexScoreIsMemory(bobs, idx);
    assert memories[k] in result && memories[k].bobs == Select(bobs, idx);
  }

  // ----- and only once -----

  ghost predicate DistinctSizes(memories: seq<Memory>) {
    forall i, j | 0 <= i < j < |memories| :: BobSizes(memories[i].bobs) != BobSizes(memories[j].bobs)
  }

  ghost predicate AscendingSizes(bobs: seq<Bob>) {
    forall i, j | 0 <= i < j < |bobs| :: bobs[i].score.capacity < bobs[j].score.capacity
  }

  lemma {:induction false} PrunedAscends(order: Order, sorted: seq<Bob>, last: int)
    requires SortedBy(ByScore(order, BobScore), sorted)
    ensures AscendingSizes(Pruned(sorted, BobScore, last))
  {
    if sorted != [] {
      var head := BobScore(sorted[0]).capacity;
      SortedTail(ByScore(order, BobScore), sorted);
      CapacitiesAscend(order, sorted, BobScore);
      if head != last {
        var rest := Pruned(sorted[1..], BobScore, head);
        PrunedAscends(order, sorted[1..], head);
        forall j | 0 <= j < |rest|
          ensures sorted[0].score.capacity < rest[j].score.capacity
        {
          PrunedAbove(order, sorted[1..], BobScore, head, rest[j]);
          assert BobScore(rest[j]) == rest[j].score;
        }
      } else {
        PrunedAscends(order, sorted[1..], last);
      }
    }
  }

  lemma SizesAbove(bobs: seq<Bob>, idx: seq<nat>, c: nat)
    requires AscendingSizes(bobs) && NonDecreasing(idx) && idx != [] && forall k | 0 <= k < |idx| :: idx[k] < |bobs|
    requires c < bobs[idx[0]].score.capacity
    ensures c !in BobSizes(Select(bobs, idx))
  {
    var caps := Capacities(Select(bobs, idx));
    forall k | 0 <= k < |caps|
      ensures caps[k] != c
    {
      assert idx[0] <= idx[k];
    }
    assert c !in caps;
  }

  lemma FirstOfSizes(bobs: seq<Bob>, a: seq<nat>, b: seq<nat>)
    requires AscendingSizes(bobs) && NonDecreasing(b) && a != [] && b != []
    requires (forall k | 0 <= k < |a| :: a[k] < |bobs|) && forall k | 0 <= k < |b| :: b[k] < |bobs|
    requires BobSizes(Select(bobs, a)) == BobSizes(Select(bobs, b))
    ensures b[0] <= a[0]
  {
    assert a == [a[0]] + a[1..];
    SizesOfSelection(bobs, a[0], a[1..]);
    if a[0] < b[0] {
      SizesAbove(bobs, b, bobs[a[0]].score.capacity);
    }
  }

  /** With BoBs of ascending sizes an index list is determined by the sizes it picks. */
  lemma {:induction false} SizesDetermine(bobs: seq<Bob>, a: seq<nat>, b: seq<nat>)
    requires AscendingSizes(bobs) && NonDecreasing(a) && NonDecreasing(b) && |a| == |b|
    requires (forall k | 0 <= k < |a| :: a[k] < |bobs|) && forall k | 0 <= k < |b| :: b[k] < |bobs|
    requires BobSizes(Select(bobs, a)) == BobSizes(Select(bobs, b))
    ensures a == b
  {
    if a != [] {
      FirstOfSizes(bobs, a, b);
      FirstOfSizes(bobs, b, a);
      RestOfSizes(bobs, a[0], a, b, a[1..], b[1..]);
      SizesDetermine(bobs, a[1..], b[1..]);
    }
  }

  lemma RestOfSizes(bobs: seq<Bob>, x: nat, a: seq<nat>, b: seq<nat>, c: seq<nat>, d: seq<nat>)
    requires a == [x] + c && b == [x] + d && x < |bobs|
    requires (forall k | 0 <= k < |c| :: c[k] < |bobs|) && forall k | 0 <= k < |d| :: d[k] < |bobs|
    requires BobSizes(Select(bobs, [x] + c)) == BobSizes(Select(bobs, [x] + d))
    ensures BobSizes(Select(bobs, c)) == BobSizes(Select(bobs, d))
  {
    SizesOfSelection(bobs, x, c);
    SizesOfSelection(bobs, x, d);
    SameRest(BobSizes(Select(bobs, c)), BobSizes(Select(bobs, d)), bobs[x].score.capacity);
  }

  lemma SameRest(a: multiset<nat>, b: multiset<nat>, x: nat)
    requires multiset{x} + a == multiset{x} + b
    ensures a == b
  {
    assert a == multiset{x} + a - multiset{x};
    assert b == multiset{x} + b - multiset{x};
  }

  lemma FoundDistinct(bobs: seq<Bob>, capacity: nat, nb: nat, memories: seq<Memory>)
    requires nb >= 1 && FoundBy(bobs, capacity, nb, memories) && AscendingSizes(bobs)
    ensures DistinctSizes(memories)
  {
    var choices := Choices(Capacities(bobs), capacity, 0, nb);
    ChoicesSorted(Capacities(bobs), capacity, 0, nb);
    LexSortedDistinct(choices);
    forall i, j | 0 <= i < j < |memories|
      ensures BobSizes(memories[i].bobs) != BobSizes(memories[j].bobs)
    {
      assert memories[i].bobs == Select(bobs, choices[i]) && memories[j].bobs == Select(bobs, choices[j]);
      if BobSizes(memories[i].bobs) == BobSizes(memories[j].bobs) {
        SizesDetermine(bobs, choices[i], choices[j]);
      }
    }
  }

  lemma {:induction false} OccursOnce(memories: seq<Memory>, m: Memory)
    requires DistinctSizes(memories)
    ensures multiset(memories)[m] <= 1
  {
    if memories != [] {
      var n := |memories| - 1;
      OccursOnce(memories[..n], m);
      assert memories == memories[..n] + [memories[n]];
      if m == memories[n] {
        assert forall i | 0 <= i < n :: memories[..n][i] != m;
      }
    }
  }

  lemma OccursTwice(result: seq<Memory>, i: nat, j: nat)
    requires i < j < |result| && result[i] == result[j]
    ensures multiset(result)[result[i]] >= 2
  {
    assert result == result[..j] + [result[j]] + result[j + 1..];
    assert result[i] in result[..j];
  }

  lemma DistinctPermutes(memories: seq<Memory>, result: seq<Memory>)
    requires multiset(result) == multiset(memories) && DistinctSizes(memories)
    ensures DistinctSizes(result)
  {
    SameElements(memories, result);
    forall i, j | 0 <= i < j < |result|
      ensures BobSizes(result[i].bobs) != BobSizes(result[j].bobs)
    {
      assert result[i] in memories && result[j] in memories;
      var a :| 0 <= a < |memories| && memories[a] == result[i];
      var b :| 0 <= b < |memories| && memories[b] == result[j];
      if a == b {
        OccursTwice(result, i, j);
        OccursOnce(memories, result[i]);
      }
      assert a < b || b < a;
    }
  }

  // ----- the list -----

  /** A list in order, with no two memories of the same BoB sizes. */
  ghost predicate Ranks(order: Order, result: seq<Memory>) {
    SortedBy(ByScore(order, MemoryScore), result) && DistinctSizes(result)
  }

  /** What the last search makes of BoBs wherever they come from: one memory for every combination of
      sizes, none worse than any other memory of unpruned BoBs of these sizes, and nothing else. */
  lemma SearchRanks(order: Order, nb: nat, capacity: nat, reached: seq<Bob>, sortedBobs: seq<Bob>, bobs: seq<Bob>,
                    memories: seq<Memory>, result: seq<Memory>)
    requires nb >= 1 && BobStages(order, reached, sortedBobs, bobs)
    requires FoundBy(bobs, capacity, nb, memories) && SortOf(ByScore(order, MemoryScore), memories, result)
    ensures Ranks(order, result)
    ensures forall m | m in result :: m == MemoryOf(m.bobs) && FromBobs(reached, nb, capacity, m.bobs)
    ensures forall pick: seq<Bob> | FromBobs(reached, nb, capacity, pick) :: Listed(order, result, pick)
  {
    PrunedAscends(order, sortedBobs, -1);
    FoundDistinct(bobs, capacity, nb, memories);
    DistinctPermutes(memories, result);
    forall m | m in result
      ensures m == MemoryOf(m.bobs) && FromBobs(reached, nb, capacity, m.bobs)
    {
      MemoryIsFound(order, nb, capacity, reached, sortedBobs, bobs, memories, result, m);
    }
    forall pick: seq<Bob> | FromBobs(reached, nb, capacity, pick)
      ensures Listed(order, result, pick)
    {
      forall i | 0 <= i < nb
        ensures Dominated(order, bobs, pick[i].score)
      {
        ReachedDominated(order, reached, sortedBobs, bobs, pick[i]);
      }
      DominatedIsListed(order, nb, capacity, bobs, memories, result, pick);
    }
  }

  lemma MemoryIsFound(order: Order, nb: nat, capacity: nat, reached: seq<Bob>, sortedBobs: seq<Bob>, bobs: seq<Bob>,
                      memories: seq<Memory>, result: seq<Memory>, m: Memory)
    requires nb >= 1 && BobStages(order, reached, sortedBobs, bobs) && m in result
    requires FoundBy(bobs, capacity, nb, memories) && SortOf(ByScore(order, MemoryScore), memories, result)
    ensures m == MemoryOf(m.bobs) && FromBobs(reached, nb, capacity, m.bobs)
  {
    SameElements(memories, result);
    SameElements(reached, sortedBobs);
    var k :| 0 <= k < |memories| && memories[k] == m;
    var idx := Choices(Capacities(bobs), capacity, 0, nb)[k];
    IndexScoreIsMemory(bobs, idx);
    forall i | 0 <= i < nb
      ensures m.bobs[i] in reached
    {
      PrunedFrom(sortedBobs, BobScore, -1, Select(bobs, idx)[i]);
    }
  }

  ghost predicate FromChannels(n: nat, nb: nat, capacity: nat, all: seq<Channel>, m: Memory) {
    m == MemoryOf(m.bobs) && exists pick :: IsCandidate(n, nb, capacity, all, pick) && m.bobs == Mirrors(n, pick)
  }

  /** With mirrored BoBs the same holds of all channels before their pruning. */
  lemma MirroredRanks(order: Order, n: nat, nb: nat, capacity: nat, all: seq<Channel>, sorted: seq<Channel>,
                      sortedBobs: seq<Bob>, bobs: seq<Bob>, memories: seq<Memory>, result: seq<Memory>)
    requires nb >= 1 && Stages(order, n, all, sorted, sortedBobs, bobs)
    requires FoundBy(bobs, capacity, nb, memories) && SortOf(ByScore(order, MemoryScore), memories, result)
    ensures Ranks(order, result) && forall m | m in result :: FromChannels(n, nb, capacity, all, m)
    ensures forall pick | IsCandidate(n, nb, capacity, all, pick) :: Listed(order, result, Mirrors(n, pick))
  {
    var kept := Mirrors(n, Pruned(sorted, ChannelScore, -1));
    SearchRanks(order, nb, capacity, kept, sortedBobs, bobs, memories, result);
    forall m | m in result
      ensures FromChannels(n, nb, capacity, all, m)
    {
      var pick := ChannelsBehind(order, n, nb, capacity, all, sorted, m.bobs);
    }
    forall pick | IsCandidate(n, nb, capacity, all, pick)
      ensures Listed(order, result, Mirrors(n, pick))
    {
      forall i | 0 <= i < nb
        ensures Dominated(order, bobs, Mirrors(n, pick)[i].score)
      {
        MirrorDominated(order, n, all, sorted, sortedBobs, bobs, pick[i]);
      }
      DominatedIsListed(order, nb, capacity, bobs, memories, result, Mirrors(n, pick));
    }
  }

  ghost predicate FromGroups(n: nat, nb: nat, capacity: nat, channels: seq<Channel>, m: Memory) {
    m == MemoryOf(m.bobs) && exists groups :: IsEqualMemory(channels, n, nb, capacity, groups) && m.bobs == BobsOf(groups)
  }

  lemma GroupDominated(order: Order, n: nat, channels: seq<Channel>, reached: seq<Bob>, sortedBobs: seq<Bob>, bobs: seq<Bob>,
                       cs: seq<Channel>)
    requires ReachesGroups(channels, n, reached) && BobStages(order, reached, sortedBobs, bobs) && EqualGroup(channels, n, cs)
    ensures Dominated(order, bobs, BobOf(cs).score)
  {
    assert HasScore(reached, BobOf(cs).score);
    var b :| b in reached && b.score == BobOf(cs).score;
    ReachedDominated(order, reached, sortedBobs, bobs, b);
  }

  lemma CoveredDominated(order: Order, n: nat, all: seq<Channel>, kept: seq<Channel>, reached: seq<Bob>, sortedBobs: seq<Bob>,
                         bobs: seq<Bob>, cs: seq<Channel>)
    requires ReachesGroups(kept, n, reached) && BobStages(order, reached, sortedBobs, bobs)
    requires Covered(order, n, all, kept) && EqualGroup(all, n, cs)
    ensures Dominated(order, bobs, BobOf(cs).score)
  {
    assert GroupCovered(order, n, kept, cs);
    var ks :| EqualGroup(kept, n, ks) && NoWorse(order, BobOf(ks).score, BobOf(cs).score);
    GroupDominated(order, n, kept, reached, sortedBobs, bobs, ks);
    DominatedBy(order, bobs, BobOf(ks).score, BobOf(cs).score);
  }

  /** With BoBs of one bandwidth it holds of the channels kept, and of any channels these cover. */
  lemma EqualRanks(order: Order, n: nat, nb: nat, capacity: nat, all: seq<Channel>, kept: seq<Channel>, reached: seq<Bob>,
                   sortedBobs: seq<Bob>, bobs: seq<Bob>, memories: seq<Memory>, result: seq<Memory>)
    requires nb >= 1 && ReachesGroups(kept, n, reached) && BobStages(order, reached, sortedBobs, bobs)
    requires FoundBy(bobs, capacity, nb, memories) && SortOf(ByScore(order, MemoryScore), memories, result)
    ensures Ranks(order, result) && forall m | m in result :: FromGroups(n, nb, capacity, kept, m)
    ensures forall groups | IsEqualMemory(kept, n, nb, capacity, groups) :: Listed(order, result, BobsOf(groups))
    ensures Covered(order, n, all, kept) ==>
              forall groups | IsEqualMemory(all, n, nb, capacity, groups) :: Listed(order, result, BobsOf(groups))
  {
    SearchRanks(order, nb, capacity, reached, sortedBobs, bobs, memories, result);
    forall m | m in result
      ensures FromGroups(n, nb, capacity, kept, m)
    {
      var groups := ChannelsOfBobs(n, nb, capacity, kept, reached, m.bobs);
    }
    forall groups | IsEqualMemory(kept, n, nb, capacity, groups)
      ensures Listed(order, result, BobsOf(groups))
    {
      forall i | 0 <= i < nb
        ensures Dominated(order, bobs, BobsOf(groups)[i].score)
      {
        GroupDominated(order, n, kept, reached, sortedBobs, bobs, groups[i]);
      }
      DominatedIsListed(order, nb, capacity, bobs, memories, result, BobsOf(groups));
    }
    if Covered(order, n, all, kept) {
      forall groups | IsEqualMemory(all, n, nb, capacity, groups)
        ensures Listed(order, result, BobsOf(groups))
      {
        forall i | 0 <= i < nb
          ensures Dominated(order, bobs, BobsOf(groups)[i].score)
        {
          CoveredDominated(order, n, all, kept, reached, sortedBobs, bobs, groups[i]);
        }
        DominatedIsListed(order, nb, capacity, bobs, memories, result, BobsOf(groups));
      }
    }
  }
}
