/** Why pruning to one representative per capacity loses nothing when all channels of a BoB are alike. */
module MemCadMirror {
  import opened MemCadEnumerate
  import opened MemCadParts
  import opened MemCadScore
  import opened Sorting

  // ----- sorting by score and pruning -----

  function ByScore<T>(order: Order, score: T -> Score): (T, T) -> bool {
    (a: T, b: T) => Compare(order, score(a), score(b))
  }

  lemma ByScorePreorder<T(!new)>(order: Order, score: T -> Score)
    ensures TotalPreorder(ByScore(order, score))
  {
    var leq := ByScore(order, score);
    var base := (a: Score, b: Score) => Compare(order, a, b);
    ComparePreorder(order);
    forall a: T, b: T
      ensures leq(a, b) || leq(b, a)
    {
      assert base(score(a), score(b)) || base(score(b), score(a));
    }
    forall a: T, b: T, c: T | leq(a, b) && leq(b, c)
      ensures leq(a, c)
    {
      CompareTransitive(order, score(a), score(b), score(c));
    }
  }

  function ChannelScore(ch: Channel): Score { ch.score }

  function BobScore(b: Bob): Score { b.score }

  function MemoryScore(m: Memory): Score { m.score }

  /** What `prune_channels` and `prune_bobs` keep: an element whenever its capacity differs from the
      last one kept. */
  ghost function Pruned<T>(xs: seq<T>, score: T -> Score, last: int): seq<T> {
    if xs == [] then []
    else if score(xs[0]).capacity != last then [xs[0]] + Pruned(xs[1..], score, score(xs[0]).capacity)
    else Pruned(xs[1..], score, last)
  }

  lemma {:induction false} PrunedFrom<T>(xs: seq<T>, score: T -> Score, last: int, y: T)
    requires y in Pruned(xs, score, last)
    ensures y in xs
  {
    if score(xs[0]).capacity != last {
      if y != xs[0] {
        PrunedFrom(xs[1..], score, score(xs[0]).capacity, y);
      }
    } else {
      PrunedFrom(xs[1..], score, last, y);
    }
  }

  lemma SortedTail<T>(leq: (T, T) -> bool, xs: seq<T>)
    requires SortedBy(leq, xs) && xs != []
    ensures SortedBy(leq, xs[1..])
    ensures forall i | 0 < i < |xs| :: leq(xs[0], xs[i])
  {}

  /** In a sorted list, the element kept for a capacity is no worse than any other of that capacity. */
  lemma {:induction false} Representative<T(!new)>(order: Order, xs: seq<T>, score: T -> Score, last: int, i: nat)
    returns (y: T)
    requires SortedBy(ByScore(order, score), xs) && i < |xs| && score(xs[i]).capacity != last
    ensures y in Pruned(xs, score, last)
    ensures score(y).capacity == score(xs[i]).capacity && Compare(order, score(y), score(xs[i]))
  {
    var head := score(xs[0]).capacity;
    SortedTail(ByScore(order, score), xs);
    if head != last && head == score(xs[i]).capacity {
      y := xs[0];
      if i == 0 {
        CompareIsLex(order, score(y), score(y));
      } else {
        assert ByScore(order, score)(xs[0], xs[i]);
      }
    } else {
      y := Representative(order, xs[1..], score, if head != last then head else last, i - 1);
    }
  }

  /** Kept elements have capacities beyond the last one kept before. */
  lemma {:induction false} PrunedAbove<T(!new)>(order: Order, xs: seq<T>, score: T -> Score, last: int, y: T)
    requires SortedBy(ByScore(order, score), xs) && y in Pruned(xs, score, last)
    requires forall x | x in xs :: score(x).capacity >= last
    ensures score(y).capacity > last
  {
    SortedTail(ByScore(order, score), xs);
    var head := score(xs[0]).capacity;
    if head == last {
      PrunedAbove(order, xs[1..], score, last, y);
    } else if y != xs[0] {
      CapacitiesAscend(order, xs, score);
      PrunedAbove(order, xs[1..], score, head, y);
    }
  }

  lemma CapacitiesAscend<T(!new)>(order: Order, xs: seq<T>, score: T -> Score)
    requires SortedBy(ByScore(order, score), xs) && xs != []
    ensures forall x | x in xs :: score(x).capacity >= score(xs[0]).capacity
  {
    forall x | x in xs
      ensures score(x).capacity >= score(xs[0]).capacity
    {
      var i :| 0 <= i < |xs| && xs[i] == x;
      assert i > 0 ==> ByScore(order, score)(xs[0], xs[i]);
    }
  }

  /** A kept element is no worse than any other of its capacity. */
  lemma {:induction false} KeptIsBest<T(!new)>(order: Order, xs: seq<T>, score: T -> Score, last: int, y: T, x: T)
    requires SortedBy(ByScore(order, score), xs) && y in Pruned(xs, score, last)
    requires forall e | e in xs :: score(e).capacity >= last
    requires x in xs && score(x).capacity == score(y).capacity
    ensures Compare(order, score(y), score(x))
  {
    SortedTail(ByScore(order, score), xs);
    CapacitiesAscend(order, xs, score);
    var head := score(xs[0]).capacity;
    if y == xs[0] {
      CompareIsLex(order, score(y), score(y));
      var i :| 0 <= i < |xs| && xs[i] == x;
      assert i > 0 ==> ByScore(order, score)(xs[0], xs[i]);
    } else {
      assert y in Pruned(xs[1..], score, if head != last then head else last);
      PrunedAbove(order, xs[1..], score, head, y);
      assert x in xs[1..];
      KeptIsBest(order, xs[1..], score, head, y, x);
    }
  }

  // ----- mirrored BoBs -----

  function CopiesOf(n: nat, ch: Channel): (copies: seq<Channel>)
    ensures |copies| == n && forall i | 0 <= i < n :: copies[i] == ch
  {
    seq(n, _ => ch)
  }

  function Mirror(n: nat, ch: Channel): Bob {
    BobOf(CopiesOf(n, ch))
  }

  lemma {:induction false} MirrorScore(n: nat, ch: Channel)
    ensures Mirror(n, ch).score == Times(n, ch.score)
  {
    if n > 0 {
      MirrorScore(n - 1, ch);
      var scores := ChannelScores(CopiesOf(n, ch));
      assert scores == ChannelScores(CopiesOf(n - 1, ch)) + [ch.score];
      TotalAppend(ChannelScores(CopiesOf(n - 1, ch)), ch.score);
    }
  }

  function Mirrors(n: nat, channels: seq<Channel>): (bobs: seq<Bob>)
    ensures |bobs| == |channels| && forall i | 0 <= i < |bobs| :: bobs[i] == Mirror(n, channels[i])
  {
    seq(|channels|, i requires 0 <= i < |channels| => Mirror(n, channels[i]))
  }

  function Select<T>(xs: seq<T>, idx: seq<nat>): (r: seq<T>)
    requires forall k | 0 <= k < |idx| :: idx[k] < |xs|
    ensures |r| == |idx| && forall k | 0 <= k < |r| :: r[k] == xs[idx[k]]
  {
    seq(|idx|, k requires 0 <= k < |idx| => xs[idx[k]])
  }

  function Capacities(bobs: seq<Bob>): (caps: seq<nat>)
    ensures |caps| == |bobs| && forall i | 0 <= i < |caps| :: caps[i] == bobs[i].score.capacity
  {
    seq(|bobs|, i requires 0 <= i < |bobs| => bobs[i].score.capacity)
  }

  // ----- the score of an index list does not depend on its order -----

  lemma TotalFront(s: Score, rest: seq<Score>)
    ensures Total([s] + rest) == Plus(s, Total(rest))
  {
    TotalConcat([s], rest);
    assert [s][..0] == [];
    PlusAssociates(s, ZERO, ZERO);
  }

  ghost function IndexScore(scores: seq<Score>, idx: seq<nat>): Score
    requires forall k | 0 <= k < |idx| :: idx[k] < |scores|
  {
    if idx == [] then ZERO else Plus(scores[idx[0]], IndexScore(scores, idx[1..]))
  }

  lemma {:induction false} IndexScoreIsTotal(scores: seq<Score>, idx: seq<nat>)
    requires forall k | 0 <= k < |idx| :: idx[k] < |scores|
    ensures IndexScore(scores, idx) == Total(Select(scores, idx))
  {
    if idx != [] {
      IndexScoreIsTotal(scores, idx[1..]);
      assert Select(scores, idx) == [scores[idx[0]]] + Select(scores, idx[1..]);
      TotalFront(scores[idx[0]], Select(scores, idx[1..]));
    }
  }

  lemma {:induction false} IndexCapacity(bobs: seq<Bob>, idx: seq<nat>)
    requires forall k | 0 <= k < |idx| :: idx[k] < |bobs|
    ensures IndexScore(BobScores(bobs), idx).capacity == CapacitySum(Capacities(bobs), idx)
  {
    if idx != [] {
      IndexCapacity(bobs, idx[1..]);
    }
  }

  lemma IndexScoreIsMemory(bobs: seq<Bob>, idx: seq<nat>)
    requires forall k | 0 <= k < |idx| :: idx[k] < |bobs|
    ensures IndexScore(BobScores(bobs), idx) == MemoryOf(Select(bobs, idx)).score
    ensures IndexScore(BobScores(bobs), idx).capacity == CapacitySum(Capacities(bobs), idx)
  {
    IndexScoreIsTotal(BobScores(bobs), idx);
    IndexCapacity(bobs, idx);
    assert BobScores(Select(bobs, idx)) == Select(BobScores(bobs), idx);
  }

  function Insert(i: nat, idx: seq<nat>): (r: seq<nat>) {
    if idx == [] || i <= idx[0] then [i] + idx else [idx[0]] + Insert(i, idx[1..])
  }

  lemma {:induction false} InsertOrdered(i: nat, idx: seq<nat>, bound: nat)
    requires NonDecreasing(idx) && i < bound && forall k | 0 <= k < |idx| :: idx[k] < bound
    ensures var r := Insert(i, idx);
            && |r| == |idx| + 1 && NonDecreasing(r) && (forall k | 0 <= k < |r| :: r[k] < bound)
            && (r[0] == i || (idx != [] && r[0] == idx[0]))
  {
    if idx != [] && i > idx[0] {
      InsertOrdered(i, idx[1..], bound);
      var tail := Insert(i, idx[1..]);
      assert idx[0] <= tail[0];
      forall k | 0 <= k < |tail|
        ensures idx[0] <= tail[k]
      {}
    }
  }

  lemma {:induction false} InsertMember(i: nat, idx: seq<nat>, x: nat)
    ensures x in Insert(i, idx) <==> x == i || x in idx
  {
    if idx != [] && i > idx[0] {
      InsertMember(i, idx[1..], x);
    }
  }

  lemma {:induction false} InsertScore(scores: seq<Score>, i: nat, idx: seq<nat>)
    requires NonDecreasing(idx) && i < |scores| && forall k | 0 <= k < |idx| :: idx[k] < |scores|
    ensures forall k | 0 <= k < |Insert(i, idx)| :: Insert(i, idx)[k] < |scores|
    ensures IndexScore(scores, Insert(i, idx)) == Plus(scores[i], IndexScore(scores, idx))
  {
    InsertOrdered(i, idx, |scores|);
    if idx == [] || i <= idx[0] {
      assert ([i] + idx)[1..] == idx;
    } else {
      var rest := idx[1..];
      InsertScore(scores, i, rest);
      assert ([idx[0]] + Insert(i, rest))[1..] == Insert(i, rest);
      PlusSwaps(scores[idx[0]], scores[i], IndexScore(scores, rest));
    }
  }

  lemma PlusSwaps(a: Score, b: Score, c: Score)
    ensures Plus(a, Plus(b, c)) == Plus(b, Plus(a, c))
  {}

  // ----- the theorem -----

  /** Some BoB left has the capacity of the score and is no worse. */
  ghost predicate Dominated(order: Order, bobs: seq<Bob>, s: Score) {
    exists k: nat :: k < |bobs| && bobs[k].score.capacity == s.capacity && Compare(order, bobs[k].score, s)
  }

  /** The BoBs before and after their pruning: any outcome of the sort. */
  ghost predicate BobStages(order: Order, reached: seq<Bob>, sortedBobs: seq<Bob>, bobs: seq<Bob>) {
    SortOf(ByScore(order, BobScore), reached, sortedBobs) && bobs == Pruned(sortedBobs, BobScore, -1)
  }

  /** The lists between the two prunings: any outcome of the two sorts. */
  ghost predicate Stages(order: Order, n: nat, all: seq<Channel>, sorted: seq<Channel>, sortedBobs: seq<Bob>, bobs: seq<Bob>) {
    && SortOf(ByScore(order, ChannelScore), all, sorted)
    && BobStages(order, Mirrors(n, Pruned(sorted, ChannelScore, -1)), sortedBobs, bobs)
  }

  /** Every BoB before pruning has a representative of its capacity that is no worse. */
  lemma ReachedDominated(order: Order, reached: seq<Bob>, sortedBobs: seq<Bob>, bobs: seq<Bob>, b: Bob)
    requires BobStages(order, reached, sortedBobs, bobs) && b in reached
    ensures Dominated(order, bobs, b.score)
  {
    SameElements(reached, sortedBobs);
    var j :| 0 <= j < |sortedBobs| && sortedBobs[j] == b;
    var rep := Representative(order, sortedBobs, BobScore, -1, j);
    assert BobScore(rep) == rep.score && BobScore(b) == b.score;
    var k :| 0 <= k < |bobs| && bobs[k] == rep;
  }

  lemma DominatedBy(order: Order, bobs: seq<Bob>, s: Score, worse: Score)
    requires Dominated(order, bobs, s) && s.capacity == worse.capacity && Compare(order, s, worse)
    ensures Dominated(order, bobs, worse)
  {
    var k: nat :| k < |bobs| && bobs[k].score.capacity == s.capacity && Compare(order, bobs[k].score, s);
    CompareTransitive(order, bobs[k].score, s, worse);
  }

  /** For every channel before pruning there is a pruned BoB of the same capacity that is no worse
      than the BoB it would have filled. */
  lemma MirrorDominated(order: Order, n: nat, all: seq<Channel>, sorted: seq<Channel>, sortedBobs: seq<Bob>, bobs: seq<Bob>, ch: Channel)
    requires Stages(order, n, all, sorted, sortedBobs, bobs) && ch in all
    ensures Dominated(order, bobs, Mirror(n, ch).score)
  {
    SameElements(all, sorted);
    var i :| 0 <= i < |sorted| && sorted[i] == ch;
    var kept := Pruned(sorted, ChannelScore, -1);
    var rep := Representative(order, sorted, ChannelScore, -1, i);
    assert ChannelScore(rep) == rep.score && ChannelScore(ch) == ch.score;
    CompareScales(order, n, rep.score, ch.score);
    MirrorScore(n, rep);
    MirrorScore(n, ch);
    var r :| 0 <= r < |kept| && kept[r] == rep;
    assert Mirrors(n, kept)[r] in Mirrors(n, kept);
    ReachedDominated(order, Mirrors(n, kept), sortedBobs, bobs, Mirror(n, rep));
    DominatedBy(order, bobs, Mirror(n, rep).score, Mirror(n, ch).score);
  }

  /** Replacing each BoB by the representative of its capacity and putting the indices in order gives
      an index list of the search, of the same capacity and no worse. */
  lemma {:induction false} Replace(order: Order, bobs: seq<Bob>, pick: seq<Bob>) returns (idx: seq<nat>)
    requires forall i | 0 <= i < |pick| :: Dominated(order, bobs, pick[i].score)
    ensures |idx| == |pick| && NonDecreasing(idx) && forall i | 0 <= i < |idx| :: idx[i] < |bobs|
    ensures IndexScore(BobScores(bobs), idx).capacity == MemoryOf(pick).score.capacity
    ensures Compare(order, IndexScore(BobScores(bobs), idx), MemoryOf(pick).score)
    decreases |pick|
  {
    if pick == [] {
      idx := [];
    } else {
      var rest := Replace(order, bobs, pick[1..]);
      assert Dominated(order, bobs, pick[0].score);
      var k: nat :| k < |bobs| && bobs[k].score.capacity == pick[0].score.capacity && Compare(order, bobs[k].score, pick[0].score);
      InsertOrdered(k, rest, |bobs|);
      InsertScore(BobScores(bobs), k, rest);
      idx := Insert(k, rest);
      CompareAdds(order, bobs[k].score, pick[0].score, IndexScore(BobScores(bobs), rest), MemoryOf(pick[1..]).score);
      assert BobScores(pick) == [pick[0].score] + BobScores(pick[1..]);
      TotalFront(pick[0].score, BobScores(pick[1..]));
    }
  }

  /** The candidates of the unpruned problem. */
  ghost predicate IsCandidate(n: nat, nb: nat, capacity: nat, all: seq<Channel>, pick: seq<Channel>) {
    && |pick| == nb && (forall k | 0 <= k < |pick| :: pick[k] in all)
    && MemoryOf(Mirrors(n, pick)).score.capacity == capacity
  }

  /** The memories the third search builds from an index list each. */
  ghost predicate FoundBy(bobs: seq<Bob>, capacity: nat, nb: nat, memories: seq<Memory>)
    requires nb >= 1
  {
    var choices := Choices(Capacities(bobs), capacity, 0, nb);
    |memories| == |choices| && forall k | 0 <= k < |memories| ::
      IsChoice(Capacities(bobs), capacity, 0, nb, choices[k]) && memories[k] == MemoryOf(Select(bobs, choices[k]))
  }

  /** The first memory is no worse than any memory of the capacity whose BoBs are all dominated. */
  lemma FirstBeats(order: Order, nb: nat, capacity: nat, bobs: seq<Bob>, memories: seq<Memory>, result: seq<Memory>, pick: seq<Bob>)
    requires nb >= 1 && FoundBy(bobs, capacity, nb, memories) && SortOf(ByScore(order, MemoryScore), memories, result)
    requires |pick| == nb && forall i | 0 <= i < nb :: Dominated(order, bobs, pick[i].score)
    requires MemoryOf(pick).score.capacity == capacity
    ensures result != [] && Compare(order, result[0].score, MemoryOf(pick).score)
  {
    var idx := Replace(order, bobs, pick);
    BestBeats(order, nb, capacity, bobs, memories, result, idx);
    CompareTransitive(order, result[0].score, IndexScore(BobScores(bobs), idx), MemoryOf(pick).score);
  }

  ghost predicate FromBobs(reached: seq<Bob>, nb: nat, capacity: nat, pick: seq<Bob>) {
    |pick| == nb && (forall i | 0 <= i < nb :: pick[i] in reached) && MemoryOf(pick).score.capacity == capacity
  }

  /** Pruning BoBs loses nothing, wherever they come from: the first memory after sorting is no worse
      than any memory of unpruned BoBs, and it is one of them. */
  lemma BobPruningKeepsOptimum(order: Order, nb: nat, capacity: nat, reached: seq<Bob>, sortedBobs: seq<Bob>,
                               bobs: seq<Bob>, memories: seq<Memory>, result: seq<Memory>)
    requires nb >= 1 && BobStages(order, reached, sortedBobs, bobs)
    requires FoundBy(bobs, capacity, nb, memories) && SortOf(ByScore(order, MemoryScore), memories, result)
    ensures forall pick | FromBobs(reached, nb, capacity, pick) ::
              result != [] && Compare(order, result[0].score, MemoryOf(pick).score)
    ensures result != [] ==> exists pick :: FromBobs(reached, nb, capacity, pick) && result[0] == MemoryOf(pick)
  {
    forall pick: seq<Bob> | FromBobs(reached, nb, capacity, pick)
      ensures result != [] && Compare(order, result[0].score, MemoryOf(pick).score)
    {
      forall i | 0 <= i < nb
        ensures Dominated(order, bobs, pick[i].score)
      {
        ReachedDominated(order, reached, sortedBobs, bobs, pick[i]);
      }
      FirstBeats(order, nb, capacity, bobs, memories, result, pick);
    }
    if result != [] {
      var pick := FirstIsFound(order, nb, capacity, bobs, memories, result);
      forall i | 0 <= i < nb
        ensures pick[i] in reached
      {
        PrunedFrom(sortedBobs, BobScore, -1, pick[i]);
        SameElements(reached, sortedBobs);
      }
      assert FromBobs(reached, nb, capacity, pick);
    }
  }

  lemma FirstIsFound(order: Order, nb: nat, capacity: nat, bobs: seq<Bob>, memories: seq<Memory>, result: seq<Memory>)
    returns (pick: seq<Bob>)
    requires nb >= 1 && FoundBy(bobs, capacity, nb, memories) && SortOf(ByScore(order, MemoryScore), memories, result)
    requires result != []
    ensures FromBobs(bobs, nb, capacity, pick) && result[0] == MemoryOf(pick)
  {
    SameElements(memories, result);
    assert result[0] in memories;
    var k :| 0 <= k < |memories| && memories[k] == result[0];
    var idx := Choices(Capacities(bobs), capacity, 0, nb)[k];
    IndexScoreIsMemory(bobs, idx);
    pick := Select(bobs, idx);
  }

  ghost predicate IsBehind(n: nat, all: seq<Channel>, b: Bob, ch: Channel) {
    ch in all && Mirror(n, ch) == b
  }

  lemma ChannelBehind(n: nat, all: seq<Channel>, sorted: seq<Channel>, b: Bob) returns (ch: Channel)
    requires multiset(all) == multiset(sorted) && b in Mirrors(n, Pruned(sorted, ChannelScore, -1))
    ensures IsBehind(n, all, b, ch)
  {
    var kept := Pruned(sorted, ChannelScore, -1);
    var j :| 0 <= j < |kept| && Mirrors(n, kept)[j] == b;
    ch := kept[j];
    PrunedFrom(sorted, ChannelScore, -1, ch);
    SameElements(all, sorted);
  }

  /** The channels behind mirrored BoBs. */
  lemma ChannelsBehind(order: Order, n: nat, nb: nat, capacity: nat, all: seq<Channel>, sorted: seq<Channel>, bobs: seq<Bob>)
    returns (pick: seq<Channel>)
    requires SortOf(ByScore(order, ChannelScore), all, sorted)
    requires FromBobs(Mirrors(n, Pruned(sorted, ChannelScore, -1)), nb, capacity, bobs)
    ensures IsCandidate(n, nb, capacity, all, pick) && Mirrors(n, pick) == bobs
  {
    pick := [];
    for k := 0 to nb
      invariant |pick| == k && forall i | 0 <= i < k :: IsBehind(n, all, bobs[i], pick[i])
    {
      var ch := ChannelBehind(n, all, sorted, bobs[k]);
      pick := pick + [ch];
    }
    forall i | 0 <= i < nb
      ensures pick[i] in all && Mirrors(n, pick)[i] == bobs[i]
    {
      assert IsBehind(n, all, bobs[i], pick[i]);
    }
    assert Mirrors(n, pick) == bobs;
  }

  /** Pruning channels and then BoBs loses nothing: the first memory after sorting is no worse than
      any memory of the unpruned problem, it is one of them, and none is found exactly when there
      is none. */
  lemma PruningKeepsOptimum(order: Order, n: nat, nb: nat, capacity: nat, all: seq<Channel>, sorted: seq<Channel>,
                            sortedBobs: seq<Bob>, bobs: seq<Bob>, memories: seq<Memory>, result: seq<Memory>)
    requires nb >= 1 && Stages(order, n, all, sorted, sortedBobs, bobs)
    requires FoundBy(bobs, capacity, nb, memories) && SortOf(ByScore(order, MemoryScore), memories, result)
    ensures forall pick | IsCandidate(n, nb, capacity, all, pick) ::
              result != [] && Compare(order, result[0].score, MemoryOf(Mirrors(n, pick)).score)
    ensures result != [] ==> exists pick :: IsCandidate(n, nb, capacity, all, pick) && result[0] == MemoryOf(Mirrors(n, pick))
  {
    forall pick | IsCandidate(n, nb, capacity, all, pick)
      ensures result != [] && Compare(order, result[0].score, MemoryOf(Mirrors(n, pick)).score)
    {
      forall i | 0 <= i < nb
        ensures Dominated(order, bobs, Mirrors(n, pick)[i].score)
      {
        MirrorDominated(order, n, all, sorted, sortedBobs, bobs, pick[i]);
      }
      FirstBeats(order, nb, capacity, bobs, memories, result, Mirrors(n, pick));
    }
    if result != [] {
      var kept := Mirrors(n, Pruned(sorted, ChannelScore, -1));
      BobPruningKeepsOptimum(order, nb, capacity, kept, sortedBobs, bobs, memories, result);
      var found :| FromBobs(kept, nb, capacity, found) && result[0] == MemoryOf(found);
      var pick := ChannelsBehind(order, n, nb, capacity, all, sorted, found);
    }
  }

  lemma FirstOfSorted(order: Order, result: seq<Memory>, m: Memory)
    requires SortedBy(ByScore(order, MemoryScore), result) && m in result
    ensures Compare(order, result[0].score, m.score)
  {
    var j :| 0 <= j < |result| && result[j] == m;
    if j == 0 {
      CompareIsLex(order, m.score, m.score);
    } else {
      var leq := ByScore(order, MemoryScore);
      assert leq(result[0], result[j]);
      assert MemoryScore(result[0]) == result[0].score && MemoryScore(m) == m.score;
    }
  }

  lemma IndexIsChoice(bobs: seq<Bob>, capacity: nat, nb: nat, idx: seq<nat>)
    requires nb >= 1 && |idx| == nb && NonDecreasing(idx) && forall k | 0 <= k < |idx| :: idx[k] < |bobs|
    requires IndexScore(BobScores(bobs), idx).capacity == capacity
    ensures idx in Choices(Capacities(bobs), capacity, 0, nb)
  {
    IndexScoreIsMemory(bobs, idx);
    ChoicesExact(Capacities(bobs), capacity, 0, nb, idx);
  }

  lemma BestBeats(order: Order, nb: nat, capacity: nat, bobs: seq<Bob>, memories: seq<Memory>, result: seq<Memory>, idx: seq<nat>)
    requires nb >= 1 && FoundBy(bobs, capacity, nb, memories) && SortOf(ByScore(order, MemoryScore), memories, result)
    requires |idx| == nb && NonDecreasing(idx) && forall k | 0 <= k < |idx| :: idx[k] < |bobs|
    requires IndexScore(BobScores(bobs), idx).capacity == capacity
    ensures result != [] && Compare(order, result[0].score, IndexScore(BobScores(bobs), idx))
  {
    var choices := Choices(Capacities(bobs), capacity, 0, nb);
    IndexIsChoice(bobs, capacity, nb, idx);
    var k :| 0 <= k < |choices| && choices[k] == idx;
    SameElements(memories, result);
    IndexScoreIsMemory(bobs, idx);
    assert memories[k] in result;
    FirstOfSorted(order, result, memories[k]);
  }
}
