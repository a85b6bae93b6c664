/** Channels, BoBs (buffers on board) and memories of MemCAD: their constructors and clones. */
module MemCadParts {
  import opened MemCadScore
  import opened PowersOfTwo

  datatype DimmType = UDIMM | RDIMM | LRDIMM

  const MAX_NUM_CHANNELS_PER_BOB := 2
  const MAX_NUM_BOBS := 6
  const DIMM_PER_CHANNEL := 3

  /** The price of a DIMM by type and histogram index, and the energy per access of a channel by
      type, number of DIMMs, bandwidth and capacity (`calc_power`). */
  datatype Tables = Tables(price: (DimmType, nat) -> real, energy: (DimmType, nat, int, nat) -> int)

  datatype Channel = Channel(dimmType: DimmType, lowPower: bool, histogram: seq<nat>, dimms: nat, score: Score)

  datatype Bob = Bob(channels: seq<Channel>, score: Score)

  datatype Memory = Memory(bobs: seq<Bob>, score: Score)

  // ----- channels -----

  predicate IsDimmSize(cap: nat) {
    cap == 0 || cap == 4 || cap == 8 || cap == 16 || cap == 32 || cap == 64
  }

  /** The histogram entry of a DIMM size. */
  function SizeIndex(cap: nat): (i: nat)
    ensures i < 5
  {
    if cap <= 4 then 0 else if cap <= 8 then 1 else if cap <= 16 then 2 else if cap <= 32 then 3 else 4
  }

  /** The source computes that entry as (int)(log2(cap + 0.1)) - 2. */
  lemma IndexIsLogarithm(cap: nat)
    requires IsDimmSize(cap) && cap > 0
    ensures FloorLog2(cap) - 2 == SizeIndex(cap) && cap == 4 * Pow2(SizeIndex(cap))
  {
    assert Pow2(0) == 1 && Pow2(1) == 2 && Pow2(2) == 4 && Pow2(3) == 8 && Pow2(4) == 16 && Pow2(5) == 32 && Pow2(6) == 64;
    FloorLog2OfPow2(SizeIndex(cap) + 2);
  }

  function CountIndex(dimmCap: seq<nat>, i: int): nat
    requires AllSizes(dimmCap)
  {
    if dimmCap == [] then 0
    else
      var last := dimmCap[|dimmCap| - 1];
      CountIndex(dimmCap[..|dimmCap| - 1], i) + (if last > 0 && SizeIndex(last) == i then 1 else 0)
  }

  function Sum(s: seq<nat>): nat {
    if s == [] then 0 else Sum(s[..|s| - 1]) + s[|s| - 1]
  }

  function Populated(dimmCap: seq<nat>): nat {
    if dimmCap == [] then 0
    else Populated(dimmCap[..|dimmCap| - 1]) + (if dimmCap[|dimmCap| - 1] > 0 then 1 else 0)
  }

  /** The price of all DIMMs of a channel, DIMM by DIMM. */
  function PriceOf(price: (DimmType, nat) -> real, t: DimmType, dimmCap: seq<nat>): real
    requires AllSizes(dimmCap)
  {
    if dimmCap == [] then 0.0
    else
      var last := dimmCap[|dimmCap| - 1];
      PriceOf(price, t, dimmCap[..|dimmCap| - 1]) + (if last > 0 then price(t, SizeIndex(last)) else 0.0)
  }

  ghost predicate AllSizes(dimmCap: seq<nat>) {
    forall c | c in dimmCap :: IsDimmSize(c)
  }

  ghost function Histogram(dimmCap: seq<nat>): (h: seq<nat>)
    requires AllSizes(dimmCap)
    ensures |h| == 5 && forall k | 0 <= k < 5 :: h[k] == CountIndex(dimmCap, k)
  {
    seq(5, i => CountIndex(dimmCap, i))
  }

  /** The channel with given DIMMs. */
  ghost function ChannelOf(tables: Tables, dimmCap: seq<nat>, bandwidth: int, t: DimmType, lowPower: bool): Channel
    requires AllSizes(dimmCap)
  {
    Channel(t, lowPower, Histogram(dimmCap), Populated(dimmCap),
            Score(Sum(dimmCap), PriceOf(tables.price, t, dimmCap), bandwidth,
                  tables.energy(t, Populated(dimmCap), bandwidth, Sum(dimmCap))))
  }

  // ----- what the histogram alone determines -----

  /** x added n times: the products of the source as sums. */
  function Copies(n: nat, x: nat): nat {
    if n == 0 then 0 else Copies(n - 1, x) + x
  }

  function RealCopies(n: nat, x: real): real {
    if n == 0 then 0.0 else RealCopies(n - 1, x) + x
  }

  lemma {:induction false} RealCopiesIsProduct(n: nat, x: real)
    ensures RealCopies(n, x) == n as real * x
  {
    if n > 0 {
      RealCopiesIsProduct(n - 1, x);
    }
  }

  function HistDimms(hist: seq<nat>, n: nat): nat
    requires n <= |hist|
  {
    if n == 0 then 0 else HistDimms(hist, n - 1) + hist[n - 1]
  }

  function HistCapacity(hist: seq<nat>, n: nat): nat
    requires n <= |hist|
  {
    if n == 0 then 0 else HistCapacity(hist, n - 1) + Copies(hist[n - 1], 4 * Pow2(n - 1))
  }

  function HistCost(price: (DimmType, nat) -> real, t: DimmType, hist: seq<nat>, n: nat): real
    requires n <= |hist|
  {
    if n == 0 then 0.0 else HistCost(price, t, hist, n - 1) + RealCopies(hist[n - 1], price(t, n - 1))
  }

  lemma {:induction false} OneMore(price: (DimmType, nat) -> real, t: DimmType, hist: seq<nat>, k: nat, n: nat)
    requires k < |hist| && n <= |hist|
    ensures var more := hist[k := hist[k] + 1];
            && HistDimms(more, n) == HistDimms(hist, n) + (if k < n then 1 else 0)
            && HistCapacity(more, n) == HistCapacity(hist, n) + (if k < n then 4 * Pow2(k) else 0)
            && HistCost(price, t, more, n) == HistCost(price, t, hist, n) + (if k < n then price(t, k) else 0.0)
    decreases n
  {
    if n > 0 {
      OneMore(price, t, hist, k, n - 1);
    }
  }

  lemma {:induction false} EmptyHistogram(price: (DimmType, nat) -> real, t: DimmType, hist: seq<nat>, n: nat)
    requires n <= |hist| && forall i | 0 <= i < |hist| :: hist[i] == 0
    ensures HistDimms(hist, n) == 0 && HistCapacity(hist, n) == 0 && HistCost(price, t, hist, n) == 0.0
  {
    if n > 0 {
      EmptyHistogram(price, t, hist, n - 1);
    }
  }

  /** A channel whose fields all follow from its histogram, as the constructor leaves it. */
  ghost predicate Built(tables: Tables, ch: Channel) {
    && |ch.histogram| == 5
    && ch.dimms == HistDimms(ch.histogram, 5) <= DIMM_PER_CHANNEL
    && ch.score.capacity == HistCapacity(ch.histogram, 5)
    && ch.score.cost == HistCost(tables.price, ch.dimmType, ch.histogram, 5)
    && ch.score.energy == tables.energy(ch.dimmType, ch.dimms, ch.score.bandwidth, ch.score.capacity)
  }

  lemma AppendDimm(price: (DimmType, nat) -> real, t: DimmType, temp: seq<nat>, c: nat)
    requires IsDimmSize(c) && AllSizes(temp)
    ensures AllSizes(temp + [c])
    ensures forall i: int :: CountIndex(temp + [c], i) == CountIndex(temp, i) + (if c > 0 && i == SizeIndex(c) then 1 else 0)
    ensures Populated(temp + [c]) == Populated(temp) + (if c > 0 then 1 else 0)
    ensures Sum(temp + [c]) == Sum(temp) + c
    ensures c > 0 ==> c == 4 * Pow2(SizeIndex(c))
    ensures c > 0 ==> PriceOf(price, t, temp + [c]) == PriceOf(price, t, temp) + price(t, SizeIndex(c))
    ensures c == 0 ==> PriceOf(price, t, temp + [c]) == PriceOf(price, t, temp)
  {
    var next := temp + [c];
    assert next[..|next| - 1] == temp;
    if c > 0 {
      IndexIsLogarithm(c);
    }
  }

  lemma SizeAt(k: nat)
    requires k < 5
    ensures IsDimmSize(4 * Pow2(k)) && SizeIndex(4 * Pow2(k)) == k
  {
    Pow2Add(2, k);
    FloorLog2OfPow2(k + 2);
    assert Pow2(0) == 1 && Pow2(1) == 2 && Pow2(2) == 4 && Pow2(3) == 8 && Pow2(4) == 16;
  }

  /** The first DIMMs of a list summarised in a histogram. */
  ghost predicate Summarises(price: (DimmType, nat) -> real, t: DimmType, dimms: seq<nat>, hist: seq<nat>) {
    && AllSizes(dimms)
    && |hist| == 5
    && (forall k | 0 <= k < 5 :: hist[k] == CountIndex(dimms, k))
    && Populated(dimms) == HistDimms(hist, 5) <= |dimms|
    && Sum(dimms) == HistCapacity(hist, 5)
    && PriceOf(price, t, dimms) == HistCost(price, t, hist, 5)
  }

  lemma SummariseNext(price: (DimmType, nat) -> real, t: DimmType, dimms: seq<nat>, hist: seq<nat>, c: nat)
    requires Summarises(price, t, dimms, hist) && IsDimmSize(c)
    ensures c == 0 ==> Summarises(price, t, dimms + [c], hist)
    ensures c > 0 ==> var more := hist[SizeIndex(c) := hist[SizeIndex(c)] + 1];
                      && Summarises(price, t, dimms + [c], more)
                      && HistDimms(more, 5) == HistDimms(hist, 5) + 1 && HistCapacity(more, 5) == HistCapacity(hist, 5) + c
  {
    AppendDimm(price, t, dimms, c);
    if c > 0 {
      OneMore(price, t, hist, SizeIndex(c), 5);
    }
  }

  /** The body of the constructor's first loop. */
  method AddDimm(ghost price: (DimmType, nat) -> real, ghost t: DimmType, ghost front: seq<nat>,
                 cap: nat, num: nat, capacity: nat, histogram: seq<nat>)
    returns (num': nat, capacity': nat, histogram': seq<nat>)
    requires IsDimmSize(cap) && Summarises(price, t, front, histogram)
    requires num == HistDimms(histogram, 5) && capacity == HistCapacity(histogram, 5)
    ensures Summarises(price, t, front + [cap], histogram')
    ensures num' == HistDimms(histogram', 5) && capacity' == HistCapacity(histogram', 5)
  {
    SummariseNext(price, t, front, histogram, cap);
    if cap == 0 {
      return num, capacity, histogram;
    }
    IndexIsLogarithm(cap);
    var index := FloorLog2(cap) - 2;
    return num + 1, capacity + cap, histogram[index := histogram[index] + 1];
  }

  method FillHistogram(ghost price: (DimmType, nat) -> real, ghost t: DimmType, dimmCap: seq<nat>)
    returns (num: nat, capacity: nat, histogram: seq<nat>)
    requires AllSizes(dimmCap)
    ensures Summarises(price, t, dimmCap, histogram)
    ensures num == Populated(dimmCap) && capacity == Sum(dimmCap)
  {
    num, capacity, histogram := 0, 0, [0, 0, 0, 0, 0];
    EmptyHistogram(price, t, histogram, 5);
    ghost var front: seq<nat> := [];
    for i := 0 to |dimmCap|
      invariant front == dimmCap[..i] && Summarises(price, t, front, histogram)
      invariant num == HistDimms(histogram, 5) && capacity == HistCapacity(histogram, 5)
    {
      num, capacity, histogram := AddDimm(price, t, front, dimmCap[i], num, capacity, histogram);
      front := front + [dimmCap[i]];
    }
    assert front == dimmCap;
  }

  /** `channel_conf`: one pass over the DIMMs fills the histogram, a second over the histogram adds
      up the price. */
  method NewChannel(tables: Tables, dimmCap: seq<nat>, bandwidth: int, t: DimmType, lowPower: bool)
    returns (ch: Channel)
    requires |dimmCap| <= DIMM_PER_CHANNEL && AllSizes(dimmCap)
    ensures ch == ChannelOf(tables, dimmCap, bandwidth, t, lowPower) && Built(tables, ch)
  {
    var num, capacity, histogram := FillHistogram(tables.price, t, dimmCap);
    assert histogram == Histogram(dimmCap);
    var cost := PriceHistogram(tables, t, histogram);
    ch := Channel(t, lowPower, histogram, num,
                  Score(capacity, cost, bandwidth, tables.energy(t, num, bandwidth, capacity)));
  }

  lemma {:induction false} SummarisesAll(price: (DimmType, nat) -> real, t: DimmType, dimmCap: seq<nat>)
    requires AllSizes(dimmCap)
    ensures Summarises(price, t, dimmCap, Histogram(dimmCap))
    decreases |dimmCap|
  {
    if dimmCap == [] {
      EmptyHistogram(price, t, Histogram(dimmCap), 5);
    } else {
      var front, last := dimmCap[..|dimmCap| - 1], dimmCap[|dimmCap| - 1];
      SummarisesAll(price, t, front);
      SummariseNext(price, t, front, Histogram(front), last);
      assert front + [last] == dimmCap;
      var hist := if last == 0 then Histogram(front) else Histogram(front)[SizeIndex(last) := Histogram(front)[SizeIndex(last)] + 1];
      assert Histogram(dimmCap) == hist;
    }
  }

  /** The price of one DIMM by its size; an empty slot costs nothing. */
  ghost predicate PricedAt(price: (DimmType, nat) -> real, t: DimmType, cap: nat, cost: real) {
    && (cap == 0 ==> cost == 0.0) && (cap == 4 ==> cost == price(t, 0)) && (cap == 8 ==> cost == price(t, 1))
    && (cap == 16 ==> cost == price(t, 2)) && (cap == 32 ==> cost == price(t, 3)) && (cap == 64 ==> cost == price(t, 4))
  }

  lemma OneDimm(price: (DimmType, nat) -> real, t: DimmType, front: seq<nat>, c: nat, next: seq<nat>, cost: real, k: nat)
    requires AllSizes(front) && IsDimmSize(c) && PricedAt(price, t, c, cost) && next == front + [c] && k < 5
    ensures AllSizes(next)
    ensures Sum(next) == Sum(front) + c && PriceOf(price, t, next) == PriceOf(price, t, front) + cost
    ensures Populated(next) == Populated(front) + (if c > 0 then 1 else 0)
    ensures CountIndex(next, k) == CountIndex(front, k) + (if c == 4 * Pow2(k) then 1 else 0)
  {
    AppendDimm(price, t, front, c);
    assert Pow2(0) == 1 && Pow2(1) == 2 && Pow2(2) == 4 && Pow2(3) == 8 && Pow2(4) == 16;
  }

  lemma NoDimms(price: (DimmType, nat) -> real, t: DimmType, k: nat)
    ensures Sum([]) == 0 && PriceOf(price, t, []) == 0.0 && Populated([]) == 0 && CountIndex([], k) == 0
  {}

  lemma DimmSums(price: (DimmType, nat) -> real, t: DimmType, a: nat, b: nat, c: nat, pa: real, pb: real, pc: real, k: nat)
    requires IsDimmSize(a) && IsDimmSize(b) && IsDimmSize(c) && k < 5
    requires PricedAt(price, t, a, pa) && PricedAt(price, t, b, pb) && PricedAt(price, t, c, pc)
    ensures AllSizes([a, b, c]) && Sum([a, b, c]) == a + b + c && PriceOf(price, t, [a, b, c]) == pa + pb + pc
    ensures Populated([a, b, c]) == (if a > 0 then 1 else 0) + (if b > 0 then 1 else 0) + (if c > 0 then 1 else 0)
    ensures CountIndex([a, b, c], k)
            == (if a == 4 * Pow2(k) then 1 else 0) + (if b == 4 * Pow2(k) then 1 else 0) + (if c == 4 * Pow2(k) then 1 else 0)
  {
    NoDimms(price, t, k);
    OneDimm(price, t, [], a, [a], pa, k);
    OneDimm(price, t, [a], b, [a, b], pb, k);
    OneDimm(price, t, [a, b], c, [a, b, c], pc, k);
  }

  /** The figures of a channel, DIMM by DIMM. */
  lemma ThreeDimms(tables: Tables, a: nat, b: nat, c: nat, bandwidth: int, t: DimmType, lowPower: bool, pa: real, pb: real, pc: real)
    requires IsDimmSize(a) && IsDimmSize(b) && IsDimmSize(c)
    requires PricedAt(tables.price, t, a, pa) && PricedAt(tables.price, t, b, pb) && PricedAt(tables.price, t, c, pc)
    ensures AllSizes([a, b, c])
    ensures var ch := ChannelOf(tables, [a, b, c], bandwidth, t, lowPower);
            && ch.dimmType == t && ch.lowPower == lowPower && ch.score.bandwidth == bandwidth
            && ch.score.capacity == a + b + c && ch.score.cost == pa + pb + pc
            && ch.dimms == (if a > 0 then 1 else 0) + (if b > 0 then 1 else 0) + (if c > 0 then 1 else 0)
            && ch.score.energy == tables.energy(t, ch.dimms, bandwidth, a + b + c)
            && |ch.histogram| == 5
            && forall k: nat | k < 5 :: ch.histogram[k]
                 == (if a == 4 * Pow2(k) then 1 else 0) + (if b == 4 * Pow2(k) then 1 else 0) + (if c == 4 * Pow2(k) then 1 else 0)
  {
    forall k: nat | k < 5 {
      DimmSums(tables.price, t, a, b, c, pa, pb, pc, k);
    }
    DimmSums(tables.price, t, a, b, c, pa, pb, pc, 0);
  }

  /** Every channel is built as its histogram says. */
  lemma ChannelOfBuilt(tables: Tables, dimmCap: seq<nat>, bandwidth: int, t: DimmType, lowPower: bool)
    requires |dimmCap| <= DIMM_PER_CHANNEL && AllSizes(dimmCap)
    ensures Built(tables, ChannelOf(tables, dimmCap, bandwidth, t, lowPower))
  {
    SummarisesAll(tables.price, t, dimmCap);
  }

  method PriceHistogram(tables: Tables, t: DimmType, histogram: seq<nat>) returns (cost: real)
    requires |histogram| == 5
    ensures cost == HistCost(tables.price, t, histogram, 5)
  {
    cost := 0.0;
    for i := 0 to 5
      invariant cost == HistCost(tables.price, t, histogram, i)
    {
      RealCopiesIsProduct(histogram[i], tables.price(t, i));
      cost := cost + histogram[i] as real * tables.price(t, i);
    }
  }

  lemma UnrollStarts(price: (DimmType, nat) -> real, t: DimmType, hist: seq<nat>)
    requires |hist| == 5
    ensures Unrolled(price, t, [], hist, 0, 0)
  {}

  /** A histogram entry is unrolled when all its DIMMs are. */
  lemma UnrollRow(price: (DimmType, nat) -> real, t: DimmType, temp: seq<nat>, hist: seq<nat>, i: nat)
    requires |hist| == 5 && i < 5 && Unrolled(price, t, temp, hist, i, hist[i])
    ensures Unrolled(price, t, temp, hist, i + 1, 0)
  {}

  method UnrollHistogram(ghost price: (DimmType, nat) -> real, ghost t: DimmType, hist: seq<nat>)
    returns (temp: seq<nat>)
    requires |hist| == 5
    ensures Unrolled(price, t, temp, hist, 5, 0)
  {
    temp := [];
    var size := 4;
    UnrollStarts(price, t, hist);
    for i := 0 to 5
      invariant size == 4 * Pow2(i)
      invariant Unrolled(price, t, temp, hist, i, 0)
    {
      temp := UnrollSize(price, t, temp, hist, i, size);
      UnrollRow(price, t, temp, hist, i);
      size := size * 2;
    }
  }

  /** The inner loop: one DIMM for each that is counted. */
  method UnrollSize(ghost price: (DimmType, nat) -> real, ghost t: DimmType, before: seq<nat>, hist: seq<nat>, i: nat, size: nat)
    returns (temp: seq<nat>)
    requires |hist| == 5 && i < 5 && size == 4 * Pow2(i) && Unrolled(price, t, before, hist, i, 0)
    ensures Unrolled(price, t, temp, hist, i, hist[i])
  {
    temp := before;
    SizeAt(i);
    for j := 0 to hist[i]
      invariant Unrolled(price, t, temp, hist, i, j)
    {
      UnrollNext(price, t, temp, hist, i, j, size);
      temp := temp + [size];
    }
  }

  /** `clone` of a channel rebuilds it from its histogram: the copy is equal in every field. */
  method CloneChannel(tables: Tables, origin: Channel) returns (copy: Channel)
    requires Built(tables, origin)
    ensures copy == origin
  {
    var temp := UnrollHistogram(tables.price, origin.dimmType, origin.histogram);
    copy := NewChannel(tables, temp, origin.score.bandwidth, origin.dimmType, origin.lowPower);
    assert copy.histogram == origin.histogram;
  }

  /** The DIMM list rebuilt from the first i entries of a histogram and j more of the next. */
  ghost predicate Unrolled(price: (DimmType, nat) -> real, t: DimmType, temp: seq<nat>, hist: seq<nat>, i: nat, j: nat)
    requires i <= |hist|
  {
    && AllSizes(temp)
    && |temp| == Populated(temp) == HistDimms(hist, i) + j
    && (forall k | 0 <= k < |hist| :: CountIndex(temp, k) == if k < i then hist[k] else if k == i then j else 0)
    && Sum(temp) == HistCapacity(hist, i) + Copies(j, 4 * Pow2(i))
    && PriceOf(price, t, temp) == HistCost(price, t, hist, i) + RealCopies(j, price(t, i))
  }

  lemma UnrollNext(price: (DimmType, nat) -> real, t: DimmType, temp: seq<nat>, hist: seq<nat>, i: nat, j: nat, size: nat)
    requires |hist| == 5 && i < 5 && size == 4 * Pow2(i) && IsDimmSize(size) && SizeIndex(size) == i
    requires Unrolled(price, t, temp, hist, i, j)
    ensures Unrolled(price, t, temp + [size], hist, i, j + 1)
  {
    AppendDimm(price, t, temp, size);
  }

  // ----- BoBs and memories -----

  function ChannelScores(channels: seq<Channel>): (s: seq<Score>)
    ensures |s| == |channels|
  {
    seq(|channels|, i requires 0 <= i < |channels| => channels[i].score)
  }

  function BobScores(bobs: seq<Bob>): (s: seq<Score>)
    ensures |s| == |bobs|
  {
    seq(|bobs|, i requires 0 <= i < |bobs| => bobs[i].score)
  }

  function BobOf(channels: seq<Channel>): Bob {
    Bob(channels, Total(ChannelScores(channels)))
  }

  function MemoryOf(bobs: seq<Bob>): Memory {
    Memory(bobs, Total(BobScores(bobs)))
  }

  /** `bob_conf`: adds up the channels. */
  method NewBob(channels: seq<Channel>) returns (bob: Bob)
    requires |channels| <= MAX_NUM_CHANNELS_PER_BOB
    ensures bob == BobOf(channels)
  {
    var slots, score := [], ZERO;
    for i := 0 to |channels|
      invariant slots == channels[..i]
      invariant score == Total(ChannelScores(channels[..i]))
    {
      slots := slots + [channels[i]];
      assert ChannelScores(channels[..i + 1])[..i] == ChannelScores(channels[..i]);
      score := Plus(score, channels[i].score);
    }
    assert channels[..|channels|] == channels;
    bob := Bob(slots, score);
  }

  /** `clone` of a BoB rebuilds it from its channels. */
  method CloneBob(origin: Bob) returns (copy: Bob)
    requires |origin.channels| <= MAX_NUM_CHANNELS_PER_BOB && origin == BobOf(origin.channels)
    ensures copy == origin
  {
    var temp := [];
    for i := 0 to |origin.channels|
      invariant temp == origin.channels[..i]
    {
      temp := temp + [origin.channels[i]];
    }
    assert temp == origin.channels;
    copy := NewBob(temp);
  }

  /** `memory_conf`: adds up the BoBs. */
  method NewMemory(bobs: seq<Bob>) returns (memory: Memory)
    requires |bobs| <= MAX_NUM_BOBS
    ensures memory == MemoryOf(bobs)
  {
    var slots, score := [], ZERO;
    for i := 0 to |bobs|
      invariant slots == bobs[..i]
      invariant score == Total(BobScores(bobs[..i]))
    {
      slots := slots + [bobs[i]];
      assert BobScores(bobs[..i + 1])[..i] == BobScores(bobs[..i]);
      score := Plus(score, bobs[i].score);
    }
    assert bobs[..|bobs|] == bobs;
    memory := Memory(slots, score);
  }

  // ----- conservation -----

  /** The channels of a memory, BoB by BoB. */
  function AllChannels(bobs: seq<Bob>): seq<Channel> {
    if bobs == [] then [] else AllChannels(bobs[..|bobs| - 1]) + bobs[|bobs| - 1].channels
  }

  lemma PlusAssociates(a: Score, b: Score, c: Score)
    ensures Plus(Plus(a, b), c) == Plus(a, Plus(b, c))
    ensures Plus(a, ZERO) == a == Plus(ZERO, a)
    ensures Plus(a, b) == Plus(b, a)
  {}

  lemma TotalAppend(s: seq<Score>, x: Score)
    ensures Total(s + [x]) == Plus(Total(s), x)
  {
    assert (s + [x])[..|s|] == s;
  }

  lemma {:induction false} TotalConcat(a: seq<Score>, b: seq<Score>)
    ensures Total(a + b) == Plus(Total(a), Total(b))
    decreases |b|
  {
    if b == [] {
      assert a + b == a;
      PlusAssociates(Total(a), ZERO, ZERO);
    } else {
      var front, last := b[..|b| - 1], b[|b| - 1];
      assert a + b == (a + front) + [last];
      TotalConcat(a, front);
      TotalAppend(a + front, last);
      PlusAssociates(Total(a), Total(front), last);
    }
  }

  lemma ScoresOfBobs(front: seq<Bob>, last: Bob)
    ensures BobScores(front + [last]) == BobScores(front) + [last.score]
    ensures AllChannels(front + [last]) == AllChannels(front) + last.channels
  {
    assert (front + [last])[..|front|] == front;
  }

  lemma ScoresConcat(a: seq<Channel>, b: seq<Channel>)
    ensures ChannelScores(a + b) == ChannelScores(a) + ChannelScores(b)
  {}

  /** One more channel, or one more BoB, adds its figures; nothing else contributes to them. */
  lemma FiguresAdd(channels: seq<Channel>, ch: Channel, bobs: seq<Bob>, b: Bob)
    ensures var (s, more) := (BobOf(channels).score, BobOf(channels + [ch]).score);
            && more.capacity == s.capacity + ch.score.capacity && more.cost == s.cost + ch.score.cost
            && more.bandwidth == s.bandwidth + ch.score.bandwidth && more.energy == s.energy + ch.score.energy
    ensures var (s, more) := (MemoryOf(bobs).score, MemoryOf(bobs + [b]).score);
            && more.capacity == s.capacity + b.score.capacity && more.cost == s.cost + b.score.cost
            && more.bandwidth == s.bandwidth + b.score.bandwidth && more.energy == s.energy + b.score.energy
    ensures BobOf([]).score == MemoryOf([]).score == Score(0, 0.0, 0, 0)
  {
    assert ChannelScores(channels + [ch]) == ChannelScores(channels) + [ch.score];
    assert BobScores(bobs + [b]) == BobScores(bobs) + [b.score];
    TotalAppend(ChannelScores(channels), ch.score);
    TotalAppend(BobScores(bobs), b.score);
  }

  /** Capacity, cost, bandwidth and energy of a memory are the sums over all its channels. */
  lemma {:induction false} MemoryConserves(bobs: seq<Bob>)
    requires forall b | b in bobs :: b == BobOf(b.channels)
    ensures MemoryOf(bobs).score == Total(ChannelScores(AllChannels(bobs)))
  {
    if bobs != [] {
      var front, last := bobs[..|bobs| - 1], bobs[|bobs| - 1];
      assert bobs == front + [last];
      MemoryConserves(front);
      ScoresOfBobs(front, last);
      TotalAppend(BobScores(front), last.score);
      ScoresConcat(AllChannels(front), last.channels);
      TotalConcat(ChannelScores(AllChannels(front)), ChannelScores(last.channels));
      assert last in bobs;
    }
  }
}
