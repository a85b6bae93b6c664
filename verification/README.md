# CACTI: searches and integer foundations

CACTI estimates the delay, energy and area of caches and memories. Most of it is circuit physics; around
the physics stand a handful of discrete searches that decide which design is reported. This project models
those searches and the integer code they rest on, and proves what the reported design is worth.

* **MemCAD** (`MemCad*.dfy`) looks for memories of a given capacity in three stages: channels, BoBs (buffers on
  board) and memories. Every stage enumerates, sorts by a configurable lexicographic metric and keeps one
  representative per capacity. For BoBs of equal channels this loses nothing (`PruningKeepsOptimum`,
  `SolveMirrored`), and the list that is left has the best memory for every combination of BoB capacities
  (`SearchRanks`). For BoBs of one bandwidth the pruning of BoBs loses nothing, and the pruning of channels loses
  nothing exactly when it covers every BoB (`NoLossIffCovered`, with the guards of `HarmlessCovers`); `SolveEqualBandwidth` carries
  both to the result. The enumerations reach every multiset exactly once.
* **The uniform-cache search** (`Uca*.dfy`) sweeps all partitions in parallel, merges and filters the valid
  arrays, and picks one. The merged result is proved to be the sequential one for every number of threads;
  the choice is an optimum of the whole grid, with the exact condition under which the weighted walk misses it,
  whether by choosing a dearer candidate or by choosing none;
  and a run that returns has freed exactly the arrays it does not return.
* **The NUCA grid search** (`Nuca.dfy`) visits every factorisation of the bank count. Its nested sums have closed
  forms, and the recorded grid is the least-latency one with the fewest columns among equals.
* **The H-tree walk** (`Htree.dfy`) counts links, lengths and bus widths of the three-way traversal.
* **Integer foundations and input checking** (`BasicCircuit.dfy`, `Leakage.dfy`, `InputCheck.dfy`, `MemoryBus.dfy`):
  logarithm, power-of-two test, binomials and the leakage sums over them, the configuration check, and the
  tiling of banks.

Objects that the source updates in place are classes here (`Search`, `Worker`, `MinValues`, `InputParameter`, and `Heap`
for the `mem_array` allocations); its loops are loops. Specification functions such as `Choices`, `Picks`, `Pruned`,
`Rounds` or `Grids` say what a loop has to produce, and lemmas say what that means without reference to the loop.

Conventions. Metrics are `real`; division by a minimum needs it to be non-zero, so `calculate_time` and `calc_power`
are deterministic function parameters, and results of `calculate_time` are assumed positive. `std::sort` and
`list::sort` may return any arrangement the comparison allows: the pruning theorems hold for all of them. The MemCAD
comparisons return true on ties, which `std::sort` does not permit; the order is modelled as the total preorder they
compute. Energies in MemCAD are whole multiples of a quantum larger than EPS, because the tolerance test is not
transitive otherwise (`ToleranceIsNotTransitive`).

Where the code departs from what its names and comments suggest, the model follows the code:

* `combination(n, m)` is m + 1 when m >= n, so the loops that run up to the diagonal add surplus terms
  (`Combination`, `ParallelGateLeakage`, `SubthresholdStack`).
* The parallel gate-leakage branch does not divide by the number of input states; the series branch does.
* The weighted walk of `find_optimal_uca` never looks at the second candidate when it erases the first. It can then
  choose a dearer one (`SecondIsSteppedOver`) or report that none qualifies (`OnlyChoiceIsSteppedOver`); `ChoiceIsOptimal` and
  `WeightedOptimum` say exactly when. On a list of one it moves past the end (`PastTheEnd`).
* Both loops over lists rely on the iterator at an end. `filter_data_arr` steps back from the head and forward again;
  the model takes the list as circular there, as the loop makes sense only so. `find_optimal_uca` can step forward
  from the end of an emptied list; the model calls that outcome undefined.
* The search and bank trees of `htree2.cc` also double the bus width on horizontal links when they route searches
  (`Doublings`), although the comment says only vertical branches do.
* `error_checking` divides by zero on a fully associative request smaller than one line, and on a set-associative one
  whose set bytes are a multiple of 2^32 (`ZeroDivision`, with `SmallerThanALine` and `VanishingSets`). It counts the bytes of a
  set modulo 2^32 (`SetsFillTheCache`, `WrappedSets`), and a second call accepts again unless the port count wraps
  (`SecondCall`, `SecondCallRejects`).
* With equal bandwidth, channels are pruned by capacity before their bandwidth is looked at. With two channels per BoB
  that can remove every solution (`ChannelPruningLosesEqualBandwidth`): 20 GB of unbuffered DDR4 can be built of 8 and 12 GB
  at 1066, but of all the channels listed for it, sorted by bandwidth first, those of 8 GB are kept only at 1200.
* `channel_conf` assigns zero to its parameter `bandwidth`, which hides the member of that name; the member keeps the value
  it was constructed with, and so does the model.
* The NUCA search resets its best latency between networks but not its rows and columns, not even when the number of
  banks changes. Each entry is nevertheless the optimum of its own network and bank count, unless no grid of these beats
  the initial latency (`SearchNetworks`); then it may be a grid of another number of banks.
* `error_checking` accepts a request without output bits. The data sweep then starts Nspd at zero and never ends
  (`SweepEnds`).

## Model

| member | source | states |
|---|---|---|
| BasicCircuit.Log2 | cacti/basic_circuit.cc:41-58 | returns the exponent k with 2^k <= n < 2^(k+1); zero is the process exit |
| BasicCircuit.IsPow2 | cacti/basic_circuit.cc:61-75 | true exactly on 2^k, for every signed argument |
| BasicCircuit.LogStepsAtPowers | cacti/basic_circuit.cc:73 | the floor logarithm changes between v-1 and v exactly at powers of two |
| BasicCircuit.Factorial | cacti/basic_circuit.cc:423-429 | the product m(m+1)...n, and m on an empty range |
| BasicCircuit.ProductIsBinomial | cacti/basic_circuit.cc:431-436 | the falling product is the Pascal binomial times (n-m)!, for all m < n |
| BasicCircuit.Combination | cacti/basic_circuit.cc:431-436 | exact division giving the binomial coefficient if and only if m < n or n = m = 0; m+1 otherwise |
| Binomial.Absorption | cacti/basic_circuit.cc:431-436 | k C(n,k) = n C(n-1,k-1) and (n-k) C(n,k) = n C(n-1,k) from Pascal's recurrence |
| Binomial.BinomialTheorem | cacti/basic_circuit.cc:640-648 | the binomial-weighted sum of powers of x is (1+x)^n |
| Leakage.SeriesGateLeakage | cacti/basic_circuit.cc:735-758 | one closed form leak n (1 + 2^(n-1)) / 2^(n+1) for every fan-in n >= 1, over both branches |
| Leakage.ParallelGateLeakage | cacti/basic_circuit.cc:742-748 | leak n (2^(n-1) + n): not divided by the states, with the surplus of the diagonal term |
| Leakage.SubthresholdStack | cacti/basic_circuit.cc:640-648 | the intended ((1+f)^n - 1)/f plus the surplus n f^(n-1), over 2^n states |
| Nuca.SumHops | cacti/nuca.cc:287-305 | the two inner loops total hops and latencies over all banks of the grid |
| Nuca.GridClosed | cacti/nuca.cc:287-305 | closed forms of the four totals for every r and c |
| Nuca.TotalsClosed | cacti/nuca.cc:287-305 | twice the totals are (r+c) n and (ver(r-1)+hor(c-1)) n for n banks |
| Nuca.GridLatency | cacti/nuca.cc:287-314 | average hops (r+c)/2 and net latency ver(r-1)+hor(c-1)+delay(r+c)+const |
| Nuca.LatencyOverBanks | cacti/nuca.cc:287-314 | n times that latency is twice the summed wire and router delays to every bank plus n bank accesses |
| Nuca.GridSearch | cacti/nuca.cc:275-347 | the loop that advances its own variable folds the strict comparison over exactly the divisor grids, in order |
| Nuca.GridsFactor | cacti/nuca.cc:275-277 | every visited grid is a factorisation, by strictly increasing columns |
| Nuca.FactorsInGrids | cacti/nuca.cc:275-277 | every factorisation is visited |
| Nuca.ScanIsFirstMinimum | cacti/nuca.cc:332-342 | the fold keeps the first of the least-latency grids, or the start if none is better |
| Nuca.GridSearchOptimal | cacti/nuca.cc:275-342 | rows x columns = banks, no factorisation is faster, none with fewer columns is as fast; or the old record stands |
| Nuca.BeatenIfBeatable | cacti/nuca.cc:332-342 | the search ends on the optimum if and only if some factorisation beats the record it starts from |
| Nuca.SearchNetworks | cacti/nuca.cc:249-395 | over all bank counts, wire types and routers every entry is the optimum of its own case if any of its grids is below 10^30, or below 9999999 for the first case; otherwise the previous record stands, as rows and columns are never reset |
| Nuca.EntryMeans | cacti/nuca.cc:169-393 | the same for one entry, and what it is otherwise: the rows and columns of the entry before, under the initial latency |
| Nuca.BalancedGrid | cacti/nuca.cc:275-342 | 2^k banks and equal hop latencies give 2^(k/2) columns and 2^(k-k/2) rows, k/2 rounded down |
| Nuca.BalancedEntry | cacti/nuca.cc:275-342 | so does every entry the search records for such a network, from any start that some grid beats |
| Nuca.CounterReaches | cacti/nuca.cc:202-208 | with 32-bit wrap-around the loop over i reaches assoc if and only if assoc is a power of two |
| Nuca.DoubleUntil | cacti/nuca.cc:202-208 | it terminates after n doublings with assoc = 2^(n+1) |
| Nuca.ScaleMinBankSize | cacti/nuca.cc:202-208 | MIN_BANKSIZE is multiplied by assoc/2 modulo 2^32, and unchanged for assoc <= 2 |
| MemoryBus.BankTiling | cacti/memorybus.cc:200-201 | the tiling fits, is complete if and only if the total is a power of two, and has ver <= hor <= 2 ver without column tiers; hor^2 <= 2 n < 4 hor^2 and total < 2 hor ver leave one power of two for each count |
| MemoryBus.LogOfQuotient | cacti/memorybus.cc:200-201 | rounding down to a power of two before or after dividing by one is the same |
| MemoryBus.TilingFits | cacti/memorybus.cc:200-201 | rounding both factors down to powers of two loses banks unless the total is a power of two |
| Htree.Walk | cacti/htree2.cc:262-418 | exactly h0 horizontal and v0 vertical links in max(h0,v0) steps, in the documented order, with halving lengths, the bus of every link and the final width |
| Htree.WalkDown | cacti/htree2.cc:317-418 | the same from any h and v; the last branch is reached only with h = 0 |
| Htree.TakeStep | cacti/htree2.cc:323-402 | one round keeps counts, lengths, order and widths in step, whichever branch it takes |
| Htree.HalvingTotal | cacti/htree2.cc:330-356 | the wires of one direction total the whole times 1 - 2^-n |
| Htree.LinkWidths | cacti/htree2.cc:363-405 | the bus of the k-th horizontal and vertical link as a power of two times the root bus, for all four kinds of tree |
| Htree.FinalWidth | cacti/htree2.cc:366-369 | a plain bank tree ends 2^v times as wide; the other three kinds of tree likewise in closed form |
| InputCheck.InputParameter.ErrorChecking | cacti/io.cc:1946-2195 | verdict, ports and every derived member after the call, accepted or not, as functions of the request and the members before |
| InputCheck.InputParameter.FinishChecking | cacti/io.cc:2141-2195 | the same for the part after the associativity is known |
| InputCheck.InputParameter.CheckSize | cacti/io.cc:1950-2064 | up to the bank size: accepted exactly on well-formed sizes, with the two members written so far |
| InputCheck.AcceptedWhen | cacti/io.cc:1968-2186 | exactly the accepted requests, by bytes of a bank, ways, bytes of a set and sets: limits on feature size, temperature, ports, cell types and sizes as numbers |
| InputCheck.AcceptedMembers | cacti/io.cc:1950-2192 | after acceptance: mode 0 neither fast nor sequential, 1 sequential, 2 fast; data_assoc 1 for sequential or fully associative requests and the ways otherwise; sets, ports and power gating |
| InputCheck.RejectedMembers | cacti/io.cc:1950-2186 | otherwise: all members but the power gating as if accepted when only the temperature is illegal, and nothing but two switches changed in every other case |
| InputCheck.OrdinaryCache | cacti/io.cc:1946-2195 | a 32 KB cache of 8 ways is accepted with 64 sets |
| InputCheck.SecondCall | cacti/io.cc:1946-2195 | a second call changes no port and no derived member, and accepts again if and only if the port count does not wrap to zero |
| InputCheck.SecondCallRejects | cacti/io.cc:2032-2036 | an accepted CAM that is rejected when checked again |
| InputCheck.AcceptedShape | cacti/io.cc:2034-2144 | accepted set-associative requests have powers of two as ways and banks, banks of at least 64 bytes and two sets |
| InputCheck.SetsFillTheCache | cacti/io.cc:2141-2174 | sets x ways x line x banks <= cache size with less than one set a bank left over, if and only if the bytes of a set fit in 32 bits |
| InputCheck.WrappedSets | cacti/io.cc:2141-2174 | an accepted cache whose sets do not fit it |
| InputCheck.SingleSet | cacti/io.cc:2116-2174 | accepted fully associative requests have one set holding all lines |
| InputCheck.ZeroDivision | cacti/io.cc:2116-2141 | on every request, 3D memories included: division by zero if and only if the request is well formed and a fully associative bank is smaller than a line, or power-of-two ways make set bytes a multiple of 2^32 |
| InputCheck.SmallerThanALine | cacti/io.cc:2116-2141 | 64 bytes in lines of 128 divide by zero |
| InputCheck.VanishingSets | cacti/io.cc:2129-2141 | 65536 ways of 65536 bytes divide by zero |
| MemCadScore.CompareIsLex | cacti/memcad.cc:20-83 | the three-way switch is the lexicographic order on capacity and additive keys |
| MemCadScore.CompareMeans | cacti/memcad.cc:31-83 | of equal capacity, one configuration is preferred if and only if it is cheaper, takes less energy or has more bandwidth in the first metric they differ in, or differs in none |
| MemCadScore.ComparePreorder | cacti/memcad.cc:261-324 | the comparison, true on ties, is total and transitive for every choice of metrics |
| MemCadScore.CompareAdds | cacti/memcad.cc:472-535 | the comparison is kept when configurations are added |
| MemCadScore.CompareScales | cacti/memcad.cc:380-390 | and when a channel is mirrored n times |
| MemCadScore.ToleranceIsNotTransitive | cacti/memcad.cc:40 | ties within EPS do not chain on arbitrary energies |
| MemCadParts.NewChannel | cacti/memcad_parameters.cc:276-311 | histogram, count, capacity and price equal the sums over the DIMMs themselves |
| MemCadParts.IndexIsLogarithm | cacti/memcad_parameters.cc:291 | the logarithm formula is the histogram index of every DIMM size |
| MemCadParts.ThreeDimms | cacti/memcad_parameters.cc:276-311 | capacity, price, count, histogram and energy arguments of a channel of any three DIMMs, each priced by its size |
| MemCadParts.CloneChannel | cacti/memcad_parameters.cc:338-352 | the channel rebuilt from the histogram alone equals the original in every field |
| MemCadParts.NewBob | cacti/memcad_parameters.cc:371-391 | figures are the sums over the channels |
| MemCadParts.CloneBob | cacti/memcad_parameters.cc:393-405 | the clone is equal, channel sequence included |
| MemCadParts.NewMemory | cacti/memcad_parameters.cc:427-446 | figures are the sums over the BoBs |
| MemCadParts.FiguresAdd | cacti/memcad_parameters.cc:382-446 | one more channel or BoB adds exactly its own four figures, starting from zero |
| MemCadParts.MemoryConserves | cacti/memcad_parameters.cc:371-446 | capacity, cost, bandwidth and energy of a memory are the sums over all its channels |
| MemCadEnumerate.ChoicesExact | cacti/memcad.cc:434-468 | exactly the non-decreasing index lists with the requested capacity; the cut loses none |
| MemCadEnumerate.ChoicesSorted | cacti/memcad.cc:434-468 | in strict lexicographic order |
| MemCadEnumerate.LexSortedDistinct | cacti/memcad.cc:434-468 | hence none twice |
| MemCadEnumerate.PicksExact | cacti/memcad.cc:348-375 | exactly the multisets of nb channels of a run |
| MemCadEnumerate.PicksSorted | cacti/memcad.cc:348-375 | in strict lexicographic order |
| MemCadEnumerate.PicksCount | cacti/memcad.cc:348-375 | there are C(m+nb-1, nb) of them in a run of m |
| MemCadRuns.FindRuns | cacti/memcad.cc:394-406 | start and end indices cut the list into maximal runs of equal bandwidth |
| MemCadRuns.RunPicksExact | cacti/memcad.cc:391-415 | all runs together give exactly the multisets of channels of equal bandwidth |
| MemCadRuns.RunPicksSorted | cacti/memcad.cc:391-415 | in strict lexicographic order across runs |
| MemCadRuns.RunPicksCount | cacti/memcad.cc:391-415 | as many as the sum over the runs of C(m+nb-1, nb) |
| MemCadMirror.Representative | cacti/memcad.cc:86-106 | in a sorted list the kept element of a capacity is no worse than any other of it |
| MemCadMirror.MirrorDominated | cacti/memcad.cc:380-390 | for every channel before pruning a pruned BoB has the capacity of its mirrored BoB and is no worse |
| MemCadMirror.Replace | cacti/memcad.cc:434-468 | exchanging every BoB for its representative gives an index list of the search, no worse |
| MemCadMirror.BobPruningKeepsOptimum | cacti/memcad.cc:326-346 | wherever the BoBs come from, the first memory is no worse than any of unpruned BoBs, and is one of them |
| MemCadMirror.PruningKeepsOptimum | cacti/memcad.cc:591-598 | for mirrored BoBs both prunings together keep the optimum over all unpruned channels, and find none only if none exists |
| MemCadSearch.Search.PruneChannels | cacti/memcad.cc:86-106 | keeps a clone whenever the capacity differs from the last kept |
| MemCadSearch.Search.PruneBobs | cacti/memcad.cc:326-346 | the same for BoBs |
| MemCadSearch.Search.FindBobsRecursive | cacti/memcad.cc:348-375 | emits the BoBs of the remaining multisets in order and restores the shared index list |
| MemCadSearch.Search.FindMemsRecursive | cacti/memcad.cc:434-468 | emits the memories of the remaining index lists in order and restores the shared index list |
| MemCadSearch.Search.FindMirroredBobs | cacti/memcad.cc:380-390 | one BoB of copies for each channel, sorted and pruned |
| MemCadSearch.Search.FindEqualBandwidthBobs | cacti/memcad.cc:391-424 | before pruning every equal-bandwidth multiset is reached exactly once |
| MemCadSearch.Search.FindAllMemories | cacti/memcad.cc:537-567 | the memories of exactly the requested capacity, sorted; true if and only if there is one |
| MemCadSearch.RunPicksReachAll | cacti/memcad.cc:391-415 | completeness, distinctness and number of the reached multisets |
| MemCadSearch.SolveMirrored | cacti/memcad.cc:591-598 | from the channel list to the first memory: a lexicographic optimum over the unpruned problem |
| MemCadSearch.SolveEqualBandwidth | cacti/memcad.cc:591-598 | the same for equal-bandwidth BoBs, over the channels left by the first pruning, and over all given channels whenever these are covered or one of the guards holds |
| MemCadSearch.SolveMemCad | cacti/memcad.cc:377-421 | both modes and the unsupported one: which applies, and for each that the first memory is an optimum, one of the memories asked for, and missing only if there is none; by cost, energy or bandwidth first, none is cheaper, takes less energy or has more bandwidth; the whole list holds one best memory for every combination of BoB capacities, in order |
| MemCadSearch.FirstMemoryIsBest | cacti/memcad.cc:261-324 | the same for the second metric among memories tied on the first, and for the third among those tied on both |
| MemCadRanking.SearchRanks | cacti/memcad.cc:537-567 | the list printed from holds one memory for every combination of BoB capacities, no worse than any other of these capacities, nothing else, and in order |
| MemCadRanking.MirroredRanks | cacti/memcad.cc:380-390 | with mirrored BoBs this holds of all channels before both prunings |
| MemCadRanking.EqualRanks | cacti/memcad.cc:391-424 | with BoBs of one bandwidth it holds of the channels kept and of any these cover |
| MemCadSearch.TargetsMean | cacti/memcad.cc:377-468 | the memories asked for: number of BoBs, capacity, channels in each BoB, one bandwidth or all alike |
| MemCadEqual.TotalNoWorse | cacti/memcad.cc:472-535 | sums of scores that are pairwise of equal capacity and no worse are so themselves |
| MemCadEqual.NoLossIffCovered | cacti/memcad.cc:244 | pruning channels loses no optimum, for any number of BoBs and any capacity, if and only if every equal-bandwidth BoB is covered by one of the channels kept |
| MemCadEqual.HarmlessCovers | cacti/memcad.cc:86-106 | every BoB is covered when BoBs have one channel, or when the capacity determines the bandwidth |
| MemCadEqual.PicksReachGroups | cacti/memcad.cc:391-415 | the index lists reached stand for all groups of channels of one bandwidth, in whatever order |
| MemCadEqual.EqualKeepsOptimum | cacti/memcad.cc:326-346 | the first memory is no worse than any equal-bandwidth memory of the channels searched or covered |
| MemCadMirror.KeptIsBest | cacti/memcad.cc:86-106 | every element kept is no worse than any other of its capacity |
| MemCadEqual.KeptSpeed | cacti/memcad.cc:204-244 | of that list every capacity is kept at its highest bandwidth only |
| MemCadEqual.ChannelPruningLosesEqualBandwidth | cacti/memcad.cc:204-244 | the full channel list for 20 GB of unbuffered DDR4: it has equal-bandwidth solutions, and however it is sorted by bandwidth first, the first pruning leaves none |
| UcaModel.LtIsStrictWeak | cacti/cacti_interface.cc:51-65 | irreflexive, transitive, and with transitive incomparability |
| UcaModel.NotBefore | cacti/cacti_interface.cc:51-65 | an array does not come after another exactly when Nspd, then Ndwl, Ndbl, the bit-line multiplexing and both output multiplexing degrees are lexicographically no larger |
| UcaModel.MinValues.Update | cacti/Ucache.cc:58-94 | the pointwise minimum of the five figures |
| UcaModel.LeastIsGreatest | cacti/Ucache.cc:58-94 | the running minimum is the greatest lower bound of the list and BIGNUM |
| UcaModel.LeastAttained | cacti/Ucache.h:51 | every least figure is that of some array or the initial 10^30 |
| UcaModel.LeastOfPermutation | cacti/Ucache.cc:947-951 | so it does not depend on the order of the arrays |
| UcaSweep.Worker.constructor | cacti/Ucache.cc:112-115 | a worker starts with two blank arrays and no results |
| UcaSweep.Worker.Try | cacti/Ucache.cc:192-228 | a valid partition turns the blank into a result and allocates a new blank |
| UcaSweep.Worker.Sweep | cacti/Ucache.cc:162-246 | the loop nest tries the worker's partitions in order |
| UcaSweep.SweepEnds | cacti/Ucache.cc:162 | the loop over Nspd ends if and only if it starts above zero |
| UcaSweep.WiresAreRounds | cacti/Ucache.cc:162-165 | the wire types of one speed, then the next speed, are the rounds in order |
| UcaSweep.Worker.Finish | cacti/Ucache.cc:248-251 | only the results stay allocated |
| UcaGrid.DecodeBijective | cacti/Ucache.cc:117-171 | mixed-radix decoding is a bijection between [0, niter) and the exponent triples |
| UcaGrid.WorkersPartition | cacti/Ucache.cc:166 | the strided workers together visit what one worker visits, for every stride |
| UcaGrid.RoundsExact | cacti/Ucache.cc:162-165 | the two outer loops visit exactly the doublings of the least Nspd within bound and the wire types of the range |
| UcaGrid.SweepCoversGrid | cacti/Ucache.cc:162-178 | every grid point is visited exactly once and nothing else, for every number of threads |
| UcaGrid.GridMeans | cacti/Ucache.cc:117-178 | the grid in numbers: powers of two up to 512, 512, 256, 256 and 256, and Nspd a doubling of its least value up to 256 |
| UcaGrid.SpeedIsPower | cacti/Ucache.cc:162 | n doublings are a factor 2^n |
| UcaGrid.DecodeDigits | cacti/Ucache.cc:167-171 | which digit of the iteration number is the exponent of which division |
| UcaFilter.FilterDataArr | cacti/Ucache.cc:795-819 | keeps exactly the passing arrays, frees the others, exits only on an empty list |
| UcaFilter.EraseUnless | cacti/Ucache.cc:804-818 | the erase-and-step-back loop for any test, the head included |
| UcaFilter.KeptCount | cacti/Ucache.cc:804-818 | every array is kept as often as it occurs, or not at all |
| UcaFilter.KeptInOrder | cacti/Ucache.cc:804-818 | whatever order the list was sorted by, what is kept still is |
| UcaFilter.KeepsWithin | cacti/Ucache.cc:810-811 | the test means at most 1.5 times the minimum on delay or on dynamic energy |
| UcaFilter.SomethingIsKept | cacti/Ucache.cc:810-811 | the array of least delay survives, so the list never empties |
| UcaFilter.PopCheapest | cacti/Ucache.cc:754-785 | pops to the last of the cheapest arrays within bounds, every other one freed |
| UcaFilter.FilterTagArr | cacti/Ucache.cc:740-791 | leaves that one array; exits if and only if none is within bounds and below BIGNUM |
| UcaFilter.BoundsMean | cacti/Ucache.cc:606-651 | within bounds means every figure is at most its minimum times 1 + deviation/100 |
| UcaFilter.KeptTagIsCheapest | cacti/Ucache.cc:754-785 | the weighted relative excess of the array kept over any other within bounds is not positive, and negative over a later one |
| UcaFilter.KeptTagIsLeast | cacti/Ucache.cc:758-763 | with a single weight it has the least of that figure, for each of the five |
| UcaFilter.NoWorseCostsNoMore | cacti/Ucache.cc:758-763 | with non-negative weights an array no worse in every figure costs no more |
| UcaFilter.IneligibleMeans | cacti/Ucache.cc:756-770 | what the filter cannot keep exceeds a bound or costs 10^30 or more |
| UcaOptimal.Walk | cacti/Ucache.cc:657-736 | terminates, visits every position once except index 1 after an erased head, returns the first cheapest visited, and says exactly when that is a cheapest of all |
| UcaOptimal.AlignedNext | cacti/Ucache.cc:715-727 | what the edited list still holds from the iterator on is what is left of the candidates, less one more after an erased head |
| UcaOptimal.FirstCheapestExists | cacti/Ucache.cc:673-728 | some visited candidate is the first cheapest, or none visited may be chosen |
| UcaOptimal.FirstCheapestMeans | cacti/Ucache.cc:673-731 | the walk without its helpers: which candidates it looks at, when it erases the first, what it returns among those below 10^30, and when nothing |
| UcaOptimal.EndsOptimal | cacti/Ucache.cc:699-735 | what was found, or that nothing was, is an optimum of the whole list if and only if the only cheapest was not stepped over |
| UcaOptimal.ChoiceIsOptimal | cacti/Ucache.cc:673-735 | on every list with a candidate that may be chosen, the walk finds a cheapest of all if and only if a head is not erased before an only cheapest second |
| UcaSolve.ParallelSweep | cacti/Ucache.cc:858-951 | for every thread count: exactly the valid arrays, by ascending Nspd, then Ndwl, then Ndbl, their pointwise minimum, and all of them owned |
| UcaSolve.TagGrid | cacti/Ucache.cc:886 | the tag arrays are the valid points of the grid from Nspd 0.125 on, once each |
| UcaSolve.OwnershipPermutes | cacti/Ucache.cc:897-900 | sorting and merging keep addresses distinct and the owned set unchanged |
| UcaSolve.ValidCount | cacti/Ucache.cc:214-228 | an organisation is found as often as its partition is tried, if valid |
| UcaSolve.CombinePositive | cacti/cacti_interface.cc:69-160 | combined figures of positive arrays are positive, so no objective divides by zero |
| UcaSolve.ChooseOrg | cacti/Ucache.cc:965-1022 | candidates and walk: which organisation is chosen, exactly when none is, and exactly when it is a cheapest of all |
| UcaSolve.DeleteOthers | cacti/Ucache.cc:1018-1025 | frees every kept data array but the chosen one |
| UcaSolve.FilterAndChoose | cacti/Ucache.cc:953-1027 | outcome and ownership of everything after the sweeps |
| UcaSolve.Solve | cacti/Ucache.cc:835-1039 | how every run ends, exits included, beside the tag array the filter leaves, and that a returning run has freed all its arrays except data_array2 and, for a cache, tag_array2 |
| UcaSolve.SolvedFigures | cacti/cacti_interface.cc:69-160 | the reported delay, energy, leakage, cycle and area in terms of the two arrays, for a RAM and for a cache in fast, sequential and normal mode |
| UcaSolve.AreaCoversArrays | cacti/cacti_interface.cc:117-130 | a cache covers at least the area of both arrays |
| UcaSolve.FastAgainstSequential | cacti/cacti_interface.cc:83-97 | on the same arrays fast mode saves exactly the smaller of the two delays and changes nothing else |
| UcaSolve.CandidateMinMeans | cacti/Ucache.cc:976-1009 | the minima the objectives divide by are below every candidate, tag array included, and attained below 10^30 |
| UcaSolve.EnergyDelayOptimum | cacti/Ucache.cc:679-698 | no valid grid point that passes the filter has a smaller product of delay and energy beside the chosen tag array, or of squared delay and energy |
| UcaSolve.CheapestInGrid | cacti/Ucache.cc:858-1022 | a candidate is a cheapest of its list if and only if it is a cheapest of the whole grid |
| UcaSolve.CheapestMeans | cacti/Ucache.cc:699-713 | a cheapest of the grid has no positive weighted relative excess over any grid point that may be chosen |
| UcaSolve.PointMayBeChosen | cacti/Ucache.cc:699-716 | with a weighted objective every valid point that passes the filter, is within bounds and costs less than 10^30 may be chosen |
| UcaSolve.EndsOnCheapest | cacti/Ucache.cc:1016 | a run, exits included, returns a cheapest candidate if and only if its walk neither steps over the only cheapest nor past the end |
| UcaSolve.WeightedOptimum | cacti/Ucache.cc:835-1039 | whenever a valid grid point may be chosen, the run returns a cheapest of the grid if and only if its walk neither steps over the only cheapest candidate nor past the end; with energy-delay objectives it does neither |
| UcaSolve.SecondIsSteppedOver | cacti/Ucache.cc:699-727 | two arrays within their bounds of which the dearer is chosen |
| UcaSolve.OnlyChoiceIsSteppedOver | cacti/Ucache.cc:699-735 | three arrays of which only the second is within its bounds, and none is chosen |

## Left out

- Floating point: metrics are real numbers, so rounding, infinities and NaN (the outcome of a zero minimum) are not modelled.
- Integer widths: 32-bit wrap-around is written out in `InputCheck` and in the bank-size loop of `Nuca`; sums of DIMM capacities, factorial products, hop totals and the products of banks and tiers in `MemoryBus` are assumed not to overflow.
- MemCadSearch.SolveEqualBandwidth: claims the optimum over the given channels only where the first pruning covers them, because by `NoLossIffCovered` it fails, for some number of BoBs and some capacity, whenever they are not; `ChannelPruningLosesEqualBandwidth` is such a case.
- MemCadSearch.Search.FindBobsRecursive: nb >= 1; the source does not stop on nb <= 0. The same holds of `FindMemsRecursive`.
- MemCadScore.ComparePreorder: needs energies quantised above EPS, because the source's tolerance is not transitive.
- UcaModel.Heap: an array is an identifier with its organisation; aliasing of the fields of a `mem_array` through pointers is not modelled.
- UcaSolve.Solve: makes no claim about allocations on a path that ends the process, or on the one whose walk moves past the end of a one-element list.
- UcaSweep.Worker.Sweep: nspdMin > 0, which every request with output bits gives; by `SweepEnds` the source's loop does not end otherwise, so there is no result to speak of. The same holds of `ParallelSweep` and `Solve`.
- UcaSweep.Worker: the list of the other kind (tag or data) is a single blank array, and a fully associative cache is swept once, as data.
- Threads: a worker is a function of its number, and joining collects the results in order; scheduling of pthreads is not modelled.
- calculate_time, calc_power, Wire and Router: deterministic parameters; the circuit physics inside them is not part of this model.
- force_cache_config and is_3d_mem inside the sweep: a debugging path and a special case that overwrite the loop variables.
- find_all_channels: the candidate list is an input; its loops over price and bandwidth tables are modelled only as the list for 20 GB of unbuffered DDR4, and energy_per_read and energy_per_write not at all.
- Channels without a DIMM: built and cloned like any other, but the source has no energy or bandwidth entry for them.
- NUCA power, contention and `find_optimal_nuca`: the grid search is modelled up to the recorded rows, columns and latency.
- H-tree delay, leakage and repeater sizing, and the formulas for the area of an unbalanced tree: only link counts, lengths and bus widths.
- Configuration parsing, display, CSV output and the NVMain and gem5 parts of the repository.
