# Suffix array index and concurrent containers, verified

A Dafny model of the suffix array program and of four concurrent containers of the TBB headers it
ships with.

**The index.** A text is a `seq<nat>`, characters being unsigned. The suffix array of a text of
length n lists the n + 1 suffixes in ascending order, the empty suffix n first. It is built by
induced sorting: `SuffixTypes` (S-type, L-type and LMS positions, and the orders induced sorting
works with), `Buckets`, `InducedSort` and `RightScan` (the two in-place scans), `Summary` (naming LMS
substrings), `SAIS` (the levels and the explicit stack). `BuildSuffixArray` is the whole algorithm,
proved for every text of at least one character and every `min` and `max` that bound its characters.
`NaiveSort` is the naive construction, which returns the same array. On top of it stand the LCP array
(`Lcp`), the tables of rank ranges (`RangeTables`), and the two pattern searches (`Search`).

The proof of induced sorting rests on one order: by first character, L-type before S-type, then by
the successor, with a rank for every LMS position at the bottom. Both phases are the same sort with
different ranks. In the first phase the ranks are those of the text-order seeds, and the induced
order can only disagree with the suffix order between equal LMS substrings; in the second phase the
ranks come from the suffix array of the summary and the induced order is the suffix order.

**The containers.** Threads are state machines; every access to shared memory and every lock
operation is one step of one thread, steps are interleaved in any order, and memory is sequentially
consistent. A run is a schedule, a sequence of moves from an initial state; the main theorems are
about every state that any schedule reaches, for any number of threads.
- `Aggregator`: the mailbox and the handler role. `AggregatorEnds`: in fair runs every operation that has
  got into the mailbox is run and its thread returns.
- `PriorityQueue`: one batch of operations over a partly heaped vector; a class whose methods change
  the vector in place. Every batch is equivalent to a sequential order of its operations, and as many
  of its pops succeed as there are elements, its own pushes included.
- `ThreadTable`, `ThreadTableRuns`, `ThreadTableTraces`, `ThreadTableEnds`: the list of growing arrays with
  open addressing behind enumerable_thread_specific. Lookups are wait-free and return the object their
  thread created at one move of the run.
- `HashMap`, `HashMapInvariant`, `HashMapSteps`, `HashMapRuns`, `HashMapSplit`: find, insert and erase on
  the hash map with lazily split buckets, reader-writer locks and a growing mask. Every run is
  linearizable: it behaves like a set of keys; nobody deadlocks; and splitting a bucket ends. `Masks`
  holds the chain of buckets that the bits of a hash code give.
- `HashMapTraces`: runs with all their states; every reached state has one (`ReachedByTrace`). The
  operations in the log are those the moves of the run asked for. `HashMapGrowth`: when the table grows,
  and to what size. `HashMapEnds`: operations end.
- `SerialRehash`: growing and splitting the whole table at once, in place. Runs of the hash map may
  contain such rehashing between operations: `HashMapRuns.RehashStep` demands of the new table what
  `SerialRehash.Rehashes` says, which is the postcondition of `Table.Rehash`.

Findings: where the code does not do what a reader may expect. The model follows the code, each time
with an input and the exact condition.
- For the empty pattern the two searches disagree: the plain one returns all ranks, the one over the
  tables returns none. They agree if and only if the pattern is not empty (`Search.SearchesAgree`).
- enumerable_thread_specific.h:97 says that the root is null if and only if the count is 0. One thread
  that has counted itself and not yet installed an array refutes it
  (`ThreadTableRuns.CountedWithoutRoot`); it holds if and only if there is a root or no thread is at
  that point (`RootNullExactly`).
- enumerable_thread_specific.h:98 says that each array is half the size of its predecessor. With five
  threads an array of 16 slots can come before one of 4 (`ThreadTableRuns.SizesSkip`); a new root is
  twice the old one if and only if the number of the thread that installs it is at most the size of the
  old one (`TwiceTheSizeExactly`).
- Growing a map without nodes marks the new buckets as rehashed even where their parents are not
  (concurrent_hash_map.h:277-282). Insert one key, erase it and rehash to 257 buckets: buckets 2 to 255
  are left unmarked behind 256 marked ones (`EmptiedMap.EmptiedMapBreaksClosure`), which the code's own
  check at concurrent_hash_map.h:1382 would report. Marked buckets still have marked parents after such
  growth if and only if all buckets were marked before (`SerialRehash.ClosureAfterGrowth`), and
  rehashing a closed table marks all buckets if and only if the map has nodes, or all buckets were
  marked, or the table does not grow (`SerialRehash.FinishMarks`). The map keeps working: runs may
  contain this rehashing, and linearizability, the placement of nodes and freedom from deadlock are
  proved of them.

## Model

| member | source | states |
|---|---|---|
| Suffixes.SuffixArrayIsPermutation | inc/SuffixArrayNaive.hpp:54-83 | an array whose suffixes strictly ascend holds every position 0..n once and starts with n |
| Suffixes.SuffixArrayUnique | inc/SuffixArrayNaive.hpp:86-105 | a text has only one suffix array |
| NaiveSort.FillIndices | inc/SuffixArrayNaive.hpp:57-66 | the vector to sort: n in slot 0, then all positions in text order |
| NaiveSort.NaiveIsSuffixArray | inc/SuffixArrayNaive.hpp:69-82 | whatever permutation without descents the library sort makes of the slots behind the first, the result is the suffix array and equals every other one, so that of induced sorting |
| SuffixTypes.MakeSTypes | inc/SuffixArrayInducedSorting_bu0.hpp:238-258 | the right-to-left pass computes the types of all positions and of the end |
| SuffixTypes.TypeMeaning | inc/SuffixArrayInducedSorting_bu0.hpp:239-244 | a position is S-type exactly when its suffix is smaller than the next one, runs of equal characters and the end included |
| SuffixTypes.LBeforeS | inc/SuffixArrayInducedSorting_bu0.hpp:302-336 | of two suffixes with the same first character an L-type one is smaller than an S-type one, so L and S halves of a bucket never mix |
| SuffixTypes.InducedOrder | inc/SuffixArrayInducedSorting_bu0.hpp:302-336 | for any seed ranks the order the scans produce is the suffix order, except that equal LMS substrings are ordered by the ranks of what follows them |
| SuffixTypes.InducedIsSuffixOrder | inc/SuffixArrayInducedSorting_bu0.hpp:144-172 | with true ranks for the LMS positions the order the scans produce is the suffix order |
| SuffixTypes.InducedNotReversed | inc/SuffixArrayInducedSorting_bu0.hpp:206-221 | whatever the seed ranks, the order the scans produce never contradicts LMS-substring order |
| SuffixTypes.SubstringSqueeze | inc/SuffixArrayInducedSorting_bu0.hpp:373-387 | equal LMS substrings stand side by side after the scans, so comparing each with its predecessor finds all equal ones |
| SuffixTypes.SubstringLtMeaning | inc/SuffixArrayInducedSorting_bu0.hpp:302-336 | LMS-substring order is the lexicographic order of the classes (character, L before S) up to the closing LMS position, that one included |
| Buckets.MakeCounts | inc/SuffixArrayInducedSorting_bu0.hpp:107-111 | counts the occurrences of every character of the alphabet |
| Buckets.MakeBuckets | inc/SuffixArrayInducedSorting_bu0.hpp:113-129 | heads are prefix sums from 1, tails are prefix sums including the bucket |
| Buckets.BucketsAreRegions | inc/SuffixArrayInducedSorting_bu0.hpp:107-129 | heads and tails delimit the slots that the suffixes of each character take in the suffix array, behind slot 0 of the empty suffix |
| InducedSort.SeedWrite | inc/SuffixArrayInducedSorting_bu0.hpp:278-287 | seeding an LMS position at its bucket's tail hits a free slot inside the array and keeps the seeds sorted by descending rank from the tail |
| InducedSort.SeedDone | inc/SuffixArrayInducedSorting_bu0.hpp:296-297 | with all LMS positions seeded and n in slot 0 the forward scan can start, for either way of seeding |
| InducedSort.SeedHasRanks | inc/SuffixArrayInducedSorting_bu0.hpp:302-336 | any array that holds every LMS position once in its bucket, and nothing L-type, has ranks by which the forward scan can start |
| InducedSort.LeftRoom | inc/SuffixArrayInducedSorting_bu0.hpp:308-316 | the L half of a bucket has a free slot whenever one of its positions is missing: heads never cross into the S half |
| InducedSort.LeftAhead | inc/SuffixArrayInducedSorting_bu0.hpp:308-316 | writes of the forward scan land ahead of the slot being read |
| InducedSort.LeftComplete | inc/SuffixArrayInducedSorting_bu0.hpp:308-316 | after the forward scan every L-type position is placed |
| InducedSort.LInduceSort | inc/SuffixArrayInducedSorting_bu0.hpp:302-317 | the in-place forward scan keeps the written slots sorted and ends with every L-type position placed once its successor was read |
| RightScan.RightRead | inc/SuffixArrayInducedSorting_bu0.hpp:327-335 | every slot holds its final position by the time the reverse scan reads it: stale seeds have been overwritten |
| RightScan.CursorBelow | inc/SuffixArrayInducedSorting_bu0.hpp:327-335 | the tail of a bucket is below the slot being read in its S half |
| RightScan.SInduceSort | inc/SuffixArrayInducedSorting_bu0.hpp:321-336 | the in-place reverse scan turns the result of the forward scan into the whole induced order |
| SAIS.GuessSortLMS | inc/SuffixArrayInducedSorting_bu0.hpp:268-298 | text-order seeding gives what the forward scan needs |
| SAIS.InduceSort | inc/SuffixArrayInducedSorting_bu0.hpp:218-221 | both scans together sort any seeded array by the induced order |
| SAIS.InduceSubstrings | inc/SuffixArrayInducedSorting_bu0.hpp:206-221 | both scans over any such seed leave all positions in nondecreasing LMS-substring order, each exactly once |
| Summary.SubstringsAscend | inc/SuffixArrayInducedSorting_bu0.hpp:302-336 | positions sorted by the induced order, whatever its ranks, stand in nondecreasing LMS-substring order, each exactly once |
| Summary.NextLMSTable | inc/SuffixArrayInducedSorting_bu0.hpp:358-365 | for every LMS position the next one, 0 for all others and for the end |
| Summary.NameNext | inc/SuffixArrayInducedSorting_bu0.hpp:377-383 | naming by comparison with the predecessor only, closing character and types ignored, gives ascending names; equal names are equal slices, different names different LMS substrings |
| Summary.NameLMS | inc/SuffixArrayInducedSorting_bu0.hpp:352-387 | the naming loop names every LMS position that way |
| Summary.CollectedIsSummary | inc/SuffixArrayInducedSorting_bu0.hpp:389-396 | the names collected in text order are a summary: all LMS positions, names 0..size-1 all used, 0 for the end alone |
| Summary.SummarizeSA | inc/SuffixArrayInducedSorting_bu0.hpp:340-397 | returns a summary of the text, its LMS positions and its alphabet size |
| Summary.SummaryPreservesOrder | inc/SuffixArrayInducedSorting_bu0.hpp:340-397 | two LMS positions, n included, compare in the text exactly as their slots compare in the summary |
| Summary.SummaryAtMostHalf | inc/SuffixArrayInducedSorting_bu0.hpp:346-350 | a summary has at most (n + 1) / 2 entries |
| Summary.AllNamesDiffer | inc/SuffixArrayInducedSorting_bu0.hpp:72-79 | size and alphabet size of the summary are equal exactly when all names differ |
| SAIS.RetSummarySA | inc/SuffixArrayInducedSorting_bu0.hpp:133-140 | the inverse of a summary whose names all differ is its suffix array |
| SAIS.RanksAreTrue | inc/SuffixArrayInducedSorting_bu0.hpp:408-417 | the ranks of the LMS positions in the summary's suffix array are their ranks as suffixes of the text |
| SAIS.LMSSort | inc/SuffixArrayInducedSorting_bu0.hpp:401-418 | seeding from the summary's suffix array, its two smallest ranks skipped, puts every LMS position into its bucket in suffix order |
| SAIS.InducedIsSuffixArray | inc/SuffixArrayInducedSorting_bu0.hpp:167-171 | the scans over true ranks give the suffix array |
| SAIS.ToStack | inc/SuffixArrayInducedSorting_bu0.hpp:175-235 | one level down: keeps text, types, counts and LMS positions, and returns the summary |
| SAIS.FromStack | inc/SuffixArrayInducedSorting_bu0.hpp:144-172 | one level up: from the suffix array of the summary to that of the level's text |
| SAIS.ReductionShrinks | inc/SuffixArrayInducedSorting_bu0.hpp:72-79 | a summary with a repeated name is shorter than its text, so the reduction ends |
| SAIS.BuildSuffixArray | inc/SuffixArrayInducedSorting_bu0.hpp:50-97 | for every nonempty text and bounds of its characters the result is its suffix array |
| Lcp.CommonPrefixMeaning | inc/LCPArrayNaive.hpp:26-33 | the common prefix length is the greatest number of equal leading characters |
| Lcp.MakeInverse | inc/LCPArrayNaive.hpp:40-47 | the inverse array gives every position its rank |
| Lcp.KasaiStep | inc/LCPArrayNaive.hpp:27-33 | a carried-over h never exceeds what the next position shares with its successor |
| Lcp.Extend | inc/LCPArrayNaive.hpp:28-31 | resuming behind h known characters reaches exactly the common prefix and stays inside the data |
| Lcp.MakeLcp | inc/LCPArrayNaive.hpp:21-37 | entry r is the common prefix of the suffixes at ranks r and r + 1, with at most 2n matching comparisons in all |
| RangeTables.CommonPrefixIsMinimum | inc/LCPArrayNaive.hpp:91-167 | the common prefix of two ranks is the minimum of the adjacent ones between them |
| RangeTables.MakeLcpR | inc/LCPArrayNaive.hpp:133-149 | entry d - 1 of the right row is where adjacent common prefixes of at least d end |
| RangeTables.MakeLcpL | inc/LCPArrayNaive.hpp:151-167 | entry d - 1 of the left row is where adjacent common prefixes of at least d begin |
| RangeTables.MakeLcpLR | inc/LCPArrayNaive.hpp:91-131 | both tables for all ranks, and the placeholder rows of rank 0 |
| RangeTables.RangesAreRanks | inc/LCPArrayNaive.hpp:228-248 | for every rank from 1 on and every depth, stored or not, the tables give the first and last rank sharing that many characters |
| Search.Compare | inc/LCPArrayNaive.hpp:171-194 | counts the further matching characters and sets smaller at a mismatch only |
| Search.JumpKeeps | inc/LCPArrayNaive.hpp:222-249 | a jump stays inside the current interval and keeps exactly the ranks matching at least as much as the probe |
| Search.StepKeeps | inc/LCPArrayNaive.hpp:250-258 | halving never loses a rank that matches more than the interval |
| Search.EndedProbe | inc/LCPArrayNaive.hpp:217-258 | a probe whose suffix ends leaves smaller stale only when the interval is that rank alone |
| Search.LowerBound | inc/LCPArrayNaive.hpp:198-261 | for every nonempty pattern exactly the interval of ranks starting with it, or (n + 1, n + 1); ends because depth grows or the interval shrinks |
| Search.FirstNotBefore | inc/SuffixArray.hpp:198-203 | the library's binary search under CompSeq: the first rank whose suffix is not before the pattern |
| Search.Equal | inc/SuffixArray.hpp:240-252 | succeeds when d characters match, or the pattern or the data ends first |
| Search.NoFalseMatch | inc/SuffixArray.hpp:222-227 | behind the first match the comparison never succeeds by running off the data |
| Search.FindPlain | inc/SuffixArray.hpp:198-229 | binary search, prefix check and scan return exactly the interval of ranks starting with the pattern |
| Search.FindAllInfix | inc/SuffixArray.hpp:181-231 | uses the tables if there are any; what it returns in each case |
| Search.MatchRangeUnique | inc/SuffixArray.hpp:181-231 | there is only one right answer to a search |
| Search.SearchesAgree | inc/SuffixArray.hpp:192-229 | the two searches return the same interval if and only if the pattern is not empty |
| Aggregator.StepInv | inc/tbb-2019_U4/include/tbb/aggregator.h:73-177 | every step of every thread keeps the invariant tying mailbox, handler list, handler role and counts |
| Aggregator.EveryRunIsSafe | inc/tbb-2019_U4/include/tbb/aggregator.h:73-177 | in every run at most one thread waits for and at most one has the handler role, nobody has it between test and set of handler_busy, every operation runs exactly once before its thread returns, and nobody is stuck |
| AggregatorEnds.ResponsibleStep | inc/tbb-2019_U4/include/tbb/aggregator.h:147-177 | the next step of the handler, or without one of the thread that waits for the role, brings every operation in the mailbox or the batch nearer to being finished |
| AggregatorEnds.OtherStep | inc/tbb-2019_U4/include/tbb/aggregator.h:108-177 | no step of another thread takes that away, or makes another thread responsible |
| AggregatorEnds.PublishedIsRun | inc/tbb-2019_U4/include/tbb/aggregator.h:123-177 | in every infinite run that leaves out no thread that could step, a thread whose operation has got into the mailbox returns from that call, and the operation has been run |
| AggregatorEnds.EveryOperationIsRun | inc/tbb-2019_U4/include/tbb/aggregator.h:117-177 | so does a thread that is still trying to get its operation in, unless operations get into the mailbox again and again for ever |
| PriorityQueue.RootIsLargest | inc/tbb-2019_U4/include/tbb/concurrent_priority_queue.h:347-350 | the top of the heap part is one of its largest elements |
| PriorityQueue.ConcurrentPriorityQueue.FindHole | inc/tbb-2019_U4/include/tbb/concurrent_priority_queue.h:457-468 | the loop of reheap moves a hole down, children up, to where the last element fits |
| PriorityQueue.ConcurrentPriorityQueue.PlaceLast | inc/tbb-2019_U4/include/tbb/concurrent_priority_queue.h:469-472 | filling the hole and dropping the last slot completes the removal of the top |
| PriorityQueue.ConcurrentPriorityQueue.Reheap | inc/tbb-2019_U4/include/tbb/concurrent_priority_queue.h:456-473 | takes out the top and leaves a heap, and says what becomes of the elements behind mark |
| PriorityQueue.ConcurrentPriorityQueue.Heapify | inc/tbb-2019_U4/include/tbb/concurrent_priority_queue.h:438-452 | merges all elements behind mark into the heap and loses none |
| PriorityQueue.ConcurrentPriorityQueue.ServeAtOnce | inc/tbb-2019_U4/include/tbb/concurrent_priority_queue.h:359-401 | the first pass reads every operation, the operations served so far are a legal sequential run ending with the contents of the heap part, and no pop fails |
| PriorityQueue.ConcurrentPriorityQueue.PopOrPostpone | inc/tbb-2019_U4/include/tbb/concurrent_priority_queue.h:372-386 | a pop in the first pass takes the last push of the batch if it beats the top, or is put on the list, and nothing else changes |
| PriorityQueue.ConcurrentPriorityQueue.PushBack | inc/tbb-2019_U4/include/tbb/concurrent_priority_queue.h:387-400 | a push is reported at once, its element goes to the end of the vector, and its place in the order stays open |
| PriorityQueue.ConcurrentPriorityQueue.ServePostponed | inc/tbb-2019_U4/include/tbb/concurrent_priority_queue.h:403-429 | the second pass gives every postponed pop a legal outcome, and lets one fail only when the vector is empty |
| PriorityQueue.ConcurrentPriorityQueue.ServePop | inc/tbb-2019_U4/include/tbb/concurrent_priority_queue.h:411-428 | a postponed pop takes the last element if it is unsorted and larger than the top, and otherwise the top; this is a legal next operation even while larger pushes are unheaped |
| PriorityQueue.ConcurrentPriorityQueue.HandleOperations | inc/tbb-2019_U4/include/tbb/concurrent_priority_queue.h:354-435 | some order of all operations of the batch, each once and with its reported outcome, is a legal run of a sequential queue from the old contents to the new; pops take a largest element; the number of those that succeed is the smaller of the number of pops and the number of old and pushed elements, and one fails only if the batch leaves the queue empty |
| PriorityQueue.TallyDone | inc/tbb-2019_U4/include/tbb/concurrent_priority_queue.h:354-435 | a batch whose elements are counted right and which lets a pop fail only on an empty vector serves as many pops as possible |
| PriorityQueue.BatchDone | inc/tbb-2019_U4/include/tbb/concurrent_priority_queue.h:431-434 | pushes still unheaped take their places at the end of the order |
| ThreadTable.StepInv | inc/tbb-2019_U4/include/tbb/enumerable_thread_specific.h:171-241 | every step of every thread keeps the invariant of arrays, slots and numbers |
| ThreadTable.AtMostHalf | inc/tbb-2019_U4/include/tbb/enumerable_thread_specific.h:197-211 | an array of 2^s slots holds at most 2^(s-1) keys |
| ThreadTable.ProbingEnds | inc/tbb-2019_U4/include/tbb/enumerable_thread_specific.h:180-239 | both probe loops meet an empty slot before they come round |
| ThreadTable.NeverOutOfBounds | inc/tbb-2019_U4/include/tbb/enumerable_thread_specific.h:171-241 | no thread touches an array or slot that does not exist |
| ThreadTable.FirstPointerStays | inc/tbb-2019_U4/include/tbb/enumerable_thread_specific.h:200-203 | no step creates another object for a thread that has a number |
| ThreadTable.EveryRunIsSafe | inc/tbb-2019_U4/include/tbb/enumerable_thread_specific.h:171-241 | in every run: no access out of bounds, every array at most half full with each key once, probing ends, and a thread with a number outside a lookup has the pointer its first lookup created |
| ThreadTableRuns.SamePointerForever | inc/tbb-2019_U4/include/tbb/enumerable_thread_specific.h:171-241 | from any state of any run on, in which a thread has a number, its first pointer never changes and every later lookup returns the same pointer as the earlier ones |
| ThreadTableRuns.LookupsNumber | inc/tbb-2019_U4/include/tbb/enumerable_thread_specific.h:200-203 | a thread about to return from a lookup has a number, and one outside either has it, and its first pointer, or has never looked anything up |
| ThreadTableRuns.RootNullExactly | inc/tbb-2019_U4/include/tbb/enumerable_thread_specific.h:96-98 | in every run the root is null just when the count is 0 exactly if there is a root or no thread is between counting itself and installing one |
| ThreadTableRuns.CountedWithoutRoot | inc/tbb-2019_U4/include/tbb/enumerable_thread_specific.h:202-207 | a run with count 1 and no root |
| ThreadTableRuns.TwiceTheSizeExactly | inc/tbb-2019_U4/include/tbb/enumerable_thread_specific.h:206-222 | a new root is twice as big as the old one exactly if its thread's number is at most the old one's size |
| ThreadTableRuns.SizesSkip | inc/tbb-2019_U4/include/tbb/enumerable_thread_specific.h:206-222 | a run in which an array of 16 slots comes before one of 4 |
| ThreadTableTraces.LookupsReturnTheObject | inc/tbb-2019_U4/include/tbb/enumerable_thread_specific.h:171-241 | in every run create_local is called once for a thread with a number, and all the thread's lookups return, and its slots hold, what that call returned |
| ThreadTableTraces.CountIsExact | inc/tbb-2019_U4/include/tbb/enumerable_thread_specific.h:202-203 | in every run my_count is the number of threads that have taken a number |
| ThreadTableTraces.LookupMovesToRoot | inc/tbb-2019_U4/include/tbb/enumerable_thread_specific.h:184-195 | after a lookup the key is in the array that was the root when it began, or in a newer one |
| ThreadTableEnds.OwnStepNearer | inc/tbb-2019_U4/include/tbb/enumerable_thread_specific.h:171-241 | each own step of a thread inside a lookup decreases a measure: stage, arrays left, slots left or sizes left |
| ThreadTableEnds.OtherStepKeeps | inc/tbb-2019_U4/include/tbb/enumerable_thread_specific.h:171-241 | no step of another thread changes that measure |
| ThreadTableEnds.LookupEnds | inc/tbb-2019_U4/include/tbb/enumerable_thread_specific.h:171-241 | in every infinite run every lookup of a thread that keeps stepping returns, whatever the others do |
| Masks.CutIsRemainder | inc/tbb-2019_U4/include/tbb/concurrent_hash_map.h:210-216 | a hash code under a mask is its remainder modulo the number of buckets |
| Masks.ParentOnChain | inc/tbb-2019_U4/include/tbb/concurrent_hash_map.h:653-665 | dropping the topmost bit of a bucket number leads to the bucket before it on the chain of every hash code that reaches it |
| Masks.NextOnChainIsNext | inc/tbb-2019_U4/include/tbb/concurrent_hash_map.h:241-246 | the bit search finds the bucket that follows on the chain of the hash code |
| HashMapInvariant.CurrentMask | inc/tbb-2019_U4/include/tbb/concurrent_hash_map.h:230-236 | a mask that is current, or stale without effect on the hash code, leaves no bucket to look at |
| HashMapInvariant.StaleMask | inc/tbb-2019_U4/include/tbb/concurrent_hash_map.h:239-258 | if the next bucket of the chain is not marked then no later one is split off |
| HashMapInvariant.AbsentEverywhere | inc/tbb-2019_U4/include/tbb/concurrent_hash_map.h:1179-1210 | a thread that has a split-off bucket locked, without the key and with nothing split off behind it, knows that the map lacks the key |
| HashMapSteps.StepMark | inc/tbb-2019_U4/include/tbb/concurrent_hash_map.h:653-662 | marking a bucket before its parent is locked keeps the invariant |
| HashMapSteps.StepMove | inc/tbb-2019_U4/include/tbb/concurrent_hash_map.h:667-682 | moving one node from parent to child keeps the invariant |
| HashMapSteps.StepPop | inc/tbb-2019_U4/include/tbb/concurrent_hash_map.h:640-645 | unlocking the parent when no node is left to move keeps the invariant, and the child is split off from then on |
| HashMapSteps.StepAdd | inc/tbb-2019_U4/include/tbb/concurrent_hash_map.h:1196-1203 | a node is added only when its key is nowhere in the map, whatever mask the search used |
| HashMapSteps.StepUnlink | inc/tbb-2019_U4/include/tbb/concurrent_hash_map.h:1302-1323 | unlinking a node keeps the invariant |
| HashMapSteps.StepEnable | inc/tbb-2019_U4/include/tbb/concurrent_hash_map.h:184-207 | publishing a wider mask keeps the invariant for threads with the old one |
| HashMapSteps.StepInv | inc/tbb-2019_U4/include/tbb/concurrent_hash_map.h:635-683 | every step of every thread keeps the invariant |
| HashMapRuns.MissIsTrue | inc/tbb-2019_U4/include/tbb/concurrent_hash_map.h:1205-1210 | a find or erase that reports its key missing is right at that moment, whatever mask it used |
| HashMapRuns.StaleSearchRestarts | inc/tbb-2019_U4/include/tbb/concurrent_hash_map.h:230-258 | if a search missed a key that is there, the mask is found stale, the next bucket of the chain is marked, and the operation restarts |
| HashMapRuns.EntryIsTrue | inc/tbb-2019_U4/include/tbb/concurrent_hash_map.h:1168-1244 | the step at which an operation takes effect has the result it has on the stored keys at that moment |
| HashMapRuns.StepLog | inc/tbb-2019_U4/include/tbb/concurrent_hash_map.h:1168-1323 | all other steps, splitting and growing included, leave the stored keys alone |
| HashMapRuns.StepSize | inc/tbb-2019_U4/include/tbb/concurrent_hash_map.h:261-274 | my_size is the number of nodes plus the threads just between changing the one and the other |
| HashMapRuns.RehashKeeps | inc/tbb-2019_U4/include/tbb/concurrent_hash_map.h:1342-1371 | whatever serial rehashing does between operations keeps the invariant of the concurrent map, its keys and its size |
| HashMapRuns.OnlyDecidedReturn | inc/tbb-2019_U4/include/tbb/concurrent_hash_map.h:1168-1330 | an operation returns only after it has taken effect, with the result it then had |
| HashMapRuns.EveryRunIsLinearizable | inc/tbb-2019_U4/include/tbb/concurrent_hash_map.h:1168-1330 | every run of finds, inserts and erases, with serial rehashing in between, has the results of the same operations on a set, in an order in which each operation that has returned or is about to lies between its start and its end |
| HashMapRuns.EveryRunKeepsPlaces | inc/tbb-2019_U4/include/tbb/concurrent_hash_map.h:635-683 | in every run a node is in the last split-off bucket of its chain or in the one being filled from it, split-off buckets have split-off parents beyond the size at which an emptied map last grew serially, no key is stored twice, write locks are exclusive, and no thread reads or splits a bucket it must not |
| HashMapRuns.BaseChanges | inc/tbb-2019_U4/include/tbb/concurrent_hash_map.h:277-282 | that size changes only when an emptied map with unmarked buckets grows serially |
| HashMapRuns.ClosedWithoutRehash | inc/tbb-2019_U4/include/tbb/concurrent_hash_map.h:653-683 | in runs without serial rehashing all split-off buckets have split-off parents |
| HashMapRuns.NotStuck | inc/tbb-2019_U4/src/tbb/spin_rw_mutex.cpp:41-109 | a thread waits for threads at smaller buckets, or as a reader for writers, as a writer for upgrading readers, as one of these for readers that do not wait; so while some thread is inside one that is inside can step |
| HashMapRuns.NeverStuck | inc/tbb-2019_U4/include/tbb/concurrent_hash_map.h:635-683 | in every run: no deadlock, with locks and upgrades as the mutex has them |
| HashMapSplit.OwnStepDecreases | inc/tbb-2019_U4/include/tbb/concurrent_hash_map.h:635-683 | each own step of a thread that is acquiring or filling a bucket decreases a measure: up to the parents, back down, steps for one bucket, nodes to move |
| HashMapSplit.OtherStepKeeps | inc/tbb-2019_U4/include/tbb/concurrent_hash_map.h:635-683 | no step of another thread changes that measure |
| HashMapSplit.SplitEnds | inc/tbb-2019_U4/include/tbb/concurrent_hash_map.h:653-683 | in every infinite run a thread that keeps stepping ends its recursive split |
| HashMapTraces.WorksOnWhatIsAsked | inc/tbb-2019_U4/include/tbb/concurrent_hash_map.h:1168-1177 | a thread inside works on the operation and the key of the move with which it last left the outside |
| HashMapTraces.LogsWhatIsAsked | inc/tbb-2019_U4/include/tbb/concurrent_hash_map.h:1168-1330 | every operation that takes effect in a run was asked for by a move of its thread, the last with which it left the outside, with that operation and that key, and takes effect while it is inside |
| HashMapTraces.ReturnsWhatIsAsked | inc/tbb-2019_U4/include/tbb/concurrent_hash_map.h:1168-1330 | a thread that is back returned the result of the one operation that took effect for it since it was last asked, the operation and key asked for |
| HashMap.NextSize | inc/tbb-2019_U4/include/tbb/concurrent_hash_map.h:184-207 | a segment makes 256 buckets of fewer, and twice as many of 256 or more |
| HashMapGrowth.EnableDoubles | inc/tbb-2019_U4/include/tbb/concurrent_hash_map.h:184-207 | growing keeps all buckets and adds as many that wait to be split off, 256 buckets being the first size |
| HashMapGrowth.GrowsOnlyWhenFull | inc/tbb-2019_U4/include/tbb/concurrent_hash_map.h:261-274 | in every run operations add a segment only after my_size has reached the mask |
| HashMapGrowth.NeverLeftFull | inc/tbb-2019_U4/include/tbb/concurrent_hash_map.h:261-274 | operations that do not overlap leave fewer nodes than the mask: the insertion that fills the table has made it grow when it returns |
| HashMapEnds.OwnStepNearer | inc/tbb-2019_U4/include/tbb/concurrent_hash_map.h:1168-1330 | each own step of a thread inside an operation ends it or decreases a measure: restarts left, splitting, steps left |
| HashMapEnds.OperationEnds | inc/tbb-2019_U4/include/tbb/concurrent_hash_map.h:1168-1330 | in every infinite run a thread that keeps stepping ends its operation, unless the table grows again and again |
| HashMapEnds.OperationEndsAlone | inc/tbb-2019_U4/include/tbb/concurrent_hash_map.h:1168-1330 | a thread that runs alone ends its operation |
| HashMapRuns.QuiescentTable | inc/tbb-2019_U4/include/tbb/concurrent_hash_map.h:261-274 | after any run, with no operation under way, my_size is the number of keys of the set the operations describe, and the table meets the precondition of serial rehashing |
| SerialRehash.Table.MarkRehashedLevels | inc/tbb-2019_U4/include/tbb/concurrent_hash_map.h:219-226 | marks exactly the unmarked buckets whose nearest marked ancestor is the given one, across all segments |
| SerialRehash.Table.FindRoot | inc/tbb-2019_U4/include/tbb/concurrent_hash_map.h:1353-1358 | finds the nearest marked ancestor |
| SerialRehash.TargetsMarked | inc/tbb-2019_U4/include/tbb/concurrent_hash_map.h:1361-1368 | after the marking every node of the root belongs into a marked bucket |
| SerialRehash.Table.MoveNodes | inc/tbb-2019_U4/include/tbb/concurrent_hash_map.h:1361-1369 | puts every node of the root into bucket hash & mask and leaves all others alone |
| SerialRehash.SplitOff | inc/tbb-2019_U4/include/tbb/concurrent_hash_map.h:1352-1370 | one round keeps every node in the last marked bucket of its chain, the keys, and as much closure under parents as there was |
| SerialRehash.Extended | inc/tbb-2019_U4/include/tbb/concurrent_hash_map.h:277-282 | a new segment, its buckets marked or not, keeps what rehashing relies on |
| SerialRehash.ClosureAfterGrowth | inc/tbb-2019_U4/include/tbb/concurrent_hash_map.h:277-282 | after growth marked buckets have marked parents exactly if they had before, in a map with nodes, and exactly if all buckets were marked, in one without |
| SerialRehash.Table.Reserve | inc/tbb-2019_U4/include/tbb/concurrent_hash_map.h:277-282 | grows the table to the smallest size of 256 or more that holds the buckets asked for, or leaves it if they fit, keeps buckets and nodes, and says exactly when marked buckets still have marked parents |
| SerialRehash.FinishMarks | inc/tbb-2019_U4/include/tbb/concurrent_hash_map.h:1342-1371 | rehashing a closed table marks all buckets exactly if the map has nodes, or all were marked, or the table does not grow |
| SerialRehash.Table.Rehash | inc/tbb-2019_U4/include/tbb/concurrent_hash_map.h:1342-1371 | scanning the last segment only, it leaves every node in bucket hash mod size, no key lost or added or doubled, the size being the old one if it suffices and else the smallest of 256 or more that does; all buckets of a closed table get marked exactly under the condition above |
| SerialRehash.EmptiedTableStaysUnmarked | inc/tbb-2019_U4/include/tbb/concurrent_hash_map.h:1342-1382 | rehashing the table of an emptied map from 256 to 257 buckets leaves unmarked ones |
| EmptiedMap.EmptiedMapBreaksClosure | inc/tbb-2019_U4/include/tbb/concurrent_hash_map.h:1342-1382 | a run that inserts a key, erases it and rehashes to 257 buckets: a marked bucket has an unmarked parent |

## Left out

- Reading and writing files, hex output, printing, command line, timing: input and output.
- The other variants of induced sorting in inc/: they are not compiled in.
- Index width and the invalid index: positions are unbounded integers and `invalid` is -1; the code
  needs n below the largest index value. Hash codes and masks are unbounded too.
- std::sort, tbb::parallel_sort: given by what they promise (a permutation without descents behind
  slot 0). std::lower_bound is written out as the library's loop.
- make_lcp at the last rank: the code reads one entry behind the suffix array and drops the result
  (inc/LCPArrayNaive.hpp:30-35); the model uses h = 0 there.
- The three-iterator std::equal of the search (inc/LCPArrayNaive.hpp:218-221) is not bounded by the end
  of the pattern; the model stops at the end of either sequence.
- TBB: exceptions, failing allocation, memory fences, profiling calls, freeing of arrays and nodes,
  copying, iterators and equal_range. Queue elements are a priority and an identity, compared by
  priority.
- Hash map: mapped values, accessors with their item locks and `exclude`, `clear` and `swap`. A waiting
  writer may go unnoticed by readers for any time, as in the mutex; that threads get their locks in the
  end is not claimed, so that operations are proved to end for threads that keep stepping. Restarting for
  ever takes a table that grows for ever; the bound the hash code's width sets is not modelled.
- Hash map, serial rehashing: segments are one growing table; it runs only while no operation is under
  way, which the code asserts (inc/tbb-2019_U4/include/tbb/concurrent_hash_map.h:1351).
- The priority queue's batches are handled one at a time, which is what the aggregator guarantees; the
  two models are not composed.
