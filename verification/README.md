# DistDir core, modelled in Dafny

DistDir moves data between two decompositions of one global index space
over MPI. Each rank describes its part with an index list. The library
first finds, for every index a source rank holds, the destination rank
holding the same index; this is a rendezvous through one bucket per rank.
It groups those pairs into a map of per-peer records. An exchanger then
packs the source data along the map, sends it, receives it and unpacks it
into the destination data.

This project models that core:

- the sorting routines the rendezvous relies on: merge sort, tim sort and
  quicksort, plain and with one or two companion arrays;
- the bucket back end: assignment, counting, senders, message sizes, rank
  and element arrays;
- both halves of the rendezvous (`map_idxlist_to_RD_decomp`,
  `map_RD_decomp_to_idxlist`), per rank and over a whole world;
- the legacy `new_map`: bucket size and grouping into records;
- the CPU pack and unpack kernels;
- the core exchanger kinds, `new_exchanger`, and the legacy `exchange_go`;
- the core and legacy index lists;
- the timer registry.

A world of `W` ranks is a sequence of per-rank states. A collective
operation is a pure function of every rank's contribution. A message is
matched to the receive that names its source and tag.
C arrays become sequences, and methods return their results instead of
writing through pointers.

## Model

| member | source | states |
|---|---|---|
| MergeSort.MergeLoops | src/sort/mergesort.c:42-88 | the two merge loops emit exactly the merge of the two runs, taking the left head on ties |
| MergeSort.Merge | src/sort/mergesort.c:42-88 | positions outside `[l, r]` are unchanged; the range is a permutation of its input; if both runs were sorted, the range is a stable sorted rearrangement |
| MergeSort.MergeSort | src/sort/mergesort.c:92-103 | a range with `l >= r` is left alone; otherwise `[l, r]` becomes a stable sorted rearrangement and nothing outside it moves |
| MergeSort.MergeSortKeys | src/sort/mergesort.c:92-103 | `mergeSort` sorts `arr[l..r]` in place as a permutation; the rest of the array is unchanged |
| MergeSort.MergeSortWithIdx | src/sort/mergesort.c:108-179 | `mergeSort_with_idx`, and the legacy `mergeSort` of `src/mergesort.c`, which is the same code: keys sorted stably, and the companion permuted exactly as the keys |
| MergeSort.MergeSortWithIdx2 | src/sort/mergesort.c:181-262 | `mergeSort_with_idx2`: both companions follow the stable permutation of the keys |
| TimSort.InsertAt | src/sort/timsort.c:50-62 | one outer step of `insertionSort`: the entry moves down past exactly the larger keys and stops after an equal or smaller one |
| TimSort.InsertionSort | src/sort/timsort.c:50-79 | `insertionSort` and `insertionSort_with_idx` make `[left, right]` a stable sorted rearrangement |
| TimSort.SortRuns | src/sort/timsort.c:182-195 | the first phase sorts every run of `RUN = 32` entries and moves nothing outside the range |
| TimSort.MergePass | src/sort/timsort.c:83-206 | one merging pass turns sorted blocks of width `size` into sorted blocks of width `2 * size`, stably |
| TimSort.TimSortFrom | src/sort/timsort.c:182-206 | runs and passes together sort the `n` entries from `base`, stably |
| TimSort.TimSortKeys | src/sort/timsort.c:182-206 | `timSort(arr, l, r)` as written sorts `r - l + 1` entries counted from index 0, not from `l` |
| TimSort.TimSortWithIdx | src/sort/timsort.c:208-231 | `timSort_with_idx` as written: the same range from 0, with the companion carried along |
| TimSort.TimSortOffsetWitness | src/sort/timsort.c:182-206 | sorting `[1, 2]` of `[3, 2, 1]` as written gives `[2, 3, 1]`, so the requested range stays unsorted |
| TimSort.TimSortRangeKeys | src/sort/timsort.c:182-206 | the corrected `timSort` sorts `arr[l..r]` |
| TimSort.TimSortRangeWithIdx | src/sort/timsort.c:208-231 | the corrected `timSort_with_idx` stably sorts `arr[l..r]` and carries the companion along |
| TimSort.TimSortRangeWitness | src/sort/timsort.c:182-206 | the corrected sort puts the same range in order: `[3, 1, 2]` |
| QuickSort.Swap | src/sort/quicksort.c:37-42 | exchanges two positions and nothing else |
| QuickSort.PartitionScan | src/sort/quicksort.c:45-60 | the scan puts the keys at or below the pivot into `[l, i]` and the larger keys into `(i, h)`, as a permutation |
| QuickSort.Partition | src/sort/quicksort.c:45-94 | the pivot `arr[h]` ends at `p`, with smaller-or-equal keys before it and larger keys after; nothing outside `[l, h]` moves |
| QuickSort.QuickSort | src/sort/quicksort.c:172-186 | the recursive `quickSort` permutes `[l, h]` into sorted order and leaves `l >= h` alone |
| QuickSort.QuickSortKeys | src/sort/quicksort.c:172-186 | `quickSort` sorts `arr[l..h]` as a permutation |
| QuickSort.IterLoop | src/sort/quicksort.c:96-132 | the explicit-stack loop sorts `[l, h]`; the stack never uses more than its `h - l + 1` slots |
| QuickSort.QuickSortIter | src/sort/quicksort.c:96-132 | as written: a range of fewer than two entries overflows the stack; any larger range is sorted |
| QuickSort.QuickSortIterGuarded | src/sort/quicksort.c:96-132 | with the guard `l < h` of the recursive version, every range is sorted or left alone |
| QuickSort.QuickSortWithIdx | src/sort/quicksort.c:96-132 | `quickSort_with_idx` as written, and the legacy iterative quicksort of `src/quicksort.c`, which is the same code: it overflows exactly when `l >= h`; otherwise keys and companion are permuted into sorted order together |
| QuickSort.QuickSortWithIdx2 | src/sort/quicksort.c:134-170 | `quickSort_with_idx2` as written: the same, with two companions |
| QuickSort.QuickSortWithIdxGuarded | src/sort/quicksort.c:96-132 | the corrected `quickSort_with_idx` sorts every range with `l < h` and leaves shorter ones alone |
| QuickSort.QuickSortOneEntryWitness | src/sort/quicksort.c:96-132 | the one-entry range `[7]` overflows the iterative sort; the guarded version returns `[7]` |
| SortScenarios.ShuffledScenario | tests/sort/sorting_tests.c:65-108 | merge, tim and quick sort each turn any shuffle of `0..19` back into `0..19` |
| SortScenarios.IndexedScenario | tests/sort/sorting_tests.c:120-175 | each `_with_idx` sort gives the test's expected keys and positions |
| SortScenarios.DoubleIndexedScenario | tests/sort/sorting_tests.c:186-255 | `mergeSort_with_idx2` and `quickSort_with_idx2` give the expected keys and both companions |
| Buckets.CDiv | src/backend.c:64 | C's truncating division: the remainder is smaller than the divisor and has the dividend's sign |
| Buckets.AssignBucket | src/backend.c:56-69 | a non-negative index goes to the bucket owning it, the last bucket taking everything above; `-size < idx < 0` goes to bucket 0 |
| Buckets.AssignMonotone | src/backend.c:56-69 | a larger non-negative index never goes to an earlier bucket |
| Buckets.AssignBuckets | src/backend.c:56-69 | every element gets its own bucket, at most `nbuckets - 1` |
| Buckets.LegacyAssignBuckets | src/bucket.c:3-10 | the legacy assignment divides by the number of buckets, so every bucket holds `nbuckets` consecutive indices, with the last bucket clamped |
| Buckets.AssignScenario | tests/assign_idxlist_elements_to_buckets_tests.c:53-70 | indices `0, 7, 9, 25, 47` with size 9 and five buckets give `0, 0, 1, 2, 4` |
| Buckets.NumIndicesToSend | src/backend.c:107-122 | an entry is positive exactly for the buckets present; on a grouped list it is that bucket's count, and the counts sum to the list length |
| Buckets.CountsSum | src/backend.c:107-122 | every index goes to exactly one bucket, so the per-bucket counts add up to the list length |
| Buckets.SendFlags | src/backend.c:84-101 | flag `b` is 1 exactly when some index goes to bucket `b` |
| Buckets.ProcsSendingTo | src/backend.c:84-105 | summing every rank's flag for bucket `b` gives the number of ranks that send to it |
| Buckets.Senders | src/backend.c:124-151 | the ascending list of exactly those ranks with a positive count for the bucket |
| Buckets.ReceiversBucket | src/backend.c:124-151 | the sender ranks, arriving in any order, are sorted into exactly the ascending sender list |
| Buckets.MsgSizesSum | src/backend.c:153-180 | the message sizes a bucket learns add up to everything sent to it |
| Buckets.BucketRanksFromWorld | src/backend.c:182-217 | the bucket's rank array is each rank, in rank order, repeated once per index it sends |
| Buckets.RankPartsSorted | src/backend.c:182-217 | that rank array is sorted and holds only ranks of the world |
| Buckets.SendSlices | src/backend.c:236-251 | the messages to the buckets are consecutive slices of the bucket-sorted list, one per bucket, and they tile it |
| Buckets.BucketElementsFromWorld | src/backend.c:219-255 | a bucket stores every rank's message to it, in rank order |
| Buckets.NumIndicesScenario | tests/core/algorithm/backend/num_indices_to_send_to_each_bucket_tests.c:54-72 | runs of 3, 1, 2 and 3 indices give the counts `3, 1, 2, 3` |
| Buckets.NumProcsScenario | tests/num_procs_send_to_each_bucket_tests.c:58-88 | four ranks that each hit all four buckets give four senders per bucket |
| Buckets.ElementsScenario | tests/core/algorithm/backend/bucket_idxlist_elements_tests.c:54-128 | four ranks sending `0..3-r` to bucket 0 leave `0,1,2,3,0,1,2,0,1,0` there |
| Rendezvous.SortByBucket | src/core/algorithm/bucket.c:55-73 | buckets, indices and positions are sorted by bucket as a stable rearrangement of the tagged list |
| Rendezvous.SortedEntries | src/core/algorithm/bucket.c:64-73 | after the sort, each entry's position points back at its index in the list, and the positions are a permutation of `0..n-1` |
| Rendezvous.SlicesAreMembers | src/core/algorithm/bucket.c:64-79 | bucket `b`'s slice of the sorted indices is exactly the list's members of `b`, in list order |
| Rendezvous.LocalStep | src/core/algorithm/bucket.c:43-109 | one rank's local step gives a plan in which the message to each bucket holds exactly that rank's indices of the bucket |
| Rendezvous.LastMatch | src/core/algorithm/bucket.c:123-127 | gives the value paired with the last equal key when one exists, and `None` otherwise |
| Rendezvous.Join | src/core/algorithm/bucket.c:123-127 | each source index gets the destination rank recorded beside the last equal destination index, or `None` if there is none |
| Rendezvous.Matched | src/core/algorithm/bucket.c:123-127 | a join yields ranks exactly when every index found a match |
| Rendezvous.SortByRank | src/core/algorithm/bucket.c:155 | the received ranks are sorted stably, with the positions carried along |
| RendezvousWorld.MapToBuckets | src/core/algorithm/bucket.c:43-109 | over a whole world, every bucket holds every rank's indices of it, with their senders, message sizes and sending ranks |
| RendezvousWorld.RanksOfBucket | src/backend.c:182-217 | `bucket_idxlist_procs` records each rank once per index it sends to the bucket |
| RendezvousWorld.ElementsOfBucket | src/backend.c:219-255 | `bucket_idxlist_elements` stores each rank's members of the bucket, rank after rank |
| RendezvousWorld.JoinOwner | src/core/algorithm/bucket.c:123-127 | the join in bucket `b` names, for each index, the last destination rank holding it, or nothing |
| RendezvousWorld.OwnersOf | src/core/algorithm/bucket.c:123-127 | gives the owner of every source index of the bucket, and fails exactly when one has no destination rank |
| RendezvousWorld.ReplyBucket | src/core/algorithm/bucket.c:123-141 | each sender gets back, in its slice, the owners of exactly the indices it sent |
| RendezvousWorld.MatchSlot | src/core/algorithm/bucket.c:135-151 | a receive for source `c` matches the send whose tag names the receiving rank |
| RendezvousWorld.Receive | src/core/algorithm/bucket.c:143-151 | a source rank collects the owner of each of its indices in bucket-sorted order |
| RendezvousWorld.ReplyAll | src/core/algorithm/bucket.c:123-141 | every bucket replies when every source index has an owner; otherwise the step fails |
| RendezvousWorld.CollectRoutes | src/core/algorithm/bucket.c:143-156 | each rank ends with destination ranks ascending beside a permutation of its positions |
| RendezvousWorld.MapBack | src/core/algorithm/bucket.c:111-156 | `map_RD_decomp_to_idxlist` succeeds exactly when every source index is held by some destination rank; it then routes each position to its owner |
| RendezvousWorld.RouteIndices | src/core/algorithm/bucket.c:43-156 | the whole rendezvous routes every source position to the destination rank that holds its index, sorted by that rank, and fails exactly when an index is uncovered |
| MapRecords.LocalMax | src/map.c:27-30 | gives the largest index of the list, or 0 when there is none larger |
| MapRecords.GlobalMax | src/map.c:27-31 | the `MPI_MAX` reduction bounds every index on every rank and is attained |
| MapRecords.LegacyBucketSizesShort | src/map.c:32-35 | as written, the bucket sizes for largest index 5 on 4 ranks leave room for 5 indices, not 6 |
| MapRecords.BucketSizesCover | src/map.c:32-35 | the corrected sizes add up to exactly `maxIdx + 1` |
| MapRecords.NewMapBucketSize | src/map.c:23-53 | both sizes are computed from the source lists, so they agree and the bucket size is always set, to the as-written `LegacyBucketSize` of the world's largest index |
| MapRecords.CountRecords | src/map.c:98-108 | the record count is the number of maximal runs of equal peers |
| MapRecords.GroupRecords | src/map.c:110-139 | one well-grouped record per run, which together spell out the peers and the positions |
| MapRecords.GroupedUnique | src/map.c:110-139 | the peers and positions determine the well-grouped records uniquely |
| MapRecords.RecordsAreRuns | src/map.c:98-139 | a well-grouped record list has one record per run of its peers |
| MapRecords.NewMapRecords | src/map.c:98-182 | send records group the source side and receive records group the destination side, by the same procedure |
| MapRecords.SortedPeersIncrease | src/map.c:110-139 | sorted peers give strictly increasing record peers, one record per peer |
| MapRecords.GroupScenario | src/map.c:98-139 | peers `2, 2, 3, 3, 3, 5` give three records of sizes 2, 3 and 1 |
| Tags.TagDetermines | src/core/exchange/exchange.c:161-183 | two tags are equal exactly when sender and destination are equal |
| Tags.TagNonNegative | src/core/exchange/exchange.c:161-183 | every tag lies in `[0, W * (W + 1))` |
| Packing.Pack | src/core/exchange/backend_hardware/backend_cpu.c:70-86 | buffer position `offset + i` gets the data cell its entry names, through the transform if there is one; nothing else changes |
| Packing.Unpack | src/core/exchange/backend_hardware/backend_cpu.c:88-104 | each cell gets the buffer value of the last position naming it; unnamed cells keep their value |
| Packing.PackedSplit | src/core/exchange/backend_hardware/backend_cpu.c:70-86 | packing two adjacent segments one after the other equals packing both at once |
| Packing.UnpackedSplit | src/core/exchange/backend_hardware/backend_cpu.c:88-104 | unpacking two adjacent segments one after the other equals unpacking both at once |
| Packing.UnpackedWindow | src/core/exchange/backend_hardware/backend_cpu.c:88-104 | an unpack depends only on the window of buffer and index list it reads |
| Packing.PackThenUnpack | src/core/exchange/backend_hardware/backend_cpu.c:70-104 | unpacking a packed buffer restores every named cell; other cells keep the target's values |
| Packing.UnpackThenPack | src/core/exchange/backend_hardware/backend_cpu.c:70-104 | with an injective segment, packing what was unpacked gives the buffer segment back |
| Packing.UnpackThenPackCollision | src/core/exchange/backend_hardware/backend_cpu.c:70-104 | without injectivity the round trip loses a value |
| Packing.PackIdentity | tests/core/exchange/backend_hardware/packing_cpu_tests.c:51-117 | with the identity index list, a whole pack copies the data |
| Packing.UnpackIdentity | tests/core/exchange/backend_hardware/unpacking_cpu_tests.c:51-117 | with the identity index list, a whole unpack copies the buffer |
| Exchange.SegmentStep | src/core/exchange/exchange.c:144-146 | each segment ends where the next begins, and the last one ends at the buffer size |
| Exchange.PackSegments | src/core/exchange/exchange.c:139-154 | one pack per segment equals the single whole-buffer pack of `IsendIrecv2` |
| Exchange.UnpackSegments | src/core/exchange/exchange.c:386-418 | one unpack per arriving segment equals the single whole-buffer unpack |
| Exchange.PackPhase | src/core/exchange/exchange.c:123-419 | every exchanger kind packs the same send buffer |
| Exchange.UnpackPhase | src/core/exchange/exchange.c:123-419 | every exchanger kind leaves the same destination data |
| Exchange.NewExchanger | src/core/exchange/exchange.c:421-547 | a no-wait kind is refused unless one side is empty; on success the exchanger keeps the map's counts, sizes and index lists, stages a buffer only for a positive size, and sizes the request array as its kind needs |
| Exchange.PostCalls | src/core/exchange/exchange.c:123-419 | each kind posts a send per send segment to its peer, with the peer's tag, size and offset, into slot `k`; then a receive per receive segment with the peer's tag, non-blocking into the next slot only for the kinds that post receives |
| Exchange.RequestSlots | src/core/exchange/exchange.c:467-536 | the request array `new_exchanger` sizes is exactly the one the posts fill: the calls taking a request are the first `requests` ones, and call `k` takes slot `k` |
| ExchangeWorld.GoAll | src/core/exchange/exchange.c:421-560 | with the exchangers `new_exchanger` builds on every rank and staging buffers of the sizes it records, every rank ends with what its map says it receives |
| Exchange.MatchIsPeer | src/core/exchange/exchange.c:161-183 | a receive matches the sender's first segment addressed to the receiver, and none exists exactly when the sender has no such segment |
| ExchangeWorld.ReceiveAll | src/core/exchange/exchange.c:168-185 | writing each message at its segment's offset fills the buffer with the messages one after the other |
| ExchangeWorld.ExchangeAll | src/core/exchange/exchange.c:549-560 | every rank ends with the same delivered data, whatever the exchanger kind |
| ExchangeWorld.DeliverTo | src/core/exchange/exchange.c:168-198 | one rank receives its matched messages and unpacks them into the delivered data |
| DeliveredCells.DeliveredCell | src/core/exchange/exchange.c:123-199 | with an injective receive list, each destination cell ends with exactly the source cell the map pairs it with |
| ExchangeScenario.ScenarioMatched | tests/core/exchange/exchange_tests.c:70-170 | in the test's world, every receive finds a send of its size, in segment `d - 2` |
| ExchangeScenario.ScenarioLaid | tests/core/exchange/exchange_tests.c:70-170 | the test's world satisfies the hypotheses of `DeliveredCell` |
| ExchangeScenario.ExchangeScenario | tests/core/exchange/exchange_tests.c:70-170 | the test's steps on their own: each receiver gets segment `d - 2` of each sender, the senders' packs leave their data unchanged, and unpacking the two senders' segments for a receiver gives `0,1,8,9,2,3,10,11` and `4,5,12,13,6,7,14,15` |
| ExchangeScenario.ScenarioDelivered | tests/core/exchange/exchange_tests.c:70-170 | on the test's world, the data the exchange delivers to ranks 2 and 3 are `solution2` and `solution3` |
| ExchangeScenario.ScenarioRun | tests/core/exchange/exchange_tests.c:131-161 | for every exchanger kind, `new_exchanger` succeeds on every rank and the exchange leaves ranks 2 and 3 with `solution2` and `solution3` |
| ExchangeScenario.ScenarioUnpack | tests/core/exchange/exchange_tests.c:70-170 | the receivers' index list swaps the middle two pairs of any buffer |
| LegacyExchange.PackRecord | src/exchange.c:71-75 | one record's buffer gathers the cells its positions name, in order |
| LegacyExchange.PackAll | src/exchange.c:70-81 | every send record gets its own gathered buffer |
| LegacyExchange.PackMatchesCore | src/exchange.c:70-81 | the legacy buffers, one after the other, are the core's single pack through the records' positions |
| LegacyExchange.PostAll | src/exchange.c:61-91 | the sends are posted and then the receives, filling `send.count + recv.count` request slots with the right peers, tags and sizes |
| LegacyExchange.TagsPair | src/exchange.c:76-89 | a send and a receive carry the same tag exactly when each names the other |
| LegacyExchange.UnpackRecord | src/exchange.c:96-101 | one receive buffer is scattered exactly like the core unpack |
| LegacyExchange.UnpackAll | src/exchange.c:96-101 | the record-by-record unpack is the core's single unpack of the joined buffers |
| LegacyExchange.ReceivedMatchesCore | src/exchange.c:96-101 | the legacy unpack equals the core's single unpack through the records' positions |
| LegacyExchange.ExchangeGo | src/exchange.c:51-110 | `exchange_go` on one rank: the gathered send buffers, the posted requests, and the destination data after the unpack |
| IndexLists.New | src/core/indices/idxlist.c:43-62 | copies the first `count` entries in order, takes any count as given, and allocates only for a positive count |
| IndexLists.Empty | src/core/indices/idxlist.c:64-79 | count 0, a `NULL` list and no indices |
| IndexLists.FreesList | src/core/indices/idxlist.c:81-93 | on a valid list, delete frees exactly when a block was allocated |
| IndexLists.HoldingCopies | src/core/indices/idxlist.c:43-62 | a list depends only on the first `count` entries of the caller's array |
| IndexLists.HoldingRoundTrip | src/core/indices/idxlist.c:43-62 | reading back a list built from a whole array gives the array |
| LegacyIndexLists.New | src/idxlist.c:4-13 | the legacy constructor builds the same list as the core one |
| LegacyIndexLists.Empty | src/idxlist.c:15-21 | the legacy empty list equals the core's |
| LegacyIndexLists.FreesList | src/idxlist.c:23-27 | the legacy delete frees exactly when the core's does |
| Timers.FindIdValid | src/utils/timer.c:115-161 | in a valid registry, id `k` is found at position `k - 1`, and only ids `1..count` exist |
| Timers.NewNode | src/utils/timer.c:52-78 | the counter goes up by one, and a fresh stopped timer with total 0 is appended |
| Timers.NewTimer | src/utils/timer.c:80-113 | a known name returns its id and changes nothing; a new name gets id `count + 1` |
| Timers.NewTimerWalk | src/utils/timer.c:80-113 | the list walk, including the first-node case, computes exactly `NewTimer` |
| Timers.NewTimerIdempotent | src/utils/timer.h:74-87 | asking for the same name twice gives the same id, and the second call changes nothing |
| Timers.RegisterDistinct | src/utils/timer.c:80-113 | distinct new names get ids `count + 1, count + 2, ...` in order |
| Timers.InitialIds | src/utils/timer.c:49-113 | from the empty registry the first timer gets id 1, and ids run `1..count` |
| Timers.Start | src/utils/timer.c:115-137 | fails exactly on an unknown id or a running timer; otherwise only that timer's start changes |
| Timers.Stop | src/utils/timer.c:139-161 | fails exactly on an unknown id or a stopped timer; otherwise it adds the elapsed time and stops that timer only |
| Timers.StartThenStop | src/utils/timer.c:115-161 | a start at `t0` and a stop at `t1` add `t1 - t0` to that timer's total and change nothing else |
| Timers.StateErrors | src/utils/timer.c:115-161 | a timer cannot be started twice, nor stopped without being started |

## Left out

- MPI transport: sends, receives, waits, reductions and communicators become pure functions over the world. A receive is matched to the send of its source that carries its tag. `ExchangeWorld.Matched` requires each rank's peers to be pairwise distinct on both sides, as `new_map` produces them, so at most one message travels between two ranks and the order rule of section 3.5 of the MPI 3.1 standard has nothing to decide.
- Tags: the tag `src + W * (dst + 1)` is an unbounded integer in the model. In C it is an `int` and overflows when `W > 46340`. MPI only guarantees tags up to 32767 (`MPI_TAG_UB`, section 8.1.2 of the MPI 3.1 standard), which the tags exceed from `W = 181` on (`Tags.TagWithinGuaranteedBound`, `Tags.TagPastGuaranteedBound`).
- No-wait exchanger kinds: whether the wait happens inside `exchanger_go` does not change what a completed exchange delivers. The model covers completed exchanges only, so `exchanger_waitall` and its variants are not modelled.
- GPU back ends (CUDA and HIP kernels, device allocators): outside the CPU core.
- Memory management: allocation, `free`, `delete_map`, `delete_exchanger`, `delete_vtable`, `new_vtable_cpu` and `allocator_cpu`. The one allocation decision that matters, whether an index list owns a block, is modelled in `IndexLists`.
- Element types: the int, float and double kernels are one generic kernel over any element type. `select_un_pack_kernels` only picks among them.
- Exchange.PackSegments: the core exchanger calls the kernels without a transform. The model passes `None` there; the transform is modelled in `Packing`.
- Exchange.NewExchanger: the refusal of a no-wait kind with both directions non-empty is the `ERROR_CHECK` assertion at lines 496-527. Without `ERROR_CHECK` the C code builds the exchanger anyway; that build is not modelled.
- ExchangeWorld.ExchangeAll: the core `t_map`, with its `buffer_offset` and flattened `buffer_idxlist`, is built outside these files. The model takes each rank's map as a parameter.
- Rendezvous.Join: the C loop bounds `j` by the allocated bucket size, not by the number of indices received. The model joins over the received indices only, because slots past them are never written.
- Rendezvous.Join: an index with no destination rank leaves its C array entry unset. The model gives `None` there and makes the rendezvous fail.
- RendezvousWorld.MapToBuckets: requires every index to exceed `-size`, so that each lands in a bucket `0..W-1`. C's truncating division sends smaller negative indices to negative buckets, and the code then writes out of bounds.
- The stride variant `assign_idxlist_elements_to_buckets2`: its definition is not part of this model.
- The legacy rendezvous world: the legacy `map_idxlist_to_RD_decomp` is not part of this model. The legacy bucket assignment is modelled on its own (`Buckets.LegacyAssignBuckets`).
- The two world-level tests of the rendezvous: their four-rank source and destination lists would need a full world evaluation. The properties they check are proved for all inputs by `RendezvousWorld.RouteIndices`.
- Timers: the clock is a parameter, and times are exact reals rather than doubles. `timers_report`, `rmrf` and `unlink_cb` write files. `timers_reset` and `delete_timers` are declared in `timer.h` but not defined in `timer.c`.
- IndexLists.New: `new_idxlist` stores any values and any count, negative ones included; nothing checks them.
- Rendezvous.LocalStep: requires every index to exceed `-size`, as `RendezvousWorld.MapToBuckets` does. A smaller negative index goes to a negative bucket in C, and the count array is then written out of bounds.
- Timers.Stop: the failure cases are the `ERROR_CHECK` assertions. Without `ERROR_CHECK`, stopping a stopped timer adds `now + 1.0` to its total, because a stopped timer's start time is `-1.0`, and an unknown id dereferences a null pointer. That build is not modelled.
- Timers.Start: the failure cases are the `ERROR_CHECK` assertions. Without `ERROR_CHECK` the C code dereferences a null pointer on an unknown id. That build is not modelled.
- QuickSort.QuickSortIter: the out-of-bounds write on a one-entry range is undefined behaviour. The model reports it as an `overflow` result and returns the input unchanged.
- MergeSort.MergeSort: requires the range to lie inside the array when `l < r`; out-of-range arguments are undefined behaviour in C.
- The sorting test `test03` calls `timSort_with_idx2`, which `timsort.c` does not define. The model has no such function.

## Findings

| source | as written | input that shows it | evidently intended | confidence | as-written member | corrected member |
|---|---|---|---|---|---|---|
| src/sort/timsort.c:182-206 | `timSort(arr, l, r)` sets `n = r - l + 1` but runs and merges from index 0 | `arr = [3, 2, 1]`, `l = 1`, `r = 2` gives `[2, 3, 1]` | sort `arr[l..r]`, offsetting every index by `l` | not executed | TimSort.TimSortOffsetWitness | TimSort.TimSortRangeKeys |
| src/sort/quicksort.c:96-132 | the stack has `h - l + 1` slots, and `l` and `h` are pushed unconditionally | `l == h`: the second push writes `stack[1]` of a one-slot array | guard with `l < h`, as the recursive `quickSort` does | not executed | QuickSort.QuickSortOneEntryWitness | QuickSort.QuickSortIterGuarded |
| src/map.c:32-35 | the last rank adds `size % world_size` to the already divided size | largest index 5 on 4 ranks: sizes `1, 1, 1, 2` hold 5 of the 6 indices | add `(max + 1) % world_size`, so the sizes cover `0..max` | not executed | MapRecords.LegacyBucketSizesShort | MapRecords.BucketSizesCover |
