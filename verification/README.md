# Verified models of the repository's core algorithms

A Dafny model of five parts of the repository, with proofs about all of their
runs.

* **The boundary-tag allocator** (`musl/oldmalloc.c`, `include/bitwise.h`). The
  class `Allocator.Musl` holds a word memory (address -> word), the bin bitmap,
  the function-level statics and the statistics, and its methods perform the
  header and link stores of the C functions one by one. The ghost view relates
  those words to an abstract heap (address -> boundary tags), the contents of the
  64 bins and the mmapped chunks. `Invariant.Inv` says that segments are tiled
  exactly, header words agree with the tags, free chunks and bin lists are the
  same thing, and no two neighbours are free; `Growth`, `Invariant` and `Steps`
  prove that each group of stores keeps it, `Effects` and `Accounting` say what
  that means for the client and the counters. `Client.Run` is the theorem over
  whole runs: for any sequence of mallocs, frees of live blocks and stores into
  live blocks, against any kernel that hands out fresh pages, nothing crashes, and
  at every moment the live blocks are exactly those that the calls so far leave
  the client with, each still holding every word stored in it.
* **The worker hand-off** (`repros/repro4.c`): dispatcher and workers as
  interleaved atomic steps, `Handoff.Run` over every schedule; `Turns` says what
  the wait for `done` achieves when it does not time out, and what may happen when
  it does.
* **The netlink attribute builder and walker** (`repros/repro4.c`): the class
  `Netlink.Nlmsg` against a tree of attributes, its encoding and its decoding.
* **Fault-around windows** (`concepts/fault_around`): four computations of one
  window, under 64-bit wraparound, against a specification in page numbers.
* **Page scans and page tables** (`random/scan.c`, `pagestat/pagestat.c`): a
  shuffle and three traversals that agree; run-length abbreviated tables and a
  reader that recovers every page from the lines.

Words are natural numbers and `&`, `|`, `^` are defined on their binary digits
(`Bits`); every 64-bit wraparound is written out (`Wrap`). The kernel (sbrk, mmap,
munmap, madvise), the random streams and the scheduler are parameters, quantified
over.

Four statements one might expect are false of the code, and are stated exactly
instead. The original fault-around function compares page offsets after they may
have wrapped: it agrees with the other three versions if and only if none or all
of the three compared ends wrap (`FaultAround.AgreeIff`; `OriginalMayDiffer` is an
input where it does not). `share_highest_bit(a, b)` means what its name says for
a >= b, as the allocator calls it; in general it asks whether the highest bit of
`a` is set in `b` (`Bits.ShareHighestBitIs`, `ShareHighestBitMeans`), and the
remark that comparing with `a` is equivalent holds exactly if both are zero, or
neither is and the highest bits agree or the lower one is clear in the other
number (`Bits.ComparisonWithA`). The attribute walk in `netlink_query_family_id`
does not end on every reply: it ends inside the buffer if and only if the headers
it visits lead to the wanted one or past the received bytes, and runs for ever if
and only if they lead to one of another type and length 0 (`Netlink.WalkEndsIff`;
`ZeroIsStuck` is such a reply). The `prev` links in `random/scan.c` invert `next`
if and only if the page count divides 2^64 (`Scan.PrevInverts`; `Scan.ThreePages`
is a count where they do not).

`dafny verify dfyconfig.toml` verifies the project.

## Model

| member | source | states |
|---|---|---|
| `Client.Run` | musl/oldmalloc.c:491-721 | for every sequence of mallocs, frees of live blocks and stores, and every honest kernel: no free crashes; a malloc is served by the best free chunk from bin_index_up on whenever there is one, and fails only if the request is too large or the kernel refuses, for a heap block only when no free chunk is of good size; and at every moment the invariant holds, the live blocks are exactly those the calls so far (replayed with the pointers returned) leave the client with, each of the requested room, and every word stored in them is still there |
| `Client.DoMalloc` | musl/oldmalloc.c:491-590 | a malloc adds exactly the block it returned, which the client did not hold, with room for the request, and keeps all stored words; which free chunk it is served from, and when it may fail |
| `Client.DoRelease` | musl/oldmalloc.c:703-721 | freeing a live block does not crash, removes just that block and keeps the words of the others |
| `Client.Perform` | musl/oldmalloc.c:491-721 | one call changes the books as its replay says and keeps the invariant and all stored words |
| `Client.MapAndUnmap` | musl/oldmalloc.c:506-524 | freeing an mmapped block unmaps exactly the region malloc mapped: memory, abstract state, mmap_bytes and allocated_bytes are as before |
| `Client.LiveDisjoint` | musl/oldmalloc.c:460-590 | two live chunks, headers included, occupy disjoint ranges |
| `Client.PayloadHasNoHeader` | musl/oldmalloc.c:41-46 | no live payload contains a header word of any heap chunk |
| `Client.SegmentIsTiled` | musl/oldmalloc.c:41-46 | on the memory words: following the csize words from any chunk meets psize words equal to the csize before, in-use bit included, ends in a zero-size in-use sentinel, and the sizes add up to exactly the distance |
| `Totals.CountersAreSums` | musl/oldmalloc.c:93-101 | in every valid state allocated_bytes is the sum of live chunk sizes, free_bytes and free_block_bytes the sum of the free chunk sizes, all below 2^64; heap chunks total the bytes obtained less 32 per non-contiguous expansion, which ExpandHeap counts |
| `Allocator.Musl.constructor` | musl/oldmalloc.c:87-101 | the zeroed statics satisfy the invariant with an empty heap, nothing live and nothing obtained |
| `Allocator.Musl.MuslMalloc` | musl/oldmalloc.c:491-590 | a non-null result is 32-byte aligned, new, of exactly the adjusted size, holds the request; other payloads unchanged; null exactly when adjust_size or the kernel refuses; the heap grows exactly when no free chunk is in a bin from bin_index_up on, and by exactly the region obtained; else the chunk that has waited longest in the lowest such bin is served, cut to size, with the rest at the tail of its bin; an mmapped chunk is exactly the region mapped |
| `Allocator.Musl.MuslFree` | musl/oldmalloc.c:703-721 | a live pointer is freed without a crash and leaves all other payloads; a heap chunk ends in the one free block made of it and its free neighbours, at the tail of its bin, with all other free chunks in their places; the whole pages inside that block are zeroed and counted exactly when it is worth reclaiming; a pointer whose chunk heads a free block crashes with memory and heap unchanged, after allocated_bytes was lowered by the chunk size; null does nothing |
| `Allocator.Musl.HeapMalloc` | musl/oldmalloc.c:533-589 | the heap path hands out a chunk of exactly n bytes, or 0 exactly when it had to grow and the kernel refused; the whole new state: without growth the best fit unlinked and cut, with growth the grown chunk cut; it grows exactly when there is no fit |
| `Allocator.Musl.FindChunk` | musl/oldmalloc.c:551-578 | the head of the lowest non-empty bin from bin_index_up(n) on, which has at least n bytes; the heap is grown exactly when those bins are empty, and then every free chunk is below the good-fit bound |
| `Allocator.Musl.TakeFromBins` | musl/oldmalloc.c:551-564 | the search ends although its step discards the result of clear_lowest_bit, with the head of the lowest non-empty bin from i on, or 0 exactly if there is none |
| `Allocator.Musl.FastPath` | musl/oldmalloc.c:536-549 | takes the head of bin bin_index_up(n) exactly if that is not the last bin and the head has exactly n bytes; it is then the best fit |
| `Allocator.Musl.MmapMalloc` | musl/oldmalloc.c:506-531 | the chunk starts 16 bytes into the mapped area; the memory is the old one and exactly that region; both byte counts grow by it; null exactly if the kernel refuses |
| `Allocator.Musl.ExpandRegion` | musl/oldmalloc.c:283-349 | a page-aligned region of fresh pages by sbrk or else mmap with the growing minimum, and what the statics become |
| `Allocator.Musl.ExpandHeap` | musl/oldmalloc.c:351-400 | the whole new heap: the old sentinel extended when the region starts at the old end, else a new segment 32 bytes shorter than the region; bytes obtained and non-contiguous expansions counted exactly; invariant kept |
| `Allocator.Musl.Trim` | musl/oldmalloc.c:460-489 | the chunk ends up with exactly n bytes; if it had more, the heap is split there and the rest is a free chunk at the tail of its bin; no other payload changes |
| `Allocator.Musl.Unbin` | musl/oldmalloc.c:419-430 | the chunk leaves its list and is marked in use at both ends; bitmap and counters follow |
| `Allocator.Musl.BinChunk` | musl/oldmalloc.c:432-457 | the chunk is appended to its list; bitmap and counters follow |
| `Allocator.Musl.LockBin` | musl/oldmalloc.c:137-142 | an uninitialised bin becomes an empty circle, and memory with any other bin stays as it is |
| `Allocator.Musl.BinFree` | musl/oldmalloc.c:592-684 | freeing a live chunk never meets the footer check and leaves one free block, exactly the chunk and its free neighbours, at the tail of its bin; pages are reclaimed exactly when the block exceeds RECLAIM and a power of two lies in (size - osize, size], and then they are all the whole pages past header and links, zeroed and counted |
| `Allocator.Musl.FreeBlock` | musl/oldmalloc.c:592-663 | the two-sided merge and the binning of the merged block: its exact ends, and the lists without the merged neighbours and with the block at the tail of its bin |
| `Allocator.Musl.MergePrev` | musl/oldmalloc.c:613-633 | takes a free previous chunk off its list into the block |
| `Allocator.Musl.MergeNext` | musl/oldmalloc.c:634-653 | takes a free next chunk off its list into the block |
| `Allocator.Musl.MarkAndBin` | musl/oldmalloc.c:655-663 | writes the merged header and footer and puts the block at the tail of its bin; only the freed chunk stops being live |
| `Allocator.Musl.Reclaim` | musl/oldmalloc.c:665-681 | pages are given back exactly if a power of two lies in (size - osize, size] of a block above RECLAIM: from the least page boundary 32 bytes past its start to the greatest 32 bytes before its end; exactly those words become 0, no other word changes, and reclaimed_bytes grows by exactly the range |
| `Allocator.Musl.UnmapChunk` | musl/oldmalloc.c:686-701 | unmaps exactly the region mapped for the chunk, or crashes on an odd psize, having lowered allocated_bytes |
| `Effects.FreedTwice` | musl/oldmalloc.c:686-695 | the header of a free chunk reads as mmapped with an odd psize, since its predecessor is in use |
| `Effects.AdjustSizeIs` | musl/oldmalloc.c:402-417 | the adjusted size is the least positive multiple of 32 that holds request and header; refused exactly above the limit |
| `Effects.ServedSizeIs` | musl/oldmalloc.c:506-531 | the chunk that serves a request has room for it, and the mmap length is a positive number of pages |
| `Effects.LowBitOps` | musl/oldmalloc.c:41-51 | the masks on size words, as arithmetic |
| `Effects.SmallDifference` | musl/oldmalloc.c:462-463 | for n up to the size, both multiples of 32, the unsigned slack test holds exactly if they are equal |
| `Effects.ReclaimRange` | musl/oldmalloc.c:665-681 | the rounded page range of a block above RECLAIM is not empty, and is exactly the whole pages between 32 bytes past its start and 32 bytes before its end |
| `Effects.WorthIs` | musl/oldmalloc.c:667-667 | the share_highest_bit test of __bin_chunk, for the size of the block and the bytes freed, asks whether a power of two lies between |
| `Effects.MaskMeans` | musl/oldmalloc.c:551-564 | the masked bitmap is zero exactly when the bins from i on are empty; else its lowest bit is the first non-empty bin |
| `Effects.FuseEffect` | musl/oldmalloc.c:655-663 | the merge as the client, the counters and the memory see it |
| `Effects.SearchedAll` | musl/oldmalloc.c:551-578 | if the bins from bin_index_up(n) on are empty, every free chunk is below 5n/4, and below n for up to 33 units |
| `Effects.BestFitIsSmall` | musl/oldmalloc.c:551-564 | the chunk served has room for n bytes, is at most about a quarter larger than any other free chunk of the bins searched, and up to 33 units no larger than any of them |
| `Invariant.UnbinStep` | musl/oldmalloc.c:419-430 | the stores of unbin keep the whole invariant and all live payloads |
| `Invariant.AppendStep` | musl/oldmalloc.c:432-457 | likewise for bin_chunk |
| `Invariant.SplitStep` | musl/oldmalloc.c:460-489 | likewise for the split in trim |
| `Invariant.FuseStep` | musl/oldmalloc.c:655-663 | likewise for the merge |
| `Growth.LockStep` | musl/oldmalloc.c:137-142 | likewise for lazy initialisation of a bin |
| `Growth.ExtendStep` | musl/oldmalloc.c:371-399 | likewise for growth at the end of the heap |
| `Growth.NewSegmentStep` | musl/oldmalloc.c:371-399 | likewise for growth elsewhere |
| `Growth.MmapStep` | musl/oldmalloc.c:510-524 | likewise for a new mmapped chunk |
| `Growth.UnmapStep` | musl/oldmalloc.c:690-697 | likewise for unmapping one |
| `Growth.BodyStep` | musl/oldmalloc.c:666-681 | likewise for overwriting the inside of a chunk (reclaim, client stores) |
| `Heap.AllocateKeepsTiling` | musl/oldmalloc.c:419-430 | marking a chunk in use keeps the tiling |
| `Heap.SplitKeepsTiling` | musl/oldmalloc.c:460-489 | so does cutting a chunk in two |
| `Heap.FuseKeepsTiling` | musl/oldmalloc.c:606-663 | so does merging up to three chunks, with no two free neighbours |
| `Heap.ExtendKeepsTiling` | musl/oldmalloc.c:371-399 | so does giving the sentinel a body |
| `Heap.NewSegmentKeepsTiling` | musl/oldmalloc.c:371-399 | so does a new segment |
| `FreeList.UnlinkLemma` | musl/oldmalloc.c:419-430 | two stores take element k out of the circular list and nothing else |
| `FreeList.AppendLemma` | musl/oldmalloc.c:432-457 | four stores append to the circular list |
| `FreeList.OnlyElement` | musl/oldmalloc.c:421-422 | prev == next holds exactly for the only element |
| `Coalesce.MergedGap` | musl/oldmalloc.c:613-653 | nothing lies between the ends of the merged block but the chunks it absorbs |
| `Coalesce.MergedLive` | musl/oldmalloc.c:613-663 | merging removes exactly the freed chunk from the live ones |
| `Coalesce.MergedSums` | musl/oldmalloc.c:613-663 | and moves exactly its bytes from used to free |
| `BinIndex.IndexIs` | musl/oldmalloc.c:235-256 | bin_index is the partition of sizes by the arithmetic bin bounds behind the table |
| `BinIndex.IndexMonotone` | musl/oldmalloc.c:244-256 | it is monotone, with values up to 63 |
| `BinIndex.IndexUpIs` | musl/oldmalloc.c:260-273 | bin_index_up(n) is the first bin whose lower bound is at least n |
| `BinIndex.GoodFit` | musl/oldmalloc.c:235-273 | a chunk in a bin from bin_index_up(n) on fits n |
| `BinIndex.IndexUpLeast` | musl/oldmalloc.c:235-273 | no smaller index guarantees that |
| `BinIndex.SmallBinsAreSmall` | musl/oldmalloc.c:235-273 | a chunk in a lower bin is below 5n/4, and below n for up to 33 units |
| `BinIndex.LowerBinIsSmaller` | musl/oldmalloc.c:235-256 | a chunk of no higher bin than another's is at most about a quarter larger than it, and no larger for up to 33 units |
| `Expand.GrowInPlace` | musl/oldmalloc.c:371-399 | contiguous growth on memory, heap and arena together |
| `Expand.GrowElsewhere` | musl/oldmalloc.c:371-399 | non-contiguous growth, 32 bytes short of the region |
| `Expand.MmapLenIs` | musl/oldmalloc.c:318-340 | the mmap length is a whole number of pages, at least the request |
| `Expand.MmapLenGrows` | musl/oldmalloc.c:325-328 | the least mmap length starts at one page and doubles every second step, until the shift leaves nothing; the mmap length is the larger of it and the request |
| `Bits.AlignIs` | include/bitwise.h:14-19 | align64 clears the low bits: value - value % 2^k |
| `Bits.AlignUpIs` | include/bitwise.h:28-43 | align64_up, for every word: the least multiple of 2^k from the value on, wrapping to 0 above the last one |
| `Bits.IsBitSetIs` | include/bitwise.h:46-49 | the mask test is the binary digit |
| `Bits.MaskHighBitsIs` | include/bitwise.h:56-60 | keeps exactly the digits from `bit` on |
| `Bits.ClearLowestBitIs` | include/bitwise.h:63-71 | clears exactly the lowest set digit |
| `Bits.ShareHighestBitIs` | include/bitwise.h:80-85 | for all a and b: true exactly if a is 0 or the highest bit of a is set in b |
| `Bits.ShareHighestBitMeans` | include/bitwise.h:74-85 | for a >= b it means "same highest bit"; for a < b with different highest bits it is true exactly if the one of a is set in b |
| `Bits.ComparisonWithA` | include/bitwise.h:84-84 | for all a and b, when comparing with a instead of b is equivalent: exactly if both are zero, or neither is and the highest bits agree or the lower one is clear in the other number |
| `Bits.HighestBitSeparates` | include/bitwise.h:80-85 | for a >= b: false exactly if a power of two lies in (b, a] |
| `Bits.ShareHighestBitNeedsOrder` | include/bitwise.h:80-85 | the test is not symmetric |
| `Bits.FirstSet` | musl/oldmalloc.c:149-152 | the index of the lowest set digit |
| `Bits.SetBit` | musl/oldmalloc.c:452-453 | setting a bitmap bit changes just that digit |
| `Bits.ClearBit` | musl/oldmalloc.c:421-422 | clearing one likewise |
| `Handoff.RunInv` | repros/repro4.c:629-670 | every interleaving keeps the protocol invariant |
| `Handoff.RunIsSafe` | repros/repro4.c:133-160 | no event_set finds its event set; no call is dropped; call k goes to a worker of index at most k; no call is entered twice or unsent |
| `Handoff.ExecutesItsCall` | repros/repro4.c:629-640 | a worker enters exactly the call of its current dispatch, for the first time |
| `Handoff.SlotIsStable` | repros/repro4.c:629-663 | from the moment a call is counted in until done is set again no step of any thread overwrites its slot |
| `Handoff.RunningCounts` | repros/repro4.c:636-660 | running is the number of calls counted in and not counted out, each on the thread it was sent to |
| `Handoff.DistinctCalls` | repros/repro4.c:629-663 | threads that are counted in owe different calls |
| `Handoff.AllSent` | repros/repro4.c:642-667 | at the final loop exactly the fifteen calls have been sent |
| `Handoff.ZeroMeansReturned` | repros/repro4.c:668-669 | when running is 0, the calls returned are exactly those sent |
| `Handoff.ZeroAtTheEnd` | repros/repro4.c:668-669 | in every run, a final loop that read 0 implies that all fifteen calls have returned |
| `Handoff.ZeroIsReachable` | repros/repro4.c:629-670 | no deadlock: from every reachable state in which the dispatcher has not left, some continuation lets it read 0 with all fifteen calls returned |
| `Handoff.SearchGoesOn` | repros/repro4.c:646-657 | a busy worker's index is below the call number, so the search has a next thread |
| `Turns.OneAtATime` | repros/repro4.c:642-669 | in every schedule without a time-out at most one call is in flight, every call goes to thread 0, calls are entered in order, each after the one before has returned, and the dispatcher leaves only when all fifteen have |
| `Turns.DoneWithoutTimeout` | repros/repro4.c:629-670 | from every state such a schedule reaches, waiting suffices: some continuation without a time-out lets the dispatcher see that all fifteen calls have returned |
| `Turns.FairRunsEnd` | repros/repro4.c:629-670 | every fair schedule without a time-out ends so: 1785 stretches in each of which the dispatcher and thread 0 both take a turn, in any order and amid any other steps, are enough |
| `Turns.AllAtOnce` | repros/repro4.c:642-669 | with time-outs the calls may all overlap: a run in which the dispatcher leaves while all fifteen are in flight, each on a thread of its own |
| `Netlink.BuildAndRead` | repros/repro4.c:220-243 | any balanced sequence of calls that fits and nests at most 8 deep is the script of a forest, leaves exactly its encoding, ends 4-aligned, and decodes to it under every schema, by path of types, that it conforms to |
| `Netlink.ForestRuns` | repros/repro4.c:220-243 | the script of a forest writes that forest |
| `Netlink.ExecScript` | repros/repro4.c:220-243 | the calls can be read off what the builder has recorded, so calls and forest determine each other |
| `Netlink.RoundTrip` | repros/repro4.c:317-326 | the walk by aligned lengths, at every level, decodes an encoded forest to itself; which paths of types are nests is arbitrary |
| `Netlink.HeaderReads` | repros/repro4.c:317-326 | at an attribute the walk reads its type and payload, and steps to exactly the next one |
| `Netlink.EncodeBytes` | repros/repro4.c:220-229 | an encoded attribute is its length and type, each with the low byte first, its payload, and zeros up to the next multiple of 4 |
| `Netlink.Build` | repros/repro4.c:220-243 | making the calls in order succeeds exactly when each is allowed, and then has recorded their execution |
| `Netlink.FindId` | repros/repro4.c:317-326 | whenever the headers the loop visits lead to an end, it returns the 16-bit value at that end, low byte first, or 0 past the received bytes |
| `Netlink.WalkEndsIff` | repros/repro4.c:317-326 | for any received bytes: the loop ends inside the buffer if and only if the headers it visits lead to the wanted one or past the bytes; it never ends if and only if they lead to one of another type and length 0 |
| `Netlink.FirstIsFound` | repros/repro4.c:317-326 | on well-formed attributes it ends, with the value of the first one of the wanted type, 0 if none |
| `Netlink.ZeroIsStuck` | repros/repro4.c:317-326 | on a zeroed 4096-byte buffer with 24 bytes received, walked from offset 20, the loop never ends |
| `Netlink.Nlmsg.constructor` | repros/repro4.c:209-218 | the message header with the type and the flags at their offsets, low byte first, the fixed part, and an empty aligned attribute area |
| `Netlink.FlagsBits` | repros/repro4.c:215-215 | a bit of the flags is set exactly if it is REQUEST, ACK or asked for |
| `Netlink.Nlmsg.Attribute` | repros/repro4.c:220-229 | appends one leaf to the innermost open level: length and type with the low byte first, then the data, and no other byte changes; outer levels and recorded positions stay |
| `Netlink.Nlmsg.BeginNest` | repros/repro4.c:231-237 | opens one level: its position is recorded and its type stored low byte first; its length is not yet written and no other byte changes |
| `Netlink.Nlmsg.EndNest` | repros/repro4.c:239-243 | closes the innermost level: the distance from its recorded position is stored there, low byte first, and covers exactly its children; no other byte changes |
| `Netlink.Nlmsg.Seal` | repros/repro4.c:248-251 | refuses exactly while a nest is open, else stores the message length in the first four bytes, low byte first, and changes nothing else |
| `Netlink.AlignIs` | repros/repro4.c:218-228 | NLMSG_ALIGN rounds up to the next multiple of 4 |
| `FaultAround.WindowIsSafe` | concepts/fault_around/fault_around.cc:50-138 | the window contains the faulting page, has at most nr_pages pages, stays in the VMA and in one 512-entry table; it starts in the aligned block around that page, and neither end could lie further out |
| `FaultAround.Take1IsWindow` | concepts/fault_around/fault_around.cc:78-97 | take 1 computes the window, under wraparound |
| `FaultAround.FinalIsWindow` | concepts/fault_around/fault_around.cc:99-138 | take 2 and the final version compute the window, under wraparound |
| `FaultAround.OriginalIs` | concepts/fault_around/fault_around.cc:50-76 | the original as offsets from the start of the window |
| `FaultAround.AgreeIff` | concepts/fault_around/fault_around.cc:50-138 | same start always; same range if and only if none or all of the compared ends wrap |
| `FaultAround.AllAgree` | concepts/fault_around/fault_around.cc:50-138 | all versions agree whenever the file offset of the VMA plus its pages plus one page table is at most 2^64 |
| `FaultAround.OriginalMayDiffer` | concepts/fault_around/fault_around.cc:50-76 | an input on which the original differs |
| `FaultAround.AlignDownIs` | concepts/fault_around/shared.h:12-16 | ALIGN_DOWN, although it adds and subtracts modulo 2^64, rounds down |
| `FaultAround.PteIndexIs` | concepts/fault_around/shared.h:24-27 | the page number modulo 512 |
| `FaultAround.RoundDownIs` | concepts/fault_around/shared.h:106-110 | the largest power of two up to n |
| `FaultAround.RoundedPages` | concepts/fault_around/shared.h:106-117 | a rounded byte count is a power-of-two page count from 1 to 512 |
| `FaultAround.Tester.GetRandom` | concepts/fault_around/fault_around.cc:141-146 | for every random state, the number drawn, modulo to - from, added to from, times mult, aligned down |
| `FaultAround.Tester.GenVmf` | concepts/fault_around/fault_around.cc:148-196 | the generated fault in terms of the four numbers drawn; it meets the equivalence's preconditions; no CHECK fires |
| `FaultAround.Tester.DoTest` | concepts/fault_around/fault_around.cc:198-223 | compares the two functions on a generated fault and the largest power of two up to a fifth number drawn; MISMATCH is unreachable for every random stream |
| `Scan.ScanAll` | random/scan.c:104-137 | for every random stream and count of at least 1 the three totals agree, on 0 + ... + (count - 1) modulo 2^64 |
| `Scan.Permute` | random/scan.c:55-63 | the array after the swaps the random stream picks, and that it is a permutation of the pages |
| `Scan.PickIs` | random/scan.c:58-58 | the position drawn for i is the one of 0 .. i that the random number is congruent to |
| `Scan.EveryOrder` | random/scan.c:55-63 | every permutation of the pages is what the swaps make of some stream of draws in range |
| `Scan.OrdersDiffer` | random/scan.c:55-63 | two streams of draws in range that differ give different orders: streams and permutations correspond one to one |
| `Scan.LinkPages` | random/scan.c:65-70 | next follows the array cyclically, age is the position, prev is the element at (i - 1) % count on unsigned longs |
| `Scan.BeforeIs` | random/scan.c:68-68 | the index (i - 1) % count is i - 1 for i > 0; for i = 0 it is the last one if count divides 2^64, else the remainder of 2^64 less 1 |
| `Scan.PrevInverts` | random/scan.c:65-70 | prev inverts next on every page if and only if the page count divides 2^64 |
| `Scan.ThreePages` | random/scan.c:65-70 | with three pages the first page is its own predecessor |
| `Scan.OneTurn` | random/scan.c:130-137 | the list from page 0 meets every page exactly once before it returns |
| `Scan.ListScan` | random/scan.c:130-137 | the loop ends after exactly count steps with the total over that turn |
| `Scan.PhysicalScan` | random/scan.c:108-114 | the total in memory order |
| `Scan.ArrayScan` | random/scan.c:118-125 | the total in array order |
| `Scan.TotalPermuted` | random/scan.c:108-137 | a total does not depend on the order |
| `Pagestat.TableReadsBack` | pagestat/pagestat.c:480-529 | the lines of a table account for every page exactly once with its address and flags; the entries shown are those of the first page of each run and the second of a run of two; those with a PFN are exact, and unshown pages repeat their predecessor |
| `Pagestat.AllReadsBack` | pagestat/pagestat.c:571-610 | the whole output reads back as one group for each mapping that is not ignored, up to the first missing one, in order: its start and all its pages |
| `Pagestat.NewValIs` | pagestat/pagestat.c:499-502 | a page continues a run exactly if flag bits agree and, with a PFN, the entry is the same or one more |
| `Pagestat.RebuiltIs` | pagestat/pagestat.c:488-493 | the rebuilt word is the entry when it has a PFN, else exactly when its low bits were clear |
| `Pagestat.Printer.PrintAbbrev` | pagestat/pagestat.c:480-494 | prints what the run state calls for |
| `Pagestat.Printer.PrintMapping` | pagestat/pagestat.c:496-519 | the new run state and the lines printed |
| `Pagestat.Printer.Terminate` | pagestat/pagestat.c:521-529 | closes the run and resets the state |
| `Pagestat.Printer.Print` | pagestat/pagestat.c:571-591 | from the reset state prints exactly the table of the mapping and ends in the reset state |
| `Pagestat.Printer.PrintAll` | pagestat/pagestat.c:598-610 | prints the concatenation of the tables: calls are independent |
| `Pagestat.HasPfnOfFlags` | pagestat/pagestat.c:252-264 | whether an entry has a PFN is decided by its flag bits |
| `Pagestat.FieldsRead` | pagestat/pagestat.c:252-264 | an entry has a PFN exactly if bit 63 is set and bit 62 clear; the PFN is its low 55 bits, the flags are the rest |
| `Pagestat.VirtPagesAre` | pagestat/pagestat.c:266-269 | a mapping has one page for every four kilobytes |

## Left out

- Allocator.Musl: single-threaded, because `lock` and `unlock` are empty stubs; the lock fields and errno are not modelled, and debug printing is not either.
- Allocator.Musl.ExpandRegion: does not tie `mmap_bytes` to the bytes obtained, because line 336 counts before the failure check.
- Allocator.Musl.MmapMalloc: in the allocator memory is a map from addresses to words; partial-word and overlapping stores by a client are not modelled, and client stores in `Client.Run` are aligned words.
- Allocator.Musl.TakeFromBins: the search loop's `break` is a flag in the loop condition.
- Allocator.Musl: the success test at line 309 compares a pointer with 0; success or failure of sbrk is the kernel's choice here.
- Handoff: sequential consistency; futexes, sleeping, thread creation failure and what the calls themselves do are left out. That every fair schedule finishes is proved for those without a time-out; with time-outs, that some continuation does.
- Netlink.BuildAndRead: attribute types are 16-bit, as the field is; sending, receiving and error replies are left out.
- Netlink.FindId: is not called on replies on which the loop runs for ever or reads past the buffer; `Netlink.WalkEndsIff` says which those are.
- FaultAround.Final: one function for `do_fault_around_take2` and `do_fault_around`, whose expressions are the same; `fls64` by its specification; threads, locks and reports are left out.
- Scan: time measurement, option parsing and allocation failure; a count of 0 is undefined in the original (its list scan follows a link of a page that does not exist) and excluded.
- Pagestat: the text of a line, smaps parsing, reading /proc, `pagestat_print_diff` (it leaves the run state unreset), and the swap fields of entries that an abbreviated run drops.
- Pagestat.Printer.Print: `ignored_ps` is a flag of the mapping, the page size is 4096, and the counters, which stay below 2^52, do not wrap.
- `repros/repro_hugetlb_uffd.c` repeats the netlink builder; the rest of `random/`, `kernel/`, `mad/`, `shmem/`, `socket/`, `userfaultfd/`, `tools/` and the other repros are straight-line system-call experiments with only easy properties.
