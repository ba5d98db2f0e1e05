# Verification model of the homework programs

A Dafny model of the parts of the repository that carry algorithms, with proofs that they do what they are for.

**The coalescing allocator** (`HW4Wet/malloc_4.cpp`) is the main part.
Its blocks lie one behind the other in the `sbrk` area, on a doubly linked list in address order;
the free ones are also on one of 128 chains by size.
`Malloc.Allocator` is the allocator with its pointers, counters and memory.
A pointer is the address of a header; the fields of the header structure are maps from that address;
memory is a map from addresses to bytes, and every write to a field of a header may change all 48 bytes of it.
So an allocator that overwrote a payload with a header, or moved a payload after its bytes were gone, would not verify.
`Clients.Client` is a program that calls it; its log is a run in the sense of `Runs`, so that what holds of all runs
holds of the allocator that the program calls.
`Heap` says what each call does to the list of blocks as a value, and `Malloc.Allocator.Valid` ties the two together:
the list is linked both ways, it is laid out in the `sbrk` area, and the histogram holds exactly its free blocks.
`Promises` says, in sizes and addresses of blocks only, when a call succeeds, which block it returns and where the break is
afterwards.  What mmap does each time it is asked, refuse or grant, is an arbitrary sequence of replies.

**The first-fit allocator** (`HW4Wet/malloc_2.cpp`) is `FirstFit.Allocator`, in the same style, and
`FirstFitRuns.Client` a program that calls it, whose log is a run.

**The web server** (`HW3Wet/server.c`, `HW3Wet/queue.c`) has a queue of connections between one acceptor and N workers,
one mutex, two condition variables and four overload policies.
`RequestQueue.Queue` is the list between two sentinels, `Server.Monitor` the critical sections over it,
`ServerRuns` the state machine whose steps are the critical sections, with signals as POSIX.1-2017 has them:
a signal wakes at least one waiter if there is one, and threads may wake up without a signal.
`ServerSteps.Pool` runs the monitor beside the state machine: each critical section is a step of it, and the states so
far are a run.
`ServerProgress` holds what follows for all runs.

**The buffered reader** (`rio_*` in `HW3Wet/segel.c`) is `RobustIo.Rio`, over a file whose `read()` delivers, interrupts and
fails as an arbitrary plan says.
`RobustIoRuns.Session` makes both kinds of calls on it in any order, and `RobustIoRuns.LineReader` reads line after line.

**The job list of the shell** (`HW1Wet/Commands.cpp`) is `Jobs.JobsList`, with the fg command.

## Files

| file | content |
|---|---|
| Basics | what several modules use |
| Links, Histogram | pointer surgery on chains; the chains of free blocks by size |
| Heap, HeapLaws, HeapCalls, Promises | the heap as a value: what the calls do, what they keep, and what callers get |
| HeapView, Memory, Payload | the view of the headers as such a value; the bytes of memory and whose they are |
| Allocator | the allocator |
| Runs, PayloadRuns, Clients, Limits | runs of calls; what becomes of payloads; a program that makes them; runs to the limits |
| FirstFit, FirstFitRuns | the first-fit allocator and its runs |
| RequestQueue, Server, ServerRuns, ServerSteps, ServerProgress | the web server |
| RobustIo, RobustIoRuns | the buffered reader and successive calls of it |
| Jobs | the job list |

## Where the code does not do what one would expect

* `sbrk_wrapper` (HW4Wet/malloc_4.cpp:205-211) leaves a header behind when its second `sbrk` fails.
  That happens to a request exactly when no free block fits, the last block is in use or there is none, and there is room
  left for a header but not for the payload (`HeapCalls.MallocStrands`).  At every moment of every run the blocks tile the
  heap exactly when no earlier call was made in that situation (`Runs.RunsTile`), and `_num_meta_data_bytes` is then, and
  only then, in proportion to `_num_allocated_blocks` (`Clients.Client.MetaInProportion`).  `Limits.StrandingRun` is a run
  of one call that does it.  The first-fit allocator (HW4Wet/malloc_2.cpp:136-148) counts such a header as a block
  (`FirstFitRuns.Client.AllocatedRecount`, `FirstFitRuns.StrandingRun`).
* Merging may make a free block of 131072 bytes or more, which has no chain.  After a release every free block has a
  chain exactly when the merged block is smaller (`HeapCalls.FreeBucketed`).  After what `srealloc` merges, in place or by
  releasing the old block when the new one is mmapped, every free block has a chain exactly when `Heap.ReallocFits` holds
  before: the blocks that the path taken unites are smaller together (`HeapCalls.ReallocBucketed`).  `Limits.OversizedRun`
  leads to a heap where both fail, a release and an `srealloc` to 110000 bytes.  The methods require it of each call.
* `srealloc` of an mmapped block to less than 131072 bytes (HW4Wet/malloc_4.cpp:380-386) cuts off a remainder when it
  is worth 176 bytes.  The remainder gets a chain of the histogram and is linked behind the mmapped header only, with
  `all_list_end` naming it, so that it is not on the list of the heap.  A remainder of 131072 bytes or more has no chain:
  the array of chains is left.  For every mmapped block the allocator is in order afterwards exactly when no remainder is
  cut off (`Malloc.Allocator.ReallocMapped`; `Limits.MappedRun` is an instance).  `Malloc.Allocator.Srealloc` requires that.
* `srealloc` does not merge the remainder that it cuts off with a free block behind it.  It leaves two adjacent free blocks
  exactly in that case (`HeapCalls.ReallocAdjacent`, over runs `Runs.StepCoalesces`); `Limits.AdjacentRun` does it.
* `scalloc` multiplies without looking for overflow: it allocates and clears the product as `size_t` has it.  A block it
  returns has room for `num * size` bytes, all zero, exactly when the product does not wrap around
  (`Malloc.Allocator.Scalloc`, `FirstFit.Allocator.Scalloc`; `Limits.WrappedRun` is an instance).
* The drop-head policy frees the queue node of the oldest connection without closing the connection.  Every connection
  that is dealt with is closed once in all runs exactly under the other policies, or if the queue size is 0 or less
  (`ServerProgress.ClosesAllIff`).
* The server deals with every connection exactly when it has a worker and, under the blocking policy, a queue size of at
  least 1.  The one exception: under the other policies a queue size of 0 or less makes it refuse everything, for which it
  needs no worker (`ServerProgress.ServesIffCanServe`).
* `our_ceil` is the ceiling exactly on whole and on non-negative numbers (`Server.OurCeilIsCeil`); only the latter occur.
* `rio_readlineb` returns the number of bytes of the line only if the line ends with a newline, or returns 0 when nothing
  is left.  Otherwise, so for a last line without a newline or one cut off by the buffer, it counts the NUL too
  (`RobustIo.Rio.ReadLineB`).  With a buffer length of 0 it still writes the NUL.
* `addJobWithId` loses a job whose identifier is the last one on the list, or is not positive while the list is empty
  (`Jobs.LostIff`).  The shell never does this: a job comes back under an identifier that has been removed from the list.

## Model

| member | source | states |
|---|---|---|
| Malloc.RoundedIsAligned | HW4Wet/malloc_4.cpp:11-19 | rounding up gives the least multiple of 8 not below the size, unless it wraps around to 0 |
| Malloc.Allocator.RemoveNodeHisto | HW4Wet/malloc_4.cpp:69-97 | a free block leaves its chain, a used one or NULL changes nothing; the histogram stays exact and only headers are written |
| Malloc.Allocator.AddNodeHisto | HW4Wet/malloc_4.cpp:126-161 | the block joins the chain of its size class in its place; the histogram stays exact |
| Histogram.HistoInsert | HW4Wet/malloc_4.cpp:145-161 | splicing in before the first larger block keeps all chains linked, sorted and exact |
| Histogram.HistoRemove | HW4Wet/malloc_4.cpp:80-97 | splicing out keeps all chains linked, sorted and exact |
| Links.ChainInsert | HW4Wet/malloc_4.cpp:113-118 | the pointer writes of an insertion give the chain with the node at its position |
| Links.ChainRemove | HW4Wet/malloc_4.cpp:309-319 | the pointer writes of a removal give the chain without the node |
| Malloc.Allocator.AddNodeList | HW4Wet/malloc_4.cpp:100-123 | the header joins the list behind the given one, and the end of the list follows |
| Malloc.Allocator.SplitBlock | HW4Wet/malloc_4.cpp:171-185 | a block, free or in use, becomes a used block of the requested size and a free remainder behind it; all invariants and all payloads survive |
| Malloc.Allocator.CreateMetadata | HW4Wet/malloc_4.cpp:51-67 | a cleared header at the old break, or no change when sbrk fails |
| Malloc.Allocator.SbrkWrapper | HW4Wet/malloc_4.cpp:189-214 | when nothing fits, the free wilderness block is enlarged, or a block is appended, or nothing is handed out |
| Malloc.Allocator.ExtendWilderness | HW4Wet/malloc_4.cpp:191-203 | the failed search makes the increment positive; the last block is in use with the requested size |
| Malloc.Allocator.AppendBlock | HW4Wet/malloc_4.cpp:205-213 | a new last block, or nothing, or an orphaned header, as sbrk allows |
| Malloc.Allocator.FindFit | HW4Wet/malloc_4.cpp:253-269 | the search through the chains finds a smallest free block that is large enough, and finds none only if there is none |
| Histogram.FirstIsBest | HW4Wet/malloc_4.cpp:257-265 | the first block that fits, on the first chain that has one, is a smallest among all free blocks that fit |
| Histogram.NoneFits | HW4Wet/malloc_4.cpp:257-271 | when all chains have been searched no free block fits |
| Malloc.Allocator.MmapWrapper | HW4Wet/malloc_4.cpp:216-231 | mmap is asked once; a new mmapped block exactly when it grants a region, with the statistics kept exact |
| Malloc.Allocator.DeallocateMmap | HW4Wet/malloc_4.cpp:233-241 | the mmapped block is gone, with the statistics kept exact |
| Malloc.Allocator.TakeFit | HW4Wet/malloc_4.cpp:276-287 | the block found is handed out, split when 128 bytes and a header are left |
| Malloc.Allocator.Smalloc | HW4Wet/malloc_4.cpp:243-288 | best fit, else growth, else mmap, by size; below 131072 bytes it succeeds exactly when a free block is large enough or the break can go up far enough, from there on exactly when mmap grants; invariants kept, break not lowered, no payload in use touched |
| HeapLaws.MallocServes | HW4Wet/malloc_4.cpp:253-287 | a successful request is served by a block in use of at least that size that was not in use before, and every block in use stays |
| HeapLaws.OutcomeServes | HW4Wet/malloc_4.cpp:243-288 | the same over both sources of memory |
| Malloc.Allocator.UniteRight | HW4Wet/malloc_4.cpp:291-326 | two adjacent free blocks become one, anything else changes nothing; all invariants survive |
| Malloc.Allocator.FreeBlock | HW4Wet/malloc_4.cpp:340-344 | the block is released and united with its free neighbours; no payload in use is touched |
| Malloc.Allocator.Sfree | HW4Wet/malloc_4.cpp:329-345 | NULL and released blocks change nothing, a heap block and its free neighbours are one free block of their total size, mmapped ones are unmapped |
| Promises.RequestSucceeds | HW4Wet/malloc_4.cpp:243-287 | a request below 131072 bytes succeeds exactly when some free block is large enough or the break can go up by what is missing; the break goes up only when no free block is large enough, and by exactly that |
| Promises.RequestGets | HW4Wet/malloc_4.cpp:253-287 | it gets a smallest block that fits, with a free remainder exactly if that has 128 bytes or more; else the last block, enlarged, if that is free; else a new one at the break |
| Promises.ReleaseCoalesces | HW4Wet/malloc_4.cpp:340-344 | the released block and its free neighbours are one free block of their total size and headers, all others are as before |
| Promises.ReallocInPlace | HW4Wet/malloc_4.cpp:380-432 | the block itself if it is large enough, else with the left neighbour if that makes room whatever lies to the right, else with the right one, else with both: which address, which blocks result, and the break as it was |
| Promises.ReallocElsewhere | HW4Wet/malloc_4.cpp:433-455 | only otherwise the last block grows, if the break can go up that far, and any other block moves |
| Promises.MoveReleases | HW4Wet/malloc_4.cpp:448-453 | after a move the old block and its free neighbours are one free block |
| Promises.ReallocSucceeds | HW4Wet/malloc_4.cpp:380-455 | srealloc of a heap block below 131072 bytes succeeds exactly when one of these ways is open; a failing one leaves the blocks as they are |
| Promises.RemapReleases | HW4Wet/malloc_4.cpp:371-378 | to 131072 bytes or more: the new block is mapped, and the old one of the heap is released with its free neighbours |
| Promises.RemapUnmaps | HW4Wet/malloc_4.cpp:371-378 | the same for an mmapped block, which is unmapped |
| HeapCalls.FreeShape | HW4Wet/malloc_4.cpp:340-344 | a release replaces the block and its free neighbours by one free block of their total size |
| HeapLaws.FreeNoAdjacent | HW4Wet/malloc_4.cpp:340-344 | a release leaves no adjacent free blocks if there were none |
| Malloc.Allocator.UniteSrealloc | HW4Wet/malloc_4.cpp:347-352 | the block counts as free, is on its chain once also when called the second time, and is united |
| Malloc.Allocator.TrimBlock | HW4Wet/malloc_4.cpp:395-400 | the rest of a united block is cut off if it is worth it, and the payload in front of it survives |
| Malloc.Allocator.ReallocReuse | HW4Wet/malloc_4.cpp:380-386 | the block stays, perhaps trimmed, with its payload |
| Malloc.Allocator.ReallocLeft | HW4Wet/malloc_4.cpp:388-402 | united with its left neighbour, the old payload is at the new place although the ranges overlap, and all others are untouched |
| Malloc.Allocator.ReallocRight | HW4Wet/malloc_4.cpp:404-417 | united with its right neighbour, the payload stays in place |
| Malloc.Allocator.ReallocBoth | HW4Wet/malloc_4.cpp:419-432 | united with both neighbours by two merges, the old payload is at the new place |
| Malloc.Allocator.ReallocWilderness | HW4Wet/malloc_4.cpp:434-442 | the last block grows by a positive increment of the break, or nothing changes |
| Malloc.Allocator.MoveBlock | HW4Wet/malloc_4.cpp:448-455 | a new block gets the payload and the old one is released; on failure nothing changes |
| Malloc.Allocator.Srealloc | HW4Wet/malloc_4.cpp:359-456 | which heap results on each path: in place if the block is large enough, else with the left neighbour if that makes room, else with the right one, else with both, always without raising the break; it fails exactly when none of these fits and the last block cannot grow, or no other block can be had, or from 131072 bytes on mmap refuses; on success a block in use of the requested size whose first min(old size, new size) bytes are the old payload; every other payload, and on failure the old one too, is unchanged; the break does not go down |
| HeapLaws.UnitedFacts | HW4Wet/malloc_4.cpp:387-432 | on each in-place path the united block has room for the request and lies within the blocks it came from |
| HeapLaws.ReallocBreak | HW4Wet/malloc_4.cpp:433-442 | reallocation never lowers the break, and keeps it under the limit |
| Malloc.Allocator.Scalloc | HW4Wet/malloc_4.cpp:458-465 | as smalloc of the product as size_t has it, also in when it succeeds, whose bytes are all zero afterwards; a block with room for num * size zero bytes exactly when the product does not wrap around; no payload in use is touched |
| Malloc.Allocator.NumAllocatedBlocks | HW4Wet/malloc_4.cpp:491-499 | the number of blocks of both kinds |
| Malloc.Allocator.NumAllocatedBytes | HW4Wet/malloc_4.cpp:513-521 | the total size of the blocks of both kinds |
| Malloc.Allocator.NumMetaDataBytes | HW4Wet/malloc_4.cpp:467-470 | 48 bytes for every block of both kinds and every orphaned header |
| Malloc.Allocator.Accounts | HW4Wet/malloc_4.cpp:467-521 | sizes and headers, orphaned ones included, add up to what was obtained from sbrk and mmap |
| Malloc.Allocator.constructor | HW4Wet/malloc_4.cpp:42-47 | the empty allocator is in order |
| HeapLaws.TilesIffNoOrphans | HW4Wet/malloc_4.cpp:189-214 | a heap in order is tiled by its blocks exactly when the account of its extent has no orphaned header |
| HeapLaws.MergeLayout | HW4Wet/malloc_4.cpp:308-323 | merging keeps order, alignment, sizes and the account of the extent |
| HeapLaws.CarveLayout | HW4Wet/malloc_4.cpp:171-185 | so does splitting |
| HeapLaws.GrowLayout | HW4Wet/malloc_4.cpp:189-214 | so does growing, and the break stays between the old one and the limit |
| HeapCalls.MallocStrands | HW4Wet/malloc_4.cpp:189-214 | an allocation leaves a header behind exactly when nothing fits, the last block is not free, and there is room for a header but not for the payload |
| HeapCalls.ReallocLayout | HW4Wet/malloc_4.cpp:380-456 | srealloc keeps order, alignment, sizes and the account of the extent on every path |
| HeapCalls.ReallocServes | HW4Wet/malloc_4.cpp:380-456 | a successful srealloc is served by a block in use of at least the requested size |
| HeapCalls.MoveSmall | HW4Wet/malloc_4.cpp:387-448 | a block that has to move has so little free room beside it that releasing it needs no further condition |
| Runs.StepSound | HW4Wet/malloc_4.cpp:243-465 | every call keeps the layout of the heap, the limit of the break, and the mapped blocks apart |
| Runs.RunSound | HW4Wet/malloc_4.cpp:243-465 | so at every moment of every run they hold |
| Runs.StepCoalesces | HW4Wet/malloc_4.cpp:243-456 | a call on a heap without adjacent free blocks leaves some exactly when it is an srealloc that cuts a remainder off in front of a free block |
| Runs.RunsCoalesce | HW4Wet/malloc_4.cpp:243-456 | over any run no two adjacent blocks are both free until an srealloc cuts a remainder off in front of a free block; smalloc, scalloc and sfree never end that |
| Runs.RunsTile | HW4Wet/malloc_4.cpp:189-214 | at every moment of every run the blocks tile the heap exactly when no earlier call asked for a new block with room for its header but not for its payload |
| Runs.RunsReuse | HW4Wet/malloc_4.cpp:253-344 | in every run, when a heap block is released and the next request is no larger, it is served and the break stays where it is |
| HeapCalls.UnitedShape | HW4Wet/malloc_4.cpp:387-432 | uniting in place replaces exactly the blocks it uses by one, and touches no other |
| HeapCalls.ReallocAdjacent | HW4Wet/malloc_4.cpp:380-456 | one srealloc leaves adjacent free blocks exactly when it cuts a remainder off in front of a free block, and then only that pair |
| HeapCalls.FreeBucketed | HW4Wet/malloc_4.cpp:129-130 | after a release every free block has a chain exactly when the merged block is smaller than 131072 bytes |
| HeapCalls.ReallocBucketed | HW4Wet/malloc_4.cpp:387-455 | whatever srealloc merges, in place on each path or by releasing the block when the new one is mmapped, every free block has a chain afterwards exactly when the blocks united are smaller than 131072 bytes together |
| HeapCalls.OversizedMerge | HW4Wet/malloc_4.cpp:388-391 | two blocks that srealloc to 110000 bytes unites to one without a chain |
| HeapCalls.OversizedRelease | HW4Wet/malloc_4.cpp:321-324 | two blocks whose merger has no chain; Limits.OversizedRun leads there |
| Malloc.Allocator.SplitMapped | HW4Wet/malloc_4.cpp:171-185 | after splitting an mmapped block no lists agree with the fields of the allocator; the head stays and the end names the remainder |
| Malloc.Allocator.ReallocMapped | HW4Wet/malloc_4.cpp:380-386 | for every mmapped block and every smaller size, the array of chains is not left and some lists agree with the fields afterwards exactly when no remainder is cut off |
| Histogram.HistoUnique | HW4Wet/malloc_4.cpp:44-44 | the heads and links of the histogram determine which blocks it indexes |
| Limits.StrandingRun | HW4Wet/malloc_4.cpp:205-211 | one call on the empty heap after which the blocks do not tile it |
| Limits.OversizedRun | HW4Wet/malloc_4.cpp:321-324 | three calls that lead to a block whose release, and whose reallocation to 110000 bytes, would make a block without a chain |
| Limits.AdjacentRun | HW4Wet/malloc_4.cpp:380-384 | four calls after which two adjacent blocks are free |
| Limits.MappedRun | HW4Wet/malloc_4.cpp:380-384 | smalloc and srealloc, with an mmap that grants everything, after which no lists agree with the fields of the allocator |
| Limits.WrappedRun | HW4Wet/malloc_4.cpp:458-465 | scalloc of 2^61 + 1 times 8 bytes returns a block without that room |
| HeapCalls.ReallocPersist | HW4Wet/malloc_4.cpp:380-456 | srealloc leaves every other block in use where it is, on every path |
| HeapCalls.FailedStays | HW4Wet/malloc_4.cpp:434-450 | when srealloc fails, all blocks are as before |
| PayloadRuns.StepKeepsBlock | HW4Wet/malloc_4.cpp:243-465 | a call leaves every block that it is not about in use, with its payload |
| PayloadRuns.PayloadsSurvive | HW4Wet/malloc_4.cpp:243-465 | over any run of smalloc, scalloc, sfree, srealloc and writes, a block in use stays in use and keeps its bytes until it is itself written to, reallocated or released |
| PayloadRuns.PayloadsFollow | HW4Wet/malloc_4.cpp:243-465 | over any run the first bytes of a payload follow it through all its reallocations to a block in use with room for them, unless it is written to, released or made shorter |
| Clients.Client.Smalloc | HW4Wet/malloc_4.cpp:243-288 | a call of smalloc extends the run by a step |
| Clients.Client.Scalloc | HW4Wet/malloc_4.cpp:458-465 | so does a call of scalloc |
| Clients.Client.Sfree | HW4Wet/malloc_4.cpp:329-345 | and a call of sfree, also of NULL or of a block released before |
| Clients.Client.Srealloc | HW4Wet/malloc_4.cpp:359-456 | and a call of srealloc, with its result |
| Clients.Client.Store | HW4Wet/malloc_4.cpp:171-185 | a write to a payload, which touches no header, is a step too |
| Clients.Client.MetaInProportion | HW4Wet/malloc_4.cpp:467-499 | the metadata bytes are in proportion to the blocks exactly when no call asked for a new block with room for its header but not for its payload |
| Clients.Client.HeapTiled | HW4Wet/malloc_4.cpp:189-214 | and so the blocks of the executing allocator tile its heap |
| Clients.Client.HeapCoalesced | HW4Wet/malloc_4.cpp:243-456 | without an srealloc that cuts a remainder off in front of a free block, the executing allocator has no adjacent free blocks |
| Payload.HeldElsewhere | HW4Wet/malloc_4.cpp:387-432 | a payload byte in use lies outside every stretch of blocks that are free or being reallocated |
| Payload.SpanOwn | HW4Wet/malloc_4.cpp:391-398 | an overlapping move within the united block, followed by header writes, carries the payload |
| FirstFit.FirstFitIs | HW4Wet/malloc_2.cpp:129-135 | first fit is the free block of lowest address that is large enough |
| FirstFit.Allocator.RemoveNode | HW4Wet/malloc_2.cpp:76-98 | the node is off the list, the rest stays linked in order |
| FirstFit.Allocator.AddNode | HW4Wet/malloc_2.cpp:100-119 | the node is on the list behind the given one |
| FirstFit.Allocator.FindFirst | HW4Wet/malloc_2.cpp:129-135 | searching the free list finds the lowest block of the whole heap that fits, or none if there is none |
| FirstFit.Allocator.CreateMetadata | HW4Wet/malloc_2.cpp:44-60 | a header at the old break with the counters raised, or no change |
| FirstFit.Allocator.Append | HW4Wet/malloc_2.cpp:136-148 | a new block at the break, or nothing, or a header left behind and counted |
| FirstFit.Allocator.Take | HW4Wet/malloc_2.cpp:150-157 | the block found is in use and off the list, and the free counters follow |
| FirstFit.Allocator.Smalloc | HW4Wet/malloc_2.cpp:123-157 | reuses the lowest block that fits, else grows; succeeds exactly when a free block is large enough or there is room for a new one; list and counters stay exact, no payload in use is touched |
| FirstFit.Allocator.FindPlace | HW4Wet/malloc_2.cpp:167-175 | the place of an address in the sorted free list |
| FirstFit.Allocator.Sfree | HW4Wet/malloc_2.cpp:159-181 | the block is free with its address and size, on the sorted list, and counted as free; all other blocks and the break are as before; releasing it again changes nothing |
| FirstFit.Allocator.Scalloc | HW4Wet/malloc_2.cpp:183-190 | as smalloc of the product, also in when it succeeds, with its bytes zero and no header written over; a block with room for num * size zero bytes exactly when the product does not wrap around |
| FirstFit.Allocator.Srealloc | HW4Wet/malloc_2.cpp:192-214 | the block stays if it is large enough, else it moves exactly when smalloc succeeds: another block gets the payload and the old one is free where it was; all other payloads, and on failure the old one, are unchanged |
| FirstFit.MallocPromises | HW4Wet/malloc_2.cpp:123-157 | a request succeeds exactly when its size is allowed and a free block is large enough or there is room for a new one; the lowest such block without moving the break, else a new one at the break of just that size; a failing one leaves the blocks as they are |
| FirstFit.ReallocPromises | HW4Wet/malloc_2.cpp:192-214 | a block that is too small moves exactly when a request succeeds: another block, free before or new, is in use, the old one is free where it was, nothing else is different |
| FirstFit.ReallocStays | HW4Wet/malloc_2.cpp:193-204 | a block that is large enough stays as it is |
| FirstFit.MallocServes | HW4Wet/malloc_2.cpp:123-157 | the block handed out was free or is new and is large enough; blocks in use stay as they are |
| FirstFit.Allocator.CountersRecount | HW4Wet/malloc_2.cpp:218-242 | the free counters equal a recount over the heap |
| FirstFitRuns.RunSeparate | HW4Wet/malloc_2.cpp:123-214 | at every moment of every run the blocks lie apart from each other below the break |
| FirstFitRuns.StepKeepsBlock | HW4Wet/malloc_2.cpp:123-214 | a call leaves every block that it is not about in use, with its payload |
| FirstFitRuns.PayloadsSurvive | HW4Wet/malloc_2.cpp:123-214 | over any run of smalloc, scalloc, sfree, srealloc and writes, a block in use stays in use and keeps its bytes until it is itself written to, reallocated or released |
| FirstFitRuns.PayloadsFollow | HW4Wet/malloc_2.cpp:123-214 | over any run the first bytes of a payload follow it through all its reallocations to a block in use with room for them, unless it is written to, released or made shorter |
| FirstFitRuns.Client.Smalloc | HW4Wet/malloc_2.cpp:123-157 | a call of smalloc extends the run by a step |
| FirstFitRuns.Client.Scalloc | HW4Wet/malloc_2.cpp:183-190 | so does a call of scalloc |
| FirstFitRuns.Client.Sfree | HW4Wet/malloc_2.cpp:159-181 | and a call of sfree |
| FirstFitRuns.Client.Srealloc | HW4Wet/malloc_2.cpp:192-214 | and a call of srealloc |
| FirstFitRuns.Client.Store | HW4Wet/malloc_2.cpp:44-60 | a write to a payload, which touches no header, is a step too |
| FirstFitRuns.RunsReuse | HW4Wet/malloc_2.cpp:123-181 | in every run, when a block is released and the next request is no larger, it is served and the break stays where it is |
| FirstFitRuns.NextStrands | HW4Wet/malloc_2.cpp:136-148 | a call leaves a header behind exactly when nothing fits and there is room for a header but not for the payload |
| FirstFitRuns.RunsStrand | HW4Wet/malloc_2.cpp:136-148 | over any run no header is left behind exactly when no call was made in that situation |
| FirstFitRuns.StrandingRun | HW4Wet/malloc_2.cpp:136-148 | one call on the empty heap that leaves a header behind |
| FirstFitRuns.Client.AllocatedRecount | HW4Wet/malloc_2.cpp:229-237 | the counters of allocated blocks and bytes equal a recount over the heap exactly when no call of the program was made in that situation |
| RequestQueue.Queue.constructor | HW3Wet/queue.c:21-37 | two linked sentinels are an empty queue |
| RequestQueue.Queue.Enqueue | HW3Wet/queue.c:46-57 | the connection is at the end, all others stay in order, the size counts them |
| RequestQueue.Queue.Dequeue | HW3Wet/queue.c:59-70 | the oldest connection leaves, the others stay in order |
| RequestQueue.Queue.RandomDrop | HW3Wet/queue.c:72-83 | the connection at the index leaves, and is the one returned; never a sentinel |
| Server.OurCeilIsCeil | HW3Wet/server.c:33-40 | our_ceil is the ceiling exactly on whole and on non-negative numbers |
| Server.QuotaIsQuarter | HW3Wet/server.c:172-173 | the random policy drops a quarter of the waiting, rounded up: at least one, at most all |
| Server.DecisionPromised | HW3Wet/server.c:142-185 | the decision that the state machine makes does the same |
| Server.AnyCanStay | HW3Wet/server.c:177-182 | whichever connections are to stay, some random numbers leave just those |
| Server.DropSplits | HW3Wet/server.c:177-182 | any choice of indices drops that many; dropped and kept together are the waiting ones, and the kept stay in order |
| Server.Monitor.Take | HW3Wet/server.c:86-98 | a worker takes the oldest connection, or finds none; it signals exactly if there is room |
| Server.Monitor.Done | HW3Wet/server.c:102-107 | the worker is no longer running; it signals exactly if there is room |
| Server.Monitor.DropRandom | HW3Wet/server.c:172-182 | what is dropped, in which order, and what is left |
| Server.Monitor.Submit | HW3Wet/server.c:141-187 | with room for it the connection is appended and nothing else happens; on a full queue main sleeps, or closes just the new one, or lets go of just the oldest, or closes a quarter of the waiting ones, by policy; it refuses under the last two only when nothing waits |
| ServerSteps.Pool.MainAccepts | HW3Wet/server.c:136-136 | accepting a connection extends the run by a step |
| ServerSteps.Pool.WorkerServes | HW3Wet/server.c:99-100 | so does handling and closing one |
| ServerSteps.Pool.Wakes | HW3Wet/server.c:87-146 | and a spurious wakeup |
| ServerSteps.Pool.WorkerTakes | HW3Wet/server.c:86-98 | this critical section, as executed on the monitor, extends the run by a step |
| ServerSteps.Pool.WorkerDone | HW3Wet/server.c:102-107 | so is this one |
| ServerSteps.Pool.MainSubmits | HW3Wet/server.c:141-187 | and this one |
| ServerSteps.Pool.Kept | HW3Wet/server.c:85-187 | so the executed monitor counts its busy workers, stays within the queue size and loses no wakeup, whatever the order of events |
| ServerRuns.DecideAdmits | HW3Wet/server.c:142-185 | main sleeps only under the blocking policy with a full queue and never refuses under it; an admission keeps a subsequence, loses no connection and does not lengthen a full queue |
| ServerRuns.StepKeeps | HW3Wet/server.c:85-187 | every step, spurious wakeups included, keeps counters and bounds, wakeups, connections and order |
| ServerRuns.RunsKeep | HW3Wet/server.c:85-187 | so these hold at every moment of every run |
| ServerProgress.WithinBounds | HW3Wet/server.c:142-185 | waiting and running never exceed the queue size; running_threads counts the busy workers and never exceeds thread_num |
| ServerProgress.ExactlyOnePlace | HW3Wet/server.c:91-186 | every accepted connection is with main, waiting, in hand, completed, dropped or discarded, and in one place only; closed exactly once if completed or dropped, never otherwise; discarded only by drop-head |
| ServerProgress.ClosesAllIff | HW3Wet/server.c:149-185 | for every configuration, each connection that is dealt with is closed once in all runs exactly when the policy is not drop-head or the queue size is 0 or less |
| ServerProgress.DispatchedInOrder | HW3Wet/server.c:91-185 | dispatched, waiting and held connections are in order of arrival, and under the blocking policy they are all the accepted ones |
| ServerProgress.OnceWaiting | HW3Wet/server.c:142-185 | over any run a connection that has waited is never closed by main afterwards, except under random, nor freed unclosed, except under drop-head; so under block and drop-tail it waits, is handled, or is completed |
| ServerProgress.MainAsleepWorkerSteps | HW3Wet/server.c:85-107 | whenever main sleeps some worker can step |
| ServerProgress.WorkDecreases | HW3Wet/server.c:85-187 | every step other than accepting and spurious wakeups leaves less work |
| ServerProgress.ComesToRest | HW3Wet/server.c:85-187 | so without new connections the server comes to rest within a bounded number of steps |
| ServerProgress.RestIsSettled | HW3Wet/server.c:85-187 | at rest nothing waits, nobody runs, main can accept, and every connection has been dealt with |
| ServerProgress.ServesIffCanServe | HW3Wet/server.c:85-187 | for every policy, queue size and number of threads, this holds of all runs exactly when the configuration can serve |
| RobustIo.Rio.constructor | HW3Wet/segel.c:355-360 | nothing is unread and nothing of the file is lost |
| RobustIo.Rio.Refill | HW3Wet/segel.c:327-338 | after interrupts and short reads the buffer holds the next bytes of the stream, or it is at its end, or read() failed |
| RobustIo.Rio.Read | HW3Wet/segel.c:323-348 | delivers min(n, unread) bytes of the stream, having read the file only if none were unread; nothing only at the end or when nothing is asked for; delivered and remaining bytes are the stream |
| RobustIo.Rio.ReadNB | HW3Wet/segel.c:367-386 | delivers min(n, remaining) bytes however read() cuts them up; on an error what was delivered and what remains are still the stream |
| RobustIo.Rio.ReadLineB | HW3Wet/segel.c:393-413 | delivers one line and a NUL and returns its length, plus one unless it ends with a newline; 0 only at the end; on an error nothing of the stream is lost |
| RobustIo.LineLengthIsLine | HW3Wet/segel.c:398-411 | a line is the only prefix without a newline inside that ends with one, at maxlen - 1 bytes or at the end |
| RobustIo.LinesJoin | HW3Wet/segel.c:393-413 | the lines read one after the other are the stream, none empty or too long, newlines only at their ends, and all but the last end with one or fill the buffer |
| RobustIoRuns.Session.ReadNB | HW3Wet/segel.c:367-386 | in any order with line reads: what has been delivered, followed by what is left, is the original stream; the call delivers min(n, bytes not yet delivered) |
| RobustIoRuns.Session.ReadLineB | HW3Wet/segel.c:393-413 | in any order with block reads: what has been delivered, followed by what is left, is the original stream; the call delivers the first of the lines left |
| RobustIoRuns.LineReader.Next | HW3Wet/segel.c:393-413 | when a program that reads line after line is told the end, it has been given all lines of the stream, and they are the whole stream |
| Jobs.JobsList.AddJob | HW1Wet/Commands.cpp:566-572 | a new last job with an identifier above all others |
| Jobs.JobsList.AddJobWithId | HW1Wet/Commands.cpp:574-595 | the job is inserted in its sorted place, or lost in the one case stated; a free positive identifier keeps the list in order |
| Jobs.LostIff | HW1Wet/Commands.cpp:578-593 | a job is lost exactly when its identifier is the last one, or is not positive while the list is empty |
| Jobs.JobsList.RemoveFinishedJobs | HW1Wet/Commands.cpp:635-656 | erasing while iterating leaves exactly the unfinished jobs in order, with the maximum right |
| Jobs.SurvivorsAre | HW1Wet/Commands.cpp:637-643 | the survivors are exactly the jobs that are not finished |
| Jobs.RemoveKeeps | HW1Wet/Commands.cpp:645-652 | the one-step update of the maximum agrees with the last identifier left |
| Jobs.JobsList.FindMaxJobId | HW1Wet/Commands.cpp:736-745 | an upper bound of all identifiers that occurs among them, or 0 |
| Jobs.MaxIsLast | HW1Wet/Commands.cpp:729-745 | on a list in order the full scan finds the last identifier |
| Jobs.JobsList.RemoveJobById | HW1Wet/Commands.cpp:715-734 | the job with the identifier is gone, all others stay, the maximum is right |
| Jobs.JobsList.GetLastJob | HW1Wet/Commands.cpp:658-663 | the job with the greatest identifier, or none |
| Jobs.JobsList.GetLastStoppedJob | HW1Wet/Commands.cpp:665-677 | the stopped job with the greatest identifier, or none if none is stopped |
| Jobs.JobsList.GetJobById | HW1Wet/Commands.cpp:679-695 | the job with the identifier, or none if there is none |
| Jobs.Foreground | HW1Wet/Commands.cpp:379-438 | the job asked for leaves the list; if it stops again, whatever other jobs finish meanwhile, the list is the old one without those, with the job in its old place under the same identifier, stopped; otherwise just the job is gone; no other job is stopped or continued |
| Jobs.BackInPlace | HW1Wet/Commands.cpp:578-593 | after any other jobs have finished the identifier of the removed job is free and its sorted place is where it was |

## Left out

- sbrk, mmap and munmap: sbrk is a contiguous break that fails exactly above a fixed address; mmap hands out new page-aligned regions above that address, or refuses, as a sequence of replies says; the pages of an unmapped block are not reused.
- Malloc.Allocator.Sfree: requires the payload of a block of the heap, released or not, or of an mmapped block; a pointer whose block has been merged away or unmapped is excluded, as is a merged block of 131072 bytes or more, which has no chain exactly then (`HeapCalls.FreeBucketed`).
- Malloc.Allocator.Srealloc: requires a live block, merged blocks under 131072 bytes on the path taken, and an mmapped block not to be cut; `HeapCalls.ReallocBucketed` and `Malloc.Allocator.ReallocMapped` say exactly when these conditions are needed.
- Malloc.Allocator.SplitBlock: splits blocks of the sbrk heap; `Malloc.Allocator.SplitMapped` splits mmapped ones.
- Malloc.Allocator.ReallocMapped: what happens when the array of chains is left is not modelled.
- Malloc.Allocator.SplitMapped: takes the links of an mmapped header for NULL where none has been recorded, as the pages of a mapping are zero.
- Malloc.Allocator.AddNodeList: inserting in front of a non-empty list is not modelled; the code would not link the old head back, and no caller does it.
- The bytes of headers: what a header looks like in memory is not specified; the fields are maps from the address, since one address may hold different headers in the course of time.
- `_num_free_blocks` and `_num_free_bytes` of malloc_4, and the walkers that print lists: loops like the two modelled.
- HW4Wet/malloc_1.cpp and HW4Wet/malloc_3.cpp: a bare sbrk, and the coalescing allocator without rounding.
- FirstFit.Allocator.Sfree: requires the payload of a block of the heap, as the code does.
- HTTP handling, CGI, sockets and file mapping (HW3Wet/request.c and the wrappers in HW3Wet/segel.c): handling a connection is a step.
- An unknown scheduling argument of the server, and failing thread creation or memory allocation in it.
- Identity of descriptors: a connection is named by its order of arrival, while the operating system reuses descriptor numbers.
- RobustIo.Rio.ReadLineB: does not model buffer lengths beyond the range of int.
- The other rio functions, which do not buffer.
- The shell's parsing, redirection, pipes, signals and time-outs, failing system calls, `clearJobsList` and `killAllJobs`, which run on quit only.
- HW2Wet: the kernel patches.
