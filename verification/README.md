# Tracy client 0.8.2: a verified model

This project models the parts of the Tracy 0.8.2 profiling client whose correctness is hardest to see from the code,
and proves what they promise. To verify it, use `dafny verify dfyconfig.toml` with Dafny 4.11.

**The event queue** (`QueueClaims`, `QueueDelivery`, `BlockRing*`, `BlockIndexGrowth`, `QueueWords`, `PowerOfTwo`,
`ProducerList`, `ProducerRotation`). One producer writes into a ring of blocks, a circular block index that doubles
when full maps element indices to blocks, and any number of consumers claim ranges with an optimistic and an
overcommit counter. Producer and consumers are one state machine with one atomic access per step, sequentially
consistent. The block size is any positive number and logical indices are unbounded; `QueueWords` and `PowerOfTwo`
say when the word arithmetic agrees. Claims, ownership, deliveries and the history of block index headers are ghost
parts of the state that no step reads. The theorems quantify over all runs. `ProducerList` adds producers to the list
by compare-and-swap, `ProducerRotation` is the consumer's walk over them.

**The free list of blocks** (`FreeList`) is a state machine of its own: add and try_get of any number of threads, one
access per step, with the reference word and its flag bit; `FreeListLimit` finds how many threads it bears.

**The allocator**, with its built-in 64 KiB span, appears in three views of a span's header, one for each concern.
`SpanLists`, `PartialList` and `SpanCacheLists` are the linked lists as heap objects with their pointers and counters.
`SpanBlocks`, `SmallBlocks` and `SmallAllocator` follow the blocks of small and medium spans in any number of heaps,
each whole allocation or free one step. `SuperSpans`, `SpanPlaces` and `SpanSystem` follow the spans themselves:
mapping, cutting, caching, unmapping and the final release. `Rpmalloc` puts the last two views together.
`SizeClasses`, `BlockCarving` and `Reallocation` hold the size arithmetic, the lazily linked free lists in block
memory, and reallocation of bytes.

**The staging buffer** (`StagingHistory`, `StagingBuffer`) is the array of three frames that a streaming compressor
reads in place. The compressor's contract is the precondition of sending, so that each commit proves it.

**The time encoding** (`TimeDeltas`, `TimeReader`) has the two dequeue loops and the disconnect path, which rewrite
item times in place against four reference clocks, and the server's functions that undo it, type by type.

**The symbol queue** (`SpscQueue`), **the texture encoder** (`Dxt1Colour`, `Dxt1`, `Dxt1Image`; the block format is BC1,
section 18.1 of the Khronos Data Format Specification 1.3) and **the merge of perf rings** (`PerfClock`, `PerfRing`,
`TraceMerge`, `TraceMergeLoop`) complete the model.

Clocks, sockets, the operating system's memory and the compressor are parameters: fresh span-aligned regions, the
socket's answer, the content of fresh memory, what the producers have enqueued at each attempt of a dequeue call.

Where the code differs from what one might expect, the model follows the code:

- The merge loop of `TracySysTrace.cpp` selects strictly earlier times than the largest 64-bit integer. With a sample
  that carries this time it never ends; `TraceMerge.TerminatesIff` says that this is the only such case.
- `ConvertTimeToTsc` loses bits when the remainder shifted left does not fit 64 bits; `PerfClock.ConvertExact`.
- The server drops a plot value that is NaN or infinite before it looks at the item's time, while the client has moved
  its reference: until the next ThreadContext every time on the thread clock comes out shifted, unless the plot has the
  time of the last item on that clock; `TimeReader.PlotShiftsZone`, and exactly when in `TimeReader.RoundTrip`.
- A new connection resets three time references but not the thread reference. If that is not zero, times come out wrong
  exactly when an item on the thread clock goes out before the first ThreadContext, which takes a thread with id zero;
  `TimeReader.FiniteRoundTrip`, `TimeReader.NonZeroNeverEarly`.
- A span whose last live block is freed stays in use when it is active, or when another heap frees the block and the
  span is not full; `SmallAllocator.FateOf`, which the contract of `Rpmalloc.Deallocate` follows.
- The length field of a callstack payload has 16 bits; `StagingBuffer.CallstackLengthExact`.
- Reallocation in the large tier tests the size with a mask one below the span mask, so that it may take a size for
  one span larger than it is; `Reallocation.NumSpansCovers`.
- A free-list node's count reaches the flag bit when 2^31 - 1 threads hold it at once;
  `FreeListLimit.SafeIffFewThreads`.
- The turn of a consumer's first call is computed from an unsigned -1, so that the first producer is one further than
  the offset alone says; `ProducerRotation.FirstStart`.

## Model

| member | source | states |
|---|---|---|
| `QueueClaims.ClaimsAreSafe` | tracy/tracy-0.8.2/client/tracy_concurrentqueue.h:1085-1142 | In every state of every run, with any number of consumers interleaved access by access with the producer, the head is within the tail, the claim assertion holds, and a granted range lies below the tail. |
| `QueueClaims.HeadWithinTail` | tracy/tracy-0.8.2/client/tracy_concurrentqueue.h:1085-1104 | The invariant over the ghost log of claims, in fetch_add order, bounds the head by the tail. |
| `QueueClaims.OvercommitWithinClaim` | tracy/tracy-0.8.2/client/tracy_concurrentqueue.h:1088-1096 | overcommit, read before the optimistic fetch_add, never exceeds the count that the fetch_add returns. |
| `QueueClaims.GrantIsPublished` | tracy/tracy-0.8.2/client/tracy_concurrentqueue.h:1098-1109 | A range taken from headIndex is not empty and ends at or below the current head, which is at or below the current tail. |
| `QueueClaims.ConsumerStepInv` | tracy/tracy-0.8.2/client/tracy_concurrentqueue.h:1085-1142 | Each single access of a consumer keeps the invariant of the four counters and the log. |
| `QueueClaims.ClaimGetsAll` | tracy/tracy-0.8.2/client/tracy_concurrentqueue.h:1098-1103 | However many consumers contend, a claim is granted all it asked for or everything up to the tail loaded at this access, and repays the rest; nothing only if that tail leaves nothing to it. |
| `QueueClaims.ShortGrantsReachTail` | tracy/tracy-0.8.2/client/tracy_concurrentqueue.h:1098-1109 | Over every run, each settled claim was settled at one access of the run, and a short grant reaches the tail of that access. |
| `QueueClaims.GivesUpOnlyEmpty` | tracy/tracy-0.8.2/client/tracy_concurrentqueue.h:1085-1142 | A call returns nothing only if a tail that it loaded itself leaves it nothing: the first one, before claiming, or the one at which its claim was settled. |
| `QueueClaims.LoadedValues` | tracy/tracy-0.8.2/client/tracy_concurrentqueue.h:1085-1090 | The tail and the overcommit count that a consumer works with are those of earlier accesses of the run. |
| `QueueClaims.QuiescentCounters` | tracy/tracy-0.8.2/client/tracy_concurrentqueue.h:1093-1140 | Once no call is in flight, optimistic minus overcommit count equals the head: every overcommitted claim was given back. |
| `QueueClaims.AloneConsumerIsExact` | tracy/tracy-0.8.2/client/tracy_concurrentqueue.h:1085-1142 | A lone consumer gets exactly min(8192, tail - head) elements and never has to repay. |
| `QueueClaims.StepFrame` | tracy/tracy-0.8.2/client/tracy_concurrentqueue.h:1085-1142 | Only the take step moves the head, by exactly the granted amount. |
| `QueueDelivery.DeliveredOnceInOrder` | tracy/tracy-0.8.2/client/tracy_concurrentqueue.h:1120-1134 | No element is handed to processData twice, and each consumer sees its elements in index order. |
| `QueueDelivery.AllDelivered` | tracy/tracy-0.8.2/client/tracy_concurrentqueue.h:1120-1134 | When no range is open, every granted element has been handed over. |
| `QueueDelivery.CountInv` | tracy/tracy-0.8.2/client/tracy_concurrentqueue.h:1132-1134 | Counting the handed stretch (set_many_empty) keeps ownership and delivery bookkeeping consistent. |
| `BlockRingTheorems.ConsumersNeverFault` | tracy/tracy-0.8.2/client/tracy_concurrentqueue.h:1111-1134 | In every state that keeps the invariant, each access of a consumer finds the header, slot, entry and block it dereferences. |
| `BlockRingTheorems.ProducerNeverFaults` | tracy/tracy-0.8.2/client/tracy_concurrentqueue.h:1025-1076 | Each access of the producer is defined, including after reuse, insertion and index doubling. |
| `BlockRingTheorems.GrantsArePublished` | tracy/tracy-0.8.2/client/tracy_concurrentqueue.h:1085-1109 | Over every run of the queue with its blocks, a range being worked on lies within the written and published elements. |
| `BlockRingTheorems.LookupFindsBlock` | tracy/tracy-0.8.2/client/tracy_concurrentqueue.h:1111-1134 | For every claimed index the lookup, through whichever index header was loaded, ends at the entry whose base is the index rounded down and whose block the producer filled for it. |
| `BlockRingTheorems.LiveEntriesDescend` | tracy/tracy-0.8.2/client/tracy_concurrentqueue.h:1025-1067 | Counted back from the front, the live entries have bases descending by the block size, the newest names the tail block, and they agree with the circular block list. |
| `BlockRingTheorems.DeliveredAsWritten` | tracy/tracy-0.8.2/client/tracy_concurrentqueue.h:1069-1134 | Every single delivery is of an element below the head, hence published, and carries the value written for its index. |
| `BlockRingTheorems.DeliveredOnce` | tracy/tracy-0.8.2/client/tracy_concurrentqueue.h:1085-1134 | No index is delivered twice, and each consumer sees ascending indices. |
| `BlockRingTheorems.DrainedQueueDeliveredAll` | tracy/tracy-0.8.2/client/tracy_concurrentqueue.h:1085-1142 | When the head has caught up with the tail and no range is open, every published index has been delivered. |
| `BlockRingTheorems.SingleConsumerFifo` | tracy/tracy-0.8.2/client/tracy_concurrentqueue.h:1085-1142 | With one consumer the k-th delivery is element k with the value written k-th. |
| `BlockRingTheorems.WriteTouchesNoReader` | tracy/tracy-0.8.2/client/tracy_concurrentqueue.h:1025-1076 | The slot the producer writes is never one whose processData has not returned. |
| `BlockRingTheorems.CounterTracksFinished` | tracy/tracy-0.8.2/client/tracy_concurrentqueue.h:810-828 | A block counter never exceeds the block size and reaches it exactly when all elements of its stretch are done. |
| `BlockRingTheorems.BlocksOnlyWhenNeeded` | tracy/tracy-0.8.2/client/tracy_concurrentqueue.h:1025-1051 | A producer that needs a block takes the oldest one back exactly when all its elements are finished; only otherwise a block is requisitioned, and the index grown exactly when all its slots are used. |
| `BlockRingTheorems.ReusesOldest` | tracy/tracy-0.8.2/client/tracy_concurrentqueue.h:1028-1037 | The block taken back is that of the oldest stretch, and the ring keeps its blocks and its slots. |
| `BlockRingTheorems.IndexDoubles` | tracy/tracy-0.8.2/client/tracy_concurrentqueue.h:1041-1047 | Over every run each block index is twice as large as the one before. |
| `BlockRingTheorems.RunInv` | tracy/tracy-0.8.2/client/tracy_concurrentqueue.h:1025-1142 | The whole invariant holds in every state of every run of producer and consumers. |
| `BlockRingProducer.ProducerStepInv` | tracy/tracy-0.8.2/client/tracy_concurrentqueue.h:1025-1076 | Every access of the producer keeps it: begin, block reuse, index doubling, insertion, index entry, front, write, publish. |
| `BlockRingProducer.GrowInv` | tracy/tracy-0.8.2/client/tracy_concurrentqueue.h:1163-1201 | Doubling the block index keeps every live entry reachable from the new front. |
| `BlockRingSafety.ConsumerStepInv` | tracy/tracy-0.8.2/client/tracy_concurrentqueue.h:1085-1142 | Every access of a consumer keeps it. |
| `BlockIndexGrowth.CopyEntries` | tracy/tracy-0.8.2/client/tracy_concurrentqueue.h:1177-1185 | The copying loop ends, and its result is the specified sequence: the live entries in order from slot 0, whatever the old rotation was. |
| `BlockIndexGrowth.FrontReached` | tracy/tracy-0.8.2/client/tracy_concurrentqueue.h:1177-1185 | The do-while loop meets the front slot again after exactly the used slots. |
| `QueueWords.CircularLessIsLess` | tracy/tracy-0.8.2/client/tracy_concurrentqueue.h:217-222 | On words, circular_less_than decides like < on the unbounded indices for distances up to half the range, and fails exactly at a lead of half the range. |
| `QueueWords.WordCount` | tracy/tracy-0.8.2/client/tracy_concurrentqueue.h:1087-1099 | The available count computed on words is the unbounded one whenever that lies within half the range. |
| `QueueWords.WordFirstSlot` | tracy/tracy-0.8.2/client/tracy_concurrentqueue.h:1114-1116 | The mixed signed and unsigned division selects the same slot as exact arithmetic, because the index size divides 2^W / BLOCK_SIZE. |
| `QueueWords.MaskIsRemainder` | tracy/tracy-0.8.2/client/tracy_concurrentqueue.h:1116-1133 | Masking with 2^k - 1 is the remainder modulo 2^k. |
| `QueueWords.HighMaskClears` | tracy/tracy-0.8.2/client/tracy_concurrentqueue.h:1114-1124 | Masking with the complement clears exactly the remainder. |
| `PowerOfTwo.RoundsUp` | tracy/tracy-0.8.2/client/tracy_concurrentqueue.h:234-249 | For 1 <= x <= 2^(W-1), ceil_to_pow_2 returns the smallest power of two not below x, for words of any number of bytes. |
| `PowerOfTwo.RoundsToZero` | tracy/tracy-0.8.2/client/tracy_concurrentqueue.h:234-249 | For every other word, zero included, it returns 0. |
| `PowerOfTwo.SmearDoubles` | tracy/tracy-0.8.2/client/tracy_concurrentqueue.h:240-246 | One smear doubles the run of ones below the top bit. |
| `FreeList.NextInv` | tracy/tracy-0.8.2/client/tracy_concurrentqueue.h:671-744 | Every access of add and try_get by any thread keeps the invariant of reference counts, roles, links and chain. |
| `FreeList.CountsFit` | tracy/tracy-0.8.2/client/tracy_concurrentqueue.h:671-747 | With fewer than 2^31 - 1 threads no reference count carries into the flag bit or wraps, and the count is the number of holders plus the list's own. |
| `FreeList.LinkedOnce` | tracy/tracy-0.8.2/client/tracy_concurrentqueue.h:722-744 | Following next from the head meets each listed node once and ends in null. |
| `FreeList.NeverRelinked` | tracy/tracy-0.8.2/client/tracy_concurrentqueue.h:733-744 | The swing that links a node finds it off the list. |
| `FreeList.OneTaker` | tracy/tracy-0.8.2/client/tracy_concurrentqueue.h:685-709 | At most one thread is taking a node, and meanwhile nobody adds or links it. |
| `FreeList.PopTakesFirst` | tracy/tracy-0.8.2/client/tracy_concurrentqueue.h:694-705 | A successful swing takes exactly the first node and leaves the rest of the chain, also when the head went away and came back in between. |
| `FreeList.NullOnlyIfEmpty` | tracy/tracy-0.8.2/client/tracy_concurrentqueue.h:680-716 | Over every run, try_get returns the node it has just taken, or null, and null only if the list was empty at some moment of that call. |
| `FreeList.SoloTakesFirst` | tracy/tracy-0.8.2/client/tracy_concurrentqueue.h:680-706 | Without interference, wherever the other threads have stopped, try_get takes the first node of a list that is not empty within seven accesses. |
| `FreeList.PopFindsFlagDown` | tracy/tracy-0.8.2/client/tracy_concurrentqueue.h:699 | The assertion after a successful pop holds. |
| `FreeListLimit.SafeIffFewThreads` | tracy/tracy-0.8.2/client/tracy_concurrentqueue.h:682-709 | That assertion is safe over all runs exactly when there are fewer than 2^31 - 1 threads. |
| `FreeListLimit.PopUnderAll` | tracy/tracy-0.8.2/client/tracy_concurrentqueue.h:682-709 | A run of 2^31 - 1 threads in which all of them hold the first node and a pop finds the flag raised. |
| `FreeList.AddFindsFlagDown` | tracy/tracy-0.8.2/client/tracy_concurrentqueue.h:671-680 | add always finds the should-be-on-list flag down. |
| `FreeList.OnePusher` | tracy/tracy-0.8.2/client/tracy_concurrentqueue.h:722-744 | At most one thread at a time is (re)adding a node. |
| `FreeList.LinkStable` | tracy/tracy-0.8.2/client/tracy_concurrentqueue.h:692-696 | No step changes the next pointer of a node that a thread holds a reference to. |
| `FreeList.NothingLost` | tracy/tracy-0.8.2/client/tracy_concurrentqueue.h:671-744 | Once all threads have returned, every node is with its user or on the list, with a reference count of 0 or 1. |
| `ProducerList.PrependOnly` | tracy/tracy-0.8.2/client/tracy_concurrentqueue.h:1319-1335 | With any number of threads adding producers, whatever was linked stays linked in its place from the end. |
| `ProducerList.LinksAreNumbers` | tracy/tracy-0.8.2/client/tracy_concurrentqueue.h:1319-1335 | A producer's number from the end is stable, and its next is the one numbered just below, whatever is added meanwhile. |
| `ProducerList.CountCovers` | tracy/tracy-0.8.2/client/tracy_concurrentqueue.h:1326-1333 | producerCount never lags behind the list, so the modulus in the rotation is positive. |
| `ProducerRotation.ConsumerToken.UpdateCurrentProducer` | tracy/tracy-0.8.2/client/tracy_concurrentqueue.h:604-642 | Both loops end at the producer the offset and the turn name, in uint32 arithmetic; an empty list is reported. |
| `ProducerRotation.ConsumerToken.TryDequeueBulkSingle` | tracy/tracy-0.8.2/client/tracy_concurrentqueue.h:522-561 | A call terminates while producers go on enqueueing and joining; it tries producers in ring order until one gives something, and moves the token as specified. |
| `ProducerRotation.ZeroTriedAll` | tracy/tracy-0.8.2/client/tracy_concurrentqueue.h:540-555 | A call that returns 0 has tried every producer, each exactly once, and found each empty at its turn. |
| `ProducerRotation.CallComesNearer` | tracy/tracy-0.8.2/client/tracy_concurrentqueue.h:531-560 | A call that does not serve a producer that stays non-empty brings the token strictly nearer to it. |
| `ProducerRotation.ServedWithinN` | tracy/tracy-0.8.2/client/tracy_concurrentqueue.h:522-561 | Such a producer is served within n calls. |
| `ProducerRotation.FirstStart` | tracy/tracy-0.8.2/client/tracy_concurrentqueue.h:613-640 | The first call starts at producer (id - 1) mod n: the turn computed from the initial offset of -1 is one. |
| `ProducerRotation.StartsSpread` | tracy/tracy-0.8.2/client/tracy_concurrentqueue.h:613-625 | Consumers with ids less than n apart start at different producers. |
| `SpscQueue.SpscQueue.EmplaceCheck` | tracy/tracy-0.8.2/client/tracy_SPSCQueue.h:73-75 | The spin test on wrapped indices detects exactly a ring that is full by the cached read index. |
| `SpscQueue.SpscQueue.EmplaceConstruct` | tracy/tracy-0.8.2/client/tracy_SPSCQueue.h:76 | The item is constructed in a slot that holds nothing: no unread slot is overwritten, however stale the cache. |
| `SpscQueue.SpscQueue.EmplacePublish` | tracy/tracy-0.8.2/client/tracy_SPSCQueue.h:77 | The queue grows by exactly the new item and stays within its capacity. |
| `SpscQueue.SpscQueue.FrontReloadCache` | tracy/tracy-0.8.2/client/tracy_SPSCQueue.h:84-89 | front returns null exactly when nothing published remains. |
| `SpscQueue.SpscQueue.Read` | tracy/tracy-0.8.2/client/tracy_SPSCQueue.h:90 | The pointer returned by front names the oldest item. |
| `SpscQueue.SpscQueue.PopBegin` | tracy/tracy-0.8.2/client/tracy_SPSCQueue.h:96-97 | The assertion of pop holds after a non-null front. |
| `SpscQueue.SpscQueue.PopDestroy` | tracy/tracy-0.8.2/client/tracy_SPSCQueue.h:98 | What is destroyed is the oldest item. |
| `SpscQueue.SpscQueue.PopRetire` | tracy/tracy-0.8.2/client/tracy_SPSCQueue.h:99-103 | The queue loses exactly its oldest item. |
| `SpscQueue.SpscQueue.Size` | tracy/tracy-0.8.2/client/tracy_SPSCQueue.h:106-113 | size() is the number of items, and at most the capacity, when no index moves between its loads. |
| `SpscQueue.SizeWhileMoving` | tracy/tracy-0.8.2/client/tracy_SPSCQueue.h:106-113 | Under any schedule between the two loads, in either order of them, the result stays below the ring's size; it is what was published at the load of the write index less what was popped at that of the read index, exactly if that is in range; a thread that uses the queue itself gets the number of items at one of the two loads. |
| `SpscQueue.CountOfLoads` | tracy/tracy-0.8.2/client/tracy_SPSCQueue.h:106-113 | The corrected difference of any two wrapped indices is their difference modulo the ring's size, and equals it exactly when it is in range. |
| `SpscQueue.Interleave` | tracy/tracy-0.8.2/client/tracy_SPSCQueue.h:65-104 | Under every schedule of single steps the consumer receives a prefix of what is emplaced, in order, and the producer is never more than the capacity ahead. |
| `SpscQueue.WrapSame` | tracy/tracy-0.8.2/client/tracy_SPSCQueue.h:70-87 | Indices of item numbers at most one ring apart are equal exactly for the same number or one full ring. |
| `SpscQueue.ConstructSlot` | tracy/tracy-0.8.2/client/tracy_SPSCQueue.h:76 | In a ring that is not full the next slot is raw memory, and constructing there keeps all other items. |
| `SpscQueue.DestroySlot` | tracy/tracy-0.8.2/client/tracy_SPSCQueue.h:98 | The oldest slot holds the oldest item, and destroying it keeps all other items. |
| `StagingHistory.CommitKeepsHistory` | tracy/tracy-0.8.2/client/TracyProfiler.cpp:2929-2935 | Committing a frame, with and without the wrap to offset 0, keeps the record of where past bytes lie. |
| `StagingHistory.WriteSparesHistory` | tracy/tracy-0.8.2/client/TracyProfiler.hpp:779-783 | Writing anywhere in the next frame's room leaves the last 64 KiB of past bytes alone, also those before a wrap. |
| `StagingHistory.KeptIsHistory` | tracy/tracy-0.8.2/common/tracy_lz4.hpp:327 | What is kept implies the compressor's demand: the previous 64 KiB of input lie unmodified where they were compressed from. |
| `StagingBuffer.StagingBuffer.SendData` | tracy/tracy-0.8.2/client/TracyProfiler.cpp:2937-2942 | Its precondition is the compressor's contract, so every caller proves the history intact and the frame non-empty and within the target size. |
| `StagingBuffer.StagingBuffer.CommitData` | tracy/tracy-0.8.2/client/TracyProfiler.cpp:2929-2935 | One more frame, equal to the pending messages; the message log is unchanged; the offset wraps to 0 beyond two frames. |
| `StagingBuffer.StagingBuffer.NeedDataSize` | tracy/tracy-0.8.2/client/TracyProfiler.hpp:768-777 | Afterwards the item fits the frame; a commit is forced exactly when it did not, and then of a non-empty frame. |
| `StagingBuffer.StagingBuffer.AppendDataUnsafe` | tracy/tracy-0.8.2/client/TracyProfiler.hpp:779-783 | The staged bytes grow by the data; no byte outside the buffer or outside the appended range is written. |
| `StagingBuffer.StagingBuffer.AppendData` | tracy/tracy-0.8.2/client/TracyProfiler.hpp:761-766 | The log grows by exactly one whole message, in one frame. |
| `StagingBuffer.StagingBuffer.Flush` | tracy/tracy-0.8.2/client/TracyProfiler.cpp:1840-1843 | The idle flush commits only non-empty frames and keeps the log. |
| `StagingBuffer.StagingBuffer.Reconnect` | tracy/tracy-0.8.2/client/TracyProfiler.cpp:1874-1878 | A new connection starts with an empty log and an empty history. |
| `StagingBuffer.StagingBuffer.SendString` | tracy/tracy-0.8.2/client/TracyProfiler.cpp:2944-2966 | The log grows by header, 16-bit length and text as one message that no frame boundary splits. |
| `StagingBuffer.StagingBuffer.SendBareString` | tracy/tracy-0.8.2/client/TracyProfiler.cpp:2968-2996 | The same for single and second strings. |
| `StagingBuffer.StagingBuffer.SendLongString` | tracy/tracy-0.8.2/client/TracyProfiler.cpp:2998-3017 | The same with a 32-bit length. |
| `StagingBuffer.StagingBuffer.SendBlock` | tracy/tracy-0.8.2/client/TracyProfiler.cpp:3034-3053 | The same for payloads that carry their own length (source locations and allocated callstacks). |
| `StagingBuffer.StagingBuffer.SendCallstackPayload` | tracy/tracy-0.8.2/client/TracyProfiler.cpp:3055-3103 | The same for callstacks, copied at once or word by word. |
| `StagingBuffer.PrefixIsReadable` | tracy/tracy-0.8.2/client/TracyProfiler.cpp:2944-3017 | A reader that knows header and length sizes finds the payload and the end of the message. |
| `StagingBuffer.PointerHeader` | tracy/tracy-0.8.2/client/TracyProfiler.cpp:2954-2963 | The header is the type and the pointer, which can be read back from it. |
| `StagingBuffer.WordAt` | tracy/tracy-0.8.2/client/TracyProfiler.cpp:3055-3084 | Each 64-bit word of a callstack can be read back from its place. |
| `StagingBuffer.CallstackLengthExact` | tracy/tracy-0.8.2/client/TracyProfiler.cpp:3063-3070 | The 16-bit length of a callstack payload is right exactly below 8192 frames. |
| `StagingBuffer.CommitMessages` | tracy/tracy-0.8.2/client/TracyProfiler.cpp:2929-2935 | Turning pending messages into a frame leaves the concatenated bytes of the connection as they were. |
| `Bytes.LittleEndianRoundTrip` | tracy/tracy-0.8.2/client/TracyProfiler.cpp:2963-2965 | A length copied from memory is read back, if it fits its bytes. |
| `TimeDeltas.Profiler.ThreadCtxCheck` | tracy/tracy-0.8.2/client/TracyProfiler.cpp:2917-2927 | A ThreadContext goes out exactly when the thread changes, and the thread reference becomes zero. |
| `TimeDeltas.Profiler.ProcessItems` | tracy/tracy-0.8.2/client/TracyProfiler.cpp:2251-2524 | The loop with its cached references, rewriting times in place, sends what the item-by-item specification sends and leaves its references. |
| `TimeDeltas.Profiler.Dequeue` | tracy/tracy-0.8.2/client/TracyProfiler.cpp:2244-2527 | A lock-free batch is announced by its thread and then sent. |
| `TimeDeltas.Profiler.DequeueSerial` | tracy/tracy-0.8.2/client/TracyProfiler.cpp:2599-2915 | The serial loop, with and without fibers, sends what the specification sends, thread checks included. |
| `TimeDeltas.Profiler.DequeueContextSwitches` | tracy/tracy-0.8.2/client/TracyProfiler.cpp:2529-2587 | The disconnect path sends the context switches up to the stop time, nothing else, and reports having passed it. |
| `TimeDeltas.DrainedSelects` | tracy/tracy-0.8.2/client/TracyProfiler.cpp:2529-2583 | What the disconnect path sends are the ContextSwitch and ThreadWakeup items before the first of them past the stop time, each once and in order; that stop is what -1 reports. |
| `TimeDeltas.Profiler.Connect` | tracy/tracy-0.8.2/client/TracyProfiler.cpp:1783-1786 | A new connection resets the thread and three references, not the thread reference. |
| `TimeReader.RoundTrip` | tracy/tracy-0.8.2/server/TracyWorker.cpp:4602-4886 | For any interleaving of lock-free, serial and disconnect batches over a connection, with any thread ids and plot values, the server, type by type as its own functions read them, recovers every item with its absolute time, in order, and its thread, if and only if no item that it reads goes out on the thread clock while the two thread references are apart. |
| `TimeReader.ClocksAgree` | tracy/tracy-0.8.2/server/TracyWorker.cpp:4905-7042 | For every type the reference that the client subtracts is the one that the server adds to. |
| `TimeReader.SerialAgrees` | tracy/tracy-0.8.2/client/TracyProfiler.cpp:2589-2597 | With fibers the serial loop announces the thread of exactly the types that the server files under the announced thread. |
| `TimeReader.FiniteRoundTrip` | tracy/tracy-0.8.2/client/TracyProfiler.cpp:1783-1786 | With finite plot values the round trip succeeds if and only if the thread reference kept from before is zero or no item on the thread clock is sent before the first ThreadContext. |
| `TimeReader.PlotShiftsZone` | tracy/tracy-0.8.2/server/TracyWorker.cpp:5602-5626 | A plot value that is not finite inside a zone shifts the zone's end by the time from its begin to the plot, so that the round trip fails unless both times are equal. |
| `TimeReader.AllTracked` | tracy/tracy-0.8.2/client/TracyProfiler.cpp:2244-2927 | After every batch the server's references are the client's, but for a skew of the thread reference that follows from what was sent; all items came out right, or one came out wrong. |
| `TimeReader.PlusMinus` | tracy/tracy-0.8.2/client/TracyProfiler.cpp:2301-2304 | 64-bit differences are undone by 64-bit sums, overflow included. |
| `TimeReader.Restored` | tracy/tracy-0.8.2/server/TracyWorker.cpp:4898-4903 | The server restores an item on the thread clock to its time plus the skew, and any other item exactly. |
| `TimeReader.NonZeroRoundTrip` | tracy/tracy-0.8.2/client/TracyProfiler.cpp:2244-2927 | With finite plot values and thread ids that are not zero every connection comes back right. |
| `TimeReader.ItemTracked` | tracy/tracy-0.8.2/client/TracyProfiler.cpp:2262-2516 | One item of any type, skipped ones included, keeps this relation. |
| `Dxt1Colour.FormsAgree` | tracy/tracy-0.8.2/client/TracyDxt1.cpp:30-41 | Both forms of to565 give the same sixteen bits, whatever the fourth byte. |
| `Dxt1Colour.ChannelsOfColour` | tracy/tracy-0.8.2/client/TracyDxt1.cpp:30-33 | Each masked channel can be read back from the packed colour. |
| `Dxt1Colour.MaskSeesColour` | tracy/tracy-0.8.2/client/TracyDxt1.cpp:415-425 | The uniformity mask keeps exactly the bits that the packed colour keeps. |
| `Dxt1Colour.ColourOfWord` | tracy/tracy-0.8.2/client/TracyDxt1.cpp:30-41 | For every pixel of a block both bit forms of to565 compute the arithmetic 5-6-5 colour on which the encoder's theorems are stated. |
| `Dxt1Colour.MaskedWordsAgree` | tracy/tracy-0.8.2/client/TracyDxt1.cpp:415-425 | The masked words of two pixels of a block are equal exactly when the pixels agree in the bits of a colour. |
| `Dxt1Colour.BitsAreSum` | tracy/tracy-0.8.2/client/TracyDxt1.cpp:30-33 | Shifts, masks and ors of to565 give the sum of the scaled channels. |
| `Dxt1.IndexFits` | tracy/tracy-0.8.2/client/TracyDxt1.cpp:444-457 | Every index fits two bits, for every brightness within the block's range. |
| `Dxt1.IndexMonotone` | tracy/tracy-0.8.2/client/TracyDxt1.cpp:456-458 | Brighter pixels never get smaller indices, and brightness 0 gets index 0. |
| `Dxt1.BrightestIndex` | tracy/tracy-0.8.2/client/TracyDxt1.cpp:456-458 | The brightest possible pixel gets index 3 exactly when the range is at least 4. |
| `Dxt1.IndexValue` | tracy/tracy-0.8.2/client/TracyDxt1.cpp:444-457 | The quantized index is 4c / (range + 1) rounded down, never above it, and below it by no more than the rounding of the table; for ranges under 4 it is c - 1, or 0. |
| `Dxt1.IndexOfPixel` | tracy/tracy-0.8.2/client/TracyDxt1.cpp:453-458 | The same of the index that stands in the word for each pixel of a block that varies. |
| `Dxt1.EndsMoveIn` | tracy/tracy-0.8.2/client/TracyDxt1.cpp:446-451 | Both ends of a channel move in by a sixteenth of its range, rounded down. |
| `Dxt1.MinMaxReached` | tracy/tracy-0.8.2/client/TracyDxt1.cpp:431-442 | The extremes of a channel are values of some pixel. |
| `Dxt1.EndpointOrder` | tracy/tracy-0.8.2/client/TracyDxt1.cpp:415-462 | The first endpoint is strictly above the second exactly for the blocks that are not uniform under the mask, despite the inset. |
| `Dxt1.InsetKeepsOrder` | tracy/tracy-0.8.2/client/TracyDxt1.cpp:446-451 | The inset never closes a gap that survives the dropped bits. |
| `Dxt1.UniformExact` | tracy/tracy-0.8.2/client/TracyDxt1.cpp:426-429 | A uniform block names each pixel's own packed colour as second endpoint, with all indices 0. |
| `Dxt1.IndicesFollowBrightness` | tracy/tracy-0.8.2/client/TracyDxt1.cpp:453-462 | In the encoded word of a block that varies, indices follow brightness and stay within 3. |
| `Dxt1.EncodedFields` | tracy/tracy-0.8.2/client/TracyDxt1.cpp:424-462 | The endpoints and indices can be read back from the word. |
| `Dxt1.EncodedFits` | tracy/tracy-0.8.2/client/TracyDxt1.cpp:462 | The word fits 64 bits. |
| `Dxt1Image.ProcessRgb` | tracy/tracy-0.8.2/client/TracyDxt1.cpp:415-462 | The loops over one block, early break included, compute the specified word. |
| `Dxt1Image.MinMax` | tracy/tracy-0.8.2/client/TracyDxt1.cpp:431-442 | The update loops with their else compute the channel-wise minimum and maximum. |
| `Dxt1Image.CompressImageDxt1` | tracy/tracy-0.8.2/client/TracyDxt1.cpp:616-645 | For all positive multiples of 4 the walk stays inside the image and writes one word per block, in raster order, filling w*h/2 bytes. |
| `Dxt1Image.PixelEncodedOnce` | tracy/tracy-0.8.2/client/TracyDxt1.cpp:616-645 | Each pixel is one fixed pixel of one block, and block and position give the pixel back. |
| `PerfClock.ConvertExact` | tracy/tracy-0.8.2/client/TracyRingBuffer.hpp:105-112 | The quotient and remainder form equals floor(time * 2^shift / mult) modulo 2^64 exactly when the shifted remainder fits 64 bits. |
| `PerfClock.SplitExact` | tracy/tracy-0.8.2/client/TracyRingBuffer.hpp:108-111 | Splitting the product by quotient and remainder loses nothing. |
| `PerfClock.KernelShiftFits` | tracy/tracy-0.8.2/client/TracyRingBuffer.hpp:105-112 | For shifts up to 32 the shifted remainder always fits. |
| `PerfClock.ConvertMonotone` | tracy/tracy-0.8.2/client/TracyRingBuffer.hpp:105-112 | For timestamps from time_zero whose result fits, conversion keeps the order of time. |
| `PerfRing.RingBuffer.Read` | tracy/tracy-0.8.2/client/TracyRingBuffer.hpp:77-92 | A read in one piece or two copies the bytes at successive logical offsets from the tail. |
| `PerfRing.RingBuffer.Advance` | tracy/tracy-0.8.2/client/TracyRingBuffer.hpp:94-98 | Advancing by n shifts all offsets by n, also across the wrap of the 64-bit tail. |
| `PerfRing.AdvanceShifts` | tracy/tracy-0.8.2/client/TracyRingBuffer.hpp:94-98 | The position of an offset after an advance is that of the sum before it. |
| `TraceMerge.TerminatesIff` | tracy/tracy-0.8.2/client/TracySysTrace.cpp:1291-1328 | The merge loop ends exactly when no sample carries the latest 64-bit time: such a sample is never strictly earlier than the initial bound. |
| `TraceMerge.EmitsEverySample` | tracy/tracy-0.8.2/client/TracySysTrace.cpp:1291-1440 | When the loop has ended, each ring's emissions are its samples, each once, in its own order. |
| `TraceMerge.EmitsNothingElse` | tracy/tracy-0.8.2/client/TracySysTrace.cpp:1327-1430 | Only samples of the rings are emitted. |
| `TraceMerge.OutputSorted` | tracy/tracy-0.8.2/client/TracySysTrace.cpp:1291-1440 | If the rings hold only samples, each sorted by time, the output is sorted after any number of passes. |
| `TraceMerge.ConvertedTimesSorted` | tracy/tracy-0.8.2/client/TracySysTrace.cpp:1336-1338 | Then the converted times that go out never decrease. |
| `TraceMerge.SelectedEarliest` | tracy/tracy-0.8.2/client/TracySysTrace.cpp:1293-1312 | The choice is no later than any sample in front of a ring. |
| `TraceMergeLoop.Merger.Scan` | tracy/tracy-0.8.2/client/TracySysTrace.cpp:1293-1327 | The inner loop over positions, ends and activity flags performs one pass's skips and choice. |
| `TraceMergeLoop.MergeRings` | tracy/tracy-0.8.2/client/TracySysTrace.cpp:1261-1445 | The loop terminates, emits every ring's samples in order, and sorts sorted rings. |
| `PartialList.PartialList.Add` | tracy/tracy-0.8.2/client/tracy_rpmalloc.cpp:800-812 | Adding at the head refines the sequence; links stay mutual and head.prev stays the tail. |
| `PartialList.PartialList.AddTail` | tracy/tracy-0.8.2/client/tracy_rpmalloc.cpp:815-828 | Adding at the tail. |
| `PartialList.PartialList.PopHead` | tracy/tracy-0.8.2/client/tracy_rpmalloc.cpp:831-839 | Removing the head. |
| `PartialList.PartialList.Remove` | tracy/tracy-0.8.2/client/tracy_rpmalloc.cpp:842-856 | Unlinking any span, the tail included. |
| `SpanLists.Push` | tracy/tracy-0.8.2/client/tracy_rpmalloc.cpp:747-756 | A pushed span heads the longer list and holds its length. |
| `SpanLists.Pop` | tracy/tracy-0.8.2/client/tracy_rpmalloc.cpp:759-771 | The popped span was the first; the next one takes over the length. |
| `SpanLists.Split` | tracy/tracy-0.8.2/client/tracy_rpmalloc.cpp:774-796 | The list is cut after the limit, at least two; both heads hold their own lengths and both chains end in null. |
| `SpanCacheLists.UnmapSpanList` | tracy/tracy-0.8.2/client/tracy_rpmalloc.cpp:735-744 | All spans of a list are visited once, and the walk ends in null. |
| `SpanCacheLists.GlobalCache.Insert` | tracy/tracy-0.8.2/client/tracy_rpmalloc.cpp:862-880 | A list is stacked, or unmapped where the cache would exceed its limit; the size is the number of stacked spans. |
| `SpanCacheLists.GlobalCache.Extract` | tracy/tracy-0.8.2/client/tracy_rpmalloc.cpp:883-901 | The list on top comes off whole and the size goes down by its length. |
| `SpanCacheLists.GlobalCache.Finalize` | tracy/tracy-0.8.2/client/tracy_rpmalloc.cpp:904-916 | Every stacked span is unmapped once and the size ends at zero. |
| `SpanCacheLists.ThreadCache.AdoptDeferred` | tracy/tracy-0.8.2/client/tracy_rpmalloc.cpp:943-961 | The spans handed back by other threads join the cache, each once. |
| `SpanCacheLists.CacheInsert` | tracy/tracy-0.8.2/client/tracy_rpmalloc.cpp:966-1008 | The span goes in front; beyond the hard limit exactly the release count of newest spans is passed on, and none is lost. |
| `SpanCacheLists.ExtractCached` | tracy/tracy-0.8.2/client/tracy_rpmalloc.cpp:1012-1050 | Global extraction overwrites the heap's slot only when it is empty, so own list and global lists lose exactly the span returned. |
| `SpanCacheLists.HeapFinalize` | tracy/tracy-0.8.2/client/tracy_rpmalloc.cpp:1651-1672 | When a thread ends, its spans are those unmapped and those in the global cache, as multisets; the lists in the global cache are exactly those for which there was room. |
| `SizeClasses.AdjustSizeClass` | tracy/tracy-0.8.2/client/tracy_rpmalloc.cpp:1622-1639 | Merging keeps every entry equal to that of the last class with as many blocks. |
| `SizeClasses.SetUpClasses` | tracy/tracy-0.8.2/client/tracy_rpmalloc.cpp:1888-1907 | After setup all 126 classes are merged in this way; the medium limit is the last class's size. |
| `SizeClasses.BlocksFitSpan` | tracy/tracy-0.8.2/client/tracy_rpmalloc.cpp:1622-1628 | At least two blocks of every class fit the span behind its header, and one more would not. |
| `SizeClasses.UsableCoversRequest` | tracy/tracy-0.8.2/client/tracy_rpmalloc.cpp:1268-1349 | Small, medium, large and huge requests all get at least what they ask for, from a valid class and at most 32 spans. |
| `SizeClasses.NothingSmallerCovers` | tracy/tracy-0.8.2/client/tracy_rpmalloc.cpp:1267-1320 | The class is the smallest that covers the request, or the largest with as many blocks in a span; one span or page less would not cover it. |
| `BlockCarving.FreeListPartialInit` | tracy/tracy-0.8.2/client/tracy_rpmalloc.cpp:1106-1133 | The first block is handed out and the words written spell the free list of the others; nothing else is written. |
| `BlockCarving.StopsAtPage` | tracy/tracy-0.8.2/client/tracy_rpmalloc.cpp:1115-1119 | A batch stops early only for blocks below half a page, and then the next block starts on a later page. |
| `BlockCarving.FreeListPop` | tracy/tracy-0.8.2/client/tracy_rpmalloc.cpp:1206-1210 | Popping yields the first block and the list of the rest. |
| `BlockCarving.CarvedInOrder` | tracy/tracy-0.8.2/client/tracy_rpmalloc.cpp:1229-1235 | The batches of a span cover its blocks once, in order. |
| `BlockCarving.BlocksInsideSpan` | tracy/tracy-0.8.2/client/tracy_rpmalloc.cpp:1106-1133 | Blocks lie behind the header, inside the span, and do not overlap. |
| `BlockCarving.BatchesOfPages` | tracy/tracy-0.8.2/client/tracy_rpmalloc.cpp:1103-1131 | Each batch but the last ends behind the page it counts from; of small blocks only the first two of a batch may start behind that page. |
| `BlockCarving.PageStart` | tracy/tracy-0.8.2/client/tracy_rpmalloc.cpp:1229-1233 | A batch counts from the page, a multiple of the page size, on which its first block starts; the first batch counts from the span's header. |
| `SpanBlocks.PopOk` | tracy/tracy-0.8.2/client/tracy_rpmalloc.cpp:1206-1210 | The block popped from the heap's free list was not live, and the partition of the span's blocks is kept. |
| `SpanBlocks.CarveOk` | tracy/tracy-0.8.2/client/tracy_rpmalloc.cpp:1229-1235 | The same for a block carved from the uncarved rest. |
| `SpanBlocks.FullOk` | tracy/tracy-0.8.2/client/tracy_rpmalloc.cpp:1174-1182 | A span without free, deferred or uncarved blocks is fully live. |
| `SpanBlocks.FreeDirectOk` | tracy/tracy-0.8.2/client/tracy_rpmalloc.cpp:1400-1414 | The used count meets the deferred count exactly when the freed block was the last live one. |
| `SpanBlocks.FreeDeferredOk` | tracy/tracy-0.8.2/client/tracy_rpmalloc.cpp:1418-1442 | For a full span, list_size + 1 equals the block count exactly when the freed block was the last live one. |
| `SpanBlocks.LooksEmptyIsEmpty` | tracy/tracy-0.8.2/client/tracy_rpmalloc.cpp:1939-1958 | The final cleanup's test holds exactly for spans without live blocks. |
| `SmallBlocks.EveryBlockOnce` | tracy/tracy-0.8.2/client/tracy_rpmalloc.cpp:1106-1264 | Between operations every block of a span in use is in exactly one place: live, heap free list, span free list, deferred list, or not carved. |
| `SmallBlocks.PartialListStates` | tracy/tracy-0.8.2/client/tracy_rpmalloc.cpp:1161-1190 | Between operations a partial list is empty or its head is active and all others are partial with a free block; full spans are in no list. |
| `SmallBlocks.StepInv` | tracy/tracy-0.8.2/client/tracy_rpmalloc.cpp:1088-1101 | A step on one class and one span keeps the invariant of all classes of all heaps. |
| `SmallBlocks.FullStep` | tracy/tracy-0.8.2/client/tracy_rpmalloc.cpp:1174-1182 | A full span is in no list. |
| `SmallBlocks.PromoteStep` | tracy/tracy-0.8.2/client/tracy_rpmalloc.cpp:1162-1171 | The first partial span becomes the active head. |
| `SmallBlocks.RejoinStep` | tracy/tracy-0.8.2/client/tracy_rpmalloc.cpp:1185-1190 | A full span with its first free block goes to the tail of the list, as partial with a non-empty free list. |
| `SmallBlocks.ReleaseStep` | tracy/tracy-0.8.2/client/tracy_rpmalloc.cpp:1089-1101 | A span leaves its class; the head stays active and the others partial. |
| `SmallAllocator.Allocator.Allocate` | tracy/tracy-0.8.2/client/tracy_rpmalloc.cpp:1214-1288 | No allocation returns a live block, and exactly the returned one becomes live; it is the block that the first non-empty source gives, and the class waits for another span exactly when all sources are empty. |
| `SmallAllocator.Allocator.SetNewActive` | tracy/tracy-0.8.2/client/tracy_rpmalloc.cpp:1137-1158 | A span from the caches becomes the active one and its first block is handed out. |
| `SmallAllocator.Allocator.EmptySpans` | tracy/tracy-0.8.2/client/tracy_rpmalloc.cpp:1934-1962 | The walk over a heap's partial lists finds exactly the listed spans that pass the test for an empty span, each once. |
| `Rpmalloc.Rpmalloc.Allocate` | tracy/tracy-0.8.2/client/tracy_rpmalloc.cpp:1214-1288 | Over all heaps and caches together: the block was not live, it lies in a span in use and of that class, and no other block changes. It comes from the first of the class's own sources that has one; only if none has, from a span of the first level with one, and memory is mapped exactly when these are empty too. |
| `Rpmalloc.Rpmalloc.Deallocate` | tracy/tracy-0.8.2/client/tracy_rpmalloc.cpp:1400-1458 | Exactly the block is not live any more. Its span leaves use exactly when that was its last live block and it is not active, freed by its own heap, or full, freed by another; it then goes in front of its heap's cache, or of the spans handed back to its heap. An emptied span otherwise stays in use and no list of spans changes. |
| `Rpmalloc.Rpmalloc.AllocateLarge` | tracy/tracy-0.8.2/client/tracy_rpmalloc.cpp:1291-1311 | A large block is a span that was not in use, of the least number of spans that covers it, from the first level that has one; memory is mapped exactly when none has. |
| `Rpmalloc.Rpmalloc.DeallocateLarge` | tracy/tracy-0.8.2/client/tracy_rpmalloc.cpp:1462-1495 | Freeing it takes exactly this span out of use, into the heap's reserve if that is empty and the span is more than one, else into the cache. |
| `Rpmalloc.Rpmalloc.Finalize` | tracy/tracy-0.8.2/client/tracy_rpmalloc.cpp:1919-1983 | If no small or large block is live, the walk finds every span in use, and every region ever mapped is released. |
| `SmallAllocator.Allocator.AllocateFallback` | tracy/tracy-0.8.2/client/tracy_rpmalloc.cpp:1214-1264 | The same for the fallbacks in their order: own free list, carving, deferred list, next partial span; each with what it leaves of the class and the span. |
| `SmallAllocator.Allocator.Deallocate` | tracy/tracy-0.8.2/client/tracy_rpmalloc.cpp:1445-1458 | A free, direct or deferred, makes exactly its block not live; the span goes to its heap's cache, to the handed-back spans or stays, each in exactly the case that its owner, its state and its last live block decide. |
| `SmallAllocator.Allocator.DeallocateDirect` | tracy/tracy-0.8.2/client/tracy_rpmalloc.cpp:1400-1415 | A span goes to the cache exactly when it is not active and the freed block was its last live one. |
| `SmallAllocator.Allocator.DeallocateDefer` | tracy/tracy-0.8.2/client/tracy_rpmalloc.cpp:1418-1442 | A span is handed back to its heap exactly when it is full and the freed block was its last live one. |
| `SmallAllocator.CleanupTakesAll` | tracy/tracy-0.8.2/client/tracy_rpmalloc.cpp:1934-1962 | If a class has no live block, all its spans are in its partial list and pass the cleanup's test. |
| `SmallAllocator.CleanupSparesLive` | tracy/tracy-0.8.2/client/tracy_rpmalloc.cpp:1934-1962 | A span that passes has no live block. |
| `SuperSpans.MapOk` | tracy/tracy-0.8.2/client/tracy_rpmalloc.cpp:655-686 | A new region is tiled by the span asked for and the rest, and its count is its size. |
| `SuperSpans.CutOk` | tracy/tracy-0.8.2/client/tracy_rpmalloc.cpp:611-634 | Cutting a piece keeps the tiling and all counts, and marks the span with its distance to the master. |
| `SuperSpans.UnmapOk` | tracy/tracy-0.8.2/client/tracy_rpmalloc.cpp:697-729 | The master is found; remaining_spans stays the number of spans of pieces not unmapped; the region is released exactly with its last piece, its master marked unmapped. |
| `SuperSpans.RemainingIsTotal` | tracy/tracy-0.8.2/client/tracy_rpmalloc.cpp:655-729 | Where regions are cut into pieces that do not overlap, as every operation keeps them, remaining_spans equals the total size of the region's pieces that are not unmapped. |
| `SuperSpans.UnmapCovers` | tracy/tracy-0.8.2/client/tracy_rpmalloc.cpp:707-720 | Unmapping uncovers exactly the piece's spans. |
| `SpanPlaces.PushOk` | tracy/tracy-0.8.2/client/tracy_rpmalloc.cpp:966-1008 | Putting a span into a list keeps every piece in exactly one place. |
| `SpanPlaces.ShiftOk` | tracy/tracy-0.8.2/client/tracy_rpmalloc.cpp:774-796 | So does moving a whole list. |
| `SpanPlaces.CutReserveOk` | tracy/tracy-0.8.2/client/tracy_rpmalloc.cpp:623-634 | So does cutting the reserve. |
| `SpanPlaces.MapNewOk` | tracy/tracy-0.8.2/client/tracy_rpmalloc.cpp:665-686 | So does mapping a region. |
| `SpanPlaces.UnmapOneOk` | tracy/tracy-0.8.2/client/tracy_rpmalloc.cpp:697-729 | So does unmapping a span out of use. |
| `SpanPlaces.AllReleased` | tracy/tracy-0.8.2/client/tracy_rpmalloc.cpp:1964-1983 | With nothing in use and all lists empty, no region is mapped any more. |
| `SpanSystem.SpanSystem.ExtractNewSpan` | tracy/tracy-0.8.2/client/tracy_rpmalloc.cpp:1053-1085 | The span was not in use and has the size asked for. It is the first of the heap's cache after adoption, else the front of the reserve, else the first of the global cache's top list, whose rest becomes the cache, each with the lists as that leaves them; memory is mapped exactly when all three are empty. |
| `SpanSystem.SpanSystem.MapAlignedSpanCount` | tracy/tracy-0.8.2/client/tracy_rpmalloc.cpp:665-686 | Likewise for new regions. If more is mapped than asked for, what is left over becomes the reserve, and an old reserve that was too small is cached, with every list as that leaves it; if not, reserve and lists stay. |
| `SpanSystem.SpanSystem.AlignSpanCount` | tracy/tracy-0.8.2/client/tracy_rpmalloc.cpp:637-643 | At least the mapping granularity is mapped, the count exactly where no rounding is due, else the next multiple of the granularity above it. |
| `SpanSystem.SpanSystem.CacheInsert` | tracy/tracy-0.8.2/client/tracy_rpmalloc.cpp:966-1008 | The span leaves use and heads the heap's cache, behind it the spans handed back if it is a single one, then the old cache; beyond the hard limit exactly the release count of newest spans goes on top of the global cache, or is unmapped where that is full; no other list changes. |
| `SpanSystem.SpanSystem.DeallocateLarge` | tracy/tracy-0.8.2/client/tracy_rpmalloc.cpp:1462-1495 | A freed large span of several spans becomes the reserve of a heap that has none; in any other case it is cached and the reserve stays. No other span leaves use. |
| `SpanSystem.SpanSystem.HeapFinalize` | tracy/tracy-0.8.2/client/tracy_rpmalloc.cpp:1651-1672 | A finished thread's cache slots end up empty, each cache, deferred spans adopted, having gone to the global cache list by list where there is room; other heaps' lists and the reserve are kept. |
| `SpanSystem.StackedKeeps` | tracy/tracy-0.8.2/client/tracy_rpmalloc.cpp:1651-1672 | Where there is room for a whole cache, every span of it is in the global cache afterwards, none twice. |
| `SpanSystem.SpanSystem.Finalize` | tracy/tracy-0.8.2/client/tracy_rpmalloc.cpp:1919-1983 | If what is in use are the small spans found empty, every region ever mapped is released. |
| `Reallocation.NumSpansCovers` | tracy/tracy-0.8.2/client/tracy_rpmalloc.cpp:1545-1548 | The mask used by the large tier never takes too few spans, and one too many exactly for whole spans beyond the first. |
| `Reallocation.MaskSeesAllButOne` | tracy/tracy-0.8.2/client/tracy_rpmalloc.cpp:1547 | That mask is zero exactly for sizes 0 and one span. |
| `Reallocation.Allocations.Reallocate` | tracy/tracy-0.8.2/client/tracy_rpmalloc.cpp:1523-1596 | The block keeps its place exactly when it fits; else the new one is allocated for the request or for 37% more than the old size. The result has at least the requested usable size and keeps the first min(old, new) bytes; other blocks are untouched; it fails exactly when it must move and memory is out. |
| `Reallocation.FitsCovers` | tracy/tracy-0.8.2/client/tracy_rpmalloc.cpp:1533-1575 | Wherever a block is kept in place it covers the request. |
| `Reallocation.FitsExactly` | tracy/tracy-0.8.2/client/tracy_rpmalloc.cpp:1533-1575 | A block fits exactly when it covers the request and, above the medium tier, the request needs half of it; in the large tier not if it fills two or more spans to the last byte. |
| `Reallocation.NewSize` | tracy/tracy-0.8.2/client/tracy_rpmalloc.cpp:1585-1587 | A growing block asks for at least 11/8 of its old size, less rounding, and for no more unless the request itself is larger; a shrinking one for the request. |

## Left out

- Weak memory: atomics are sequentially consistent, and acquire and release are taken as given.
- The state machines of the queue (BlockRing) and of the free list (FreeList) are values stepped by functions, not heap objects; they capture every interleaving of atomic accesses, not the aliasing of blocks between queues.
- A block's emptiness counter is modelled; the per-element flags, compiled in only for blocks of at most 32 elements, are not.
- Destructors of producers and of the queue, producers recycled while a consumer is mid-dequeue, and their thread labels.
- The handing over of blocks between the free list and producers is not modelled; the ring takes each further block as a fresh one.
- Interleavings inside one allocator operation: each allocation, free and cache operation is a whole step.
- Spans in lists are sequences of values in SpanSystem; the pointer form of the same lists is SpanCacheLists, and the ABA counters in the low pointer bits are left out of both.
- The free lists of SmallBlocks are sequences of block numbers; that they are spelled by words in block memory is shown for carving and popping only.
- Span sizes other than 64 KiB, adaptive and unlimited caches, statistics, heap lookup by id, orphaned heaps, aligned allocation, and failing map calls outside reallocation.
- The one-byte frame that announces termination from a stack item, and the content of items beyond their bytes.
- StagingBuffer.StagingBuffer.SendCallstackPayload: demands fewer than 8192 frames, far more than its callers collect (TracyCallstack.hpp limits the depth to 62), because the 16-bit length is wrong beyond that.
- A connection that is lost in the middle of a batch, and the ownership of item memory then; items carry their type, thread, time, whether a plot value is finite, and one opaque rest.
- The server beyond the references it adds to and the thread it files an item under; its failures (unbalanced zones, double frees) end the connection and are not modelled.
- Dxt1.DivTable: the formula that its 766 entries follow, not the table itself.
- The SSE, AVX and NEON paths of the texture encoder, and any statement about visual error.
- Dxt1Image.CompressImageDxt1: products of width and height do not wrap at 32 bits.
- The records of TraceMerge are parsed values; how the bytes of samples are laid out, callstack blocks and event setup are not modelled, and order in time is stated for rings of samples only.
- ProducerRotation.ServedWithinN: the number of producers is fixed over the calls counted.
- LZ4, sockets, broadcast, crash handling, symbol decoding, host information, and the Lua, D3D, Vulkan, OpenGL and OpenCL wrappers: I/O, foreign calls or data.
- FastVector, getopt and the table generators: they would only add easy members.
