# A verified model of the search server and its allocator

The repository is a keyword search server: it indexes a directory of text files in an inverted
index, answers queries over TCP from a pool of worker threads, and gets its memory from a
thread-caching allocator of its own. This project models the three cores and proves what they are
for, for every input and every run.

* **The allocator** (`tc_malloc.c`, `tc_malloc.h`). `SizeClasses`, `Slots`, `PageHeap` and
  `Allocator` give the state and its operations as functions, the invariant, and a lemma for every
  step; `AllocatorRuns` makes them a transition system for any number of threads and
  `AllocatorSafety` states what holds in every reachable state, `AllocatorLists` what becomes of
  the lists of spans; `LongSpans` and `LostSpan` are runs that show where it ends.
  `PageHeapFrames` and `FetchInterleaving` let other threads into the middle of a fetch.
  `PageCache` and `TcMalloc` are the same operations as the program runs them, fields changed in
  place by loops, proved to do what the functions say. `SpanRing` and `FreeChain` go down to the
  pointers of the two kinds of list, `FreeLists` follows the free lists in memory through whole
  runs, and `SpinLocks` has the locks, with `LockedCalls` to tie them to the steps. `StartUp` is the
  state after set-up, and `BlockReuse` says which block is handed out again.
* **The inverted index** (`server.c`, `helper.c`). `Tokenizer`, `DynTable`, `WordTable` and
  `InvertedIndex` specify tokens, tables and postings and compare them with scanning the documents;
  `Indexer` is the parser over its buffer.
* **Pool, dispatcher and protocol** (`thread_pool.c`, `server.c`, `common.h`). `JobQueue`,
  `WorkerPool`, `Dispatcher`, `Framing`, and `SearchService`, which joins index, file names and
  protocol into one statement about a request and its reply. `Runs` has runs of any transition
  system, `Sequences` facts about sequences and sets.

Addresses are naturals, and a descriptor is named by its address. A region under a lock is one step;
between two such regions a thread changes only its own cache. A fetch gives the page-heap lock up
before it cuts the span it got: `FetchInterleaving` is why that may be one step all the same. In a
flush the invariant holds after every pass of the loop, so steps of others there are steps like any.
A thread allocates and frees when its set-up is done. It does read the page map and a slot size
without a lock when it frees a block; `AllocatorSafety.ReadsStable` is why that makes no difference.
The system calls are nondeterministic: `sbrk` only grows the break by whole pages from a
page-aligned start, reads and writes are split at will, sleepers wake for no reason; a new
descriptor is the lowest that is free.

## What the code does not do

Some properties one would expect are false of the code. The code is modelled as it is, and the exact
condition is proved.

* A request above 32,768 bytes is rounded down to pages, and from 256 pages on the head of ring 255
  is taken whatever its length: `AllocatorSafety.LargeMalloc` says exactly when the block holds the
  request, `LargeMallocShort` gives an input.
* A split computes the start of the new span with a 32-bit product, which wraps when 2^20 pages or
  more are left over: `PageHeap.MoveTailExact` and `AllocatorRuns.StepExact` have the condition,
  `LongSpans.WrappedRun` the calls, the first of which asks for 4,295,000,064 bytes. The promises of
  `AllocatorSafety` are for runs whose requests are all smaller; from any state a thread that may make
  larger ones can break them, `LongSpans.AlwaysBreakable`.
* A span that was refiled keeps the location "idle", so refiling it again while it heads its list
  cuts the others off: `AllocatorLists.FlushLoses` says exactly when, `LostSpan.SpanIsLost` gives a
  run, and `SpanRing.RefileListed` has it on the pointers.
  Ownership of slots does not depend on these lists.
* A flush looks only at the span of the last slot it returns: `AllocatorLists.FlushLists` says exactly
  when every span with a free slot is still where a fetch finds it.
* From 2^31 pages on, 8 TiB, a request does not fit the int it is kept in:
  `PageHeap.SearchStartExact`. What is promised of large requests is promised below that.
* The tokenizer compares an absolute index with a remaining length, so a word that ends past half of
  the buffer may be cut wrongly: `Tokenizer.CutExactly` and `LongLineMisread`.
* From an odd capacity the growing array drops an entry when it is full: `DynTable.NamesFound`. The
  program starts from 10.
* A file name may have a newline in it, and a client then cannot tell where an entry of the reply ends:
  `SearchService.ListingRead` has the condition.
* A payload of 2^31 bytes or more becomes negative in the receiver, which then asks for more than can
  be read: `Framing.FrameRoundTrip`.

## Model

| member | source | states |
|---|---|---|
| SizeClasses.SmallestClass | tc_malloc.h:257-284 | a request has a class exactly if it is 1 to 32,768 bytes, and then the smallest class whose slots hold it; for 0 bytes the index is negative |
| SizeClasses.ClassRoundTrip | tc_malloc.h:233-255 | slot sizes are multiples of 8 between 1 and 32,768, and the class of a class's size is that class |
| SizeClasses.SizesIncrease | tc_malloc.h:233-255 | slot size grows strictly with the class |
| SizeClasses.TotalOfSizes | tc_malloc.h:233-255 | the 159 slot sizes add up to 2,138,336 |
| Slots.CarveSpaced | tc_malloc.c:358-371 | carved slots lie inside the span, in order, at least a slot size apart, all different |
| Slots.CarveCount | tc_malloc.c:358-371 | as many slots are carved as fit, the span's bytes divided by the slot size |
| Slots.SlotsApart | tc_malloc.c:358-371 | two different slots do not overlap |
| Slots.CarveAligned | tc_malloc.c:358-371 | slots of an aligned span are 8-byte aligned |
| PageHeap.EmptyOk | tc_malloc.c:587-599 | the zeroed page heap satisfies the page-heap invariant |
| PageHeap.NewPoolOk | tc_malloc.c:58-83 | a fresh descriptor pool, whose first descriptor stands for the pool, keeps the invariant and touches no earlier span, page or ring |
| PageHeap.AllocSpanOk | tc_malloc.c:52-106 | the next descriptor is new, stands for no page yet, holds the given size and page index, and the invariant is kept |
| PageHeap.GrabBlockOk | tc_malloc.c:225-237 | a block straight from the system becomes one held span of exactly its pages, mapped to it; all other spans and mappings stay |
| PageHeap.FetchFromSystemOk | tc_malloc.c:118-139 | a refill keeps the invariant, with the new span on file |
| PageHeap.PushOk | tc_malloc.c:312-312 | filing a held clean span by its length makes it the first of its ring, taking the first off undoes it, and the invariant is kept: ring i below 255 has only spans of i+1 pages, ring 255 only those of 256 or more |
| PageHeap.DropHeadOk | tc_malloc.c:169-173 | the head taken off a ring is held, clean and of that ring's length |
| PageHeap.MoveTailExact | tc_malloc.c:143-162 | moving a span's last pages to another descriptor keeps page map, start addresses and rings consistent if and only if fewer than 2^20 pages are left over: the start is computed with a 32-bit product |
| PageHeap.CutOk | tc_malloc.c:187-197 | after a split that leaves fewer than 2^20 pages the new span is held, the rest is on file again, and the same pages are mapped |
| PageHeap.FirstFiled | tc_malloc.c:187-197 | the first non-empty ring from an index on, all rings before it being empty |
| PageHeap.PrepareOk | tc_malloc.c:179-185 | the descriptor made before searching owns nothing, so one left behind by a refill does no harm; it says isolated above 8 pages |
| PageHeap.SearchStartExact | tc_malloc.c:187-187 | the search for a longer ring, which keeps the request in an int, starts at the length asked for if and only if that is below 2^31 pages; a request of 2^32 + 8 pages is taken for one of 8 |
| PageHeap.FetchSpanOk | tc_malloc.c:164-244 | for every request below 2^31 pages: if the split it makes, if any, fits, fetch_span returns a held clean span of exactly the requested length below 256 pages, keeps the invariant and changes no other span in use |
| PageHeap.FetchSpanExact | tc_malloc.c:164-244 | for every request below 2^31 pages it keeps the invariant if and only if that split fits; otherwise the span returned has a wrong start |
| PageHeap.FetchFiled | tc_malloc.c:164-198 | a request of at most 256 pages that some ring can serve takes nothing from the system but, at most, one pool of descriptors of 1,440 pages |
| PageHeap.FetchRefills | tc_malloc.c:241-243 | one that no ring can serve makes exactly one refill, of 65,536 pages |
| PageHeap.SplitLeaves | tc_malloc.c:143-197 | a split hands out the last pages of the head of the first longer ring, and always leaves the first ones, shorter by the request, at the head of their ring |
| PageHeap.FetchLimited | tc_malloc.c:164-244 | requests below 2^20 + 8 pages leave all spans below that length |
| PageHeap.FetchMissOk | tc_malloc.c:175-244 | the same as FetchSpanOk for the part after the exact ring was found empty |
| PageHeap.ReturnSpanOk | tc_malloc.c:249-317 | a returned span is clean and the first of its ring, the invariant is kept, and every other span in use stays as it was |
| PageHeap.ReturnThenFetch | tc_malloc.c:169-317 | the span returned last goes out first: the next request for its ring gets exactly it, and rings and page map are as before the return |
| PageHeap.OwnersDisjoint | tc_malloc.c:24-34 | two spans that own pages own different pages |
| PageCache.Cache.constructor | tc_malloc.c:587-599 | zeroed fields are the empty page heap |
| PageCache.Cache.UpdateMapping | tc_malloc.c:24-34 | the loop maps exactly the span's pages to it and leaves every other page alone |
| PageCache.Cache.GetPool | tc_malloc.c:58-83 | refines the pool refill of the model; the page index computed from the address is the page number of the break |
| PageCache.Cache.AllocSpan | tc_malloc.c:52-106 | refines the model's descriptor allocation, in both branches |
| PageCache.Cache.GrabBlock | tc_malloc.c:223-237 | refines the model's block from the system |
| PageCache.Cache.FetchFromSystem | tc_malloc.c:118-139 | refines the model's refill |
| PageCache.Cache.SplitSpans | tc_malloc.c:143-162 | refines the model's split, with the source's order of filing, renumbering and mapping |
| PageCache.Cache.Prepare | tc_malloc.c:179-185 | refines the model's new descriptor, isolated above 8 pages |
| PageCache.Cache.FindFiled | tc_malloc.c:187-197 | below 2^31 pages the loop, started at the int of the request, finds the first non-empty ring |
| PageCache.Cache.FetchSpan | tc_malloc.c:164-244 | below 2^31 pages, refines the model's fetch_span, keeps the invariant if and only if the split fits, and terminates |
| PageCache.Cache.FetchMiss | tc_malloc.c:175-243 | refines its second half; where the source searches ring 255 once more, that ring is proved empty |
| PageCache.Cache.ReturnSpan | tc_malloc.c:306-313 | refines the model's return of a span, at the head of its ring |
| Allocator.FirstWithSlots | tc_malloc.c:333-345 | the walk stops at the first span with a free slot, all before it having none |
| Allocator.CarvedOk | tc_malloc.c:358-371 | a carved span of class c has all its slots free, counted exactly, and at least one |
| Allocator.AddBatchOk | tc_malloc.c:349-377 | carving a new batch keeps the whole invariant: every slot in exactly one place, nothing else touched |
| Allocator.GetSpanCentralOk | tc_malloc.c:325-378 | returns a span on the class's list that has a free slot, and keeps the invariant |
| Allocator.FetchCountExact | tc_malloc.c:388-398 | although the length counter drifts, the loop takes exactly min(requested, free) slots |
| Allocator.IdleEmpty | tc_malloc.c:410-415 | a span moved to the idle list has an empty free list |
| Allocator.FetchOk | tc_malloc.c:493-523 | fetching a chain into a thread's hands keeps the invariant |
| Allocator.LimitOk | tc_malloc.c:503-518 | the slow-start limit is between 1 and 32, that many slots are asked for, and it grows to twice itself in classes up to 22 and by one in the others until it is 32 |
| Allocator.InsertOk | tc_malloc.c:469-490 | putting the fetched chain in the cache keeps the invariant |
| Allocator.PopOk | tc_malloc.c:529-549 | handing out the front slot keeps the invariant |
| Allocator.LiveSmall | tc_malloc.c:665-683 | what tc_free reads off the page map is the class the live block was handed out for |
| Allocator.FreeSlotOk | tc_malloc.c:551-584 | caching a freed slot, or starting a flush when the cache is full, keeps the invariant |
| Allocator.ReturnOneOk | tc_malloc.c:431-439 | one pass of the return loop keeps the invariant |
| Allocator.ReturnAllOk | tc_malloc.c:431-439 | the whole loop keeps it, leaves carved spans carved and no slot on the way |
| Allocator.RefileOk | tc_malloc.c:441-447 | refiling the last span, listed, idle or lost, keeps the class's rings consistent |
| Allocator.AllHome | tc_malloc.c:449-450 | with no slot lent, every slot of the span is on its own free list |
| Allocator.SettleOk | tc_malloc.c:441-461 | after the loop the span of the last slot goes back to the page heap exactly if it has no slot lent |
| Allocator.FlushOk | tc_malloc.c:420-463 | a whole flush keeps the invariant |
| Allocator.LargeOk | tc_malloc.c:656-660 | handing out a whole span keeps the invariant |
| Allocator.FreeLargeOk | tc_malloc.c:678-681 | freeing a block of pages keeps the invariant and files its span |
| AllocatorRuns.InitOk | tc_malloc.c:629-636 | the invariant holds at set-up |
| AllocatorRuns.StartThreadOk | tc_malloc.c:601-607 | a new thread's empty lists keep the invariant |
| AllocatorRuns.ForeignOk | tc_malloc.c:118-122 | other code moving the break between calls does no harm |
| AllocatorRuns.StepOk | tc_malloc.c:493-683 | every step of every thread whose split fits keeps the invariant |
| AllocatorRuns.StepExact | tc_malloc.c:493-683 | every step, with a request of any size below 2^43 bytes, keeps the invariant if and only if the split it makes, if any, fits |
| AllocatorRuns.StepLimited | tc_malloc.c:493-683 | while every request is below 4,295,000,064 bytes no span is too long, so every split fits |
| AllocatorRuns.ReachableOk | tc_malloc.c:587-683 | the invariant holds in every state that any run of any number of threads, with requests below 4,295,000,064 bytes, reaches |
| AllocatorRuns.StaysReachable | tc_malloc.c:587-683 | a run from a reachable state ends in a reachable state, so the promises hold of every call of the class below |
| AllocatorRuns.ReachedByRun | tc_malloc.c:587-683 | the reachable states, defined as those in every set closed under set-up and steps, are exactly those some run leads to |
| AllocatorSafety.SlotInOnePlace | tc_malloc.c:358-584 | in every reachable state each slot of each carved span is in exactly one place: its span's free list, one thread's cache, on the way, or with the program |
| AllocatorSafety.LiveBlocksApart | tc_malloc.c:649-683 | any two live blocks, small or large, of whichever threads, are disjoint |
| AllocatorSafety.DescriptorsOutside | tc_malloc.c:52-106 | descriptors lie outside every live block |
| AllocatorSafety.DescriptorsApart | tc_malloc.c:52-106 | descriptors do not overlap each other |
| AllocatorSafety.PagesCovered | tc_malloc.c:24-34 | every page obtained, and no other, is mapped, to the one span whose range holds it; that span is a pool, on file, carved, or a live large block, and its start is base + 4096 * pageId |
| AllocatorSafety.SmallMalloc | tc_malloc.c:529-549 | a small tc_malloc returns an unheld 8-byte aligned slot of the smallest class that holds the request |
| AllocatorSafety.FreeRecovers | tc_malloc.c:665-683 | tc_free finds the path and the class of any live block from its address; a large block reads slot size 0 |
| AllocatorSafety.SlotAccounts | tc_malloc.c:363-439 | free plus lent slots are floor(span bytes / slot size), the length counter is never below that, and equal counters mean an empty list |
| AllocatorSafety.SpanChosen | tc_malloc.c:325-378 | in every run slots are taken from the first span on the class's list that has any; if none has, from a new one of 524,288 bytes with all its slots free, put first on the list |
| AllocatorSafety.FetchTakes | tc_malloc.c:381-523 | in every run a fetch detaches exactly min(limit, 32, free) slots, at least 1, from the front of that span's list, leaves the others, and raises the limit: not from 32, else twofold in classes up to 22 and by one above |
| AllocatorSafety.ReleasedWhenHome | tc_malloc.c:420-463 | in every run a span goes back to the page heap only in a flush, when each of its slots is on its own list or among those being returned, and none is anywhere afterwards |
| AllocatorSafety.ReadsStable | tc_malloc.c:665-673 | what tc_free reads without a lock is stable: while a block is live no step of any thread changes the span its page is mapped to or that span's slot size |
| AllocatorSafety.CacheBounded | tc_malloc.c:551-584 | in every cache the length field is the list's length, at most the limit, which is 1 to 32; no thread hoards more than 68,426,752 bytes |
| AllocatorSafety.LargeMalloc | tc_malloc.c:649-660 | a large tc_malloc below 2^43 bytes returns an unheld span; the block holds the request if and only if a condition on the size and the head of ring 255 holds |
| AllocatorSafety.LargeMallocShort | tc_malloc.c:656-657 | a request of 40,000 bytes gets 36,864 |
| AllocatorLists.FlushLoses | tc_malloc.c:441-447 | in every run a flush takes spans off both lists if and only if the span of the last slot still says it is idle and is the first of several on the list |
| AllocatorLists.SettleLoses | tc_malloc.c:443-447 | the same for the code after the loop alone, with the whole test of line 443 |
| AllocatorLists.FlushOrder | tc_malloc.c:441-461 | in every run, after a flush that ends at a span that says it is idle, that span is the first on its class's list unless released, and the others keep their order behind it or are all cut off; any other flush leaves the list but for a span released |
| AllocatorLists.FlushLists | tc_malloc.c:420-463 | in every run, after a flush every span of the class with a free slot is on its list if and only if a condition on the lists, locations and slots before it holds; no other span than that of the last slot is released, even with all its slots home |
| AllocatorLists.SettleLists | tc_malloc.c:441-461 | the same for the code after the loop alone |
| LostSpan.SpanIsLost | tc_malloc.c:410-447 | a run of seventeen threads, with the set-up of the allocator and of each thread, after which a span with free slots is on neither list of its class |
| LongSpans.WrappedRun | tc_malloc.c:143-162 | in any state with no span of 8 pages or more on file, a request of 4,295,000,064 bytes, its release and a request of 32,769 bytes hand out a block that starts where a span on file starts |
| LongSpans.AlwaysBreakable | tc_malloc.c:143-162 | from every state that satisfies the invariant any thread between calls can break it, by calls of tc_malloc and tc_free alone |
| LongSpans.BreakableAfterSetUp | tc_malloc.c:143-162 | so it goes after the set-up of the allocator and of a first thread |
| PageHeapFrames.FetchTweak | tc_malloc.c:164-244 | fetch_span does the same whether the slot fields of a span in use are written before it or after |
| PageHeapFrames.ReturnTweak | tc_malloc.c:249-317 | so does the return of another span |
| FetchInterleaving.StepCommutes | tc_malloc.c:354-371 | a step of another thread between the page fetch and the cutting of the span comes to the same as that step after the whole fetch |
| FetchInterleaving.FetchMayBeSplit | tc_malloc.c:354-371 | a fetch that lets any number of steps of other threads by in between ends in a state that a run of whole steps reaches |
| FetchInterleaving.WalkStable | tc_malloc.c:333-345 | nor can such steps change what the walk over the list saw |
| TcMalloc.PushSlots | tc_malloc.c:358-371 | the carving loop yields the model's carved span: the slots in reverse, counted |
| TcMalloc.PushAll | tc_malloc.c:478-489 | the insertion loop prepends the chain reversed and counts it |
| TcMalloc.Arena.constructor | tc_malloc.c:587-636 | zeroed globals are the model's initial state |
| TcMalloc.Arena.GetSpanCentral | tc_malloc.c:325-378 | walk, fetch and carve refine the model's step |
| TcMalloc.Arena.FetchObjs | tc_malloc.c:381-418 | the counting loop, the cut and the move to idle refine the model's step |
| TcMalloc.Arena.InsertToThreadCache | tc_malloc.c:469-490 | refines the model's insertion of a fetched chain |
| TcMalloc.Arena.FetchFromCentralCache | tc_malloc.c:493-526 | the source's sequence of calls is a run of the model's fetch and insert steps, after which the cache has a slot and the limit is 32, or twice or one more than before |
| TcMalloc.Arena.Allocate | tc_malloc.c:529-549 | is a run of the model's steps, and the block was in nobody's hands |
| TcMalloc.Arena.Malloc | tc_malloc.c:648-663 | below 2^43 bytes, tc_malloc is a run of the model's steps that adds exactly one live block; the block is new to everyone and the invariant holds afterwards if and only if no split wraps |
| TcMalloc.ReachableFits | tc_malloc.c:648-663 | in a reachable state no tc_malloc below 2^43 bytes makes a split that wraps |
| TcMalloc.Arena.Settle | tc_malloc.c:441-461 | refines what follows the return loop |
| TcMalloc.Arena.ReturnLoop | tc_malloc.c:431-439 | the loop returns every slot to its span and ends at the span of the last |
| TcMalloc.Arena.ReturnObjs | tc_malloc.c:420-463 | refines the model's flush |
| TcMalloc.Arena.CacheSlot | tc_malloc.c:554-582 | refines the model's free of a slot, cached or with the whole list on its way |
| TcMalloc.Arena.Deallocate | tc_malloc.c:551-584 | is a run of a free step, and a flush step exactly if the cache was full |
| TcMalloc.Arena.Free | tc_malloc.c:665-683 | tc_free is a run of the model's steps that takes exactly that block out of the live ones, whichever thread frees it |
| TcMalloc.Arena.CentralInit | tc_malloc.c:629-646 | from zeroed globals, every one of the 159 classes ends up with exactly one span on its list, none idle, cut into 524,288 / slot size free slots, none lent; and it is a run of the model |
| StartUp.CarveNext | tc_malloc.c:638-643 | one pass of that loop adds the span of its class and leaves those of the others as they are |
| TcMalloc.Arena.ThreadInit | tc_malloc.c:616-627 | a run of the model that leaves a slot of every class cached; in a freshly set-up allocator exactly one of each, the limits at 2 |
| StartUp.FirstTake | tc_malloc.c:619-624 | one pass of that loop, after set-up: one slot of the class moves from its span to the thread, whose limit there becomes 2 |
| TcMalloc.SetUp | server.c:310-324 | after set-up the state is reachable, with no live block; each class has one span with one slot lent, and the main thread has that slot and the limit 2 |
| BlockReuse.ReachableSized | tc_malloc.c:656-660 | in every run the span of a live block of pages is as long as its request asks for, or, from 256 pages on, one of the long ones |
| BlockReuse.LargeReuse | tc_malloc.c:656-681 | in every run, a thread that frees a block of pages and asks for as many bytes, or any number of the same ring, gets that block, and the rings are as before |
| BlockReuse.SmallReuse | tc_malloc.c:529-584 | a thread that frees a slot its cache has room for and asks for one of that class gets that slot, and the whole state is as before |
| TcMalloc.FreeThenMalloc | tc_malloc.c:648-683 | the two calls tc_free and tc_malloc, run one after the other: the block returned is the block freed |
| SpanRing.SpanlistPush | tc_malloc.h:112-143 | the span becomes the first element of the ring, next and prev inverse, head right; also onto a sole element whose prev was cleared |
| SpanRing.SpanlistPop | tc_malloc.h:145-195 | unlinks any element through a head cell or through its own prev field |
| SpanRing.RemoveSpan | tc_malloc.c:36-50 | the ring without that element, for any head passed in; exactly what happens to the head |
| SpanRing.RemoveFromList | tc_malloc.c:36-50 | removal by its own head, of head, middle, last or sole element, is the sequence without it |
| SpanRing.RefileIdle | tc_malloc.c:443-447 | an idle span moves to the front of the list |
| SpanRing.RefileListed | tc_malloc.c:443-447 | a span on the list already: as the head it stays there alone and the others form a ring no head points at |
| SpanRing.RefileLost | tc_malloc.c:443-447 | a span on such a ring comes back to the front of the list |
| FreeChain.Memory.FreelistPush | tc_malloc.h:202-211 | the chain in memory is the old one with the slot in front, one word written |
| FreeChain.Memory.FreelistPop | tc_malloc.h:214-227 | the head of the chain, and the rest as a chain |
| FreeChain.Memory.Detach | tc_malloc.c:388-407 | the first min(max_iter, length) members come off as a chain ended by 0, the rest stays a chain, one word is written |
| FreeChain.Memory.Prepend | tc_malloc.c:478-489 | the chain ends up reversed in front of the list, and the words written are exactly those of pushing its slots one by one |
| FreeLists.StepThreaded | tc_malloc.c:358-584 | every step, with the words it writes, keeps every free list of every span and thread threaded through memory |
| FreeLists.WritesHarmless | tc_malloc.c:358-584 | whatever the program writes inside its live blocks, to any of their bytes, harms no free list |
| FreeLists.ListsIntact | tc_malloc.c:358-584 | in every run, with the program writing into its blocks at any time, following the links of any free list visits exactly its slots and ends |
| FreeLists.ListedSlotOutside | tc_malloc.h:33-38 | all 8 bytes of the link word of a slot on any list are outside every live block |
| FreeLists.DataKept | tc_malloc.c:358-584 | the allocator writes into no live block: in every run, every 8-byte word with a byte inside a block that is live after a step is what it was before |
| SpinLocks.AllocatorDisciplined | tc_malloc.c:249-683 | every allocator function, on every path, takes centralcache_lock before pageheap_lock, takes no lock twice, gives back what it takes, and touches page heap and central cache only with the lock of each held |
| SpinLocks.PoolDisciplined | thread_pool.c:83-164 | so do adding and taking jobs, with the allocator called under the job mutex |
| SpinLocks.ServerDisciplined | server.c:304-427 | so does every thread of the server |
| SpinLocks.OrderKept | tc_malloc.c:249-683 | in every run of any number of threads, a thread about to lock holds only lower locks, one about to unlock holds the lock, a finished one holds none |
| SpinLocks.TouchedUnderLock | tc_malloc.c:249-683 | in every run of any number of threads, who touches the job queue, the central cache or the page heap holds its lock, so no two do at once |
| LockedCalls.MallocPath | tc_malloc.c:648-663 | what a tc_malloc of the model does under locks, with or without a new batch, large or small, is a path of its lock code |
| LockedCalls.FreePath | tc_malloc.c:665-683 | the same for tc_free |
| LockedCalls.StepAccounted | tc_malloc.c:493-683 | a step with no access to the page heap among its lock events changes no ring, mapping, pool or place of a span; one with none to the central cache changes no list and no carved span |
| SpinLocks.NoDeadlock | tc_malloc.c:249-683 | no circle of waiting threads of any length, and as long as someone is unfinished someone can move |
| Tokenizer.LettersExact | helper.c:451-467 | the letters are A to Z and a to z |
| Tokenizer.RunsSound | server.c:106-118 | the words listed are maximal alphabetic runs, in order |
| Tokenizer.RunsComplete | server.c:106-118 | every maximal alphabetic run is listed |
| Tokenizer.WordsExact | server.c:106-118 | the words are exactly the maximal runs, left to right, once each |
| Tokenizer.CutExactly | server.c:106-118 | the parser's tokens are the words of the line if and only if a condition on its last word and the buffer size holds |
| Tokenizer.HalfLinesFit | server.c:106-118 | the condition holds for every line of at most half the buffer size |
| Tokenizer.LongLineMisread | server.c:113-118 | a longer line whose last word is cut wrongly |
| Tokenizer.StrTok | helper.c:451-458 | stops at the first byte that is no letter, or where the absolute index meets the remaining length |
| Tokenizer.StrStrip | helper.c:460-467 | the same for bytes that are no letters |
| Tokenizer.StrSplit | helper.c:469-482 | writes one NUL and skips to the next stop |
| DynTable.Probe | helper.c:214-223 | first empty slot from an index on, all slots before it filled |
| DynTable.DynList.Resize | helper.c:157-174 | doubles the array, old entries kept, new ones empty |
| DynTable.DynList.Insert | helper.c:180-244 | refines the model's insertion: growth, probing, drop when full, and the return code |
| DynTable.NamesInOrder | server.c:219-232 | from every even capacity the k-th file name lands in slot k, across doublings, although last_index lags at odd counts |
| DynTable.OddDrops | helper.c:195-228 | from an odd capacity the first name past it is dropped |
| DynTable.OddGap | helper.c:195-228 | and the slot it should have had stays empty for ever |
| DynTable.NamesFound | helper.c:195-228 | for every list, all names are found at their numbers if and only if they fit the first capacity or it is even and not 0 |
| WordTable.HashFunction | server.c:40-47 | the loop computes the 32-bit polynomial hash of the string |
| WordTable.HashByte | server.c:40-47 | the hash of one byte is the byte as a signed char, modulo 2^32 |
| WordTable.HashConcat | server.c:40-47 | the hash of two strings joined is the first's times 65599 to the length of the second, plus the second's, modulo 2^32 |
| WordTable.StrGetLength | helper.c:304-324 | length, or 0 from the bound on |
| WordTable.StrCompare | helper.c:360-378 | 0 if and only if the strings are equal or agree on the first 10,240 bytes |
| WordTable.ReadsPastEnd | helper.c:246-267 | lookup runs off the array if and only if every slot from its start holds another word |
| WordTable.LookupExact | helper.c:246-267 | in a clustered table with its last slot empty, lookup finds a word if and only if it is stored, in bounds |
| WordTable.InsertKeeps | helper.c:195-228 | inserting a missing word keeps every slot from home to its own filled and loses no entry |
| WordTable.UpdateKeeps | server.c:127-148 | changing the documents of a word keeps the table clustered |
| InvertedIndex.AddLine | helper.c:230-241 | the line goes to the end of the document's lines, across growth |
| InvertedIndex.LookupLink | helper.c:45-56 | first document of that number, none before it |
| InvertedIndex.TokenAdded | server.c:121-166 | adding a token to an exact index with the last slot empty gives the exact index with that occurrence |
| InvertedIndex.IndexExact | server.c:106-168 | in every run that leaves the last slot empty the table holds exactly the words that occurred, each with exactly its documents and lines |
| InvertedIndex.RunGoesOn | server.c:121-166 | while the last slot is empty the next token neither doubles the table nor reads past it |
| InvertedIndex.QueryExact | server.c:263-267 | a query answers with the word's postings if and only if it occurred |
| InvertedIndex.ScanAgrees | server.c:121-168 | the postings of a collection are what a naive scan lists, documents from last to first, lines once per occurrence |
| InvertedIndex.HitsInOrder | server.c:196-199 | line numbers in an answer never go down and are numbers of lines |
| InvertedIndex.HitsCounted | server.c:196-199 | line number j, from 1, is in the hit list as often as the word is on that line |
| InvertedIndex.ScanEntries | server.c:121-168 | the scan has each document the word is in, once, with its hits, later documents first |
| InvertedIndex.OccursIffPosted | server.c:265-267 | a word has postings exactly if it occurs |
| InvertedIndex.CutDocsExact | server.c:196-199 | within the line bound the documents are cut into exactly their words |
| InvertedIndex.AnswersAgree | server.c:263-295 | for every collection within bounds, a query is answered with the naive scan for the word, and refused exactly if the scan is empty |
| Indexer.LookupSlot | helper.c:246-267 | the probing loop refines lookup |
| Indexer.Post | server.c:130-147 | finds the document or puts a new one in front, with one more line |
| Indexer.AddWord | server.c:121-166 | refines the model's treatment of a token |
| Indexer.Parse | server.c:88-171 | despite NULs written into the buffer, parse adds exactly the tokens of the line, in order, each once, and terminates |
| Indexer.IndexDocument | server.c:194-202 | adds the occurrences of the document, lines numbered from 1 |
| Indexer.ReadFile | server.c:225-232 | one file: its name at its number, its words in the table |
| Indexer.ReadDir | server.c:213-236 | builds exactly the index and the file list of the collection |
| JobQueue.Queue.Enqueue | thread_pool.c:36-51 | appends to the queue's contents, also after the tail went stale |
| JobQueue.Queue.Dequeue | thread_pool.c:53-67 | removes the first job, or reports none if empty; size is the chain's length |
| WorkerPool.StepOk | thread_pool.c:83-164 | every step of producers and workers keeps the pool invariant |
| WorkerPool.AlwaysServed | thread_pool.c:83-164 | in every run, if anyone sleeps there are at most as many queued jobs as awake idle workers; jobs leave in the order they came, each once |
| WorkerPool.QuietMeansDone | thread_pool.c:83-108 | with a worker at all, when none can move by itself all sleep and every job has been taken |
| WorkerPool.OwnRunBounded | thread_pool.c:83-108 | left to themselves the workers come to rest, so no job waits for ever |
| Dispatcher.StepOk | server.c:365-427 | every step of dispatcher, workers and kernel keeps the ownership invariant |
| Dispatcher.WatchSetExact | server.c:365-368 | at every select the watch set is the listening socket plus exactly the accepted, not yet handed over connections, all open |
| Dispatcher.OwnedByOne | server.c:378-424 | every open connection has exactly one owner among watch set, queue and workers, and a descriptor in someone's hands still means the connection it was taken for, though numbers are reused and a worker may close before FD_CLR |
| Dispatcher.HandedOnce | server.c:406-419 | a connection is handed over at most once, and closed only after a worker took it |
| Dispatcher.NoneSkipped | server.c:377-384 | counting ready descriptors down never ends the scan with one left |
| Dispatcher.ReadyServed | server.c:365-424 | from one select to a later one, whatever workers and clients do meanwhile, every connection the first reported readable is handed to the pool |
| Dispatcher.ZeroInUse | server.c:388-388 | descriptor 0 is in use at every accept, whether it was free at the start or not, so it never ends the accept loop |
| Framing.HeaderRoundTrip | common.h:37-41 | a header survives encoding, and every 8 bytes are one header's encoding |
| Framing.FrameBytes | server.c:32-38 | the bytes sent: the whole length, 8 more than the payload's, most significant byte first; the type in the same way; the payload |
| Framing.FrameSamples | server.c:32-38 | a request for 3 bytes, a reply of 15 and an error, byte by byte |
| Framing.WantedExact | server.c:258-260 | how many bytes the receiver asks for, through the 32-bit difference, int and size_t |
| Framing.FrameRoundTrip | server.c:251-261 | for every payload with length + 8 < 2^32, receiving a framed message gives back type, payload and position if the length is below 2^31, and an error if it is not |
| Framing.LongPayloadFails | server.c:258-260 | 2^31 zero bytes are framed and not received, with nothing following them |
| Framing.ConversationKept | server.c:280-285 | any sequence of framed messages is received as sent |
| Framing.Socket.RecvFromHost | common.h:142-164 | however reads are split, exactly the next min(len, available) bytes land in the buffer in order; on an error or end of stream, exactly those read so far; a count of 2^63 or more fails at once |
| Framing.Socket.SendToHost | common.h:166-185 | however writes are split, all bytes are sent in order, or a prefix and an error |
| Framing.Socket.SendMessage | server.c:280-285 | header and payload go out as one frame; if a write fails, a part of the header and then a part of the payload, each from its start |
| SearchService.DecimalExact | server.c:273-274 | a printed line number reads back as that number, without leading zeros |
| SearchService.Sprintf | server.c:273-274 | one entry is written at the offset, nothing before it changes; ReadEntry says what the entry is |
| SearchService.ReadEntry | server.c:273-274 | a reader that looks for the last ": line #" in an entry finds the file name before it and the line number, in decimal, after it |
| SearchService.ListingRead | server.c:269-277 | a reader that cuts an answer at newlines and reads each piece so gets exactly the names and lines found, in order, if and only if no name in it has a newline |
| SearchService.PrintDoc | server.c:271-276 | the inner loop appends an entry for every line of the document |
| SearchService.PrintAll | server.c:269-277 | the two loops write exactly the listing |
| SearchService.PrintedIsListing | server.c:273-274 | each document number prints its own file's name |
| SearchService.RecvKey | server.c:258-263 | the payload up to its first NUL is the word, and its hash is computed |
| SearchService.ThreadJob | server.c:238-302 | the job sends exactly the model's answer, the framed listing, the error header, or nothing if no request was seen; if a write fails, a part of the header and a part of the payload of that answer |
| SearchService.RequestUnderstood | server.c:251-261 | a framed request is understood as the word sent |
| SearchService.QueryPosted | server.c:263-267 | over an index within bounds the lookup stays in the table and finds exactly the scan's documents |
| SearchService.RepliesAgree | server.c:267-295 | what the peer receives is the listing of a naive scan, or an error exactly if the scan is empty; SearchServed reads it from the bytes |
| SearchService.SearchServed | server.c:238-302 | request to reply: for every collection within bounds and every framed word whose listing fits the packet, the job may run, and the peer receives an error exactly if scanning the documents finds nothing, otherwise bytes from which it reads exactly the names and lines the scan finds, in order, if and only if no name among them has a newline |

## Left out

- The table after a doubling: `disperse_keys` scans only the new half and does not rehash the old one, so exact lookup is claimed only for runs in which the last slot stays empty; `InvertedIndex.AddToken` ends such a run with the outcome that the table doubles or that lookup reads past it.
- Words of 2,048 bytes and more, which `parse` stores in a buffer of one byte.
- The bounds nobody checks: the page map's 2^23 entries, a reply or a request longer than the 10,240-byte packet, FD_SETSIZE. They are preconditions, or the structure is unbounded.
- Failure of `sbrk`, of allocation, and of `select`; `add_job_to_pool` returns with its mutex held when allocation fails.
- Wrap-around of the 64-bit `obj_len` after 2^64 returned slots, and `curr_index` of the page map, which is never read.
- `tc_calloc` and `tc_realloc`, whose bodies are not part of this model: taken as a fresh zeroed block, and a kept prefix with a zeroed tail.
- Coalescing of returned spans, which is commented out in the source.
- The search of ring 255 inside `fetch_span`: it is only reached with that ring empty, which `PageCache.Cache.FetchMiss` proves.
- Opening and reading files and directories, the lifetime of file names, socket set-up, name resolution, both clients, printing and argument parsing.
- `StrSearch`, `StrConcat`, `StrCopy` and the destroy functions.
- The memory model of spin locks, mutex and condition variable: mutual exclusion, and waiting that gives up the mutex in one step, are taken as given; so is that what is done under a lock is not seen in part.
- Requests of 2^31 pages, 2^43 bytes, or more: line 187 of `tc_malloc.c` keeps the length in an int, which is negative there and reads before the rings, and from 2^32 pages on is the length modulo 2^32, as is that of the span. No such block is in the page map's reach.
- PageHeap.FetchSpanOk: is stated below 2^31 pages, for that reason.
- PageHeap.FetchSpanExact: is stated below 2^31 pages, for that reason.
- PageCache.Cache.FetchSpan: is stated below 2^31 pages, for that reason.
- AllocatorRuns.StepExact: is stated for requests below 2^43 bytes, for that reason.
- AllocatorSafety.LargeMalloc: is stated for requests below 2^43 bytes, for that reason.
- TcMalloc.ReachableFits: is stated for requests below 2^43 bytes, for that reason.
- TcMalloc.Arena.Malloc: does not take 2^43 bytes or more, for that reason, nor 0 bytes, for which the source indexes the thread cache at -1, nor a small request in a state in which the batch it needs would be cut wrongly; no such state is reachable with requests below the limit.
- Indexer.LookupSlot: does not take a probe that runs off the array, which the source reads past; `WordTable.ReadsPastEnd` has the condition. It compares words kept as values, because comparing through the buffers is `WordTable.StrCompare`.
- Indexer.AddWord: does not take a token that doubles the table or makes lookup read past it, because what follows a doubling is not modelled.
- Indexer.Parse: does not take lines with such tokens or with words of 2,048 bytes and more.
- Indexer.IndexDocument: does not take documents with such lines.
- Indexer.ReadFile: does not take files with such lines.
- Indexer.ReadDir: does not take collections with such lines.
- SearchService.RecvKey: is stated for connections on which reads do not fail, because after a failed read the source writes before its packet, and for payloads that fit the packet; `Framing.Socket.RecvFromHost` states what a failed read leaves.
- SearchService.ThreadJob: is stated for such connections and for answers that fit the packet.
- TcMalloc.Arena.Settle: rings are sequences here; that the pointer operations behave so is `SpanRing.RefileIdle`, `SpanRing.RefileListed` and `SpanRing.RefileLost`.
- Letters other than those of the C locale, the one the program runs in.
- Platforms on which `char` is unsigned: the hash sign-extends its bytes.
