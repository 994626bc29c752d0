# Verified models of an allocator and four threading and search exercises

This project models the hardest algorithms of the repository in Dafny and proves what they are
for.  `dafny verify dfyconfig.toml` checks the whole project.

## What is modelled

**tcmalloc's central free lists** (`Central*.dfy`).  Any number of threads drive any number of size
classes.  A step is one stretch of code between two points where another thread may come in:
`ReleaseToSpans` and `Populate` drop the class lock to call the page heap, and `ShrinkCache` swaps the
caller's lock for the victim's.  `CentralFreeList` is the machine, `CentralInvariant` what every step
keeps, `CentralOutcomes` what each step and whole calls leave behind, `CentralIsolation` what a lock protects, and `CentralTheorems` what follows for every run: no object is lost or doubled, a span goes
back only when none of its objects is out, the slot budget, the lock discipline, absence of deadlock.
`CentralMemory` and `CentralCode` are the code of one class under its lock, on chains linked through
memory words and on the fields and the slot array; each method is proved to do what the machine's
step does.  `CentralShared` shows that the classes, which share that memory, leave each other's chains alone.

**The heap leak checker's mark phase** (`HeapReach`, `HeapChecker`, `HeapRegions`), on top of
**AddressMap** (`AddressMapRep`, `AddressMap`, and `AddressMapWords` for the entries' next words), which
holds the allocation table.

**Sorted lists under many threads** (`Strings`, `SortedList`, `List*.dfy`): circular doubly linked nodes,
one lock per sublist.  `SortedList` has the operations run alone.  `ListMachine` runs many threads, one
shared access at a time: a lock, a cursor's advance, a comparison, a pointer write.  `ListRings` has
rings whole and half-written, `ListInvariant` and `ListSteps` what every access keeps, `ListTheorems` and
`ListProgress` what follows for every run, and what goes wrong without locks.  `ListThreads` makes the
accesses on real nodes.

**Heap's permutation algorithm** (`HeapPermutation`), **the maze search** (`Maze`) and **the shared
counter** (`AddCounter`).

**The debug allocator** (`FreeQueue`, `DebugLayout`): the ring buffer and the loop that gives up its
lock, and the address arithmetic of fake headers and page fences with its 32-bit `int` conversions.

**Size classes** (`SizeSpans`, `SizeTables`, `SizeNatural`, `SizeMap`): `SizeMap::Init` for every page
size and every transfer setting.  `Division` has the arithmetic.

## Where the code differs from what is said about it

- `SortedList.c` says ascending order; line 23 builds non-increasing order from `head->next`.
- Memalign stores the distance between headers through an `int`, so a block with an alignment over
  1 GB may not be recognised when it is freed; `MemalignRoundTrip` and `AlignmentLimit` give the exact conditions.
- The page fence computes its mapping in `int`; `FenceRoundTrip` gives the exact condition.
- `FindInside` stops at the block that lies within `max_size`, so it also finds some ranges further
  away than promised, and none that it promises is missed.
- `TCMALLOC_TRANSFER_NUM_OBJ` of -4 or less makes `SizeMap::Init` loop for ever, because a negative
  `int` is compared with a `size_t`.  The other members about `Init` therefore take settings from -3 on.
- `SizeMap::Init` works exactly for the page sizes that `configure` offers, 4 KB to 256 KB.  Smaller
  pages give too many classes (after writing beyond the tables), larger ones make the last check read
  beyond the class array.
- `heapPermutation` with size 0 prints nothing.
- Without synchronisation the final count of `lab2_add` is reliable only with at most one thread.

## Model

| member | source | states |
|---|---|---|
| `CentralTheorems.ObjectsInOnePlace` | CS111/project2/gperftools-2.7.90/src/central_freelist.cc:82-365 | in every state of every run, each object carved from a listed span is in exactly one place: its own span's list, one cache slot, one thread's hands, or with a caller |
| `CentralTheorems.NothingElseAnywhere` | CS111/project2/gperftools-2.7.90/src/central_freelist.cc:229-315 | conversely, whatever is in a slot, in a thread's hands, on a list or with a caller was carved from a listed span, and slots hold objects of their own class |
| `CentralTheorems.SafeToDelete` | CS111/project2/gperftools-2.7.90/src/central_freelist.cc:127-142 | from the moment a span is taken off its list until the page heap has it back, none of its objects is on any list or in any slot, thread or caller's hands |
| `CentralTheorems.NoDuplicates` | CS111/project2/gperftools-2.7.90/src/central_freelist.cc:82-147 | no span list, no slot and no chain in flight ever names an object twice |
| `CentralTheorems.ListsAndCounters` | CS111/project2/gperftools-2.7.90/src/central_freelist.cc:104-147 | at every point: refcount + list length = objects per span, a span is on nonempty_ exactly if it has free objects, counter_ and num_spans_ are exact, and whenever the class lock is free every listed span has refcount > 0 |
| `CentralTheorems.SlotBudget` | CS111/project2/gperftools-2.7.90/src/central_freelist.cc:149-227 | used_slots_ <= cache_size_ <= max_cache_size_ <= 64 for every class, and the sum of all cache sizes plus slots taken from victims and not yet spent never exceeds what Init handed out |
| `CentralTheorems.AtMostOneLock` | CS111/project2/gperftools-2.7.90/src/central_freelist.cc:188-227 | no thread ever holds two of the class locks and the page heap lock; a thread that waits holds none |
| `CentralTheorems.NoDeadlock` | CS111/project2/gperftools-2.7.90/src/central_freelist.cc:201-227 | as long as a thread is inside an operation, a thread inside an operation can take a step; a lock holder always can |
| `CentralTheorems.HoldersCanStep` | CS111/project2/gperftools-2.7.90/src/central_freelist.cc:104-147 | in every state that satisfies the invariant nothing a lock holder dereferences or asserts fails |
| `CentralTheorems.CallsAllowed` | CS111/project2/gperftools-2.7.90/src/central_freelist.cc:229-244 | in every state of every run a thread outside a call may insert any chain of objects of one class that callers have, and ask for any number of objects |
| `CentralTheorems.ChoicesAllowed` | CS111/project2/gperftools-2.7.90/src/central_freelist.cc:149-165 | every class may turn up as the victim, and the page heap may refuse or give any unused pages |
| `CentralTheorems.RemoveRangeResult` | CS111/project2/gperftools-2.7.90/src/central_freelist.cc:244-276 | RemoveRange never hands out more than N objects, a cache hit is a full batch, and it hands out none only after the page heap refused a span |
| `CentralTheorems.StepGood` | CS111/project2/gperftools-2.7.90/src/central_freelist.cc:82-365 | every step of every thread, under every choice of the environment, keeps the invariant |
| `CentralTheorems.RunGood` | CS111/project2/gperftools-2.7.90/src/central_freelist.cc:82-365 | the invariant holds at every point of every run from Init |
| `CentralIsolation.LockProtects` | CS111/project2/gperftools-2.7.90/src/central_freelist.cc:104-365 | while one thread holds a class lock, no step of any other thread changes that class's fields, its listed spans or their object lists, although other threads create, carve, fill, empty and delete spans |
| `CentralIsolation.StrangersLeave` | CS111/project2/gperftools-2.7.90/src/central_freelist.cc:104-365 | the same for every thread that does not hold the class lock, also in the gaps in which nobody holds it |
| `CentralShared.OtherClassShown` | CS111/project2/gperftools-2.7.90/src/central_freelist.cc:104-365 | on the memory that all classes share, whatever words and descriptors such a thread's step may write, the class's span lists and slots go on showing its state |
| `CentralShared.WritesElsewhere` | CS111/project2/gperftools-2.7.90/src/central_freelist.cc:116-145 | no word of an object in a thread's hands, on its own class's lists or just being carved belongs to another class's lists or slots |
| `CentralRelease.ReleasedObject` | CS111/project2/gperftools-2.7.90/src/central_freelist.cc:90-107 | an object being released maps to a listed span of this class with a positive refcount that does not have the object on its list (the two ASSERTs) |
| `CentralRelease.RetireStep` | CS111/project2/gperftools-2.7.90/src/central_freelist.cc:126-142 | unlisting a span whose refcount reaches 0, before the lock is dropped, keeps the whole invariant |
| `CentralCache.ForcedShrinkStep` | CS111/project2/gperftools-2.7.90/src/central_freelist.cc:214-222 | popping a victim's top slot before ReleaseListToSpans drops the lock keeps the whole invariant |
| `CentralOutcomes.InsertOutcome` | CS111/project2/gperftools-2.7.90/src/central_freelist.cc:229-242 | a chain goes into the next free slot if and only if it is a full batch and a slot is free; otherwise the fields stay as they are, and the search for a victim or the release begins; nothing else changes |
| `CentralOutcomes.EvictOutcome` | CS111/project2/gperftools-2.7.90/src/central_freelist.cc:149-171 | a victim that is the class itself or fails the quick check leads to the second attempt, with force, and after that to the release |
| `CentralOutcomes.ShrinkOutcome` | CS111/project2/gperftools-2.7.90/src/central_freelist.cc:201-227 | under the victim's lock: no cache size or full and not forced: nothing changes; full and forced: the top slot and one unit of cache size go; otherwise one unit of cache size goes |
| `CentralOutcomes.AfterShrinkOutcome` | CS111/project2/gperftools-2.7.90/src/central_freelist.cc:172-184 | a slot won makes the cache one larger and takes the chain, if the cache is still below its maximum; an unforced failure is followed by a forced attempt; all else ends in the release |
| `CentralOutcomes.StealSlot` | CS111/project2/gperftools-2.7.90/src/central_freelist.cc:149-242 | five steps by one thread: the victim has one unit of cache size less, the class one more, the batch is in its last slot, and everything else is as before |
| `CentralOutcomes.NoVictim` | CS111/project2/gperftools-2.7.90/src/central_freelist.cc:165-184 | two victims that give nothing: the batch goes to the spans, and no field has changed |
| `CentralOutcomes.CacheRoundTrip` | CS111/project2/gperftools-2.7.90/src/central_freelist.cc:229-256 | inserting a full batch into a free slot and asking for a batch gives the same chain back and restores the whole state |
| `CentralOutcomes.RemoveOutcome` | CS111/project2/gperftools-2.7.90/src/central_freelist.cc:244-261 | a request for a full batch gets the last slot's chain if there is one; otherwise it goes on to the first span or to Populate |
| `CentralOutcomes.FetchOutcome` | CS111/project2/gperftools-2.7.90/src/central_freelist.cc:288-315 | the first objects of the first span, as many as are wanted and there are, come in front of what was fetched; refcount, counter and lists follow |
| `CentralOutcomes.ReleaseOutcome` | CS111/project2/gperftools-2.7.90/src/central_freelist.cc:104-146 | an object of a span that stays is the first of its span's list again, and a full span becomes the first non-empty one |
| `CentralOutcomes.RetireOutcome` | CS111/project2/gperftools-2.7.90/src/central_freelist.cc:126-142 | the last object in use takes its span off the class's lists, with the span's objects off the counter |
| `CentralOutcomes.CarveOutcome` | CS111/project2/gperftools-2.7.90/src/central_freelist.cc:340-358 | the span's list has, in address order, as many objects as fit in its pages and no fewer |
| `CentralOutcomes.AllocOutcome` | CS111/project2/gperftools-2.7.90/src/central_freelist.cc:318-333 | a new span has a descriptor without objects, all its pages lead to it, and no other page changes |
| `CentralOutcomes.DeleteOutcome` | CS111/project2/gperftools-2.7.90/src/central_freelist.cc:135-139 | the descriptor goes with exactly the pages that led to it |
| `CentralOutcomes.CacheLimitExact` | CS111/project2/gperftools-2.7.90/src/central_freelist.cc:54-79 | the cache limit is at least 1 and at most 64 batches, and between the two it is the largest number whose objects fit in 1 MB; Init starts with at most 16 |
| `CentralOutcomes.UnlinkSplit` | CS111/project2/gperftools-2.7.90/src/span.cc:66-71 | unlinking a span leaves the others in their order |
| `CentralMemory.ListCut` | CS111/project2/gperftools-2.7.90/src/central_freelist.cc:294-312 | writing NULL behind the k-th object of a linked chain leaves exactly its first k objects |
| `CentralMemory.ListJoin` | CS111/project2/gperftools-2.7.90/src/central_freelist.cc:264-272 | pushing a range in front of a chain through the range's last word gives the concatenation |
| `CentralCode.CentralList.Carve` | CS111/project2/gperftools-2.7.90/src/central_freelist.cc:343-358 | the carving loop links exactly the objects of the span, in address order, counts them, and touches no other word |
| `CentralCode.CentralList.TakeObjects` | CS111/project2/gperftools-2.7.90/src/central_freelist.cc:294-311 | the do-while walk stops after min(N, list length) objects and cuts the chain there |
| `CentralCode.CentralList.FetchFromOneSpans` | CS111/project2/gperftools-2.7.90/src/central_freelist.cc:288-315 | on linked memory, FetchFromOneSpans does what the machine's fetch step does |
| `CentralCode.CentralList.TakeFromSpan` | CS111/project2/gperftools-2.7.90/src/central_freelist.cc:288-315 | min(N, list length) objects come off, descriptor, counter and words change accordingly, and a span left without objects becomes the first empty one |
| `CentralCode.CentralList.RemoveFromSpans` | CS111/project2/gperftools-2.7.90/src/central_freelist.cc:258-277 | the fetch loop is a sequence of machine steps, ends with N objects or no non-empty span, and returns a well-formed chain with its true end |
| `CentralCode.CentralList.ReleaseNext` | CS111/project2/gperftools-2.7.90/src/central_freelist.cc:104-147 | SLL_Next and ReleaseToSpans do what the machine's release step does, for a span that stays and for one that goes |
| `CentralCode.CentralList.ReleaseToSpans` | CS111/project2/gperftools-2.7.90/src/central_freelist.cc:104-146 | the object's word, its span's descriptor, the lists and both counters after the release, for a span that stays and for one that goes |
| `CentralCode.CentralList.ReleaseListToSpans` | CS111/project2/gperftools-2.7.90/src/central_freelist.cc:82-88 | the release loop is a sequence of machine steps up to the point where the lock is dropped, with the rest of the chain intact |
| `CentralCode.CentralList.InsertRange` | CS111/project2/gperftools-2.7.90/src/central_freelist.cc:229-242 | pushed if and only if N is the batch size and used_slots_ < cache_size_, and then the next slot holds start and end and no other slot changes; a victim is looked for exactly with a full batch, a full cache and cache_size_ != max_cache_size_; the fields show what the machine's step does |
| `CentralCode.CentralList.AfterEviction` | CS111/project2/gperftools-2.7.90/src/central_freelist.cc:167-186 | after the lock has come back: cache_size_ and used_slots_ grow by one and the slot gets the chain if and only if cache_size_ is still below the maximum; otherwise nothing changes |
| `CentralCode.CentralList.RemoveFromCache` | CS111/project2/gperftools-2.7.90/src/central_freelist.cc:244-256 | a hit if and only if N is the batch size and a slot is in use; then used_slots_ is one less and head and tail of that slot, whose chain has exactly N objects, are returned |
| `CentralCode.CentralList.ShrinkCache` | CS111/project2/gperftools-2.7.90/src/central_freelist.cc:201-227 | under the victim's lock: which of refusing, giving a free slot and giving the top slot's chain happens, and cache_size_ and used_slots_ afterwards |
| `CentralCode.CentralList.ListSpan` | CS111/project2/gperftools-2.7.90/src/central_freelist.cc:360-364 | a freshly carved span becomes the first non-empty one, with refcount 0, its objects on the counter and one span more |
| `HeapChecker.HeapLeakChecker.IgnoreLiveObjectsLocked` | CS111/project2/gperftools-2.7.90/src/heap-checker.cc:1392-1507 | the drain terminates with an empty stack; the marked objects are the least closed set that holds what was marked before and what the roots lead to; each newly marked object is counted once, with its bytes |
| `HeapChecker.HeapLeakChecker.MarkEverythingReachable` | CS111/project2/gperftools-2.7.90/src/heap-checker.cc:1069-1140 | a sequence of drains with different roots marks exactly what is reachable from all roots together |
| `HeapReach.ScanSeesAllWords` | CS111/project2/gperftools-2.7.90/src/heap-checker.cc:1411-1449 | the scan reads a word if and only if it is aligned and lies inside the object: the first and the last one included |
| `HeapReach.ReachIsReachable` | CS111/project2/gperftools-2.7.90/src/heap-checker.cc:1392-1507 | the least closed set is the set of objects at the end of a chain of pointers that starts at a root |
| `HeapReach.DrainsCompose` | CS111/project2/gperftools-2.7.90/src/heap-checker.cc:1392-1507 | draining two groups of roots one after the other marks what draining them together marks |
| `HeapReach.ReachUnique` | CS111/project2/gperftools-2.7.90/src/heap-checker.cc:1392-1507 | the result depends on the set of roots only, not on their order |
| `HeapChecker.PrefilterIsSafe` | CS111/project2/gperftools-2.7.90/src/heap-checker.cc:1451-1465 | the min/max address test and the max_heap_object_size limit never drop an address that points into a recorded allocation |
| `HeapChecker.HitsAreContained` | CS111/project2/gperftools-2.7.90/src/heap-checker.cc:2370-2371 | with max_heap_object_size as its limit the search finds exactly the allocation that contains the address |
| `HeapChecker.HeapLeakChecker.HaveOnHeap` | CS111/project2/gperftools-2.7.90/src/heap-checker.cc:1451-1471 | the quick check and the search together find exactly the allocation into which a word points |
| `HeapChecker.HeapLeakChecker.NewHook` | CS111/project2/gperftools-2.7.90/src/heap-checker.cc:567-593 | maximum size, least address and greatest end are updated exactly, whether or not the allocation is recorded, and the pair is recorded if the checker is on |
| `HeapChecker.HeapLeakChecker.DeleteHook` | CS111/project2/gperftools-2.7.90/src/heap-checker.cc:595-603 | a freed object is forgotten and nothing else changes |
| `HeapChecker.HeapLeakChecker.MarkAsLive` | CS111/project2/gperftools-2.7.90/src/heap-profile-table.h:121-125 | true exactly for a recorded object that was not marked yet; only its flag changes |
| `HeapRegions.SubtractRegion` | CS111/project2/gperftools-2.7.90/src/heap-checker.cc:1184-1220 | one region: the kept intervals cover exactly the old addresses outside it, disjointness is kept |
| `HeapRegions.SubtractRegions` | CS111/project2/gperftools-2.7.90/src/heap-checker.cc:1158-1221 | all selected regions: what is left covers exactly the original addresses minus their union, disjointness is kept |
| `HeapRegions.SubtractsExact` | CS111/project2/gperftools-2.7.90/src/heap-checker.cc:1166-1182 | a region is spared if and only if it has no stack, its caller is known and lies inside one of the special ranges, when these do not overlap |
| `HeapRegions.SubtractsByFirst` | CS111/project2/gperftools-2.7.90/src/heap-checker.cc:1166-1182 | with overlapping ranges the first end above the caller decides |
| `HeapRegions.CutCovers` | CS111/project2/gperftools-2.7.90/src/heap-checker.cc:1189-1214 | the five cases of cutting one interval cover exactly the interval minus the region |
| `AddressMap.AddressMap.FindCluster` | CS111/project2/gperftools-2.7.90/src/addressmap-inl.h:214-233 | finds or creates the cluster of an address without changing the map |
| `AddressMap.AddressMap.FindMutable` | CS111/project2/gperftools-2.7.90/src/addressmap-inl.h:295-306 | finds the entry of a key exactly if the key is in the map, with the map's value |
| `AddressMap.AddressMap.Insert` | CS111/project2/gperftools-2.7.90/src/addressmap-inl.h:309-338 | the structure then equals the plain map with the pair added or replaced |
| `AddressMap.AddressMap.Refill` | CS111/project2/gperftools-2.7.90/src/addressmap-inl.h:323-331 | an empty free list gets a batch of fresh entries; all entries ever allocated stay the disjoint union of block lists and free list |
| `AddressMap.AddressMap.FindAndRemove` | CS111/project2/gperftools-2.7.90/src/addressmap-inl.h:341-357 | the key and its value leave the map, the entry goes to the free list; a missing key changes nothing |
| `AddressMap.AddressMap.FindInside` | CS111/project2/gperftools-2.7.90/src/addressmap-inl.h:360-403 | on non-overlapping ranges the backward walk terminates and finds the range that contains the key exactly if its block lies within the walk's limit |
| `AddressMapRep.SmallOffsetReached` | CS111/project2/gperftools-2.7.90/src/addressmap-inl.h:360-403 | a range whose start is at most max_size before the key is within that limit |
| `AddressMapRep.AtMostOneHit` | CS111/project2/gperftools-2.7.90/src/addressmap-inl.h:128-139 | so the result is unique: it agrees with a linear scan |
| `AddressMap.AddressMap.Iterate` | CS111/project2/gperftools-2.7.90/src/addressmap-inl.h:407-420 | every stored pair is visited exactly once |
| `AddressMapRep.LinkKeepsRep` | CS111/project2/gperftools-2.7.90/src/addressmap-inl.h:332-337 | linking a recycled entry keeps lists, pool and contents in agreement |
| `AddressMapRep.UnlinkKeepsRep` | CS111/project2/gperftools-2.7.90/src/addressmap-inl.h:345-352 | unlinking an entry keeps lists, pool and contents in agreement |
| `AddressMapWords.LinkShown` | CS111/project2/gperftools-2.7.90/src/addressmap-inl.h:332-337 | on the one next word each entry has: moving the first free entry to the front of its block keeps all block lists and the free list |
| `AddressMapWords.UnlinkShown` | CS111/project2/gperftools-2.7.90/src/addressmap-inl.h:348-351 | on next words: taking an entry out of its block, through the word that leads to it, and pushing it on the free list keeps all lists |
| `AddressMapWords.EntryWords.Link` | CS111/project2/gperftools-2.7.90/src/addressmap-inl.h:332-337 | the four assignments on words and heads give the lists that Insert promises |
| `AddressMapWords.EntryWords.Unlink` | CS111/project2/gperftools-2.7.90/src/addressmap-inl.h:345-356 | the walk with a pointer to a pointer finds the key exactly if it is bound, and gives the lists that FindAndRemove promises |
| `SortedList.Insert` | CS111/project2/Part_2/SortedList.c:17-38 | the ring stays circular with prev inverse to next, gets exactly the new element, and keys stay non-increasing from head->next |
| `SortedList.Delete` | CS111/project2/Part_2/SortedList.c:55-73 | refuses a head and an element whose neighbours do not point back, and then changes nothing |
| `SortedList.DeleteFromRing` | CS111/project2/Part_2/SortedList.c:55-73 | in a ring deletion succeeds and leaves the ring without the element |
| `SortedList.Lookup` | CS111/project2/Part_2/SortedList.c:87-103 | returns an element with the key, and NULL only if no element has it: the early exit is complete |
| `SortedList.Length` | CS111/project2/Part_2/SortedList.c:115-138 | the number of elements of a well-formed ring, never the corruption code |
| `Strings.LETransitive` | CS111/project2/Part_2/SortedList.c:23-23 | the order by strcmp that the list relies on is transitive |
| `Strings.FirstDifference` | CS111/project2/Part_2/SortedList.c:23-23 | strcmp is decided by the first difference: a smaller character or the end of a string comes first |
| `ListOutcomes.KeyHashExact` | CS111/project2/Part_2/lab2_list.c:97-115 | the index is the character sum divided by the number of lists, modulo that number, and 0 for the word coarse |
| `ListOutcomes.PhaseOrder` | CS111/project2/Part_2/lab2_list.c:117-250 | all insertions, then each list measured once, then all deletions; measured lengths are kept |
| `ListThreads.GetKeyHash` | CS111/project2/Part_2/lab2_list.c:97-115 | the loop computes the sublist index, always in range |
| `ListRings.LinkedBefore` | CS111/project2/Part_2/SortedList.c:32-34 | with the element's own words set, writing lookup->prev->next leaves a half-written ring: next leads through the element, prev past it |
| `ListRings.LinkedAfter` | CS111/project2/Part_2/SortedList.c:35-35 | writing lookup->prev completes the ring |
| `ListRings.UnlinkedAfter` | CS111/project2/Part_2/SortedList.c:67-67 | writing element->next->prev leaves the ring half-written in the same way |
| `ListRings.UnlinkedBefore` | CS111/project2/Part_2/SortedList.c:69-69 | writing element->prev->next completes the ring without the element |
| `ListInvariant.InsertSection` | CS111/project2/Part_2/SortedList.c:21-37 | each single access of an insertion under the lock leads from one known stage of the ring to the next, and the last one to an ordered ring with the element |
| `ListInvariant.DeleteSection` | CS111/project2/Part_2/SortedList.c:57-72 | each access of a look-up and deletion under the lock succeeds: never NULL, never 1, and the last write leaves an ordered ring without the element |
| `ListInvariant.MeasureSection` | CS111/project2/Part_2/SortedList.c:117-136 | each access of the length walk under the lock succeeds, and the count is the number of elements |
| `ListSteps.OthersKeepOff` | CS111/project2/Part_2/lab2_list.c:131-247 | a thread in its critical section writes to no node of a list that another thread has locked, and not to that thread's element |
| `ListTheorems.LockProtects` | CS111/project2/Part_2/lab2_list.c:131-247 | while a thread is in its critical section, no step of any other thread writes its list or element, moves it or takes its lock |
| `ListTheorems.StepKeeps` | CS111/project2/Part_2/lab2_list.c:117-250 | every single shared access of every thread keeps the invariant |
| `ListTheorems.ListsSafe` | CS111/project2/Part_2/lab2_list.c:117-250 | after any schedule of single accesses: no corruption report and no bad pointer; a list whose lock is free is a proper ordered ring of exactly the elements inserted and not yet deleted; one whose lock is taken is as far rewritten as its owner has got |
| `ListTheorems.NobodyLeft` | CS111/project2/Part_2/lab2_list.c:426-450 | when all threads are done every list is its head alone |
| `ListProgress.LocksMatter` | CS111/project2/Part_2/lab2_list.c:138-141 | without a --sync option two threads, one list and one element each are enough: a schedule after which corruption is reported |
| `ListProgress.SomeoneCanMove` | CS111/project2/Part_2/lab2_list.c:138-141 | while a thread is unfinished, some unfinished thread need not wait |
| `ListProgress.CanFinish` | CS111/project2/Part_2/lab2_list.c:117-250 | from every reachable state all threads can still finish |
| `ListProgress.RunsAreShort` | CS111/project2/Part_2/lab2_list.c:117-250 | a run in which no step waits is over after a number of steps known at its start |
| `ListThreads.ListLab.Step` | CS111/project2/Part_2/lab2_list.c:117-250 | on real nodes, one shared access of one thread does what the machine's step does, with and without --sync |
| `ListThreads.ListLab.Run` | CS111/project2/Part_2/lab2_list.c:117-250 | on real nodes, a whole schedule does what the machine does |
| `ListThreads.ListLab.RunLocked` | CS111/project2/Part_2/lab2_list.c:117-250 | on real nodes: with --sync nobody reports corruption and every list whose lock is free is a well-formed ordered ring |
| `ListThreads.ListLab.FinalCheck` | CS111/project2/Part_2/lab2_list.c:439-450 | after the joins every sublist is empty and main finds length 0 |
| `ListThreads.CheckLists` | CS111/project2/Part_2/lab2_list.c:440-449 | on any lists, main's check passes if and only if all are intact and empty; otherwise it stops at the first that is not, with its length or the corruption code |
| `HeapPermutation.HeapPermutation` | CS33/phase_6_break.py:11-28 | prints exactly the specified lines; the array is unchanged for odd size and rotated right by one for even size |
| `HeapPermutation.RoundStep` | CS33/phase_6_break.py:19-28 | the recursive call and the swap lead from the array of one round to that of the next |
| `HeapPermutation.EveryPermutationOnce` | CS33/phase_6_break.py:11-28 | for distinct elements every arrangement of the first size elements is printed exactly once, size! lines in all |
| `HeapPermutation.EveryOrderOfPlacesOnce` | CS33/phase_6_break.py:11-28 | for any elements: every permutation of the places is printed exactly once |
| `FreeQueue.FreeQueue.Push` | CS111/project2/gperftools-2.7.90/src/debugallocation.cc:176-179 | the ring buffer appends to a FIFO sequence |
| `FreeQueue.FreeQueue.Pop` | CS111/project2/gperftools-2.7.90/src/debugallocation.cc:181-186 | the ring buffer takes the oldest entry |
| `FreeQueue.FreeQueue.Full` | CS111/project2/gperftools-2.7.90/src/debugallocation.cc:172-174 | full exactly with 1023 entries |
| `FreeQueue.FreeQueue.Size` | CS111/project2/gperftools-2.7.90/src/debugallocation.cc:188-190 | the number of queued entries |
| `FreeQueue.DebugAllocator.LoopRound` | CS111/project2/gperftools-2.7.90/src/debugallocation.cc:604-623 | pops if and only if the size is above the limit, as a 64-bit number, or 1023 entries are queued; every fourth entry gives the lock back; the loop is left with a queue that is not full and, for a limit from 0 on, a size of at most the limit |
| `FreeQueue.DebugAllocator.FreeRound` | CS111/project2/gperftools-2.7.90/src/debugallocation.cc:614-627 | outside the lock one entry in hand is freed; with none left the call returns or goes back for the lock |
| `FreeQueue.DebugAllocator.Run` | CS111/project2/gperftools-2.7.90/src/debugallocation.cc:584-628 | for any schedule of any calls: each turn does what ProcessFreeQueue's code says at that point, and every block handed in is queued, in one thread's hands or freed, once |
| `FreeQueue.DebugAllocator.Step` | CS111/project2/gperftools-2.7.90/src/debugallocation.cc:584-628 | one move of a thread at each point of ProcessFreeQueue, with the whole state afterwards; a thread that finds the lock taken changes nothing |
| `FreeQueue.QuietBalance` | CS111/project2/gperftools-2.7.90/src/debugallocation.cc:584-628 | when no call is in progress every block handed in is still queued or has been freed exactly once |
| `FreeQueue.DebugAllocator.DanglingWriteChecker` | CS111/project2/gperftools-2.7.90/src/debugallocation.cc:837-840 | ProcessFreeQueue(NULL, 0, 0), run through, frees exactly what was queued and ends with an empty queue and total size 0 |
| `DebugLayout.RoundUp` | CS111/project2/gperftools-2.7.90/src/debugallocation.cc:151-153 | the least multiple of the alignment at or above the value |
| `DebugLayout.AlignedRegion` | CS111/project2/gperftools-2.7.90/src/debugallocation.cc:1391-1421 | the client gets size aligned bytes behind a fake header, all inside the block |
| `DebugLayout.PlainBlock` | CS111/project2/gperftools-2.7.90/src/debugallocation.cc:731-748 | for an ordinary block FromRawPointer returns the block, and aborts exactly if it has been deleted already |
| `DebugLayout.FakeHeaderChecks` | CS111/project2/gperftools-2.7.90/src/debugallocation.cc:731-770 | for a header that records a distance: the deletion check and the three corruption checks, and the block found when none applies |
| `DebugLayout.MemalignRoundTrip` | CS111/project2/gperftools-2.7.90/src/debugallocation.cc:731-770 | FromRawPointer of a memaligned pointer passes all checks and finds the real header if and only if the distance between the headers is below 2^31 |
| `DebugLayout.CommonAlignmentsWork` | CS111/project2/gperftools-2.7.90/src/debugallocation.cc:731-770 | that holds for every alignment up to 1 GB, wherever the block lies |
| `DebugLayout.AlignmentLimit` | CS111/project2/gperftools-2.7.90/src/debugallocation.cc:1391-1421 | for every power of two that a size_t holds: the block is found again wherever it lies if and only if the alignment is at most 2^30 |
| `DebugLayout.HugeAlignmentFails` | CS111/project2/gperftools-2.7.90/src/debugallocation.cc:1418-1418 | an alignment of 2 GB and a block for which the real header is not found |
| `DebugLayout.SizedDeleteMatches` | CS111/project2/gperftools-2.7.90/src/debugallocation.cc:1516-1523 | sized aligned delete recomputes the size stored in the header that FromRawPointer finds |
| `DebugLayout.FenceRoundTrip` | CS111/project2/gperftools-2.7.90/src/debugallocation.cc:551-565 | the block ends at the guard page and Deallocate recovers the exact mapping if and only if the mapping is smaller than 2^31 bytes |
| `DebugLayout.FenceExact` | CS111/project2/gperftools-2.7.90/src/debugallocation.cc:512-565 | with the request rounded up to 16 and the least number of pages that hold it: the block's address, the mapping's length, and what Deallocate gives back |
| `DebugLayout.HugeFenceFails` | CS111/project2/gperftools-2.7.90/src/debugallocation.cc:512-533 | a request of 2 GB for which it does not |
| `SizeMap.LgFloor` | CS111/project2/gperftools-2.7.90/src/common.cc:63-75 | the integer logarithm of every number of 32 bits |
| `SizeMap.AlignmentForSize` | CS111/project2/gperftools-2.7.90/src/common.cc:77-97 | the CHECK on 16 bytes fails exactly for sizes from 16 on with pages below 16 bytes; otherwise the result is a power of two, never over a page: for 128 bytes up to kMaxSize the largest one up to an eighth of the size, below that 16 or 8, above it the page |
| `SizeSpans.StepIsCandidate` | CS111/project2/gperftools-2.7.90/src/common.cc:139-141 | the CHECK size % alignment == 0 holds for every size the loop reaches |
| `SizeSpans.MoveCountExact` | CS111/project2/gperftools-2.7.90/src/common.cc:99-119 | as many objects as fit in 64 KB, at least 2 and at most the transfer setting, which goes before; a span's blocks are a quarter of that, rounded toward zero |
| `SizeSpans.MoveCountUnique` | CS111/project2/gperftools-2.7.90/src/common.cc:99-119 | no other number meets that description |
| `SizeMap.SpanBytes` | CS111/project2/gperftools-2.7.90/src/common.cc:143-156 | the nested loops terminate with the least number of pages that leaves at most 1/8 over and holds enough objects |
| `SizeSpans.NeverEnough` | CS111/project2/gperftools-2.7.90/src/common.cc:143-155 | a transfer setting of -4 or less makes the do-while loop endless |
| `SizeSpans.SpanGood` | CS111/project2/gperftools-2.7.90/src/common.cc:145-155 | every span holds at least one object and wastes at most 1/8 |
| `SizeSpans.SameIsClose` | CS111/project2/gperftools-2.7.90/src/common.cc:158-169 | merging never joins sizes further apart than 7 to 8 |
| `SizeTables.ClassWaste` | CS111/project2/gperftools-2.7.90/src/common.cc:158-174 | each class, and each size merged into it, has at least one object per span, enough for a transfer, waste at most 1/8 of the span, and the same span and object count |
| `SizeSpans.ClassLimit` | CS111/project2/gperftools-2.7.90/src/common.cc:176-180 | for pages of 16 bytes and more, the class count stays within kClassSizesMax if and only if a page has 4 KB or more |
| `SizeMap.SizeMap.BuildClasses` | CS111/project2/gperftools-2.7.90/src/common.cc:135-176 | builds good class tables whose last class is kMaxSize |
| `SizeMap.SizeMap.FillClassArray` | CS111/project2/gperftools-2.7.90/src/common.cc:182-190 | afterwards every size up to kMaxSize finds the least class that covers it |
| `SizeMap.SizeMap.DoubleCheck` | CS111/project2/gperftools-2.7.90/src/common.cc:192-213 | whatever the tables, the double check passes if and only if every size it visits has a class in range that covers it and the class before does not |
| `SizeMap.BuiltIsSensible` | CS111/project2/gperftools-2.7.90/src/common.cc:192-213 | on the tables that Init builds it passes |
| `SizeNatural.NaturalAlignment` | CS111/project2/gperftools-2.7.90/src/common.cc:215-228 | a multiple of a power of two below the page size is served from a class whose size is a multiple of that power |
| `SizeMap.SizeMap.NaturalCheck` | CS111/project2/gperftools-2.7.90/src/common.cc:224-228 | on any tables the check passes if and only if all multiples of all powers of two from 16 to the page have classes aligned alike |
| `SizeMap.NaturalResult` | CS111/project2/gperftools-2.7.90/src/common.cc:224-228 | on the tables that Init builds no class is misaligned, and the check stays inside the class array exactly for pages up to 256 KB |
| `SizeMap.SizeMap.Init` | CS111/project2/gperftools-2.7.90/src/common.cc:122-234 | Init succeeds exactly for pages of 4 KB to 256 KB, and says how it fails for every other page size; afterwards the tables are good and every class has the number of objects to move that NumMoveSize promises |
| `SizeMap.SizeMap.SizeClass` | CS111/project2/gperftools-2.7.90/src/common.h:248-250 | the least class whose byte size covers the size |
| `SizeMap.SizeMap.GetSizeClass` | CS111/project2/gperftools-2.7.90/src/common.h:255-262 | a class exactly for sizes up to kMaxSize, and then the least |
| `SizeTables.IndexExact` | CS111/project2/gperftools-2.7.90/src/common.h:188-221 | entries stand for steps of 8 bytes up to 1024 and of 128 bytes beyond, without a gap |
| `SizeTables.IndexMonotone` | CS111/project2/gperftools-2.7.90/src/common.h:188-221 | ClassIndex is monotone and in range, and separates a class boundary from what lies above it |
| `Maze.CanWeFinish` | CS32/Project 3/recursion.cpp:136-159 | on a wall-bordered maze the search terminates and returns true if and only if open cells lead from start to end; without success it has crumbed exactly what can be reached; it changes nothing but crumbed cells |
| `Maze.NoPath` | CS32/Project 3/recursion.cpp:136-159 | a finished search without success has no path to the end, and the crumbs are exactly the reachable open cells |
| `AddCounter.CounterTheorem` | CS111/project2/Part_1/lab2_add.c:86-149 | for any threads, iterations and interleaving the counter stays within plus or minus threads * iterations, and ends at 0 under mutex, spin lock and compare-and-swap |
| `AddCounter.AlwaysZeroExactly` | CS111/project2/Part_1/lab2_add.c:86-149 | all complete runs end at 0 if and only if there is synchronisation, or at most one thread, or no iteration |
| `AddCounter.LostUpdate` | CS111/project2/Part_1/lab2_add.c:91-95 | for any two or more threads a run without synchronisation that ends at -1 |
| `AddCounter.RunsAreShort` | CS111/project2/Part_1/lab2_add.c:86-149 | a run in which no step waits is over after a number of steps known at its start |
| `AddCounter.LockFree` | CS111/project2/Part_1/lab2_add.c:96-104 | under compare-and-swap every schedule of unfinished threads, whatever the interleaving, is over after a number of steps known at its start |
| `AddCounter.FailedSwap` | CS111/project2/Part_1/lab2_add.c:97-103 | a compare-and-swap fails only if another thread has stored since this thread read the counter |
| `AddCounter.CanFinish` | CS111/project2/Part_1/lab2_add.c:86-149 | from every reachable state all threads can still finish |
| `AddCounter.StepKeeps` | CS111/project2/Part_1/lab2_add.c:86-125 | every step keeps mutual exclusion and ties the counter to the additions stored |
| `AddCounter.AddLab.Step` | CS111/project2/Part_1/lab2_add.c:86-125 | one access to shared memory of add(), in each of the four modes |
| `AddCounter.AddLab.Run` | CS111/project2/Part_1/lab2_add.c:133-149 | whole runs of the program keep the counter in range and end at 0 where promised |

## Left out

- The central free list as a whole runs on values: `CentralFreeList` is a machine over immutable states, and `CentralCode` executes the stretches of one class under its lock; the thread switches between them are covered by the machine and by `CentralShared`, not executed.  `OverheadBytes`, `tc_length` and `length` are reads of fields the invariant covers.
- The page heap, `SLL_*` and `DLL_*` helpers, spin locks and `HeapProfileTable` are not part of this model: they appear as what their headers say.  `race_counter` is an arbitrary choice of victim, and the unlocked quick check of `ShrinkCache` may come out either way.
- Doubly linked span lists are sequences of spans, and `DLL_Remove` takes the span off whichever list it is on.
- AddressMap's linked lists of clusters and entries are sequences in `AddressMap`; `AddressMapWords` has block lists and the free list on next words, but not the clusters' chains.  Of `HashInt` the proofs use only that its value lies in the table.  The destructor and the memory list behind `New` are left out.
- Sums of addresses and sizes are not taken modulo 2^64, except in `DebugLayout`, where overflow is the point.
- Memory is frozen during the mark phase; /proc/self/maps, thread stacks and registers only appear as roots.  The `NO_FRAME_POINTER` branch with `msync` is left out.
- `HeapChecker.HeapLeakChecker.IgnoreLiveObjectsLocked`: roots of the kind MUST_BE_ON_HEAP are recorded allocations of the stated size, which heap-checker.cc demands of them at lines 346-347 and checks at lines 1117-1121; a drain starts from a marked set that earlier drains have closed.
- `HeapChecker.HeapLeakChecker.NewHook`: takes the allocation as one that does not overlap the recorded ones, as the underlying allocator guarantees.
- `FreeQueue.DebugAllocator`: stack traces and the check for dangling writes are left out; blocks are identified by address and size.
- `ListMachine`: a step makes at most one pointer write, together with the reads that name its operands; lock and unlock are one step each, whether mutex or spin lock.  Timing, key generation and the sum's `int` overflow in `get_key_hash` are left out.
- `AddCounter`: `long long` does not overflow, since the counter stays within threads * iterations; thread creation, timing and output are left out.
- `SizeMap`: `kMinAlign` is 16, the default; the 8-byte variant is left out.  The class tables are growable sequences, so that writing past entry 127 is seen as the crash that follows.
- `Maze.CanWeFinish`: asks for a maze with no open cell on the border and an inner start, since the code looks at all four neighbours of every cell it enters.
- Terminal, shell, socket and file-system programs, games, CS31 exercises and the other functions of `recursion.cpp`: input and output, or small members that would add nothing harder.
