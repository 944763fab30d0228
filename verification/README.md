# A verified model of the code cache and its neighbours

This project models, in Dafny, the parts of the repository whose correctness rests on invariants
that no single routine shows:

* the **shared code cache** of DynamoRIO (`dynamorio/core/fcache.c`): slots carved out of units of
  memory, free slots on segregated lists whose headers and footers lie inside the free bytes,
  coalescing in both directions, an append point that also moves back, units that grow, are
  flushed, freed and reused;
* the **private code cache** of the same file: one FIFO of empty slots and fragments, and
  replacement of contiguous neighbours;
* the **adaptive working set** check that decides whether a cache may grow;
* the **FTR writer** (`fld/ftr_writer.py`), a printer for RFC 8949 data, together with a decoder;
* the **data-section protection** of `dynamorio/core/dynamo.c`, over all interleavings of threads, and the
  suspension of threads that goes with it;
* the **buffered configuration reader** of `dynamorio/core/config.c`, and the layering of its values.

`dafny verify dfyconfig.toml` checks everything.

## How the model is laid out

Shared cache: `Memory` (words and in-band records), `Alignment`, `Requests`, `Layout` (units and the
slots that tile them), `Coalescing` (the normal form), `FreeLists` (the threaded lists),
`SharedModel` (state, invariant `Inv`, elementary steps), `CacheFacts`, `Freeing`, `Placing`,
`Removing`, `Trimming`, `Growing`, `Accounting`, `Lifecycle`, `Flushing`, `Emission`, `Lookup` (what each
operation needs), `SharedCache` (the class with the operations), `FlushChains` (units flushed together),
`Totals` (what the invariant means).
`SharedCache.Valid()` holds after the constructor and is kept by every operation, so it holds in
every reachable state. It says: the used part of each unit is exactly tiled by disjoint aligned
slots; a live slot starts with a pointer to a fragment that knows the slot's address and size; a
free slot holds a record with equal header and footer sizes and is on the list of its size, once;
the lists are doubly linked through memory; the counters agree with the lists; a fragment is marked
exactly when a free slot precedes it; no free slots touch; none ends at the append point; each unit
is in exactly one of the four places of its life; and the size of the cache is what its units have
committed, as far as they have not lost it.

Memory is a map from 4-byte-aligned addresses to words, so every read of a header, footer, flag or
link is a read of a word that was written as such. `slots`, `tops` and `lists` are ghost: the
program's own state is memory, fragment records, units and list heads, and each method reads only
those.

One remark in the source turns out to be about a state that never arises. `try_for_more_space` drops
the size that `extend_unit_end` reports when the rest of a unit is too small to be a slot
(fcache.c:2573), which would leave bytes that nobody owns. In a shared cache the first unit is
either full or has at least `MIN_UNIT_END_HOLE` bytes left, because every fragment in it starts at
least that far from its end (`Growing.Roomy`); the branch is proved dead in `CloseUnit`.

The "too big to coalesce" tests of `add_to_free_list` and `fcache_return_extra_space` add two 32-bit sizes
and compare the sum with the largest 32-bit value, so as written they hold for every argument. What
protects the sizes is that units are smaller than 4GB: `CoalesceNext` and `CoalescePrev` ensure that the
size of the joined slot is the sum of the two, without wrapping.

Private cache: `Fifo` (the list), `PrivateModel` (state, invariant `Kempt`, elementary steps),
`Eviction` (what an insertion evicts and where the bytes go), `PrivateTrimming` (giving back the end of a
slot), `PrivateCache` (the class), `PrivateFacts`. The two walks of `replace_fragments` are proved to mean
one simple thing: it evicts the slots that start within the requested number of bytes from the victim, or
nothing if one of them may not be deleted.

`WorkingSet` is a part of both caches: they consult it where the program does, and its counters and the
size it compares are kept by their operations.

`Cbor`, `FtrFormat`, `FtrReader` (a reader of recordings, written from the format alone), `FtrWriter`;
`SelfProtection`, `Suspending`; `ConfigLines`, `ConfigReader`.

Five findings about the code, each with an exact statement:

* `append_units_to_free_list` clears the cache field of every unit of a chain but the last
  (fcache.c:3790-3793), while these read it: removing a fragment (fcache.c:3701-3706), looking one up by
  address (fcache.c:1155), shifting its start (fcache.c:3406-3409), returning its spare bytes
  (fcache.c:3441), keeping a freed unit as a dead one (fcache.c:1536), and, in builds with statistics,
  freeing any unit (fcache.c:1497). After a flush a fragment can be removed exactly when its unit was the
  last of its chain (`FlushThenRemove`). Once no waiting unit holds a fragment, those flushed together can
  all be freed exactly when there was at most one, or enough dead units are kept and the build has no
  statistics (`FlushThenFree`). `TwoUnitFlush` reaches the failure from a new cache with two fragments. A
  caller is safe when no more than one unit waits to be flushed (`ChainKeepsCache`);
* the loops that suspend all threads under `single_privileged_thread` walk each bucket of the thread table
  but suspend its first thread every time (dynamo.c:3184-3190). They do what is meant exactly when in each
  bucket only the first thread is under control (`SuspendsEachOnce`, `TwoInOneBucket`); nor do they leave
  out the thread that runs them;
* a generator's number agrees with the directory exactly when there was at least one stream when it
  was handed out and no stream was added since, duplicates included (`GeneratorDeclaredIff`,
  `NoStreamMismatch`);
* the writer's heads are the shortest ones except at exactly 255 and 2^32-1 (`WriterAlmostShortest`);
* a last line without a newline in a configuration file is passed on exactly when the buffer that holds
  its start does not reach the end of the file, or starts at that line (`LastLine`); in a file that fits
  the buffer that is when it is the only line (`SmallFile`).

## Model

| member | source | states |
|---|---|---|
| `Layout.TiledMerge` | dynamorio/core/fcache.c:3020-3057 | Joining a slot with its successor keeps the units exactly tiled |
| `Layout.TiledCut` | dynamorio/core/fcache.c:3231-3270 | Splitting a slot keeps the units exactly tiled |
| `Layout.TiledChop` | dynamorio/core/fcache.c:3103-3116 | Giving the last slot back to unclaimed space keeps the units exactly tiled |
| `FreeLists.FindFreeListBucket` | dynamorio/core/fcache.c:2936-2945 | The downward search finds the one bucket whose range holds the size, the ranges starting at 0, 44, 52, 56, 64, 72, 80, 112 and 172 |
| `FreeLists.UnlinkList` | dynamorio/core/fcache.c:2959-2989 | The stores of an unlink thread the list without that record |
| `FreeLists.LinkList` | dynamorio/core/fcache.c:3117-3150 | The stores of a push thread the list with the new record in front |
| `FreeLists.StoreEntryHeaders` | dynamorio/core/fcache.c:3117-3150 | Writing a record leaves the headers of all other slots intact |
| `SharedModel.DetachInv` | dynamorio/core/fcache.c:2959-2989 | Taking an entry off its list keeps the whole invariant, counters included |
| `SharedModel.FragAt` | dynamorio/core/fcache.c:221-252 | A live slot's fragment leads back to it; its spare bytes fit one byte |
| `CacheFacts.InBandTest` | dynamorio/core/fcache.c:349-391 | The test on the first word of a slot says free exactly when the slot is on one of the lists |
| `CacheFacts.FreeEntry` | dynamorio/core/fcache.c:1686-1731 | A free slot is on the list of its size, with equal header and footer sizes |
| `CacheFacts.FollowerOf` | dynamorio/core/fcache.c:3020-3057 | A free slot is followed by a marked fragment or the unit's top, and not preceded by a free slot |
| `Requests.SlotSizeOk` | dynamorio/core/fcache.c:3669-3682 | The slot size is aligned, large enough for header and body, and the spare bytes are at most 91 |
| `Requests.SlotSizeLeast` | dynamorio/core/fcache.c:3669-3682 | It is the least aligned size of at least 28 bytes that holds header and body |
| `SharedCaches.SharedCache.constructor` | dynamorio/core/fcache.c:1559-1624 | A new cache satisfies the invariant: one empty unit, no slots, a size that is what the unit has committed |
| `SharedCaches.SharedCache.RemoveFromFreeList` | dynamorio/core/fcache.c:2959-2989 | The entry leaves its list; links, head and charge follow; it is counted as coalesced or as reused; invariant kept |
| `SharedCaches.SharedCache.CoalesceNext` | dynamorio/core/fcache.c:3020-3057 | The following slot is taken in if free and marked if not; the size check cannot fail |
| `SharedCaches.SharedCache.CoalescePrev` | dynamorio/core/fcache.c:3058-3095 | A marked fragment's slot is joined to the free slot before it, found through the footer |
| `SharedCaches.SharedCache.PushEntry` | dynamorio/core/fcache.c:3117-3150 | The hole becomes a free slot at the front of the list of its size |
| `SharedCaches.SharedCache.AddToFreeList` | dynamorio/core/fcache.c:2992-3151 | Exactly the bytes of the hole become free, or, at the append point, they and the free bytes before them become unclaimed; no fragment moves |
| `SharedCaches.SharedCache.FindEntry` | dynamorio/core/fcache.c:3183-3217 | Finds an entry exactly when some free slot anywhere is large enough; it is the first fit from the request's bucket up |
| `SharedCaches.SharedCache.LookupUnit` | dynamorio/core/fcache.c:1133-1139 | The interval lookup finds the one unit that reserves the address, and none exactly when there is none |
| `SharedCaches.SharedCache.PlaceFragment` | dynamorio/core/fcache.c:2694-2716 | The hole becomes the slot of the fragment, header and record in agreement |
| `SharedCaches.SharedCache.TakeFront` | dynamorio/core/fcache.c:3231-3262 | The front of the entry becomes the fragment's slot, the rest a free slot |
| `SharedCaches.SharedCache.TakeWhole` | dynamorio/core/fcache.c:3262-3277 | The whole entry becomes the fragment's slot and what follows loses its mark |
| `SharedCaches.SharedCache.TakeEntry` | dynamorio/core/fcache.c:3218-3285 | The found entry is taken and split when more than the minimum hole is left over, or used whole; only its bytes stop being free |
| `SharedCaches.SharedCache.FindFreeListSlot` | dynamorio/core/fcache.c:3153-3285 | Succeeds exactly when some free slot is large enough, and splits it exactly when more than the minimum hole is left over; on failure nothing changes |
| `SharedCaches.SharedCache.RemoveFragment` | dynamorio/core/fcache.c:3697-3737 | Fails, changing nothing, exactly when the unit has lost its cache; otherwise the fragment's bytes become free or unclaimed, or, in a flushed unit, go to no list, and all other fragments stay |
| `SharedCaches.SharedCache.ShiftStartPc` | dynamorio/core/fcache.c:3390-3435 | Fails, changing nothing, exactly when there is something to shift and the unit has lost its cache; otherwise the body's start moves, and header address, slot size and end of the body do not |
| `SharedCaches.SharedCache.WriteCode` | dynamorio/core/emit.c:359-367 | Writing code into the body of a fragment keeps the invariant |
| `Emission.CodeKeepsInv` | dynamorio/core/emit.c:359-367 | The invariant, in-band records included, holds of every memory that differs only in words inside the bodies of live slots |
| `Emission.StaleRecord` | dynamorio/core/fcache.c:349-391 | Once the entry that a lost slot still points to is a fragment, the in-band test at the lost slot reads code: either answer can come out in a settled state |
| `SharedCaches.SharedCache.ReturnHow` | dynamorio/core/fcache.c:3479-3546 | When the bytes are pulled back, put on a list or kept |
| `SharedCaches.SharedCache.ReturnExtraSpace` | dynamorio/core/fcache.c:3437-3579 | The slot gives up its last bytes exactly when they are worth it, all that can be returned and none lost; they become free or unclaimed, and the body loses exactly the space |
| `SharedCaches.SharedCache.ExtendUnitEnd` | dynamorio/core/fcache.c:2482-2520 | The append point passes the bytes asked for, and a rest too small to be useful; the fragment can take them |
| `Trimming.PlanOk` | dynamorio/core/fcache.c:3459-3477 | Nothing underflows, the slot stays aligned and at least minimum size, less than one alignment unit is padding, the bytes add up |
| `Trimming.ReturnsMost` | dynamorio/core/fcache.c:3459-3477 | No larger aligned part of the spare bytes can be returned without going below the minimum size |
| `Trimming.ShiftFits` | dynamorio/core/fcache.c:3390-3435 | Shifting keeps header address and slot size |
| `SharedCaches.SharedCache.AppendFragment` | dynamorio/core/fcache.c:3322-3343 | The fragment gets the bytes at the append point, and the rest of the unit if that is less than two minimum holes |
| `SharedCaches.SharedCache.CloseUnit` | dynamorio/core/fcache.c:2482-2520 | All of the rest of the first unit becomes a free slot; a rest that is too small never occurs |
| `SharedCaches.SharedCache.ExtendCommitment` | dynamorio/core/fcache.c:1902-1917 | More of the reservation is committed, the cache's size grows by as much, nothing else changes |
| `SharedCaches.SharedCache.FindDead` | dynamorio/core/fcache.c:1344-1377 | The first large enough dead unit is a smallest one; past the end exactly when none is |
| `SharedCaches.SharedCache.PickUnit` | dynamorio/core/fcache.c:1339-1424 | A dead unit is reused, with its memory, if one is large enough, the first such; else it is fresh memory, committed by the increment or in full; it is apart from every other unit |
| `SharedCaches.SharedCache.CreateUnit` | dynamorio/core/fcache.c:1325-1472 | The new unit is empty, first in the cache, of the requested size at least, and either the first dead unit that is large enough or fresh memory, committed by the increment or in full |
| `SharedCaches.SharedCache.MakeWay` | dynamorio/core/fcache.c:2575-2632 | The oldest unit is set aside exactly when the cache is finite and its working set may not grow; the working set is left as the check leaves it |
| `Requests.CommitSize` | dynamorio/core/fcache.c:2530-2544 | The increment times the least power of two that suffices, cut at the reservation; it is whole pages, and less than twice what is needed unless it is the increment itself |
| `SharedCaches.SharedCache.StartNewUnit` | dynamorio/core/fcache.c:2553-2661 | The first unit is closed, the oldest set aside exactly when the working set says so, a unit added in which the request fits after at most one more commitment, and the counters start again; all other units keep their places |
| `SharedCaches.SharedCache.TryForMoreSpace` | dynamorio/core/fcache.c:2526-2660 | Room is made without moving a fragment, by a commitment when the reservation suffices and by a new unit, with the decision of the working set about the oldest, when it does not; the distance to placing the request shrinks |
| `SharedCaches.SharedCache.AddInPlace` | dynamorio/core/fcache.c:3287-3343 | Places the fragment exactly when a free slot is large enough or the first unit has room, in the former whenever there is one |
| `SharedCaches.SharedCache.AddFragmentCommon` | dynamorio/core/fcache.c:3287-3352 | Always places the fragment, in a slot large enough that held no fragment, outside flushed units, with at most two recursive calls; from the free lists whenever they have room; the cache grows by a unit exactly when neither they nor the first unit's reservation have room, and the working set then decides about the oldest |
| `SharedCaches.SharedCache.AddFragment` | dynamorio/core/fcache.c:3645-3695 | The same for the least slot size the fragment needs: the body starts 8 bytes into the slot and no other fragment moves; the placement is counted, on counters that start again with a new unit |
| `SharedCaches.SharedCache.PcLookup` | dynamorio/core/fcache.c:1141-1201 | Fails exactly when the address lies in a unit that has lost its cache; otherwise, when no lost slot of the unit starts before the address, the walk finds the one live fragment whose body holds it, and none exactly when there is none |
| `Lookup.OneOwner` | dynamorio/core/fcache.c:1141-1201 | At most one live fragment has the address in its body |
| `Lookup.LiveWalkable` | dynamorio/core/fcache.c:1141-1201 | A unit that has not been flushed can be walked up to any address |
| `SharedCaches.SharedCache.ChainFragments` | dynamorio/core/fcache.c:3806-3913 | The in-band walk hands on exactly the unit's fragments due, each once and in address order, and takes every free slot off its list |
| `SharedCaches.SharedCache.FlushUnit` | dynamorio/core/fcache.c:3964-3995 | The unit is marked first, then walked; fragments stay where they are |
| `SharedCaches.SharedCache.FlushAll` | dynamorio/core/fcache.c:3963-3997 | Every unit of the chain is marked and walked, no other unit changes; exactly the fragments due are handed on, each once |
| `SharedCaches.SharedCache.AppendUnitsToFreeList` | dynamorio/core/fcache.c:3771-3804 | The chain joins the end of the to-free list; exactly the units ahead of its last lose their cache, whose size shrinks with them; nothing else about them changes |
| `SharedCaches.SharedCache.FlushPendingUnits` | dynamorio/core/fcache.c:3920-4024 | Every waiting unit is flushed, stamped and moved to the end of the to-free list, which stays sorted; all but the last lose their cache; other units are unchanged; exactly the fragments of those units not deleted before, or still on the lazy list, are handed on, each once |
| `SharedCaches.SharedCache.FreeUnit` | dynamorio/core/fcache.c:1475-1542 | Fails exactly when the unit's cache is NULL and read: there are fewer than five dead units, or at most one for every four threads, or statistics are kept; otherwise it leaves the cache, and joins the sorted dead list in the first two of these cases |
| `SharedCaches.SharedCache.FreePendingUnits` | dynamorio/core/fcache.c:4026-4054 | Succeeds exactly when every unit due can be freed when its turn comes; then exactly the units stamped at or before the flushtime are freed, a prefix of the list; how many dead units there are then, by the number freed, those dead before and the number of threads; only freed units can become dead, and all others are unchanged |
| `Lifecycle.DeadAfterIs` | dynamorio/core/fcache.c:1501-1537 | A freed unit is kept as a dead one exactly below five of them or at most one for every four threads, in front of the first that is not smaller |
| `Lifecycle.FlushEnd` | dynamorio/core/fcache.c:3771-3804 | Appending stamped units, with cache fields cleared, keeps every unit in one place and the list sorted |
| `FlushChains.LastKeepsCache` | dynamorio/core/fcache.c:3771-3804 | A flushed unit has its cache exactly when it was the last of its chain; apart from that it only waits to be freed, and other units are unchanged |
| `FlushChains.ChainKeepsCache` | dynamorio/core/fcache.c:3771-3804 | All units of a chain keep their cache exactly when there is at most one |
| `FlushChains.FlushThenRemove` | dynamorio/core/fcache.c:3697-3706 | After a flush a fragment can be removed exactly when its unit was the last of the chain |
| `FlushChains.FlushThenFree` | dynamorio/core/fcache.c:1501-1537 | When a flush is due and no unit that waits to be flushed or freed holds a fragment: after the flush all of them can be freed exactly when those waiting before could, and either at most one was flushed now or, with those waiting freed, there are five dead units or more, and more than one for every four threads, and no statistics |
| `FlushChains.TwoUnitFlush` | dynamorio/core/fcache.c:3771-3804 | From a new cache, two fragments and one flush lead to a fragment that cannot be removed |
| `Lifecycle.Bury` | dynamorio/core/fcache.c:1475-1542 | Sorted insertion into the dead list keeps every unit in one place |
| `Totals.EveryByteOnce` | dynamorio/core/fcache.c:1673-1742 | Every byte of the used part of a unit lies in exactly one slot |
| `Totals.UnitBytes` | dynamorio/core/fcache.c:1673-1742 | The used bytes of a unit are its live, free and, once flushed, lost bytes; nothing is lost before a flush |
| `Totals.CountersExact` | dynamorio/core/fcache.c:1686-1731 | Freed less reused less coalesced is each list's length, and the charges add up to all free bytes |
| `Totals.NormalForm` | dynamorio/core/fcache.c:3020-3116 | No two free slots touch, marks are exact, no free slot ends at the append point |
| `Totals.EntriesNotFlushed` | dynamorio/core/fcache.c:3806-3913 | No list entry lies in a unit waiting to be freed or in a dead one |
| `Totals.SizeByPlace` | dynamorio/core/fcache.c:927-945 | The size of a cache is what its listed units and those waiting to be flushed have committed, and those waiting to be freed that have not lost it |
| `Fifo.AppendThreads` | dynamorio/core/fcache.c:2280-2299 | The stores of fifo_append thread the list with the fragment at its end |
| `Fifo.RemoveThreads` | dynamorio/core/fcache.c:2301-2328 | The stores of fifo_remove thread the list without the node, head and tail included |
| `Fifo.PrependThreads` | dynamorio/core/fcache.c:2367-2383 | The stores that prepend an empty slot thread the list with it in front |
| `PrivateCaches.PrivateCache.constructor` | dynamorio/core/fcache.c:1559-1624 | A new private cache satisfies the invariant: its one unit is empty and first, the list is empty |
| `PrivateCaches.PrivateCache.FifoAppend` | dynamorio/core/fcache.c:2280-2299 | The list gets the fragment at its end and nothing else changes |
| `PrivateCaches.PrivateCache.FifoRemove` | dynamorio/core/fcache.c:2301-2328 | The list loses the node; an empty slot's record is freed |
| `PrivateCaches.PrivateCache.PrependEmpty` | dynamorio/core/fcache.c:2330-2387 | The hole enlarges the empty slot at the front exactly when it touches it, and becomes a new one there otherwise; fragments untouched |
| `PrivateCaches.PrivateCache.ForceFragment` | dynamorio/core/fcache.c:2783-2800 | The owner of a slot leaves the list; an evicted fragment is counted in a finite cache |
| `PrivateCaches.PrivateCache.CanReplace` | dynamorio/core/fcache.c:2818-2842 | The first walk answers whether any slot starting within the requested bytes is undeletable |
| `PrivateCaches.PrivateCache.EvictRun` | dynamorio/core/fcache.c:2849-2876 | The second walk evicts exactly those slots, in one piece, stops at the append point, and counts the fragments among them |
| `PrivateCaches.PrivateCache.FitRun` | dynamorio/core/fcache.c:2858-2894 | New slot plus leftover empty slot equal the evicted bytes plus the unit's extension |
| `PrivateCaches.PrivateCache.ReplaceFragments` | dynamorio/core/fcache.c:2802-2912 | All or nothing: succeeds exactly when no slot starting within the requested bytes holds an undeletable fragment, then evicts exactly those and counts their fragments, and whether the new one had been deleted before; how large the new slot is, by the minimum hole; otherwise nothing changes, counters included |
| `PrivateCaches.PrivateCache.ReplaceFifo` | dynamorio/core/fcache.c:2914-2934 | Takes over the first member of the list that can be; fails, unchanged, exactly when none can |
| `PrivateCaches.PrivateCache.ExtendUnitEnd` | dynamorio/core/fcache.c:2482-2520 | The append point passes the bytes asked for, and a rest too small to be useful |
| `PrivateCaches.PrivateCache.AppendFragment` | dynamorio/core/fcache.c:3322-3343 | The fragment gets the bytes at the append point, and the rest of the unit if that is less than two minimum holes |
| `PrivateCaches.PrivateCache.AddWithin` | dynamorio/core/fcache.c:3305-3361 | Empty slots in list order, then the end of the first unit, then, unless the working set warrants growth, the first member that can make way; fails, with the cache unchanged, exactly when the cache must grow |
| `PrivateCaches.PrivateCache.AddAtMaximum` | dynamorio/core/fcache.c:3305-3361 | At the maximum size the working set has no say: fails, unchanged, exactly when nothing can make way |
| `PrivateCaches.PrivateCache.TryForMoreSpace` | dynamorio/core/fcache.c:2526-2660 | Room is made without touching a fragment; the distance to placing the request shrinks; the counters start again exactly when there is a new unit |
| `PrivateCaches.PrivateCache.AddFragmentCommon` | dynamorio/core/fcache.c:3287-3371 | Without a maximum size: always places the fragment, with at most two recursive calls; the cache grows exactly when no empty slot can be taken over, the end has no room, and the working set warrants it or nothing can make way; the fragments that make way are counted |
| `PrivateCaches.PrivateCache.AddFragment` | dynamorio/core/fcache.c:3645-3695 | The same for the least slot size the fragment needs |
| `PrivateCaches.PrivateCache.RemoveFragment` | dynamorio/core/fcache.c:3697-3737 | The fragment leaves the list and its bytes lie in an empty slot, a new one exactly when they do not touch the one in front; all other fragments stay, in order |
| `PrivateCaches.PrivateCache.ShiftStartPc` | dynamorio/core/fcache.c:3390-3435 | The body's start moves; header address and slot size do not |
| `PrivateCaches.PrivateCache.ReturnHow` | dynamorio/core/fcache.c:3479-3546 | When the bytes are pulled back, joined to the empty slot that follows, made an empty slot, or kept |
| `PrivateCaches.PrivateCache.ReturnExtraSpace` | dynamorio/core/fcache.c:3437-3579 | The slot gives up its last bytes exactly when they are worth it; they become unclaimed, or enlarge the empty slot that follows in its place on the list, or lie in an empty slot at the front of it; the body loses exactly the space and no other fragment changes |
| `PrivateCaches.PrivateCache.CloseUnit` | dynamorio/core/fcache.c:2482-2520 | The rest of the first unit becomes an empty slot; no bytes are lost |
| `PrivateCaches.PrivateCache.OpenUnit` | dynamorio/core/fcache.c:2634-2645 | The empty unit that was created or reused becomes the first of the cache |
| `PrivateFacts.FifoForm` | dynamorio/core/fcache.c:2280-2387 | The FIFO is all empty slots, then all fragments; the head's prev is the tail, the tail's next is NULL |
| `PrivateFacts.OnceEach` | dynamorio/core/fcache.c:2253-2277 | Each slot's owner is on the FIFO exactly once, and owns no other slot |
| `PrivateFacts.OwnsSlot` | dynamorio/core/fcache.c:2253-2277 | Each member of the FIFO owns a slot |
| `PrivateFacts.EveryByteOwned` | dynamorio/core/fcache.c:2253-2277 | Every byte of the used part of a unit lies in exactly one slot |
| `WorkingSet.WorkingSetState.SubtractMultiples` | dynamorio/core/fcache.c:2457-2462 | The loop ends and leaves both counters reduced by the same, largest possible, number of multiples |
| `WorkingSet.WorkingSetState.CheckRegenReplaceRatio` | dynamorio/core/fcache.c:2389-2477 | The answer and the new state, branch by branch over the fields: at the maximum, not finite, no target, waiting, below the free size, not tracking yet, and by the ratio |
| `WorkingSet.RatioExact` | dynamorio/core/fcache.c:2449-2474 | Growth is granted exactly when more multiples of the regeneration parameter fit than of the replacement parameter |
| `WorkingSet.WaitsItsTurn` | dynamorio/core/fcache.c:2405-2437 | After a check, a FIFO cache refuses the next replace_param requests |
| `WorkingSet.FirstUnitFree` | dynamorio/core/fcache.c:2437-2447 | A large shared cache gets one unit for free and from then on keeps track |
| `WorkingSet.SharedGrants` | dynamorio/core/fcache.c:2449-2474 | After that a shared cache adds a unit without flushing one exactly when enough of the fragments placed since the last new unit were regenerated |
| `WorkingSet.OldestGoes` | dynamorio/core/fcache.c:2576-2632 | From one new unit of a shared cache to the next, the oldest is set aside exactly when too few of the fragments placed in between were regenerated |
| `WorkingSet.EqualParamsNeverGrant` | dynamorio/core/fcache.c:2449-2474 | With regen_param as large as replace_param it never does |
| `Cbor.HeadRoundTrip` | fld/ftr_writer.py:64-92 | A head gives back its type and its value below 2^64, whatever follows (section 3 of RFC 8949) |
| `Cbor.HeadsPrefixFree` | fld/ftr_writer.py:64-92 | Heads delimit themselves |
| `Cbor.ShortestIsShortest` | fld/ftr_writer.py:64-92 | Nothing shorter decodes to the same head (section 4.1 of RFC 8949) |
| `Cbor.WriterAlmostShortest` | fld/ftr_writer.py:67-83 | The writer's heads are shortest exactly when the value is neither 255 nor 2^32-1 |
| `Cbor.RoundTrip` | fld/ftr_writer.py:37-92 | Any item, nested, tagged, of definite or indefinite length, decodes to itself and delimits itself |
| `Cbor.SignedRoundTrip` | fld/ftr_writer.py:49-53 | Integers from -2^64 up to 2^64 - 1 are read back |
| `Cbor.EncodeInjective` | fld/ftr_writer.py:37-92 | Different items have different bytes |
| `FtrFormat.TypedValueIsHead` | fld/ftr_writer.py:64-92 | The shifted and masked bytes are the head |
| `FtrFormat.HeadSize` | fld/ftr_writer.py:64-92 | How many bytes a head has for which value, and what the first of them is |
| `FtrFormat.HeadValue` | fld/ftr_writer.py:64-92 | The bytes behind the first hold the value, highest byte first |
| `FtrFormat.SignedIsInt` | fld/ftr_writer.py:49-53 | The signed form is the integer's item |
| `FtrFormat.FileReadsBack` | fld/ftr_writer.py:13-31 | The file is one well-formed item: tag 55799, an indefinite array of the chunks, a break |
| `FtrFormat.PayloadReadsBack` | fld/ftr_writer.py:100-229 | Each chunk's byte string decodes to the item of its tables |
| `FtrFormat.ChunkRecovered` | fld/ftr_writer.py:100-229 | The tables of a chunk can be told from its bytes |
| `FtrFormat.FileRecovered` | fld/ftr_writer.py:28-31 | Files with equal bytes hold equal tables, chunk by chunk |
| `FtrReader.ChunkRead` | fld/ftr_writer.py:100-229 | A reader that knows the tags and the places of the fields, and nothing of the writer, gets every chunk back as written, an empty dictionary apart from its first index |
| `FtrReader.FileRead` | fld/ftr_writer.py:13-31 | The same reader, given the bytes of the file, finds tag 55799 and gets all chunks back in order |
| `FtrReader.MajorTypes` | fld/ftr_writer.py:37-92 | The first byte of each kind of item holds its major type (section 3.1 of RFC 8949) |
| `FtrReader.FileFrame` | fld/ftr_writer.py:13-31 | A file starts with the bytes D9 D9 F7 9F and ends with FF |
| `FtrWriters.WriteDictionary` | fld/ftr_writer.py:116-121 | The loop writes the map from indices to texts |
| `FtrWriters.WriteDirectory` | fld/ftr_writer.py:155-165 | The loops write all streams and then all generators, with their numbers |
| `FtrWriters.WriteTransaction` | fld/ftr_writer.py:192-206 | A transaction is its four numbers followed by its attributes |
| `FtrWriters.WriteTransactions` | fld/ftr_writer.py:187-209 | The loop writes the entry's transactions as one indefinite array |
| `FtrWriters.WriteRelations` | fld/ftr_writer.py:219-229 | The loop writes all relations as one indefinite array |
| `FtrWriters.FtrWriter.constructor` | fld/ftr_writer.py:13-22 | An empty writer holds an open file without chunks |
| `FtrWriters.FtrWriter.WriteFile` | fld/ftr_writer.py:28-31 | The bytes written start with D9 D9 F7 9F, end with FF, and the independent reader gets the chunks back from them |
| `FtrWriters.FtrWriter.GenerateInfoChunk` | fld/ftr_writer.py:100-106 | One info chunk more |
| `FtrWriters.FtrWriter.AddToDictionary` | fld/ftr_writer.py:112-114 | The text is appended; the index given is the first one that holds it |
| `FtrWriters.FtrWriter.GenerateDictionaryChunk` | fld/ftr_writer.py:116-121 | The chunk lists what no chunk listed before, so that all chunks together list each dumped index once, in order, with its text |
| `FtrWriters.FtrWriter.AddToStreams` | fld/ftr_writer.py:127-131 | The number given is that of the first stream with that name and kind; unknown texts change nothing |
| `FtrWriters.FtrWriter.AddToGenerators` | fld/ftr_writer.py:133-137 | The number given is that of the first generator with that name and stream, counted on from the streams |
| `FtrWriters.FtrWriter.GenerateDirectoryChunk` | fld/ftr_writer.py:155-165 | One directory chunk more, with all streams and generators |
| `FtrWriters.FtrWriter.AddTXStream` | fld/ftr_writer.py:171-173 | The index is that of the first equal entry |
| `FtrWriters.FtrWriter.AddTransaction` | fld/ftr_writer.py:175-178 | A new number, used by no other transaction, at the end of the entry, which is otherwise unchanged like all others; a negative position counts from the end; the number is used up even when there is no such entry |
| `FtrWriters.FtrWriter.AddAttribute` | fld/ftr_writer.py:180-185 | Every transaction of that number gets the attribute, under the first index of its name |
| `FtrWriters.OneAttributed` | fld/ftr_writer.py:180-185 | There is exactly one such transaction; it gets the attribute behind its others and nothing else changes |
| `FtrWriters.NoneAttributed` | fld/ftr_writer.py:180-185 | A number that no transaction has changes nothing |
| `FtrWriters.FtrWriter.GenerateTXBlockChunk` | fld/ftr_writer.py:187-209 | One chunk more for each entry, in order, behind those there are |
| `FtrWriters.FtrWriter.AddRelation` | fld/ftr_writer.py:215-217 | The relation is appended under the first index of its name |
| `FtrWriters.FtrWriter.GenerateRelationChunk` | fld/ftr_writer.py:219-229 | One relation chunk more, with all relations |
| `FtrWriters.StreamDeclared` | fld/ftr_writer.py:127-159 | A stream's number is declared with its record, and no other, in every later directory |
| `FtrWriters.GeneratorDeclared` | fld/ftr_writer.py:133-162 | With a stream in place and none added since, a generator's number is declared with exactly its record |
| `FtrWriters.GeneratorDeclaredIff` | fld/ftr_writer.py:133-162 | A number handed out is declared with its record in a later directory exactly when there was a stream and none was added since |
| `FtrWriters.NoStreamMismatch` | fld/ftr_writer.py:133-162 | Without streams, number 1 is handed out and number 2 declared |
| `SelfProtection.ProtectInfo.ProtectDataSection` | dynamorio/core/dynamo.c:3393-3446 | The counter moves by one; the pages change only at the first unprotect and the last protect |
| `SelfProtection.ProtectInfo.DynamorioUnprotect` | dynamorio/core/dynamo.c:3150-3206 | Only the first thread in opens the sections and global memory |
| `SelfProtection.ProtectInfo.DynamorioProtect` | dynamorio/core/dynamo.c:3078-3148 | Only the last thread out closes them; an exit too many is ignored |
| `SelfProtection.StepInv` | dynamorio/core/dynamo.c:3080-3206 | Every step of every thread keeps the invariant |
| `SelfProtection.NeverStuck` | dynamorio/core/dynamo.c:3090-3100 | No counter is ever decremented at zero, and the defensive branch is never taken by nested calls |
| `SelfProtection.WindowsSafe` | dynamorio/core/dynamo.c:3393-3446 | In every state of every run a section's counter is the number of open windows, and it is writable exactly while there is one |
| `SelfProtection.InsideSafe` | dynamorio/core/dynamo.c:3080-3206 | A thread inside finds global memory and the sections opened on entry writable |
| `SelfProtection.AllProtected` | dynamorio/core/dynamo.c:3080-3206 | When all have left and closed their windows, everything is read-only |
| `Suspending.SuspendThreads` | dynamorio/core/dynamo.c:3176-3194 | The loops suspend the first thread of a bucket once for every thread under control in that bucket, and count that many |
| `Suspending.SuspendsEachOnce` | dynamorio/core/dynamo.c:3176-3194 | Every thread under control is suspended exactly once, and nobody else, exactly when in each bucket only the first thread is under control |
| `Suspending.NeverSuspended` | dynamorio/core/dynamo.c:3176-3194 | A thread that is not the first of its bucket is never suspended |
| `ConfigLines.WindowedIsSplit` | dynamorio/core/config.c:319-389 | For terminated lines that fit, what the reader passes on does not depend on the buffer: it is the file's lines, a trailing CR removed |
| `ConfigLines.LongLine` | dynamorio/core/config.c:350-379 | A line that does not fit the buffer is passed on in pieces of its length |
| `ConfigLines.LastLine` | dynamorio/core/config.c:336-375 | When every line fits, the reader passes on the terminated lines and, exactly when the buffer holding its start does not reach the end of the file or starts at it, an unterminated last line |
| `ConfigLines.SmallFile` | dynamorio/core/config.c:336-375 | For a file that fits the buffer: the terminated lines, or the whole file if it has no newline |
| `ConfigLines.FirstWins` | dynamorio/core/config.c:285-316 | Without overwriting, a value that is set stays and otherwise the first line counts |
| `ConfigLines.LineForm` | dynamorio/core/config.c:285-310 | A line gives a value exactly when it starts with the name and = and the name holds no =: what follows; it is malformed exactly when it only starts with the name |
| `ConfigReader.ShiftBuffer` | dynamorio/core/config.c:350-367 | After the shift the buffer holds the unfinished line from its start and as much more as fits or exists |
| `ConfigReader.NextLine` | dynamorio/core/config.c:336-368 | Finds the next line in the buffer, or the end of the file exactly when nothing is left to read and no line is complete |
| `ConfigReader.CutLine` | dynamorio/core/config.c:369-379 | The text passed on is the line without newline and carriage return; what follows stays in the buffer |
| `ConfigReader.Config.ProcessConfigLine` | dynamorio/core/config.c:261-317 | Fails exactly when the line starts with a name that no = follows; otherwise each variable named gets what stands behind the =, at most 2048 characters of it, unless it has a value that is not to be overwritten |
| `ConfigReader.Config.ReadConfigFile` | dynamorio/core/config.c:319-389 | The values are those after the non-blank, non-comment lines in order; no index leaves the buffer |
| `ConfigReader.Config.SetConfigFromEnv` | dynamorio/core/config.c:238-259 | Variables without a value get the environment's, at most 2048 characters of it, others keep theirs |
| `ConfigReader.Config.ConfigRead` | dynamorio/core/config.c:480-494 | Each variable has what stands behind the = in the first line of the app file that starts with its name and =, else in the first of the default file, else the environment's, else nothing, at most 2048 characters of it; fails exactly when some line starts with a name that no = follows |
| `ConfigReader.LayeredSplit` | dynamorio/core/config.c:319-389 | For terminated lines that fit, these are the values of the files' own lines |
| `ConfigReader.FileLinesMore` | dynamorio/core/config.c:319-389 | A terminated line more, if it fits, is one wanted line more, without its carriage return, unless it is empty or starts with # |

## Left out

- Coarse units, resizing and shifting of units, proactive reset, `fcache_flush_all_caches`: not modelled.
- The pointer size is 8 bytes (x64); units are below 4GB, as the source asserts; `max_size` of a shared cache is 0.
- Memory mapping: addresses of new units are parameters, assumed apart from all units; freed memory is not unmapped in the model. For private caches units are also assumed not to touch, because the merge at fcache.c:2354-2365 does not look at units.
- Locks of a cache: each routine that holds the cache lock throughout is one step. Logging, profiling and statistics other than the free-list counters are not modelled; counters are unbounded.
- Fragments are records with start, size, spare bytes and named flags; linking, deletion from the hashtable and lazy deletion lists are not modelled. Which fragments a flush skips is a parameter.
- SharedCaches.SharedCache.ReturnExtraSpace: writes the fragment's own fields before handing its bytes over, where the source does so afterwards; nothing in between looks at them. A unit already flushed is excluded, as flush synchronisation does; all other units have their cache.
- PrivateCaches.PrivateCache.ReturnExtraSpace: the same order of writes.
- SharedCaches.SharedCache.PcLookup: looks at the units of one cache; dead units and units of other caches, which the interval structure also holds, are excluded. A unit that was flushed is included as long as no lost slot starts before the address: at a lost slot a list record may be stale (`Emission.StaleRecord`), and a removed fragment's header points to freed memory.
- SharedCaches.SharedCache.FreePendingUnits: requires that the fragments of the units due have been removed by then, which the flush queue of the fragment module guarantees.
- SharedCaches.SharedCache.FlushPendingUnits: the lists of units to flush, to free and dead are those of one cache, where the program's are shared by all caches; the flag of each thread that a flush is due is one flag. `FlushAll`, `AppendUnitsToFreeList` and `FreePendingUnits` work on the same lists.
- SharedCaches.SharedCache.AddFragment: counts the placement at its end, where `place_fragment` does so; nothing in between looks at the counters. Whether the fragment had been deleted before is a parameter.
- SharedCaches.SharedCache.FreeUnit: the other way out, `fcache_really_free_unit`, has the guard of fcache.c:962-963 and does not read a cache that is NULL; with that guard at fcache.c:1497 and 1536 too no freed unit would fail. The model has the code as it is.
- FlushChains.FlushThenFree: requires that the units hold no fragment any more; a fragment can no longer be removed from most of them after the flush, so that is a demand on what was in them before.
- PrivateCaches.PrivateCache.AddFragmentCommon: the unit that `fcache_create_unit` returns, new or reused, is a parameter, and so is whether the fragment had been deleted before. `AddWithin` holds of any cache; the growth of a cache with a maximum size that it has not reached is not modelled.
- PrivateCaches.PrivateCache.AddFragment: the same.
- PrivateCaches.PrivateCache.TryForMoreSpace: the same; that the size is the sum of what the units have committed is an invariant of the shared cache only.
- PrivateCaches.PrivateCache.OpenUnit: takes the unit that was created or reused; the choice among dead units is modelled for the shared cache.
- PrivateCaches.PrivateCache.RemoveFragment: a private unit is never pending free, so that branch is left out.
- `cbor2.dumps` is taken to be the shortest-form encoding of tags, byte strings, integers and definite arrays; numbers beyond 64 bits, which it would write as bignums, are excluded by `ChunkFits`. Text is its UTF-8 bytes, and the clock is a parameter.
- SelfProtection.ProtectInfo.DynamorioUnprotect: suspending threads is modelled apart, in `Suspending`; data sections that are never protected are not modelled.
- SelfProtection.ProtectInfo.DynamorioProtect: the same for resuming them.
- ConfigReader.Config.ReadConfigFile: files are free of NUL characters and reads return as much as is asked for or left.
- ConfigReader.Config.ProcessConfigLine: query mode is not modelled. A value of `MAX_CONFIG_VALUE` characters or more is stored without a terminator by the source; the model stores the truncated text.
- ConfigReader.Config.SetConfigFromEnv: the same for values of the environment.
- Choosing the configuration files, `config_reread`, the registry.
- The other files of `fld/`, dispatch, emission, annotations and hashtables.
