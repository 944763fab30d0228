/** A shared code cache (fcache_t with is_shared): free lists, append point, units. */
module SharedCaches {
  import opened Options
  import opened Memory
  import opened Alignment
  import opened Layout
  import opened Coalescing
  import opened FreeLists
  import opened SharedModel
  import opened CacheFacts
  import opened Freeing
  import opened Placing
  import opened Removing
  import opened Trimming
  import opened Growing
  import opened Lifecycle
  import opened Flushing
  import opened Lookup
  import opened Requests
  import opened Emission
  import W = WorkingSet

  class SharedCache {
    const align: nat
    const minHole: nat
    const commitIncrement: nat
    const maxUnit: nat
    const wset: W.WorkingSetState
    var mem: Mem
    var frags: Frags
    var units: Units
    var order: seq<UnitId>
    var heads: seq<Ref>
    var stats: Stats
    var toFlush: seq<UnitId>
    var toFree: seq<Flushed>
    var dead: seq<Dead>
    var nextId: UnitId
    var flushPending: bool
    ghost var slots: Slots
    ghost var tops: Tops
    ghost var lists: Lists
    ghost var open: int

    ghost function View(): Core
      reads this
    {
      Core(align, mem, frags, units, open, heads, stats, slots, tops, lists)
    }

    /** A shared cache has no maximum size and never waits between checks of its working set. */
    ghost predicate ParamsOk()
      reads wset
    {
      && wset.maxSize == 0 && !wset.fifo && wset.maxUnitSize == maxUnit && wset.wsetCheck == 0
      && (minHole == 28 || minHole == 64) && 0 < commitIncrement && commitIncrement % PAGE == 0
      && 0 < maxUnit && maxUnit % PAGE == 0
    }

    ghost predicate Places()
      reads this, wset
    {
      && OnePlace(units, order, toFlush, toFree, dead) && Paged(units, dead, maxUnit)
      && Ledger(units, dead, nextId, wset.size) && ParamsOk()
    }

    ghost function UnitPlaces(): Roster
      reads this
    {
      Roster(units, order, toFlush, dead, flushPending)
    }

    /** What holds between operations. */
    ghost predicate Valid()
      reads this, wset
    {
      Settled(View(), order) && Places() && |order| > 0 && Roomy(View(), order[0], 2 * minHole)
    }

    /** fcache_cache_init: empty lists and one empty unit, at an address the system chose. */
    constructor (
      align: nat, minHole: nat, commitIncrement: nat, maxUnit: nat, wset: W.WorkingSetState, base: Pc, frags: Frags)
      requires IsAlign(align) && (minHole == 28 || minHole == 64)
      requires 0 < commitIncrement && commitIncrement % PAGE == 0 && 0 < maxUnit && maxUnit % PAGE == 0
      requires wset.maxSize == 0 && !wset.fifo && wset.maxUnitSize == maxUnit && wset.wsetCheck == 0 && wset.size == 0
      requires FreshRegion(map[], [], base, maxUnit)
      modifies wset`size
      ensures Valid() && this.frags == frags && this.align == align && this.minHole == minHole && this.wset == wset
      ensures slots == map[] && |order| == 1 && units.Keys == {order[0]} && Blank(units[order[0]])
      ensures units[order[0]].start == base && units[order[0]].reserved == base + maxUnit
      ensures this.maxUnit == maxUnit
      ensures toFlush == [] && toFree == [] && dead == []
    {
      hide Settled, ClosedUp, FreshRegion, DeadChoice, Roomy, OnePlace, Paged, Ledger, NoStats, Inv;
      EmptyClosed(align, frags);
      EmptyPlaces(maxUnit);
      this.align, this.minHole, this.commitIncrement, this.maxUnit := align, minHole, commitIncrement, maxUnit;
      this.frags, this.wset := frags, wset;
      mem, units, order, heads := map[], map[], [], seq(BUCKETS, _ => Null);
      stats := NoStats();
      toFlush, toFree, dead, nextId, flushPending := [], [], [], 0, false;
      slots, tops, lists, open := map[], map[], seq(BUCKETS, _ => []), NONE;
      new;
      var u, k := CreateUnit(maxUnit, base);
    }

    /** remove_from_free_list */
    method RemoveFromFreeList(bucket: nat, pc: Pc, coalesce: bool, ghost k: nat)
      requires ListedAs(View(), bucket, k, pc)
      requires Inv(View())
      modifies `mem, `heads, `stats, `slots, `lists
      ensures Inv(View()) && IsDetached(old(View()), View(), bucket, k, coalesce)
      ensures bucket < |old(stats).reused| == |old(stats).coalesced| && stats.freed == old(stats).freed
      ensures var was := old(stats);
        && stats.coalesced == (if coalesce then was.coalesced[bucket := was.coalesced[bucket] + 1] else was.coalesced)
        && stats.reused == if coalesce then was.reused else was.reused[bucket := was.reused[bucket] + 1]
    {
      hide Inv, Unlisted, Without, SetKind, UnlinkMem, IsPtr, NextRef, PrevRef, Bucket, InBucket;
      UnlinkPrep(View(), bucket, k, pc);
      DetachInv(View(), bucket, k, coalesce);
      UnlistedIs(stats, bucket, mem[pc + SIZE_AT].n, coalesce);
      var next, prev, size := LoadPtr(mem, pc), LoadPtr(mem, pc + PREV_AT), mem[pc + SIZE_AT].n;
      heads := if prev == Null then heads[bucket := next] else heads;
      mem, stats := UnlinkMem(mem, prev, next), Unlisted(stats, bucket, size, coalesce);
      slots, lists := SetKind(slots, pc, Hole), lists[bucket := Without(lists[bucket], k)];
    }

    /** The first half of add_to_free_list: look at the slot after the one being freed, take it
        in if it is free, mark it otherwise. */
    method CoalesceNext(u: UnitId, start: Pc, size: nat) returns (newSize: nat)
      requires HoleAt(View(), u, start, size) && NextKnown(View(), u, start)
      modifies `mem, `heads, `stats, `slots, `lists, `frags
      ensures NextDone(old(View()), View(), u, start, size, newSize)
    {
      hide Inv, IsPtr, DerefOk, IsFreeList, MergeNext, NextDone, Bucket;
      newSize := size;
      if units[u].cur > start + size {
        ReadNext(View(), u, start, size);
        var subseq := LoadPtr(mem, start + size);
        if IsFreeList(mem, frags, subseq) {
          var nextSize := mem[start + size + SIZE_AT].n;
          if U32(nextSize + size) <= UINT_MAX {
            var bucket := FindFreeListBucket(nextSize);
            newSize := U32(size + nextSize);
            ghost var k := FreeEntry(View(), start + size);
            NextJoined(View(), u, start, size, bucket, k);
            RemoveFromFreeList(bucket, start + size, true, k);
            slots := MergeNext(slots, start);
          } else {
            assert false;
          }
        } else {
          NextMarkedDone(View(), u, start, size);
          if !frags[subseq.id].flags.followsFree {
            frags := Mark(frags, subseq.id, true);
          }
        }
      } else {
        NothingNext(View(), u, start, size);
      }
    }

    /** The second half of add_to_free_list: a marked fragment being freed is joined to the free
        slot before it, found through the footer. */
    method CoalescePrev(u: UnitId, f: Option<FragId>, start: Pc, size: nat) returns (pc: Pc, newSize: nat)
      requires HoleAt(View(), u, start, size) && Sealed(View(), start) && PrevKnown(View(), f, start)
      modifies `mem, `heads, `stats, `slots, `lists
      ensures PrevDone(old(View()), View(), u, start, size, pc, newSize)
    {
      hide Inv, MergeNext, PrevDone, Bucket, Sealed;
      pc, newSize := start, size;
      if f.Some? && frags[f.value].flags.followsFree {
        ghost var q := ReadPrev(View(), u, start, size);
        var prevSize := mem[start - FOOTER].n;
        var prev := start - prevSize;
        if U32(mem[prev + SIZE_AT].n + size) <= UINT_MAX {
          var bucket := FindFreeListBucket(prevSize);
          pc, newSize := prev, U32(size + mem[prev + SIZE_AT].n);
          ghost var k := FreeEntry(View(), q);
          PrevJoined(View(), u, start, size, q, bucket, k);
          RemoveFromFreeList(bucket, prev, true, k);
          slots := MergeNext(slots, prev);
        } else {
          assert false;
        }
      } else {
        NothingPrev(View(), u, start, size);
      }
    }

    /** The new record goes to the front of its bucket. */
    method PushEntry(pc: Pc, size: nat)
      requires pc in slots && slots[pc].size == size
      requires CanAttach(View(), pc)
      modifies `mem, `heads, `stats, `slots, `lists
      ensures IsAttached(old(View()), View(), pc) && Inv(View())
    {
      hide Inv, LinkMem, SetKind, Mapped, IsPtr, NoFreeBefore;
      var bucket := FindFreeListBucket(size);
      Attach(View(), pc);
      stats := stats.(freed := Bump(stats.freed, bucket),
                     charge := stats.charge[bucket := stats.charge[bucket] + size]);
      mem := LinkMem(mem, pc, size, heads[bucket]);
      heads := heads[bucket := EntryRef(pc)];
      slots, lists := SetKind(slots, pc, Free), lists[bucket := [pc] + lists[bucket]];
    }

    /** add_to_free_list: the hole at start is joined with its free neighbours and either becomes
        a free slot or, at the end of the unit being filled, is given back to unclaimed space. */
    method AddToFreeList(u: UnitId, f: Option<FragId>, start: Pc, size: nat)
      requires CanFree(View(), order, u, f, start, size)
      modifies `mem, `heads, `stats, `slots, `lists, `frags, `units, `tops
      ensures Freed(old(View()), View(), u, start, size, u == order[0] && old(units[u].cur) == start + size)
    {
      hide Inv, NextDone, PrevDone, Freed, NoFreeBefore, Sealed, OnlyHole, HoleAt, NextKnown, PrevKnown, PrevFree;
      hide CanAttach, IsAttached;
      ghost var c0 := View();
      FreeStart(c0, order, u, f, start, size);
      var size1 := CoalesceNext(u, start, size);
      ghost var c1 := View();
      FreeMiddle(c0, c1, u, f, start, size, size1);
      var pc, size2 := CoalescePrev(u, f, start, size1);
      ghost var c2 := View();
      if u == order[0] && units[u].cur == pc + size2 {
        FreeRetracted(c0, c1, c2, order, u, f, start, size, size1, pc, size2);
        units := units[u := units[u].(cur := pc, full := false)];
        slots, tops := slots - {pc}, tops[u := pc];
      } else {
        FreeReady(c0, c1, c2, order, u, f, start, size, size1, pc, size2);
        PushEntry(pc, size2);
        FreePushed(c0, c1, c2, View(), u, start, size, size1, pc, size2);
      }
    }

    /** The search of find_free_list_slot: from the request's own bucket upwards, first fit. */
    method FindEntry(size: nat) returns (bucket: nat, header: Ref, ghost k: nat)
      requires Inv(View())
      ensures header == Null <==> !HasRoom(slots, size)
      ensures header != Null ==>
        && header.EntryRef? && ListedAs(View(), bucket, k, header.pc)
        && header.pc in slots && slots[header.pc].kind.Free? && slots[header.pc].size >= size
        && TooSmallBelow(slots, size, bucket) && TooSmall(slots, lists[bucket], k, size)
    {
      hide Inv, Bucket, IsPtr, TooSmallBelow, EntryAt;
      bucket := FindFreeListBucket(size);
      header, k := Null, 0;
      SearchStart(slots, size);
      while bucket < BUCKETS
        invariant bucket <= BUCKETS && header == Null && TooSmallBelow(slots, size, bucket)
      {
        HeadOf(View(), bucket);
        header, k := heads[bucket], 0;
        SearchRead(View(), bucket, k);
        while header != Null && mem[header.pc + SIZE_AT].n < size
          invariant TooSmall(slots, lists[bucket], k, size)
          invariant header == (if k < |lists[bucket]| then EntryRef(lists[bucket][k]) else Null)
          invariant EntryReadable(View(), bucket, k)
          decreases |lists[bucket]| - k
        {
          header, k := LoadPtr(mem, header.pc), k + 1;
          SearchRead(View(), bucket, k);
        }
        if header != Null {
          return;
        }
        SearchNext(View(), size, bucket);
        bucket := bucket + 1;
      }
      AllTooSmall(slots, size);
    }

    /** fcache_lookup_unit: the interval lookup of the unit that reserves pc. */
    method LookupUnit(pc: Pc) returns (u: Option<UnitId>)
      requires UnitsOk(units, tops)
      ensures u.Some? ==> u.value in units && units[u.value].start <= pc < units[u.value].reserved
      ensures forall v :: v in units && units[v].start <= pc < units[v].reserved ==> u == Some(v)
    {
      u := None;
      if v :| v in units && Reserves(units[v], pc) {
        u := Some(v);
      }
    }

    /** place_fragment: the header is written and the fragment learns its address and spare bytes. */
    method PlaceFragment(f: FragId, u: UnitId, pc: Pc, slotSize: nat)
      requires CanOccupy(View(), u, pc, slotSize, f)
      modifies `mem, `frags, `slots
      ensures IsOccupied(old(View()), View(), pc, slotSize, f) && Inv(View()) && NoHoles(slots)
    {
      hide Inv, CanOccupy, SetKind, StorePtr, Place, NoHoles;
      Occupy(View(), u, pc, slotSize, f);
      mem := StorePtr(mem, pc, FragRef(f));
      frags := frags[f := Place(frags[f], pc, slotSize)];
      slots := SetKind(slots, pc, Live(f));
    }

    /** The front of the entry goes to the fragment, the rest back to the lists. */
    method TakeFront(f: FragId, u: UnitId, pc: Pc, freeSize: nat, size: nat, ghost c0: Core)
      requires Taking(c0, View(), order, u, pc, freeSize, size, f) && freeSize - size >= MIN_SLOT
      modifies `mem, `heads, `stats, `slots, `lists, `frags, `units, `tops
      ensures Taken(c0, View(), order, pc, size, f) && pc in slots && slots[pc].size == size
    {
      hide Inv, NoFreeBefore, Sealed, SameKept, SameKeptBut, FreeMinus, FreePlus, CanFree, Freed, CanOccupy, Homeless;
      hide OnlyHole;
      hide Placed, IsOccupied, Aligned, IsAlign, AllFree, Kept, NoHoles, Steady, SetAside;
      ghost var c1 := View();
      SplitReady(c1, order, u, pc, freeSize, size);
      AsideKeeps(c1, pc, size, f);
      slots := SetAside(View(), pc, size).slots;
      AddToFreeList(u, None, pc + size, freeSize - size);
      ghost var c3 := View();
      SplitDone(SetAside(c1, pc, size), c3, u, pc, freeSize, size, f);
      slots := SetKind(slots, pc, Hole);
      PlaceFragment(f, u, pc, size);
      SplitTotal(c0, c1, c3, View(), order, u, pc, freeSize, size, f);
    }

    /** The whole entry goes to the fragment; what follows it no longer follows a free slot. */
    method TakeWhole(f: FragId, u: UnitId, pc: Pc, freeSize: nat, ghost size: nat, ghost c0: Core)
      requires Taking(c0, View(), order, u, pc, freeSize, size, f) && freeSize - size <= 64
      modifies `mem, `slots, `frags
      ensures Taken(c0, View(), order, pc, size, f) && pc in slots && slots[pc].size == freeSize
    {
      hide Inv, NoFreeBefore, Sealed, SameKept, SameKeptBut, FreeMinus, FreePlus, CanOccupy, Homeless, OnlyHole;
      hide Placed, IsOccupied, Aligned, IsAlign, AllFree, Kept, NoHoles, Steady;
      ghost var c1 := View();
      WholeReady(c1, u, pc, freeSize, f);
      if units[u].cur > pc + freeSize {
        var subseq := LoadPtr(mem, pc + freeSize);
        if !IsFreeList(mem, frags, subseq) {
          assert subseq.id != f by { LiveNotHomeless(slots, pc + freeSize, f); }
          HasHome(slots, pc + freeSize, subseq.id);
          frags := Mark(frags, subseq.id, false);
        } else {
          assert false;
        }
      }
      ghost var c4 := View();
      PlaceFragment(f, u, pc, freeSize);
      WholeTotal(c0, c1, c4, View(), order, pc, freeSize, size, f);
    }

    /** find_free_list_slot after the search. */
    method TakeEntry(f: FragId, size: nat, bucket: nat, pc: Pc, ghost k: nat)
      requires Steady(View(), order) && Request(View(), f, size) && ListedAs(View(), bucket, k, pc)
      requires pc in slots && slots[pc].kind.Free? && slots[pc].size >= size && (minHole == 28 || minHole == 64)
      modifies `mem, `heads, `stats, `slots, `lists, `frags, `units, `tops
      ensures Taken(old(View()), View(), order, pc, size, f)
      ensures pc in old(slots) && pc in slots
      ensures slots[pc].size == if old(slots)[pc].size - size > minHole then size else old(slots)[pc].size
    {
      hide Inv, HoleAt, NoFreeBefore, Sealed, SameKept, FreeMinus, Homeless, Taken;
      hide IsDetached, Aligned, IsAlign, AllFree, Kept, NoHoles, Steady, Request, ListedAs;
      ghost var c0 := View();
      TakeStart(c0, order, f, size, bucket, k, pc);
      ghost var u0 := slots[pc].unit;
      var freeSize := mem[pc + SIZE_AT].n;
      RemoveFromFreeList(bucket, pc, false, k);
      ghost var c1 := View();
      TakenOff(c0, c1, order, bucket, k, pc);
      TakeMiddle(c0, c1, order, f, size, pc, u0, freeSize);
      var found := LookupUnit(pc);
      assert Reserves(units[u0], pc);
      var u := found.value;
      if freeSize - size > minHole {
        TakeFront(f, u, pc, freeSize, size, c0);
      } else {
        TakeWhole(f, u, pc, freeSize, size, c0);
      }
    }

    /** find_free_list_slot */
    method FindFreeListSlot(f: FragId, size: nat) returns (ok: bool, ghost at: Pc)
      requires Steady(View(), order) && Request(View(), f, size) && (minHole == 28 || minHole == 64)
      modifies `mem, `heads, `stats, `slots, `lists, `frags, `units, `tops
      ensures ok <==> HasRoom(old(slots), size)
      ensures ok ==> Taken(old(View()), View(), order, at, size, f) && at in old(slots) && at in slots
      ensures ok ==>
        old(slots)[at].kind.Free? && size <= old(slots)[at].size
        && slots[at].size == if old(slots)[at].size - size > minHole then size else old(slots)[at].size
      ensures ok <==> exists p :: p in old(slots) && old(slots)[p].kind.Free? && size <= old(slots)[p].size
      ensures !ok ==> View() == old(View())
    {
      hide Inv, Request, Taken, ListedAs, TooSmallBelow, TooSmall, HasRoom;
      var bucket, header, k := FindEntry(size);
      ok, at := header != Null, 0;
      RoomIs(slots, size);
      if ok {
        at := header.pc;
        TakeEntry(f, size, bucket, header.pc, k);
      }
    }

    /** fcache_remove_fragment.  It reads the cache of the fragment's unit; false stands for a cache
        that is NULL, which is the program's failure. */
    method RemoveFragment(f: FragId, ghost p: Pc) returns (ok: bool)
      requires LivesAt(View(), f, p) && slots[p].unit in units
      requires Valid()
      modifies `mem, `heads, `stats, `slots, `lists, `frags, `units, `tops
      ensures Valid()
      ensures ok <==> old(units)[old(slots)[p].unit].attached
      ensures ok ==> Removed(old(View()), View(), f, p)
      ensures !ok ==> View() == old(View())
    {
      hide OnePlace, Paged, Ledger, Roomy;
      hide Inv, Settled, Settling, Removed, CanFree, Freed, HoleAt, Kept, UnitsOk;
      ghost var c0 := View();
      ghost var u0, size0 := slots[p].unit, slots[p].size;
      RemoveStart(c0, order, f, p);
      var hdr, size := HdrStart(frags[f]), FragSize(frags[f]);
      var found := LookupUnit(frags[f].startPc);
      assert Reserves(units[u0], frags[f].startPc);
      var u := found.value;
      ok := units[u].attached;
      if !ok {
        return;
      }
      if !units[u].pendingFree {
        RemoveReady(c0, order, f, p);
        HoleOf(Vacated(c0, p), order, u, Some(f), p, size);
        slots := SetKind(slots, p, Hole);
        AddToFreeList(u, Some(f), hdr, size);
        RemoveDone(c0, View(), order, f, p);
      } else {
        slots := SetKind(slots, p, Lost);
        RemovePending(c0, order, f, p);
      }
      RoomyRemoved(c0, View(), f, p, order[0], 2 * minHole);
      RemovedUnits(c0, View(), f, p);
      StillPlaced(c0.units, u, order, toFlush, toFree, dead, maxUnit, nextId, wset.size);
    }

    /** fcache_shift_start_pc.  It locks the cache of the fragment's unit; false stands for a cache
        that is NULL, which is the program's failure. */
    method ShiftStartPc(f: FragId, space: nat, ghost p: Pc) returns (ok: bool)
      requires LivesAt(View(), f, p) && f in frags && space <= frags[f].size && space <= START_PC_ALIGNMENT - 1
      requires frags[f].flags.shiftable && frags[f].startPc % START_PC_ALIGNMENT == 0 && slots[p].unit in units
      requires Valid()
      modifies `frags
      ensures Valid() && f in frags && HdrStart(frags[f]) == p && FragSize(frags[f]) == slots[p].size
      ensures ok <==> space == 0 || units[slots[p].unit].attached
      ensures frags == old(frags)[f := frags[f]]
      ensures frags[f].startPc == old(frags[f].startPc) + if ok then space else 0
      ensures frags[f].startPc + frags[f].size == old(frags[f].startPc + frags[f].size)
    {
      hide Inv, Settled, HdrStart, FragSize, OnePlace, Paged, Ledger, UnitsOk;
      RemoveStart(View(), order, f, p);
      ok := true;
      if space != 0 {
        var found := LookupUnit(frags[f].startPc);
        assert Reserves(units[slots[p].unit], frags[f].startPc);
        ok := units[found.value].attached;
        if ok {
          ShiftStart(View(), order, f, p, space);
          frags := frags[f := Shift(frags[f], space)];
        }
      }
    }

    /** Code is written into the body of a fragment. */
    method WriteCode(f: FragId, a: Pc, w: Word, ghost p: Pc)
      requires LivesAt(View(), f, p) && p + PTR <= a < End(slots, p) && a in mem
      requires Valid()
      modifies `mem
      ensures Valid() && mem == old(mem)[a := w]
    {
      hide Inv, Settled, OnePlace, Paged, Ledger, CodeOnly;
      OneCodeWord(slots, mem, a, w);
      CodeKeepsSettled(View(), order, mem[a := w]);
      mem := mem[a := w];
    }

    /** The decision of fcache_return_extra_space: keep the bytes, move the append point back over
        them, or put them on a free list. */
    method ReturnHow(f: FragId, u: UnitId, end: Pc, r: nat, ghost p: Pc) returns (pullBack: bool, toList: bool)
      requires LivesAt(View(), f, p) && end == End(slots, p) && u == slots[p].unit && u in units
      requires !units[u].pendingFree
      requires Settled(View(), order)
      requires end <= units[u].cur <= units[u].end
      requires end == units[u].cur && end != units[u].end ==> u == order[0]
      requires end != units[u].cur ==> end in slots && slots[end].unit == u
      requires |order| > 0 && (minHole == 28 || minHole == 64)
      ensures pullBack <==> r > 0 && u == order[0] && units[u].cur == end && (end == units[u].end ==> r >= 2 * minHole)
      ensures toList ==> r > 0 && !(u == order[0] && units[u].cur == end)
      ensures r > 0 && !(u == order[0] && units[u].cur == end) ==>
        (toList <==> if end == units[u].end then r >= 2 * minHole else r >= minHole || FreeAfter(View(), u, p))
    {
      hide Inv, Settled, FreeAfter;
      pullBack, toList := false, false;
      if r > 0 {
        if end == units[u].end {
          if r >= 2 * minHole {
            pullBack, toList := u == order[0], u != order[0];
          }
        } else if end == units[u].cur {
          pullBack := true;
        } else {
          ReturnNext(View(), order, p, end);
          var subseq := LoadPtr(mem, end);
          toList := r >= minHole;
          if IsFreeList(mem, frags, subseq) && U32(r + mem[end + SIZE_AT].n) <= UINT_MAX {
            toList := true;
          }
        }
      }
    }

    /** The last r bytes of the slot of f go to a free list. */
    method GiveToList(f: FragId, u: UnitId, p: Pc, n: nat, r: nat, space: nat, frag: Fragment)
      requires CanTrim(View(), order, f, p, n, r, space, frag) && u == slots[p].unit
      requires u in units && !units[u].pendingFree && |order| > 0
      requires !(u == order[0] && units[u].cur == p + slots[p].size)
      requires r >= MIN_SLOT || FreeAfter(View(), u, p)
      modifies `mem, `heads, `stats, `slots, `lists, `frags, `units, `tops
      ensures Settled(View(), order) && Trimmed(old(View()), View(), f, p, space, r) && units == old(units)
    {
      hide Inv, Settled, Trimmed, CanFree, Freed, FreeAfter, Cut, IsShrunk;
      ghost var c0 := View();
      ReleaseReady(c0, order, f, p, n, frag);
      frags := frags[f := frag];
      slots := Cut(slots, p, n);
      AddToFreeList(u, None, p + n, r);
      ReleaseDone(c0, View(), order, f, p, n, space, frag);
    }

    /** The last r bytes of the last slot of the first unit go back to unclaimed space. */
    method GiveBack(f: FragId, u: UnitId, p: Pc, n: nat, r: nat, space: nat, frag: Fragment)
      requires CanTrim(View(), order, f, p, n, r, space, frag) && u == slots[p].unit
      requires |order| > 0 && u == order[0] && u in units && units[u].cur == p + slots[p].size
      modifies `slots, `frags, `units, `tops
      ensures Settled(View(), order) && Trimmed(old(View()), View(), f, p, space, r)
    {
      hide Inv, Settled, Trimmed, Cut, IsShrunk;
      PullBack(View(), order, f, p, n, space, frag);
      frags := frags[f := frag];
      units := units[u := units[u].(cur := units[u].cur - r, full := false)];
      slots, tops := Cut(slots, p, n) - {p + n}, tops[u := p + n];
    }

    /** The decision is carried out, and the fragment's record follows it. */
    method CarryOut(f: FragId, u: UnitId, p: Pc, total: nat, g: Plan, space: nat, pullBack: bool, toList: bool)
      requires LivesAt(View(), f, p) && f in frags && total == slots[p].size && space <= frags[f].size
      requires u == slots[p].unit && u in units && !units[u].pendingFree && |order| > 0
      requires PlanFor(View(), f, space, g) && FragSize(frags[f]) == total && Fits(frags[f], p, total)
      requires if pullBack || toList then 0 < g.returnable else g.returnable < 128
      requires pullBack || toList ==> (pullBack <==> u == order[0] && units[u].cur == p + total)
      requires toList ==> !pullBack && (g.returnable >= MIN_SLOT || FreeAfter(View(), u, p))
      requires Settled(View(), order)
      modifies `mem, `heads, `stats, `slots, `lists, `frags, `units, `tops
      ensures Settled(View(), order)
      ensures Trimmed(old(View()), View(), f, p, space, if pullBack || toList then g.returnable else 0)
      ensures !pullBack ==> units == old(units)
    {
      hide Inv, Settled, Trimmed, Fits, FragSize, HdrStart, FreeAfter, Trim, CanTrim;
      ghost var c0 := View();
      var frag := Trim(frags[f], space, g, pullBack || toList);
      TrimReady(c0, order, f, p, space, g, pullBack || toList);
      if toList {
        GiveToList(f, u, p, total - g.returnable, g.returnable, space, frag);
      } else if pullBack {
        GiveBack(f, u, p, total - g.returnable, g.returnable, space, frag);
      } else {
        KeepDone(c0, order, f, p, space, frag);
        frags := frags[f := frag];
      }
    }

    /** fcache_return_extra_space.  The fragment's own fields are written before its bytes are
        handed over; nothing in between looks at them. */
    method ReturnExtraSpace(f: FragId, space: nat, ghost p: Pc) returns (ghost given: nat)
      requires LivesAt(View(), f, p) && f in frags && space <= frags[f].size
      requires slots[p].unit in units && !units[slots[p].unit].pendingFree
      requires Valid()
      modifies `mem, `heads, `stats, `slots, `lists, `frags, `units, `tops
      ensures Valid() && Trimmed(old(View()), View(), f, p, space, given)
      ensures given ==
        var r := Returnable(old(frags)[f], space, align); if Worth(old(View()), minHole, p, r) then r else 0
    {
      hide Inv, Settled, Trimmed, Fits, HdrStart, FragSize, UnitsOk, Aligned, FreeAfter, ReturnPlan, Trim, CanTrim;
      hide OnePlace, Paged, Ledger, Roomy;
      ghost var c0, u0 := View(), slots[p].unit;
      RemoveStart(c0, order, f, p);
      ReturnStart(c0, order, f, p, space);
      var found := LookupUnit(frags[f].startPc);
      assert Reserves(units[u0], frags[f].startPc);
      var u := found.value;
      var plan := ReturnPlan(frags[f], space, align);
      var hdr, total := HdrStart(frags[f]), FragSize(frags[f]);
      var pullBack, toList := ReturnHow(f, u, hdr + total, plan.returnable, p);
      given := if pullBack || toList then plan.returnable else 0;
      CarryOut(f, u, hdr, total, plan, space, pullBack, toList);
      RoomyTrimmed(c0, View(), f, p, space, given, order[0], 2 * minHole);
      TrimmedUnits(c0, View(), f, p, space, given);
      StillPlaced(c0.units, u, order, toFlush, toFree, dead, maxUnit, nextId, wset.size);
    }

    /** extend_unit_end(unit, size, false) on the first unit: the append point passes size bytes, and
        the rest of the unit if that is too small to be useful. */
    method ExtendUnitEnd(f: FragId, size: nat) returns (extra: nat)
      requires |order| > 0 && order[0] in units && Request(View(), f, size) && (minHole == 28 || minHole == 64)
      requires units[order[0]].end - units[order[0]].cur >= size
      requires Settled(View(), order)
      modifies `slots, `units, `tops
      ensures order[0] in old(tops) && order[0] in old(units)
      ensures ReadyAtEnd(old(View()), order, order[0], size + extra, f)
      ensures View() == Grown(old(View()), order[0], size + extra)
      ensures old(tops)[order[0]] == old(units)[order[0]].cur
      ensures CanOccupy(View(), order[0], old(units)[order[0]].cur, size + extra, f)
      ensures old(units)[order[0]].cur + size + extra ==
        var was := old(units)[order[0]]; if was.end - was.cur - size < 2 * minHole then was.end else was.cur + size
    {
      hide Inv, Settled, CanOccupy, Request, ReadyAtEnd;
      var u := order[0];
      var left := units[u].end - units[u].cur - size;
      extra := if left < 2 * minHole then left else 0;
      AppendReady(View(), order, f, size, u, size + extra);
      slots, tops := slots[tops[u] := Slot(size + extra, u, Hole)], tops[u := tops[u] + (size + extra)];
      units := units[u := units[u].(
        cur := units[u].cur + size + extra, full := if left < 2 * minHole then true else units[u].full)];
    }

    /** The append path of add_fragment_common. */
    method AppendFragment(f: FragId, size: nat) returns (ghost at: Pc)
      requires |order| > 0 && order[0] in units && Request(View(), f, size) && (minHole == 28 || minHole == 64)
      requires units[order[0]].end - units[order[0]].cur >= size
      requires Settled(View(), order)
      modifies `mem, `frags, `slots, `units, `tops
      ensures order[0] in units
      ensures Settled(View(), order) && Landed(old(View()), View(), f, at, size) && at == old(units)[order[0]].cur
      ensures units[order[0]].cur ==
        var was := old(units)[order[0]]; if was.end - was.cur - size < 2 * minHole then was.end else was.cur + size
      ensures units[order[0]].cur == units[order[0]].end || units[order[0]].cur + 2 * minHole <= units[order[0]].end
      ensures units == old(units)[order[0] := units[order[0]]]
      ensures units[order[0]] == old(units)[order[0]].(cur := units[order[0]].cur, full := units[order[0]].full)
    {
      hide Inv, Settled, CanOccupy, IsOccupied, Landed, NoHoles, Request, ReadyAtEnd;
      ghost var c0 := View();
      at := units[order[0]].cur;
      var u, pc := order[0], units[order[0]].cur;
      var extra := ExtendUnitEnd(f, size);
      ghost var c1 := View();
      PlaceFragment(f, u, pc, size + extra);
      AppendDone(c0, c1, View(), order, u, size + extra, size, f);
    }

    /** extend_unit_end(unit, 0, true) on the first unit, as try_for_more_space calls it: the rest
        becomes a free slot.  A rest too small for that would be passed over and lost, since the
        caller drops the size it is told; there never is one. */
    method CloseUnit()
      requires |order| > 0 && order[0] in units && (minHole == 28 || minHole == 64)
      requires Roomy(View(), order[0], 2 * minHole)
      requires Settled(View(), order)
      modifies `mem, `heads, `stats, `slots, `lists, `frags, `units, `tops, `open
      ensures Closed(old(View()), View(), order[0])
    {
      hide Inv, Settled, Closed, CanFree, Freed;
      ghost var c0 := View();
      var u := order[0];
      EndAbove(c0, order, u);
      var left := units[u].end - units[u].cur;
      if left < 2 * minHole {
        if left > 0 {
          assert false;
        }
        CloseFullDone(c0, order, u);
        open := NONE;
        units := units[u := units[u].(cur := units[u].cur + left, full := true)];
      } else {
        CloseReady(c0, order, u, left);
        open := NONE;
        slots, tops := slots[tops[u] := Slot(left, u, Hole)], tops[u := tops[u] + left];
        AddToFreeList(u, None, units[u].cur, left);
        CloseFreedDone(c0, View(), order, u, left);
        FreedUnits(c0, View(), u, left);
        units := units[u := units[u].(cur := units[u].cur + left, full := true)];
      }
    }

    /** cache_extend_commitment on the first unit. */
    method ExtendCommitment(n: nat)
      requires |order| > 0 && order[0] in units && 0 < n && units[order[0]].end + n <= units[order[0]].reserved
      requires (units[order[0]].end + n) % PAGE == 0
      requires Settled(View(), order)
      modifies `mem, `units, wset`size
      ensures Settled(View(), order) && wset.size == old(wset.size) + n
      ensures units == old(units)[order[0] := old(units)[order[0]].(end := old(units)[order[0]].end + n, full := false)]
    {
      hide Settled, RawWords;
      var u := order[0];
      CommitSettled(View(), order, u, n);
      mem := RawWords(units[u].end, units[u].end + n) + mem;
      units := units[u := units[u].(end := units[u].end + n, full := false)];
      wset.size := wset.size + n;
    }

    /** The search of the dead list: being sorted, the first unit that is large enough is a
        smallest one. */
    method FindDead(size: nat) returns (k: nat)
      requires SizesSorted(dead)
      ensures DeadChoice(dead, size, k)
      ensures k <= |dead| && (k < |dead| ==> dead[k].unit.end - dead[k].unit.start >= size)
      ensures forall j :: 0 <= j < k ==> dead[j].unit.end - dead[j].unit.start < size
    {
      k := 0;
      while k < |dead| && CommittedSize(dead[k].unit) < size
        invariant k <= |dead| && forall j :: 0 <= j < k ==> CommittedSize(dead[j].unit) < size
      {
        k := k + 1;
      }
    }

    /** The first part of fcache_create_unit: a dead unit if one is large enough, else size bytes
        of fresh memory at base. */
    method PickUnit(size: nat, base: Pc) returns (u: UnitId, unit: Unit, ghost k: nat)
      requires Places() && maxUnit <= size && size % PAGE == 0
      requires FreshRegion(units, dead, base, size)
      modifies `dead, `nextId
      ensures CanAdmit(units, order, toFlush, toFree, dead, maxUnit, u, unit, nextId, wset.size)
      ensures unit.reserved - unit.start >= size
      ensures k <= |old(dead)|
      ensures k == |old(dead)| ==>
        unit.start == base && unit.reserved == base + size && u == old(nextId)
        && unit.end == base + if size < commitIncrement then size else commitIncrement
      ensures DeadChoice(old(dead), size, k)
      ensures k < |old(dead)| ==>
        var was := old(dead)[k].unit;
        unit.start == was.start && unit.end == was.end && unit.reserved == was.reserved
        && size <= was.end - was.start
      ensures forall j :: 0 <= j < k ==> old(dead)[j].unit.end - old(dead)[j].unit.start < size
      ensures if k == |old(dead)| then dead == old(dead)
              else u == old(dead)[k].id && dead == old(dead)[..k] + old(dead)[k + 1..]
    {
      hide OnePlace, Paged, Ledger, FreshRegion, DeadIds, FlushedIds, Disjoint;
      assert SizesSorted(dead) by { DeadSorted(units, order, toFlush, toFree, dead); }
      var i := FindDead(size);
      k := i;
      if i < |dead| {
        Revive(units, order, toFlush, toFree, dead, i);
        PagedRevive(units, dead, maxUnit, i);
        ReviveIds(units, dead, nextId, wset.size, i);
        var d := dead[i];
        u, unit := d.id, Unit(d.unit.start, d.unit.start, d.unit.end, d.unit.reserved, false, false, true);
        SameDisjoint(units, DropAt(dead, i), d.unit, unit);
        dead := DropAt(dead, i);
      } else {
        var commit := if commitIncrement > size then size else commitIncrement;
        FreshId(units, order, toFlush, toFree, dead, nextId, wset.size);
        FreshUnit(units, dead, maxUnit, base, size, commit);
        u, unit := nextId, Unit(base, base, base + commit, base + size, false, false, true);
        MoreIds(units, dead, nextId, wset.size);
        nextId := nextId + 1;
      }
    }

    /** The memory of a new unit becomes usable, and its first fragment will go to its start. */
    method InstallUnit(u: UnitId, unit: Unit)
      modifies `mem, `units, `tops, `open
      ensures View() == Opened(old(View()), u, unit)
    {
      hide RawWords;
      mem := RawWords(unit.start, unit.end) + mem;
      units, tops, open := units[u := unit], tops[u := unit.start], u;
    }

    /** fcache_create_unit, and its caller linking the unit at the front of the cache's list. */
    method CreateUnit(size: nat, base: Pc) returns (u: UnitId, ghost k: nat)
      requires Places() && maxUnit <= size && size % PAGE == 0
      requires FreshRegion(units, dead, base, size)
      requires ClosedUp(View())
      modifies `units, `tops, `open, `mem, `order, `dead, `nextId, wset`size
      ensures Valid() && order == [u] + old(order) && u !in old(units) && u in units && Blank(units[u])
      ensures units == old(units)[u := units[u]] && units[u].reserved - units[u].start >= size
      ensures k <= |old(dead)|
      ensures k == |old(dead)| ==>
        units[u].start == base && units[u].reserved == base + size
        && units[u].end == base + if size < commitIncrement then size else commitIncrement
      ensures k < |old(dead)| ==>
        var was := old(dead)[k].unit;
        units[u].start == was.start && units[u].end == was.end && units[u].reserved == was.reserved
        && size <= was.end - was.start
      ensures forall j :: 0 <= j < k ==> old(dead)[j].unit.end - old(dead)[j].unit.start < size
      ensures if k == |old(dead)| then dead == old(dead)
              else u == old(dead)[k].id && dead == old(dead)[..k] + old(dead)[k + 1..]
    {
      hide ClosedUp, Settled, OnePlace, Paged, Ledger, RawWords, FreshRegion, Elsewhere, DeadChoice, CanAdmit;
      hide Roomy;
      var unit: Unit;
      u, unit, k := PickUnit(size, base);
      assert Blank(unit) by { AdmitBlank(units, order, toFlush, toFree, dead, maxUnit, u, unit, nextId, wset.size); }
      Admit(units, order, toFlush, toFree, dead, maxUnit, u, unit, nextId, wset.size);
      OpenSettled(View(), order, u, unit);
      RoomyOpened(View(), u, unit, 2 * minHole);
      InstallUnit(u, unit);
      order := [u] + order;
      wset.size := wset.size + (unit.end - unit.start);
    }

    /** Closing the first unit before a new one is made. */
    method CloseFirst()
      requires |order| > 0 && order[0] in units
      requires Valid()
      modifies `mem, `heads, `stats, `slots, `lists, `frags, `units, `tops, `open
      ensures ClosedUp(View()) && Places() && order[0] in old(units) && RoomMade(old(View()), View())
      ensures units == old(units)[order[0] := old(units)[order[0]].(cur := old(units)[order[0]].end, full := true)]
    {
      hide Settled, OnePlace, Paged, Ledger, RoomMade, Closed, ClosedUp, Roomy;
      ghost var c0, u0 := View(), order[0];
      EndAbove(c0, order, u0);
      UnitPages(units, dead, maxUnit, u0);
      CloseUnit();
      ClosedParts(c0, View(), u0);
      PlacesStep(c0.units, u0, units[u0], order, toFlush, toFree, dead, maxUnit, nextId, wset.size);
      RoomClosed(c0, c0, View(), View(), u0);
    }

    /** The check of try_for_more_space before a new unit is made, and the oldest unit set aside if the
        working set is not to grow. */
    method MakeWay() returns (flushOldest: bool)
      requires Places() && |order| > 0
      modifies `order, `toFlush, `flushPending
      modifies wset`wsetCheck, wset`recordWset, wset`numReplaced, wset`numRegenerated
      ensures Places() && flushPending == (old(flushPending) || flushOldest)
      ensures flushOldest == W.FlushesOldest(old(wset.View()))
      ensures wset.View() == W.Decision(old(wset.View()), 0).0
      ensures order == (if flushOldest then old(order)[..|old(order)| - 1] else old(order))
      ensures toFlush == (if flushOldest then [old(order)[|old(order)| - 1]] + old(toFlush) else old(toFlush))
    {
      hide OnePlace, Paged, Ledger;
      flushOldest := false;
      if wset.finite {
        var grow := wset.CheckRegenReplaceRatio(0);
        flushOldest := !grow;
      }
      if flushOldest {
        FlushOldest(units, order, toFlush, toFree, dead);
        var n := |order| - 1;
        toFlush := [order[n]] + toFlush;
        order := order[..n];
        flushPending := true;
      }
    }

    /** The part of try_for_more_space that starts a new unit; when the working set is not growing, the
        oldest unit is set aside to be flushed. */
    method StartNext(slotSize: nat, base: Pc)
      requires FreshRegion(units, dead, base, NewUnitSize(maxUnit, slotSize)) && Places() && |order| > 0
      requires ClosedUp(View())
      modifies `mem, `units, `tops, `open, `order, `dead, `nextId, `toFlush, `flushPending, wset
      ensures Valid() && |order| > 0 && Rank(units, order, slotSize) <= 1
      ensures NewUnitIn(
        old(UnitPlaces()), UnitPlaces(), base, NewUnitSize(maxUnit, slotSize), W.FlushesOldest(old(wset.View())))
      ensures wset.View() == W.AfterNewUnit(old(wset.View()), wset.size)
      ensures wset.numReplaced == 0 && wset.numRegenerated == 0
    {
      hide Settled, OnePlace, Paged, Ledger, ClosedUp, DeadChoice, FreshRegion, Roomy, NewUnitIn, NewUnitSize, Rank;
      NewSizeOk(maxUnit, slotSize);
      ghost var r0 := UnitPlaces();
      var flushOldest := MakeWay();
      var u, k := CreateUnit(NewUnitSize(maxUnit, slotSize), base);
      wset.ResetCounters();
      RankFresh(units, order, slotSize);
      RosterGrown(r0, UnitPlaces(), base, NewUnitSize(maxUnit, slotSize), flushOldest);
    }

    /** The part of try_for_more_space that closes the first unit and starts a new one. */
    method StartNewUnit(slotSize: nat, base: Pc)
      requires FreshRegion(units, dead, base, NewUnitSize(maxUnit, slotSize)) && |order| > 0 && order[0] in units
      requires units[order[0]].end == units[order[0]].reserved
      requires Valid()
      modifies `mem, `heads, `stats, `slots, `lists, `frags, `units
      modifies `tops, `open, `order, `dead, `nextId, `toFlush, `flushPending, wset
      ensures Valid() && |order| > 0 && RoomMade(old(View()), View()) && Rank(units, order, slotSize) <= 1
      ensures NewUnitIn(
        old(UnitPlaces()), UnitPlaces(), base, NewUnitSize(maxUnit, slotSize), W.FlushesOldest(old(wset.View())))
      ensures wset.View() == W.AfterNewUnit(old(wset.View()), wset.size)
      ensures wset.numReplaced == 0 && wset.numRegenerated == 0
    {
      hide Settled, OnePlace, Paged, Ledger, RoomMade, ClosedUp, FreshRegion, Roomy, NewUnitIn, NewUnitSize, Rank;
      hide SameRoster, W.FlushesOldest, W.AfterNewUnit;
      ghost var c0, r0, s0, u0 := View(), UnitPlaces(), wset.View(), order[0];
      CloseFirst();
      ghost var c2, r2 := View(), UnitPlaces();
      FreshStill(c0.units, u0, units[u0], dead, base, NewUnitSize(maxUnit, slotSize));
      RosterStep(r0, u0, units[u0]);
      StartNext(slotSize, base);
      RosterBefore(r0, r2, UnitPlaces(), base, NewUnitSize(maxUnit, slotSize), W.FlushesOldest(s0));
      RoomSlots(c0, c2, View());
    }

    /** The part of try_for_more_space that commits more of the first unit's reservation. */
    method CommitMore(slotSize: nat) returns (fits: bool)
      requires |order| > 0 && order[0] in units && units[order[0]].end < units[order[0]].reserved
      requires Rank(units, order, slotSize) > 0
      requires Valid()
      modifies `mem, `units, wset`size
      ensures Valid() && order[0] in units && units == old(units)[order[0] := units[order[0]]]
      ensures SameHome(old(units)[order[0]], units[order[0]]) && units[order[0]].cur == old(units)[order[0]].cur
      ensures wset.size + old(units)[order[0]].end == old(wset.size) + units[order[0]].end
      ensures fits <==> old(Rank(units, order, slotSize)) == 1
      ensures fits <==> old(units)[order[0]].cur + slotSize <= old(units)[order[0]].reserved
      ensures if fits then Rank(units, order, slotSize) == 0 else units[order[0]].end == units[order[0]].reserved
    {
      hide Settled, OnePlace, Paged, Ledger, Roomy;
      ghost var c0, u := View(), order[0];
      EndAbove(c0, order, u);
      UnitPages(units, dead, maxUnit, u);
      var commit, k := CommitSize(units[order[0]], slotSize, commitIncrement);
      ExtendCommitment(commit);
      PlacesStep(c0.units, u, units[u], order, toFlush, toFree, dead, maxUnit, nextId, old(wset.size));
      LiveRefl(slots);
      RoomyUnits(c0, View(), u, 2 * minHole);
      fits := units[order[0]].cur + slotSize <= units[order[0]].end;
    }

    /** try_for_more_space on a shared cache. */
    method TryForMoreSpace(slotSize: nat, base: Pc)
      requires |order| > 0 && 0 < slotSize && Rank(units, order, slotSize) > 0
      requires Rank(units, order, slotSize) == 2 ==> FreshRegion(units, dead, base, NewUnitSize(maxUnit, slotSize))
      requires Valid()
      modifies `mem, `heads, `stats, `slots, `lists, `frags, `units
      modifies `tops, `open, `order, `dead, `nextId, `toFlush, `flushPending, wset
      ensures Valid() && |order| > 0 && RoomMade(old(View()), View())
      ensures SpaceMade(old(UnitPlaces()), old(wset.View()), UnitPlaces(), wset.View(), slotSize, base, maxUnit)
    {
      hide Settled, OnePlace, Paged, Ledger, RoomMade, FreshRegion, Roomy, SameRoster, NewUnitIn, SpaceMade;
      hide W.FlushesOldest, W.AfterNewUnit;
      ghost var c0, r0, s0, u := View(), UnitPlaces(), wset.View(), order[0];
      EndAbove(c0, order, u);
      if units[order[0]].end < units[order[0]].reserved {
        var fits := CommitMore(slotSize);
        RoomSame(c0, View());
        RosterStep(r0, u, units[u]);
        if fits {
          SpaceCommitted(r0, s0, UnitPlaces(), wset.View(), slotSize, base, maxUnit);
          return;
        }
        FreshStill(c0.units, u, units[u], dead, base, NewUnitSize(maxUnit, slotSize));
      } else {
        RosterSame(r0);
      }
      ghost var c1, r1 := View(), UnitPlaces();
      assert wset.View() == AtDecision(r0, s0);
      hide AtDecision;
      StartNewUnit(slotSize, base);
      SpaceOpened(r0, s0, r1, UnitPlaces(), wset.View(), slotSize, base, maxUnit);
      RoomAfter(c0, c1, View());
    }

    /** The first two steps of add_fragment_common: a free slot, or the end of the first unit. */
    method AddInPlace(f: FragId, slotSize: nat) returns (ok: bool, ghost at: Pc)
      requires |order| > 0 && Request(View(), f, slotSize)
      requires Valid()
      modifies `mem, `heads, `stats, `slots, `lists, `frags, `units, `tops
      ensures Valid() && (ok <==> HasRoom(old(slots), slotSize) || old(Rank(units, order, slotSize)) == 0)
      ensures ok ==> Landed(old(View()), View(), f, at, slotSize) && SameRoster(old(UnitPlaces()), UnitPlaces())
      ensures !ok ==> View() == old(View())
      ensures order[0] in old(units) && var was := old(units)[order[0]];
        ok <==>
          || (exists p :: p in old(slots) && old(slots)[p].kind.Free? && slotSize <= old(slots)[p].size)
          || (!was.full && was.end - was.cur >= slotSize)
      ensures HasRoom(old(slots), slotSize) ==> Taken(old(View()), View(), old(order), at, slotSize, f)
      ensures ok && !HasRoom(old(slots), slotSize) ==> at == old(units[order[0]].cur)
    {
      hide Settled, Steady, Taken, OnePlace, Paged, Ledger, Landed, Request, HasRoom, Roomy, SameRoster;
      ghost var c0, r0, u := View(), UnitPlaces(), order[0];
      SettledSteady(c0, order);
      RequestSize(c0, f, slotSize);
      RosterSame(r0);
      EndAbove(c0, order, u);
      UnitPages(units, dead, maxUnit, u);
      ok, at := FindFreeListSlot(f, slotSize);
      if ok {
        TakenLanded(c0, View(), order, at, slotSize, f);
        RoomyTaken(c0, View(), order, at, slotSize, f, order[0], 2 * minHole);
        return;
      }
      if !units[order[0]].full && units[order[0]].end - units[order[0]].cur >= slotSize {
        RoomyEnd(c0, u, 2 * minHole);
        at := AppendFragment(f, slotSize);
        RoomyLanded(c0, View(), f, at, slotSize, u, 2 * minHole);
        PlacesStep(c0.units, u, units[u], order, toFlush, toFree, dead, maxUnit, nextId, wset.size);
        RosterStep(r0, u, units[u]);
        ok := true;
      }
    }

    /** add_fragment_common on a shared fine-grained cache.  It recurs at most twice: into a new
        unit, and then into more committed space of that unit. */
    method AddFragmentCommon(f: FragId, slotSize: nat, base: Pc) returns (ghost at: Pc, ghost calls: nat)
      requires |order| > 0 && Request(View(), f, slotSize)
      requires Rank(units, order, slotSize) == 2 ==> FreshRegion(units, dead, base, NewUnitSize(maxUnit, slotSize))
      requires Valid()
      modifies `mem, `heads, `stats, `slots, `lists, `frags, `units
      modifies `tops, `open, `order, `dead, `nextId, `toFlush, `flushPending, wset
      ensures Valid() && Landed(old(View()), View(), f, at, slotSize)
      ensures Grows(old(UnitPlaces()), old(wset.View()), UnitPlaces(), wset.View(), old(slots), slotSize, base, maxUnit)
      ensures calls <= old(Rank(units, order, slotSize)) <= 2
      ensures !HasRoom(old(slots), slotSize) && old(Rank(units, order, slotSize)) == 0 ==>
        at == old(units[order[0]].cur)
      ensures HasRoom(old(slots), slotSize) ==> Taken(old(View()), View(), old(order), at, slotSize, f)
      ensures calls > 0 <==> !HasRoom(old(slots), slotSize) && old(Rank(units, order, slotSize)) > 0
      decreases Rank(units, order, slotSize)
    {
      hide Settled, Taken, OnePlace, Paged, Ledger, RoomMade, FreshRegion, Landed, Request, HasRoom, Roomy;
      hide SameRoster, Grows, SameButSize, SpaceMade;
      ghost var c0, r0, s0 := View(), UnitPlaces(), wset.View();
      calls := 0;
      EndAbove(c0, order, order[0]);
      RequestSize(c0, f, slotSize);
      var ok;
      ok, at := AddInPlace(f, slotSize);
      if ok {
        SizeSame(s0);
        GrowsSame(r0, s0, UnitPlaces(), wset.View(), c0.slots, slotSize, base, maxUnit);
        return;
      }
      TryForMoreSpace(slotSize, base);
      ghost var c1, r1, s1 := View(), UnitPlaces(), wset.View();
      StillRequested(c0, c1, f, slotSize);
      SpaceRank(r0, s0, r1, s1, slotSize, base, maxUnit);
      at, calls := AddFragmentCommon(f, slotSize, base);
      LandedLater(c0, c1, View(), f, at, slotSize);
      calls := calls + 1;
      GrowsLater(r0, s0, r1, s1, UnitPlaces(), wset.View(), c0.slots, c1.slots, slotSize, base, maxUnit);
    }

    /** fcache_add_fragment.  The placement is counted as the last thing; regenerated says that the
        fragment had been deleted before. */
    method AddFragment(f: FragId, base: Pc, regenerated: bool) returns (ghost at: Pc, ghost calls: nat)
      requires IsAlign(align) && f in frags && Homeless(slots, f) && !frags[f].flags.freeList
      requires !frags[f].flags.followsFree
      requires FreshRegion(units, dead, base, NewUnitSize(maxUnit, SlotSize(frags[f].size, align)))
      requires Valid()
      modifies `mem, `heads, `stats, `slots, `lists, `frags, `units
      modifies `tops, `open, `order, `dead, `nextId, `toFlush, `flushPending, wset
      ensures Valid() && Landed(old(View()), View(), f, at, SlotSize(old(frags)[f].size, align)) && calls <= 2
      ensures LeastSlot(SlotSize(old(frags)[f].size, align), old(frags)[f].size, align)
      ensures at in slots && slots[at].kind == Live(f) && slots[at].size >= SlotSize(old(frags)[f].size, align)
      ensures f in frags && frags[f].startPc == at + 8 && frags[f].size == old(frags)[f].size
      ensures forall p :: p in old(slots) && old(slots)[p].kind.Live? ==> p in slots && slots[p] == old(slots)[p]
      ensures GrowsPlacing(
        old(UnitPlaces()), old(wset.View()), UnitPlaces(), wset.View(), old(slots), SlotSize(old(frags)[f].size, align),
        base, maxUnit, regenerated)
      ensures |order| > 0 && order[0] in units
      ensures var n := if order[0] in old(units) then old(wset.numReplaced) else 0;
        wset.numReplaced == n + if wset.recordWset then 1 else 0
      ensures var n := if order[0] in old(units) then old(wset.numRegenerated) else 0;
        wset.numRegenerated == n + if wset.recordWset && regenerated then 1 else 0
    {
      hide Settled, OnePlace, Paged, Ledger, FreshRegion, Landed, Request, Homeless, SlotSize, NewUnitSize, Roomy;
      hide Grows, LeastSlot;
      ghost var c0 := View();
      SettledSteady(c0, order);
      SlotSizeLeast(frags[f].size, align);
      var slotSize := SlotSize(frags[f].size, align);
      PrepareRequest(c0, f, slotSize);
      PrepareSettled(c0, order, f, Prepared(frags[f], slotSize));
      frags := frags[f := Prepared(frags[f], slotSize)];
      LiveRefl(slots);
      RoomyUnits(c0, View(), order[0], 2 * minHole) by { RoomyEnd(c0, order[0], 2 * minHole); }
      ghost var c1, r0, s0 := View(), UnitPlaces(), wset.View();
      at, calls := AddFragmentCommon(f, slotSize, base);
      ghost var s := wset.View();
      EndAbove(View(), order, order[0]);
      GrowsCounters(r0, s0, UnitPlaces(), s, c1.slots, slotSize, base, maxUnit);
      wset.CountPlacement(regenerated);
      LandedPrepared(c0, c1, View(), f, c1.frags[f], at, slotSize);
      LandedMeans(c0, View(), f, at, slotSize);
      assert wset.View() == W.Placed(s, regenerated);
    }

    /** fcache_fragment_pclookup: the fragment whose body holds pc, found by walking the unit that
        reserves pc; the answer is that of a search over all live fragments.  It reads the unit's cache;
        false stands for a cache that is NULL, which is the program's failure. */
    method PcLookup(pc: Pc) returns (ok: bool, found: Option<FragId>, ghost at: Pc)
      requires forall u :: u in units && Reserves(units[u], pc) ==> WalkableTo(View(), u, pc)
      requires Valid()
      ensures ok <==> forall u :: u in units && units[u].start <= pc < units[u].reserved ==> units[u].attached
      ensures !ok ==> found.None?
      ensures found.Some? ==> Owner(View(), at, pc) && slots[at].kind == Live(found.value)
      ensures found.Some? ==> forall x {:trigger Owner(View(), x, pc)} :: Owner(View(), x, pc) ==> x == at
      ensures ok && found.None? ==> forall x {:trigger Owner(View(), x, pc)} :: !Owner(View(), x, pc)
      ensures found.Some? ==>
        && at in slots && slots[at].kind == Live(found.value) && found.value in frags
        && frags[found.value].startPc <= pc < frags[found.value].startPc + frags[found.value].size
      ensures ok && found.None? ==>
        forall p :: p in slots && slots[p].kind.Live? && slots[p].kind.f in frags ==>
          var f := frags[slots[p].kind.f]; pc < f.startPc || f.startPc + f.size <= pc
    {
      hide Inv, Settled, OnePlace, Paged, Ledger, Roomy, Seeking, Owner, UnitsOk, IsPtr, DerefOk, IsFreeList;
      hide WalkableTo;
      hide FragSize;
      ok, found, at := true, None, 0;
      AllUnitsOk(View(), order);
      var unit := LookupUnit(pc);
      if unit == None {
        assert forall u :: u in units ==> !Reserves(units[u], pc);
        NoUnitNoOwner(View(), order, pc);
        NobodyHas(View(), pc);
        return;
      }
      var u := unit.value;
      ok := units[u].attached;
      if !ok {
        return;
      }
      var q := units[u].start;
      SeekStart(View(), order, u, pc);
      while q < units[u].cur && q < pc
        invariant Seeking(View(), order, u, pc, q)
        decreases units[u].cur - q
      {
        SeekRead(View(), order, u, pc, q);
        var f := LoadPtr(mem, q);
        if IsFreeList(mem, frags, f) {
          NotOwner(View(), q, pc);
          SeekNext(View(), order, u, pc, q);
          q := q + mem[q + SIZE_AT].n;
        } else if InBody(frags[f.id], pc) {
          found, at := Some(f.id), q;
          OwnerFound(View(), order, q, pc);
          OwnerIs(View(), q, pc);
          return;
        } else {
          NotOwner(View(), q, pc);
          SeekNext(View(), order, u, pc, q);
          q := q + FragSize(frags[f.id]);
        }
      }
      SeekDone(View(), order, u, pc, q);
      NobodyHas(View(), pc);
    }

    /** chain_fragments_for_flush: walk the unit through its in-band headers, taking free slots off
        their lists and collecting the fragments. */
    method ChainFragments(u: UnitId, lazy: set<FragId>) returns (chain: seq<FragId>)
      requires |order| > 0 && u in units && u != order[0] && units[u].pendingFree
      requires Walking(View(), order, u, units[u].start)
      modifies `mem, `heads, `stats, `slots, `lists
      ensures Settled(View(), order) && SameLive(old(slots), slots)
      ensures ChainTo(slots, frags, lazy, u, units[u].cur, chain) && InOrder(frags, chain, units[u].cur)
    {
      hide Inv, Walking, Settled, IsPtr, DerefOk, IsFreeList, Bucket, SameLive, ChainTo, IsDetached, ListedAs, FragSize;
      hide HdrStart, InOrder;
      var pc := units[u].start;
      chain := [];
      WalkFacts(View(), order, u, pc);
      ChainStart(View(), lazy, u, pc);
      LiveRefl(slots);
      assert InOrder(frags, chain, pc) by { NoneInOrder(frags, pc); }
      while pc < units[u].cur
        invariant pc <= units[u].cur && Walking(View(), order, u, pc)
        invariant SameLive(old(slots), slots) && ChainTo(slots, frags, lazy, u, pc, chain) && InOrder(frags, chain, pc)
        decreases units[u].cur - pc
      {
        WalkRead(View(), order, u, pc);
        WalkFacts(View(), order, u, pc);
        var f := LoadPtr(mem, pc);
        if IsFreeList(mem, frags, f) {
          ghost var c := View();
          var size := mem[pc + SIZE_AT].n;
          var bucket := FindFreeListBucket(size);
          ghost var k := FreeEntry(c, pc);
          assert ListedAs(c, bucket, k, pc) by { ListedIs(c, bucket, k, pc); }
          RemoveFromFreeList(bucket, pc, false, k);
          WalkFree(c, View(), order, u, pc, bucket, k);
          slots := SetKind(slots, pc, Lost);
          ChainFree(c.slots, slots, frags, lazy, u, pc, chain);
          LiveAgain(old(slots), c.slots, slots);
          OrderOn(frags, chain, pc, pc + size);
          pc := pc + size;
        } else {
          WalkLive(View(), order, u, pc);
          ChainLive(slots, frags, lazy, u, pc, chain);
          OrderMore(frags, chain, pc, f.id, pc + FragSize(frags[f.id]));
          if !frags[f.id].flags.wasDeleted || f.id in lazy {
            chain := chain + [f.id];
          }
          pc := pc + FragSize(frags[f.id]);
        }
      }
      WalkDone(View(), order, u);
    }

    /** One unit of fcache_flush_pending_units: marked so that fragments freed later go on no list,
        then walked. */
    method FlushUnit(u: UnitId, lazy: set<FragId>) returns (chain: seq<FragId>)
      requires |order| > 0 && u in units && u != order[0] && !units[u].pendingFree
      requires Settled(View(), order)
      modifies `mem, `heads, `stats, `slots, `lists, `units
      ensures Settled(View(), order) && SameLive(old(slots), slots)
      ensures u in units && units == old(units)[u := old(units)[u].(pendingFree := true)]
      ensures ChainTo(slots, frags, lazy, u, units[u].cur, chain) && InOrder(frags, chain, units[u].cur)
    {
      hide Settled, Walking, SameLive, ChainTo, InOrder;
      WalkStart(View(), order, u);
      units := units[u := units[u].(pendingFree := true)];
      chain := ChainFragments(u, lazy);
    }

    /** The walk of fcache_flush_pending_units over the units taken off the to-flush list. */
    method FlushAll(local: seq<UnitId>, lazy: set<FragId>) returns (chain: seq<FragId>)
      requires OnePlaceBut(units, order, local, toFree, dead, local[..0]) && AllDistinct(local)
      requires Paged(units, dead, maxUnit) && Ledger(units, dead, nextId, wset.size)
      requires |order| > 0 && Roomy(View(), order[0], 2 * minHole)
      requires Settled(View(), order)
      modifies `mem, `heads, `stats, `slots, `lists, `units
      ensures Settled(View(), order) && SameLive(old(slots), slots) && units == AllPending(old(units), local)
      ensures OnePlaceBut(units, order, local, toFree, dead, local) && Paged(units, dead, maxUnit)
      ensures Ledger(units, dead, nextId, wset.size)
      ensures Roomy(View(), order[0], 2 * minHole) && ChainAll(slots, frags, lazy, local, chain)
    {
      hide Settled, SameLive, ChainTo, ChainAll, InOrder, OnePlaceBut, Paged, Ledger, Roomy, AllPending, AllDistinct;
      hide FragsOk;
      ghost var c0 := View();
      chain := [];
      LiveRefl(slots);
      EndAbove(View(), order, order[0]);
      NoChain(slots, frags, lazy);
      NonePending(units, local);
      var i := 0;
      while i < |local|
        invariant i <= |local| && ChainAll(slots, frags, lazy, local[..i], chain)
        invariant units == AllPending(c0.units, local[..i])
        invariant order[0] in units && units[order[0]] == old(units)[order[0]]
        invariant i <= |local| && Settled(View(), order) && SameLive(old(slots), slots)
        invariant OnePlaceBut(units, order, local, toFree, dead, local[..i]) && Paged(units, dead, maxUnit)
        invariant Ledger(units, dead, nextId, wset.size)
      {
        ghost var units0, slots0 := units, slots;
        FlushStep(units, order, local, toFree, dead, i);
        PendingNext(c0.units, local, i);
        var more := FlushUnit(local[i], lazy);
        LiveBelowCur(View(), order, local[i]);
        ChainJoin(slots0, slots, frags, lazy, local[..i], chain, local[i], units[local[i]].cur, more);
        assert local[..i] + [local[i]] == local[..i + 1];
        chain := chain + more;
        LiveAgain(old(slots), slots0, slots);
        FlushKeeps(units0, units, order, local, toFree, dead, maxUnit, nextId, wset.size, i);
        i := i + 1;
      }
      assert local[..|local|] == local;
      RoomyUnits(c0, View(), order[0], 2 * minHole);
    }

    /** append_units_to_free_list: the chain goes to the end of the to-free list, and every unit of it
        but the last loses its cache, whose size shrinks accordingly. */
    method AppendUnitsToFreeList(local: seq<UnitId>, flushtime: nat)
      requires |order| > 0 && order[0] !in local && (forall i :: 0 <= i < |local| ==> local[i] in units)
      requires Roomy(View(), order[0], 2 * minHole) && Ledger(units, dead, nextId, wset.size)
      requires Settled(View(), order)
      modifies `units, `toFree, wset`size
      ensures Settled(View(), order) && Roomy(View(), order[0], 2 * minHole) && Ledger(units, dead, nextId, wset.size)
      ensures units == Detaching(old(units), local, if |local| == 0 then 0 else |local| - 1)
      ensures toFree == old(toFree) + Stamped(local, flushtime)
    {
      hide Settled, Roomy, Detaching, Stamped, Ledger;
      NoneDetached(units, local);
      toFree := toFree + Stamped(local, flushtime);
      var i := 0;
      while i + 1 < |local|
        invariant i <= |local| && (i > 0 ==> i < |local|) && units == Detaching(old(units), local, i)
        invariant toFree == old(toFree) + Stamped(local, flushtime)
        invariant Settled(View(), order) && Roomy(View(), order[0], 2 * minHole)
        invariant Ledger(units, dead, nextId, wset.size)
      {
        DetachNext(old(units), local, i);
        DetachSettled(View(), order, local[i], 2 * minHole);
        LedgerStep(units, local[i], units[local[i]].(attached := false), dead, nextId, wset.size);
        if units[local[i]].attached {
          wset.size := wset.size - (units[local[i]].end - units[local[i]].start);
          units := units[local[i] := units[local[i]].(attached := false)];
        } else {
          assert units == units[local[i] := units[local[i]].(attached := false)];
        }
        i := i + 1;
      }
    }

    /** fcache_flush_pending_units: every unit waiting to be flushed is walked, stamped with the
        flushtime and put at the end of the to-free list; all but the last of them lose their cache. */
    method FlushPendingUnits(flushtime: nat, lazy: set<FragId>) returns (chain: seq<FragId>)
      requires forall i :: 0 <= i < |toFree| ==> toFree[i].stamp <= flushtime
      requires Valid()
      modifies `mem, `heads, `stats, `slots, `lists, `units, `toFlush, `toFree, `flushPending, wset`size
      ensures Valid() && SameLive(old(slots), slots) && !flushPending
      ensures old(flushPending) ==> ChainAll(slots, frags, lazy, old(toFlush), chain)
      ensures old(flushPending) ==> units == ChainFlushed(old(units), old(toFlush))
      ensures !old(flushPending) ==>
        toFlush == old(toFlush) && toFree == old(toFree) && units == old(units) && chain == []
      ensures forall i, j :: 0 <= i < j < |chain| ==> chain[i] != chain[j]
      ensures forall f :: f in chain ==> f in frags && (!frags[f].flags.wasDeleted || f in lazy)
      ensures forall f :: f in chain ==>
        exists p :: p in slots && slots[p].kind == Live(f) && slots[p].unit in old(toFlush)
      ensures old(flushPending) ==>
        forall p ::
          p in slots && slots[p].kind.Live? && slots[p].unit in old(toFlush) && slots[p].kind.f in frags ==>
          !frags[slots[p].kind.f].flags.wasDeleted || slots[p].kind.f in lazy ==> slots[p].kind.f in chain
      ensures old(flushPending) ==>
        && toFlush == [] && |toFree| == |old(toFree)| + |old(toFlush)| && toFree[..|old(toFree)|] == old(toFree)
        && forall i :: 0 <= i < |old(toFlush)| ==>
            toFree[|old(toFree)| + i] == Flushed(old(toFlush)[i], flushtime)
    {
      hide Settled, SameLive, ChainAll, OnePlace, OnePlaceBut, Paged, Ledger, Stamped, Roomy, AllPending, Detaching;
      hide ChainFlushed, AllDistinct;
      chain := [];
      LiveRefl(slots);
      if !flushPending {
        return;
      }
      flushPending := false;
      var local := toFlush;
      ghost var units0, toFree0 := units, toFree;
      toFlush := [];
      ChainKnown(units, order, local, toFree, dead);
      FlushBegin(units, order, local, toFree, dead);
      chain := FlushAll(local, lazy);
      ghost var units1 := units;
      PendingKeys(units0, local);
      AppendUnitsToFreeList(local, flushtime);
      DetachAll(units0, local);
      StampedIs(toFree0, local, flushtime, toFree);
      ChainMeans(slots, frags, lazy, local, chain);
      ChainPlaces(units0, units1, units, order, local, toFree[..|old(toFree)|], dead, maxUnit, flushtime);
    }

    /** Unit u and its slots are no more. */
    method ForgetUnit(u: UnitId)
      modifies `units, `tops, `slots
      ensures View() == Dropped(old(View()), u)
    {
      units, tops, slots := units - {u}, tops - {u}, WithoutUnit(slots, u);
    }

    /** The first unit to be freed leaves its list and its cache, and is kept on the dead list unless
        there are enough. */
    method DropUnit(numThreads: nat)
      requires |toFree| > 0 && Emptied(slots, toFree[0].id)
      requires Valid()
      modifies `units, `tops, `slots, `toFree, `dead, wset`size
      ensures Valid() && UnitGone(old(View()), View(), old(toFree), toFree, old(dead), dead, numThreads)
      ensures |dead| == |old(dead)| + if KeepsDead(|old(dead)|, numThreads) then 1 else 0
    {
      hide Settled, Emptied, SameLive, OnePlace, Paged, Ledger, DeadAfter, WithoutUnit, Roomy, KeepsDead;
      hide UnitGone, Dropped;
      ghost var c0, toFree0, dead0, size0 := View(), toFree, dead, wset.size;
      FirstKnown(units, order, toFlush, toFree, dead);
      var u := toFree[0].id;
      LedgerShare(units, u, dead, maxUnit, nextId, wset.size);
      if units[u].attached {
        wset.size := wset.size - (units[u].end - units[u].start);
      }
      dead, toFree := DeadAfter(dead, u, units[u], numThreads), toFree[1..];
      ForgetUnit(u);
      DropDone(
        c0, View(), order, toFlush, toFree0, toFree, dead0, dead, maxUnit, nextId, size0, numThreads, 2 * minHole);
    }

    /** One unit of fcache_free_pending_units: it becomes dead and reusable, unless enough dead units
        are kept already.  Becoming dead reads the unit's cache, and so do builds with statistics in any
        case; false stands for a cache that is NULL, which is the program's failure. */
    method FreeUnit(numThreads: nat, statistics: bool) returns (ok: bool)
      requires |toFree| > 0 && Emptied(slots, toFree[0].id)
      requires Valid()
      modifies `units, `tops, `slots, `toFree, `dead, wset`size
      ensures Valid() && old(toFree)[0].id in old(units)
      ensures ok <==>
        || old(units)[old(toFree)[0].id].attached
        || (!statistics && |old(dead)| >= 5 && 4 * |old(dead)| > numThreads)
      ensures ok ==> |dead| == |old(dead)| + if |old(dead)| < 5 || 4 * |old(dead)| <= numThreads then 1 else 0
      ensures !ok ==> View() == old(View()) && toFree == old(toFree) && dead == old(dead)
      ensures ok ==> UnitGone(old(View()), View(), old(toFree), toFree, old(dead), dead, numThreads)
    {
      hide Settled, Emptied, SameLive, OnePlace, Paged, Ledger, UnitGone, Roomy;
      FirstKnown(units, order, toFlush, toFree, dead);
      var u := toFree[0].id;
      ok := units[u].attached || (!statistics && !KeepsDead(|dead|, numThreads));
      if ok {
        DropUnit(numThreads);
      }
    }

    /** fcache_free_pending_units: the units stamped at or before the flushtime, which are a prefix
        of the list, are freed; their fragments are gone by then.  It fails at the first of them whose
        cache is NULL and is read. */
    method FreePendingUnits(flushtime: nat, numThreads: nat, statistics: bool) returns (ok: bool, ghost n: nat)
      requires forall i :: 0 <= i < |toFree| && toFree[i].stamp <= flushtime ==> Emptied(slots, toFree[i].id)
      requires Valid()
      modifies `units, `tops, `slots, `toFree, `dead, wset`size
      ensures Valid() && SameLive(old(slots), slots)
      ensures n <= |old(toFree)| && toFree == old(toFree)[n..]
      ensures ok <==> forall i :: 0 <= i < |old(toFree)| && old(toFree)[i].stamp <= flushtime ==>
        CanFreeAt(old(units), old(toFree), old(|dead|), numThreads, statistics, i)
      ensures ok ==> forall i :: 0 <= i < |old(toFree)| ==> (i < n <==> old(toFree)[i].stamp <= flushtime)
      ensures units == SurvivingUnits(old(units), FlushedIds(old(toFree)[..n]))
      ensures DeadOnly(old(dead), dead, FlushedIds(old(toFree)[..n]))
      ensures var most := 1 + if numThreads / 4 > 4 then numThreads / 4 else 4;
        |dead| == if |old(dead)| >= most then |old(dead)| else if |old(dead)| + n <= most then |old(dead)| + n else most
    {
      hide Settled, Emptied, SameLive, Paged, Ledger, WithoutUnit, DeadAfter, OnePlace, Roomy;
      hide SurvivingUnits, DeadOnly, DeadCount, CanFreeAt, KeepsDead, UnitGone;
      n := 0;
      DeadCountNext(|dead|, 0, numThreads);
      LiveRefl(slots);
      NoneFreed(units, toFree);
      assert DeadOnly(dead, dead, FlushedIds(toFree[..0])) by { SameDead(dead, FlushedIds(toFree[..0])); }
      assert toFree == old(toFree)[0..];
      while |toFree| > 0 && toFree[0].stamp <= flushtime
        invariant n <= |old(toFree)| && toFree == old(toFree)[n..] && Valid() && SameLive(old(slots), slots)
        invariant forall i :: 0 <= i < n ==>
          old(toFree)[i].stamp <= flushtime
          && CanFreeAt(old(units), old(toFree), old(|dead|), numThreads, statistics, i)
        invariant forall i :: 0 <= i < |toFree| && toFree[i].stamp <= flushtime ==> Emptied(slots, toFree[i].id)
        invariant units == SurvivingUnits(old(units), FlushedIds(old(toFree)[..n]))
        invariant DeadOnly(old(dead), dead, FlushedIds(old(toFree)[..n]))
        invariant |dead| == DeadCount(old(|dead|), n, numThreads)
        decreases |toFree|
      {
        ghost var c, toFree0, dead0 := View(), toFree, dead;
        ok := FreeUnit(numThreads, statistics);
        StillThere(old(units), old(toFree), n);
        TurnIs(old(units), old(toFree), old(|dead|), numThreads, statistics, n, |dead0|);
        if !ok {
          DeadCountIs(old(|dead|), n, numThreads);
          return;
        }
        FreedStep(
          old(units), old(dead), old(toFree), n, c, View(), toFree0, toFree, dead0, dead, numThreads, flushtime);
        LiveAgain(old(slots), c.slots, slots);
        n := n + 1;
      }
      StampedPrefix(units, order, toFlush, toFree, dead, flushtime);
      DeadCountIs(old(|dead|), n, numThreads);
      ok := true;
    }
  }
}
