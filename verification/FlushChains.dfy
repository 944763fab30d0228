/** What becomes of units that are flushed together.  append_units_to_free_list clears the cache field of
    every unit of the chain but the last, and removing a fragment from a unit, or keeping the unit as a
    dead one, reads that field: only the last unit of a chain survives both. */
module FlushChains {
  import opened Memory
  import opened Alignment
  import opened Layout
  import opened Coalescing
  import opened SharedModel
  import opened CacheFacts
  import opened Placing
  import opened Removing
  import opened Growing
  import opened Lifecycle
  import opened Flushing
  import opened Requests
  import opened SharedCaches
  import W = WorkingSet

  /** A flushed unit still has its cache exactly when it was the last of its chain; nothing else of it
      changes but that it waits to be freed, and no other unit does. */
  lemma LastKeepsCache(units: Units, chain: seq<UnitId>, i: nat)
    requires AllDistinct(chain) && i < |chain| && chain[i] in units
    ensures chain[i] in ChainFlushed(units, chain)
    ensures ChainFlushed(units, chain)[chain[i]].attached <==> i == |chain| - 1
    ensures var x := units[chain[i]];
      ChainFlushed(units, chain)[chain[i]] == Unit(x.start, x.cur, x.end, x.reserved, x.full, true, i == |chain| - 1)
    ensures ChainFlushed(units, chain).Keys == units.Keys
    ensures forall u :: u in units && u !in chain ==> ChainFlushed(units, chain)[u] == units[u]
  {
  }

  /** All units of a chain keep their cache exactly when there is at most one. */
  lemma ChainKeepsCache(units: Units, chain: seq<UnitId>)
    requires AllDistinct(chain) && forall i :: 0 <= i < |chain| ==> chain[i] in units
    ensures (forall i :: 0 <= i < |chain| ==> ChainFlushed(units, chain)[chain[i]].attached) <==> |chain| <= 1
  {
    forall i | 0 <= i < |chain| ensures ChainFlushed(units, chain)[chain[i]].attached <==> i == |chain| - 1 {
      LastKeepsCache(units, chain, i);
    }
    assert |chain| > 1 ==> !ChainFlushed(units, chain)[chain[0]].attached;
  }

  lemma WaitingUnits(c: Core, order: seq<UnitId>, toFlush: seq<UnitId>, toFree: seq<Flushed>, dead: seq<Dead>)
    requires OnePlace(c.units, order, toFlush, toFree, dead)
    ensures AllDistinct(toFlush)
    ensures forall i :: 0 <= i < |toFlush| ==> toFlush[i] in c.units && c.units[toFlush[i]].attached
  {
    ChainKnown(c.units, order, toFlush, toFree, dead);
  }

  /** After a flush a fragment of a flushed unit can be removed exactly when its unit was the last of
      the chain. */
  method FlushThenRemove(
    c: SharedCache, flushtime: nat, lazy: set<FragId>, f: FragId, ghost p: Pc, ghost i: nat) returns (ok: bool)
    requires c.flushPending && i < |c.toFlush| && LivesAt(c.View(), f, p) && c.slots[p].unit == c.toFlush[i]
    requires forall k :: 0 <= k < |c.toFree| ==> c.toFree[k].stamp <= flushtime
    requires c.Valid()
    modifies c, c.wset
    ensures c.Valid() && (ok <==> i == |old(c.toFlush)| - 1)
  {
    hide Settled, OnePlace, Paged, Ledger, Roomy, ChainAll, Stamped, ChainFlushed, Removed;
    ghost var units0, chain0 := c.units, c.toFlush;
    WaitingUnits(c.View(), c.order, c.toFlush, c.toFree, c.dead);
    LastKeepsCache(units0, chain0, i);
    var chain := c.FlushPendingUnits(flushtime, lazy);
    assert IsLive(c.slots, p);
    ok := c.RemoveFragment(f, p);
  }

  /** Freeing the units that wait to be freed and those flushed now, none of which holds a fragment any
      more, succeeds exactly when it does for the former and either at most one was flushed now or nothing
      reads the caches of the others: enough dead units are kept by then and no statistics. */
  method FlushThenFree(c: SharedCache, flushtime: nat, lazy: set<FragId>, numThreads: nat, statistics: bool)
    returns (ok: bool)
    requires c.flushPending && forall i :: 0 <= i < |c.toFree| ==> c.toFree[i].stamp <= flushtime
    requires forall p :: IsLive(c.slots, p) ==> c.slots[p].unit !in c.toFlush + FlushedIds(c.toFree)
    requires c.Valid()
    modifies c, c.wset
    ensures c.Valid()
    ensures ok <==>
      && AllFreeable(old(c.units), old(c.toFree), |old(c.dead)|, numThreads, statistics)
      && (|| |old(c.toFlush)| <= 1
          || (&& !statistics && |old(c.dead)| + |old(c.toFree)| >= 5
              && 4 * (|old(c.dead)| + |old(c.toFree)|) > numThreads))
  {
    hide Settled, OnePlace, Paged, Ledger, Roomy, ChainAll, ChainFlushed, SurvivingUnits, DeadOnly;
    hide CanFreeAt, AllDistinct, AllFreeable;
    ghost var units0, chain0, toFree0, count := c.units, c.toFlush, c.toFree, |c.dead|;
    WaitingUnits(c.View(), c.order, c.toFlush, c.toFree, c.dead);
    ApartFromChain(units0, c.order, chain0, toFree0, c.dead);
    var chain := c.FlushPendingUnits(flushtime, lazy);
    ghost var units1, toFree1 := c.units, c.toFree;
    StampedIs(toFree0, chain0, flushtime, toFree1);
    forall i | 0 <= i < |toFree1| && toFree1[i].stamp <= flushtime ensures Emptied(c.slots, toFree1[i].id) {
      FlushedEmpty(c.View(), c.order, toFree1, c.dead, i, toFree0, chain0, flushtime);
    }
    ghost var n;
    ok, n := c.FreePendingUnits(flushtime, numThreads, statistics);
    ChainFreed(units0, toFree0, chain0, flushtime, count, numThreads, statistics);
    assert ok <==> AllFreeable(units1, toFree1, count, numThreads, statistics) by {
      FreeableNow(units1, toFree1, count, numThreads, statistics, flushtime);
    }
  }

  ghost predicate AllFreeable(units: Units, toFree: seq<Flushed>, count: nat, numThreads: nat, statistics: bool) {
    forall i :: 0 <= i < |toFree| ==> CanFreeAt(units, toFree, count, numThreads, statistics, i)
  }

  /** The units freed first keep what they had; of the chain behind them all but the last lost it. */
  lemma ChainFreed(
    units: Units, toFree: seq<Flushed>, chain: seq<UnitId>, stamp: nat, count: nat, numThreads: nat, statistics: bool)
    requires AllDistinct(chain) && forall i :: 0 <= i < |chain| ==> chain[i] in units
    requires forall i :: 0 <= i < |toFree| ==> toFree[i].id !in chain
    ensures AllFreeable(ChainFlushed(units, chain), toFree + Stamped(chain, stamp), count, numThreads, statistics) <==>
      && AllFreeable(units, toFree, count, numThreads, statistics)
      && (|chain| <= 1 || (!statistics && !KeepsDead(count + |toFree|, numThreads)))
  {
    hide ChainFlushed, AllDistinct, AllFreeable, CanFreeAt;
    var units', all, n := ChainFlushed(units, chain), toFree + Stamped(chain, stamp), |toFree|;
    var spared := !statistics && !KeepsDead(count + n, numThreads);
    forall i | 0 <= i < n
      ensures CanFreeAt(units', all, count, numThreads, statistics, i) <==>
              CanFreeAt(units, toFree, count, numThreads, statistics, i)
    {
      OtherFreeable(units, toFree, chain, stamp, count, numThreads, statistics, i);
    }
    forall i | n <= i < |all| && (i == |all| - 1 || spared)
      ensures CanFreeAt(units', all, count, numThreads, statistics, i)
    {
      ChainFreeable(units, toFree, chain, stamp, count, numThreads, statistics, i - n);
      if KeepsDead(count + i, numThreads) { KeepsFewer(count + n, count + i, numThreads); }
    }
    if |chain| > 1 { ChainFreeable(units, toFree, chain, stamp, count, numThreads, statistics, 0); }
    FreeableJoined(units, units', toFree, all, count, numThreads, statistics, |chain|, spared);
  }

  lemma OtherFreeable(
    units: Units, toFree: seq<Flushed>, chain: seq<UnitId>, stamp: nat, count: nat, numThreads: nat, statistics: bool,
    i: nat)
    requires i < |toFree| && toFree[i].id !in chain
    ensures CanFreeAt(ChainFlushed(units, chain), toFree + Stamped(chain, stamp), count, numThreads, statistics, i) <==>
      CanFreeAt(units, toFree, count, numThreads, statistics, i)
  {
    assert (toFree + Stamped(chain, stamp))[i] == toFree[i];
  }

  lemma ChainFreeable(
    units: Units, toFree: seq<Flushed>, chain: seq<UnitId>, stamp: nat, count: nat, numThreads: nat, statistics: bool,
    i: nat)
    requires AllDistinct(chain) && i < |chain| && chain[i] in units
    ensures
      CanFreeAt(ChainFlushed(units, chain), toFree + Stamped(chain, stamp), count, numThreads, statistics, |toFree| + i)
      <==> i == |chain| - 1 || (!statistics && !KeepsDead(count + |toFree| + i, numThreads))
  {
    hide ChainFlushed, AllDistinct;
    LastKeepsCache(units, chain, i);
    assert (toFree + Stamped(chain, stamp))[|toFree| + i].id == chain[i];
    assert count + (|toFree| + i) == count + |toFree| + i;
  }

  lemma FreeableJoined(
    units: Units, units': Units, toFree: seq<Flushed>, all: seq<Flushed>, count: nat, numThreads: nat, statistics: bool,
    m: nat, spared: bool)
    requires |all| == |toFree| + m
    requires forall i :: 0 <= i < |toFree| ==>
      (CanFreeAt(units', all, count, numThreads, statistics, i) <==>
       CanFreeAt(units, toFree, count, numThreads, statistics, i))
    requires forall i :: |toFree| <= i < |all| && (i == |all| - 1 || spared) ==>
      CanFreeAt(units', all, count, numThreads, statistics, i)
    requires m > 1 ==> (CanFreeAt(units', all, count, numThreads, statistics, |toFree|) <==> spared)
    ensures AllFreeable(units', all, count, numThreads, statistics) <==>
      AllFreeable(units, toFree, count, numThreads, statistics) && (m <= 1 || spared)
  {
    hide CanFreeAt;
    if AllFreeable(units', all, count, numThreads, statistics) {
      forall i | 0 <= i < |toFree| ensures CanFreeAt(units, toFree, count, numThreads, statistics, i) {
        assert CanFreeAt(units', all, count, numThreads, statistics, i);
      }
    }
    if AllFreeable(units, toFree, count, numThreads, statistics) && (m <= 1 || spared) {
      forall i | 0 <= i < |all| ensures CanFreeAt(units', all, count, numThreads, statistics, i) {
        assert i < |toFree| ==> CanFreeAt(units, toFree, count, numThreads, statistics, i);
      }
    }
  }

  /** All units that wait are due. */
  lemma FreeableNow(
    units: Units, toFree: seq<Flushed>, count: nat, numThreads: nat, statistics: bool, flushtime: nat)
    requires forall i :: 0 <= i < |toFree| ==> toFree[i].stamp <= flushtime
    ensures AllFreeable(units, toFree, count, numThreads, statistics) <==>
      forall i :: 0 <= i < |toFree| && toFree[i].stamp <= flushtime ==>
        CanFreeAt(units, toFree, count, numThreads, statistics, i)
  {
    hide CanFreeAt;
  }

  /** A unit that waits to be freed and holds no fragment holds lost bytes only. */
  lemma FlushedEmpty(
    c: Core, order: seq<UnitId>, toFree: seq<Flushed>, dead: seq<Dead>, i: nat, before: seq<Flushed>,
    chain: seq<UnitId>, stamp: nat)
    requires OnePlace(c.units, order, [], toFree, dead) && i < |toFree| && toFree == before + Stamped(chain, stamp)
    requires forall p :: IsLive(c.slots, p) ==> c.slots[p].unit !in chain + FlushedIds(before)
    requires Settled(c, order)
    ensures Emptied(c.slots, toFree[i].id)
  {
    hide Settled, Emptied, AllDistinct;
    var u := toFree[i].id;
    assert FlushedIds(toFree)[i] == u;
    assert u in order + [] + FlushedIds(toFree);
    assert u in chain + FlushedIds(before) by {
      if i < |before| { assert FlushedIds(before)[i] == u; } else { assert chain[i - |before|] == u; }
    }
    NothingLeft(c, order, u);
  }

  lemma ApartFromChain(
    units: Units, order: seq<UnitId>, chain: seq<UnitId>, toFree: seq<Flushed>, dead: seq<Dead>)
    requires OnePlace(units, order, chain, toFree, dead)
    ensures forall i :: 0 <= i < |toFree| ==> toFree[i].id !in chain
  {
    var all := order + chain + FlushedIds(toFree) + DeadIds(dead);
    forall i, j | 0 <= i < |toFree| && 0 <= j < |chain| ensures toFree[i].id != chain[j] {
      assert FlushedIds(toFree)[i] == toFree[i].id;
      assert all[|order| + |chain| + i] == toFree[i].id && all[|order| + j] == chain[j];
    }
  }

  lemma NothingLeft(c: Core, order: seq<UnitId>, u: UnitId)
    requires u in c.units && c.units[u].pendingFree && forall p :: IsLive(c.slots, p) ==> c.slots[p].unit != u
    requires Settled(c, order)
    ensures Emptied(c.slots, u)
  {
    hide Inv, UnitsFull, LostOk;
    forall p | p in c.slots && c.slots[p].unit == u
      ensures !c.slots[p].kind.Live?
    {
      assert c.slots[p].kind.Live? ==> IsLive(c.slots, p);
    }
  }

  // ----- two units flushed together, from the start

  /** No free slot is larger than its unit. */
  lemma NoRoomAnywhere(c: Core, order: seq<UnitId>, size: nat)
    requires forall u :: u in c.units ==> c.units[u].reserved - c.units[u].start < size
    requires Settled(c, order)
    ensures !HasRoom(c.slots, size)
  {
    hide Inv, UnitsFull, LostOk, FlushedOk, NoHoles, Geometry;
    SteadyFacts(c, order);
    ApartOf(c);
    forall p | p in c.slots ensures c.slots[p].size < size { SlotFacts(c, p); }
  }

  lemma NoSmallUnit(c: Core, order: seq<UnitId>, p: Pc, u: UnitId)
    requires p in c.slots && u in c.units && c.units[u].reserved - c.units[u].start < c.slots[p].size
    requires Settled(c, order)
    ensures c.slots[p].unit != u
  {
    hide Inv, UnitsFull, LostOk, FlushedOk, NoHoles, Geometry;
    SteadyFacts(c, order);
    ApartOf(c);
    SlotFacts(c, p);
  }

  lemma RankOfLarge(c: Core, order: seq<UnitId>, size: nat)
    requires |order| > 0 && order[0] in c.units && c.units[order[0]].reserved - c.units[order[0]].start < size
    requires Settled(c, order)
    ensures Rank(c.units, order, size) == 2
  {
    hide Inv, UnitsFull, LostOk, FlushedOk, NoHoles, Geometry;
    EndAbove(c, order, order[0]);
    SteadyFacts(c, order);
    ApartOf(c);
    UnitFacts(c, order[0]);
  }

  lemma Sizes()
    ensures SlotSize(5000, 4) == 5008 && NewUnitSize(4096, 5008) == 12288
    ensures SlotSize(13000, 4) == 13008 && NewUnitSize(4096, 13008) == 28672
  {
  }

  const SMALL := Fragment(0, 5000, 0, Flags(false, false, false, false))
  const LARGE := Fragment(0, 13000, 0, Flags(false, false, false, false))

  /** With a regeneration parameter of 0 a finite cache never grows for free. */
  predicate NeverGrows(s: W.WSet) { s.finite && s.replaceParam > 0 && s.regenParam == 0 }

  lemma AlwaysFlushes(s: W.WSet, s': W.WSet, r: Roster)
    requires NeverGrows(s)
    ensures W.FlushesOldest(AtDecision(r, s)) && W.AfterNewUnit(AtDecision(r, s), s'.size).finite
  {
  }

  /** A fragment too large for every unit gets a new one, and the oldest is set aside. */
  method AddLarge(c: SharedCache, f: FragId, base: Pc) returns (ghost at: Pc)
    requires IsAlign(c.align) && f in c.frags && Homeless(c.slots, f) && !c.frags[f].flags.freeList
    requires !c.frags[f].flags.followsFree
    requires FreshRegion(c.units, c.dead, base, NewUnitSize(c.maxUnit, SlotSize(c.frags[f].size, c.align)))
    requires forall u :: u in c.units ==> c.units[u].reserved - c.units[u].start < SlotSize(c.frags[f].size, c.align)
    requires NeverGrows(c.wset.View())
    requires c.Valid()
    modifies c, c.wset
    ensures c.Valid() && c.toFree == old(c.toFree) && LivesAt(c.View(), f, at) && c.slots[at].unit == c.order[0]
    ensures f in old(c.frags) && Landed(old(c.View()), c.View(), f, at, SlotSize(old(c.frags)[f].size, c.align))
    ensures NewUnitIn(
      old(c.UnitPlaces()), c.UnitPlaces(), base, NewUnitSize(c.maxUnit, SlotSize(old(c.frags)[f].size, c.align)), true)
  {
    hide Settled, OnePlace, Paged, Ledger, Roomy, SlotSize, NewUnitSize, Rank, HasRoom, Homeless, FreshRegion;
    hide NewUnitIn, OthersSame, StrangersSame, AtDecision, W.FlushesOldest, W.AfterNewUnit, W.Placed, NeverGrows;
    AlwaysFlushes(c.wset.View(), c.wset.View(), c.UnitPlaces());
    ghost var c0, r0, size := c.View(), c.UnitPlaces(), SlotSize(c.frags[f].size, c.align);
    SettledSteady(c0, c.order);
    NoRoomAnywhere(c0, c.order, size);
    RankOfLarge(c0, c.order, size);
    ghost var calls;
    at, calls := c.AddFragment(f, base, false);
    InNewUnit(c0, r0, c.View(), c.UnitPlaces(), c.order, f, at, size, base, NewUnitSize(c.maxUnit, size));
  }

  lemma InNewUnit(
    c: Core, r: Roster, c': Core, r': Roster, order: seq<UnitId>, f: FragId, at: Pc, size: nat, base: Pc, unitSize: nat)
    requires Landed(c, c', f, at, size) && NewUnitIn(r, r', base, unitSize, true)
    requires r.units == c.units && r'.units == c'.units && r'.order == order
    requires forall u :: u in c.units ==> c.units[u].reserved - c.units[u].start < size
    requires Settled(c', order)
    ensures at in c'.slots && |order| > 0 && c'.slots[at].unit == order[0]
  {
    hide Settled, OthersSame;
    var u := c'.slots[at].unit;
    if u in c.units {
      assert SameHome(c.units[u], c'.units[u]);
      NoSmallUnit(c', order, at, u);
    }
  }

  /** A new cache of one page, with the records of two fragments. */
  method OnePageCache() returns (c: SharedCache)
    ensures fresh(c) && fresh(c.wset) && c.Valid() && NeverGrows(c.wset.View())
    ensures c.align == 4 && c.maxUnit == 4096 && c.frags == map[0 := SMALL, 1 := LARGE] && c.slots == map[]
    ensures |c.order| == 1 && c.units.Keys == {c.order[0]} && c.toFlush == [] && c.toFree == [] && c.dead == []
    ensures c.units[c.order[0]].start == 0x1_0000 && c.units[c.order[0]].reserved == 0x1_0000 + 4096
  {
    hide Settled, OnePlace, Paged, Ledger, Roomy;
    var wset := new W.WorkingSetState(0, 4096, 0, 1, 0, true, false);
    c := new SharedCache(4, 28, 4096, 4096, wset, 0x1_0000, map[0 := SMALL, 1 := LARGE]);
  }

  /** From a new cache, two large fragments and one flush: the first fragment's unit is flushed in one
      chain with an older one, is not the last of it, and the fragment can no longer be removed. */
  method TwoUnitFlush() returns (c: SharedCache, ok: bool)
    ensures fresh(c) && c.Valid() && !ok
  {
    hide Settled, OnePlace, Paged, Ledger, Roomy, SlotSize, NewUnitSize, OthersSame, SameHomes, SameHome;
    Sizes();
    c := OnePageCache();
    ghost var r0 := c.UnitPlaces();
    ghost var at0 := AddLarge(c, 0, 0x10_0000);
    ghost var c1, r1 := c.View(), c.UnitPlaces();
    RegionsAfter(r0, r1, 0x1_0000, 4096, 0x10_0000, 12288);
    ghost var at1 := AddLarge(c, 1, 0x20_0000);
    TwoWaiting(r0, r1, c.UnitPlaces(), 0x10_0000, 12288, 0x20_0000, 28672);
    assert IsLive(c.slots, at0);
    ok := FlushThenRemove(c, 1, {}, 0, at0, 0);
  }

  lemma RegionsAfter(r: Roster, r': Roster, start: Pc, size: nat, base: Pc, size': nat)
    requires |r.order| == 1 && r.units.Keys == {r.order[0]} && r.dead == [] && NewUnitIn(r, r', base, size', true)
    requires r.units[r.order[0]].start == start && r.units[r.order[0]].reserved == start + size
    ensures forall u :: u in r'.units ==>
      (r'.units[u].start == start && r'.units[u].reserved == start + size)
      || (r'.units[u].start == base && r'.units[u].reserved == base + size')
    ensures r'.dead == []
  {
    assert SameHome(r.units[r.order[0]], r'.units[r.order[0]]);
  }

  lemma TwoWaiting(r: Roster, r1: Roster, r2: Roster, base1: Pc, size1: nat, base2: Pc, size2: nat)
    requires |r.order| == 1 && r.toFlush == [] && NewUnitIn(r, r1, base1, size1, true)
    requires NewUnitIn(r1, r2, base2, size2, true)
    ensures |r1.order| > 0 && |r2.toFlush| == 2 && r2.toFlush[0] == r1.order[0] && r2.pending
  {
  }
}
