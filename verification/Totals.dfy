/** What the invariant of a shared cache means for its bytes: every byte of the used part of a
    unit is in exactly one slot, and the counters of the free lists add up to the free bytes. */
module Totals {
  import opened Memory
  import opened Layout
  import opened Coalescing
  import opened FreeLists
  import opened SharedModel
  import opened CacheFacts
  import opened Freeing
  import opened Removing
  import opened Lifecycle
  import opened Lookup
  import opened Accounting

  // ----- adding up sizes

  ghost function Total(slots: Slots, ps: set<Pc>): nat
    requires ps <= slots.Keys
  {
    if ps == {} then 0 else var p :| p in ps; slots[p].size + Total(slots, ps - {p})
  }

  lemma {:induction false} TotalTake(slots: Slots, ps: set<Pc>, p: Pc)
    requires ps <= slots.Keys && p in ps
    ensures Total(slots, ps) == slots[p].size + Total(slots, ps - {p})
  {
    var q :| q in ps && Total(slots, ps) == slots[q].size + Total(slots, ps - {q});
    if q != p {
      TotalTake(slots, ps - {q}, p);
      TotalTake(slots, ps - {p}, q);
      assert ps - {q} - {p} == ps - {p} - {q};
    }
  }

  lemma {:induction false} TotalUnion(slots: Slots, a: set<Pc>, b: set<Pc>)
    requires a <= slots.Keys && b <= slots.Keys && a !! b
    ensures Total(slots, a + b) == Total(slots, a) + Total(slots, b)
  {
    if a == {} {
      assert a + b == b;
    } else {
      var p :| p in a;
      TotalTake(slots, a, p);
      TotalTake(slots, a + b, p);
      assert a + b - {p} == (a - {p}) + b;
      TotalUnion(slots, a - {p}, b);
    }
  }

  // ----- each unit is exactly covered

  ghost function SlotsFrom(slots: Slots, u: UnitId, q: Pc): (s: set<Pc>)
    ensures s <= slots.Keys
  {
    set p | p in slots && slots[p].unit == u && q <= p
  }

  lemma {:induction false} TotalFrom(c: Core, u: UnitId, q: Pc)
    requires Geometry(c) && u in c.units && u in c.tops
    requires q == c.tops[u] || (q in c.slots && c.slots[q].unit == u)
    ensures q <= c.tops[u] && Total(c.slots, SlotsFrom(c.slots, u, q)) == c.tops[u] - q
    decreases c.tops[u] - q
  {
    hide Geometry, Apart, Housed, Chained, Rooted;
    TiledApart(c);
    if q == c.tops[u] {
      forall p | p in SlotsFrom(c.slots, u, q) ensures false { SlotFacts(c, p); }
      assert SlotsFrom(c.slots, u, q) == {};
    } else {
      SlotFacts(c, q);
      TotalFrom(c, u, End(c.slots, q));
      TotalTake(c.slots, SlotsFrom(c.slots, u, q), q);
      RestFrom(c, u, q);
    }
  }

  lemma RestFrom(c: Core, u: UnitId, q: Pc)
    requires Geometry(c) && q in c.slots && c.slots[q].unit == u
    ensures SlotsFrom(c.slots, u, q) - {q} == SlotsFrom(c.slots, u, End(c.slots, q))
  {
    hide Geometry, Housed, Chained, Rooted;
    TiledApart(c);
    SlotFacts(c, q);
  }

  ghost function OfKind(slots: Slots, u: UnitId, k: Kind): (s: set<Pc>)
    ensures s <= slots.Keys
  {
    set p | p in slots && slots[p].unit == u && SameSort(slots[p].kind, k)
  }

  predicate SameSort(a: Kind, b: Kind) { a == b || (a.Live? && b.Live?) }

  /** The used bytes of a unit are the bytes of its fragments, of its free slots and, once it has
      been flushed, of what it lost. */
  lemma UnitBytes(c: Core, order: seq<UnitId>, u: UnitId)
    requires u in c.units
    requires Settled(c, order)
    ensures c.units[u].cur - c.units[u].start ==
      Total(c.slots, OfKind(c.slots, u, Live(0))) + Total(c.slots, OfKind(c.slots, u, Free))
      + Total(c.slots, OfKind(c.slots, u, Lost))
    ensures !c.units[u].pendingFree ==> OfKind(c.slots, u, Lost) == {}
    ensures c.units[u].pendingFree ==> OfKind(c.slots, u, Free) == {}
  {
    hide Inv, Geometry, UnitsFull;
    SteadyFacts(c, order);
    ApartOf(c);
    UnitFacts(c, u);
    var start := c.units[u].start;
    if start < c.units[u].cur { FirstSlot(c, u); }
    TotalFrom(c, u, start);
    var live, free, lost := OfKind(c.slots, u, Live(0)), OfKind(c.slots, u, Free), OfKind(c.slots, u, Lost);
    AllKinds(c, u, start);
    TotalUnion(c.slots, live, free);
    TotalUnion(c.slots, live + free, lost);
  }

  lemma AllKinds(c: Core, u: UnitId, start: Pc)
    requires Geometry(c) && NoHoles(c.slots) && u in c.units && start == c.units[u].start
    ensures SlotsFrom(c.slots, u, start) ==
      OfKind(c.slots, u, Live(0)) + OfKind(c.slots, u, Free) + OfKind(c.slots, u, Lost)
  {
    hide Geometry;
    forall p | p in c.slots && c.slots[p].unit == u
      ensures start <= p
      ensures (SameSort(c.slots[p].kind, Live(0)) || SameSort(c.slots[p].kind, Free) || SameSort(c.slots[p].kind, Lost))
    {
      SlotFacts(c, p);
    }
  }

  /** Every byte before the append point of a unit lies in one slot of that unit, and in only one. */
  lemma {:induction false} Covered(c: Core, u: UnitId, q: Pc, a: Pc) returns (p: Pc)
    requires Geometry(c) && u in c.units && u in c.tops && q <= a < c.tops[u] && q in c.slots && c.slots[q].unit == u
    ensures p in c.slots && c.slots[p].unit == u && p <= a < End(c.slots, p)
    ensures forall x :: x in c.slots && x <= a < End(c.slots, x) ==> x == p
    decreases a - q
  {
    hide Geometry, Housed, Chained, Rooted;
    TiledApart(c);
    SlotFacts(c, q);
    p := q;
    if End(c.slots, q) <= a {
      p := Covered(c, u, End(c.slots, q), a);
    }
  }

  lemma EveryByteOnce(c: Core, order: seq<UnitId>, u: UnitId, a: Pc) returns (p: Pc)
    requires u in c.units && c.units[u].start <= a < c.units[u].cur
    requires Settled(c, order)
    ensures p in c.slots && c.slots[p].unit == u && p <= a < End(c.slots, p)
    ensures forall x :: x in c.slots && x <= a < End(c.slots, x) ==> x == p
  {
    hide Inv, Geometry, UnitsFull, LostOk, FlushedOk, NoHoles;
    SteadyFacts(c, order);
    ApartOf(c);
    FirstSlot(c, u);
    p := Covered(c, u, c.units[u].start, a);
  }

  // ----- the counters

  function Sum(s: seq<int>): int { if |s| == 0 then 0 else Sum(s[..|s| - 1]) + s[|s| - 1] }

  ghost function Elems(l: seq<Pc>): set<Pc> { set p | p in l }

  lemma ElemsTake(l: seq<Pc>)
    requires |l| > 0 && forall i, j :: 0 <= i < j < |l| ==> l[i] != l[j]
    ensures Elems(l) == {l[0]} + Elems(l[1..]) && Elems(l) - {l[0]} == Elems(l[1..]) && l[0] !in Elems(l[1..])
  {
    assert l == [l[0]] + l[1..];
    assert l[0] !in l[1..];
  }

  lemma {:induction false} BytesTotal(slots: Slots, l: seq<Pc>)
    requires forall i :: 0 <= i < |l| ==> l[i] in slots
    requires forall i, j :: 0 <= i < j < |l| ==> l[i] != l[j]
    ensures Elems(l) <= slots.Keys && Bytes(slots, l) == Total(slots, Elems(l))
  {
    if |l| > 0 {
      BytesTotal(slots, l[1..]);
      ElemsTake(l);
      hide Elems;
      TotalTake(slots, Elems(l), l[0]);
    }
  }

  ghost function FreeUpTo(slots: Slots, n: nat): (s: set<Pc>)
    ensures s <= slots.Keys
  {
    set p | p in slots && slots[p].kind.Free? && Bucket(slots[p].size) < n
  }

  ghost function FreeIn(slots: Slots, b: nat): (s: set<Pc>)
    ensures s <= slots.Keys
  {
    set p | p in slots && slots[p].kind.Free? && Bucket(slots[p].size) == b
  }

  ghost function AllFreeSlots(slots: Slots): (s: set<Pc>)
    ensures s <= slots.Keys
  {
    set p | p in slots && slots[p].kind.Free?
  }

  lemma BucketBytes(slots: Slots, lists: Lists, b: nat)
    requires Listed(slots, lists) && b < BUCKETS
    ensures Elems(lists[b]) == FreeIn(slots, b) && Bytes(slots, lists[b]) == Total(slots, FreeIn(slots, b))
  {
    hide Bucket;
    forall i | 0 <= i < |lists[b]| ensures InBucket(slots, lists[b][i], b) {}
    BytesTotal(slots, lists[b]);
  }

  lemma {:induction false} ChargesTotal(slots: Slots, lists: Lists, st: Stats, n: nat)
    requires Listed(slots, lists) && Counted(slots, lists, st) && n <= BUCKETS
    ensures Sum(st.charge[..n]) == Total(slots, FreeUpTo(slots, n))
  {
    hide Listed, Bucket;
    if n > 0 {
      ChargesTotal(slots, lists, st, n - 1);
      assert st.charge[..n][..n - 1] == st.charge[..n - 1];
      BucketBytes(slots, lists, n - 1);
      assert FreeUpTo(slots, n) == FreeUpTo(slots, n - 1) + FreeIn(slots, n - 1);
      TotalUnion(slots, FreeUpTo(slots, n - 1), FreeIn(slots, n - 1));
    } else {
      assert FreeUpTo(slots, 0) == {};
    }
  }

  /** The bytes charged to the buckets are the bytes of all free slots, and each bucket counts its
      entries. */
  lemma CountersExact(c: Core)
    requires Inv(c)
    ensures |c.stats.charge| == |c.stats.freed| == |c.stats.reused| == |c.stats.coalesced| == |c.lists| == BUCKETS
    ensures Sum(c.stats.charge) == Total(c.slots, AllFreeSlots(c.slots))
    ensures forall b :: 0 <= b < BUCKETS ==>
      c.stats.freed[b] - c.stats.reused[b] - c.stats.coalesced[b] == |FreeIn(c.slots, b)|
  {
    hide Geometry, Normal, FragsOk, HeadersOk, Linked, Listed, Bucket;
    CountedSizes(c);
    ChargesTotal(c.slots, c.lists, c.stats, BUCKETS);
    assert c.stats.charge[..BUCKETS] == c.stats.charge;
    AllBuckets(c.slots);
    forall b | 0 <= b < BUCKETS
      ensures c.stats.freed[b] - c.stats.reused[b] - c.stats.coalesced[b] == |FreeIn(c.slots, b)|
    {
      BucketBytes(c.slots, c.lists, b);
      ListCard(c.slots, c.lists, b);
    }
  }

  lemma AllBuckets(slots: Slots)
    ensures FreeUpTo(slots, BUCKETS) == AllFreeSlots(slots)
  {
  }

  lemma ListCard(slots: Slots, lists: Lists, b: nat)
    requires Listed(slots, lists) && b < BUCKETS
    ensures |Elems(lists[b])| == |lists[b]|
  {
    DistinctCard(lists[b]);
  }

  lemma {:induction false} DistinctCard(l: seq<Pc>)
    requires forall i, j :: 0 <= i < j < |l| ==> l[i] != l[j]
    ensures |Elems(l)| == |l|
  {
    if |l| > 0 {
      DistinctCard(l[1..]);
      ElemsTake(l);
    }
  }

  // ----- the normal form

  /** No two free slots are neighbours, a fragment outside flushed units is marked exactly when
      the slot before it is free, and no free slot ends at the append point of the first unit. */
  lemma NormalForm(c: Core, order: seq<UnitId>, p: Pc)
    requires p in c.slots && c.slots[p].unit in c.units && !c.units[c.slots[p].unit].pendingFree
    requires Settled(c, order)
    ensures c.slots[p].kind.Free? ==> !PrevFree(c.slots, p)
    ensures c.slots[p].kind.Free? && End(c.slots, p) in c.slots && c.slots[End(c.slots, p)].unit == c.slots[p].unit ==>
      c.slots[End(c.slots, p)].kind.Live?
    ensures c.slots[p].kind.Live? ==> (Marked(c.frags, c.slots[p].kind.f) <==> PrevFree(c.slots, p))
    ensures |order| > 0 && c.slots[p].kind.Free? && c.slots[p].unit == order[0] ==>
      End(c.slots, p) != c.units[order[0]].cur
  {
    hide Inv, Geometry, UnitsFull, LostOk, FlushedOk;
    SteadyFacts(c, order);
    if c.slots[p].kind.Live? {
      MarkExact(c, order, c.slots[p].kind.f, p);
    } else if c.slots[p].kind.Free? {
      FollowerOf(c, p);
      NotLast(c, order, p);
      ApartOf(c);
      SlotFacts(c, p);
      EndNotTop(c, p);
    }
  }

  lemma NotLast(c: Core, order: seq<UnitId>, p: Pc)
    requires p in c.slots && c.slots[p].kind.Free? && |order| > 0 && c.head == order[0]
    requires forall u :: u in c.units ==> u in c.tops && c.tops[u] == c.units[u].cur
    requires Inv(c)
    ensures c.slots[p].unit == order[0] && order[0] in c.units ==> End(c.slots, p) != c.units[order[0]].cur
  {
    hide Geometry, NextMarked, MarksOk, FragsOk, HeadersOk, Listed, Linked, Counted;
  }

  lemma EndNotTop(c: Core, p: Pc)
    requires Geometry(c) && p in c.slots && c.slots[p].unit in c.units
    ensures c.tops.Keys == c.units.Keys
    ensures End(c.slots, p) == c.tops[c.slots[p].unit] && End(c.slots, p) in c.slots ==>
      c.slots[End(c.slots, p)].unit != c.slots[p].unit
  {
    hide Geometry;
    SlotFacts(c, p);
    if End(c.slots, p) in c.slots { SlotFacts(c, End(c.slots, p)); }
  }

  // ----- flushed units

  /** An entry on a free list lies in a unit that is on the cache's list or waits for its flush:
      never in one that waits to be freed, and never in a dead one. */
  lemma EntriesNotFlushed(
    c: Core, order: seq<UnitId>, toFlush: seq<UnitId>, toFree: seq<Flushed>, dead: seq<Dead>, b: nat, i: nat)
    requires b < BUCKETS == |c.lists| && i < |c.lists[b]|
    requires OnePlace(c.units, order, toFlush, toFree, dead)
    requires Settled(c, order)
    ensures c.lists[b][i] in c.slots && c.slots[c.lists[b][i]].unit in order + toFlush
    ensures c.slots[c.lists[b][i]].unit !in FlushedIds(toFree) && c.slots[c.lists[b][i]].unit !in DeadIds(dead)
  {
    hide Inv, Geometry, UnitsFull, LostOk, FlushedIds, DeadIds, AllDistinct;
    SteadyFacts(c, order);
    EntryLinks(c, b, i);
    ApartOf(c);
    SlotFacts(c, c.lists[b][i]);
    var u := c.slots[c.lists[b][i]].unit;
    assert u in order + toFlush + FlushedIds(toFree) && u !in FlushedIds(toFree);
    NotDead(c.units, order, toFlush, toFree, dead, u);
  }

  lemma NotDead(
    units: Units, order: seq<UnitId>, toFlush: seq<UnitId>, toFree: seq<Flushed>, dead: seq<Dead>, u: UnitId)
    requires OnePlace(units, order, toFlush, toFree, dead) && u in units
    ensures u !in DeadIds(dead)
  {
    var live, d := order + toFlush + FlushedIds(toFree), DeadIds(dead);
    forall i, j | 0 <= i < |live| && 0 <= j < |d| ensures live[i] != d[j] {
      assert (live + d)[i] == live[i] && (live + d)[|live| + j] == d[j];
    }
  }

  // ----- the size of the cache

  /** The size of a cache is the committed bytes of the units on its list and of those waiting to be
      flushed, and of those waiting to be freed that still have it. */
  lemma SizeByPlace(
    units: Units, order: seq<UnitId>, toFlush: seq<UnitId>, toFree: seq<Flushed>, dead: seq<Dead>, maxUnit: nat, n: nat,
    size: nat)
    requires OnePlace(units, order, toFlush, toFree, dead) && Paged(units, dead, maxUnit)
    requires Ledger(units, dead, n, size)
    ensures size == SizeOf(units, order) + SizeOf(units, toFlush) + SizeOf(units, FlushedIds(toFree))
    ensures forall u :: u in order + toFlush ==> u in units && ShareAt(units, u) == CommittedSize(units[u])
    ensures forall u :: u in FlushedIds(toFree) ==>
      u in units && ShareAt(units, u) == if units[u].attached then CommittedSize(units[u]) else 0
  {
    hide AllDistinct, FlushedIds, DeadIds, Paged, Ledger, StampsSorted, SizesSorted;
    var live := order + toFlush + FlushedIds(toFree);
    FrontDistinct(live, DeadIds(dead));
    LedgerBelow(units, dead, n, size);
    SizeOfAll(units, live, n) by { DistinctIs(live); assert forall i :: 0 <= i < |live| ==> live[i] in live; }
    SizeJoined(units, order + toFlush, FlushedIds(toFree));
    SizeJoined(units, order, toFlush);
    forall u | u in order + toFlush ensures u in units && ShareAt(units, u) == CommittedSize(units[u]) {
      assert u in live;
      NotWaiting(order + toFlush, FlushedIds(toFree), DeadIds(dead), u);
      UnitPages(units, dead, maxUnit, u);
    }
    forall u | u in FlushedIds(toFree)
      ensures u in units && ShareAt(units, u) == if units[u].attached then CommittedSize(units[u]) else 0
    {
      assert u in live;
      UnitPages(units, dead, maxUnit, u);
    }
  }

  lemma LedgerBelow(units: Units, dead: seq<Dead>, n: nat, size: nat)
    requires Ledger(units, dead, n, size)
    ensures size == Committed(units, n) && forall u :: u in units ==> u < n
  {
  }

  lemma DistinctIs(l: seq<UnitId>)
    requires AllDistinct(l)
    ensures forall i, j :: 0 <= i < j < |l| ==> l[i] != l[j]
  {
  }

  lemma FrontDistinct(a: seq<UnitId>, d: seq<UnitId>)
    requires AllDistinct(a + d)
    ensures AllDistinct(a)
  {
    forall i, j | 0 <= i < j < |a| ensures a[i] != a[j] { assert (a + d)[i] == a[i] && (a + d)[j] == a[j]; }
  }

  lemma NotWaiting(a: seq<UnitId>, b: seq<UnitId>, d: seq<UnitId>, u: UnitId)
    requires AllDistinct(a + b + d) && u in a
    ensures u !in b
  {
    var i :| 0 <= i < |a| && a[i] == u;
    forall j | 0 <= j < |b| ensures b[j] != u { assert (a + b + d)[|a| + j] == b[j] && (a + b + d)[i] == u; }
  }
}
