/** How freeing a slot of a shared cache joins it with its neighbours: what each half of
    add_to_free_list establishes, and what the two halves amount to. */
module Freeing {
  import opened Options
  import opened Memory
  import opened Layout
  import opened Coalescing
  import opened FreeLists
  import opened SharedModel
  import opened CacheFacts

  /** The same fragments, up to the mark that says what precedes them. */
  ghost predicate SameButMarks(fs: Frags, fs': Frags) {
    fs'.Keys == fs.Keys && forall f :: f in fs ==> Unmarked(fs'[f]) == Unmarked(fs[f])
  }

  function Unmarked(f: Fragment): Fragment { f.(flags := f.flags.(followsFree := false)) }

  /** The slot right before p, in the same unit, is free. */
  ghost predicate PrevFree(slots: Slots, p: Pc)
    requires p in slots
  {
    exists q {:trigger End(slots, q)} ::
      q in slots && slots[q].kind.Free? && End(slots, q) == p && slots[q].unit == slots[p].unit
  }

  /** A hole of the given size lies at p in unit u and is the only one. */
  ghost predicate HoleAt(c: Core, u: UnitId, p: Pc, size: nat) {
    && Inv(c) && u in c.units && u in c.tops && p in c.slots && c.slots[p] == Slot(size, u, Hole)
    && OnlyHole(c.slots, p)
  }

  ghost predicate AllFree(s: Slots, lo: int, hi: int) { forall a: Pc :: lo <= a < hi ==> FreeByte(s, a) }

  ghost predicate ListedAs(c: Core, b: nat, k: nat, p: Pc) {
    b < BUCKETS == |c.lists| && k < |c.lists[b]| && c.lists[b][k] == p
  }

  ghost predicate IsDetached(c: Core, c': Core, b: nat, k: nat, coalesce: bool) {
    && b < BUCKETS == |c.lists| == |c.heads| && k < |c.lists[b]| && c.lists[b][k] in c.slots
    && |c.stats.reused| == |c.stats.coalesced| == |c.stats.charge| == BUCKETS
    && (PrevRef(c.lists[b], k).EntryRef? ==> IsPtr(c.mem, PrevRef(c.lists[b], k).pc))
    && (NextRef(c.lists[b], k).EntryRef? ==> IsPtr(c.mem, NextRef(c.lists[b], k).pc + PREV_AT))
    && c' == Detached(c, b, k, coalesce)
  }

  /** What follows the slot being freed is a slot that can be read, or the append point. */
  ghost predicate NextKnown(c: Core, u: UnitId, p: Pc)
    requires p in c.slots && u in c.units && u in c.tops
  {
    && (End(c.slots, p) != c.tops[u] ==> End(c.slots, p) in c.slots && Headed(c.slots[End(c.slots, p)].kind))
    && (c.tops[u] == c.units[u].cur || (p == c.units[u].cur && End(c.slots, p) == c.tops[u]))
  }

  ghost predicate FreeAfter(c: Core, u: UnitId, p: Pc) {
    && p in c.slots && End(c.slots, p) in c.slots
    && c.slots[End(c.slots, p)].kind.Free? && c.slots[End(c.slots, p)].unit == u
  }

  /** The hole at start has taken in the free slot after it, or what follows is marked. */
  ghost predicate NextDone(c: Core, c': Core, u: UnitId, start: Pc, size: nat, size': nat) {
    && size <= size' && HoleAt(c', u, start, size') && Sealed(c', start)
    && c'.units == c.units && c'.tops == c.tops && c'.head == c.head && c'.align == c.align
    && SameKept(c.slots, c'.slots) && SameBelow(c.slots, c'.slots, start) && SameButMarks(c.frags, c'.frags)
    && FreeMinus(c.slots, c'.slots, start + size, start + size') && AllFree(c.slots, start + size, start + size')
    && (size' == size || (size' >= MIN_SLOT && (u == c.head ==> start + size' != c.tops[u])))
    && (FreeAfter(c, u, start) ==> size' >= MIN_SLOT)
    && (forall g :: g in c.frags && Homeless(c.slots, g) ==> g in c'.frags && c'.frags[g] == c.frags[g])
  }

  /** What remove_from_free_list reads. */
  lemma UnlinkPrep(c: Core, b: nat, k: nat, p: Pc)
    requires ListedAs(c, b, k, p)
    requires Inv(c)
    ensures IsPtr(c.mem, p) && LoadPtr(c.mem, p) == NextRef(c.lists[b], k)
    ensures IsPtr(c.mem, p + PREV_AT) && LoadPtr(c.mem, p + PREV_AT) == PrevRef(c.lists[b], k)
    ensures PrevRef(c.lists[b], k) == Null <==> k == 0
    ensures p in c.slots && p + SIZE_AT in c.mem && c.mem[p + SIZE_AT] == Num(c.slots[p].size)
  {
    hide Inv, IsPtr;
    EntryLinks(c, b, k);
  }

  lemma EntrySize(m: Mem, p: Pc, size: nat)
    requires size >= MIN_SLOT && EntryAt(m, p, size)
    ensures p + SIZE_AT in m && m[p + SIZE_AT] == Num(size)
    ensures p + FLAGS_AT in m && m[p + FLAGS_AT] == Bits(FREE_FLAGS)
    ensures p + size - FOOTER in m && m[p + size - FOOTER] == Num(size)
  {
  }

  lemma NextOf(c: Core, u: UnitId, start: Pc, size: nat)
    requires HoleAt(c, u, start, size)
    ensures Geometry(c) && c.tops.Keys == c.units.Keys && End(c.slots, start) == start + size
    ensures start + size <= c.tops[u] <= c.units[u].end
    ensures start + size != c.tops[u] ==> start + size in c.slots && c.slots[start + size].unit == u
    ensures c.units[u].start <= start && c.units[u].end - c.units[u].start <= UINT_MAX
  {
    hide Inv, Geometry, OnlyHole;
    ApartOf(c);
    SlotFacts(c, start);
  }

  /** The first word of the slot at p can be read, and the in-band test says what the slot is. */
  ghost predicate Readable(c: Core, p: Pc) {
    && p in c.slots && IsPtr(c.mem, p) && DerefOk(c.mem, c.frags, LoadPtr(c.mem, p))
    && (IsFreeList(c.mem, c.frags, LoadPtr(c.mem, p)) <==> c.slots[p].kind.Free?)
    && (!c.slots[p].kind.Free? ==>
          c.slots[p].kind.Live? && LoadPtr(c.mem, p) == FragRef(c.slots[p].kind.f) && c.slots[p].kind.f in c.frags)
    && (c.slots[p].kind.Free? ==> p + SIZE_AT in c.mem && c.mem[p + SIZE_AT] == Num(c.slots[p].size))
  }

  lemma CanRead(c: Core, p: Pc)
    requires p in c.slots && Headed(c.slots[p].kind)
    requires Inv(c)
    ensures Readable(c, p)
  {
    hide Inv, IsPtr, EntryAt, IsFreeList, DerefOk;
    InBandTest(c, p);
    if c.slots[p].kind.Free? {
      var k := FreeEntry(c, p);
      EntrySize(c.mem, p, c.slots[p].size);
    } else {
      FragAt(c, p);
    }
  }

  /** The slot after the hole can be read. */
  lemma ReadNext(c: Core, u: UnitId, start: Pc, size: nat)
    requires HoleAt(c, u, start, size) && NextKnown(c, u, start) && c.units[u].cur > start + size
    ensures start + size in c.slots && c.slots[start + size].unit == u && End(c.slots, start) == start + size
    ensures Readable(c, start + size)
    ensures c.slots[start + size].kind.Free? ==> c.slots[start + size].size + size <= UINT_MAX
  {
    hide Inv, Geometry, OnlyHole, Readable;
    NextOf(c, u, start, size);
    CanRead(c, start + size);
    SlotFacts(c, start + size);
  }

  lemma NextJoined(c: Core, u: UnitId, start: Pc, size: nat, b: nat, k: nat)
    requires HoleAt(c, u, start, size) && start + size in c.slots && c.slots[start + size].unit == u
    requires ListedAs(c, b, k, start + size) && c.slots[start + size].size >= MIN_SLOT
    requires c.slots[start + size].kind.Free?
    ensures forall c1 :: IsDetached(c, c1, b, k, true) ==>
      && start in c1.slots && End(c1.slots, start) in c1.slots
      && NextDone(c, Fused(c1, start), u, start, size, size + c.slots[start + size].size)
  {
    hide Inv, Detached, Fused, IsPtr, NextRef, PrevRef, FreeMinus, SameKept, SameBelow, OnlyHole, AllFree;
    var q := start + size;
    assert End(c.slots, start) == q;
    JoinNext(c, start, q, b, k);
    SlotIsFree(c.slots, q);
    HeadClear(c, q);
    assert SameButMarks(c.frags, c.frags);
  }

  lemma SlotIsFree(slots: Slots, q: Pc)
    requires q in slots && slots[q].kind.Free?
    ensures AllFree(slots, q, q + slots[q].size)
  {
  }

  lemma NextMarkedDone(c: Core, u: UnitId, start: Pc, size: nat)
    requires HoleAt(c, u, start, size) && start + size in c.slots && c.slots[start + size].unit == u
    requires c.slots[start + size].kind.Live?
    ensures c.slots[start + size].kind.f in c.frags
    ensures NextDone(c, WithMark(c, c.slots[start + size].kind.f, true), u, start, size, size)
    ensures Marked(c.frags, c.slots[start + size].kind.f) ==> NextDone(c, c, u, start, size, size)
  {
    hide Inv;
    var q := start + size;
    assert End(c.slots, start) == q;
    assert PrevLoose(c.slots, q);
    MarkInv(c, q, true);
  }

  lemma NothingNext(c: Core, u: UnitId, start: Pc, size: nat)
    requires HoleAt(c, u, start, size) && NextKnown(c, u, start) && c.units[u].cur <= start + size
    ensures NextDone(c, c, u, start, size, size)
  {
    hide Inv, Geometry, OnlyHole;
    NextOf(c, u, start, size);
    if FreeAfter(c, u, start) { SlotFacts(c, End(c.slots, start)); }
  }

  /** The mark on the fragment being freed tells whether the slot before it is free. */
  ghost predicate PrevKnown(c: Core, f: Option<FragId>, p: Pc)
    requires p in c.slots
  {
    && (f.Some? ==> f.value in c.frags && Homeless(c.slots, f.value))
    && if f.Some? && Marked(c.frags, f.value) then PrevFree(c.slots, p) else NoFreeBefore(c.slots, p)
  }

  /** The hole now starts at pc, where the free slot before it started, if there was one. */
  ghost predicate PrevDone(c: Core, c': Core, u: UnitId, start: Pc, size: nat, pc: Pc, size': nat) {
    && pc <= start && pc + size' == start + size && HoleAt(c', u, pc, size') && Sealed(c', pc)
    && NoFreeBefore(c'.slots, pc)
    && c'.units == c.units && c'.tops == c.tops && c'.head == c.head && c'.align == c.align && c'.frags == c.frags
    && SameKept(c.slots, c'.slots) && FreeMinus(c.slots, c'.slots, pc, start) && AllFree(c.slots, pc, start)
    && (pc < start ==> size' >= MIN_SLOT)
  }

  /** The footer right before the hole leads to the free slot there. */
  lemma ReadPrev(c: Core, u: UnitId, start: Pc, size: nat) returns (q: Pc)
    requires HoleAt(c, u, start, size) && PrevFree(c.slots, start)
    ensures q in c.slots && c.slots[q].kind.Free? && End(c.slots, q) == start && c.slots[q].unit == u
    ensures c.slots[q].size >= MIN_SLOT && start >= FOOTER
    ensures start - FOOTER in c.mem && c.mem[start - FOOTER] == Num(c.slots[q].size)
    ensures q == start - c.slots[q].size && q + SIZE_AT in c.mem && c.mem[q + SIZE_AT] == Num(c.slots[q].size)
    ensures c.slots[q].size + size <= UINT_MAX
  {
    hide Inv, Geometry, OnlyHole, EntryAt;
    q :| q in c.slots && c.slots[q].kind.Free? && End(c.slots, q) == start && c.slots[q].unit == c.slots[start].unit;
    var k := FreeEntry(c, q);
    EntrySize(c.mem, q, c.slots[q].size);
    NextOf(c, u, start, size);
    SlotFacts(c, q);
  }

  lemma PrevJoined(c: Core, u: UnitId, start: Pc, size: nat, q: Pc, b: nat, k: nat)
    requires HoleAt(c, u, start, size) && Sealed(c, start)
    requires q in c.slots && c.slots[q].kind.Free? && End(c.slots, q) == start && c.slots[q].unit == u
    requires ListedAs(c, b, k, q) && c.slots[q].size >= MIN_SLOT
    ensures forall c1 :: IsDetached(c, c1, b, k, true) ==>
      && q in c1.slots && End(c1.slots, q) in c1.slots
      && PrevDone(c, Fused(c1, q), u, start, size, q, size + c.slots[q].size)
  {
    hide Inv, Detached, Fused, IsPtr, NextRef, PrevRef, FreeMinus, SameKept, OnlyHole, AllFree, Sealed, NoFreeBefore;
    JoinPrev(c, start, q, b, k);
    SlotIsFree(c.slots, q);
  }

  lemma NothingPrev(c: Core, u: UnitId, start: Pc, size: nat)
    requires HoleAt(c, u, start, size) && Sealed(c, start) && NoFreeBefore(c.slots, start)
    ensures PrevDone(c, c, u, start, size, start, size)
  {
    hide Inv;
  }

  /** The hole at p may become a free slot. */
  ghost predicate CanAttach(c: Core, p: Pc) {
    && p in c.slots && c.slots[p].unit in c.tops && c.slots[p].kind.Hole? && c.slots[p].size >= MIN_SLOT
    && NoFreeBefore(c.slots, p) && Sealed(c, p)
    && (End(c.slots, p) == c.tops[c.slots[p].unit] ==> c.slots[p].unit != c.head)
    && Inv(c)
  }

  ghost predicate IsAttached(c: Core, c': Core, p: Pc) {
    && p in c.slots && c.slots[p].size >= MIN_SLOT && Mapped(c.mem, p, c.slots[p].size)
    && |c.lists| == |c.heads| == |c.stats.freed| == |c.stats.charge| == BUCKETS
    && (c.heads[Bucket(c.slots[p].size)].EntryRef? ==> IsPtr(c.mem, c.heads[Bucket(c.slots[p].size)].pc + PREV_AT))
    && c' == Attached(c, p)
  }

  lemma Attach(c: Core, p: Pc)
    requires CanAttach(c, p)
    ensures p in c.slots && c.slots[p].size >= MIN_SLOT && Mapped(c.mem, p, c.slots[p].size)
    ensures |c.lists| == |c.heads| == |c.stats.freed| == |c.stats.charge| == BUCKETS
    ensures c.heads[Bucket(c.slots[p].size)].EntryRef? ==> IsPtr(c.mem, c.heads[Bucket(c.slots[p].size)].pc + PREV_AT)
    ensures Inv(Attached(c, p))
  {
    hide Inv, Attached, Mapped, IsPtr;
    AttachInv(c, p);
  }

  lemma HeadClear(c: Core, q: Pc)
    requires q in c.slots && c.slots[q].kind.Free? && c.slots[q].unit in c.tops
    requires Inv(c)
    ensures c.slots[q].unit == c.head ==> End(c.slots, q) != c.tops[c.slots[q].unit]
  {
    hide Geometry, FragsOk, HeadersOk, Listed, Linked, Counted, NextMarked, MarksOk;
  }

  /** add_to_free_list may be called for the hole at start: from a fragment being freed, from a
      split, from the end of a fragment's slot, or for the rest of a unit being closed (then
      the append point is still in front of the hole). */
  ghost predicate CanFree(c: Core, order: seq<UnitId>, u: UnitId, f: Option<FragId>, start: Pc, size: nat) {
    && |order| > 0 && HoleAt(c, u, start, size) && NextKnown(c, u, start) && PrevKnown(c, f, start)
    && c.head == (if c.tops[u] == c.units[u].cur then order[0] else NONE)
    && (size >= MIN_SLOT || FreeAfter(c, u, start) || (u == order[0] && c.tops[u] == c.units[u].cur == start + size))
  }

  /** The bytes of the hole are free, or given back together with the free bytes before them. */
  ghost predicate Freed(c: Core, c': Core, u: UnitId, start: Pc, size: nat, retracted: bool) {
    && Inv(c') && NoHoles(c'.slots) && c'.head == c.head && c'.align == c.align
    && SameKept(c.slots, c'.slots) && SameButMarks(c.frags, c'.frags) && u in c.units && u in c'.units
    && (forall g :: g in c.frags && Homeless(c.slots, g) ==> g in c'.frags && c'.frags[g] == c.frags[g])
    && (!retracted ==>
          c'.units == c.units && c'.tops == c.tops && FreePlus(c.slots, c'.slots, start, start + size))
    && (retracted ==>
          && c'.units == c.units[u := c.units[u].(cur := c'.units[u].cur, full := false)]
          && c'.tops == c.tops[u := c'.units[u].cur] && c'.units[u].cur <= start
          && AllFree(c.slots, c'.units[u].cur, start) && FreeMinus(c.slots, c'.slots, c'.units[u].cur, start))
  }

  lemma FreeStart(c: Core, order: seq<UnitId>, u: UnitId, f: Option<FragId>, start: Pc, size: nat)
    requires CanFree(c, order, u, f, start, size)
    ensures HoleAt(c, u, start, size) && NextKnown(c, u, start) && PrevKnown(c, f, start) && u in c.units
  {
    hide Inv;
  }

  lemma FreeMiddle(c0: Core, c1: Core, u: UnitId, f: Option<FragId>, start: Pc, size: nat, size1: nat)
    requires HoleAt(c0, u, start, size) && NextDone(c0, c1, u, start, size, size1)
    requires PrevKnown(c0, f, start)
    ensures HoleAt(c1, u, start, size1) && Sealed(c1, start) && PrevKnown(c1, f, start) && u in c1.units
  {
    hide Inv, FreeMinus, AllFree, SameButMarks, OnlyHole, Sealed;
    HomelessSame(c0.slots, c1.slots);
    SizePositive(c0, start);
    BelowSame(c0.slots, c1.slots, start);
  }

  lemma HomelessSame(s: Slots, s': Slots)
    requires SameKept(s, s')
    ensures forall f :: Homeless(s, f) ==> Homeless(s', f)
  {
    forall f | Homeless(s, f) ensures Homeless(s', f) {
      forall p | p in s' && s'[p].kind.Live? ensures s'[p].kind.f != f {
        assert Kept(s', p);
      }
    }
  }

  lemma BelowSame(s: Slots, s': Slots, p: Pc)
    requires SameBelow(s, s', p) && p in s && p in s' && s[p].unit == s'[p].unit && 0 < s[p].size <= s'[p].size
    ensures PrevFree(s, p) ==> PrevFree(s', p)
    ensures NoFreeBefore(s, p) ==> NoFreeBefore(s', p)
  {
    if PrevFree(s, p) {
      var q :| q in s && s[q].kind.Free? && End(s, q) == p && s[q].unit == s[p].unit;
      assert End(s', q) == p;
    }
    if NoFreeBefore(s, p) {
      forall q | q in s' && s'[q].kind.Free? && s'[q].unit == s'[p].unit ensures End(s', q) != p {
        if q < p { assert End(s, q) == End(s', q); }
      }
    }
  }

  /** Where the joined hole lies, and whether the append point is at its end. */
  lemma FreeWhere(c0: Core, c1: Core, c2: Core, order: seq<UnitId>, u: UnitId, f: Option<FragId>,
                  start: Pc, size: nat, size1: nat, pc: Pc, size2: nat)
    requires CanFree(c0, order, u, f, start, size)
    requires NextDone(c0, c1, u, start, size, size1) && PrevDone(c1, c2, u, start, size1, pc, size2)
    ensures 0 < size && pc in c2.slots && End(c2.slots, pc) == pc + size2 == start + size1 <= c2.tops[u] && 0 < size2
    ensures c2.units[u].start <= pc && u in c2.tops && c2.tops == c0.tops && c2.units == c0.units
    ensures c0.units[u].cur == start + size1 && u == order[0] ==> c0.tops[u] == c0.units[u].cur && size1 == size
    ensures c0.units[u].cur == start + size && u == order[0] ==> size1 == size
    ensures start + size1 == c0.tops[u] && u == c0.head ==> c0.units[u].cur == start + size1 && u == order[0]
  {
    hide Inv, Geometry, FreeMinus, AllFree, SameButMarks, OnlyHole, Sealed, NoFreeBefore, SameKept, SameBelow;
    hide PrevKnown;
    NextOf(c0, u, start, size);
    NextOf(c2, u, pc, size2);
    SizePositive(c0, start);
    SizePositive(c2, pc);
  }

  lemma SizePositive(c: Core, p: Pc)
    requires p in c.slots
    requires Inv(c)
    ensures 0 < c.slots[p].size
  {
    hide Inv, Geometry;
    ApartOf(c);
    SlotFacts(c, p);
  }

  lemma FreeRetracted(c0: Core, c1: Core, c2: Core, order: seq<UnitId>, u: UnitId, f: Option<FragId>,
                      start: Pc, size: nat, size1: nat, pc: Pc, size2: nat)
    requires CanFree(c0, order, u, f, start, size)
    requires NextDone(c0, c1, u, start, size, size1) && PrevDone(c1, c2, u, start, size1, pc, size2)
    requires u == order[0] && u in c2.units && c2.units[u].cur == pc + size2
    ensures c0.units[u].cur == start + size
    ensures Freed(c0, c2.(units := c2.units[u := c2.units[u].(cur := pc, full := false)],
                          slots := c2.slots - {pc}, tops := c2.tops[u := pc]), u, start, size, true)
  {
    hide Inv, Geometry, FreeMinus, FreePlus, AllFree, SameButMarks, OnlyHole, Sealed, NoFreeBefore, SameKept, SameBelow;
    hide PrevKnown, NextKnown;
    FreeWhere(c0, c1, c2, order, u, f, start, size, size1, pc, size2);
    var c3 := Chopped(c2, pc);
    ChopInv(c2, pc);
    ApartOf(c3);
    var unit := c2.units[u].(cur := pc, full := false);
    UnitFacts(c3, u);
    UnitInv(c3, u, unit, c3.mem);
    RemoveHole(c2.slots, pc);
    OwnedEffects(c2.slots, c3.slots);
    RetractEffects(c0.slots, c1.slots, c2.slots, c3.slots, start, size, pc);
    HoleGone(c2.slots, pc);
  }

  lemma HoleGone(slots: Slots, p: Pc)
    requires OnlyHole(slots, p)
    ensures NoHoles(slots - {p})
  {
  }

  lemma RetractEffects(s0: Slots, s1: Slots, s2: Slots, s3: Slots, start: Pc, size: nat, pc: Pc)
    requires SameKept(s0, s1) && SameKept(s1, s2) && SameKept(s2, s3)
    requires FreeMinus(s0, s1, start + size, start + size) && FreeMinus(s1, s2, pc, start) && FreePlus(s2, s3, 0, 0)
    requires AllFree(s1, pc, start)
    ensures SameKept(s0, s3) && FreeMinus(s0, s3, pc, start) && AllFree(s0, pc, start)
  {
    LiveChain(s0, s1, s2);
    LiveChain(s0, s2, s3);
    hide SameKept;
    forall a: Pc ensures FreeByte(s3, a) <==> FreeByte(s0, a) && !(pc <= a < start) {
      assert FreeByte(s3, a) <==> FreeByte(s2, a);
      assert FreeByte(s1, a) <==> FreeByte(s0, a);
    }
    forall a: Pc | pc <= a < start ensures FreeByte(s0, a) {
      assert FreeByte(s1, a);
    }
  }

  lemma LiveChain(s: Slots, s1: Slots, s2: Slots)
    requires SameKept(s, s1) && SameKept(s1, s2)
    ensures SameKept(s, s2)
  {
    assert forall x :: Kept(s, x) || Kept(s2, x) ==> Kept(s1, x);
  }

  lemma FreeReady(c0: Core, c1: Core, c2: Core, order: seq<UnitId>, u: UnitId, f: Option<FragId>,
                  start: Pc, size: nat, size1: nat, pc: Pc, size2: nat)
    requires CanFree(c0, order, u, f, start, size)
    requires NextDone(c0, c1, u, start, size, size1) && PrevDone(c1, c2, u, start, size1, pc, size2)
    requires !(u == order[0] && u in c2.units && c2.units[u].cur == pc + size2)
    ensures !(u == order[0] && c0.units[u].cur == start + size)
    ensures pc in c2.slots && c2.slots[pc].size == size2 && CanAttach(c2, pc)
  {
    hide Inv, Geometry, FreeMinus, AllFree, SameButMarks, OnlyHole, Sealed, NoFreeBefore, SameKept, SameBelow;
    hide PrevKnown, NextKnown;
    FreeWhere(c0, c1, c2, order, u, f, start, size, size1, pc, size2);
  }

  lemma FreePushed(
    c0: Core, c1: Core, c2: Core, c3: Core, u: UnitId, start: Pc, size: nat, size1: nat, pc: Pc, size2: nat)
    requires NextDone(c0, c1, u, start, size, size1) && PrevDone(c1, c2, u, start, size1, pc, size2)
    requires IsAttached(c2, c3, pc) && Inv(c3)
    ensures Freed(c0, c3, u, start, size, false)
  {
    hide Inv, FreeMinus, FreePlus, AllFree, SameButMarks, Sealed, NoFreeBefore, SameKept, SameBelow, LinkMem, Mapped;
    hide IsPtr, Bucket, Homeless;
    ToFreeEffects(c2.slots, pc);
    PushEffects(c0.slots, c1.slots, c2.slots, c3.slots, start, size, size1, pc);
  }

  lemma PushEffects(s0: Slots, s1: Slots, s2: Slots, s3: Slots, start: Pc, size: nat, size1: nat, pc: Pc)
    requires SameKept(s0, s1) && SameKept(s1, s2) && SameKept(s2, s3) && size <= size1 && pc <= start
    requires FreeMinus(s0, s1, start + size, start + size1) && FreeMinus(s1, s2, pc, start)
    requires FreePlus(s2, s3, pc, start + size1)
    requires AllFree(s1, pc, start) && AllFree(s0, start + size, start + size1)
    ensures SameKept(s0, s3) && FreePlus(s0, s3, start, start + size)
  {
    LiveChain(s0, s1, s2);
    LiveChain(s0, s2, s3);
    forall a: Pc ensures FreeByte(s3, a) <==> FreeByte(s0, a) || start <= a < start + size {
      assert FreeByte(s3, a) <==> FreeByte(s2, a) || pc <= a < start + size1;
      assert FreeByte(s1, a) <==> FreeByte(s0, a) && !(start + size <= a < start + size1);
    }
  }
}
