/** Finding a free slot for a fragment, and putting the fragment there. */
module Placing {
  import opened Options
  import opened Memory
  import opened Alignment
  import opened Layout
  import opened Coalescing
  import opened FreeLists
  import opened SharedModel
  import opened CacheFacts
  import opened Freeing

  /** Some free slot is large enough. */
  ghost predicate HasRoom(slots: Slots, size: nat) {
    exists p :: p in slots && slots[p].kind.Free? && slots[p].size >= size
  }

  /** No free slot of a bucket below b is large enough. */
  ghost predicate TooSmallBelow(slots: Slots, size: nat, b: nat) {
    forall p :: p in slots && slots[p].kind.Free? && Bucket(slots[p].size) < b ==> slots[p].size < size
  }

  /** The first k entries of a list are too small. */
  ghost predicate TooSmall(slots: Slots, l: seq<Pc>, k: nat, size: nat) {
    k <= |l| && forall i :: 0 <= i < k ==> l[i] in slots && slots[l[i]].size < size
  }

  lemma SearchStart(slots: Slots, size: nat)
    ensures TooSmallBelow(slots, size, Bucket(size))
  {
    forall p | p in slots && slots[p].kind.Free? && Bucket(slots[p].size) < Bucket(size) ensures slots[p].size < size {
      if slots[p].size >= size { BucketMonotone(size, slots[p].size); }
    }
  }

  lemma SearchNext(c: Core, size: nat, b: nat)
    requires b < BUCKETS == |c.lists| && TooSmallBelow(c.slots, size, b)
    requires TooSmall(c.slots, c.lists[b], |c.lists[b]|, size)
    requires Inv(c)
    ensures TooSmallBelow(c.slots, size, b + 1)
  {
    hide Geometry, Listed, Linked, HeadersOk, Counted, Normal, FragsOk, Bucket;
    forall p | p in c.slots && c.slots[p].kind.Free? && Bucket(c.slots[p].size) < b + 1 ensures c.slots[p].size < size {
      if Bucket(c.slots[p].size) == b { var k := IndexOf(c.slots, c.lists, p); }
    }
  }

  /** The k-th entry of a bucket, if there is one, can be read. */
  ghost predicate EntryReadable(c: Core, b: nat, k: nat)
    requires b < |c.lists|
  {
    k < |c.lists[b]| ==>
      var p := c.lists[b][k];
      && p in c.slots && c.slots[p].kind.Free? && p + SIZE_AT in c.mem && c.mem[p + SIZE_AT] == Num(c.slots[p].size)
      && IsPtr(c.mem, p) && LoadPtr(c.mem, p) == NextRef(c.lists[b], k)
  }

  lemma SearchRead(c: Core, b: nat, k: nat)
    requires b < BUCKETS == |c.lists|
    requires Inv(c)
    ensures EntryReadable(c, b, k)
  {
    hide Inv, IsPtr;
    if k < |c.lists[b]| {
      EntryLinks(c, b, k);
      EntrySize(c.mem, c.lists[b][k], c.slots[c.lists[b][k]].size);
    }
  }

  lemma AllTooSmall(slots: Slots, size: nat)
    requires TooSmallBelow(slots, size, BUCKETS)
    ensures !HasRoom(slots, size)
  {
  }

  lemma RoomIs(slots: Slots, size: nat)
    ensures HasRoom(slots, size) <==> exists p :: p in slots && slots[p].kind.Free? && size <= slots[p].size
  {
  }

  lemma HeadOf(c: Core, b: nat)
    requires Inv(c) && b < BUCKETS
    ensures |c.heads| == |c.lists| == BUCKETS && c.heads[b] == HeadRef(c.lists[b])
  {
    hide Geometry, Listed, HeadersOk, Counted, Normal, FragsOk;
    assert Linked(c.mem, c.heads, c.lists);
    assert ListOk(c.mem, c.heads[b], c.lists[b]);
  }

  // ----- putting a fragment into a slot

  /** Between operations: no hole, every unit used up to its append point, the first unit open. */
  ghost predicate Steady(c: Core, order: seq<UnitId>) {
    && |order| > 0 && c.head == order[0] && order[0] in c.units && NoHoles(c.slots)
    && (forall u :: u in c.units ==> u in c.tops && c.tops[u] == c.units[u].cur)
    && Inv(c)
  }

  /** A fragment that is in no slot asks for size bytes, which is its own size plus header and
      padding. */
  ghost predicate Request(c: Core, f: FragId, size: nat) {
    && IsAlign(c.align) && Aligned(size, c.align) && MIN_SLOT <= size
    && f in c.frags && Homeless(c.slots, f) && !c.frags[f].flags.freeList && !c.frags[f].flags.followsFree
    && c.frags[f].size + PTR <= size <= c.frags[f].size + 91
  }

  /** place_fragment and FRAG_SIZE_ASSIGN; fcache_extra is one byte. */
  function Place(frag: Fragment, pc: Pc, slotSize: nat): Fragment
    requires frag.size <= slotSize
  {
    frag.(startPc := pc + PTR, extra := (slotSize - frag.size) % 256)
  }

  lemma PlaceFits(frag: Fragment, pc: Pc, slotSize: nat)
    requires pc % 4 == 0 && frag.size + PTR <= slotSize <= frag.size + 255 && !frag.flags.freeList
    ensures Fits(Place(frag, pc, slotSize), pc, slotSize)
  {
  }

  /** The hole at p may take fragment f. */
  ghost predicate CanOccupy(c: Core, u: UnitId, p: Pc, size: nat, f: FragId) {
    && HoleAt(c, u, p, size) && size >= MIN_SLOT && NoFreeBefore(c.slots, p)
    && f in c.frags && Homeless(c.slots, f) && !c.frags[f].flags.freeList && !c.frags[f].flags.followsFree
    && c.frags[f].size + PTR <= size <= c.frags[f].size + 255
    && (End(c.slots, p) in c.slots && c.slots[End(c.slots, p)].unit == u && c.slots[End(c.slots, p)].kind.Live? ==>
          !Marked(c.frags, c.slots[End(c.slots, p)].kind.f))
  }

  ghost predicate IsOccupied(c: Core, c': Core, p: Pc, size: nat, f: FragId) {
    && p in c.slots && p in c.mem && p + 4 in c.mem && f in c.frags && c.frags[f].size <= size
    && c' == Occupied(c, p, f, Place(c.frags[f], p, size))
  }

  lemma Occupy(c: Core, u: UnitId, p: Pc, size: nat, f: FragId)
    requires CanOccupy(c, u, p, size, f)
    ensures p in c.slots && p in c.mem && p + 4 in c.mem && f in c.frags && c.frags[f].size <= size
    ensures Inv(Occupied(c, p, f, Place(c.frags[f], p, size)))
    ensures NoHoles(Occupied(c, p, f, Place(c.frags[f], p, size)).slots)
  {
    hide Inv, Homeless, NoFreeBefore, Fits, StorePtr, Geometry, Aligned;
    SlotAligned(c, p);
    AlignedWord(p, c.align);
    PlaceFits(c.frags[f], p, size);
    OccupyInv(c, p, f, Place(c.frags[f], p, size));
  }

  lemma SlotAligned(c: Core, p: Pc)
    requires p in c.slots
    requires Inv(c)
    ensures IsAlign(c.align) && Aligned(p, c.align) && Aligned(c.slots[p].size, c.align)
  {
    hide Aligned, UnitsOk, Tiled, Sized, UnitsAligned, MemOk, FragsOk, Normal, HeadersOk, Listed, Linked, Counted;
  }

  /** The fragment sits in the slot at p of c'; nothing else that was live or lost changed. */
  ghost predicate Placed(c: Core, c': Core, f: FragId, p: Pc, size: nat) {
    && p in c'.slots && c'.slots[p].kind == Live(f) && c'.slots[p].size >= size
    && SameKeptBut(c.slots, c'.slots, p) && !Kept(c.slots, p)
    && f in c.frags && f in c'.frags && c'.frags[f].size == c.frags[f].size && c'.frags[f].startPc == p + PTR
    && OthersSame(c.frags, c'.frags, f) && StrangersSame(c, c', f)
  }

  /** Other fragments that are in no slot are not touched at all. */
  ghost predicate StrangersSame(c: Core, c': Core, f: FragId) {
    forall g :: g in c.frags && g != f && Homeless(c.slots, g) ==> g in c'.frags && c'.frags[g] == c.frags[g]
  }

  ghost predicate OthersSame(fs: Frags, fs': Frags, f: FragId) {
    fs'.Keys == fs.Keys && forall g :: g in fs && g != f ==> Unmarked(fs'[g]) == Unmarked(fs[g])
  }

  // ----- splitting a free slot

  /** After the entry at p has been taken off its list: the hole, and what is around it. */
  lemma TakenOff(c0: Core, c1: Core, order: seq<UnitId>, b: nat, k: nat, p: Pc)
    requires Steady(c0, order) && ListedAs(c0, b, k, p) && p in c0.slots && c0.slots[p].kind.Free?
    requires IsDetached(c0, c1, b, k, false) && Inv(c1)
    ensures HoleAt(c1, c0.slots[p].unit, p, c0.slots[p].size) && NoFreeBefore(c1.slots, p)
    ensures c1.units == c0.units && c1.tops == c0.tops && c1.frags == c0.frags && c1.head == c0.head
    ensures c1.align == c0.align
    ensures c1.slots == SetKind(c0.slots, p, Hole)
    ensures SameKept(c0.slots, c1.slots) && FreeMinus(c0.slots, c1.slots, p, p + c0.slots[p].size)
    ensures Sealed(c1, p) && c0.slots[p].size >= MIN_SLOT
    ensures c0.slots[p].unit == c0.head ==> End(c1.slots, p) != c1.tops[c0.slots[p].unit]
  {
    hide Inv, Apart, SameKept, FreeMinus, Bucket, IsDetached, NoHoles, OnlyHole, NoFreeBefore, Geometry;
    DetachedShape(c0, c1, b, k, p);
    ApartOf(c0);
    ToHoleEffects(c0.slots, p);
    FollowerOf(c0, p);
    SlotFacts(c0, p);
    HeadClear(c0, p);
    var kk := FreeEntry(c0, p);
    OneHole(c0.slots, p);
    StillNoFreeBefore(c0.slots, p);
  }

  lemma DetachedShape(c0: Core, c1: Core, b: nat, k: nat, p: Pc)
    requires ListedAs(c0, b, k, p) && IsDetached(c0, c1, b, k, false)
    ensures c1.units == c0.units && c1.tops == c0.tops && c1.frags == c0.frags && c1.head == c0.head
    ensures c1.align == c0.align
    ensures p in c0.slots && c1.slots == SetKind(c0.slots, p, Hole)
  {
    hide UnlinkMem, Without, NextRef, PrevRef, IsPtr;
  }

  lemma OneHole(slots: Slots, p: Pc)
    requires NoHoles(slots) && p in slots
    ensures OnlyHole(SetKind(slots, p, Hole), p)
  {
  }

  lemma StillNoFreeBefore(slots: Slots, p: Pc)
    requires p in slots && NoFreeBefore(slots, p)
    ensures NoFreeBefore(SetKind(slots, p, Hole), p)
  {
    var s' := SetKind(slots, p, Hole);
    forall q | q in s' && s'[q].kind.Free? && s'[q].unit == s'[p].unit ensures End(s', q) != p {
      assert End(s', q) == End(slots, q);
    }
  }

  /** Whether a free slot ends at p shows in the byte before p. */
  lemma NoFreeBeforeBytes(c: Core, c': Core, p: Pc)
    requires p in c.slots && p in c'.slots && c.slots[p].unit == c'.slots[p].unit && c'.units == c.units
    requires NoFreeBefore(c.slots, p) && (p > 0 ==> (FreeByte(c'.slots, p - 1) ==> FreeByte(c.slots, p - 1)))
    requires Inv(c) && Inv(c')
    ensures NoFreeBefore(c'.slots, p)
  {
    hide Inv, Geometry;
    ApartOf(c);
    forall q | q in c'.slots && c'.slots[q].kind.Free? && c'.slots[q].unit == c'.slots[p].unit
      ensures End(c'.slots, q) != p
    {
      if End(c'.slots, q) == p {
        ApartOf(c');
        SlotFacts(c', q);
        assert FreeByte(c'.slots, p - 1);
        var x :| x in c.slots && c.slots[x].kind.Free? && x <= p - 1 < x + c.slots[x].size;
        SameUnitByte(c, c', x, q, p - 1);
        SlotFacts(c, x);
      }
    }
  }

  lemma SameUnitByte(c: Core, c': Core, x: Pc, q: Pc, a: Pc)
    requires x in c.slots && q in c'.slots && x <= a < x + c.slots[x].size && q <= a < q + c'.slots[q].size
    requires c'.units == c.units && Geometry(c) && Geometry(c')
    ensures c.slots[x].unit == c'.slots[q].unit
  {
    hide Geometry, UnitsOk;
    SlotFacts(c, x);
    SlotFacts(c', q);
    if c.slots[x].unit != c'.slots[q].unit {
      UnitsApart(c, c.slots[x].unit, c'.slots[q].unit);
    }
  }

  lemma UnitsApart(c: Core, u: UnitId, v: UnitId)
    requires Geometry(c) && u in c.units && v in c.units && u != v
    ensures c.units[u].reserved <= c.units[v].start || c.units[v].reserved <= c.units[u].start
  {
    hide Tiled, Sized, SlotsAligned, UnitsAligned, MemOk;
  }

  /** The front part of a free slot being split is set aside; the rest is a hole to be freed. */
  ghost function SetAside(c: Core, p: Pc, n: nat): Core
    requires p in c.slots && 0 < n < c.slots[p].size
  {
    GivenUp(Divided(c, p, n), p)
  }

  lemma SplitReady(c1: Core, order: seq<UnitId>, u: UnitId, p: Pc, fs: nat, size: nat)
    requires HoleAt(c1, u, p, fs) && NoFreeBefore(c1.slots, p) && Sealed(c1, p)
    requires |order| > 0 && c1.head == order[0] && c1.tops[u] == c1.units[u].cur
    requires u == c1.head ==> End(c1.slots, p) != c1.tops[u]
    requires MIN_SLOT <= size && size + MIN_SLOT <= fs && IsAlign(c1.align) && Aligned(size, c1.align)
    ensures CanFree(SetAside(c1, p, size), order, u, None, p + size, fs - size)
    ensures p in SetAside(c1, p, size).slots && SetAside(c1, p, size).slots[p] == Slot(size, u, Lost)
    ensures Inv(SetAside(c1, p, size))
    ensures SameKeptBut(c1.slots, SetAside(c1, p, size).slots, p)
    ensures FreePlus(c1.slots, SetAside(c1, p, size).slots, 0, 0)
    ensures NoFreeBefore(SetAside(c1, p, size).slots, p)
  {
    hide Inv, Aligned, Geometry, FreePlus;
    DivideInv(c1, p, size);
    CutNoFree(c1.slots, p, size);
    GiveUpInv(Divided(c1, p, size), p);
    ApartOf(c1);
    SplitShape(c1.slots, p, size, u, fs);
    SetAsideBytes(c1.slots, p, size);
  }

  lemma CutNoFree(slots: Slots, p: Pc, n: nat)
    requires p in slots && 0 < n < slots[p].size && slots[p].kind.Hole? && NoFreeBefore(slots, p) && p + n !in slots
    ensures NoFreeBefore(Cut(slots, p, n), p)
  {
    var s' := Cut(slots, p, n);
    forall q | q in s' && s'[q].kind.Free? && s'[q].unit == s'[p].unit ensures End(s', q) != p {
      assert End(s', q) == End(slots, q);
    }
  }

  lemma SplitShape(slots: Slots, p: Pc, n: nat, u: UnitId, fs: nat)
    requires p in slots && slots[p] == Slot(fs, u, Hole) && 0 < n < fs && Apart(slots) && OnlyHole(slots, p)
    requires p + n !in slots
    requires NoFreeBefore(slots, p)
    ensures var s' := SetKind(Cut(slots, p, n), p, Lost);
      && OnlyHole(s', p + n) && NoFreeBefore(s', p + n) && NoFreeBefore(s', p) && SameKeptBut(slots, s', p)
      && s'[p] == Slot(n, u, Lost) && s'[p + n] == Slot(fs - n, u, Hole)
  {
    var s' := SetKind(Cut(slots, p, n), p, Lost);
    forall q | q in s' && s'[q].kind.Free? && s'[q].unit == u ensures End(s', q) != p + n && End(s', q) != p {
      assert q in slots && s'[q] == slots[q];
      assert End(s', q) == End(slots, q);
      assert q < p || p < q;
    }
  }

  lemma SetAsideBytes(slots: Slots, p: Pc, n: nat)
    requires p in slots && slots[p].kind.Hole? && 0 < n < slots[p].size && p + n !in slots
    ensures FreePlus(slots, SetKind(Cut(slots, p, n), p, Lost), 0, 0)
  {
    SameFreeBytes(slots, SetKind(Cut(slots, p, n), p, Lost));
  }

  lemma SameFreeBytes(s: Slots, s': Slots)
    requires SameFree(s, s')
    ensures FreePlus(s, s', 0, 0)
  {
    forall a: Pc ensures FreeByte(s', a) <==> FreeByte(s, a) {
      if FreeByte(s, a) {
        var q :| q in s && s[q].kind.Free? && q <= a < q + s[q].size;
        assert q in s' && s'[q].kind.Free?;
      }
      if FreeByte(s', a) {
        var q :| q in s' && s'[q].kind.Free? && q <= a < q + s'[q].size;
        assert q in s && s[q].kind.Free?;
      }
    }
  }

  lemma SplitDone(c2: Core, c3: Core, u: UnitId, p: Pc, fs: nat, size: nat, f: FragId)
    requires p in c2.slots && c2.slots[p] == Slot(size, u, Lost) && Inv(c2) && u in c2.tops
    requires NoFreeBefore(c2.slots, p) && MIN_SLOT <= size < fs
    requires Freed(c2, c3, u, p + size, fs - size, false)
    requires f in c2.frags && Homeless(c2.slots, f) && !c2.frags[f].flags.freeList && !c2.frags[f].flags.followsFree
    requires c2.frags[f].size + PTR <= size <= c2.frags[f].size + 255
    ensures p in c3.slots && c3.slots[p] == Slot(size, u, Lost) && CanOccupy(Vacated(c3, p), u, p, size, f)
    ensures c3.units == c2.units && c3.tops == c2.tops
  {
    hide Inv, Geometry, SameButMarks, FreeByte, FreePlus, NoFreeBefore, Apart, Homeless;
    assert Kept(c2.slots, p);
    VacateInv(c3, p);
    SplitAround(c2.slots, c3.slots, p, size, fs);
    NoFreeBeforeBytes(c2, c3, p);
    StillNoFreeBefore(c3.slots, p);
    HomelessSame(c2.slots, c3.slots);
    HomelessVacated(c3.slots, p, f);
    ApartOf(c3);
    NotLiveHere(c3.slots, p + size);
  }

  lemma SplitAround(s: Slots, s': Slots, p: Pc, size: nat, fs: nat)
    requires FreePlus(s, s', p + size, p + fs) && size < fs
    ensures FreeByte(s', p + size) && (p > 0 ==> (FreeByte(s', p - 1) <==> FreeByte(s, p - 1)))
  {
    hide FreeByte;
    assert FreeByte(s', p + size) <==> true;
  }

  lemma HomelessVacated(slots: Slots, p: Pc, f: FragId)
    requires Homeless(slots, f) && p in slots
    ensures Homeless(SetKind(slots, p, Hole), f)
  {
  }

  lemma NotLiveHere(slots: Slots, a: Pc)
    requires FreeByte(slots, a) && Apart(slots)
    ensures a in slots ==> slots[a].kind.Free?
  {
    var q :| q in slots && slots[q].kind.Free? && q <= a < q + slots[q].size;
    assert a in slots ==> q == a;
  }

  // ----- taking a whole free slot

  lemma WholeReady(c1: Core, u: UnitId, p: Pc, fs: nat, f: FragId)
    requires HoleAt(c1, u, p, fs) && NoFreeBefore(c1.slots, p) && Sealed(c1, p) && fs >= MIN_SLOT
    requires c1.tops[u] == c1.units[u].cur
    requires f in c1.frags && Homeless(c1.slots, f) && !c1.frags[f].flags.freeList && !c1.frags[f].flags.followsFree
    requires c1.frags[f].size + PTR <= fs <= c1.frags[f].size + 255
    ensures c1.units[u].cur <= p + fs ==> CanOccupy(c1, u, p, fs, f)
    ensures c1.units[u].cur > p + fs ==>
      && Readable(c1, p + fs) && c1.slots[p + fs].kind.Live?
      && CanOccupy(WithMark(c1, c1.slots[p + fs].kind.f, false), u, p, fs, f)
  {
    hide Inv, Geometry, Readable;
    NextOf(c1, u, p, fs);
    if c1.units[u].cur > p + fs {
      var g := c1.slots[p + fs].kind.f;
      CanRead(c1, p + fs);
      ApartOf(c1);
      SizePositive(c1, p);
      SizePositive(c1, p + fs);
      OneBefore(c1.slots, p, p + fs);
      MarkInv(c1, p + fs, false);
      assert g != f;
    } else if p + fs in c1.slots && c1.slots[p + fs].unit == u {
      SlotFacts(c1, p + fs);
    }
  }

  /** Only one slot ends at q. */
  lemma OneBefore(slots: Slots, p: Pc, q: Pc)
    requires Apart(slots) && p in slots && q in slots && End(slots, p) == q && 0 < slots[p].size && !slots[p].kind.Free?
    requires 0 < slots[q].size
    ensures NoFreeBefore(slots, q)
  {
    forall x | x in slots && slots[x].kind.Free? && slots[x].unit == slots[q].unit ensures End(slots, x) != q {
      assert x < p || p < x;
    }
  }

  // ----- what placing amounts to

  lemma OccupyEffects(c: Core, c': Core, p: Pc, size: nat, f: FragId)
    requires IsOccupied(c, c', p, size, f) && c.slots[p].kind.Hole?
    ensures SameKeptBut(c.slots, c'.slots, p) && FreePlus(c.slots, c'.slots, 0, 0)
    ensures p in c'.slots && c'.slots[p].kind == Live(f) && c'.slots[p].size == c.slots[p].size
    ensures c'.slots[p].unit == c.slots[p].unit
    ensures f in c'.frags && c'.frags[f].size == c.frags[f].size && c'.frags[f].startPc == p + PTR
    ensures OthersSame(c.frags, c'.frags, f) && c'.units == c.units && c'.tops == c.tops && c'.head == c.head
    ensures c'.align == c.align
  {
    hide StorePtr, FreePlus;
    SameFreeBytes(c.slots, c'.slots);
  }

  lemma KeptButChain(s: Slots, s1: Slots, s2: Slots, p: Pc)
    requires SameKeptBut(s, s1, p) && SameKeptBut(s1, s2, p)
    ensures SameKeptBut(s, s2, p)
  {
    assert forall x :: x != p && (Kept(s, x) || Kept(s2, x)) ==> Kept(s1, x);
  }

  /** Units, tops, open unit and alignment are the same. */
  ghost predicate SameUnits(c: Core, c': Core) {
    c'.units == c.units && c'.tops == c.tops && c'.head == c.head && c'.align == c.align
  }

  lemma StillSteady(c: Core, c': Core, order: seq<UnitId>)
    requires Steady(c, order) && SameUnits(c, c') && NoHoles(c'.slots) && Inv(c')
    ensures Steady(c', order)
  {
    hide Inv;
  }

  /** The split path, end to end: c0 before, c1 with the entry off its list, c3 with the rest
      freed, c5 with the fragment in place. */
  lemma SplitTotal(
    c0: Core, c1: Core, c3: Core, c5: Core, order: seq<UnitId>, u: UnitId, p: Pc, fs: nat, size: nat, f: FragId)
    requires Steady(c0, order) && SameUnits(c0, c1) && c1.frags == c0.frags && Inv(c5)
    requires SameKept(c0.slots, c1.slots) && FreeMinus(c0.slots, c1.slots, p, p + fs) && !Kept(c0.slots, p)
    requires p in c1.slots && 0 < size < fs == c1.slots[p].size && AllFree(c0.slots, p, p + fs)
    requires SameKeptBut(c1.slots, SetAside(c1, p, size).slots, p)
    requires FreePlus(c1.slots, SetAside(c1, p, size).slots, 0, 0)
    requires Freed(SetAside(c1, p, size), c3, u, p + size, fs - size, false)
    requires p in c3.slots && c3.slots[p].kind.Lost? && c3.slots[p].size == size
    requires IsOccupied(Vacated(c3, p), c5, p, size, f) && f in c0.frags && Homeless(c0.slots, f)
    requires NoHoles(c5.slots) && Homeless(SetAside(c1, p, size).slots, f)
    ensures Placed(c0, c5, f, p, size) && FreeMinus(c0.slots, c5.slots, p, p + size) && Steady(c5, order)
    ensures SameUnits(c0, c5) && p in c5.slots && c5.slots[p].size == size && c5.slots[p].unit == c3.slots[p].unit
  {
    hide Inv, FreePlus, FreeMinus, SameKept, SameKeptBut, Steady, Kept, Homeless, Cut, OthersSame, SameButMarks;
    hide Occupied, AllFree, StrangersSame;
    var c2, c4 := SetAside(c1, p, size), Vacated(c3, p);
    OccupyEffects(c4, c5, p, size, f);
    assert SameUnits(c0, c5) by { assert SameUnits(c1, c2); }
    StillSteady(c0, c5, order);
    KeptToBut(c0.slots, c1.slots, p);
    KeptToBut(c2.slots, c3.slots, p);
    LostToHole(c3.slots, p);
    KeptButChain(c0.slots, c1.slots, c2.slots, p);
    KeptButChain(c0.slots, c2.slots, c3.slots, p);
    KeptButChain(c0.slots, c3.slots, c4.slots, p);
    KeptButChain(c0.slots, c4.slots, c5.slots, p);
    SplitBytes(c0.slots, c1.slots, c2.slots, c3.slots, c4.slots, c5.slots, p, fs, size);
    FragsTotal(c2.frags, c3.frags, c5.frags, f);
    HomelessSame(c0.slots, c1.slots);
    HomelessAside(c1, p, size);
    OccupiedFrags(c4, c5, p, size, f);
    StrangersVia(c0, c2, c3, c5, f);
  }

  lemma KeptToBut(s: Slots, s': Slots, p: Pc)
    requires SameKept(s, s')
    ensures SameKeptBut(s, s', p)
  {
  }

  lemma LostToHole(slots: Slots, p: Pc)
    requires p in slots && !slots[p].kind.Free?
    ensures SameKeptBut(slots, SetKind(slots, p, Hole), p) && FreePlus(slots, SetKind(slots, p, Hole), 0, 0)
  {
    SameFreeBytes(slots, SetKind(slots, p, Hole));
  }

  lemma SplitBytes(s0: Slots, s1: Slots, s2: Slots, s3: Slots, s4: Slots, s5: Slots, p: Pc, fs: nat, size: nat)
    requires size <= fs && FreeMinus(s0, s1, p, p + fs) && FreePlus(s1, s2, 0, 0)
    requires FreePlus(s2, s3, p + size, p + size + (fs - size))
    requires FreePlus(s3, s4, 0, 0) && FreePlus(s4, s5, 0, 0) && AllFree(s0, p, p + fs)
    ensures FreeMinus(s0, s5, p, p + size)
  {
    forall a: Pc ensures FreeByte(s5, a) <==> FreeByte(s0, a) && !(p <= a < p + size) {
      assert FreeByte(s5, a) <==> FreeByte(s4, a);
      assert FreeByte(s4, a) <==> FreeByte(s3, a);
      assert FreeByte(s3, a) <==> FreeByte(s2, a) || p + size <= a < p + fs;
      assert FreeByte(s2, a) <==> FreeByte(s1, a);
    }
  }

  lemma FragsTotal(fs: Frags, fs1: Frags, fs2: Frags, f: FragId)
    requires SameButMarks(fs, fs1) && OthersSame(fs1, fs2, f) && f in fs
    ensures OthersSame(fs, fs2, f)
  {
  }

  lemma HomelessAside(c: Core, p: Pc, size: nat)
    requires p in c.slots && 0 < size < c.slots[p].size
    ensures forall g :: Homeless(c.slots, g) ==> Homeless(SetAside(c, p, size).slots, g)
    ensures SetAside(c, p, size).frags == c.frags
  {
  }

  lemma OccupiedFrags(c: Core, c': Core, p: Pc, size: nat, f: FragId)
    requires IsOccupied(c, c', p, size, f)
    ensures f in c'.frags && c'.frags == c.frags[f := c'.frags[f]]
  {
    hide Place;
  }

  /** Fragments in no slot stay the same while bytes are freed and the fragment is placed. */
  lemma StrangersVia(c0: Core, c2: Core, c3: Core, c5: Core, f: FragId)
    requires c2.frags == c0.frags && forall g :: Homeless(c0.slots, g) ==> Homeless(c2.slots, g)
    requires forall g :: g in c2.frags && Homeless(c2.slots, g) ==> g in c3.frags && c3.frags[g] == c2.frags[g]
    requires f in c5.frags && c5.frags == c3.frags[f := c5.frags[f]]
    ensures StrangersSame(c0, c5, f)
  {
    hide Homeless;
  }

  /** The other path: the whole entry is taken, and what follows it loses its mark. */
  lemma WholeTotal(c0: Core, c1: Core, c4: Core, c5: Core, order: seq<UnitId>, p: Pc, fs: nat, size: nat, f: FragId)
    requires Steady(c0, order) && SameUnits(c0, c1) && c1.frags == c0.frags && Inv(c5) && NoHoles(c5.slots)
    requires SameKept(c0.slots, c1.slots) && FreeMinus(c0.slots, c1.slots, p, p + fs) && !Kept(c0.slots, p)
    requires p in c1.slots && c1.slots[p].kind.Hole? && size <= fs == c1.slots[p].size && f in c0.frags
    requires Homeless(c1.slots, f)
    requires c4 == c1 || (exists g :: g in c1.frags && g != f && !Homeless(c1.slots, g) && c4 == WithMark(c1, g, false))
    requires IsOccupied(c4, c5, p, fs, f)
    ensures Placed(c0, c5, f, p, size) && FreeMinus(c0.slots, c5.slots, p, p + fs) && Steady(c5, order)
    ensures SameUnits(c0, c5) && p in c5.slots && c5.slots[p].size == fs && c5.slots[p].unit == c1.slots[p].unit
  {
    hide Inv, FreePlus, FreeMinus, SameKept, SameKeptBut, Steady, Kept, Homeless, OthersSame, Occupied, StrangersSame;
    assert SameUnits(c1, c4) && c4.slots == c1.slots;
    OccupyEffects(c4, c5, p, fs, f);
    StillSteady(c0, c5, order);
    KeptToBut(c0.slots, c1.slots, p);
    KeptButChain(c0.slots, c1.slots, c5.slots, p);
    EffectsBytes(c0.slots, c1.slots, c5.slots, p, p + fs);
    assert SameButMarks(c1.frags, c4.frags);
    FragsTotal(c1.frags, c4.frags, c5.frags, f);
    HomelessSame(c0.slots, c1.slots);
    OccupiedFrags(c4, c5, p, fs, f);
    StrangersVia(c0, c1, c4, c5, f);
  }

  lemma EffectsBytes(s: Slots, s1: Slots, s2: Slots, lo: int, hi: int)
    requires FreeMinus(s, s1, lo, hi) && FreePlus(s1, s2, 0, 0)
    ensures FreeMinus(s, s2, lo, hi)
  {
    forall a: Pc ensures FreeByte(s2, a) <==> FreeByte(s, a) && !(lo <= a < hi) {
      assert FreeByte(s2, a) <==> FreeByte(s1, a);
    }
  }

  lemma TakeStart(c: Core, order: seq<UnitId>, f: FragId, size: nat, b: nat, k: nat, p: Pc)
    requires Steady(c, order) && Request(c, f, size) && ListedAs(c, b, k, p) && p in c.slots && c.slots[p].kind.Free?
    ensures Inv(c) && !Kept(c.slots, p) && AllFree(c.slots, p, p + c.slots[p].size)
    ensures p + SIZE_AT in c.mem && c.mem[p + SIZE_AT] == Num(c.slots[p].size)
  {
    hide Inv, Request, ListedAs, AllFree, EntryAt;
    SlotIsFree(c.slots, p);
    var kk := FreeEntry(c, p);
    EntrySize(c.mem, p, c.slots[p].size);
  }

  /** What find_free_list_slot goes on with once the entry is off its list. */
  lemma TakeMiddle(c0: Core, c1: Core, order: seq<UnitId>, f: FragId, size: nat, p: Pc, u: UnitId, fs: nat)
    requires Steady(c0, order) && Request(c0, f, size) && fs >= size
    requires HoleAt(c1, u, p, fs) && SameKept(c0.slots, c1.slots)
    requires c1.units == c0.units && c1.tops == c0.tops && c1.head == c0.head && c1.align == c0.align
    requires c1.frags == c0.frags
    ensures SameUnits(c0, c1) && p in c1.slots && c1.slots[p] == Slot(fs, u, Hole)
    ensures u in c1.units && c1.units[u].start <= p < c1.units[u].reserved && UnitsOk(c1.units, c1.tops)
    ensures |order| > 0 && c1.head == order[0] && u in c1.tops && c1.tops[u] == c1.units[u].cur
    ensures f in c1.frags && Homeless(c1.slots, f) && Homeless(c0.slots, f)
    ensures !c1.frags[f].flags.freeList && !c1.frags[f].flags.followsFree
    ensures c1.frags[f].size + PTR <= size <= c1.frags[f].size + 91 && MIN_SLOT <= size
    ensures IsAlign(c1.align) && Aligned(size, c1.align)
  {
    hide Inv, Geometry, Aligned, OnlyHole, Homeless, SameKept, NoHoles;
    HomelessSame(c0.slots, c1.slots);
    NextOf(c1, u, p, fs);
    SizePositive(c1, p);
    UnitsOkOf(c1);
    SlotFacts(c1, p);
  }

  lemma UnitsOkOf(c: Core)
    requires Inv(c)
    ensures UnitsOk(c.units, c.tops)
  {
    hide Tiled, UnitsOk, Sized, SlotsAligned, UnitsAligned, MemOk, FragsOk, Normal, HeadersOk, Listed, Linked, Counted;
  }

  lemma AsideKeeps(c: Core, p: Pc, size: nat, f: FragId)
    requires p in c.slots && c.slots[p].kind.Hole? && 0 < size < c.slots[p].size && Homeless(c.slots, f)
    ensures Homeless(SetAside(c, p, size).slots, f) && SetAside(c, p, size).frags == c.frags
    ensures SetAside(c, p, size) == c.(slots := SetAside(c, p, size).slots) && SameUnits(c, SetAside(c, p, size))
  {
  }

  /** The entry at p is off its list and fragment f may have size of its fs bytes. */
  ghost predicate Taking(c0: Core, c1: Core, order: seq<UnitId>, u: UnitId, p: Pc, fs: nat, size: nat, f: FragId) {
    && Steady(c0, order) && SameUnits(c0, c1) && c1.frags == c0.frags && size <= fs
    && SameKept(c0.slots, c1.slots) && FreeMinus(c0.slots, c1.slots, p, p + fs) && !Kept(c0.slots, p)
    && AllFree(c0.slots, p, p + fs)
    && p in c0.slots && c0.slots[p].kind.Free? && c0.slots[p].unit == u
    && HoleAt(c1, u, p, fs) && NoFreeBefore(c1.slots, p) && Sealed(c1, p)
    && (u == c1.head ==> End(c1.slots, p) != c1.tops[u])
    && |order| > 0 && c1.head == order[0] && c1.tops[u] == c1.units[u].cur
    && f in c1.frags && Homeless(c1.slots, f) && Homeless(c0.slots, f)
    && !c1.frags[f].flags.freeList && !c1.frags[f].flags.followsFree
    && c1.frags[f].size + PTR <= size <= c1.frags[f].size + 91 && MIN_SLOT <= size
    && IsAlign(c1.align) && Aligned(size, c1.align)
  }

  ghost predicate Taken(c0: Core, c': Core, order: seq<UnitId>, p: Pc, size: nat, f: FragId) {
    && Placed(c0, c', f, p, size) && p in c'.slots && FreeMinus(c0.slots, c'.slots, p, p + c'.slots[p].size)
    && p in c0.slots && c0.slots[p].kind.Free? && c0.slots[p].unit == c'.slots[p].unit
    && Steady(c', order) && SameUnits(c0, c')
  }

  lemma HasHome(slots: Slots, p: Pc, f: FragId)
    requires p in slots && slots[p].kind == Live(f)
    ensures !Homeless(slots, f)
  {
  }

  lemma LiveNotHomeless(slots: Slots, p: Pc, f: FragId)
    requires Homeless(slots, f) && p in slots && slots[p].kind.Live?
    ensures slots[p].kind.f != f
  {
  }
}
