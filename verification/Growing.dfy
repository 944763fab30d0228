/** Appending to the first unit, closing it, committing more of it, and adding a new one. */
module Growing {
  import opened Options
  import opened Memory
  import opened Alignment
  import opened Layout
  import opened Coalescing
  import opened FreeLists
  import opened SharedModel
  import opened CacheFacts
  import opened Freeing
  import opened Placing
  import opened Requests
  import opened Removing


  // ----- appending at the end of the first unit

  /** The first unit's append point moves up by n; the bytes passed are a hole. */
  ghost function Grown(c: Core, u: UnitId, n: nat): Core
    requires u in c.tops && u in c.units
  {
    var c1 := Appended(c, u, n);
    c1.(units := c.units[u := c.units[u].(cur := c.tops[u] + n, full := c.tops[u] + n == c.units[u].end)])
  }

  lemma TopClear(c: Core, u: UnitId, n: nat)
    requires u in c.tops && c.head == u && c.tops[u] !in c.slots
    requires Inv(c)
    ensures NoFreeBefore(Appended(c, u, n).slots, c.tops[u])
  {
    hide Geometry, NextMarked, MarksOk, FragsOk, HeadersOk, Listed, Linked, Counted;
    var s' := Appended(c, u, n).slots;
    forall q | q in s' && s'[q].kind.Free? && s'[q].unit == s'[c.tops[u]].unit ensures End(s', q) != c.tops[u] {
      assert End(s', q) == End(c.slots, q);
    }
  }

  lemma GrowSettling(c: Core, order: seq<UnitId>, u: UnitId, n: nat)
    requires |order| > 0 && u == order[0] && u in c.units && u in c.tops && 0 < n && c.tops[u] + n <= c.units[u].end
    requires IsAlign(c.align) && Aligned(n, c.align)
    requires Settled(c, order)
    ensures c.tops[u] == c.units[u].cur && c.tops[u] !in c.slots
    ensures Settling(Grown(c, u, n), order) && HoleAt(Grown(c, u, n), u, c.tops[u], n)
    ensures NoFreeBefore(Grown(c, u, n).slots, c.tops[u])
    ensures End(Grown(c, u, n).slots, c.tops[u]) == Grown(c, u, n).tops[u]
    ensures SameKept(c.slots, Grown(c, u, n).slots) && FreePlus(c.slots, Grown(c, u, n).slots, 0, 0)
  {
    hide Inv, Geometry, UnitsFull, LostOk, FlushedOk, Aligned, OnlyHole, NoHoles, NoFreeBefore, SameKept, FreePlus;
    hide SameOwned;
    SteadyFacts(c, order);
    AppendInv(c, u, n);
    var c1 := Appended(c, u, n);
    TopClear(c, u, n);
    ApartOf(c1);
    UnitFacts(c1, u);
    UnitInv(c1, u, Grown(c, u, n).units[u], c1.mem);
    AddHole(c.slots, c.tops[u], n, u);
    OwnedEffects(c.slots, c1.slots);
    GrowFlags(c, Grown(c, u, n), u, n);
    LostFromKept(c.slots, c1.slots);
    LostKept(c, Grown(c, u, n));
  }

  lemma GrowFlags(c: Core, c': Core, u: UnitId, n: nat)
    requires u in c.tops && u in c.units && c' == Grown(c, u, n) && c.tops[u] !in c.slots
    requires UnitsFull(c.units, c.head) && FlushedOk(c.units, c.slots) && NoHoles(c.slots) && u == c.head
    ensures UnitsFull(c'.units, c.head) && FlushedOk(c'.units, c'.slots) && OnlyHole(c'.slots, c.tops[u])
  {
  }

  /** The fragment may go where the append point was. */
  lemma GrowOccupy(c: Core, c1: Core, order: seq<UnitId>, u: UnitId, n: nat, f: FragId)
    requires u in c.tops && HoleAt(c1, u, c.tops[u], n) && NoFreeBefore(c1.slots, c.tops[u]) && c1.frags == c.frags
    requires u in c1.tops && End(c1.slots, c.tops[u]) == c1.tops[u] && n >= MIN_SLOT
    requires SameKept(c.slots, c1.slots) && f in c.frags && Homeless(c.slots, f) && Settling(c1, order)
    requires !c.frags[f].flags.freeList && !c.frags[f].flags.followsFree
    requires c.frags[f].size + PTR <= n <= c.frags[f].size + 255
    ensures CanOccupy(c1, u, c.tops[u], n, f)
  {
    hide Inv, Geometry, UnitsFull, LostOk, FlushedOk, OnlyHole, NoFreeBefore, SameKept;
    HomelessSame(c.slots, c1.slots);
    var q := End(c1.slots, c.tops[u]);
    if q in c1.slots && c1.slots[q].unit == u {
      ApartOf(c1);
      SlotFacts(c1, q);
    }
  }

  lemma OccupiedSettled(c1: Core, c2: Core, order: seq<UnitId>, p: Pc, size: nat, f: FragId)
    requires Settling(c1, order) && p in c1.slots && c1.slots[p].kind.Hole? && IsOccupied(c1, c2, p, size, f) && Inv(c2)
    requires NoHoles(c2.slots)
    ensures Settled(c2, order)
  {
    hide Inv, UnitsFull, LostOk, FlushedOk, NoHoles, StorePtr, Place, SetKind;
    OccupyFlags(c1.units, c1.slots, p, f);
    ApartOf(c1);
    ApartOf(c2);
    LostKept(c1, c2);
    SettledAgain(c2, order);
  }

  lemma OccupyFlags(units: Units, slots: Slots, p: Pc, f: FragId)
    requires FlushedOk(units, slots) && p in slots
    ensures FlushedOk(units, SetKind(slots, p, Live(f)))
    ensures forall x :: x in SetKind(slots, p, Live(f)) && SetKind(slots, p, Live(f))[x].kind.Lost? ==>
      x in slots && slots[x] == SetKind(slots, p, Live(f))[x]
  {
  }

  /** Taking a free slot keeps the cache settled, and the slot is in no flushed unit. */
  lemma TakenSettled(c: Core, c': Core, order: seq<UnitId>, p: Pc, size: nat, f: FragId)
    requires Settled(c, order) && Taken(c, c', order, p, size, f)
    ensures Settled(c', order) && c'.slots[p].unit in c'.units && !c'.units[c'.slots[p].unit].pendingFree
  {
    hide Inv, Geometry, UnitsFull, LostOk, NoHoles, OthersSame;
    SteadyFacts(c, order);
    ApartOf(c');
    assert forall x :: x in c'.slots && c'.slots[x].kind.Lost? ==> Kept(c'.slots, x) && x != p;
    LostKept(c, c');
    assert c.slots[p].unit in c.units by { ApartOf(c); SlotFacts(c, p); }
    assert forall a: Pc :: FreeByte(c'.slots, a) ==> FreeByte(c.slots, a);
    var start := c.units[c.slots[p].unit].start;
    FlushedKept(c, c', c.slots[p].unit, start, start) by { ApartOf(c); UnitFacts(c, c.slots[p].unit); }
  }

  // ----- closing the first unit

  /** Every unit is full and used to its end; no unit is being filled. */
  ghost predicate ClosedUp(c: Core) {
    && c.head == NONE && Inv(c) && NoHoles(c.slots)
    && (forall u :: u in c.units ==> u in c.tops && c.tops[u] == c.units[u].cur)
    && UnitsFull(c.units, NONE) && LostOk(c.units, c.slots) && FlushedOk(c.units, c.slots)
  }

  lemma NoHead(c: Core)
    requires Inv(c)
    ensures Inv(c.(head := NONE))
  {
    hide NextMarked, MarksOk, FragsOk, HeadersOk, Listed, Linked, Counted, Geometry;
    GeometryFrame(c, c.(head := NONE));
  }

  ghost function AtEnd(c: Core, u: UnitId): Core
    requires u in c.units
  {
    c.(units := c.units[u := c.units[u].(cur := c.units[u].end, full := true)])
  }

  /** The flags of all units once the first one is filled to its end. */
  lemma EndFlags(c: Core, c': Core, u: UnitId, head: int)
    requires UnitsFull(c.units, head) && u in c.units && u == head && c'.units == AtEnd(c, u).units
    ensures UnitsFull(c'.units, NONE)
  {
  }

  /** The append point is already at the end. */
  lemma CloseFull(c: Core, order: seq<UnitId>, u: UnitId)
    requires |order| > 0 && u == order[0] && u in c.units && c.units[u].cur == c.units[u].end
    requires Settled(c, order)
    ensures ClosedUp(AtEnd(c, u).(head := NONE))
    ensures FreePlus(c.slots, c.slots, 0, 0) && SameKeptBut(c.slots, c.slots, c.units[u].cur)
  {
    hide Inv, UnitsFull, LostOk, FlushedOk, NoHoles, Geometry, FreePlus;
    SteadyFacts(c, order);
    NoHead(c);
    var c1 := c.(head := NONE);
    ApartOf(c1);
    UnitFacts(c1, u);
    UnitInv(c1, u, AtEnd(c, u).units[u], c1.mem);
    EndFlags(c, AtEnd(c, u), u, c.head);
    LostKept(c1, AtEnd(c1, u));
    FlushedChopNone(c.units, AtEnd(c, u).units, c.slots);
    SameFreeBytes(c.slots, c.slots);
  }

  lemma FlushedChopNone(units: Units, units': Units, slots: Slots)
    requires FlushedOk(units, slots) && units'.Keys == units.Keys
    requires forall u :: u in units ==> units'[u].pendingFree == units[u].pendingFree
    ensures FlushedOk(units', slots)
  {
  }

  /** The hole that takes the rest of the unit, with no unit open. */
  lemma CloseHole(c: Core, order: seq<UnitId>, u: UnitId, left: nat)
    requires |order| > 0 && u == order[0] && u in c.units && u in c.tops && 0 < left
    requires c.units[u].cur + left == c.units[u].end
    requires Settled(c, order)
    ensures c.tops[u] == c.units[u].cur && c.tops[u] !in c.slots
    ensures var c1 := Appended(c.(head := NONE), u, left);
      && HoleAt(c1, u, c.units[u].cur, left) && NoFreeBefore(c1.slots, c.units[u].cur)
      && End(c1.slots, c.units[u].cur) == c.units[u].end
      && SameKept(c.slots, c1.slots) && FreePlus(c.slots, c1.slots, 0, 0) && FlushedOk(c1.units, c1.slots)
  {
    hide Inv, UnitsFull, LostOk, NoHoles, Geometry, SameKept, FreePlus, SameOwned, Aligned, NoFreeBefore;
    SteadyFacts(c, order);
    ApartOf(c);
    UnitFacts(c, u);
    AlignOf(c);
    AlignedSum(c.units[u].end, c.tops[u], c.align);
    AppendInv(c, u, left);
    TopClear(c, u, left);
    NoHead(c);
    AppendInv(c.(head := NONE), u, left);
    AddHole(c.slots, c.tops[u], left, u);
    OwnedEffects(c.slots, Appended(c, u, left).slots);
    HoleOnly(c.slots, c.tops[u], left, u);
  }

  lemma HoleOnly(slots: Slots, p: Pc, n: nat, u: UnitId)
    requires NoHoles(slots)
    ensures OnlyHole(slots[p := Slot(n, u, Hole)], p)
  {
  }

  lemma AlignOf(c: Core)
    requires Inv(c)
    ensures IsAlign(c.align)
  {
    hide Tiled, UnitsOk, Sized, SlotsAligned, UnitsAligned, MemOk, FragsOk, Normal, HeadersOk, Listed, Linked, Counted;
  }

  /** Enough bytes remain: they become a free slot before the append point passes them. */
  lemma CloseReady(c: Core, order: seq<UnitId>, u: UnitId, left: nat)
    requires |order| > 0 && u == order[0] && u in c.units && u in c.tops && MIN_SLOT <= left
    requires c.units[u].cur + left == c.units[u].end
    requires Settled(c, order)
    ensures c.tops[u] == c.units[u].cur && c.tops[u] !in c.slots
    ensures CanFree(Appended(c.(head := NONE), u, left), order, u, None, c.units[u].cur, left)
  {
    hide Inv, Geometry, UnitsFull, LostOk, FlushedOk, NoHoles, NoFreeBefore, SameKept, FreePlus, OnlyHole;
    CloseHole(c, order, u, left);
  }

  lemma CloseFreed(c: Core, c2: Core, order: seq<UnitId>, u: UnitId, left: nat)
    requires |order| > 0 && u == order[0] && u in c.units && u in c.tops && MIN_SLOT <= left
    requires c.units[u].cur + left == c.units[u].end
    requires Settled(c, order)
    requires Freed(Appended(c.(head := NONE), u, left), c2, u, c.units[u].cur, left, false)
    ensures ClosedUp(AtEnd(c2, u)) && SameKept(c.slots, c2.slots)
    ensures FreePlus(c.slots, c2.slots, c.units[u].cur, c.units[u].end)
    ensures SameButMarks(c.frags, c2.frags) && c2.units == c.units
  {
    hide Inv, Geometry, UnitsFull, LostOk, FlushedOk, NoHoles, NoFreeBefore, SameKept, FreePlus, OnlyHole, SameButMarks;
    hide Homeless;
    SteadyFacts(c, order);
    CloseHole(c, order, u, left);
    var c1 := Appended(c.(head := NONE), u, left);
    ApartOf(c1);
    ApartOf(c2);
    UnitFacts(c2, u);
    UnitInv(c2, u, AtEnd(c2, u).units[u], c2.mem);
    EndFlags(c, AtEnd(c2, u), u, c.head);
    LiveChain(c.slots, c1.slots, c2.slots);
    LostFromKept(c.slots, c2.slots);
    LostKept(c, AtEnd(c2, u));
    BytesAfter(c.slots, c1.slots, c2.slots, c.units[u].cur, c.units[u].end, 0);
    FlushedAfter(c1, c2, u, c.units[u].cur, c.units[u].end);
    FlushedChopNone(c2.units, AtEnd(c2, u).units, c2.slots);
  }

  lemma FlushedAfter(c1: Core, c2: Core, u: UnitId, lo: Pc, hi: Pc)
    requires Inv(c1) && Inv(c2) && FlushedOk(c1.units, c1.slots) && u in c1.units && !c1.units[u].pendingFree
    requires c2.units == c1.units
    requires FreePlus(c1.slots, c2.slots, lo, hi) && c1.units[u].start <= lo && hi <= c1.units[u].end
    ensures FlushedOk(c2.units, c2.slots)
  {
    hide Inv, Geometry, FlushedOk;
    ApartOf(c1);
    UnitFacts(c1, u);
    assert forall a: Pc :: FreeByte(c2.slots, a) ==> FreeByte(c1.slots, a) || lo <= a < hi;
    FlushedKept(c1, c2, u, lo, hi);
  }

  // ----- committing more of the first unit

  /** Newly mapped words; what is mapped already keeps its contents. */
  function RawWords(lo: Pc, hi: Pc): Mem { map a: nat | lo <= a < hi && a % 4 == 0 :: Raw }

  lemma CommitSettled(c: Core, order: seq<UnitId>, u: UnitId, n: nat)
    requires |order| > 0 && u == order[0] && u in c.units && 0 < n && c.units[u].end + n <= c.units[u].reserved
    requires (c.units[u].end + n) % PAGE == 0
    requires Settled(c, order)
    ensures Settled(c.(units := c.units[u := c.units[u].(end := c.units[u].end + n, full := false)],
                       mem := RawWords(c.units[u].end, c.units[u].end + n) + c.mem), order)
  {
    hide Inv, Geometry, UnitsFull, LostOk, FlushedOk, NoHoles, Aligned;
    SteadyFacts(c, order);
    ApartOf(c);
    UnitFacts(c, u);
    AlignOf(c);
    PageAligned(c.units[u].end + n, c.align);
    var unit := c.units[u].(end := c.units[u].end + n, full := false);
    UnitInv(c, u, unit, RawWords(c.units[u].end, unit.end) + c.mem);
    var c' := c.(units := c.units[u := unit], mem := RawWords(c.units[u].end, unit.end) + c.mem);
    LostKept(c, c');
    FlushedChopNone(c.units, c'.units, c.slots);
    CommitFlags(c.units, u, n, c.head);
  }

  lemma CommitFlags(units: Units, u: UnitId, n: nat, head: int)
    requires UnitsFull(units, head) && u in units && u == head && units[u].cur <= units[u].end && 0 < n
    ensures UnitsFull(units[u := units[u].(end := units[u].end + n, full := false)], head)
  {
  }

  // ----- a new unit

  ghost predicate Elsewhere(units: Units, unit: Unit) {
    forall v :: v in units ==> units[v].reserved <= unit.start || unit.reserved <= units[v].start
  }

  /** A unit with nothing in it. */
  predicate Blank(unit: Unit) {
    && unit.cur == unit.start < unit.end <= unit.reserved && unit.reserved - unit.start <= UINT_MAX
    && !unit.full && !unit.pendingFree && unit.attached && unit.start % PAGE == 0 && unit.end % PAGE == 0
  }

  ghost function Opened(c: Core, u: UnitId, unit: Unit): Core {
    c.(units := c.units[u := unit], tops := c.tops[u := unit.start],
       head := u, mem := RawWords(unit.start, unit.end) + c.mem)
  }

  lemma OpenGeometry(c: Core, u: UnitId, unit: Unit)
    requires Geometry(c) && u !in c.units && Blank(unit) && Elsewhere(c.units, unit)
    ensures Geometry(Opened(c, u, unit))
  {
    hide Aligned, Apart, Chained, Housed, Rooted, MemOk, Sized, SlotsAligned, UnitsOk, UnitsAligned, Elsewhere;
    hide RawWords;
    UnitsKeys(c.units, c.tops);
    OpenUnits(c, u, unit);
    OpenAligned(c, u, unit);
    OpenHoused(c.units, c.tops, c.slots, u, unit);
    OpenRooted(c.units, c.tops, c.slots, u, unit);
    OpenMem(c, u, unit);
  }

  lemma OpenUnits(c: Core, u: UnitId, unit: Unit)
    requires UnitsOk(c.units, c.tops) && u !in c.units && Blank(unit) && Elsewhere(c.units, unit)
    ensures UnitsOk(c.units[u := unit], c.tops[u := unit.start])
  {
  }

  lemma OpenAligned(c: Core, u: UnitId, unit: Unit)
    requires IsAlign(c.align) && c.tops.Keys == c.units.Keys && UnitsAligned(c.align, c.units, c.tops) && Blank(unit)
    ensures UnitsAligned(c.align, c.units[u := unit], c.tops[u := unit.start])
  {
    hide Aligned;
    PageAligned(unit.start, c.align);
    PageAligned(unit.end, c.align);
  }

  lemma OpenMem(c: Core, u: UnitId, unit: Unit)
    requires MemOk(c.mem, c.units)
    ensures MemOk(RawWords(unit.start, unit.end) + c.mem, c.units[u := unit])
  {
    var m', units' := RawWords(unit.start, unit.end) + c.mem, c.units[u := unit];
    forall v, a | v in units' && units'[v].start <= a < units'[v].end && a % 4 == 0 ensures a in m' {
      if v != u { WordMapped(c.mem, c.units, v, a); }
    }
  }

  lemma OpenNormal(c: Core, u: UnitId, unit: Unit)
    requires Normal(c.tops, c.slots, c.frags, c.head) && u !in c.tops
    requires forall p :: p in c.slots ==> c.slots[p].unit in c.tops
    ensures Normal(c.tops[u := unit.start], c.slots, c.frags, u)
  {
  }

  lemma OpenSettled(c: Core, order: seq<UnitId>, u: UnitId, unit: Unit)
    requires ClosedUp(c) && u !in c.units && Blank(unit) && Elsewhere(c.units, unit)
    ensures Settled(Opened(c, u, unit), [u] + order)
  {
    hide Geometry, Normal, FragsOk, HeadersOk, Listed, Linked, Counted, UnitsFull, LostOk, FlushedOk, NoHoles;
    hide Elsewhere;
    var c' := Opened(c, u, unit);
    OpenGeometry(c, u, unit);
    HeadersGrow(c.mem, c'.mem, c.slots);
    LinkedGrow(c.mem, c'.mem, c.heads, c.lists);
    UnitsKnown(c);
    OpenNormal(c, u, unit);
    OpenFlags(c, u, unit);
  }

  lemma UnitsKnown(c: Core)
    requires Geometry(c)
    ensures c.tops.Keys == c.units.Keys && forall p :: p in c.slots ==> c.slots[p].unit in c.tops
  {
    hide Apart, Chained, Rooted, SlotsAligned, UnitsAligned, MemOk, Sized;
  }

  lemma OpenFlags(c: Core, u: UnitId, unit: Unit)
    requires UnitsFull(c.units, NONE) && LostOk(c.units, c.slots) && FlushedOk(c.units, c.slots) && Blank(unit)
    requires u !in c.units && c.tops.Keys == c.units.Keys && forall p :: p in c.slots ==> c.slots[p].unit in c.tops
    ensures UnitsFull(c.units[u := unit], u) && FlushedOk(c.units[u := unit], c.slots)
    ensures LostOk(c.units[u := unit], c.slots)
  {
  }

  // ----- what adding a fragment amounts to

  ghost predicate IsLive(slots: Slots, p: Pc) { p in slots && slots[p].kind.Live? }

  /** The same fragments live in the same slots. */
  ghost predicate SameLive(s: Slots, s': Slots) {
    forall x :: IsLive(s, x) || IsLive(s', x) ==> IsLive(s, x) && IsLive(s', x) && s[x] == s'[x]
  }

  /** Fragment f has been put into the slot at p, which is large enough and met no live slot;
      every other fragment is where it was. */
  ghost predicate Landed(c: Core, c': Core, f: FragId, p: Pc, size: nat) {
    && LivesAt(c', f, p) && c'.slots[p].size >= size
    && (forall x :: x != p && (IsLive(c.slots, x) || IsLive(c'.slots, x)) ==>
          IsLive(c.slots, x) && IsLive(c'.slots, x) && c.slots[x] == c'.slots[x])
    && !IsLive(c.slots, p)
    && f in c.frags && f in c'.frags && c'.frags[f].size == c.frags[f].size && c'.frags[f].startPc == p + PTR
    && OthersSame(c.frags, c'.frags, f) && StrangersSame(c, c', f)
    && c'.slots[p].unit in c'.units && !c'.units[c'.slots[p].unit].pendingFree
  }

  /** The record of the fragment, and what stays where it was. */
  lemma LandedMeans(c: Core, c': Core, f: FragId, p: Pc, size: nat)
    requires Landed(c, c', f, p, size)
    ensures p in c'.slots && c'.slots[p].kind == Live(f) && c'.slots[p].size >= size
    ensures f in c'.frags && f in c.frags && c'.frags[f].startPc == p + 8 && c'.frags[f].size == c.frags[f].size
    ensures forall q :: q in c.slots && c.slots[q].kind.Live? ==> q in c'.slots && c'.slots[q] == c.slots[q] && q != p
    ensures forall g :: g in c.frags && g != f ==> g in c'.frags && Unmarked(c'.frags[g]) == Unmarked(c.frags[g])
  {
    hide StrangersSame;
    forall q | q in c.slots && c.slots[q].kind.Live?
      ensures q in c'.slots && c'.slots[q] == c.slots[q] && q != p
    {
      assert IsLive(c.slots, q);
    }
  }

  lemma LandedFrom(c: Core, c': Core, f: FragId, p: Pc, size: nat)
    requires Placed(c, c', f, p, size) && c'.slots[p].unit in c'.units && !c'.units[c'.slots[p].unit].pendingFree
    ensures Landed(c, c', f, p, size)
  {
    hide OthersSame, StrangersSame;
    forall x | x != p && (IsLive(c.slots, x) || IsLive(c'.slots, x))
      ensures IsLive(c.slots, x) && IsLive(c'.slots, x) && c.slots[x] == c'.slots[x]
    {
      assert Kept(c.slots, x) || Kept(c'.slots, x);
    }
    assert IsLive(c.slots, p) ==> Kept(c.slots, p);
  }

  lemma LandedAfter(c: Core, c1: Core, c2: Core, f: FragId, p: Pc, size: nat)
    requires SameLive(c.slots, c1.slots) && SameButMarks(c.frags, c1.frags) && f in c.frags && f in c1.frags
    requires c1.frags[f] == c.frags[f]
    requires HomelessKept(c, c1)
    requires Landed(c1, c2, f, p, size)
    ensures Landed(c, c2, f, p, size)
  {
    hide OthersSame, SameButMarks, StrangersSame, Homeless, HomelessKept;
    forall x | x != p && (IsLive(c.slots, x) || IsLive(c2.slots, x))
      ensures IsLive(c.slots, x) && IsLive(c2.slots, x) && c.slots[x] == c2.slots[x]
    {
      assert IsLive(c.slots, x) ==> IsLive(c1.slots, x);
      assert IsLive(c2.slots, x) ==> IsLive(c1.slots, x);
    }
    assert IsLive(c.slots, p) ==> IsLive(c1.slots, p);
    MarksThenOthers(c.frags, c1.frags, c2.frags, f);
    StrangersLater(c, c1, c2, f);
  }

  lemma StrangersLater(c: Core, c1: Core, c2: Core, f: FragId)
    requires SameLive(c.slots, c1.slots) && HomelessKept(c, c1) && StrangersSame(c1, c2, f)
    ensures StrangersSame(c, c2, f)
  {
    hide Homeless, SameLive;
    forall g | g in c.frags && g != f && Homeless(c.slots, g) ensures g in c2.frags && c2.frags[g] == c.frags[g] {
      LiveHomeless(c.slots, c1.slots, g);
    }
  }

  lemma MarksThenOthers(fs: Frags, fs1: Frags, fs2: Frags, f: FragId)
    requires SameButMarks(fs, fs1) && OthersSame(fs1, fs2, f)
    ensures OthersSame(fs, fs2, f)
  {
  }

  /** With the first unit, u, grown by n bytes, fragment f can take them. */
  ghost predicate ReadyAtEnd(c: Core, order: seq<UnitId>, u: UnitId, n: nat, f: FragId) {
    && u in c.tops && u in c.units && c.tops[u] !in c.slots && f in c.frags && !c.units[u].pendingFree
    && var c1 := Grown(c, u, n);
       SameKept(c.slots, c1.slots) && CanOccupy(c1, u, c.tops[u], n, f) && Settling(c1, order)
  }

  lemma AppendReady(c: Core, order: seq<UnitId>, f: FragId, size: nat, u: UnitId, n: nat)
    requires |order| > 0 && u == order[0] && u in c.units && Request(c, f, size)
    requires c.units[u].end - c.units[u].cur >= size
    requires n ==
      (if c.units[u].end - c.units[u].cur - size < 128 then c.units[u].end - c.units[u].cur else size) || n == size
    requires Settled(c, order)
    ensures u in c.tops && c.tops[u] == c.units[u].cur && 0 < n && c.units[u].cur + n <= c.units[u].end
    ensures !c.units[u].full && ReadyAtEnd(c, order, u, n, f) && CanOccupy(Grown(c, u, n), u, c.tops[u], n, f)
  {
    hide Inv, Settled, Settling, HoleAt, NoFreeBefore, SameKept, CanOccupy, NoHoles, Homeless, Aligned, IsAlign;
    AppendStart(c, order, f, size, u, n);
    GrowSettling(c, order, u, n);
    AppendFull(c, order, u, n, 0, c.units[u]);
    GrowOccupy(c, Grown(c, u, n), order, u, n, f);
  }

  /** The append path, end to end. */
  lemma AppendDone(c: Core, c1: Core, c2: Core, order: seq<UnitId>, u: UnitId, n: nat, size: nat, f: FragId)
    requires ReadyAtEnd(c, order, u, n, f) && u in c.tops && u in c.units && c1 == Grown(c, u, n) && size <= n
    requires IsOccupied(c1, c2, c.tops[u], n, f) && Inv(c2) && NoHoles(c2.slots)
    ensures Settled(c2, order) && Landed(c, c2, f, c.tops[u], size)
  {
    hide Inv, Settling, OnlyHole, SameKept, SameKeptBut, OthersSame, StrangersSame, Kept, FreePlus, Occupied, Grown;
    hide NoHoles;
    var p := c.tops[u];
    OccupiedSettled(c1, c2, order, p, n, f);
    OccupyEffects(c1, c2, p, n, f);
    KeptToBut(c.slots, c1.slots, p);
    KeptButChain(c.slots, c1.slots, c2.slots, p);
    GrownFields(c, u, n);
    NotKept(c.slots, p);
    HomelessSame(c.slots, c1.slots);
    OccupiedFrags(c1, c2, p, n, f);
    StrangersVia(c, c1, c1, c2, f);
    LandedFrom(c, c2, f, p, size);
  }

  lemma NotKept(slots: Slots, p: Pc)
    requires p !in slots
    ensures !Kept(slots, p)
  {
  }

  lemma GrownFields(c: Core, u: UnitId, n: nat)
    requires u in c.tops && u in c.units
    ensures Grown(c, u, n).frags == c.frags && u in Grown(c, u, n).units
    ensures Grown(c, u, n).units[u].pendingFree == c.units[u].pendingFree
  {
  }

  /** What the append path starts from. */
  lemma AppendStart(c: Core, order: seq<UnitId>, f: FragId, size: nat, u: UnitId, n: nat)
    requires |order| > 0 && u == order[0] && u in c.units && Request(c, f, size)
    requires c.units[u].end - c.units[u].cur >= size
    requires n ==
      (if c.units[u].end - c.units[u].cur - size < 128 then c.units[u].end - c.units[u].cur else size) || n == size
    requires Settled(c, order)
    ensures 0 < n && u in c.tops && c.tops[u] == c.units[u].cur && c.tops[u] + n <= c.units[u].end
    ensures IsAlign(c.align) && Aligned(n, c.align) && !c.units[u].pendingFree
    ensures n >= MIN_SLOT && c.frags[f].size + PTR <= n <= c.frags[f].size + 255
    ensures f in c.frags && Homeless(c.slots, f) && !c.frags[f].flags.freeList && !c.frags[f].flags.followsFree
  {
    hide Inv, Geometry, UnitsFull, LostOk, FlushedOk, NoHoles, Aligned, Homeless;
    SteadyFacts(c, order);
    ApartOf(c);
    UnitFacts(c, u);
    AlignedSum(c.units[u].end, c.tops[u], c.align);
  }

  lemma AppendFull(c: Core, order: seq<UnitId>, u: UnitId, size: nat, extra: nat, unit: Unit)
    requires |order| > 0 && u == order[0] && u in c.units && u in c.tops && c.tops[u] == c.units[u].cur
    requires unit == c.units[u]
    requires 0 < size + extra && unit.cur + size + extra <= unit.end
    requires Settled(c, order)
    ensures unit.cur < unit.end && !unit.full
  {
    hide Inv, LostOk, FlushedOk, NoHoles;
  }

  /** Unit u has been filled to its end; what was left of it is a free slot. */
  ghost predicate Closed(c: Core, c': Core, u: UnitId) {
    && ClosedUp(c') && c'.align == c.align && u in c.units && c'.units == AtEnd(c, u).units
    && SameButMarks(c.frags, c'.frags) && HomelessKept(c, c')
    && SameKept(c.slots, c'.slots) && FreePlus(c.slots, c'.slots, c.units[u].cur, c.units[u].end)
  }

  /** Fragments that are in no slot are not touched. */
  ghost predicate HomelessKept(c: Core, c': Core) {
    forall g :: g in c.frags && Homeless(c.slots, g) ==> g in c'.frags && c'.frags[g] == c.frags[g]
  }

  lemma ClosedLive(c: Core, c': Core, u: UnitId)
    requires Closed(c, c', u)
    ensures SameLive(c.slots, c'.slots)
  {
    hide ClosedUp, SameButMarks, HomelessKept, FreePlus;
    forall x | IsLive(c.slots, x) || IsLive(c'.slots, x)
      ensures IsLive(c.slots, x) && IsLive(c'.slots, x) && c.slots[x] == c'.slots[x]
    {
      assert Kept(c.slots, x) || Kept(c'.slots, x);
    }
  }

  lemma CloseFullDone(c: Core, order: seq<UnitId>, u: UnitId)
    requires |order| > 0 && u == order[0] && u in c.units && c.units[u].cur == c.units[u].end
    requires Settled(c, order)
    ensures Closed(c, AtEnd(c, u).(head := NONE), u)
  {
    hide Settled, ClosedUp;
    CloseFull(c, order, u);
    assert SameButMarks(c.frags, c.frags) && SameKept(c.slots, c.slots);
    assert FreePlus(c.slots, c.slots, c.units[u].cur, c.units[u].end);
  }

  lemma CloseFreedDone(c: Core, c2: Core, order: seq<UnitId>, u: UnitId, left: nat)
    requires |order| > 0 && u == order[0] && u in c.units && u in c.tops && MIN_SLOT <= left
    requires c.units[u].cur + left == c.units[u].end
    requires Settled(c, order)
    requires Freed(Appended(c.(head := NONE), u, left), c2, u, c.units[u].cur, left, false)
    ensures u in c2.units && Closed(c, AtEnd(c2, u), u)
  {
    hide Inv, ClosedUp, UnitsFull, LostOk, FlushedOk, NoHoles, FreePlus, SameKept, SameButMarks;
    SteadyFacts(c, order);
    CloseHole(c, order, u, left);
    CloseFreed(c, c2, order, u, left);
    HomelessSame(c.slots, Appended(c.(head := NONE), u, left).slots);
  }

  lemma EndAbove(c: Core, order: seq<UnitId>, u: UnitId)
    requires |order| > 0 && u == order[0]
    requires Settled(c, order)
    ensures u in c.units && u in c.tops && c.units[u].cur <= c.units[u].end <= c.units[u].reserved
    ensures c.tops[u] == c.units[u].cur
    ensures !c.units[u].pendingFree && (c.units[u].full <==> c.units[u].cur == c.units[u].end)
  {
    hide Inv, Geometry, LostOk, FlushedOk, NoHoles;
    SteadyFacts(c, order);
    ApartOf(c);
    UnitFacts(c, u);
  }

  lemma FreedUnits(c: Core, c2: Core, u: UnitId, left: nat)
    requires u in c.units && u in c.tops
    requires Freed(Appended(c.(head := NONE), u, left), c2, u, c.units[u].cur, left, false)
    ensures c2.units == c.units && c2.head == NONE && c2.align == c.align
  {
    hide Inv;
  }

  // ----- making room

  /** Room was made without moving a live fragment or touching one that is not placed yet. */
  ghost predicate RoomMade(c: Core, c': Core) {
    SameLive(c.slots, c'.slots) && SameButMarks(c.frags, c'.frags) && HomelessKept(c, c') && c'.align == c.align
  }

  lemma RoomSame(c: Core, c': Core)
    requires c'.slots == c.slots && c'.frags == c.frags && c'.align == c.align
    ensures RoomMade(c, c')
  {
  }

  lemma RoomSlots(c: Core, c1: Core, c2: Core)
    requires RoomMade(c, c1) && c2.slots == c1.slots && c2.frags == c1.frags && c2.align == c1.align
    ensures RoomMade(c, c2)
  {
  }

  lemma RoomClosed(c: Core, c1: Core, c2: Core, c3: Core, u: UnitId)
    requires c1.slots == c.slots && c1.frags == c.frags && c1.align == c.align
    requires Closed(c1, c2, u) && c3.slots == c2.slots && c3.frags == c2.frags && c3.align == c2.align
    ensures RoomMade(c, c3)
  {
    hide ClosedUp, SameKept, FreePlus, SameLive, SameButMarks, Homeless;
    ClosedLive(c1, c2, u);
  }

  lemma LiveHomeless(s: Slots, s': Slots, f: FragId)
    requires SameLive(s, s') && Homeless(s, f)
    ensures Homeless(s', f)
  {
    forall p | p in s' && s'[p].kind.Live? ensures s'[p].kind.f != f {
      assert IsLive(s', p);
    }
  }

  lemma StillRequested(c: Core, c': Core, f: FragId, size: nat)
    requires Request(c, f, size) && RoomMade(c, c')
    ensures Request(c', f, size) && f in c.frags && f in c'.frags && c'.frags[f] == c.frags[f]
  {
    hide Aligned, Homeless;
    LiveHomeless(c.slots, c'.slots, f);
  }

  lemma LandedLater(c: Core, c1: Core, c2: Core, f: FragId, p: Pc, size: nat)
    requires Request(c, f, size) && RoomMade(c, c1) && Landed(c1, c2, f, p, size)
    ensures Landed(c, c2, f, p, size)
  {
    hide SameLive, SameButMarks, Landed, Aligned, HomelessKept;
    StillRequested(c, c1, f, size);
    LandedAfter(c, c1, c2, f, p, size);
  }

  lemma ClosedParts(c: Core, c': Core, u: UnitId)
    requires Closed(c, c', u)
    ensures ClosedUp(c') && u in c.units && c'.units == c.units[u := c.units[u].(cur := c.units[u].end, full := true)]
  {
    hide ClosedUp, SameKept, FreePlus, SameButMarks, HomelessKept;
  }

  lemma RoomAfter(c: Core, c1: Core, c2: Core)
    requires c1.slots == c.slots && c1.frags == c.frags && c1.align == c.align && RoomMade(c1, c2)
    ensures RoomMade(c, c2)
  {
  }

  // ----- the size of a request

  /** The record fcache_add_fragment prepares before it looks for a slot. */
  function Prepared(frag: Fragment, slotSize: nat): Fragment
    requires frag.size <= slotSize
  {
    frag.(startPc := START_PC_ALIGNMENT, extra := (slotSize - frag.size) % 256)
  }

  lemma PrepareSettled(c: Core, order: seq<UnitId>, f: FragId, frag: Fragment)
    requires Homeless(c.slots, f) && f in c.frags
    requires Settled(c, order)
    ensures Settled(c.(frags := c.frags[f := frag]), order)
  {
    hide Geometry, Normal, FragsOk, HeadersOk, Listed, Linked, Counted, UnitsFull, LostOk, FlushedOk, NoHoles;
    var c' := c.(frags := c.frags[f := frag]);
    GeometryFrame(c, c');
    NormalFrags(c.tops, c.slots, c.frags, c.head, f, frag);
    HomelessFrags(c.slots, c.frags, f, frag);
  }

  lemma HomelessFrags(slots: Slots, frags: Frags, f: FragId, frag: Fragment)
    requires FragsOk(slots, frags) && Homeless(slots, f)
    ensures FragsOk(slots, frags[f := frag])
  {
    hide HdrStart, FragSize;
  }

  lemma PrepareRequest(c: Core, f: FragId, slotSize: nat)
    requires IsAlign(c.align) && f in c.frags && Homeless(c.slots, f) && !c.frags[f].flags.freeList
    requires !c.frags[f].flags.followsFree
    requires slotSize == SlotSize(c.frags[f].size, c.align)
    ensures c.frags[f].size <= slotSize
    ensures Request(c.(frags := c.frags[f := Prepared(c.frags[f], slotSize)]), f, slotSize)
    ensures var r := Prepared(c.frags[f], slotSize); r.startPc == 4 && r.size + r.extra == slotSize
  {
    hide Aligned, Homeless;
    SlotSizeOk(c.frags[f].size, c.align);
  }

  lemma LandedPrepared(c: Core, c1: Core, c': Core, f: FragId, frag: Fragment, p: Pc, size: nat)
    requires f in c.frags && c1 == c.(frags := c.frags[f := frag]) && frag.size == c.frags[f].size
    requires Landed(c1, c', f, p, size)
    ensures Landed(c, c', f, p, size)
  {
  }

  lemma SettledSteady(c: Core, order: seq<UnitId>)
    requires Settled(c, order)
    ensures Steady(c, order) && |order| > 0 && c.head == order[0]
  {
    hide Inv, UnitsFull, LostOk, FlushedOk, NoHoles;
  }

  lemma RequestSize(c: Core, f: FragId, size: nat)
    requires Request(c, f, size)
    ensures 0 < size && MIN_SLOT <= size
  {
    hide Aligned, Homeless;
  }

  lemma TakenLanded(c: Core, c': Core, order: seq<UnitId>, p: Pc, size: nat, f: FragId)
    requires Settled(c, order) && Taken(c, c', order, p, size, f)
    ensures Settled(c', order) && Landed(c, c', f, p, size) && c'.units == c.units
  {
    hide Settled, Steady, FreeMinus, Landed, Placed;
    TakenSettled(c, c', order, p, size, f);
    LandedFrom(c, c', f, p, size);
  }

  // ----- no bytes are ever lost at the end of a unit

  /** Unit u is full or has at least hole bytes left, and had at least that many left wherever a
      fragment in it starts. */
  ghost predicate Roomy(c: Core, u: UnitId, hole: nat) {
    && u in c.units && (c.units[u].cur == c.units[u].end || c.units[u].cur + hole <= c.units[u].end)
    && (forall p: Pc :: IsLive(c.slots, p) && c.slots[p].unit == u ==> p + hole <= c.units[u].end)
  }

  /** A fragment that is removed leaves at least as much room as there was where it started. */
  lemma RoomyRemoved(c: Core, c': Core, f: FragId, p: Pc, u: UnitId, hole: nat)
    requires Removed(c, c', f, p) && IsLive(c.slots, p) && Roomy(c, u, hole) && c.head == u
    ensures Roomy(c', u, hole)
  {
    hide FreePlus, FreeMinus, AllFree, SameButMarks;
    forall x: Pc | IsLive(c'.slots, x) && c'.slots[x].unit == u ensures x + hole <= c.units[u].end {
      assert Kept(c'.slots, x);
    }
  }

  /** A free slot of the first unit is followed by a fragment, so a fragment put there leaves
      enough room. */
  lemma RoomyTaken(c: Core, c': Core, order: seq<UnitId>, p: Pc, size: nat, f: FragId, u: UnitId, hole: nat)
    requires Settled(c, order) && Taken(c, c', order, p, size, f) && Roomy(c, u, hole) && c.head == u
    ensures Roomy(c', u, hole)
  {
    hide Inv, UnitsFull, LostOk, FlushedOk, OthersSame, FreeMinus, NoHoles, Geometry;
    SteadyFacts(c, order);
    FollowerOf(c, p);
    ApartOf(c);
    SlotFacts(c, p);
    HeadClear(c, p);
    NoHoleAt(c.slots, End(c.slots, p));
    assert c.slots[p].unit == u ==> IsLive(c.slots, End(c.slots, p));
    forall x: Pc | IsLive(c'.slots, x) && c'.slots[x].unit == u ensures x + hole <= c.units[u].end {
      assert Kept(c'.slots, x);
      if x != p { assert Kept(c.slots, x) && IsLive(c.slots, x); }
    }
  }

  lemma NoHoleAt(slots: Slots, p: Pc)
    requires NoHoles(slots)
    ensures p in slots ==> !slots[p].kind.Hole?
  {
  }

  lemma RoomyLanded(c: Core, c': Core, f: FragId, p: Pc, size: nat, u: UnitId, hole: nat)
    requires Landed(c, c', f, p, size) && Roomy(c, u, hole) && u in c'.units && c'.units[u].end == c.units[u].end
    requires p + hole <= c.units[u].end
    requires c'.units[u].cur == c'.units[u].end || c'.units[u].cur + hole <= c'.units[u].end
    ensures Roomy(c', u, hole)
  {
    hide OthersSame;
  }

  lemma RoomyUnits(c: Core, c': Core, u: UnitId, hole: nat)
    requires Roomy(c, u, hole) && SameLive(c.slots, c'.slots) && u in c'.units
    requires c'.units[u].end >= c.units[u].end && c'.units[u].cur == c.units[u].cur
    requires c'.units[u].end == c.units[u].end || c'.units[u].end >= c.units[u].end + hole
    ensures Roomy(c', u, hole)
  {
  }

  lemma RoomyOpened(c: Core, u: UnitId, unit: Unit, hole: nat)
    requires ClosedUp(c) && u !in c.units && Blank(unit) && hole <= PAGE
    ensures Roomy(Opened(c, u, unit), u, hole)
  {
    hide Geometry, Normal, FragsOk, HeadersOk, Listed, Linked, Counted, UnitsFull, LostOk, FlushedOk, NoHoles;
    UnitsKnown(c);
  }

  lemma RoomyEnd(c: Core, u: UnitId, hole: nat)
    requires Roomy(c, u, hole)
    ensures u in c.units && (c.units[u].cur < c.units[u].end ==> c.units[u].cur + hole <= c.units[u].end)
  {
  }

  // ----- the start

  function NoStats(): Stats {
    Stats(seq(BUCKETS, _ => 0), seq(BUCKETS, _ => 0), seq(BUCKETS, _ => 0), seq(BUCKETS, _ => 0))
  }

  /** A cache without units is in order. */
  lemma EmptyClosed(align: nat, frags: Frags)
    requires IsAlign(align)
    ensures ClosedUp(Core(align, map[], frags, map[], NONE,
      seq(BUCKETS, _ => Null), NoStats(), map[], map[], seq(BUCKETS, _ => [])))
  {
    hide Listed, Linked, Counted, MemOk, Tiled, UnitsOk, NoStats, FragsOk, Normal, HeadersOk, Sized, SlotsAligned;
    hide UnitsAligned, NoHoles, UnitsFull, LostOk, FlushedOk;
    EmptyLists();
    EmptyTiled();
    EmptySlots(align, frags);
  }

  lemma EmptySlots(align: nat, frags: Frags)
    requires IsAlign(align)
    ensures FragsOk(map[], frags) && Normal(map[], map[], frags, NONE) && HeadersOk(map[], map[]) && Sized(map[])
    ensures SlotsAligned(align, map[]) && UnitsAligned(align, map[], map[]) && NoHoles(map[])
    ensures UnitsFull(map[], NONE) && LostOk(map[], map[]) && FlushedOk(map[], map[])
  {
  }

  lemma EmptyTiled()
    ensures UnitsOk(map[], map[]) && Tiled(map[], map[], map[]) && MemOk(map[], map[])
  {
  }

  lemma EmptyLists()
    ensures Listed(map[], seq(BUCKETS, _ => [])) && Linked(map[], seq(BUCKETS, _ => Null), seq(BUCKETS, _ => []))
    ensures Counted(map[], seq(BUCKETS, _ => []), NoStats())
  {
    var none: Lists := seq(BUCKETS, _ => []);
    assert forall b :: 0 <= b < BUCKETS ==> none[b] == [] && Bytes(map[], none[b]) == 0;
  }
}
