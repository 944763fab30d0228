/** Giving back the unused end of a fragment's slot (fcache_return_extra_space) and shifting
    its start (fcache_shift_start_pc). */
module Trimming {
  import opened Options
  import opened Memory
  import opened Alignment
  import opened Layout
  import opened Coalescing
  import opened SharedModel
  import opened CacheFacts
  import opened Freeing
  import opened Placing
  import opened Removing
  import opened Growing
  import opened Requests

  function ReturnPlan(frag: Fragment, space: nat, align: nat): Plan
    requires IsAlign(align) && 0 <= HdrStart(frag)
    requires PTR <= frag.extra && space <= frag.size && MIN_SLOT <= FragSize(frag)
  {
    PlanOf(HdrStart(frag), FragSize(frag), space + frag.extra - PTR, align)
  }

  function Returnable(frag: Fragment, space: nat, align: nat): int {
    if IsAlign(align) && 0 <= HdrStart(frag) && PTR <= frag.extra && space <= frag.size && MIN_SLOT <= FragSize(frag)
    then ReturnPlan(frag, space, align).returnable else 0
  }

  /** The last r bytes of the slot at p are given up: at the end of a unit if they leave room enough,
      at the append point always, and elsewhere if they are a hole worth having or join one. */
  ghost predicate Worth(c: Core, hole: nat, p: Pc, r: int) {
    && p in c.slots && c.slots[p].unit in c.units && r > 0
    && var u, end := c.units[c.slots[p].unit], End(c.slots, p);
      if end == u.end then r >= 2 * hole else end == u.cur || r >= hole || FreeAfter(c, c.slots[p].unit, p)
  }

  /** Nothing underflows, the slot stays aligned and large enough, and the bytes add up. */
  lemma PlanOk(frag: Fragment, space: nat, align: nat)
    requires IsAlign(align) && 0 <= HdrStart(frag)
    requires PTR <= frag.extra && space <= frag.size && MIN_SLOT <= FragSize(frag)
    requires Aligned(HdrStart(frag), align) && Aligned(FragSize(frag), align)
    ensures var g := ReturnPlan(frag, space, align);
      && 0 <= g.returnable && MIN_SLOT <= FragSize(frag) - g.returnable
      && 0 <= g.slotPadding < align && 0 <= g.minPadding <= MIN_SLOT - PTR
      && frag.extra + space == g.slotPadding + PTR + g.returnable + g.minPadding
      && Aligned(FragSize(frag) - g.returnable, align) && Aligned(g.returnable, align)
  {
    hide Aligned, PlanOf;
    PlanAddsUp(HdrStart(frag), FragSize(frag), space + frag.extra - PTR, align);
  }

  /** No more can be returned: any aligned part of the spare bytes whose loss leaves a slot of the
      minimum size is at most what the plan returns. */
  lemma ReturnsMost(frag: Fragment, space: nat, align: nat, r: nat)
    requires IsAlign(align) && 0 <= HdrStart(frag)
    requires PTR <= frag.extra && space <= frag.size && MIN_SLOT <= FragSize(frag)
    requires Aligned(HdrStart(frag), align) && Aligned(FragSize(frag), align) && Aligned(r, align)
    requires r <= space + frag.extra - PTR && MIN_SLOT <= FragSize(frag) - r
    ensures r <= ReturnPlan(frag, space, align).returnable
  {
    hide Aligned, PlanOf;
    PlanIsMost(HdrStart(frag), FragSize(frag), space + frag.extra - PTR, align, r);
  }

  /** The fragment's record afterwards; fcache_extra is one byte. */
  function Trim(frag: Fragment, space: nat, g: Plan, released: bool): Fragment
    requires space <= frag.size && 0 <= g.returnable && 0 <= g.slotPadding && 0 <= g.minPadding
  {
    frag.(size := frag.size - space,
          extra := (PTR + g.slotPadding + (if released then 0 else g.returnable) + g.minPadding) % 256)
  }

  lemma TrimFits(frag: Fragment, p: Pc, space: nat, g: Plan, released: bool)
    requires space <= frag.size && Fits(frag, p, FragSize(frag))
    requires 0 <= g.returnable && 0 <= g.slotPadding < 64 && 0 <= g.minPadding <= MIN_SLOT - PTR
    requires frag.extra + space == g.slotPadding + PTR + g.returnable + g.minPadding
    requires !released ==> g.returnable < 128
    ensures 0 <= FragSize(frag) - g.returnable
    ensures Fits(Trim(frag, space, g, released), p, if released then FragSize(frag) - g.returnable else FragSize(frag))
    ensures Trim(frag, space, g, released).flags == frag.flags
  {
  }

  function Shift(frag: Fragment, space: nat): Fragment
    requires space <= frag.size
  {
    frag.(startPc := frag.startPc + space, size := frag.size - space)
  }

  /** Shifting the start keeps the header address and the size of the slot. */
  lemma ShiftFits(frag: Fragment, p: Pc, total: nat, space: nat)
    requires Fits(frag, p, total) && space <= frag.size && space <= START_PC_ALIGNMENT - 1
    requires frag.flags.shiftable && frag.startPc % START_PC_ALIGNMENT == 0
    ensures Fits(Shift(frag, space), p, total) && Shift(frag, space).flags == frag.flags
    ensures Shift(frag, space).startPc + Shift(frag, space).size == frag.startPc + frag.size
  {
  }

  // ----- handing over the end of a slot

  /** Fragment f keeps its place and gives up the last r bytes of its slot, which are given
      back, freed, or (r == 0) not given up at all. */
  ghost predicate Trimmed(c: Core, c': Core, f: FragId, p: Pc, space: nat, r: nat) {
    && LivesAt(c, f, p) && LivesAt(c', f, p) && c'.slots[p].unit == c.slots[p].unit
    && c'.slots[p].size + r == c.slots[p].size
    && SameKeptBut(c.slots, c'.slots, p) && OthersSame(c.frags, c'.frags, f)
    && f in c.frags && f in c'.frags && space <= c.frags[f].size && c'.frags[f].size == c.frags[f].size - space
    && c'.frags[f].startPc == c.frags[f].startPc
    && var u := c.slots[p].unit;
      && u in c.units
      && (|| (c'.units == c.units && FreePlus(c.slots, c'.slots, p + c'.slots[p].size, p + c.slots[p].size))
          || (u == c.head && c.units[u].cur == p + c.slots[p].size && FreePlus(c.slots, c'.slots, 0, 0)
                && c'.units == c.units[u := c.units[u].(cur := c.units[u].cur - r, full := false)]))
  }

  /** With the slot at p cut after n bytes, the rest of it is a hole that no free slot precedes. */
  ghost predicate IsShrunk(c: Core, order: seq<UnitId>, p: Pc, n: nat, frag: Fragment) {
    && p in c.slots && 0 < n < c.slots[p].size && p + n !in c.slots
    && var c1 := Shrunk(c, p, n, frag);
    && p + n in c1.slots && NoFreeBefore(c1.slots, p + n)
    && SameKeptBut(c.slots, c1.slots, p) && FreePlus(c.slots, c1.slots, 0, 0)
    && HoleAt(c1, c.slots[p].unit, p + n, c.slots[p].size - n) && Settling(c1, order)
  }

  /** The slot of f ends after n bytes; the rest is a hole. */
  lemma ShrinkSettling(c: Core, order: seq<UnitId>, f: FragId, p: Pc, n: nat, frag: Fragment)
    requires LivesAt(c, f, p) && f in c.frags && frag.flags == c.frags[f].flags
    requires MIN_SLOT <= n < c.slots[p].size && IsAlign(c.align) && Aligned(n, c.align) && Fits(frag, p, n)
    requires Settled(c, order)
    ensures IsShrunk(c, order, p, n, frag)
  {
    hide Inv, UnitsFull, LostOk, FlushedOk, Geometry, Fits, Aligned, IsAlign, Cut, OnlyHole, NoFreeBefore, SameKeptBut;
    hide FreePlus, NoHoles, SameFree;
    SteadyFacts(c, order);
    ShrinkInv(c, p, n, frag);
    ApartOf(c);
    SlotFacts(c, p);
    CutSameFree(c.slots, p, n);
    SameFreeBytes(c.slots, Cut(c.slots, p, n));
    CutSettles(c, p, n);
  }

  lemma CutSettles(c: Core, p: Pc, n: nat)
    requires p in c.slots && c.slots[p].kind.Live? && 0 < n < c.slots[p].size && p + n !in c.slots && NoHoles(c.slots)
    requires Apart(c.slots)
    requires LostOk(c.units, c.slots) && FlushedOk(c.units, c.slots) && c.tops.Keys == c.units.Keys
    ensures LostOk(c.units, Cut(c.slots, p, n)) && FlushedOk(c.units, Cut(c.slots, p, n))
    ensures OnlyHole(Cut(c.slots, p, n), p + n) && NoFreeBefore(Cut(c.slots, p, n), p + n)
    ensures SameKeptBut(c.slots, Cut(c.slots, p, n), p)
    ensures p + n in Cut(c.slots, p, n) && Cut(c.slots, p, n)[p + n] == Slot(c.slots[p].size - n, c.slots[p].unit, Hole)
  {
    var s' := Cut(c.slots, p, n);
    forall x | x in s' && x != p && x != p + n
      ensures x in c.slots && s'[x] == c.slots[x] && End(s', x) == End(c.slots, x) {}
    forall q | q in s' && s'[q].kind.Free? && s'[q].unit == s'[p + n].unit ensures End(s', q) != p + n {
      assert q < p || p < q;
    }
  }

  /** Everything the two ways of handing over share. */
  lemma TrimShape(c: Core, c1: Core, c': Core, f: FragId, p: Pc, n: nat, frag: Fragment)
    requires LivesAt(c, f, p) && f in c.frags && 0 < n < c.slots[p].size && c1 == Shrunk(c, p, n, frag)
    requires p + n !in c.slots
    requires SameKeptBut(c.slots, c1.slots, p) && SameKept(c1.slots, c'.slots) && SameButMarks(c1.frags, c'.frags)
    ensures LivesAt(c', f, p) && c'.slots[p].unit == c.slots[p].unit && c'.slots[p].size == n
    ensures SameKeptBut(c.slots, c'.slots, p) && OthersSame(c.frags, c'.frags, f)
    ensures f in c'.frags && c'.frags[f].size == frag.size && c'.frags[f].startPc == frag.startPc
  {
    assert Kept(c1.slots, p);
    KeptToBut(c1.slots, c'.slots, p);
    KeptButChain(c.slots, c1.slots, c'.slots, p);
    hide SameKeptBut;
    assert Unmarked(c'.frags[f]) == Unmarked(frag);
  }

  lemma ReleaseReady(c: Core, order: seq<UnitId>, f: FragId, p: Pc, n: nat, frag: Fragment)
    requires LivesAt(c, f, p) && 0 < n < c.slots[p].size && c.slots[p].unit in c.units
    requires !c.units[c.slots[p].unit].pendingFree
    requires c.slots[p].size - n >= MIN_SLOT || FreeAfter(c, c.slots[p].unit, p)
    requires IsShrunk(c, order, p, n, frag) && Settled(c, order)
    ensures CanFree(Shrunk(c, p, n, frag), order, c.slots[p].unit, None, p + n, c.slots[p].size - n)
  {
    hide Inv, Geometry, UnitsFull, FlushedOk, OnlyHole, NoFreeBefore;
    SteadyFacts(c, order);
    ApartOf(c);
    SlotFacts(c, p);
  }

  lemma ReleaseDone(c: Core, c': Core, order: seq<UnitId>, f: FragId, p: Pc, n: nat, space: nat, frag: Fragment)
    requires LivesAt(c, f, p) && f in c.frags && 0 < n < c.slots[p].size
    requires space <= c.frags[f].size && frag.size == c.frags[f].size - space && frag.startPc == c.frags[f].startPc
    requires c.slots[p].unit in c.units && !c.units[c.slots[p].unit].pendingFree && |order| > 0
    requires !(c.slots[p].unit == order[0] && c.units[c.slots[p].unit].cur == p + c.slots[p].size)
    requires IsShrunk(c, order, p, n, frag) && Settled(c, order)
    requires Freed(Shrunk(c, p, n, frag), c', c.slots[p].unit, p + n, c.slots[p].size - n, false)
    ensures Settled(c', order) && Trimmed(c, c', f, p, space, c.slots[p].size - n) && c'.units == c.units
  {
    hide Inv, Geometry, UnitsFull, LostOk, FlushedOk, OnlyHole, SameKept, SameKeptBut, SameButMarks, OthersSame;
    hide NoHoles, Settled, Settling, Cut, FreePlus, Kept;
    var c1 := Shrunk(c, p, n, frag);
    FreedSettled(c1, c', order, c.slots[p].unit, p + n, c.slots[p].size - n);
    TrimShape(c, c1, c', f, p, n, frag);
    BytesAfter(c.slots, c1.slots, c'.slots, p + n, p + n + (c.slots[p].size - n), 0);
  }

  ghost function PulledBack(c: Core, u: UnitId, p: Pc, n: nat, frag: Fragment): Core {
    var c1 := Shrunk(c, p, n, frag);
    if u in c.units
    then c1.(units := c.units[u := c.units[u].(cur := p + n, full := false)],
             slots := c1.slots - {p + n}, tops := c.tops[u := p + n])
    else c1
  }

  /** Moving the append point and the top back over the hole keeps the invariant. */
  lemma PullBackInv(c: Core, c1: Core, u: UnitId, q: Pc)
    requires Inv(c1) && q in c1.slots && c1.slots[q].kind.Hole? && c1.slots[q].unit == u && NoFreeBefore(c1.slots, q)
    requires u in c1.units && u in c1.tops && End(c1.slots, q) == c1.tops[u] && c.units == c1.units
    ensures Inv(c1.(units := c.units[u := c.units[u].(cur := q, full := false)],
      slots := c1.slots - {q}, tops := c1.tops[u := q]))
    ensures q < c1.units[u].end
  {
    hide Inv, Geometry, NoFreeBefore;
    ApartOf(c1);
    SlotFacts(c1, q);
    ChopInv(c1, q);
    var c2 := Chopped(c1, q);
    ApartOf(c2);
    UnitFacts(c2, u);
    UnitInv(c2, u, c.units[u].(cur := q, full := false), c2.mem);
  }

  /** The append point moves back over the end of the last fragment. */
  lemma PullBack(c: Core, order: seq<UnitId>, f: FragId, p: Pc, n: nat, space: nat, frag: Fragment)
    requires LivesAt(c, f, p) && f in c.frags && 0 < n < c.slots[p].size
    requires space <= c.frags[f].size && frag.size == c.frags[f].size - space && frag.startPc == c.frags[f].startPc
    requires |order| > 0 && c.slots[p].unit == order[0] && c.slots[p].unit in c.units
    requires c.units[c.slots[p].unit].cur == p + c.slots[p].size
    requires IsShrunk(c, order, p, n, frag) && Settled(c, order)
    ensures Settled(PulledBack(c, order[0], p, n, frag), order)
    ensures Trimmed(c, PulledBack(c, order[0], p, n, frag), f, p, space, c.slots[p].size - n)
  {
    hide Inv, Geometry, UnitsFull, LostOk, FlushedOk, OnlyHole, SameKept, SameKeptBut, SameButMarks, OthersSame;
    hide NoHoles, Settled, Cut, FreePlus, Kept, SameOwned, NoFreeBefore;
    var u, c1 := c.slots[p].unit, Shrunk(c, p, n, frag);
    var c' := PulledBack(c, u, p, n, frag);
    SteadyFacts(c, order);
    NextOf(c1, u, p + n, c.slots[p].size - n);
    PullBackInv(c, c1, u, p + n);
    RemoveHole(c1.slots, p + n);
    OwnedEffects(c1.slots, c'.slots);
    BytesAfter(c.slots, c1.slots, c'.slots, 0, 0, 0);
    MarksRefl(c1.frags);
    TrimShape(c, c1, c', f, p, n, frag);
    PullBackSettled(c1, c', order, u, p + n);
  }

  lemma PullBackSettled(c1: Core, c': Core, order: seq<UnitId>, u: UnitId, q: Pc)
    requires Settling(c1, order) && |order| > 0 && u == order[0] && u in c1.units && OnlyHole(c1.slots, q)
    requires q < c1.units[u].end
    requires c' ==
      c1.(units := c1.units[u := c1.units[u].(cur := q, full := false)],
          slots := c1.slots - {q}, tops := c1.tops[u := q])
    requires SameKept(c1.slots, c'.slots) && Inv(c')
    ensures Settled(c', order)
  {
    hide Inv, Geometry, UnitsFull, LostOk, FlushedOk, OnlyHole, SameKept, NoHoles;
    HoleGone(c1.slots, q);
    LostFromKept(c1.slots, c'.slots);
    ApartOf(c1);
    LostKept(c1, c');
    FlushedChop(c1.units, c'.units, c1.slots, q);
    FullKept(c1.units, c1.head, u, q);
    SettledAgain(c', order);
  }

  lemma MarksRefl(fs: Frags)
    ensures SameButMarks(fs, fs)
  {
  }

  lemma FlushedChop(units: Units, units': Units, slots: Slots, p: Pc)
    requires FlushedOk(units, slots) && units'.Keys == units.Keys
    requires forall u :: u in units ==> units'[u].pendingFree == units[u].pendingFree
    ensures FlushedOk(units', slots - {p})
  {
  }

  /** Too little to hand over: the fragment keeps the bytes as padding. */
  lemma KeepDone(c: Core, order: seq<UnitId>, f: FragId, p: Pc, space: nat, frag: Fragment)
    requires Settled(c, order) && LivesAt(c, f, p) && f in c.frags && Fits(frag, p, c.slots[p].size)
    requires frag.flags == c.frags[f].flags
    requires space <= c.frags[f].size && frag.size == c.frags[f].size - space && frag.startPc == c.frags[f].startPc
    ensures Settled(Refitted(c, f, frag), order) && Trimmed(c, Refitted(c, f, frag), f, p, space, 0)
  {
    hide Inv, Geometry, UnitsFull, LostOk, FlushedOk, NoHoles, Fits;
    SteadyFacts(c, order);
    RefitInv(c, p, frag);
    ApartOf(c);
    SlotFacts(c, p);
    SameFreeBytes(c.slots, c.slots);
  }

  /** What fcache_return_extra_space works out before it decides. */
  lemma ReturnStart(c: Core, order: seq<UnitId>, f: FragId, p: Pc, space: nat)
    requires LivesAt(c, f, p) && f in c.frags && space <= c.frags[f].size
    requires Settled(c, order)
    ensures IsAlign(c.align) && 0 <= HdrStart(c.frags[f]) && PTR <= c.frags[f].extra && MIN_SLOT <= FragSize(c.frags[f])
    ensures HdrStart(c.frags[f]) == p && FragSize(c.frags[f]) == c.slots[p].size && Fits(c.frags[f], p, c.slots[p].size)
    ensures PlanFor(c, f, space, ReturnPlan(c.frags[f], space, c.align))
    ensures p + c.slots[p].size <= c.units[c.slots[p].unit].cur <= c.units[c.slots[p].unit].end
    ensures p + c.slots[p].size == c.units[c.slots[p].unit].cur != c.units[c.slots[p].unit].end ==>
      c.slots[p].unit == order[0]
    ensures p + c.slots[p].size != c.units[c.slots[p].unit].cur ==>
      p + c.slots[p].size in c.slots && c.slots[p + c.slots[p].size].unit == c.slots[p].unit
  {
    hide Inv, LostOk, FlushedOk, Geometry, Aligned, HdrStart, FragSize, NoHoles;
    RemoveStart(c, order, f, p);
    SteadyFacts(c, order);
    FragAt(c, p);
    ApartOf(c);
    SlotFacts(c, p);
    UnitFacts(c, c.slots[p].unit);
    SlotAligned(c, p);
    PlanOk(c.frags[f], space, c.align);
  }

  ghost predicate PlanFor(c: Core, f: FragId, space: nat, g: Plan) {
    && IsAlign(c.align) && f in c.frags
    && 0 <= g.returnable && MIN_SLOT <= FragSize(c.frags[f]) - g.returnable
    && 0 <= g.slotPadding < 64 && 0 <= g.minPadding <= MIN_SLOT - PTR
    && c.frags[f].extra + space == g.slotPadding + PTR + g.returnable + g.minPadding
    && Aligned(FragSize(c.frags[f]) - g.returnable, c.align) && Aligned(g.returnable, c.align)
  }

  lemma ReturnNext(c: Core, order: seq<UnitId>, p: Pc, q: Pc)
    requires p in c.slots && q == End(c.slots, p) && q in c.slots && c.slots[q].unit == c.slots[p].unit
    requires c.slots[q].unit in c.units && !c.units[c.slots[q].unit].pendingFree && Settled(c, order)
    ensures Readable(c, q) && (c.slots[q].kind.Free? <==> FreeAfter(c, c.slots[p].unit, p))
  {
    hide Inv, UnitsFull, FlushedOk, Readable;
    SteadyFacts(c, order);
    CanRead(c, q);
  }

  lemma TrimFields(frag: Fragment, space: nat, g: Plan, released: bool)
    requires space <= frag.size && 0 <= g.returnable && 0 <= g.slotPadding && 0 <= g.minPadding
    ensures Trim(frag, space, g, released).size == frag.size - space
    ensures Trim(frag, space, g, released).startPc == frag.startPc && Trim(frag, space, g, released).flags == frag.flags
  {
  }

  lemma ShiftStart(c: Core, order: seq<UnitId>, f: FragId, p: Pc, space: nat)
    requires LivesAt(c, f, p) && f in c.frags && space <= c.frags[f].size && space <= START_PC_ALIGNMENT - 1
    requires c.frags[f].flags.shiftable && c.frags[f].startPc % START_PC_ALIGNMENT == 0
    requires Settled(c, order)
    ensures Settled(Refitted(c, f, Shift(c.frags[f], space)), order)
    ensures HdrStart(Shift(c.frags[f], space)) == p && FragSize(Shift(c.frags[f], space)) == c.slots[p].size
  {
    hide Inv, Geometry, UnitsFull, LostOk, FlushedOk, NoHoles, HdrStart, FragSize;
    SteadyFacts(c, order);
    FragAt(c, p);
    ShiftFits(c.frags[f], p, c.slots[p].size, space);
    RefitInv(c, p, Shift(c.frags[f], space));
  }

  lemma TrimmedUnits(c: Core, c': Core, f: FragId, p: Pc, space: nat, r: nat)
    requires Trimmed(c, c', f, p, space, r)
    ensures p in c.slots && var u := c.slots[p].unit;
      && u in c.units && u in c'.units
      && c'.units == c.units[u := c.units[u].(cur := c'.units[u].cur, full := c'.units[u].full)]
  {
    hide SameKeptBut, FreePlus, OthersSame;
  }

  /** The slot of f at p can be cut after n bytes, leaving r, with frag as the record of f. */
  ghost predicate CanTrim(c: Core, order: seq<UnitId>, f: FragId, p: Pc, n: nat, r: nat, space: nat, frag: Fragment) {
    && LivesAt(c, f, p) && f in c.frags && 0 < n < c.slots[p].size && r == c.slots[p].size - n
    && space <= c.frags[f].size && frag.size == c.frags[f].size - space && frag.startPc == c.frags[f].startPc
    && IsShrunk(c, order, p, n, frag) && Settled(c, order)
  }

  lemma TrimReady(c: Core, order: seq<UnitId>, f: FragId, p: Pc, space: nat, g: Plan, released: bool)
    requires LivesAt(c, f, p) && f in c.frags && space <= c.frags[f].size && PlanFor(c, f, space, g)
    requires FragSize(c.frags[f]) == c.slots[p].size && Fits(c.frags[f], p, c.slots[p].size)
    requires (released ==> 0 < g.returnable) && (!released ==> g.returnable < 128)
    requires Settled(c, order)
    ensures Trim(c.frags[f], space, g, released).size == c.frags[f].size - space
    ensures Trim(c.frags[f], space, g, released).startPc == c.frags[f].startPc
    ensures Trim(c.frags[f], space, g, released).flags == c.frags[f].flags
    ensures released ==>
      && g.returnable < c.slots[p].size
      && CanTrim(c, order, f, p, c.slots[p].size - g.returnable,
         g.returnable, space, Trim(c.frags[f], space, g, released))
    ensures !released ==> Fits(Trim(c.frags[f], space, g, released), p, c.slots[p].size)
  {
    hide Settled, Fits, FragSize, Aligned, IsShrunk;
    TrimFits(c.frags[f], p, space, g, released);
    TrimFields(c.frags[f], space, g, released);
    if released {
      ShrinkSettling(c, order, f, p, c.slots[p].size - g.returnable, Trim(c.frags[f], space, g, released));
    }
  }

  lemma RoomyTrimmed(c: Core, c': Core, f: FragId, p: Pc, space: nat, r: nat, u: UnitId, hole: nat)
    requires Trimmed(c, c', f, p, space, r) && Roomy(c, u, hole) && c.head == u
    requires c'.units != c.units && c.units[u].cur == c.units[u].end ==> r >= hole
    ensures Roomy(c', u, hole)
  {
    hide FreePlus, OthersSame;
    forall x: Pc | IsLive(c'.slots, x) && c'.slots[x].unit == u ensures x + hole <= c.units[u].end {
      assert Kept(c'.slots, x);
      assert x != p ==> Kept(c.slots, x);
    }
  }
}
