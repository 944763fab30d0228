/** Finding the fragment whose body holds an address, by walking the unit it lies in. */
module Lookup {
  import opened Memory
  import opened Layout
  import opened Coalescing
  import opened FreeLists
  import opened SharedModel
  import opened CacheFacts
  import opened Placing
  import opened Removing
  import opened Growing

  /** The body of a fragment, without header and padding. */
  predicate InBody(f: Fragment, pc: Pc) { f.startPc <= pc < f.startPc + f.size }

  /** The fragment living in the slot at p has pc in its body. */
  ghost predicate Owner(c: Core, p: Pc, pc: Pc) {
    IsLive(c.slots, p) && c.slots[p].kind.f in c.frags && InBody(c.frags[c.slots[p].kind.f], pc)
  }

  lemma OwnerIs(c: Core, p: Pc, pc: Pc)
    ensures Owner(c, p, pc) <==>
      && p in c.slots && c.slots[p].kind.Live? && c.slots[p].kind.f in c.frags
      && var f := c.frags[c.slots[p].kind.f]; f.startPc <= pc < f.startPc + f.size
  {
  }

  lemma NobodyHas(c: Core, pc: Pc)
    requires forall x {:trigger Owner(c, x, pc)} :: !Owner(c, x, pc)
    ensures forall p :: p in c.slots && c.slots[p].kind.Live? && c.slots[p].kind.f in c.frags ==>
      var f := c.frags[c.slots[p].kind.f]; pc < f.startPc || f.startPc + f.size <= pc
  {
    forall p | p in c.slots && c.slots[p].kind.Live? && c.slots[p].kind.f in c.frags
      ensures var f := c.frags[c.slots[p].kind.f]; pc < f.startPc || f.startPc + f.size <= pc
    {
      OwnerIs(c, p, pc);
    }
  }

  /** A body lies inside its slot, after the header. */
  lemma BodyInSlot(c: Core, p: Pc, pc: Pc)
    requires Owner(c, p, pc) && Inv(c)
    ensures p < pc < End(c.slots, p)
  {
    hide Inv;
    FragAt(c, p);
  }

  /** At most one live fragment has pc in its body. */
  lemma OneOwner(c: Core, p: Pc, q: Pc, pc: Pc)
    requires Owner(c, p, pc) && Owner(c, q, pc) && Inv(c)
    ensures p == q
  {
    hide Inv, Geometry, Owner;
    BodyInSlot(c, p, pc);
    BodyInSlot(c, q, pc);
    ApartOf(c);
    assert p in c.slots && q in c.slots by { OwnerSlot(c, p, pc); OwnerSlot(c, q, pc); }
  }

  lemma OwnerSlot(c: Core, p: Pc, pc: Pc)
    requires Owner(c, p, pc)
    ensures p in c.slots && c.slots[p].kind.Live?
  {
  }

  /** An owner of an address lies in the unit that reserves it. */
  lemma OwnerUnit(c: Core, order: seq<UnitId>, p: Pc, pc: Pc)
    requires Owner(c, p, pc)
    requires Settled(c, order)
    ensures p in c.slots && c.slots[p].unit in c.units
    ensures c.units[c.slots[p].unit].start <= p < pc < End(c.slots, p) <= c.units[c.slots[p].unit].cur
    ensures c.units[c.slots[p].unit].cur <= c.units[c.slots[p].unit].reserved
  {
    hide Inv, Geometry, Owner, Settled;
    SteadyFacts(c, order);
    OwnerSlot(c, p, pc);
    BodyInSlot(c, p, pc);
    ApartOf(c);
    SlotFacts(c, p);
  }

  /** No slot of unit u that starts before pc is lost: the walk reads in-band records only where there
      are fragments or list entries. */
  ghost predicate WalkableTo(c: Core, u: UnitId, pc: Pc) {
    forall x :: x in c.slots && c.slots[x].unit == u && c.slots[x].kind.Lost? ==> pc <= x
  }

  /** That is so in every unit that has not been flushed. */
  lemma LiveWalkable(c: Core, order: seq<UnitId>, u: UnitId, pc: Pc)
    requires u in c.units && !c.units[u].pendingFree
    requires Settled(c, order)
    ensures WalkableTo(c, u, pc)
  {
    hide Inv, UnitsFull, FlushedOk, NoHoles;
  }

  /** The walk of unit u looking for pc stands at q: a slot of u, or the end, and no slot before
      it is the one looked for. */
  ghost predicate Seeking(c: Core, order: seq<UnitId>, u: UnitId, pc: Pc, q: Pc) {
    && u in c.units && WalkableTo(c, u, pc) && q <= c.units[u].cur
    && (q < c.units[u].cur ==> q in c.slots && c.slots[q].unit == u)
    && (forall x {:trigger Owner(c, x, pc)} :: x in c.slots && Owner(c, x, pc) && c.slots[x].unit == u ==> q <= x)
    && Settled(c, order)
  }

  lemma SeekStart(c: Core, order: seq<UnitId>, u: UnitId, pc: Pc)
    requires u in c.units && WalkableTo(c, u, pc)
    requires Settled(c, order)
    ensures Seeking(c, order, u, pc, c.units[u].start)
  {
    hide Inv, Geometry, Settled, Owner, WalkableTo;
    SteadyFacts(c, order);
    ApartOf(c);
    UnitFacts(c, u);
    if c.units[u].start < c.units[u].cur { FirstSlot(c, u); }
    forall x | x in c.slots && Owner(c, x, pc) && c.slots[x].unit == u ensures c.units[u].start <= x {
      OwnerUnit(c, order, x, pc);
    }
  }

  lemma FirstSlot(c: Core, u: UnitId)
    requires Geometry(c) && u in c.units && u in c.tops && c.units[u].start < c.tops[u]
    ensures c.units[u].start in c.slots && c.slots[c.units[u].start].unit == u
  {
    hide Apart, Chained, SlotsAligned, UnitsAligned, MemOk, Sized;
    assert First(c.units, u) in c.slots;
  }

  /** What the walk reads at q. */
  lemma SeekRead(c: Core, order: seq<UnitId>, u: UnitId, pc: Pc, q: Pc)
    requires u in c.units && q < c.units[u].cur && q < pc
    requires Seeking(c, order, u, pc, q)
    ensures q in c.slots && IsPtr(c.mem, q) && DerefOk(c.mem, c.frags, LoadPtr(c.mem, q))
    ensures IsFreeList(c.mem, c.frags, LoadPtr(c.mem, q)) ==>
      c.slots[q].kind.Free? && q + SIZE_AT in c.mem && c.mem[q + SIZE_AT] == Num(c.slots[q].size)
    ensures !IsFreeList(c.mem, c.frags, LoadPtr(c.mem, q)) ==>
      && c.slots[q].kind.Live? && LoadPtr(c.mem, q) == FragRef(c.slots[q].kind.f) && c.slots[q].kind.f in c.frags
      && FragSize(c.frags[c.slots[q].kind.f]) == c.slots[q].size
    ensures 0 < c.slots[q].size
  {
    hide Inv, Geometry, UnitsFull, FlushedOk, Owner;
    SteadyFacts(c, order);
    ApartOf(c);
    SlotFacts(c, q);
    assert Headed(c.slots[q].kind);
    InBandTest(c, q);
    if c.slots[q].kind.Live? { FragAt(c, q); } else { var k := FreeEntry(c, q); }
  }

  lemma SeekNext(c: Core, order: seq<UnitId>, u: UnitId, pc: Pc, q: Pc)
    requires u in c.units && q < c.units[u].cur && q in c.slots && !Owner(c, q, pc)
    requires Seeking(c, order, u, pc, q)
    ensures Seeking(c, order, u, pc, End(c.slots, q))
  {
    hide Inv, Geometry, Settled, Owner, WalkableTo;
    SteadyFacts(c, order);
    ApartOf(c);
    SlotFacts(c, q);
    forall x | x in c.slots && Owner(c, x, pc) && c.slots[x].unit == u ensures End(c.slots, q) <= x {
      OwnerSlot(c, x, pc);
    }
  }

  /** When the walk has passed pc or the last slot, nobody has pc in its body. */
  lemma SeekDone(c: Core, order: seq<UnitId>, u: UnitId, pc: Pc, q: Pc)
    requires u in c.units && c.units[u].start <= pc < c.units[u].reserved
    requires q >= c.units[u].cur || q >= pc
    requires Seeking(c, order, u, pc, q)
    ensures forall x {:trigger Owner(c, x, pc)} :: !Owner(c, x, pc)
  {
    hide Inv, Geometry, Settled, Owner, WalkableTo;
    SteadyFacts(c, order);
    ApartOf(c);
    forall x | Owner(c, x, pc) ensures false {
      OwnerUnit(c, order, x, pc);
      if c.slots[x].unit != u { UnitsApart(c, c.slots[x].unit, u); }
    }
  }

  lemma AllUnitsOk(c: Core, order: seq<UnitId>)
    requires Settled(c, order)
    ensures UnitsOk(c.units, c.tops)
  {
    hide Inv, UnitsFull, LostOk, FlushedOk, NoHoles, UnitsOk;
    SteadyFacts(c, order);
    UnitsOkOf(c);
  }

  /** An address no unit reserves has no owner. */
  lemma NoUnitNoOwner(c: Core, order: seq<UnitId>, pc: Pc)
    requires forall u :: u in c.units ==> !Reserves(c.units[u], pc)
    requires Settled(c, order)
    ensures forall x {:trigger Owner(c, x, pc)} :: !Owner(c, x, pc)
  {
    hide Settled, Owner;
    forall x | Owner(c, x, pc) ensures false {
      OwnerUnit(c, order, x, pc);
    }
  }

  lemma NotOwner(c: Core, q: Pc, pc: Pc)
    requires q in c.slots
    requires (c.slots[q].kind.Live? && c.slots[q].kind.f in c.frags ==> !InBody(c.frags[c.slots[q].kind.f], pc))
    ensures !Owner(c, q, pc)
  {
  }

  lemma OwnerFound(c: Core, order: seq<UnitId>, q: Pc, pc: Pc)
    requires q in c.slots && c.slots[q].kind.Live? && c.slots[q].kind.f in c.frags
    requires InBody(c.frags[c.slots[q].kind.f], pc)
    requires Settled(c, order)
    ensures Owner(c, q, pc) && forall x {:trigger Owner(c, x, pc)} :: Owner(c, x, pc) ==> x == q
  {
    hide Inv, Settled;
    SteadyFacts(c, order);
    forall x | Owner(c, x, pc) ensures x == q { OneOwner(c, x, q, pc); }
  }
}
