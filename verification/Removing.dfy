/** Between operations: what holds of units, lost bytes and flushed units, and why removing a
    fragment or the end of its slot keeps it. */
module Removing {
  import opened Options
  import opened Memory
  import opened Layout
  import opened Coalescing
  import opened FreeLists
  import opened SharedModel
  import opened CacheFacts
  import opened Freeing
  import opened Placing

  /** A unit is full exactly when its append point is at its committed end; only the first unit
      of the cache may have room. */
  ghost predicate UnitsFull(units: Units, head: int) {
    forall u :: u in units ==> (units[u].full <==> units[u].cur == units[u].end) && (u != head ==> units[u].full)
  }

  /** Lost bytes lie in flushed units only. */
  ghost predicate LostOk(units: Units, slots: Slots) {
    forall p :: p in slots && slots[p].kind.Lost? && slots[p].unit in units ==> units[slots[p].unit].pendingFree
  }

  /** No free slot lies in a flushed unit. */
  ghost predicate FlushedOk(units: Units, slots: Slots) {
    forall p :: p in slots && slots[p].kind.Free? && slots[p].unit in units ==> !units[slots[p].unit].pendingFree
  }

  ghost predicate Settled(c: Core, order: seq<UnitId>) {
    && Steady(c, order)
    && UnitsFull(c.units, c.head) && LostOk(c.units, c.slots) && FlushedOk(c.units, c.slots)
    && !c.units[order[0]].pendingFree
  }

  /** Fragment f lives in the slot at p. */
  ghost predicate LivesAt(c: Core, f: FragId, p: Pc) { p in c.slots && c.slots[p].kind == Live(f) }

  lemma SteadyFacts(c: Core, order: seq<UnitId>)
    requires Settled(c, order)
    ensures Inv(c) && NoHoles(c.slots) && |order| > 0 && c.head == order[0] && order[0] in c.units
    ensures c.tops.Keys == c.units.Keys && forall u :: u in c.units ==> u in c.tops && c.tops[u] == c.units[u].cur
  {
    hide Inv, UnitsFull, LostOk, FlushedOk, NoHoles;
    ApartOf(c);
  }

  /** In a settled cache the mark is exact: it says whether the slot before is free. */
  lemma MarkExact(c: Core, order: seq<UnitId>, f: FragId, p: Pc)
    requires LivesAt(c, f, p) && c.slots[p].unit in c.units && !c.units[c.slots[p].unit].pendingFree
    requires Settled(c, order)
    ensures Marked(c.frags, f) <==> PrevFree(c.slots, p)
    ensures !Marked(c.frags, f) ==> NoFreeBefore(c.slots, p)
  {
    hide Inv, UnitsFull, FlushedOk, Geometry;
    SteadyFacts(c, order);
    NormalOf(c);
    ApartOf(c);
    hide HeadOpen;
    if Marked(c.frags, f) {
      var q :| q in c.slots && End(c.slots, q) == p && c.slots[q].unit == c.slots[p].unit && Loose(c.slots[q].kind);
      SlotFacts(c, p);
      assert c.slots[q].kind.Free?;
    }
    forall q | q in c.slots && c.slots[q].kind.Free? && End(c.slots, q) == p && c.slots[q].unit == c.slots[p].unit
      ensures Marked(c.frags, f)
    {
      SlotFacts(c, p);
    }
  }

  lemma NormalOf(c: Core)
    requires Inv(c)
    ensures Normal(c.tops, c.slots, c.frags, c.head)
  {
    hide Geometry, Normal, FragsOk, HeadersOk, Listed, Linked, Counted;
  }

  lemma VacatedKeeps(slots: Slots, p: Pc)
    requires p in slots && slots[p].kind.Live? && NoHoles(slots)
    ensures OnlyHole(SetKind(slots, p, Hole), p)
    ensures PrevFree(slots, p) ==> PrevFree(SetKind(slots, p, Hole), p)
    ensures NoFreeBefore(slots, p) ==> NoFreeBefore(SetKind(slots, p, Hole), p)
    ensures SameKeptBut(slots, SetKind(slots, p, Hole), p) && FreePlus(slots, SetKind(slots, p, Hole), 0, 0)
  {
    var s' := SetKind(slots, p, Hole);
    LostToHole(slots, p);
    hide FreePlus;
    if PrevFree(slots, p) {
      var q :| q in slots && slots[q].kind.Free? && End(slots, q) == p && slots[q].unit == slots[p].unit;
      assert End(s', q) == p;
    }
    if NoFreeBefore(slots, p) { StillNoFreeBefore(slots, p); }
  }

  /** No two slots hold the same fragment. */
  lemma OnlyHome(c: Core, f: FragId, p: Pc)
    requires LivesAt(c, f, p)
    requires Inv(c)
    ensures f in c.frags && HdrStart(c.frags[f]) == p && FragSize(c.frags[f]) == c.slots[p].size
    ensures c.slots[p].size >= MIN_SLOT
    ensures Homeless(SetKind(c.slots, p, Hole), f)
  {
    hide Inv, HdrStart, FragSize;
    FragAt(c, p);
    var s' := SetKind(c.slots, p, Hole);
    forall x | x in s' && s'[x].kind.Live? ensures s'[x].kind.f != f {
      FragAt(c, x);
    }
  }

  lemma RemoveReady(c: Core, order: seq<UnitId>, f: FragId, p: Pc)
    requires LivesAt(c, f, p) && c.slots[p].unit in c.units && !c.units[c.slots[p].unit].pendingFree
    requires Settled(c, order)
    ensures CanFree(Vacated(c, p), order, c.slots[p].unit, Some(f), p, c.slots[p].size)
  {
    hide Inv, UnitsFull, FlushedOk, Geometry, PrevFree, NoFreeBefore, OnlyHole, Homeless, SameKeptBut, FreePlus;
    hide HdrStart, FragSize, Marked;
    SteadyFacts(c, order);
    MarkExact(c, order, f, p);
    VacateInv(c, p);
    VacatedKeeps(c.slots, p);
    OnlyHome(c, f, p);
    ApartOf(c);
    SlotFacts(c, p);
  }

  /** Settled, but for a hole being worked on. */
  ghost predicate Settling(c: Core, order: seq<UnitId>) {
    && |order| > 0 && c.head == order[0] && order[0] in c.units && Inv(c)
    && (forall u :: u in c.units ==> u in c.tops && c.tops[u] == c.units[u].cur)
    && UnitsFull(c.units, c.head) && LostOk(c.units, c.slots) && FlushedOk(c.units, c.slots)
    && !c.units[order[0]].pendingFree
  }

  lemma SettledAgain(c: Core, order: seq<UnitId>)
    requires Settling(c, order) && NoHoles(c.slots)
    ensures Settled(c, order)
  {
    hide Inv, UnitsFull, LostOk, FlushedOk, NoHoles;
  }

  /** Lost slots stay where they were. */
  lemma LostKept(c: Core, c': Core)
    requires LostOk(c.units, c.slots) && c'.units.Keys == c.units.Keys
    requires forall x :: x in c'.slots && c'.slots[x].kind.Lost? ==> x in c.slots && c.slots[x] == c'.slots[x]
    requires forall u :: u in c.units ==> c'.units[u].pendingFree == c.units[u].pendingFree
    ensures LostOk(c'.units, c'.slots)
  {
  }

  lemma LostFromKept(s: Slots, s': Slots)
    requires SameKept(s, s')
    ensures forall x :: x in s' && s'[x].kind.Lost? ==> x in s && s[x] == s'[x]
  {
    forall x | x in s' && s'[x].kind.Lost? ensures x in s && s[x] == s'[x] { assert Kept(s', x); }
  }

  /** If every free byte was free before or lies in [lo, hi) of a unit that is not flushed, no
      free slot lies in a flushed unit. */
  lemma FlushedKept(c: Core, c': Core, u: UnitId, lo: int, hi: int)
    requires Inv(c) && Inv(c') && FlushedOk(c.units, c.slots) && u in c.units && !c.units[u].pendingFree
    requires c'.units.Keys == c.units.Keys
    requires forall v :: v in c.units ==>
      SameRegion(c.units[v], c'.units[v]) && c'.units[v].pendingFree == c.units[v].pendingFree
    requires forall a: Pc :: FreeByte(c'.slots, a) ==> FreeByte(c.slots, a) || lo <= a < hi
    requires c.units[u].start <= lo && hi <= c.units[u].reserved
    ensures FlushedOk(c'.units, c'.slots)
  {
    hide Inv, Geometry;
    forall p | p in c'.slots && c'.slots[p].kind.Free? && c'.slots[p].unit in c'.units
      ensures !c'.units[c'.slots[p].unit].pendingFree
    {
      var v := c'.slots[p].unit;
      ApartOf(c');
      SlotFacts(c', p);
      assert FreeByte(c'.slots, p);
      ApartOf(c);
      if FreeByte(c.slots, p) {
        var x :| x in c.slots && c.slots[x].kind.Free? && x <= p < x + c.slots[x].size;
        SlotFacts(c, x);
        if c.slots[x].unit != v { UnitsApart(c, c.slots[x].unit, v); }
      } else if u != v {
        UnitsApart(c, u, v);
      }
    }
  }

  predicate SameRegion(a: Unit, b: Unit) { a.start == b.start && a.reserved == b.reserved }

  lemma FreedSettled(c: Core, c': Core, order: seq<UnitId>, u: UnitId, start: Pc, size: nat)
    requires Settling(c, order) && HoleAt(c, u, start, size) && !c.units[u].pendingFree
    requires Freed(c, c', u, start, size, u == order[0] && c.units[u].cur == start + size)
    ensures Settled(c', order)
  {
    hide Inv, Geometry, UnitsFull, LostOk, FlushedOk, SameKept, SameButMarks, OnlyHole, AllFree, NoHoles, Homeless;
    var r := u == order[0] && c.units[u].cur == start + size;
    NextOf(c, u, start, size);
    SizePositive(c, start);
    ApartOf(c);
    SlotFacts(c, start);
    ApartOf(c');
    LostFromKept(c.slots, c'.slots);
    LostKept(c, c');
    assert forall a: Pc :: FreeByte(c'.slots, a) ==> FreeByte(c.slots, a) || start <= a < start + size;
    FlushedKept(c, c', u, start, start + size);
    if r { FullKept(c.units, c.head, u, c'.units[u].cur); }
    SettledAgain(c', order);
  }

  lemma FullKept(units: Units, head: int, u: UnitId, cur: Pc)
    requires UnitsFull(units, head) && u in units && u == head && cur < units[u].end
    ensures UnitsFull(units[u := units[u].(cur := cur, full := false)], head)
  {
  }

  /** Fragment f is gone from p: its bytes are free, or given back with the free bytes before
      them; nothing else that was live moved. */
  ghost predicate Removed(c: Core, c': Core, f: FragId, p: Pc) {
    && p in c.slots && c.slots[p].unit in c.units && c.slots[p].unit in c'.units
    && SameKeptBut(c.slots, c'.slots, p) && !(p in c'.slots && c'.slots[p].kind.Live?)
    && SameButMarks(c.frags, c'.frags)
    && var u, size := c.slots[p].unit, c.slots[p].size;
      if c.units[u].pendingFree then c'.units == c.units && FreePlus(c.slots, c'.slots, 0, 0)
      else if u == c.head && c.units[u].cur == p + size then
        && c'.units == c.units[u := c.units[u].(cur := c'.units[u].cur, full := false)] && c'.units[u].cur <= p
        && AllFree(c.slots, c'.units[u].cur, p) && FreeMinus(c.slots, c'.slots, c'.units[u].cur, p)
      else c'.units == c.units && FreePlus(c.slots, c'.slots, p, p + size)
  }

  lemma VacatedSettling(c: Core, order: seq<UnitId>, p: Pc)
    requires Settled(c, order) && p in c.slots && !c.slots[p].kind.Free?
    ensures Settling(Vacated(c, p), order)
  {
    hide Inv, UnitsFull, LostOk, NoHoles;
    SteadyFacts(c, order);
    VacateInv(c, p);
    assert forall x :: x in Vacated(c, p).slots && Vacated(c, p).slots[x].kind.Lost? ==>
      x in c.slots && c.slots[x] == Vacated(c, p).slots[x];
    LostKept(c, Vacated(c, p));
  }

  lemma RemoveDone(c: Core, c': Core, order: seq<UnitId>, f: FragId, p: Pc)
    requires LivesAt(c, f, p) && c.slots[p].unit in c.units && !c.units[c.slots[p].unit].pendingFree
    requires Settled(c, order)
    requires HoleAt(Vacated(c, p), c.slots[p].unit, p, c.slots[p].size)
    requires Freed(Vacated(c, p), c', c.slots[p].unit, p, c.slots[p].size,
                   c.slots[p].unit == order[0] && c.units[c.slots[p].unit].cur == p + c.slots[p].size)
    ensures Settled(c', order) && Removed(c, c', f, p)
  {
    hide Inv, Geometry, UnitsFull, LostOk, FlushedOk, SameKept, SameKeptBut, SameButMarks, OnlyHole, AllFree, NoHoles;
    hide Homeless, FreePlus, FreeMinus;
    SteadyFacts(c, order);
    VacatedSettling(c, order, p);
    var c1 := Vacated(c, p);
    FreedSettled(c1, c', order, c.slots[p].unit, p, c.slots[p].size);
    VacatedKeeps(c.slots, p);
    KeptToBut(c1.slots, c'.slots, p);
    KeptButChain(c.slots, c1.slots, c'.slots, p);
    GoneFrom(c1.slots, c'.slots, p);
    BytesAfter(c.slots, c1.slots, c'.slots, p, p + c.slots[p].size, c'.units[c.slots[p].unit].cur);
  }

  lemma GoneFrom(s: Slots, s': Slots, p: Pc)
    requires SameKept(s, s') && !Kept(s, p)
    ensures !(p in s' && s'[p].kind.Live?) && !Kept(s', p)
  {
  }

  lemma BytesAfter(s: Slots, s1: Slots, s2: Slots, lo: int, hi: int, x: int)
    requires FreePlus(s, s1, 0, 0)
    ensures FreePlus(s1, s2, lo, hi) ==> FreePlus(s, s2, lo, hi)
    ensures FreeMinus(s1, s2, x, lo) ==> FreeMinus(s, s2, x, lo)
    ensures AllFree(s1, x, lo) ==> AllFree(s, x, lo)
  {
    assert forall a: Pc {:trigger FreeByte(s, a)} {:trigger FreeByte(s1, a)} :: FreeByte(s1, a) <==> FreeByte(s, a);
  }

  /** What fcache_remove_fragment reads from the fragment. */
  lemma RemoveStart(c: Core, order: seq<UnitId>, f: FragId, p: Pc)
    requires LivesAt(c, f, p)
    requires Settled(c, order)
    ensures f in c.frags && HdrStart(c.frags[f]) == p && FragSize(c.frags[f]) == c.slots[p].size
    ensures c.slots[p].unit in c.units && UnitsOk(c.units, c.tops)
    ensures c.units[c.slots[p].unit].start <= c.frags[f].startPc < c.units[c.slots[p].unit].reserved
    ensures |order| > 0 && c.head == order[0]
  {
    hide Inv, UnitsFull, LostOk, FlushedOk, Geometry, UnitsOk;
    SteadyFacts(c, order);
    FragAt(c, p);
    ApartOf(c);
    SlotFacts(c, p);
    UnitsOkOf(c);
  }

  lemma HoleOf(c: Core, order: seq<UnitId>, u: UnitId, f: Option<FragId>, p: Pc, size: nat)
    requires CanFree(c, order, u, f, p, size)
    ensures HoleAt(c, u, p, size)
  {
    hide Inv;
  }

  /** In a flushed unit a removed fragment's bytes go to no list. */
  lemma RemovePending(c: Core, order: seq<UnitId>, f: FragId, p: Pc)
    requires LivesAt(c, f, p) && c.slots[p].unit in c.units && c.units[c.slots[p].unit].pendingFree
    requires Settled(c, order)
    ensures var c' := c.(slots := SetKind(c.slots, p, Lost));
      Settled(c', order) && Removed(c, c', f, p)
  {
    hide Inv, UnitsFull, LostOk, FreePlus, NoHoles, Geometry;
    SteadyFacts(c, order);
    VacatedSettling(c, order, p);
    var c1 := Vacated(c, p);
    NoFreeInFlushed(c1, p);
    GiveUpInv(c1, p);
    var c' := c.(slots := SetKind(c.slots, p, Lost));
    assert GivenUp(c1, p) == c';
    SameFreeBytes(c.slots, c'.slots);
    PendingLost(c, c', p);
    StillNoHoles(c.slots, p, Lost);
    SettledAgain(c', order);
  }

  lemma NoFreeInFlushed(c: Core, p: Pc)
    requires p in c.slots && c.slots[p].unit in c.units && c.units[c.slots[p].unit].pendingFree
    requires FlushedOk(c.units, c.slots)
    ensures NoFreeBefore(c.slots, p)
  {
  }

  lemma PendingLost(c: Core, c': Core, p: Pc)
    requires LostOk(c.units, c.slots) && p in c.slots && c.slots[p].unit in c.units
    requires c.units[c.slots[p].unit].pendingFree
    requires c' == c.(slots := SetKind(c.slots, p, Lost))
    ensures LostOk(c'.units, c'.slots)
  {
  }

  lemma StillNoHoles(slots: Slots, p: Pc, k: Kind)
    requires NoHoles(slots) && p in slots && !k.Hole?
    ensures NoHoles(SetKind(slots, p, k))
  {
  }

  lemma RemovedUnits(c: Core, c': Core, f: FragId, p: Pc)
    requires Removed(c, c', f, p)
    ensures p in c.slots && var u := c.slots[p].unit;
      && u in c.units && u in c'.units
      && c'.units == c.units[u := c.units[u].(cur := c'.units[u].cur, full := c'.units[u].full)]
  {
    hide SameKeptBut, FreePlus, FreeMinus, AllFree, SameButMarks;
  }
}
