/** Flushing a unit takes every free slot in it off its list; freeing it takes the unit away. */
module Flushing {
  import opened Memory
  import opened Alignment
  import opened Layout
  import opened Coalescing
  import opened FreeLists
  import opened SharedModel
  import opened CacheFacts
  import opened Freeing
  import opened Placing
  import opened Removing
  import opened Growing
  import opened Lifecycle
  import opened Accounting

  /** Unit u is being walked and the walk has come to pc: u has no free slot before pc and no
      lost bytes from pc on; all else is settled. */
  ghost predicate Walking(c: Core, order: seq<UnitId>, u: UnitId, pc: Pc) {
    && |order| > 0 && c.head == order[0] && order[0] in c.units && Inv(c) && NoHoles(c.slots)
    && (forall v :: v in c.units ==> v in c.tops && c.tops[v] == c.units[v].cur)
    && UnitsFull(c.units, c.head) && LostOk(c.units, c.slots) && !c.units[order[0]].pendingFree
    && u in c.units && c.units[u].pendingFree && c.units[u].start <= pc <= c.units[u].cur
    && (pc == c.units[u].cur || (pc in c.slots && c.slots[pc].unit == u))
    && SweptTo(c, u, pc)
  }

  predicate IsPending(units: Units, u: UnitId) { u in units && units[u].pendingFree }

  ghost predicate SweptTo(c: Core, u: UnitId, pc: Pc) {
    && (forall p :: p in c.slots && c.slots[p].kind.Free? && IsPending(c.units, c.slots[p].unit) ==>
          c.slots[p].unit == u && pc <= p)
    && (forall p :: p in c.slots && c.slots[p].kind.Lost? && c.slots[p].unit == u ==> p < pc)
  }

  ghost function Pending(c: Core, u: UnitId): Core
    requires u in c.units
  {
    c.(units := c.units[u := c.units[u].(pendingFree := true)])
  }

  lemma WalkStart(c: Core, order: seq<UnitId>, u: UnitId)
    requires |order| > 0 && u in c.units && u != order[0] && !c.units[u].pendingFree
    requires Settled(c, order)
    ensures Walking(Pending(c, u), order, u, c.units[u].start)
  {
    hide Inv, Geometry, UnitsFull, FlushedOk, NoHoles;
    SteadyFacts(c, order);
    ApartOf(c);
    UnitFacts(c, u);
    UnitInv(c, u, Pending(c, u).units[u], c.mem);
    PendingFlags(c, u);
    RootOf(c, u);
    LostPending(c, u);
    SweepStart(c, u);
  }

  lemma LostPending(c: Core, u: UnitId)
    requires u in c.units && LostOk(c.units, c.slots)
    ensures LostOk(Pending(c, u).units, c.slots)
  {
  }

  lemma SweepStart(c: Core, u: UnitId)
    requires u in c.units && FlushedOk(c.units, c.slots) && LostOk(c.units, c.slots) && !c.units[u].pendingFree
    requires forall p :: p in c.slots && c.slots[p].unit == u ==> c.units[u].start <= p
    ensures SweptTo(Pending(c, u), u, c.units[u].start)
  {
  }

  lemma PendingFlags(c: Core, u: UnitId)
    requires u in c.units && UnitsFull(c.units, c.head)
    ensures UnitsFull(Pending(c, u).units, c.head)
  {
  }

  lemma RootOf(c: Core, u: UnitId)
    requires Geometry(c) && u in c.units && c.tops.Keys == c.units.Keys
    ensures c.units[u].start == c.tops[u] || (c.units[u].start in c.slots && c.slots[c.units[u].start].unit == u)
    ensures forall p :: p in c.slots && c.slots[p].unit == u ==> c.units[u].start <= p
  {
    hide Apart, Chained, SlotsAligned, UnitsAligned, MemOk, Sized;
    if First(c.units, u) < c.tops[u] {
      var q := First(c.units, u);
      assert q in c.slots;
      assert c.units[c.slots[q].unit].start <= q < c.units[c.slots[q].unit].reserved;
    }
  }

  /** What lies at the walk's position. */
  lemma WalkRead(c: Core, order: seq<UnitId>, u: UnitId, pc: Pc)
    requires Walking(c, order, u, pc) && pc < c.units[u].cur
    ensures pc in c.slots && c.slots[pc].unit == u && Readable(c, pc) && 0 < c.slots[pc].size
    ensures End(c.slots, pc) <= c.units[u].cur && c.units[u].start <= pc
    ensures End(c.slots, pc) == c.units[u].cur || (End(c.slots, pc) in c.slots && c.slots[End(c.slots, pc)].unit == u)
    ensures c.slots[pc].kind.Live? ==>
      FragSize(c.frags[c.slots[pc].kind.f]) == c.slots[pc].size && HdrStart(c.frags[c.slots[pc].kind.f]) == pc
  {
    hide Inv, Geometry, UnitsFull, LostOk, Readable, FragSize, HdrStart;
    assert Headed(c.slots[pc].kind);
    CanRead(c, pc);
    ApartOf(c);
    SlotFacts(c, pc);
    if c.slots[pc].kind.Live? { FragAt(c, pc); }
  }

  /** Passing a fragment. */
  lemma WalkLive(c: Core, order: seq<UnitId>, u: UnitId, pc: Pc)
    requires Walking(c, order, u, pc) && pc < c.units[u].cur && pc in c.slots && c.slots[pc].kind.Live?
    ensures Walking(c, order, u, End(c.slots, pc))
  {
    hide Inv, Geometry, UnitsFull, LostOk, NoHoles;
    WalkRead(c, order, u, pc);
    ApartOf(c);
    SweepLive(c, u, pc);
  }

  lemma SweepLive(c: Core, u: UnitId, pc: Pc)
    requires SweptTo(c, u, pc) && Apart(c.slots) && pc in c.slots && c.slots[pc].kind.Live?
    ensures SweptTo(c, u, End(c.slots, pc))
  {
  }

  /** Passing a free slot: it leaves its list and its bytes belong to nobody. */
  lemma WalkFree(c: Core, c1: Core, order: seq<UnitId>, u: UnitId, pc: Pc, b: nat, k: nat)
    requires Walking(c, order, u, pc) && pc < c.units[u].cur && pc in c.slots && c.slots[pc].kind.Free?
    requires ListedAs(c, b, k, pc) && IsDetached(c, c1, b, k, false) && Inv(c1)
    ensures pc in c1.slots && GivenUp(c1, pc).slots == SetKind(c.slots, pc, Lost)
    ensures Walking(GivenUp(c1, pc), order, u, End(c.slots, pc)) && GivenUp(c1, pc).frags == c.frags
    ensures GivenUp(c1, pc).units == c.units
    ensures SameLive(c.slots, GivenUp(c1, pc).slots)
  {
    hide Inv, Geometry, UnitsFull, LostOk, NoHoles, UnlinkMem, Without, NextRef, PrevRef, IsPtr, Bucket, Readable;
    WalkRead(c, order, u, pc);
    ApartOf(c);
    AllPositive(c);
    SweptNoFree(c, c1, u, pc);
    GiveUpInv(c1, pc);
    var c2 := GivenUp(c1, pc);
    assert c2.slots == SetKind(c.slots, pc, Lost);
    PendingLost(c, c.(slots := SetKind(c.slots, pc, Lost)), pc);
    StillNoHoles(c.slots, pc, Lost);
    SweepFree(c, c2, u, pc);
  }

  lemma SweptNoFree(c: Core, c1: Core, u: UnitId, pc: Pc)
    requires SweptTo(c, u, pc) && pc in c.slots && c.slots[pc].unit == u && u in c.units && c.units[u].pendingFree
    requires c1.slots == SetKind(c.slots, pc, Hole) && forall x :: x in c.slots ==> 0 < c.slots[x].size
    ensures NoFreeBefore(c1.slots, pc)
  {
  }

  lemma SweepFree(c: Core, c2: Core, u: UnitId, pc: Pc)
    requires SweptTo(c, u, pc) && Apart(c.slots) && pc in c.slots && 0 < c.slots[pc].size
    requires c2.slots == SetKind(c.slots, pc, Lost) && c2.units == c.units
    ensures SweptTo(c2, u, End(c.slots, pc))
  {
  }

  lemma WalkDone(c: Core, order: seq<UnitId>, u: UnitId)
    requires u in c.units && Walking(c, order, u, c.units[u].cur)
    ensures Settled(c, order)
  {
    hide Inv, Geometry, UnitsFull, LostOk, NoHoles;
    ApartOf(c);
    BelowCur(c, u);
    SettledAgain(c, order);
  }

  lemma BelowCur(c: Core, u: UnitId)
    requires u in c.units && u in c.tops && c.tops[u] == c.units[u].cur
    requires Geometry(c)
    ensures forall p :: p in c.slots && c.slots[p].unit == u ==> p < c.units[u].cur
  {
    hide Apart, Chained, Rooted, SlotsAligned, UnitsAligned, MemOk, Sized, UnitsOk;
    UnitsKeys(c.units, c.tops);
  }

  lemma AllPositive(c: Core)
    requires Geometry(c)
    ensures forall x :: x in c.slots ==> 0 < c.slots[x].size
  {
    hide Apart, Chained, Rooted, SlotsAligned, UnitsAligned, MemOk, Sized, UnitsOk;
    UnitsKeys(c.units, c.tops);
  }

  /** The fragment is one the flush hands on: not deleted before, or still on the lazy list. */
  predicate Handed(frags: Frags, lazy: set<FragId>, f: FragId) {
    f in frags && (!frags[f].flags.wasDeleted || f in lazy)
  }

  /** chain is exactly the fragments of unit u before pc that the flush hands on. */
  ghost predicate ChainTo(slots: Slots, frags: Frags, lazy: set<FragId>, u: UnitId, pc: Pc, chain: seq<FragId>) {
    && (forall p: Pc :: IsLive(slots, p) && slots[p].unit == u && p < pc && Handed(frags, lazy, slots[p].kind.f) ==>
          slots[p].kind.f in chain)
    && (forall f :: f in chain ==>
          Handed(frags, lazy, f)
          && exists p: Pc :: IsLive(slots, p) && slots[p].unit == u && p < pc && slots[p].kind.f == f)
  }

  /** chain is exactly the fragments of the units in us that the flush hands on, each once. */
  ghost predicate ChainAll(slots: Slots, frags: Frags, lazy: set<FragId>, us: seq<UnitId>, chain: seq<FragId>) {
    && (forall i, j :: 0 <= i < j < |chain| ==> chain[i] != chain[j])
    && (forall p: Pc :: IsLive(slots, p) && slots[p].unit in us && Handed(frags, lazy, slots[p].kind.f) ==>
          slots[p].kind.f in chain)
    && (forall f :: f in chain ==>
          Handed(frags, lazy, f) && exists p: Pc :: IsLive(slots, p) && slots[p].unit in us && slots[p].kind.f == f)
  }

  /** The fragments of the chain, by their flags and slots. */
  lemma ChainMeans(slots: Slots, frags: Frags, lazy: set<FragId>, us: seq<UnitId>, chain: seq<FragId>)
    requires ChainAll(slots, frags, lazy, us, chain)
    ensures forall i, j :: 0 <= i < j < |chain| ==> chain[i] != chain[j]
    ensures forall f :: f in chain ==> f in frags && (!frags[f].flags.wasDeleted || f in lazy)
    ensures forall f :: f in chain ==> exists p :: p in slots && slots[p].kind == Live(f) && slots[p].unit in us
    ensures forall p ::
      p in slots && slots[p].kind.Live? && slots[p].unit in us && slots[p].kind.f in frags ==>
      !frags[slots[p].kind.f].flags.wasDeleted || slots[p].kind.f in lazy ==> slots[p].kind.f in chain
  {
    forall p |
      p in slots && slots[p].kind.Live? && slots[p].unit in us && slots[p].kind.f in frags
      && (!frags[slots[p].kind.f].flags.wasDeleted || slots[p].kind.f in lazy)
      ensures slots[p].kind.f in chain
    {
      assert IsLive(slots, p) && Handed(frags, lazy, slots[p].kind.f);
    }
    forall f | f in chain ensures exists p :: p in slots && slots[p].kind == Live(f) && slots[p].unit in us {
      var p: Pc :| IsLive(slots, p) && slots[p].unit in us && slots[p].kind.f == f;
      assert slots[p].kind == Live(f);
    }
  }

  lemma ChainJoin(
    slots: Slots, slots': Slots, frags: Frags, lazy: set<FragId>, us: seq<UnitId>, chain: seq<FragId>, u: UnitId,
    pc: Pc, more: seq<FragId>)
    requires ChainAll(slots, frags, lazy, us, chain) && SameLive(slots, slots')
    requires ChainTo(slots', frags, lazy, u, pc, more)
    requires forall p: Pc :: IsLive(slots', p) && slots'[p].unit == u ==> p < pc
    requires u !in us && InOrder(frags, more, pc) && FragsOk(slots', frags)
    ensures ChainAll(slots', frags, lazy, us + [u], chain + more)
  {
    hide Handed, HdrStart, FragSize;
    forall i, j | 0 <= i < |chain| && 0 <= j < |more| ensures chain[i] != more[j] {
      assert chain[i] in chain && more[j] in more;
      var p: Pc :| IsLive(slots, p) && slots[p].unit in us && slots[p].kind.f == chain[i];
      var q: Pc :| IsLive(slots', q) && slots'[q].unit == u && q < pc && slots'[q].kind.f == more[j];
      assert IsLive(slots', p) && slots'[p] == slots[p];
    }
    forall p: Pc | IsLive(slots', p) && slots'[p].unit in us + [u] && Handed(frags, lazy, slots'[p].kind.f)
      ensures slots'[p].kind.f in chain + more
    {
      assert IsLive(slots, p);
    }
    forall f | f in chain + more
      ensures Handed(frags, lazy, f)
      ensures exists p: Pc :: IsLive(slots', p) && slots'[p].unit in us + [u] && slots'[p].kind.f == f
    {
      if f in chain {
        var p: Pc :| IsLive(slots, p) && slots[p].unit in us && slots[p].kind.f == f;
        assert IsLive(slots', p) && slots'[p].unit in us + [u];
      } else {
        var p: Pc :| IsLive(slots', p) && slots'[p].unit == u && p < pc && slots'[p].kind.f == f;
        assert slots'[p].unit in us + [u];
      }
    }
  }

  lemma FragsOkOf(c: Core)
    requires Inv(c)
    ensures FragsOk(c.slots, c.frags)
  {
    hide Geometry, Normal, FragsOk, HeadersOk, Listed, Linked, Counted;
  }

  lemma LiveBelowCur(c: Core, order: seq<UnitId>, u: UnitId)
    requires u in c.units
    requires Settled(c, order)
    ensures forall p: Pc :: IsLive(c.slots, p) && c.slots[p].unit == u ==> p < c.units[u].cur
    ensures FragsOk(c.slots, c.frags)
  {
    hide Inv, Geometry, UnitsFull, LostOk, FlushedOk, NoHoles, FragsOk;
    SteadyFacts(c, order);
    ApartOf(c);
    FragsOkOf(c);
    forall p: Pc | IsLive(c.slots, p) && c.slots[p].unit == u ensures p < c.units[u].cur { SlotFacts(c, p); }
  }

  lemma NoChain(slots: Slots, frags: Frags, lazy: set<FragId>)
    ensures ChainAll(slots, frags, lazy, [], [])
  {
  }

  /** The fragments of chain follow each other in memory and start before pc. */
  ghost predicate InOrder(frags: Frags, chain: seq<FragId>, pc: Pc) {
    && (forall i :: 0 <= i < |chain| ==> chain[i] in frags && HdrStart(frags[chain[i]]) < pc)
    && (forall i, j :: 0 <= i < j < |chain| ==> HdrStart(frags[chain[i]]) < HdrStart(frags[chain[j]]))
  }

  lemma OrderMore(frags: Frags, chain: seq<FragId>, pc: Pc, f: FragId, pc': Pc)
    requires InOrder(frags, chain, pc) && f in frags && HdrStart(frags[f]) == pc < pc'
    ensures InOrder(frags, chain + [f], pc') && InOrder(frags, chain, pc')
  {
    hide HdrStart;
  }

  lemma NoneInOrder(frags: Frags, pc: Pc)
    ensures InOrder(frags, [], pc)
  {
  }

  lemma OrderOn(frags: Frags, chain: seq<FragId>, pc: Pc, pc': Pc)
    requires InOrder(frags, chain, pc) && pc <= pc'
    ensures InOrder(frags, chain, pc')
  {
    hide HdrStart;
  }

  lemma ChainStart(c: Core, lazy: set<FragId>, u: UnitId, pc: Pc)
    requires forall p :: p in c.slots && c.slots[p].unit == u ==> pc <= p
    ensures ChainTo(c.slots, c.frags, lazy, u, pc, [])
  {
  }

  lemma ChainLive(slots: Slots, frags: Frags, lazy: set<FragId>, u: UnitId, pc: Pc, chain: seq<FragId>)
    requires ChainTo(slots, frags, lazy, u, pc, chain) && IsLive(slots, pc) && slots[pc].unit == u && 0 < slots[pc].size
    requires Apart(slots)
    ensures Handed(frags, lazy, slots[pc].kind.f) ==>
      ChainTo(slots, frags, lazy, u, End(slots, pc), chain + [slots[pc].kind.f])
    ensures !Handed(frags, lazy, slots[pc].kind.f) ==> ChainTo(slots, frags, lazy, u, End(slots, pc), chain)
  {
    var f := slots[pc].kind.f;
    if Handed(frags, lazy, f) {
      var chain' := chain + [f];
      forall g | g in chain'
        ensures Handed(frags, lazy, g)
        ensures exists p: Pc :: IsLive(slots, p) && slots[p].unit == u && p < End(slots, pc) && slots[p].kind.f == g
      {
        if g in chain {
          var p: Pc :| IsLive(slots, p) && slots[p].unit == u && p < pc && slots[p].kind.f == g;
          assert p < End(slots, pc);
        } else {
          assert IsLive(slots, pc) && pc < End(slots, pc);
        }
      }
    } else {
      forall g | g in chain
        ensures exists p: Pc :: IsLive(slots, p) && slots[p].unit == u && p < End(slots, pc) && slots[p].kind.f == g
      {
        var p: Pc :| IsLive(slots, p) && slots[p].unit == u && p < pc && slots[p].kind.f == g;
        assert p < End(slots, pc);
      }
    }
  }

  lemma ChainFree(slots: Slots, slots': Slots, frags: Frags, lazy: set<FragId>, u: UnitId, pc: Pc, chain: seq<FragId>)
    requires ChainTo(slots, frags, lazy, u, pc, chain) && pc in slots && !slots[pc].kind.Live? && Apart(slots)
    requires SameLive(slots, slots')
    ensures ChainTo(slots', frags, lazy, u, End(slots, pc), chain)
  {
    forall g | g in chain
      ensures exists p: Pc :: IsLive(slots', p) && slots'[p].unit == u && p < End(slots, pc) && slots'[p].kind.f == g
    {
      var p: Pc :| IsLive(slots, p) && slots[p].unit == u && p < pc && slots[p].kind.f == g;
      assert IsLive(slots', p) && p < End(slots, pc);
    }
    forall p: Pc |
      IsLive(slots', p) && slots'[p].unit == u && p < End(slots, pc) && Handed(frags, lazy, slots'[p].kind.f)
      ensures slots'[p].kind.f in chain
    {
      assert IsLive(slots, p);
    }
  }

  lemma LiveAgain(s: Slots, s1: Slots, s2: Slots)
    requires SameLive(s, s1) && SameLive(s1, s2)
    ensures SameLive(s, s2)
  {
    assert forall x :: IsLive(s, x) || IsLive(s2, x) ==> IsLive(s1, x);
  }

  lemma WalkFacts(c: Core, order: seq<UnitId>, u: UnitId, pc: Pc)
    requires Walking(c, order, u, pc)
    ensures Inv(c) && Apart(c.slots) && u in c.units && pc <= c.units[u].cur
    ensures forall p :: p in c.slots && c.slots[p].unit == u ==> c.units[u].start <= p
  {
    hide Inv, Geometry, UnitsFull, LostOk, NoHoles, SweptTo;
    ApartOf(c);
    RootOf(c, u);
  }

  lemma LiveRefl(slots: Slots)
    ensures SameLive(slots, slots)
  {
  }

  lemma UnitsDisjoint(c: Core, order: seq<UnitId>)
    requires Settled(c, order)
    ensures forall v, w :: v in c.units && w in c.units && v != w ==>
      c.units[v].reserved <= c.units[w].start || c.units[w].reserved <= c.units[v].start
  {
    hide Inv, Geometry, UnitsFull, LostOk, FlushedOk, NoHoles;
    SteadyFacts(c, order);
    ApartOf(c);
    forall v, w | v in c.units && w in c.units && v != w
      ensures c.units[v].reserved <= c.units[w].start || c.units[w].reserved <= c.units[v].start
    {
      UnitsApart(c, v, w);
    }
  }

  lemma ListedIs(c: Core, b: nat, k: nat, p: Pc)
    requires b < BUCKETS == |c.lists| && k < |c.lists[b]| && c.lists[b][k] == p
    ensures ListedAs(c, b, k, p)
  {
  }

  // ----- a flushed unit is taken away

  /** Nothing lives in unit u, and nothing in it is on a list. */
  ghost predicate Emptied(slots: Slots, u: UnitId) {
    forall p :: p in slots && slots[p].unit == u ==> slots[p].kind.Lost?
  }

  function WithoutUnit(slots: Slots, u: UnitId): Slots { map p | p in slots && slots[p].unit != u :: slots[p] }

  ghost function Dropped(c: Core, u: UnitId): Core {
    c.(units := c.units - {u}, tops := c.tops - {u}, slots := WithoutUnit(c.slots, u))
  }

  lemma DropUnits(c: Core, u: UnitId)
    requires UnitsOk(c.units, c.tops) && u in c.units
    ensures UnitsOk(c.units - {u}, c.tops - {u}) && (c.tops - {u}).Keys == (c.units - {u}).Keys
  {
    assert (c.tops - {u}).Keys == c.tops.Keys - {u} && (c.units - {u}).Keys == c.units.Keys - {u};
  }

  lemma DropHoused(c: Core, u: UnitId)
    requires c.tops.Keys == c.units.Keys && (c.tops - {u}).Keys == (c.units - {u}).Keys
    requires Housed(c.units, c.tops, c.slots)
    ensures Housed(c.units - {u}, c.tops - {u}, WithoutUnit(c.slots, u))
  {
  }

  lemma DropApart(slots: Slots, u: UnitId)
    requires Apart(slots)
    ensures Apart(WithoutUnit(slots, u))
  {
  }

  lemma DropChained(c: Core, u: UnitId)
    requires UnitsOk(c.units, c.tops) && Tiled(c.units, c.tops, c.slots) && u in c.units
    ensures Chained(c.tops - {u}, WithoutUnit(c.slots, u))
  {
    hide Apart, Rooted;
    var s' := WithoutUnit(c.slots, u);
    forall p | p in s'
      ensures (s'[p].unit in c.tops - {u} && End(s', p) == (c.tops - {u})[s'[p].unit]) || End(s', p) in s'
    {
      assert End(s', p) == End(c.slots, p);
      if End(c.slots, p) != c.tops[c.slots[p].unit] { NextInUnit(c.units, c.tops, c.slots, p); }
    }
  }

  lemma DropRooted(c: Core, u: UnitId)
    requires UnitsOk(c.units, c.tops) && Housed(c.units, c.tops, c.slots) && Rooted(c.units, c.tops, c.slots)
    requires u in c.units
    ensures Rooted(c.units - {u}, c.tops - {u}, WithoutUnit(c.slots, u))
  {
    var units', tops', s' := c.units - {u}, c.tops - {u}, WithoutUnit(c.slots, u);
    forall v | v in units' && First(units', v) < tops'[v] ensures First(units', v) in s' {
      var q := First(c.units, v);
      assert First(units', v) == q && q in c.slots;
      assert c.units[c.slots[q].unit].start <= q < c.units[c.slots[q].unit].reserved;
    }
  }

  lemma DropGeometry(c: Core, u: UnitId)
    requires Geometry(c) && u in c.units
    ensures Geometry(Dropped(c, u))
  {
    hide Apart, Chained, Rooted, Housed, UnitsOk, SlotsAligned, UnitsAligned, MemOk, Sized, WithoutUnit;
    UnitsKeys(c.units, c.tops);
    DropUnits(c, u);
    DropHoused(c, u);
    DropApart(c.slots, u);
    DropChained(c, u);
    DropRooted(c, u);
    DropRest(c, u);
  }

  lemma DropRest(c: Core, u: UnitId)
    requires IsAlign(c.align) && c.tops.Keys == c.units.Keys && u in c.units
    requires SlotsAligned(c.align, c.slots) && UnitsAligned(c.align, c.units, c.tops) && MemOk(c.mem, c.units)
    requires Sized(c.slots)
    ensures (c.tops - {u}).Keys == (c.units - {u}).Keys
    ensures SlotsAligned(c.align, WithoutUnit(c.slots, u)) && UnitsAligned(c.align, c.units - {u}, c.tops - {u})
    ensures MemOk(c.mem, c.units - {u}) && Sized(WithoutUnit(c.slots, u))
  {
    hide Aligned;
    forall v, a | v in c.units - {u} && (c.units - {u})[v].start <= a < (c.units - {u})[v].end && a % 4 == 0
      ensures a in c.mem
    {
      WordMapped(c.mem, c.units, v, a);
    }
  }

  lemma DropNormal(c: Core, u: UnitId)
    requires Normal(c.tops, c.slots, c.frags, c.head) && u != c.head
    ensures Normal(c.tops - {u}, WithoutUnit(c.slots, u), c.frags, c.head)
  {
    var s' := WithoutUnit(c.slots, u);
    assert forall x {:trigger End(s', x)} :: x in s' ==> x in c.slots && End(s', x) == End(c.slots, x);
    forall x | x in s' && s'[x].kind.Live? && Marked(c.frags, s'[x].kind.f) ensures PrevLoose(s', x) {
      var q :| q in c.slots && End(c.slots, q) == x && c.slots[q].unit == c.slots[x].unit && Loose(c.slots[q].kind);
      assert End(s', q) == x;
    }
  }

  lemma DropFrames(c: Core, u: UnitId)
    requires FragsOk(c.slots, c.frags) && HeadersOk(c.mem, c.slots) && Emptied(c.slots, u)
    ensures FragsOk(WithoutUnit(c.slots, u), c.frags) && HeadersOk(c.mem, WithoutUnit(c.slots, u))
    ensures SameFree(c.slots, WithoutUnit(c.slots, u))
    ensures SameLive(c.slots, WithoutUnit(c.slots, u))
  {
    hide HdrStart, FragSize, HeaderOk;
  }

  lemma DropInv(c: Core, u: UnitId)
    requires Inv(c) && u in c.units && u != c.head && Emptied(c.slots, u)
    ensures Inv(Dropped(c, u)) && SameLive(c.slots, Dropped(c, u).slots)
  {
    hide Geometry, Normal, FragsOk, HeadersOk, Listed, Linked, Counted, SameFree, WithoutUnit, SameLive, Emptied;
    DropGeometry(c, u);
    DropNormal(c, u);
    DropFrames(c, u);
    ListedFrame(c.slots, Dropped(c, u).slots, c.lists);
    CountedFrame(c.slots, Dropped(c, u).slots, c.lists, c.stats);
  }

  lemma DropSettled(c: Core, order: seq<UnitId>, u: UnitId)
    requires |order| > 0 && u in c.units && u != order[0] && Emptied(c.slots, u)
    requires Settled(c, order)
    ensures Settled(Dropped(c, u), order) && SameLive(c.slots, Dropped(c, u).slots)
  {
    hide Inv, UnitsFull, LostOk, FlushedOk, SameLive, Emptied;
    SteadyFacts(c, order);
    DropInv(c, u);
    DropFlags(c, u);
  }

  lemma DropFlags(c: Core, u: UnitId)
    requires UnitsFull(c.units, c.head) && LostOk(c.units, c.slots) && FlushedOk(c.units, c.slots)
    ensures UnitsFull(c.units - {u}, c.head) && FlushedOk(c.units - {u}, WithoutUnit(c.slots, u))
    ensures LostOk(c.units - {u}, WithoutUnit(c.slots, u))
  {
    var s' := WithoutUnit(c.slots, u);
    assert forall x {:trigger End(s', x)} :: x in s' ==> x in c.slots && End(s', x) == End(c.slots, x);
  }

  /** The first unit to be freed is gone with its slots, and dead if it was kept. */
  ghost predicate UnitGone(
    c: Core, c': Core, toFree: seq<Flushed>, toFree': seq<Flushed>, dead: seq<Dead>, dead': seq<Dead>, numThreads: nat)
  {
    && |toFree| > 0 && toFree[0].id in c.units && toFree' == toFree[1..]
    && c' == Dropped(c, toFree[0].id) && SameLive(c.slots, c'.slots)
    && dead' == DeadAfter(dead, toFree[0].id, c.units[toFree[0].id], numThreads)
  }

  /** Everything between operations holds again once the first unit to be freed is gone. */
  lemma DropDone(
    c: Core, c': Core, order: seq<UnitId>, toFlush: seq<UnitId>, toFree: seq<Flushed>, toFree': seq<Flushed>,
    dead: seq<Dead>, dead': seq<Dead>, maxUnit: nat, n: nat, size: nat, numThreads: nat, hole: nat)
    requires |toFree| > 0 && |order| > 0 && Emptied(c.slots, toFree[0].id)
    requires OnePlace(c.units, order, toFlush, toFree, dead) && Paged(c.units, dead, maxUnit)
    requires Ledger(c.units, dead, n, size)
    requires toFree[0].id in c.units && c' == Dropped(c, toFree[0].id) && toFree' == toFree[1..]
    requires dead' == DeadAfter(dead, toFree[0].id, c.units[toFree[0].id], numThreads)
    requires Roomy(c, order[0], hole)
    requires Settled(c, order)
    ensures UnitGone(c, c', toFree, toFree', dead, dead', numThreads) && Roomy(c', order[0], hole)
    ensures OnePlace(c'.units, order, toFlush, toFree', dead') && Paged(c'.units, dead', maxUnit)
    ensures Share(c.units[toFree[0].id]) <= size
    ensures Ledger(c'.units, dead', n, size - Share(c.units[toFree[0].id]))
    ensures Settled(c', order)
  {
    hide Settled, Emptied, SameLive, OnePlace, Paged, Ledger, DeadAfter, WithoutUnit, Roomy;
    var u := toFree[0].id;
    UnitsDisjoint(c, order);
    FreePlaces(c.units, order, toFlush, toFree, dead, maxUnit, n, size, numThreads);
    DropSettled(c, order, u);
    RoomyEnd(c, order[0], hole);
    RoomyUnits(c, c', order[0], hole);
  }

  /** Clearing the cache field of a unit changes nothing that matters to the slots. */
  lemma DetachSettled(c: Core, order: seq<UnitId>, u: UnitId, hole: nat)
    requires |order| > 0 && u in c.units && u != order[0] && Roomy(c, order[0], hole)
    requires Settled(c, order)
    ensures Settled(CacheCleared(c, u), order) && Roomy(CacheCleared(c, u), order[0], hole)
    ensures c.units[u].start <= c.units[u].end
  {
    hide Inv, Geometry, UnitsFull, LostOk, FlushedOk, NoHoles, SameLive;
    SteadyFacts(c, order);
    ApartOf(c);
    UnitFacts(c, u);
    UnitInv(c, u, CacheCleared(c, u).units[u], c.mem);
    DetachFlags(c, u);
    RoomyEnd(c, order[0], hole);
    LiveRefl(c.slots);
    RoomyUnits(c, CacheCleared(c, u), order[0], hole);
  }

  ghost function CacheCleared(c: Core, u: UnitId): Core
    requires u in c.units
  {
    c.(units := c.units[u := c.units[u].(attached := false)])
  }

  lemma DetachFlags(c: Core, u: UnitId)
    requires u in c.units && UnitsFull(c.units, c.head) && LostOk(c.units, c.slots) && FlushedOk(c.units, c.slots)
    ensures var units' := CacheCleared(c, u).units;
      UnitsFull(units', c.head) && LostOk(units', c.slots) && FlushedOk(units', c.slots)
  {
  }

  lemma StillEmptied(slots: Slots, u: UnitId, v: UnitId)
    requires Emptied(slots, v)
    ensures Emptied(WithoutUnit(slots, u), v)
  {
  }

  /** Freeing the n-th unit of a list, in terms of the whole list. */
  lemma FreedStep(
    units0: Units, dead0: seq<Dead>, toFree0: seq<Flushed>, n: nat, c: Core, c': Core, toFree: seq<Flushed>,
    toFree': seq<Flushed>, dead: seq<Dead>, dead': seq<Dead>, numThreads: nat, flushtime: nat)
    requires n <= |toFree0| && toFree == toFree0[n..] && UnitGone(c, c', toFree, toFree', dead, dead', numThreads)
    requires c.units == SurvivingUnits(units0, FlushedIds(toFree0[..n]))
    requires DeadOnly(dead0, dead, FlushedIds(toFree0[..n]))
    requires forall i :: 0 <= i < |toFree| && toFree[i].stamp <= flushtime ==> Emptied(c.slots, toFree[i].id)
    ensures n < |toFree0| && toFree' == toFree0[n + 1..] && SameLive(c.slots, c'.slots)
    ensures c'.units == SurvivingUnits(units0, FlushedIds(toFree0[..n + 1]))
    ensures DeadOnly(dead0, dead', FlushedIds(toFree0[..n + 1]))
    ensures forall i :: 0 <= i < |toFree'| && toFree'[i].stamp <= flushtime ==> Emptied(c'.slots, toFree'[i].id)
  {
    hide SameLive, Emptied, DeadAfter, SurvivingUnits, DeadOnly, WithoutUnit, FlushedIds;
    PrefixGrows(toFree0, n);
    StillThere(units0, toFree0, n);
    DeadNext(dead0, dead, toFree0, n, c.units[toFree[0].id], numThreads);
    forall i | 0 <= i < |toFree'| && toFree'[i].stamp <= flushtime ensures Emptied(c'.slots, toFree'[i].id) {
      assert toFree'[i] == toFree[i + 1];
      StillEmptied(c.slots, toFree[0].id, toFree[i + 1].id);
    }
  }
}
