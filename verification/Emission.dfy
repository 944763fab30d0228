/** Writing code into the bodies of fragments leaves every in-band record of a shared cache as it was. */
module Emission {
  import opened Memory
  import opened Layout
  import opened Coalescing
  import opened FreeLists
  import opened SharedModel
  import opened CacheFacts
  import opened Removing

  /** The word at a lies in a live slot, behind the header. */
  ghost predicate CodeWord(slots: Slots, a: Pc) {
    exists p :: p in slots && slots[p].kind.Live? && p + PTR <= a < End(slots, p)
  }

  /** The two memories differ in code words only. */
  ghost predicate CodeOnly(slots: Slots, m: Mem, m': Mem) {
    m'.Keys == m.Keys && forall a :: a in m && m'[a] != m[a] ==> CodeWord(slots, a)
  }

  lemma HeaderNotCode(slots: Slots, p: Pc)
    requires Apart(slots) && p in slots && slots[p].kind.Live? && PTR <= slots[p].size
    ensures !CodeWord(slots, p) && !CodeWord(slots, p + 4)
  {
  }

  lemma FreeNotCode(slots: Slots, p: Pc, a: Pc)
    requires Apart(slots) && p in slots && slots[p].kind.Free? && p <= a < End(slots, p)
    ensures !CodeWord(slots, a)
  {
  }

  lemma EntryStays(slots: Slots, m: Mem, m': Mem, p: Pc)
    requires CodeOnly(slots, m, m') && Apart(slots) && p in slots && slots[p].kind.Free?
    requires slots[p].size >= MIN_SLOT && EntryAt(m, p, slots[p].size)
    ensures EntryAt(m', p, slots[p].size)
    ensures m'[p] == m[p] && m'[p + 4] == m[p + 4]
    ensures m'[p + PREV_AT] == m[p + PREV_AT] && m'[p + PREV_AT + 4] == m[p + PREV_AT + 4]
  {
    hide CodeWord, Apart;
    FreeNotCode(slots, p, p);
    FreeNotCode(slots, p, p + 4);
    FreeNotCode(slots, p, p + FLAGS_AT);
    FreeNotCode(slots, p, p + SIZE_AT);
    FreeNotCode(slots, p, p + PREV_AT);
    FreeNotCode(slots, p, p + PREV_AT + 4);
    FreeNotCode(slots, p, p + slots[p].size - FOOTER);
  }

  lemma HeadersStay(slots: Slots, m: Mem, m': Mem)
    requires CodeOnly(slots, m, m') && Apart(slots) && Sized(slots) && HeadersOk(m, slots)
    ensures HeadersOk(m', slots)
  {
    hide CodeWord, Apart, CodeOnly;
    forall p | p in slots ensures HeaderOk(m', p, slots[p]) {
      assert HeaderOk(m, p, slots[p]);
      if slots[p].kind.Live? {
        LiveHeaderStays(slots, m, m', p, slots[p].kind.f);
      } else if slots[p].kind.Free? {
        EntryStays(slots, m, m', p);
      }
    }
  }

  lemma LiveHeaderStays(slots: Slots, m: Mem, m': Mem, p: Pc, f: FragId)
    requires CodeOnly(slots, m, m') && Apart(slots) && p in slots && slots[p].kind.Live? && PTR <= slots[p].size
    requires PtrAt(m, p, FragRef(f))
    ensures PtrAt(m', p, FragRef(f))
  {
    hide CodeWord, Apart;
    HeaderNotCode(slots, p);
  }

  lemma LinksStay(slots: Slots, lists: Lists, heads: seq<Ref>, m: Mem, m': Mem)
    requires CodeOnly(slots, m, m') && Apart(slots) && HeadersOk(m, slots) && Listed(slots, lists)
    requires Linked(m, heads, lists)
    ensures Linked(m', heads, lists)
  {
    hide CodeOnly, Apart, NextRef, PrevRef;
    forall b, i | 0 <= b < BUCKETS && 0 <= i < |lists[b]| ensures NodeOk(m', lists[b], i) {
      assert ListOk(m, heads[b], lists[b]) && NodeOk(m, lists[b], i);
      assert InBucket(slots, lists[b][i], b);
      assert HeaderOk(m, lists[b][i], slots[lists[b][i]]);
      EntryStays(slots, m, m', lists[b][i]);
    }
  }

  /** Whatever is written into the bodies of fragments, the invariant holds. */
  lemma CodeKeepsInv(c: Core, m': Mem)
    requires CodeOnly(c.slots, c.mem, m') && Inv(c)
    ensures Inv(c.(mem := m'))
  {
    hide CodeOnly, Linked, Listed, HeadersOk, Counted, Normal, FragsOk, Apart, Tiled, UnitsOk, SlotsAligned;
    hide UnitsAligned;
    assert Apart(c.slots) by { TiledApart(c); }
    HeadersStay(c.slots, c.mem, m');
    LinksStay(c.slots, c.lists, c.heads, c.mem, m');
    assert m'.Keys == c.mem.Keys by { SameKeys(c.slots, c.mem, m'); }
    MemOkGrow(c.mem, m', c.units);
  }

  lemma SameKeys(slots: Slots, m: Mem, m': Mem)
    requires CodeOnly(slots, m, m')
    ensures m'.Keys == m.Keys
  {
  }

  lemma CodeKeepsSettled(c: Core, order: seq<UnitId>, m': Mem)
    requires CodeOnly(c.slots, c.mem, m')
    requires Settled(c, order)
    ensures Settled(c.(mem := m'), order)
  {
    hide Inv, CodeOnly, UnitsFull, LostOk, FlushedOk, NoHoles;
    CodeKeepsInv(c, m');
  }

  /** One word of code. */
  lemma OneCodeWord(slots: Slots, m: Mem, a: Pc, w: Word)
    requires a in m && CodeWord(slots, a)
    ensures CodeOnly(slots, m, m[a := w])
  {
  }

  /** The bytes of a list entry in a flushed unit are lost, but its first word still leads to what was
      the next entry.  Once a fragment lives there, the flags that the in-band test reads through it are
      code: any answer can come out, in a state that is as settled as before. */
  lemma StaleRecord(c: Core, order: seq<UnitId>, p: Pc, b: Pc, fl: Flags)
    requires p in c.slots && c.slots[p].kind.Lost? && IsPtr(c.mem, p) && LoadPtr(c.mem, p) == EntryRef(b)
    requires b in c.slots && c.slots[b].kind.Live?
    requires Settled(c, order)
    ensures var m' := c.mem[b + FLAGS_AT := Bits(fl)];
      && CodeOnly(c.slots, c.mem, m') && Settled(c.(mem := m'), order)
      && IsPtr(m', p) && LoadPtr(m', p) == EntryRef(b) && DerefOk(m', c.frags, LoadPtr(m', p))
      && (IsFreeList(m', c.frags, LoadPtr(m', p)) <==> fl.freeList)
  {
    hide Inv, Settled, CodeOnly, Geometry, Apart, NoHoles, CodeWord, Mapped;
    SteadyFacts(c, order);
    ApartOf(c);
    FragAt(c, b);
    FlagsAreCode(c, b);
    OneCodeWord(c.slots, c.mem, b + FLAGS_AT, Bits(fl));
    CodeKeepsSettled(c, order, c.mem[b + FLAGS_AT := Bits(fl)]);
    assert b + FLAGS_AT != p && b + FLAGS_AT != p + 4 by { LostNotCode(c, p, b); }
  }

  lemma FlagsAreCode(c: Core, b: Pc)
    requires Geometry(c) && b in c.slots && c.slots[b].kind.Live? && MIN_SLOT <= c.slots[b].size
    ensures b + FLAGS_AT in c.mem && CodeWord(c.slots, b + FLAGS_AT)
  {
    hide Geometry;
    WordsMapped(c, b);
    assert b + PTR <= b + FLAGS_AT < End(c.slots, b);
  }

  lemma LostNotCode(c: Core, p: Pc, b: Pc)
    requires Apart(c.slots) && p in c.slots && c.slots[p].kind.Lost? && b in c.slots && c.slots[b].kind.Live?
    requires MIN_SLOT <= c.slots[b].size
    ensures b + FLAGS_AT != p && b + FLAGS_AT != p + 4
  {
  }
}
