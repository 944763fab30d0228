/** The state of a shared cache, its invariant, and the elementary steps that its operations
    are made of.  Each step keeps the invariant; the operations compose them. */
module SharedModel {
  import opened Memory
  import opened Alignment
  import opened Layout
  import opened Coalescing
  import opened FreeLists

  /** The head of a cache of which no unit is being filled. */
  const NONE: int := -1

  /** Per-bucket counters kept for the free lists. */
  datatype Stats = Stats(freed: seq<nat>, reused: seq<nat>, coalesced: seq<nat>, charge: seq<int>)

  /** A shared cache: memory, fragments, units and bucket heads as the program has them, and
      the slots, unit tops and list contents they stand for. */
  datatype Core = Core(
    align: nat, mem: Mem, frags: Frags, units: Units, head: int, heads: seq<Ref>, stats: Stats,
    slots: Slots, tops: Tops, lists: Lists)

  /** Every word of the committed part of a unit is mapped. */
  ghost predicate MemOk(m: Mem, units: Units) {
    forall u, a {:trigger units[u], m[a]} ::
      u in units && units[u].start <= a < units[u].end && a % 4 == 0 ==> a in m
  }

  /** Slots and units start and end at aligned addresses. */
  ghost predicate SlotsAligned(align: nat, slots: Slots)
    requires IsAlign(align)
  {
    forall p :: p in slots ==> Aligned(p, align) && Aligned(slots[p].size, align)
  }

  ghost predicate UnitsAligned(align: nat, units: Units, tops: Tops)
    requires IsAlign(align) && tops.Keys == units.Keys
  {
    forall u :: u in units ==>
      Aligned(units[u].start, align) && Aligned(units[u].end, align) && Aligned(tops[u], align)
  }

  /** The counters agree with the lists: entries freed and neither reused nor coalesced since,
      and bytes charged. */
  ghost predicate Counted(slots: Slots, lists: Lists, st: Stats) {
    && |st.freed| == |st.reused| == |st.coalesced| == |st.charge| == |lists| == BUCKETS
    && forall b :: 0 <= b < BUCKETS ==>
         && st.freed[b] == st.reused[b] + st.coalesced[b] + |lists[b]|
         && st.charge[b] == Bytes(slots, lists[b])
  }

  ghost predicate Geometry(c: Core) {
    && IsAlign(c.align) && UnitsOk(c.units, c.tops) && Tiled(c.units, c.tops, c.slots) && Sized(c.slots)
    && SlotsAligned(c.align, c.slots) && UnitsAligned(c.align, c.units, c.tops) && MemOk(c.mem, c.units)
  }

  ghost predicate Inv(c: Core) {
    && Geometry(c)
    && FragsOk(c.slots, c.frags)
    && Normal(c.tops, c.slots, c.frags, c.head)
    && HeadersOk(c.mem, c.slots)
    && Listed(c.slots, c.lists) && Linked(c.mem, c.heads, c.lists) && Counted(c.slots, c.lists, c.stats)
  }

  // ----- frames

  ghost predicate SameFree(s: Slots, s': Slots) {
    forall x :: (x in s && s[x].kind.Free?) || (x in s' && s'[x].kind.Free?) ==> x in s && x in s' && s[x] == s'[x]
  }

  lemma ListedFrame(s: Slots, s': Slots, lists: Lists)
    requires Listed(s, lists) && SameFree(s, s')
    ensures Listed(s', lists)
  {
    forall b, i | 0 <= b < BUCKETS && 0 <= i < |lists[b]| ensures InBucket(s', lists[b][i], b) {
      assert InBucket(s, lists[b][i], b);
    }
  }

  lemma CountedFrame(s: Slots, s': Slots, lists: Lists, st: Stats)
    requires Listed(s, lists) && SameFree(s, s') && Counted(s, lists, st)
    ensures Counted(s', lists, st)
  {
    forall b | 0 <= b < BUCKETS ensures Bytes(s', lists[b]) == Bytes(s, lists[b]) {
      forall i | 0 <= i < |lists[b]|
        ensures lists[b][i] in s && lists[b][i] in s' && s[lists[b][i]].size == s'[lists[b][i]].size
      {
        assert InBucket(s, lists[b][i], b);
      }
      BytesFrame(s, s', lists[b]);
    }
  }

  lemma WordsMapped(c: Core, p: Pc)
    requires Geometry(c) && p in c.slots && c.slots[p].size >= MIN_SLOT
    ensures Mapped(c.mem, p, c.slots[p].size)
  {
    var u := c.slots[p].unit;
    assert Aligned(p, c.align) && Aligned(c.slots[p].size, c.align);
    AlignedWord(p, c.align);
    AlignedWord(c.slots[p].size, c.align);
    assert c.units[u].start <= p && p + c.slots[p].size <= c.units[u].end;
    hide Aligned, Tiled, UnitsOk, SlotsAligned, UnitsAligned, Sized;
    MappedWords(c.mem, c.units, u, p, c.slots[p].size);
  }

  lemma MappedWords(m: Mem, units: Units, u: UnitId, p: Pc, size: nat)
    requires MemOk(m, units) && u in units && size >= MIN_SLOT
    requires units[u].start <= p && p + size <= units[u].end && p % 4 == 0 && size % 4 == 0
    ensures Mapped(m, p, size)
  {
    WordMapped(m, units, u, p);
    WordMapped(m, units, u, p + 4);
    WordMapped(m, units, u, p + FLAGS_AT);
    WordMapped(m, units, u, p + SIZE_AT);
    WordMapped(m, units, u, p + PREV_AT);
    WordMapped(m, units, u, p + PREV_AT + 4);
    WordMapped(m, units, u, p + size - FOOTER);
  }

  lemma WordMapped(m: Mem, units: Units, u: UnitId, a: Pc)
    requires MemOk(m, units) && u in units && units[u].start <= a < units[u].end && a % 4 == 0
    ensures a in m
  {
    assert units[u] == units[u] && (a in m ==> m[a] == m[a]);
  }

  lemma MemOkGrow(m: Mem, m': Mem, units: Units)
    requires MemOk(m, units) && m.Keys <= m'.Keys
    ensures MemOk(m', units)
  {
    forall u, a | u in units && units[u].start <= a < units[u].end && a % 4 == 0 ensures a in m' {
      WordMapped(m, units, u, a);
    }
  }

  // ----- taking a free slot off its list

  function Bump(s: seq<nat>, b: nat): seq<nat>
    requires b < |s|
  {
    s[b := s[b] + 1]
  }

  /** The counters after an entry of the given size has left bucket b. */
  function Unlisted(st: Stats, b: nat, size: nat, coalesce: bool): Stats
    requires b < |st.charge| == |st.reused| == |st.coalesced|
  {
    var st1 := st.(charge := st.charge[b := st.charge[b] - size]);
    if coalesce then st1.(coalesced := Bump(st.coalesced, b)) else st1.(reused := Bump(st.reused, b))
  }

  lemma UnlistedIs(st: Stats, b: nat, size: nat, coalesce: bool)
    requires b < |st.charge| == |st.reused| == |st.coalesced|
    ensures var r := Unlisted(st, b, size, coalesce);
      && r.freed == st.freed && r.charge == st.charge[b := st.charge[b] - size]
      && r.coalesced == (if coalesce then st.coalesced[b := st.coalesced[b] + 1] else st.coalesced)
      && r.reused == if coalesce then st.reused else st.reused[b := st.reused[b] + 1]
  {
  }

  ghost function Detached(c: Core, b: nat, k: nat, coalesce: bool): Core
    requires b < BUCKETS == |c.lists| == |c.heads| && k < |c.lists[b]| && c.lists[b][k] in c.slots
    requires |c.stats.reused| == |c.stats.coalesced| == |c.stats.charge| == BUCKETS
    requires PrevRef(c.lists[b], k).EntryRef? ==> IsPtr(c.mem, PrevRef(c.lists[b], k).pc)
    requires NextRef(c.lists[b], k).EntryRef? ==> IsPtr(c.mem, NextRef(c.lists[b], k).pc + PREV_AT)
  {
    var l := c.lists[b];
    c.(mem := UnlinkMem(c.mem, PrevRef(l, k), NextRef(l, k)),
       heads := if k > 0 then c.heads else c.heads[b := NextRef(l, k)],
       stats := Unlisted(c.stats, b, c.slots[l[k]].size, coalesce),
       slots := SetKind(c.slots, l[k], Hole),
       lists := c.lists[b := Without(l, k)])
  }

  lemma DetachCounted(slots: Slots, lists: Lists, st: Stats, b: nat, k: nat, st': Stats)
    requires Listed(slots, lists) && Counted(slots, lists, st) && b < BUCKETS && k < |lists[b]|
    requires InBucket(slots, lists[b][k], b)
    requires st'.freed == st.freed && st'.charge == st.charge[b := st.charge[b] - slots[lists[b][k]].size]
    requires (st'.reused == st.reused && st'.coalesced == Bump(st.coalesced, b))
          || (st'.reused == Bump(st.reused, b) && st'.coalesced == st.coalesced)
    ensures Counted(SetKind(slots, lists[b][k], Hole), lists[b := Without(lists[b], k)], st')
  {
    var p, s', lists' := lists[b][k], SetKind(slots, lists[b][k], Hole), lists[b := Without(lists[b], k)];
    BytesWithout(slots, lists[b], k);
    forall c | 0 <= c < BUCKETS ensures Bytes(s', lists'[c]) == Bytes(slots, lists'[c]) {
      forall i | 0 <= i < |lists'[c]| ensures lists'[c][i] in slots {
        assert InBucket(slots, lists[c][if c == b && i >= k then i + 1 else i], c);
      }
      BytesFrame(slots, s', lists'[c]);
    }
  }

  lemma ListedAt(slots: Slots, lists: Lists, b: nat, k: nat)
    requires Listed(slots, lists) && b < BUCKETS && k < |lists[b]|
    ensures InBucket(slots, lists[b][k], b)
  {
  }

  lemma LinkedAt(m: Mem, heads: seq<Ref>, lists: Lists, b: nat, k: nat)
    requires Linked(m, heads, lists) && b < BUCKETS && k < |lists[b]|
    ensures PtrAt(m, lists[b][k], NextRef(lists[b], k))
    ensures PtrAt(m, lists[b][k] + PREV_AT, PrevRef(lists[b], k))
    ensures PrevRef(lists[b], k).EntryRef? ==> IsPtr(m, PrevRef(lists[b], k).pc)
    ensures NextRef(lists[b], k).EntryRef? ==> IsPtr(m, NextRef(lists[b], k).pc + PREV_AT)
  {
    var l := lists[b];
    assert ListOk(m, heads[b], l);
    hide Linked;
    assert NodeOk(m, l, k);
    if k > 0 { assert NodeOk(m, l, k - 1); }
    if k + 1 < |l| { assert NodeOk(m, l, k + 1); }
  }

  lemma HeaderAt(m: Mem, slots: Slots, p: Pc)
    requires HeadersOk(m, slots) && p in slots
    ensures HeaderOk(m, p, slots[p])
  {
  }

  lemma EntryLinks(c: Core, b: nat, k: nat)
    requires Inv(c) && b < BUCKETS && |c.lists| == BUCKETS && k < |c.lists[b]|
    ensures InBucket(c.slots, c.lists[b][k], b)
    ensures PtrAt(c.mem, c.lists[b][k], NextRef(c.lists[b], k))
    ensures PtrAt(c.mem, c.lists[b][k] + PREV_AT, PrevRef(c.lists[b], k))
    ensures EntryAt(c.mem, c.lists[b][k], c.slots[c.lists[b][k]].size)
    ensures PrevRef(c.lists[b], k).EntryRef? ==> IsPtr(c.mem, PrevRef(c.lists[b], k).pc)
    ensures NextRef(c.lists[b], k).EntryRef? ==> IsPtr(c.mem, NextRef(c.lists[b], k).pc + PREV_AT)
  {
    hide Geometry, Listed, Linked, HeadersOk, Counted, Normal, FragsOk, PtrAt, IsPtr, EntryAt, NextRef, PrevRef;
    ListedAt(c.slots, c.lists, b, k);
    HeaderAt(c.mem, c.slots, c.lists[b][k]);
    LinkedAt(c.mem, c.heads, c.lists, b, k);
  }

  lemma UnlinkKeys(m: Mem, prev: Ref, next: Ref)
    requires prev.EntryRef? ==> IsPtr(m, prev.pc)
    requires next.EntryRef? ==> IsPtr(m, next.pc + PREV_AT)
    ensures UnlinkMem(m, prev, next).Keys == m.Keys
  {
  }

  /** Changing what occupies a slot, and memory inside what is mapped, keeps the geometry. */
  lemma RekindGeometry(c: Core, c': Core, p: Pc, k: Kind)
    requires Geometry(c) && p in c.slots && (k.Live? || k.Free? ==> c.slots[p].size >= MIN_SLOT)
    requires c'.slots == SetKind(c.slots, p, k) && c.mem.Keys <= c'.mem.Keys
    requires c'.align == c.align && c'.units == c.units && c'.tops == c.tops
    ensures Geometry(c')
  {
    hide Tiled, UnitsOk, MemOk, UnitsAligned, Aligned;
    TiledSetKind(c.units, c.tops, c.slots, p, k) by { UnitsKeys(c.units, c.tops); }
    MemOkGrow(c.mem, c'.mem, c.units);
    UnitsKeys(c.units, c.tops);
  }

  lemma UnitsKeys(units: Units, tops: Tops)
    requires UnitsOk(units, tops)
    ensures tops.Keys == units.Keys
  {
  }

  lemma FragsDrop(slots: Slots, frags: Frags, p: Pc, k: Kind)
    requires FragsOk(slots, frags) && p in slots && !k.Live?
    ensures FragsOk(SetKind(slots, p, k), frags)
  {
  }

  /** A slot that stops being live or free needs no header. */
  lemma HeadersDrop(m: Mem, slots: Slots, p: Pc, k: Kind)
    requires HeadersOk(m, slots) && p in slots && (k.Hole? || k.Lost?)
    ensures HeadersOk(m, SetKind(slots, p, k))
  {
    var s' := SetKind(slots, p, k);
    forall x | x in s' ensures HeaderOk(m, x, s'[x]) {
      assert HeaderOk(m, x, slots[x]);
    }
  }

  lemma DetachHeadersAt(m: Mem, slots: Slots, lists: Lists, b: nat, k: nat)
    requires Apart(slots) && Sized(slots) && HeadersOk(m, slots) && Listed(slots, lists)
    requires b < BUCKETS == |lists| && k < |lists[b]| && lists[b][k] in slots
    requires PrevRef(lists[b], k).EntryRef? ==> IsPtr(m, PrevRef(lists[b], k).pc)
    requires NextRef(lists[b], k).EntryRef? ==> IsPtr(m, NextRef(lists[b], k).pc + PREV_AT)
    ensures HeadersOk(UnlinkMem(m, PrevRef(lists[b], k), NextRef(lists[b], k)), SetKind(slots, lists[b][k], Hole))
  {
    hide Apart, Sized, HeadersOk, Listed, UnlinkMem, SetKind;
    var l := lists[b];
    if k > 0 { ListedAt(slots, lists, b, k - 1); }
    if k + 1 < |l| { ListedAt(slots, lists, b, k + 1); }
    DetachHeaders(m, slots, PrevRef(l, k), NextRef(l, k));
    HeadersDrop(UnlinkMem(m, PrevRef(l, k), NextRef(l, k)), slots, l[k], Hole);
  }

  lemma TiledApart(c: Core)
    requires Geometry(c)
    ensures Apart(c.slots) && Sized(c.slots) && c.tops.Keys == c.units.Keys
    ensures Housed(c.units, c.tops, c.slots) && Chained(c.tops, c.slots)
  {
    hide Apart, Sized, Housed, Chained, Rooted, Aligned, SlotsAligned, UnitsAligned, MemOk;
  }

  lemma DetachInv(c: Core, b: nat, k: nat, coalesce: bool)
    requires Inv(c) && b < BUCKETS && |c.lists| == BUCKETS && k < |c.lists[b]|
    ensures InBucket(c.slots, c.lists[b][k], b)
    ensures PrevRef(c.lists[b], k).EntryRef? ==> IsPtr(c.mem, PrevRef(c.lists[b], k).pc)
    ensures NextRef(c.lists[b], k).EntryRef? ==> IsPtr(c.mem, NextRef(c.lists[b], k).pc + PREV_AT)
    ensures |c.heads| == |c.stats.reused| == |c.stats.coalesced| == |c.stats.charge| == BUCKETS
    ensures Inv(Detached(c, b, k, coalesce))
  {
    hide Geometry, Linked, Listed, Counted, Normal, FragsOk, HeadersOk, Apart, Sized;
    CountedSizes(c);
    hide UnlinkMem, Without, NextRef, PrevRef, SetKind, PtrAt, IsPtr, EntryAt, Chained, Housed, UnitsOk, Tiled;
    EntryLinks(c, b, k);
    TiledApart(c);
    var p, prev, next := c.lists[b][k], PrevRef(c.lists[b], k), NextRef(c.lists[b], k);
    UnlinkKeys(c.mem, prev, next);
    RekindGeometry(c, Detached(c, b, k, coalesce), p, Hole);
    DetachLinked(c.mem, c.heads, c.lists, c.slots, b, k);
    DetachListed(c.slots, c.lists, b, k);
    DetachCounted(c.slots, c.lists, c.stats, b, k, Detached(c, b, k, coalesce).stats);
    NormalToHole(c.tops, c.slots, c.frags, c.head, p);
    DetachHeadersAt(c.mem, c.slots, c.lists, b, k);
    FragsDrop(c.slots, c.frags, p, Hole);
  }

  lemma CountedSizes(c: Core)
    requires Inv(c)
    ensures |c.lists| == |c.heads| == BUCKETS
    ensures |c.stats.freed| == |c.stats.reused| == |c.stats.coalesced| == |c.stats.charge| == BUCKETS
  {
    hide Geometry, Normal, FragsOk, HeadersOk;
  }

  // ----- frames for changes that leave live and free slots alone

  /** Apart from holes, the slots are the same. */
  ghost predicate SameOwned(s: Slots, s': Slots) {
    forall x :: (x in s && Owned(s[x].kind)) || (x in s' && Owned(s'[x].kind)) ==> x in s && x in s' && s[x] == s'[x]
  }

  predicate Owned(k: Kind) { !k.Hole? }

  /** The slot starts with a pointer that tells what it is. */
  predicate Headed(k: Kind) { k.Live? || k.Free? }

  lemma OwnedFrame(m: Mem, s: Slots, s': Slots, frags: Frags, lists: Lists, st: Stats)
    requires SameOwned(s, s')
    requires Sized(s) && FragsOk(s, frags) && HeadersOk(m, s) && Listed(s, lists) && Counted(s, lists, st)
    ensures Sized(s') && FragsOk(s', frags) && HeadersOk(m, s') && Listed(s', lists) && Counted(s', lists, st)
  {
    hide FragsOk, Sized, HeadersOk, Listed, Counted;
    SizedFrame(s, s');
    FragsFrame(s, s', frags);
    HeadersFrame(m, s, s');
    assert SameFree(s, s');
    ListedFrame(s, s', lists);
    CountedFrame(s, s', lists, st);
  }

  lemma SizedFrame(s: Slots, s': Slots)
    requires SameOwned(s, s') && Sized(s)
    ensures Sized(s')
  {
  }

  lemma FragsFrame(s: Slots, s': Slots, frags: Frags)
    requires SameOwned(s, s') && FragsOk(s, frags)
    ensures FragsOk(s', frags)
  {
  }

  lemma HeadersFrame(m: Mem, s: Slots, s': Slots)
    requires SameOwned(s, s') && HeadersOk(m, s)
    ensures HeadersOk(m, s')
  {
    forall x | x in s' ensures HeaderOk(m, x, s'[x]) {
      if Owned(s'[x].kind) { assert HeaderOk(m, x, s[x]); }
    }
  }

  /** Tiling looks at unit starts and tops only. */
  lemma TiledUnits(units: Units, units': Units, tops: Tops, slots: Slots)
    requires tops.Keys == units.Keys == units'.Keys && Tiled(units, tops, slots)
    requires forall u :: u in units ==> units'[u].start == units[u].start
    ensures Tiled(units', tops, slots)
  {
    assert Housed(units', tops, slots);
    forall u | u in units' && First(units', u) < tops[u] ensures First(units', u) in slots {
      assert First(units', u) == First(units, u);
    }
  }

  // ----- joining two adjacent holes

  ghost function Fused(c: Core, p: Pc): Core
    requires p in c.slots && End(c.slots, p) in c.slots
  {
    c.(slots := MergeNext(c.slots, p))
  }

  lemma MergeAligned(align: nat, slots: Slots, p: Pc)
    requires IsAlign(align) && SlotsAligned(align, slots) && p in slots && End(slots, p) in slots
    ensures SlotsAligned(align, MergeNext(slots, p))
  {
    hide Aligned;
    AlignedSum(slots[p].size, slots[End(slots, p)].size, align);
  }

  lemma MergeSameOwned(slots: Slots, p: Pc)
    requires p in slots && End(slots, p) in slots
    requires slots[p].kind.Hole? && slots[End(slots, p)].kind.Hole?
    ensures SameOwned(slots, MergeNext(slots, p))
  {
  }

  lemma SlotFacts(c: Core, p: Pc)
    requires Geometry(c) && p in c.slots
    ensures c.tops.Keys == c.units.Keys && c.slots[p].unit in c.units
    ensures 0 < c.slots[p].size && End(c.slots, p) <= c.tops[c.slots[p].unit] <= c.units[c.slots[p].unit].end
    ensures c.units[c.slots[p].unit].start <= p
    ensures c.units[c.slots[p].unit].end <= c.units[c.slots[p].unit].reserved <=
      c.units[c.slots[p].unit].start + UINT_MAX
    ensures End(c.slots, p) != c.tops[c.slots[p].unit] ==>
      End(c.slots, p) in c.slots && c.slots[End(c.slots, p)].unit == c.slots[p].unit
  {
    hide Apart, Rooted, SlotsAligned, UnitsAligned, MemOk, Sized;
    if End(c.slots, p) != c.tops[c.slots[p].unit] { NextInUnit(c.units, c.tops, c.slots, p); }
  }

  lemma FuseInv(c: Core, p: Pc)
    requires Inv(c) && p in c.slots && c.slots[p].kind.Hole?
    requires End(c.slots, p) in c.slots && c.slots[End(c.slots, p)].kind.Hole?
    requires c.slots[End(c.slots, p)].unit == c.slots[p].unit
    ensures Inv(Fused(c, p))
  {
    hide Linked, Listed, Counted, Normal, FragsOk, HeadersOk, Apart, Sized, Housed, Chained, Rooted, UnitsOk;
    hide SlotsAligned, UnitsAligned, MemOk, MergeNext, SameOwned;
    SlotFacts(c, p);
    SlotFacts(c, End(c.slots, p));
    MergeSameOwned(c.slots, p);
    OwnedFrame(c.mem, c.slots, MergeNext(c.slots, p), c.frags, c.lists, c.stats);
    TiledMerge(c.units, c.tops, c.slots, p);
    MergeAligned(c.align, c.slots, p);
    NormalMerge(c.tops, c.slots, c.frags, c.head, p);
  }

  // ----- a hole becomes a free slot at the front of its list

  ghost function Attached(c: Core, p: Pc): Core
    requires p in c.slots && c.slots[p].size >= MIN_SLOT && Mapped(c.mem, p, c.slots[p].size)
    requires |c.lists| == |c.heads| == |c.stats.freed| == |c.stats.charge| == BUCKETS
    requires var h := c.heads[Bucket(c.slots[p].size)]; h.EntryRef? ==> IsPtr(c.mem, h.pc + PREV_AT)
  {
    var size := c.slots[p].size;
    var b := Bucket(size);
    c.(mem := LinkMem(c.mem, p, size, c.heads[b]),
       heads := c.heads[b := EntryRef(p)],
       stats := c.stats.(freed := Bump(c.stats.freed, b), charge := c.stats.charge[b := c.stats.charge[b] + size]),
       slots := SetKind(c.slots, p, Free),
       lists := c.lists[b := [p] + c.lists[b]])
  }

  lemma AttachCounted(slots: Slots, lists: Lists, st: Stats, p: Pc)
    requires Listed(slots, lists) && Counted(slots, lists, st) && p in slots
    ensures var b, size := Bucket(slots[p].size), slots[p].size;
      Counted(SetKind(slots, p, Free), lists[b := [p] + lists[b]],
              st.(freed := Bump(st.freed, b), charge := st.charge[b := st.charge[b] + size]))
  {
    var b, s' := Bucket(slots[p].size), SetKind(slots, p, Free);
    forall c | 0 <= c < BUCKETS ensures Bytes(s', lists[c]) == Bytes(slots, lists[c]) {
      forall i | 0 <= i < |lists[c]| ensures lists[c][i] in slots {
        assert InBucket(slots, lists[c][i], c);
      }
      BytesFrame(slots, s', lists[c]);
    }
    assert ([p] + lists[b])[1..] == lists[b];
  }

  lemma LinkKeys(m: Mem, p: Pc, size: nat, head: Ref)
    requires size >= MIN_SLOT && Mapped(m, p, size)
    requires head.EntryRef? ==> IsPtr(m, head.pc + PREV_AT)
    ensures LinkMem(m, p, size, head).Keys == m.Keys
  {
    assert StoreEntry(m, p, size, head).Keys == m.Keys;
  }

  lemma HeadEntry(c: Core, b: nat)
    requires Inv(c) && b < BUCKETS && |c.heads| == |c.lists| == BUCKETS && c.heads[b].EntryRef?
    ensures IsPtr(c.mem, c.heads[b].pc + PREV_AT)
    ensures c.heads[b].pc in c.slots && c.slots[c.heads[b].pc].kind.Free?
    ensures |c.lists[b]| > 0 && c.heads[b].pc == c.lists[b][0]
  {
    hide Geometry, Normal, FragsOk, HeadersOk, Counted, Listed;
    assert ListOk(c.mem, c.heads[b], c.lists[b]);
    ListedAt(c.slots, c.lists, b, 0);
    assert NodeOk(c.mem, c.lists[b], 0);
  }

  lemma AttachInv(c: Core, p: Pc)
    requires Inv(c) && p in c.slots && c.slots[p].kind.Hole? && c.slots[p].size >= MIN_SLOT
    requires NoFreeBefore(c.slots, p) && c.slots[p].unit in c.tops
    requires End(c.slots, p) == c.tops[c.slots[p].unit] ==> c.slots[p].unit != c.head
    requires End(c.slots, p) != c.tops[c.slots[p].unit] ==>
      && End(c.slots, p) in c.slots && c.slots[End(c.slots, p)].unit == c.slots[p].unit
      && c.slots[End(c.slots, p)].kind.Live? && Marked(c.frags, c.slots[End(c.slots, p)].kind.f)
    ensures Mapped(c.mem, p, c.slots[p].size)
    ensures |c.lists| == |c.heads| == |c.stats.freed| == |c.stats.charge| == BUCKETS
    ensures var h := c.heads[Bucket(c.slots[p].size)]; h.EntryRef? ==> IsPtr(c.mem, h.pc + PREV_AT)
    ensures Inv(Attached(c, p))
  {
    hide Geometry, Linked, Listed, Counted, Normal, FragsOk, HeadersOk, Apart, Sized, Chained, Housed;
    hide Mapped, LinkMem, SetKind, IsPtr, NoFreeBefore, Bytes;
    CountedSizes(c);
    TiledApart(c);
    WordsMapped(c, p);
    var b := Bucket(c.slots[p].size);
    if c.heads[b].EntryRef? { HeadEntry(c, b); }
    LinkKeys(c.mem, p, c.slots[p].size, c.heads[b]);
    RekindGeometry(c, Attached(c, p), p, Free);
    AttachLinked(c.mem, c.heads, c.lists, c.slots, p);
    AttachListed(c.slots, c.lists, p);
    AttachCounted(c.slots, c.lists, c.stats, p);
    AttachHeaders(c.mem, c.slots, p, c.heads[b]);
    NormalAttach(c.tops, c.slots, c.frags, c.head, p);
    FragsDrop(c.slots, c.frags, p, Free);
  }

  // ----- marking and unmarking the fragment in the slot at p

  ghost function WithMark(c: Core, f: FragId, on: bool): Core
    requires f in c.frags
  {
    c.(frags := Mark(c.frags, f, on))
  }

  lemma GeometryFrame(c: Core, c': Core)
    requires Geometry(c) && c'.align == c.align && c'.units == c.units && c'.tops == c.tops && c'.slots == c.slots
    requires c.mem.Keys <= c'.mem.Keys
    ensures Geometry(c')
  {
    hide Tiled, UnitsOk, MemOk, UnitsAligned, SlotsAligned, Sized;
    UnitsKeys(c.units, c.tops);
    MemOkGrow(c.mem, c'.mem, c.units);
  }

  lemma MarkInv(c: Core, p: Pc, on: bool)
    requires Inv(c) && p in c.slots && c.slots[p].kind.Live?
    requires if on then PrevLoose(c.slots, p) else NoFreeBefore(c.slots, p)
    ensures c.slots[p].kind.f in c.frags && Inv(WithMark(c, c.slots[p].kind.f, on))
  {
    hide Geometry, Linked, Listed, Counted, Normal, HeadersOk, PrevLoose, NoFreeBefore, FragsOk;
    var f := c.slots[p].kind.f;
    FragAt(c, p);
    GeometryFrame(c, WithMark(c, f, on));
    FragsOkMark(c.slots, c.frags, f, on);
    if on {
      NormalMark(c.tops, c.slots, c.frags, c.head, p);
    } else {
      NormalUnmark(c.tops, c.slots, c.frags, c.head, p);
    }
  }

  lemma FragAt(c: Core, p: Pc)
    requires Inv(c) && p in c.slots && c.slots[p].kind.Live?
    ensures c.slots[p].kind.f in c.frags
    ensures HdrStart(c.frags[c.slots[p].kind.f]) == p && FragSize(c.frags[c.slots[p].kind.f]) == c.slots[p].size
    ensures !c.frags[c.slots[p].kind.f].flags.freeList && PTR <= c.frags[c.slots[p].kind.f].extra <= 255
    ensures PtrAt(c.mem, p, FragRef(c.slots[p].kind.f)) && c.slots[p].size >= MIN_SLOT
  {
    hide Tiled, UnitsOk, MemOk, SlotsAligned, UnitsAligned, Linked, Listed, Counted, Normal, HeadersOk, StartPadding;
    hide HdrStart, FragSize;
    HeaderAt(c.mem, c.slots, p);
  }

  // ----- a slot loses its fragment

  ghost function Vacated(c: Core, p: Pc): Core
    requires p in c.slots
  {
    c.(slots := SetKind(c.slots, p, Hole))
  }

  lemma VacateInv(c: Core, p: Pc)
    requires Inv(c) && p in c.slots && !c.slots[p].kind.Free?
    ensures Inv(Vacated(c, p))
  {
    hide Geometry, Linked, Listed, Counted, Normal, HeadersOk, FragsOk, SameFree;
    RekindGeometry(c, Vacated(c, p), p, Hole);
    NormalToHole(c.tops, c.slots, c.frags, c.head, p);
    FragsDrop(c.slots, c.frags, p, Hole);
    HeadersDrop(c.mem, c.slots, p, Hole);
    UnfreeFrame(c.slots, p, Hole);
    ListedFrame(c.slots, SetKind(c.slots, p, Hole), c.lists);
    CountedFrame(c.slots, SetKind(c.slots, p, Hole), c.lists, c.stats);
  }

  lemma UnfreeFrame(slots: Slots, p: Pc, k: Kind)
    requires p in slots && !slots[p].kind.Free? && !k.Free?
    ensures SameFree(slots, SetKind(slots, p, k))
  {
  }

  // ----- the top of a unit moves down over its last hole, or up over a new one

  ghost function Chopped(c: Core, p: Pc): Core
    requires p in c.slots
  {
    c.(slots := c.slots - {p}, tops := c.tops[c.slots[p].unit := p])
  }

  lemma ChopInv(c: Core, p: Pc)
    requires Inv(c) && p in c.slots && c.slots[p].kind.Hole? && NoFreeBefore(c.slots, p)
    requires c.slots[p].unit in c.tops && End(c.slots, p) == c.tops[c.slots[p].unit]
    ensures Inv(Chopped(c, p))
  {
    hide Linked, Listed, Counted, Normal, FragsOk, HeadersOk, Tiled, Sized, UnitsOk;
    hide SlotsAligned, UnitsAligned, MemOk, SameOwned, NoFreeBefore;
    SlotFacts(c, p);
    RemoveHole(c.slots, p);
    OwnedFrame(c.mem, c.slots, c.slots - {p}, c.frags, c.lists, c.stats);
    TiledChop(c.units, c.tops, c.slots, p);
    NormalChop(c.units, c.tops, c.slots, c.frags, c.head, p);
    TopsOk(c.units, c.tops, c.slots[p].unit, p);
    ChopAligned(c.align, c.units, c.tops, c.slots, p);
  }

  lemma RemoveHole(slots: Slots, p: Pc)
    requires p in slots && slots[p].kind.Hole?
    ensures SameOwned(slots, slots - {p})
  {
  }

  lemma TopsOk(units: Units, tops: Tops, u: UnitId, t: Pc)
    requires UnitsOk(units, tops) && u in units && units[u].start <= t <= units[u].end
    ensures UnitsOk(units, tops[u := t])
  {
  }

  lemma ChopAligned(align: nat, units: Units, tops: Tops, slots: Slots, p: Pc)
    requires IsAlign(align) && tops.Keys == units.Keys && SlotsAligned(align, slots) && UnitsAligned(align, units, tops)
    requires p in slots && slots[p].unit in units
    ensures SlotsAligned(align, slots - {p}) && UnitsAligned(align, units, tops[slots[p].unit := p])
  {
    hide Aligned;
  }

  ghost function Appended(c: Core, u: UnitId, n: nat): Core
    requires u in c.tops
  {
    c.(slots := c.slots[c.tops[u] := Slot(n, u, Hole)], tops := c.tops[u := c.tops[u] + n])
  }

  lemma AppendInv(c: Core, u: UnitId, n: nat)
    requires Inv(c) && u in c.units && c.tops.Keys == c.units.Keys && 0 < n && c.tops[u] + n <= c.units[u].end
    requires Aligned(n, c.align)
    ensures c.tops[u] !in c.slots && Inv(Appended(c, u, n))
  {
    hide Linked, Listed, Counted, Normal, FragsOk, HeadersOk, Tiled, Sized, UnitsOk, Housed;
    hide SlotsAligned, UnitsAligned, MemOk, SameOwned, Aligned;
    TiledApart(c);
    TiledAppend(c.units, c.tops, c.slots, u, n, Hole);
    AddHole(c.slots, c.tops[u], n, u);
    OwnedFrame(c.mem, c.slots, Appended(c, u, n).slots, c.frags, c.lists, c.stats);
    UnitFacts(c, u);
    TopsOk(c.units, c.tops, u, c.tops[u] + n);
    AppendAligned(c.align, c.units, c.tops, c.slots, u, n);
    AppendNormal(c, u, n);
  }

  lemma AppendNormal(c: Core, u: UnitId, n: nat)
    requires Normal(c.tops, c.slots, c.frags, c.head) && c.tops.Keys == c.units.Keys
    requires Housed(c.units, c.tops, c.slots) && u in c.units && c.tops[u] !in c.slots && 0 < n
    ensures Normal(c.tops[u := c.tops[u] + n], c.slots[c.tops[u] := Slot(n, u, Hole)], c.frags, c.head)
  {
    hide Normal;
    NormalAppend(c.tops, c.slots, c.frags, c.head, u, n);
  }

  lemma UnitFacts(c: Core, u: UnitId)
    requires Geometry(c) && u in c.units && c.tops.Keys == c.units.Keys
    ensures c.units[u].start <= c.tops[u] <= c.units[u].end <= c.units[u].reserved <= c.units[u].start + UINT_MAX
    ensures c.units[u].start <= c.units[u].cur <= c.units[u].end
    ensures Aligned(c.tops[u], c.align) && Aligned(c.units[u].start, c.align) && Aligned(c.units[u].end, c.align)
  {
    hide Tiled, Aligned, SlotsAligned, MemOk, Sized;
  }

  lemma AddHole(slots: Slots, p: Pc, n: nat, u: UnitId)
    requires p !in slots
    ensures SameOwned(slots, slots[p := Slot(n, u, Hole)])
  {
  }

  lemma AppendAligned(align: nat, units: Units, tops: Tops, slots: Slots, u: UnitId, n: nat)
    requires IsAlign(align) && tops.Keys == units.Keys && SlotsAligned(align, slots) && UnitsAligned(align, units, tops)
    requires u in units && Aligned(n, align)
    ensures SlotsAligned(align, slots[tops[u] := Slot(n, u, Hole)])
    ensures UnitsAligned(align, units, tops[u := tops[u] + n])
  {
    hide Aligned;
    AlignedSum(tops[u], n, align);
  }

  // ----- a hole is divided, or given up

  ghost function Divided(c: Core, p: Pc, n: nat): Core
    requires p in c.slots && 0 < n < c.slots[p].size
  {
    c.(slots := Cut(c.slots, p, n))
  }

  lemma CutAligned(align: nat, slots: Slots, p: Pc, n: nat)
    requires IsAlign(align) && SlotsAligned(align, slots) && p in slots && 0 < n < slots[p].size && Aligned(n, align)
    ensures SlotsAligned(align, Cut(slots, p, n))
  {
    hide Aligned;
    AlignedSum(p, n, align);
    AlignedSum(slots[p].size, n, align);
  }

  lemma CutSameOwned(slots: Slots, p: Pc, n: nat)
    requires p in slots && 0 < n < slots[p].size && slots[p].kind.Hole? && p + n !in slots
    ensures SameOwned(slots, Cut(slots, p, n))
  {
  }

  lemma DivideInv(c: Core, p: Pc, n: nat)
    requires Inv(c) && p in c.slots && c.slots[p].kind.Hole? && 0 < n < c.slots[p].size && Aligned(n, c.align)
    ensures p + n !in c.slots && Inv(Divided(c, p, n))
  {
    hide Linked, Listed, Counted, Normal, FragsOk, HeadersOk, Tiled, Sized, UnitsOk, Apart;
    hide SlotsAligned, UnitsAligned, MemOk, SameOwned, Aligned, Cut;
    TiledApart(c);
    TiledCut(c.units, c.tops, c.slots, p, n);
    CutSameOwned(c.slots, p, n);
    OwnedFrame(c.mem, c.slots, Cut(c.slots, p, n), c.frags, c.lists, c.stats);
    CutAligned(c.align, c.slots, p, n);
    NormalCut(c.tops, c.slots, c.frags, c.head, p, n);
  }

  ghost function GivenUp(c: Core, p: Pc): Core
    requires p in c.slots
  {
    c.(slots := SetKind(c.slots, p, Lost))
  }

  lemma GiveUpInv(c: Core, p: Pc)
    requires Inv(c) && p in c.slots && c.slots[p].kind.Hole? && NoFreeBefore(c.slots, p)
    ensures Inv(GivenUp(c, p))
  {
    hide Geometry, Linked, Listed, Counted, Normal, HeadersOk, FragsOk, SameFree, NoFreeBefore;
    RekindGeometry(c, GivenUp(c, p), p, Lost);
    NormalLose(c.tops, c.slots, c.frags, c.head, p);
    FragsDrop(c.slots, c.frags, p, Lost);
    HeadersDrop(c.mem, c.slots, p, Lost);
    UnfreeFrame(c.slots, p, Lost);
    ListedFrame(c.slots, SetKind(c.slots, p, Lost), c.lists);
    CountedFrame(c.slots, SetKind(c.slots, p, Lost), c.lists, c.stats);
  }

  // ----- a fragment moves into a hole, or gives back the end of its slot

  /** The fragment is in no slot. */
  ghost predicate Homeless(slots: Slots, f: FragId) {
    forall p :: p in slots && slots[p].kind.Live? ==> slots[p].kind.f != f
  }

  ghost predicate Fits(frag: Fragment, p: Pc, size: nat) {
    HdrStart(frag) == p && FragSize(frag) == size && !frag.flags.freeList && PTR <= frag.extra <= 255
  }

  ghost function Occupied(c: Core, p: Pc, f: FragId, frag: Fragment): Core
    requires p in c.slots && p in c.mem && p + 4 in c.mem
  {
    c.(mem := StorePtr(c.mem, p, FragRef(f)), frags := c.frags[f := frag], slots := SetKind(c.slots, p, Live(f)))
  }

  lemma OccupyHeaders(m: Mem, slots: Slots, p: Pc, f: FragId)
    requires HeadersOk(m, slots) && Apart(slots) && Sized(slots)
    requires p in slots && slots[p].kind.Hole? && slots[p].size >= MIN_SLOT && p in m && p + 4 in m
    ensures HeadersOk(StorePtr(m, p, FragRef(f)), SetKind(slots, p, Live(f)))
  {
    var m', s' := StorePtr(m, p, FragRef(f)), SetKind(slots, p, Live(f));
    forall z | z in s' ensures HeaderOk(m', z, s'[z]) {
      assert HeaderOk(m, z, slots[z]);
      if z != p && Headed(slots[z].kind) {
        assert z + slots[z].size <= p || p + slots[p].size <= z;
        HeaderUntouched(m, p, FragRef(f), z, slots[z]);
      }
    }
  }

  lemma HeaderUntouched(m: Mem, p: Pc, r: Ref, z: Pc, s: Slot)
    requires HeaderOk(m, z, s) && s.size >= MIN_SLOT && p in m && p + 4 in m
    requires z + s.size <= p || p + MIN_SLOT <= z
    ensures HeaderOk(StorePtr(m, p, r), z, s)
  {
  }

  /** A store into a slot that is on no list leaves every list threaded. */
  lemma OccupyLinked(m: Mem, heads: seq<Ref>, lists: Lists, slots: Slots, p: Pc, r: Ref)
    requires Linked(m, heads, lists) && Listed(slots, lists) && Apart(slots)
    requires p in slots && !slots[p].kind.Free? && slots[p].size >= MIN_SLOT && p in m && p + 4 in m
    ensures Linked(StorePtr(m, p, r), heads, lists)
  {
    forall b, i | 0 <= b < BUCKETS && 0 <= i < |lists[b]| ensures NodeOk(StorePtr(m, p, r), lists[b], i) {
      ListedAt(slots, lists, b, i);
      assert ListOk(m, heads[b], lists[b]);
      assert NodeOk(m, lists[b], i);
      NodeUntouched(m, p, r, lists[b], i);
    }
    assert forall b :: 0 <= b < BUCKETS ==> ListOk(m, heads[b], lists[b]);
  }

  lemma NodeUntouched(m: Mem, p: Pc, r: Ref, l: seq<Pc>, i: nat)
    requires i < |l| && NodeOk(m, l, i) && Spaced(l[i], p) && p in m && p + 4 in m
    ensures NodeOk(StorePtr(m, p, r), l, i)
  {
  }

  lemma OccupyFrags(slots: Slots, frags: Frags, p: Pc, f: FragId, frag: Fragment)
    requires FragsOk(slots, frags) && Homeless(slots, f) && p in slots && Fits(frag, p, slots[p].size)
    ensures FragsOk(SetKind(slots, p, Live(f)), frags[f := frag])
  {
    hide StartPadding, HdrStart, FragSize;
  }

  lemma StoreKeys(m: Mem, p: Pc, r: Ref)
    requires p in m && p + 4 in m
    ensures StorePtr(m, p, r).Keys == m.Keys
  {
  }

  /** A fragment right after the slot at p is not marked. */
  ghost predicate NextUnmarked(slots: Slots, frags: Frags, p: Pc)
    requires p in slots
  {
    var q := End(slots, p);
    q in slots && slots[q].unit == slots[p].unit && slots[q].kind.Live? ==> !Marked(frags, slots[q].kind.f)
  }

  lemma OccupyInv(c: Core, p: Pc, f: FragId, frag: Fragment)
    requires Inv(c) && p in c.slots && c.slots[p].kind.Hole? && c.slots[p].size >= MIN_SLOT
    requires Homeless(c.slots, f) && Fits(frag, p, c.slots[p].size) && !frag.flags.followsFree
    requires NoFreeBefore(c.slots, p)
    requires NextUnmarked(c.slots, c.frags, p)
    ensures p in c.mem && p + 4 in c.mem && Inv(Occupied(c, p, f, frag))
  {
    hide Geometry, Linked, Listed, Counted, Normal, FragsOk, HeadersOk, Apart, Sized, Chained, Housed;
    hide StorePtr, NoFreeBefore, Homeless, Fits, SameFree, SetKind;
    TiledApart(c);
    WordsMapped(c, p);
    StoreKeys(c.mem, p, FragRef(f));
    RekindGeometry(c, Occupied(c, p, f, frag), p, Live(f));
    OccupyHeaders(c.mem, c.slots, p, f);
    OccupyLinked(c.mem, c.heads, c.lists, c.slots, p, FragRef(f));
    OccupyFrags(c.slots, c.frags, p, f, frag);
    UnfreeFrame(c.slots, p, Live(f));
    ListedFrame(c.slots, SetKind(c.slots, p, Live(f)), c.lists);
    CountedFrame(c.slots, SetKind(c.slots, p, Live(f)), c.lists, c.stats);
    OccupyNormal(c, p, f, frag);
  }

  lemma OccupyNormal(c: Core, p: Pc, f: FragId, frag: Fragment)
    requires Normal(c.tops, c.slots, c.frags, c.head) && Apart(c.slots)
    requires p in c.slots && c.slots[p].kind.Hole? && c.slots[p].size >= MIN_SLOT
    requires Homeless(c.slots, f) && !frag.flags.followsFree && NoFreeBefore(c.slots, p)
    requires NextUnmarked(c.slots, c.frags, p)
    ensures Normal(c.tops, SetKind(c.slots, p, Live(f)), c.frags[f := frag], c.head)
  {
    hide Normal, Apart, SetKind, NoFreeBefore;
    NormalFrags(c.tops, c.slots, c.frags, c.head, f, frag);
    NormalOccupy(c.tops, c.slots, c.frags[f := frag], c.head, p, f);
  }

  /** The fragment's record changes without changing where its slot starts, how large the slot
      is, or its mark. */
  ghost function Refitted(c: Core, f: FragId, frag: Fragment): Core {
    c.(frags := c.frags[f := frag])
  }

  lemma RefitInv(c: Core, p: Pc, frag: Fragment)
    requires Inv(c) && p in c.slots && c.slots[p].kind.Live? && Fits(frag, p, c.slots[p].size)
    requires c.slots[p].kind.f in c.frags && frag.flags == c.frags[c.slots[p].kind.f].flags
    ensures Inv(Refitted(c, c.slots[p].kind.f, frag))
  {
    hide Geometry, Linked, Listed, Counted, Normal, HeadersOk, FragsOk, Fits;
    var f := c.slots[p].kind.f;
    GeometryFrame(c, Refitted(c, f, frag));
    NormalFrags(c.tops, c.slots, c.frags, c.head, f, frag);
    RefitFrags(c.slots, c.frags, p, frag);
  }

  lemma RefitFrags(slots: Slots, frags: Frags, p: Pc, frag: Fragment)
    requires FragsOk(slots, frags) && p in slots && slots[p].kind.Live? && Fits(frag, p, slots[p].size)
    ensures FragsOk(slots, frags[slots[p].kind.f := frag])
  {
    hide StartPadding, HdrStart, FragSize;
  }

  ghost function Shrunk(c: Core, p: Pc, n: nat, frag: Fragment): Core {
    if p in c.slots && c.slots[p].kind.Live? && 0 < n < c.slots[p].size
    then c.(slots := Cut(c.slots, p, n), frags := c.frags[c.slots[p].kind.f := frag]) else c
  }

  lemma ShrinkFrags(slots: Slots, frags: Frags, p: Pc, n: nat, frag: Fragment)
    requires FragsOk(slots, frags) && p in slots && slots[p].kind.Live? && 0 < n < slots[p].size && Fits(frag, p, n)
    requires p + n !in slots
    ensures FragsOk(Cut(slots, p, n), frags[slots[p].kind.f := frag])
  {
    hide StartPadding, HdrStart, FragSize;
  }

  lemma ShrinkHeaders(m: Mem, slots: Slots, p: Pc, n: nat)
    requires HeadersOk(m, slots) && Sized(slots) && p in slots && slots[p].kind.Live? && MIN_SLOT <= n < slots[p].size
    ensures HeadersOk(m, Cut(slots, p, n)) && Sized(Cut(slots, p, n))
  {
    var s' := Cut(slots, p, n);
    forall x | x in s' ensures HeaderOk(m, x, s'[x]) {
      if x != p + n { assert HeaderOk(m, x, slots[x]); }
    }
  }

  lemma CutSameFree(slots: Slots, p: Pc, n: nat)
    requires p in slots && 0 < n < slots[p].size && !slots[p].kind.Free? && p + n !in slots
    ensures SameFree(slots, Cut(slots, p, n))
  {
  }

  lemma ShrinkInv(c: Core, p: Pc, n: nat, frag: Fragment)
    requires Inv(c) && p in c.slots && c.slots[p].kind.Live? && MIN_SLOT <= n < c.slots[p].size
    requires Aligned(n, c.align) && Fits(frag, p, n)
    requires c.slots[p].kind.f in c.frags && frag.flags == c.frags[c.slots[p].kind.f].flags
    ensures p + n !in c.slots && Inv(Shrunk(c, p, n, frag))
  {
    hide Linked, Listed, Counted, Normal, FragsOk, HeadersOk, Tiled, Sized, UnitsOk, Apart, Chained, Housed;
    hide SlotsAligned, UnitsAligned, MemOk, SameFree, Aligned, Cut, Fits;
    TiledApart(c);
    TiledCut(c.units, c.tops, c.slots, p, n);
    ShrinkFrags(c.slots, c.frags, p, n, frag);
    ShrinkHeaders(c.mem, c.slots, p, n);
    CutSameFree(c.slots, p, n);
    ListedFrame(c.slots, Cut(c.slots, p, n), c.lists);
    CountedFrame(c.slots, Cut(c.slots, p, n), c.lists, c.stats);
    CutAligned(c.align, c.slots, p, n);
    NormalFrags(c.tops, c.slots, c.frags, c.head, c.slots[p].kind.f, frag);
    NormalCut(c.tops, c.slots, c.frags[c.slots[p].kind.f := frag], c.head, p, n);
  }

  // ----- unit fields and units

  /** Changing a unit's append point, committed end or flags. */
  lemma UnitInv(c: Core, u: UnitId, unit: Unit, m: Mem)
    requires Inv(c) && u in c.units && c.tops.Keys == c.units.Keys
    requires unit.start == c.units[u].start && unit.reserved == c.units[u].reserved
    requires unit.start <= unit.cur <= unit.end && c.units[u].end <= unit.end <= unit.reserved
    requires Aligned(unit.end, c.align)
    requires c.mem.Keys <= m.Keys && (forall a :: a in c.mem ==> m[a] == c.mem[a])
    requires forall a :: c.units[u].end <= a < unit.end && a % 4 == 0 ==> a in m
    ensures Inv(c.(units := c.units[u := unit], mem := m))
  {
    hide Linked, Listed, Counted, Normal, FragsOk, HeadersOk, Tiled, Sized, UnitsOk;
    hide SlotsAligned, UnitsAligned, MemOk, Aligned;
    var units' := c.units[u := unit];
    UnitFacts(c, u);
    TiledUnits(c.units, units', c.tops, c.slots);
    UnitSet(c.units, c.tops, u, unit);
    UnitAligned(c.align, c.units, c.tops, u, unit);
    CommitMem(c.mem, m, c.units, u, unit);
    HeadersGrow(c.mem, m, c.slots);
    LinkedGrow(c.mem, m, c.heads, c.lists);
  }

  lemma UnitSet(units: Units, tops: Tops, u: UnitId, unit: Unit)
    requires UnitsOk(units, tops) && u in units && unit.start == units[u].start && unit.reserved == units[u].reserved
    requires unit.start <= unit.cur <= unit.end && units[u].end <= unit.end <= unit.reserved
    ensures UnitsOk(units[u := unit], tops)
  {
  }

  lemma UnitAligned(align: nat, units: Units, tops: Tops, u: UnitId, unit: Unit)
    requires IsAlign(align) && tops.Keys == units.Keys && UnitsAligned(align, units, tops) && u in units
    requires unit.start == units[u].start && Aligned(unit.end, align)
    ensures UnitsAligned(align, units[u := unit], tops)
  {
    hide Aligned;
  }

  lemma CommitMem(m: Mem, m': Mem, units: Units, u: UnitId, unit: Unit)
    requires MemOk(m, units) && u in units && unit.start == units[u].start && m.Keys <= m'.Keys
    requires forall a :: units[u].end <= a < unit.end && a % 4 == 0 ==> a in m'
    ensures MemOk(m', units[u := unit])
  {
    var units' := units[u := unit];
    forall v, a | v in units' && units'[v].start <= a < units'[v].end && a % 4 == 0 ensures a in m' {
      if a < units[v].end { WordMapped(m, units, v, a); }
    }
  }

  lemma HeadersGrow(m: Mem, m': Mem, slots: Slots)
    requires HeadersOk(m, slots) && m.Keys <= m'.Keys && forall a :: a in m ==> m'[a] == m[a]
    ensures HeadersOk(m', slots)
  {
    forall x | x in slots ensures HeaderOk(m', x, slots[x]) {
      HeaderAt(m, slots, x);
      HeaderGrow(m, m', x, slots[x]);
    }
  }

  lemma HeaderGrow(m: Mem, m': Mem, p: Pc, s: Slot)
    requires HeaderOk(m, p, s) && m.Keys <= m'.Keys && forall a :: a in m ==> m'[a] == m[a]
    ensures HeaderOk(m', p, s)
  {
  }

  lemma LinkedGrow(m: Mem, m': Mem, heads: seq<Ref>, lists: Lists)
    requires Linked(m, heads, lists) && m.Keys <= m'.Keys && forall a :: a in m ==> m'[a] == m[a]
    ensures Linked(m', heads, lists)
  {
    forall b | 0 <= b < BUCKETS ensures ListOk(m', heads[b], lists[b]) {
      assert ListOk(m, heads[b], lists[b]);
      forall i | 0 <= i < |lists[b]| ensures NodeOk(m', lists[b], i) {
        assert NodeOk(m, lists[b], i);
      }
    }
  }
}
