/** What can be read off the memory of a shared cache, and how freeing a slot joins it with
    its neighbours. */
module CacheFacts {
  import opened Memory
  import opened Layout
  import opened Coalescing
  import opened FreeLists
  import opened SharedModel

  /** The flags behind a slot's first word can be read. */
  predicate DerefOk(m: Mem, frags: Frags, r: Ref) {
    match r
    case Null => true
    case FragRef(f) => f in frags
    case EntryRef(pc) => pc + FLAGS_AT in m && m[pc + FLAGS_AT].Bits?
  }

  /** FRAG_IS_FREE_LIST: the first word is NULL or what it points to carries the free-list flag. */
  predicate IsFreeList(m: Mem, frags: Frags, r: Ref)
    requires DerefOk(m, frags, r)
  {
    match r
    case Null => true
    case FragRef(f) => frags[f].flags.freeList
    case EntryRef(pc) => m[pc + FLAGS_AT].flags.freeList
  }

  lemma IndexOf(slots: Slots, lists: Lists, p: Pc) returns (k: nat)
    requires Listed(slots, lists) && p in slots && slots[p].kind.Free?
    ensures k < |lists[Bucket(slots[p].size)]| && lists[Bucket(slots[p].size)][k] == p
  {
    k :| 0 <= k < |lists[Bucket(slots[p].size)]| && lists[Bucket(slots[p].size)][k] == p;
  }

  /** Where a free slot is listed, and the record that lies in it. */
  lemma FreeEntry(c: Core, p: Pc) returns (k: nat)
    requires Inv(c) && p in c.slots && c.slots[p].kind.Free?
    ensures |c.lists| == BUCKETS && k < |c.lists[Bucket(c.slots[p].size)]| && c.lists[Bucket(c.slots[p].size)][k] == p
    ensures c.slots[p].size >= MIN_SLOT && EntryAt(c.mem, p, c.slots[p].size)
    ensures PtrAt(c.mem, p, NextRef(c.lists[Bucket(c.slots[p].size)], k))
  {
    hide Geometry, Listed, Linked, HeadersOk, Counted, Normal, FragsOk, PtrAt, IsPtr, EntryAt, NextRef, PrevRef;
    CountedSizes(c);
    k := IndexOf(c.slots, c.lists, p);
    EntryLinks(c, Bucket(c.slots[p].size), k);
  }

  /** The in-band test tells free slots from live ones: it succeeds exactly on the slots that
      are on one of the lists. */
  lemma InBandTest(c: Core, p: Pc)
    requires Inv(c) && p in c.slots && Headed(c.slots[p].kind)
    ensures IsPtr(c.mem, p) && DerefOk(c.mem, c.frags, LoadPtr(c.mem, p))
    ensures IsFreeList(c.mem, c.frags, LoadPtr(c.mem, p)) <==> c.slots[p].kind.Free?
    ensures c.slots[p].kind.Live? ==> LoadPtr(c.mem, p) == FragRef(c.slots[p].kind.f)
    ensures |c.lists| == BUCKETS
    ensures c.slots[p].kind.Free? <==> exists b :: 0 <= b < BUCKETS && p in c.lists[b]
  {
    hide Inv;
    OnSomeList(c, p);
    if c.slots[p].kind.Live? {
      FragAt(c, p);
    } else {
      var k := FreeEntry(c, p);
      var l := c.lists[Bucket(c.slots[p].size)];
      if k + 1 < |l| { EntryLinks(c, Bucket(c.slots[p].size), k + 1); }
    }
  }

  lemma OnSomeList(c: Core, p: Pc)
    requires Inv(c) && p in c.slots
    ensures |c.lists| == BUCKETS
    ensures c.slots[p].kind.Free? <==> exists b :: 0 <= b < BUCKETS && p in c.lists[b]
  {
    hide Geometry, Listed, Linked, HeadersOk, Counted, Normal, FragsOk;
    CountedSizes(c);
    if c.slots[p].kind.Free? {
      var k := IndexOf(c.slots, c.lists, p);
    }
    forall b | 0 <= b < BUCKETS && p in c.lists[b] ensures c.slots[p].kind.Free? {
      var i :| 0 <= i < |c.lists[b]| && c.lists[b][i] == p;
      ListedAt(c.slots, c.lists, b, i);
    }
  }

  // ----- effects of the elementary steps on live slots and free bytes

  lemma ToHoleEffects(slots: Slots, p: Pc)
    requires Apart(slots) && p in slots && slots[p].kind.Free?
    ensures SameKept(slots, SetKind(slots, p, Hole))
    ensures FreeMinus(slots, SetKind(slots, p, Hole), p, p + slots[p].size)
  {
    var s' := SetKind(slots, p, Hole);
    forall a: Pc | FreeByte(s', a) ensures FreeByte(slots, a) && !(p <= a < p + slots[p].size) {
      var q :| q in s' && s'[q].kind.Free? && q <= a < q + s'[q].size;
      assert q in slots && slots[q].kind.Free? && q <= a < q + slots[q].size;
    }
    forall a: Pc | FreeByte(slots, a) && !(p <= a < p + slots[p].size) ensures FreeByte(s', a) {
      var q :| q in slots && slots[q].kind.Free? && q <= a < q + slots[q].size;
      assert q in s' && s'[q].kind.Free?;
    }
  }

  lemma ToFreeEffects(slots: Slots, p: Pc)
    requires p in slots && slots[p].kind.Hole?
    ensures SameKept(slots, SetKind(slots, p, Free))
    ensures FreePlus(slots, SetKind(slots, p, Free), p, p + slots[p].size)
  {
    var s' := SetKind(slots, p, Free);
    forall a: Pc | FreeByte(s', a) ensures FreeByte(slots, a) || p <= a < p + slots[p].size {
      var q :| q in s' && s'[q].kind.Free? && q <= a < q + s'[q].size;
      assert q != p ==> q in slots && slots[q].kind.Free?;
    }
    forall a: Pc | FreeByte(slots, a) || p <= a < p + slots[p].size ensures FreeByte(s', a) {
      if p <= a < p + slots[p].size {
        assert p in s' && s'[p].kind.Free?;
      } else {
        var q :| q in slots && slots[q].kind.Free? && q <= a < q + slots[q].size;
        assert q in s' && s'[q].kind.Free?;
      }
    }
  }

  lemma OwnedEffects(s: Slots, s': Slots)
    requires SameOwned(s, s')
    ensures SameKept(s, s') && FreePlus(s, s', 0, 0)
  {
    forall a: Pc ensures FreeByte(s, a) <==> FreeByte(s', a) {
      if FreeByte(s, a) {
        var q :| q in s && s[q].kind.Free? && q <= a < q + s[q].size;
        assert q in s' && s'[q].kind.Free?;
      }
      if FreeByte(s', a) {
        var q :| q in s' && s'[q].kind.Free? && q <= a < q + s'[q].size;
        assert q in s && s[q].kind.Free?;
      }
    }
  }

  // ----- freeing the slot at p joins it with the free slots on both sides

  /** Below p nothing differs. */
  ghost predicate SameBelow(s: Slots, s': Slots, p: Pc) {
    forall x :: x < p ==> (x in s <==> x in s') && (x in s ==> s'[x] == s[x])
  }

  /** The hole at p is followed by a marked fragment or by the top of its unit. */
  ghost predicate Sealed(c: Core, p: Pc)
    requires p in c.slots && c.slots[p].unit in c.tops
  {
    End(c.slots, p) != c.tops[c.slots[p].unit] ==>
      && End(c.slots, p) in c.slots && c.slots[End(c.slots, p)].unit == c.slots[p].unit
      && c.slots[End(c.slots, p)].kind.Live? && Marked(c.frags, c.slots[End(c.slots, p)].kind.f)
  }

  /** Taking the free slot q off its list and joining it to the hole before it. */
  ghost predicate JoinedNext(c: Core, c': Core, p: Pc, q: Pc)
    requires p in c.slots && q in c.slots
  {
    && p in c'.slots && c'.slots[p] == Slot(c.slots[p].size + c.slots[q].size, c.slots[p].unit, Hole)
    && c'.units == c.units && c'.tops == c.tops && c'.frags == c.frags && c'.head == c.head && c'.align == c.align
    && SameKept(c.slots, c'.slots) && FreeMinus(c.slots, c'.slots, q, q + c.slots[q].size)
    && SameBelow(c.slots, c'.slots, p) && OnlyHole(c'.slots, p)
  }

  lemma DetachShape(c: Core, b: nat, k: nat, p: Pc) returns (c1: Core)
    requires Inv(c) && b < BUCKETS == |c.lists| && k < |c.lists[b]| && c.lists[b][k] == p
    ensures p in c.slots && c.slots[p].kind.Free?
    ensures PrevRef(c.lists[b], k).EntryRef? ==> IsPtr(c.mem, PrevRef(c.lists[b], k).pc)
    ensures NextRef(c.lists[b], k).EntryRef? ==> IsPtr(c.mem, NextRef(c.lists[b], k).pc + PREV_AT)
    ensures |c.heads| == |c.stats.reused| == |c.stats.coalesced| == |c.stats.charge| == BUCKETS
    ensures c1 == Detached(c, b, k, true) && Inv(c1) && c1.slots == SetKind(c.slots, p, Hole)
    ensures c1.units == c.units && c1.tops == c.tops && c1.frags == c.frags && c1.head == c.head && c1.align == c.align
    ensures SameKept(c.slots, c1.slots) && FreeMinus(c.slots, c1.slots, p, p + c.slots[p].size)
  {
    hide Inv, Geometry, UnlinkMem, Without, NextRef, PrevRef, IsPtr, SetKind, Apart, SameKept, FreeMinus;
    DetachInv(c, b, k, true);
    c1 := Detached(c, b, k, true);
    ApartOf(c);
    ToHoleEffects(c.slots, p);
  }

  lemma ApartOf(c: Core)
    requires Inv(c)
    ensures Geometry(c) && Apart(c.slots) && c.tops.Keys == c.units.Keys
  {
    hide Geometry, Apart, Normal, FragsOk, HeadersOk, Listed, Linked, Counted;
    TiledApart(c);
  }

  lemma JoinNext(c: Core, p: Pc, q: Pc, b: nat, k: nat)
    requires Inv(c) && p in c.slots && c.slots[p].kind.Hole? && OnlyHole(c.slots, p)
    requires q == End(c.slots, p) && q in c.slots && c.slots[q].unit == c.slots[p].unit
    requires b < BUCKETS == |c.lists| && k < |c.lists[b]| && c.lists[b][k] == q
    ensures PrevRef(c.lists[b], k).EntryRef? ==> IsPtr(c.mem, PrevRef(c.lists[b], k).pc)
    ensures NextRef(c.lists[b], k).EntryRef? ==> IsPtr(c.mem, NextRef(c.lists[b], k).pc + PREV_AT)
    ensures |c.heads| == |c.stats.reused| == |c.stats.coalesced| == |c.stats.charge| == BUCKETS
    ensures c.slots[q].kind.Free? && c.slots[p].unit in c.tops
    ensures var c1 := Detached(c, b, k, true);
      && p in c1.slots && End(c1.slots, p) in c1.slots
      && Inv(Fused(c1, p)) && JoinedNext(c, Fused(c1, p), p, q) && Sealed(Fused(c1, p), p)
  {
    hide Inv, Geometry, Detached, NextRef, PrevRef, IsPtr, SameKept, FreeMinus, SameOwned, Apart;
    var c1 := DetachShape(c, b, k, q);
    ApartOf(c);
    SlotFacts(c, p);
    FuseInv(c1, p);
    MergeSameOwned(c1.slots, p);
    OwnedEffects(c1.slots, Fused(c1, p).slots);
    EffectsCompose(c.slots, c1.slots, Fused(c1, p).slots, q, q + c.slots[q].size);
    FollowerOf(c, q);
    SlotFacts(c, q);
  }

  lemma EffectsCompose(s: Slots, s1: Slots, s2: Slots, lo: int, hi: int)
    requires SameKept(s, s1) && FreeMinus(s, s1, lo, hi) && SameKept(s1, s2) && FreePlus(s1, s2, 0, 0)
    ensures SameKept(s, s2) && FreeMinus(s, s2, lo, hi)
  {
    assert forall x :: Kept(s, x) || Kept(s2, x) ==> Kept(s1, x);
    forall a: Pc ensures FreeByte(s2, a) <==> FreeByte(s, a) && !(lo <= a < hi) {
      assert FreeByte(s2, a) <==> FreeByte(s1, a);
    }
  }

  /** What follows a free slot. */
  lemma FollowerOf(c: Core, q: Pc)
    requires Inv(c) && q in c.slots && c.slots[q].kind.Free?
    ensures (c.slots[q].unit in c.tops && End(c.slots, q) == c.tops[c.slots[q].unit])
         || (End(c.slots, q) in c.slots && FollowerOk(c.slots[q], c.slots[End(c.slots, q)], c.frags))
    ensures NoFreeBefore(c.slots, q)
  {
    hide Geometry, MarksOk, HeadOpen, FragsOk, HeadersOk, Listed, Linked, Counted;
    ApartOf(c);
    forall x | x in c.slots && c.slots[x].kind.Free? && c.slots[x].unit == c.slots[q].unit
      ensures End(c.slots, x) != q
    {
      if End(c.slots, x) == q {
        SlotFacts(c, q);
      }
    }
  }

  /** Taking the free slot q off its list and joining the hole after it to it. */
  ghost predicate JoinedPrev(c: Core, c': Core, p: Pc, q: Pc)
    requires p in c.slots && q in c.slots
  {
    && q in c'.slots && c'.slots[q] == Slot(c.slots[q].size + c.slots[p].size, c.slots[p].unit, Hole)
    && c'.units == c.units && c'.tops == c.tops && c'.frags == c.frags && c'.head == c.head && c'.align == c.align
    && SameKept(c.slots, c'.slots) && FreeMinus(c.slots, c'.slots, q, p)
    && OnlyHole(c'.slots, q) && NoFreeBefore(c'.slots, q)
  }

  lemma JoinPrev(c: Core, p: Pc, q: Pc, b: nat, k: nat)
    requires Inv(c) && p in c.slots && c.slots[p].kind.Hole? && OnlyHole(c.slots, p)
    requires q in c.slots && p == End(c.slots, q) && c.slots[q].unit == c.slots[p].unit
    requires b < BUCKETS == |c.lists| && k < |c.lists[b]| && c.lists[b][k] == q
    requires c.slots[p].unit in c.tops && Sealed(c, p)
    ensures PrevRef(c.lists[b], k).EntryRef? ==> IsPtr(c.mem, PrevRef(c.lists[b], k).pc)
    ensures NextRef(c.lists[b], k).EntryRef? ==> IsPtr(c.mem, NextRef(c.lists[b], k).pc + PREV_AT)
    ensures |c.heads| == |c.stats.reused| == |c.stats.coalesced| == |c.stats.charge| == BUCKETS
    ensures var c1 := Detached(c, b, k, true);
      && q in c1.slots && End(c1.slots, q) in c1.slots
      && Inv(Fused(c1, q)) && JoinedPrev(c, Fused(c1, q), p, q) && Sealed(Fused(c1, q), q)
  {
    hide Inv, Geometry, Detached, NextRef, PrevRef, IsPtr, SameKept, FreeMinus, SameOwned, Apart, NoFreeBefore;
    var c1 := DetachShape(c, b, k, q);
    FuseInv(c1, q);
    MergeSameOwned(c1.slots, q);
    OwnedEffects(c1.slots, Fused(c1, q).slots);
    EffectsCompose(c.slots, c1.slots, Fused(c1, q).slots, q, p);
    FollowerOf(c, q);
    JoinedStart(c.slots, c1.slots, Fused(c1, q).slots, p, q);
  }

  lemma JoinedStart(s: Slots, s1: Slots, s2: Slots, p: Pc, q: Pc)
    requires q in s && s1 == SetKind(s, q, Hole) && p == End(s, q) && p in s && s[p].kind.Hole?
    requires s2 == MergeNext(s1, q) && NoFreeBefore(s, q)
    ensures NoFreeBefore(s2, q)
  {
    forall x | x in s2 && s2[x].kind.Free? && s2[x].unit == s2[q].unit ensures End(s2, x) != q {
      assert x in s && s[x] == s2[x];
      assert End(s, x) == End(s2, x);
    }
  }
}
