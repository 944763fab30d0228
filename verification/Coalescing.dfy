/** Fragments, and the normal form that coalescing keeps: free slots are maximal, a live
    fragment is marked exactly when it follows a free slot, and no free slot ends at the
    append point of the unit being filled. */
module Coalescing {
  import opened Memory
  import opened Layout

  datatype Fragment = Fragment(startPc: Pc, size: nat, extra: nat, flags: Flags)
  type Frags = map<FragId, Fragment>

  function StartPadding(f: Fragment): nat {
    if f.flags.shiftable then f.startPc % START_PC_ALIGNMENT else 0
  }

  function HdrStart(f: Fragment): int { f.startPc - PTR - StartPadding(f) }

  function FragSize(f: Fragment): nat { f.size + f.extra + StartPadding(f) }

  predicate Marked(frags: Frags, f: FragId) { f in frags && frags[f].flags.followsFree }

  function Mark(frags: Frags, f: FragId, on: bool): Frags
    requires f in frags
  {
    frags[f := frags[f].(flags := frags[f].flags.(followsFree := on))]
  }

  /** A live slot and its fragment agree on address and size; the spare bytes fit fcache_extra. */
  ghost predicate FragsOk(slots: Slots, frags: Frags) {
    forall p :: p in slots && slots[p].kind.Live? ==>
      && slots[p].kind.f in frags
      && var f := frags[slots[p].kind.f];
      && HdrStart(f) == p && FragSize(f) == slots[p].size
      && !f.flags.freeList && PTR <= f.extra <= 255
  }

  predicate Loose(k: Kind) { !k.Live? }

  /** The slot right before p, in the same unit, holds no fragment. */
  ghost predicate PrevLoose(slots: Slots, p: Pc)
    requires p in slots
  {
    exists q {:trigger End(slots, q)} ::
      q in slots && End(slots, q) == p && slots[q].unit == slots[p].unit && Loose(slots[q].kind)
  }

  ghost predicate NoFreeBefore(slots: Slots, p: Pc)
    requires p in slots
  {
    forall q {:trigger End(slots, q)} ::
      q in slots && slots[q].kind.Free? && slots[q].unit == slots[p].unit ==> End(slots, q) != p
  }

  /** A free slot is followed by a marked fragment, by a hole, or by the top of its unit. */
  ghost predicate NextMarked(tops: Tops, slots: Slots, frags: Frags) {
    forall p {:trigger End(slots, p)} :: p in slots && slots[p].kind.Free? ==>
      || (slots[p].unit in tops && End(slots, p) == tops[slots[p].unit])
      || (End(slots, p) in slots && FollowerOk(slots[p], slots[End(slots, p)], frags))
  }

  predicate FollowerOk(s: Slot, next: Slot, frags: Frags) {
    next.unit == s.unit && (next.kind.Hole? || (next.kind.Live? && Marked(frags, next.kind.f)))
  }

  /** A marked fragment follows a slot without one. */
  ghost predicate MarksOk(slots: Slots, frags: Frags) {
    forall p :: p in slots && slots[p].kind.Live? && Marked(frags, slots[p].kind.f) ==> PrevLoose(slots, p)
  }

  /** No free slot ends at the top of the unit being filled. */
  ghost predicate HeadOpen(tops: Tops, slots: Slots, head: int) {
    forall p {:trigger End(slots, p)} ::
      p in slots && slots[p].kind.Free? && slots[p].unit == head && slots[p].unit in tops ==>
      End(slots, p) != tops[slots[p].unit]
  }

  ghost predicate Normal(tops: Tops, slots: Slots, frags: Frags, head: int) {
    NextMarked(tops, slots, frags) && MarksOk(slots, frags) && HeadOpen(tops, slots, head)
  }

  // ----- every byte is free, live or neither; live slots as seen by a caller

  ghost predicate FreeByte(slots: Slots, a: Pc) {
    exists p :: p in slots && slots[p].kind.Free? && p <= a < p + slots[p].size
  }

  /** The slot at p holds a fragment, or bytes that are lost. */
  ghost predicate Kept(slots: Slots, p: Pc) { p in slots && (slots[p].kind.Live? || slots[p].kind.Lost?) }

  /** The same fragments live in the same slots, and the same bytes are lost. */
  ghost predicate SameKept(s: Slots, s': Slots) {
    forall x :: Kept(s, x) || Kept(s', x) ==> Kept(s, x) && Kept(s', x) && s[x] == s'[x]
  }

  /** The same, leaving aside the slot at p. */
  ghost predicate SameKeptBut(s: Slots, s': Slots, p: Pc) {
    forall x :: x != p && (Kept(s, x) || Kept(s', x)) ==> Kept(s, x) && Kept(s', x) && s[x] == s'[x]
  }

  ghost predicate FreeMinus(s: Slots, s': Slots, lo: int, hi: int) {
    forall a: Pc {:trigger FreeByte(s, a)} {:trigger FreeByte(s', a)} ::
      FreeByte(s', a) <==> FreeByte(s, a) && !(lo <= a < hi)
  }

  ghost predicate FreePlus(s: Slots, s': Slots, lo: int, hi: int) {
    forall a: Pc {:trigger FreeByte(s, a)} {:trigger FreeByte(s', a)} ::
      FreeByte(s', a) <==> FreeByte(s, a) || lo <= a < hi
  }

  // ----- what each elementary change of the layout does to the normal form

  lemma NormalToHole(tops: Tops, slots: Slots, frags: Frags, head: int, p: Pc)
    requires Normal(tops, slots, frags, head) && p in slots
    ensures Normal(tops, SetKind(slots, p, Hole), frags, head)
  {
    var s' := SetKind(slots, p, Hole);
    assert forall x {:trigger End(s', x)} :: x in s' ==> End(s', x) == End(slots, x);
    forall x | x in s' && s'[x].kind.Live? && Marked(frags, s'[x].kind.f) ensures PrevLoose(s', x) {
      var q :| q in slots && End(slots, q) == x && slots[q].unit == slots[x].unit && Loose(slots[q].kind);
      assert End(s', q) == x;
    }
  }

  lemma NormalMerge(tops: Tops, slots: Slots, frags: Frags, head: int, p: Pc)
    requires Normal(tops, slots, frags, head) && Apart(slots)
    requires p in slots && End(slots, p) in slots && slots[p].kind.Hole? && slots[End(slots, p)].kind.Hole?
    requires slots[p].unit == slots[End(slots, p)].unit && 0 < slots[p].size && 0 < slots[End(slots, p)].size
    ensures Normal(tops, MergeNext(slots, p), frags, head)
  {
    var q, s' := End(slots, p), MergeNext(slots, p);
    forall x | x in s' && x != p ensures x in slots && s'[x] == slots[x] && End(s', x) == End(slots, x) != q {
      assert x < p || q < x;
    }
    forall x | x in s' && s'[x].kind.Live? && Marked(frags, s'[x].kind.f) ensures PrevLoose(s', x) {
      var y :| y in slots && End(slots, y) == x && slots[y].unit == slots[x].unit && Loose(slots[y].kind);
      assert End(s', if y == q then p else y) == x;
    }
  }

  lemma NormalAttach(tops: Tops, slots: Slots, frags: Frags, head: int, p: Pc)
    requires Normal(tops, slots, frags, head) && p in slots && slots[p].kind.Hole? && slots[p].unit in tops
    requires NoFreeBefore(slots, p)
    requires End(slots, p) == tops[slots[p].unit] ==> slots[p].unit != head
    requires End(slots, p) != tops[slots[p].unit] ==>
      && End(slots, p) in slots && slots[End(slots, p)].unit == slots[p].unit
      && slots[End(slots, p)].kind.Live? && Marked(frags, slots[End(slots, p)].kind.f)
    ensures Normal(tops, SetKind(slots, p, Free), frags, head)
  {
    var s' := SetKind(slots, p, Free);
    assert forall x {:trigger End(s', x)} :: x in s' ==> End(s', x) == End(slots, x);
    forall x | x in s' && s'[x].kind.Live? && Marked(frags, s'[x].kind.f) ensures PrevLoose(s', x) {
      var q :| q in slots && End(slots, q) == x && slots[q].unit == slots[x].unit && Loose(slots[q].kind);
      assert End(s', q) == x;
    }
  }

  lemma NormalOccupy(tops: Tops, slots: Slots, frags: Frags, head: int, p: Pc, f: FragId)
    requires Normal(tops, slots, frags, head) && Apart(slots)
    requires p in slots && slots[p].kind.Hole? && 0 < slots[p].size
    requires !Marked(frags, f) && NoFreeBefore(slots, p)
    requires End(slots, p) in slots && slots[End(slots, p)].unit == slots[p].unit && slots[End(slots, p)].kind.Live? ==>
      !Marked(frags, slots[End(slots, p)].kind.f)
    ensures Normal(tops, SetKind(slots, p, Live(f)), frags, head)
  {
    var s' := SetKind(slots, p, Live(f));
    assert forall x {:trigger End(s', x)} :: x in s' ==> End(s', x) == End(slots, x);
    forall x | x in s' && s'[x].kind.Live? && Marked(frags, s'[x].kind.f) ensures PrevLoose(s', x) {
      var q :| q in slots && End(slots, q) == x && slots[q].unit == slots[x].unit && Loose(slots[q].kind);
      assert End(s', q) == x;
    }
  }

  lemma CutFollowers(tops: Tops, slots: Slots, frags: Frags, head: int, p: Pc, n: nat)
    requires NextMarked(tops, slots, frags) && HeadOpen(tops, slots, head) && Apart(slots)
    requires p in slots && 0 < n < slots[p].size && !slots[p].kind.Free?
    ensures NextMarked(tops, Cut(slots, p, n), frags) && HeadOpen(tops, Cut(slots, p, n), head)
  {
    var s' := Cut(slots, p, n);
    assert p + n !in slots;
    forall x | x in s' && s'[x].kind.Free?
      ensures x in slots && s'[x] == slots[x] && End(s', x) == End(slots, x) != p + n
    {
      assert x < p || p < x;
    }
  }

  lemma CutMarks(slots: Slots, frags: Frags, p: Pc, n: nat)
    requires MarksOk(slots, frags) && p in slots && 0 < n < slots[p].size && p + n !in slots
    ensures MarksOk(Cut(slots, p, n), frags)
  {
    var s' := Cut(slots, p, n);
    forall x | x in s' && s'[x].kind.Live? && Marked(frags, s'[x].kind.f) ensures PrevLoose(s', x) {
      var q :| q in slots && End(slots, q) == x && slots[q].unit == slots[x].unit && Loose(slots[q].kind);
      assert End(s', if q == p then p + n else q) == x;
    }
  }

  lemma NormalCut(tops: Tops, slots: Slots, frags: Frags, head: int, p: Pc, n: nat)
    requires Normal(tops, slots, frags, head) && Apart(slots)
    requires p in slots && 0 < n < slots[p].size && !slots[p].kind.Free?
    ensures Normal(tops, Cut(slots, p, n), frags, head)
  {
    CutApart(slots, p, n);
    CutFollowers(tops, slots, frags, head, p, n);
    CutMarks(slots, frags, p, n);
  }

  lemma NormalAppend(tops: Tops, slots: Slots, frags: Frags, head: int, u: UnitId, n: nat)
    requires Normal(tops, slots, frags, head) && u in tops && tops[u] !in slots && 0 < n
    requires forall x {:trigger End(slots, x)} :: x in slots && slots[x].unit == u ==> End(slots, x) <= tops[u]
    ensures Normal(tops[u := tops[u] + n], slots[tops[u] := Slot(n, u, Hole)], frags, head)
  {
    var s' := slots[tops[u] := Slot(n, u, Hole)];
    assert forall x {:trigger End(s', x)} :: x in slots ==> End(s', x) == End(slots, x);
    forall x | x in s' && s'[x].kind.Live? && Marked(frags, s'[x].kind.f) ensures PrevLoose(s', x) {
      var q :| q in slots && End(slots, q) == x && slots[q].unit == slots[x].unit && Loose(slots[q].kind);
      assert End(s', q) == x;
    }
  }

  /** The fragment after a slot that ends elsewhere is still after it when p is given back. */
  lemma ChopMarks(units: Units, tops: Tops, slots: Slots, frags: Frags, p: Pc)
    requires UnitsOk(units, tops) && Housed(units, tops, slots) && MarksOk(slots, frags)
    requires p in slots && slots[p].kind.Hole? && End(slots, p) == tops[slots[p].unit]
    ensures MarksOk(slots - {p}, frags)
  {
    var s' := slots - {p};
    forall x | x in s' && s'[x].kind.Live? && Marked(frags, s'[x].kind.f) ensures PrevLoose(s', x) {
      var q :| q in slots && End(slots, q) == x && slots[q].unit == slots[x].unit && Loose(slots[q].kind);
      assert q != p;
      assert End(s', q) == x;
    }
  }

  lemma ChopFollowers(tops: Tops, slots: Slots, frags: Frags, head: int, p: Pc)
    requires NextMarked(tops, slots, frags) && HeadOpen(tops, slots, head) && Apart(slots)
    requires p in slots && slots[p].kind.Hole? && slots[p].unit in tops && End(slots, p) == tops[slots[p].unit]
    requires NoFreeBefore(slots, p) && forall x :: x in slots ==> 0 < slots[x].size
    ensures NextMarked(tops[slots[p].unit := p], slots - {p}, frags)
    ensures HeadOpen(tops[slots[p].unit := p], slots - {p}, head)
  {
    var s' := slots - {p};
    forall x | x in s' && s'[x].kind.Free?
      ensures End(s', x) == End(slots, x)
      ensures (slots[x].unit == slots[p].unit ==> End(slots, x) != End(slots, p) && End(slots, x) != p)
    {
      assert x < p || p < x;
    }
  }

  lemma NormalChop(units: Units, tops: Tops, slots: Slots, frags: Frags, head: int, p: Pc)
    requires UnitsOk(units, tops) && Tiled(units, tops, slots) && Normal(tops, slots, frags, head)
    requires p in slots && slots[p].kind.Hole? && End(slots, p) == tops[slots[p].unit] && NoFreeBefore(slots, p)
    ensures Normal(tops[slots[p].unit := p], slots - {p}, frags, head)
  {
    ChopMarks(units, tops, slots, frags, p);
    ChopFollowers(tops, slots, frags, head, p);
    hide UnitsOk, Apart, Chained, Rooted, MarksOk, NextMarked, HeadOpen, NoFreeBefore;
  }

  lemma NormalMark(tops: Tops, slots: Slots, frags: Frags, head: int, p: Pc)
    requires Normal(tops, slots, frags, head) && p in slots && slots[p].kind.Live? && slots[p].kind.f in frags
    requires FragsOk(slots, frags) && PrevLoose(slots, p)
    ensures Normal(tops, slots, Mark(frags, slots[p].kind.f, true), head)
  {
    var f := slots[p].kind.f;
    var frags' := Mark(frags, f, true);
    assert forall g :: g != f ==> Marked(frags', g) == Marked(frags, g);
  }

  lemma NormalUnmark(tops: Tops, slots: Slots, frags: Frags, head: int, p: Pc)
    requires Normal(tops, slots, frags, head) && p in slots && slots[p].kind.Live? && slots[p].kind.f in frags
    requires FragsOk(slots, frags) && NoFreeBefore(slots, p)
    ensures Normal(tops, slots, Mark(frags, slots[p].kind.f, false), head)
  {
    var f := slots[p].kind.f;
    var frags' := Mark(frags, f, false);
    assert forall g :: g != f ==> Marked(frags', g) == Marked(frags, g);
  }

  lemma NormalLose(tops: Tops, slots: Slots, frags: Frags, head: int, p: Pc)
    requires Normal(tops, slots, frags, head) && p in slots && slots[p].kind.Hole? && NoFreeBefore(slots, p)
    ensures Normal(tops, SetKind(slots, p, Lost), frags, head)
  {
    var s' := SetKind(slots, p, Lost);
    assert forall x {:trigger End(s', x)} :: x in s' ==> End(s', x) == End(slots, x);
    forall x | x in s' && s'[x].kind.Live? && Marked(frags, s'[x].kind.f) ensures PrevLoose(s', x) {
      var q :| q in slots && End(slots, q) == x && slots[q].unit == slots[x].unit && Loose(slots[q].kind);
      assert End(s', q) == x;
    }
  }

  /** A fragment that is in no slot does not matter to the normal form. */
  lemma NormalFrags(tops: Tops, slots: Slots, frags: Frags, head: int, f: FragId, frag: Fragment)
    requires Normal(tops, slots, frags, head)
    requires (forall p :: p in slots && slots[p].kind.Live? ==> slots[p].kind.f != f)
          || (f in frags && frag.flags.followsFree == frags[f].flags.followsFree)
    ensures Normal(tops, slots, frags[f := frag], head)
  {
    var frags' := frags[f := frag];
    assert forall p :: p in slots && slots[p].kind.Live? ==>
      Marked(frags', slots[p].kind.f) == Marked(frags, slots[p].kind.f);
  }

  lemma FragsOkMark(slots: Slots, frags: Frags, f: FragId, on: bool)
    requires FragsOk(slots, frags) && f in frags
    ensures FragsOk(slots, Mark(frags, f, on))
  {
  }
}
