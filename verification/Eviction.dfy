/** What the operations of a private cache promise: whom an insertion evicts and where the bytes go. */
module Eviction {
  import opened Options
  import opened Memory
  import opened Alignment
  import opened Layout
  import opened Fifo
  import opened PrivateModel
  import opened Requests
  import W = WorkingSet

  ghost predicate NodesBelow(nodes: Nodes, n: NodeId) { forall m :: m in nodes ==> m < n }

  /** The slot at p is an empty slot. */
  ghost predicate IsEmptySlot(c: Private, p: Pc) {
    p in c.slots && c.slots[p].kind.Live? && c.slots[p].kind.f in c.nodes && c.nodes[c.slots[p].kind.f].Empty?
  }

  /** The slot at p holds a fragment that may not be deleted. */
  ghost predicate Pinned(c: Private, p: Pc) {
    p in c.slots && c.slots[p].kind.Live? && c.slots[p].kind.f in c.nodes
    && c.nodes[c.slots[p].kind.f].Frag? && c.nodes[c.slots[p].kind.f].pinned
  }

  /** The fragments of b are those of a, unchanged but for their links. */
  ghost predicate FragsSame(a: Nodes, b: Nodes) {
    forall m :: m in a && a[m].Frag? ==> m in b && SameBody(a[m], b[m])
  }

  /** No record is that of a fragment unless it was before. */
  ghost predicate NoNewFrags(a: Nodes, b: Nodes) {
    forall m :: m in b && b[m].Frag? ==> m in a && a[m].Frag?
  }

  lemma NoNewTrans(a: Nodes, b: Nodes, c: Nodes)
    requires NoNewFrags(a, b) && NoNewFrags(b, c)
    ensures NoNewFrags(a, c)
  {
  }

  lemma FragsSameTrans(a: Nodes, b: Nodes, c: Nodes)
    requires FragsSame(a, b) && FragsSame(b, c)
    ensures FragsSame(a, c)
  {
  }

  // ----- adding an empty slot

  /** Apart from the hole at p and from empty slots, the slots are the same. */
  ghost predicate SlotsKept(c: Private, c': Private, p: Pc) {
    && (forall x :: x in c.slots && x != p && !IsEmptySlot(c, x) ==> x in c'.slots && c'.slots[x] == c.slots[x])
    && (forall x :: x in c'.slots && !IsEmptySlot(c', x) ==> x in c.slots && x != p && c'.slots[x] == c.slots[x])
  }

  /** The list is l behind one more empty slot. */
  ghost predicate OneEmptyMore(c: Private, l: seq<NodeId>) {
    |c.list| > 0 && c.list == [c.list[0]] + l && c.list[0] in c.nodes && c.nodes[c.list[0]].Empty?
  }

  /** The bytes [p, p + size) lie in one empty slot. */
  ghost predicate EmptyBytes(c: Private, p: Pc, size: nat) {
    exists x: Pc :: IsEmptySlot(c, x) && x <= p && p + size <= x + c.slots[x].size
  }

  /** The hole at p became part of an empty slot: one at the front of the list that it touches, or
      a new one put there. */
  ghost predicate EmptyAdded(c: Private, c': Private, p: Pc, n: NodeId) {
    && p in c.slots && c'.units == c.units && c'.align == c.align
    && (c'.list == c.list || (c'.list == [n] + c.list && n in c'.nodes && c'.nodes[n].Empty?))
    && c'.nodes.Keys <= c.nodes.Keys + {n} && FragsSame(c.nodes, c'.nodes) && NoNewFrags(c.nodes, c'.nodes)
    && SlotsKept(c, c', p) && EmptyBytes(c', p, c.slots[p].size)
  }

  /** The first member of the list, and where an empty slot lies. */
  lemma FrontIs(c: Private, out: set<NodeId>)
    requires Kempt(c, out) && (c.fifo.Some? ==> c.fifo.value in c.nodes)
    ensures c.fifo == if |c.list| > 0 then Some(c.list[0]) else None
    ensures c.fifo.Some? && c.nodes[c.fifo.value].Empty? ==>
      var e := c.nodes[c.fifo.value]; NodeStart(e) == e.startPc - 8 && NodeSize(e) == e.fcacheSize
  {
    hide Ground, SlotsHold, EmptiesFirst, ListedAll, LinksAt;
  }

  lemma EmptyAddedNew(c: Private, p: Pc, n: NodeId)
    requires IsHole(c.slots, p) && n !in c.nodes && (c.fifo.Some? ==> c.fifo.value in c.nodes)
    requires SameBodies(c.nodes, Emptied(c, p, n).nodes - {n}) && n in Emptied(c, p, n).nodes
    requires Emptied(c, p, n).nodes[n].Empty?
    requires forall x :: x in c.slots ==> c.slots[x].kind != Live(n)
    ensures EmptyAdded(c, Emptied(c, p, n), p, n)
  {
    hide PrependLinks;
    var c' := Emptied(c, p, n);
    forall m | m in c.nodes ensures m in c'.nodes && SameBody(c.nodes[m], c'.nodes[m]) {
      assert SameBody(c.nodes[m], (c'.nodes - {n})[m]);
    }
    forall m | m in c'.nodes && c'.nodes[m].Frag? ensures m in c.nodes && c.nodes[m].Frag? {
      assert SameBody(c.nodes[m], (c'.nodes - {n})[m]);
    }
    assert IsEmptySlot(c', p);
  }

  lemma EmptyAddedNext(c: Private, p: Pc, e: NodeId, n: NodeId)
    requires IsHole(c.slots, p) && End(c.slots, p) in c.slots && c.slots[End(c.slots, p)].kind == Live(e)
    requires e in c.nodes && c.nodes[e].Empty?
    requires 0 < c.slots[p].size
    ensures EmptyAdded(c, JoinedNext(c, p, e), p, n)
  {
    var c' := JoinedNext(c, p, e);
    assert IsEmptySlot(c', p) && IsEmptySlot(c, End(c.slots, p));
    assert FragsSame(c.nodes, c'.nodes);
    forall x | x in c.slots && x != p && !IsEmptySlot(c, x) ensures x in c'.slots && c'.slots[x] == c.slots[x] {}
    forall x | x in c'.slots && !IsEmptySlot(c', x) ensures x in c.slots && x != p && c'.slots[x] == c.slots[x] {}
  }

  lemma EmptyAddedPrev(c: Private, q: Pc, e: NodeId, n: NodeId)
    requires q in c.slots && c.slots[q].kind == Live(e) && e in c.nodes && c.nodes[e].Empty?
    requires IsHole(c.slots, End(c.slots, q))
    ensures EmptyAdded(c, JoinedPrev(c, q, e), End(c.slots, q), n)
  {
    var c', p := JoinedPrev(c, q, e), End(c.slots, q);
    assert IsEmptySlot(c', q) && IsEmptySlot(c, q);
    assert FragsSame(c.nodes, c'.nodes);
    forall x | x in c.slots && x != p && !IsEmptySlot(c, x) ensures x in c'.slots && c'.slots[x] == c.slots[x] {}
    forall x | x in c'.slots && !IsEmptySlot(c', x) ensures x in c.slots && x != p && c'.slots[x] == c.slots[x] {}
  }

  /** An empty slot at the front of the list, as the program sees it and as a slot. */
  lemma FrontSlot(c: Private, out: set<NodeId>)
    requires Kempt(c, out) && |c.list| > 0 && c.list[0] !in out
    ensures c.fifo == Some(c.list[0]) && c.list[0] in c.nodes
    ensures NodeStart(c.nodes[c.list[0]]) in c.slots && c.slots[NodeStart(c.nodes[c.list[0]])] .kind == Live(c.list[0])
    ensures NodeSize(c.nodes[c.list[0]]) == c.slots[NodeStart(c.nodes[c.list[0]])].size
  {
    hide Ground, EmptiesFirst, NodeStart, NodeSize, LinksAt;
    SlotOf(c, out, c.list[0]);
  }

  /** Slots that touch are in the same unit, because units do not touch. */
  lemma TouchingUnit(c: Private, p: Pc, q: Pc)
    requires Ground(c.align, c.units, c.slots) && p in c.slots && q in c.slots && End(c.slots, p) == q
    ensures c.slots[p].unit == c.slots[q].unit
  {
    hide Ground;
    SlotIn(c, p);
    SlotIn(c, q);
    UnitsApart(c.units, c.slots[p].unit, c.slots[q].unit) by { SpreadOf(c); }
  }

  lemma SpreadOf(c: Private)
    requires Ground(c.align, c.units, c.slots)
    ensures Spread(c.units)
  {
  }

  /** Everything fifo_prepend_empty needs to know about the list's head. */
  lemma FrontKnown(c: Private, out: set<NodeId>, p: Pc)
    requires Kempt(c, out) && IsHole(c.slots, p) && forall m :: m in out ==> m in c.nodes && c.nodes[m].Frag?
    ensures c.fifo.Some? ==> c.fifo.value in c.nodes
    ensures 0 < c.slots[p].size
    ensures c.fifo.Some? && c.nodes[c.fifo.value].Empty? ==>
      var e := c.fifo.value;
      && var q := NodeStart(c.nodes[e]);
      && q in c.slots && c.slots[q].kind == Live(e) && NodeSize(c.nodes[e]) == c.slots[q].size
      && (End(c.slots, p) == q ==> c.slots[q].unit == c.slots[p].unit)
      && (End(c.slots, q) == p ==> c.slots[q].unit == c.slots[p].unit)
  {
    hide Ground, SlotsHold, EmptiesFirst, NodeStart, NodeSize, LinksAt, ListedAll;
    SlotIn(c, p);
    if |c.list| > 0 {
      assert LinksAt(c.nodes, c.list, 0);
      LinksKnown(c.nodes, c.fifo, c.list, 0);
      if c.nodes[c.list[0]].Empty? {
        FrontSlot(c, out);
        var q := NodeStart(c.nodes[c.list[0]]);
        if End(c.slots, p) == q { TouchingUnit(c, p, q); }
        if End(c.slots, q) == p { TouchingUnit(c, q, p); }
      }
    }
  }

  lemma FreshUnowned(c: Private, n: NodeId)
    requires SlotsHold(c.nodes, c.hdr, c.slots) && n !in c.nodes
    ensures forall x :: x in c.slots ==> c.slots[x].kind != Live(n)
  {
    hide NodeStart, NodeSize;
  }

  lemma MoreNodes(nodes: Nodes, n: NodeId, nodes': Nodes)
    requires NodesBelow(nodes, n) && nodes'.Keys <= nodes.Keys + {n}
    ensures NodesBelow(nodes', n + 1)
  {
  }

  lemma FewerNodes(nodes: Nodes, n: NodeId, nodes': Nodes)
    requires NodesBelow(nodes, n) && nodes'.Keys <= nodes.Keys
    ensures NodesBelow(nodes', n)
  {
  }

  lemma BelowNot(nodes: Nodes, n: NodeId)
    requires NodesBelow(nodes, n)
    ensures n !in nodes
  {
  }

  lemma UnownedFresh(c: Private, out: set<NodeId>, n: NodeId)
    requires Kempt(c, out) && n !in c.nodes
    ensures forall x :: x in c.slots ==> c.slots[x].kind != Live(n)
  {
    hide Ground, Threaded, EmptiesFirst, ListedAll, SlotsHold;
    FreshUnowned(c, n);
  }

  // ----- evicting a run of neighbours

  /** The nodes whose slots start in [lo, hi). */
  ghost function IdsIn(slots: Slots, lo: Pc, hi: Pc): set<NodeId> {
    set q | q in slots && lo <= q < hi && slots[q].kind.Live? :: slots[q].kind.f
  }

  /** The slots that start in [p, e) become one hole. */
  ghost function Collapse(slots: Slots, p: Pc, e: Pc): Slots
    requires p in slots && p <= e
  {
    (map x | x in slots && !(p <= x < e) :: slots[x])[p := Slot(e - p, slots[p].unit, Hole)]
  }

  ghost function Gone(slots: Slots, p: Pc, e: Pc): Slots
    requires p in slots && p <= e
  {
    if e == p then slots else Collapse(slots, p, e)
  }

  /** The nodes whose slots start in [p, e) are off the list and their slots are one hole; nothing
      else changed. */
  ghost predicate Evicted(c: Private, c': Private, p: Pc, e: Pc) {
    && p in c.slots && p <= e && c'.slots == Gone(c.slots, p, e)
    && c'.list == Keep(c.list, IdsIn(c.slots, p, e))
    && c'.units == c.units && c'.align == c.align && c'.hdr == c.hdr
    && FragsSame(c.nodes, c'.nodes) && NoNewFrags(c.nodes, c'.nodes) && c'.nodes.Keys <= c.nodes.Keys
  }

  lemma EvictNone(c: Private, p: Pc)
    requires p in c.slots
    ensures Evicted(c, c, p, p)
  {
    KeepAll(c.list);
    assert IdsIn(c.slots, p, p) == {};
  }

  /** Where the owner of a slot is on the list. */
  lemma IndexOf(c: Private, out: set<NodeId>, q: Pc) returns (k: nat)
    requires Kempt(c, out) && q in c.slots && c.slots[q].kind.Live?
    ensures k < |c.list| && c.list[k] == c.slots[q].kind.f
    ensures NodeAt(c.nodes, c.hdr, q, c.slots[q])
  {
    hide Ground, Threaded, EmptiesFirst, NodeStart, NodeSize;
    NodeOf(c, q);
    k :| 0 <= k < |c.list| && c.list[k] == c.slots[q].kind.f;
  }

  lemma GoneFirst(slots: Slots, p: Pc)
    requires Apart(slots) && p in slots && 0 < slots[p].size
    ensures SetKind(slots, p, Hole) == Gone(slots, p, End(slots, p))
  {
    assert forall x :: x in slots && p <= x < End(slots, p) ==> x == p;
  }

  lemma GoneMore(slots: Slots, p: Pc, q: Pc)
    requires Apart(slots) && p in slots && q in slots && p < q && 0 < slots[q].size && slots[q].unit == slots[p].unit
    ensures var s1 := SetKind(Collapse(slots, p, q), q, Hole);
      p in s1 && End(s1, p) == q && s1[p].kind.Hole? && s1[p].unit == s1[q].unit
      && MergeNext(s1, p) == Collapse(slots, p, End(slots, q))
  {
    assert forall x :: x in slots && q <= x < End(slots, q) ==> x == q;
  }

  /** The slots after one more neighbour is gone. */
  lemma GoneNext(slots: Slots, p: Pc, q: Pc)
    requires Apart(slots) && p in slots && q in slots && p <= q && 0 < slots[q].size && 0 < slots[p].size
    requires slots[q].unit == slots[p].unit
    ensures q in Gone(slots, p, q) && Gone(slots, p, q)[q] == slots[q]
    ensures var s1 := SetKind(Gone(slots, p, q), q, Hole);
      if q == p then s1 == Gone(slots, p, End(slots, q))
      else
        && p in s1 && End(s1, p) == q && s1[p].kind.Hole? && s1[p].unit == s1[q].unit
        && MergeNext(s1, p) == Gone(slots, p, End(slots, q))
  {
    hide Apart;
    if q == p { GoneFirst(slots, p); } else { GoneMore(slots, p, q); }
  }

  lemma IdsNext(slots: Slots, p: Pc, q: Pc)
    requires Apart(slots) && q in slots && p <= q && slots[q].kind.Live? && 0 < slots[q].size
    ensures IdsIn(slots, p, End(slots, q)) == IdsIn(slots, p, q) + {slots[q].kind.f}
  {
    assert forall x :: x in slots && q <= x < End(slots, q) ==> x == q;
  }

  lemma ListNext(c: Private, c1: Private, p: Pc, q: Pc, k: nat)
    requires Distinct(c.list) && Apart(c.slots) && q in c.slots && p <= q && c.slots[q].kind.Live?
    requires 0 < c.slots[q].size
    requires c1.list == Keep(c.list, IdsIn(c.slots, p, q)) && k < |c1.list| && c1.list[k] == c.slots[q].kind.f
    ensures Without(c1.list, k) == Keep(c.list, IdsIn(c.slots, p, End(c.slots, q)))
  {
    hide IdsIn, Apart;
    IdsNext(c.slots, p, q);
    KeepWithout(c.list, IdsIn(c.slots, p, q), k);
  }

  lemma DistinctList(c: Private, out: set<NodeId>)
    requires Kempt(c, out)
    ensures Distinct(c.list) && Apart(c.slots)
  {
    hide Ground, SlotsHold, EmptiesFirst, LinksAt, ListedAll;
    ApartSlots(c);
  }

  function FragsOf(nodes: Nodes, ids: set<NodeId>): set<NodeId> { set n | n in ids && n in nodes && nodes[n].Frag? }

  /** How many fragments have their slots in [lo, hi). */
  ghost function FragsIn(c: Private, lo: Pc, hi: Pc): nat { |FragsOf(c.nodes, IdsIn(c.slots, lo, hi))| }

  lemma NoneIn(c: Private, p: Pc)
    ensures FragsIn(c, p, p) == 0
  {
    assert IdsIn(c.slots, p, p) == {};
    assert FragsOf(c.nodes, {}) == {};
  }

  lemma SameIn(c: Private, p: Pc, e: Pc, e': Pc)
    requires IdsIn(c.slots, p, e) == IdsIn(c.slots, p, e')
    ensures FragsIn(c, p, e) == FragsIn(c, p, e')
  {
  }

  lemma OneMoreFrag(nodes: Nodes, ids: set<NodeId>, n: NodeId)
    requires n !in ids && n in nodes
    ensures |FragsOf(nodes, ids + {n})| == |FragsOf(nodes, ids)| + if nodes[n].Frag? then 1 else 0
  {
    assert FragsOf(nodes, ids + {n}) == FragsOf(nodes, ids) + if nodes[n].Frag? then {n} else {};
  }

  /** Evicting the slot at q evicts one fragment more, unless it was empty. */
  lemma EvictCount(c: Private, c1: Private, p: Pc, q: Pc, k: nat)
    requires Kempt(c, {}) && Evicting(c, c1, p, q) && k < |c1.list| && c1.list[k] == c.slots[q].kind.f
    ensures q in c.slots && c.slots[q].kind.Live? && c.slots[q].kind.f in c.nodes && c.slots[q].kind.f in c1.nodes
    ensures c1.nodes[c.slots[q].kind.f].Frag? <==> c.nodes[c.slots[q].kind.f].Frag?
    ensures FragsIn(c, p, End(c.slots, q)) == FragsIn(c, p, q) + if c.nodes[c.slots[q].kind.f].Frag? then 1 else 0
  {
    hide Kempt, Collapse, Keep, IdsIn, Gone, FragsOf;
    EvictingAt(c, c1, p, q);
    DistinctList(c, {});
    IdsNext(c.slots, p, q);
    var n := c.slots[q].kind.f;
    assert n in c1.list && n !in IdsIn(c.slots, p, q);
    assert c1.nodes[n].Frag? <==> c.nodes[n].Frag?;
    OneMoreFrag(c.nodes, IdsIn(c.slots, p, q), n);
  }

  /** The walk has evicted [p, q) and stands at the slot at q. */
  ghost predicate Evicting(c: Private, c1: Private, p: Pc, q: Pc) {
    && Evicted(c, c1, p, q) && q in c.slots && c.slots[q].unit == c.slots[p].unit && c.slots[q].kind.Live?
    && Kempt(c1, {})
  }

  lemma EvictingAt(c: Private, c1: Private, p: Pc, q: Pc)
    requires Kempt(c, {}) && Evicting(c, c1, p, q)
    ensures q in c1.slots && c1.slots[q] == c.slots[q] && NodeAt(c1.nodes, c1.hdr, q, c1.slots[q])
    ensures 0 < c.slots[q].size
    ensures End(c.slots, q) == c.units[c.slots[q].unit].cur ||
      (End(c.slots, q) in c.slots && c.slots[End(c.slots, q)].unit == c.slots[q].unit)
    ensures c.slots[q].unit in c.units && End(c.slots, q) <= c.units[c.slots[q].unit].cur
  {
    hide Threaded, EmptiesFirst, ListedAll, NodeAt, Ground, Apart, Collapse, Keep, IdsIn, FragsSame;
    SlotIn(c, q);
    SlotIn(c, p);
    ApartSlots(c);
    GoneNext(c.slots, p, q);
    NodeOf(c1, q);
  }

  lemma EvictStep(c: Private, c1: Private, c2: Private, p: Pc, q: Pc, k: nat)
    requires Kempt(c, {}) && Evicting(c, c1, p, q) && q in c1.slots
    requires k < |c1.list| && c1.list[k] == c.slots[q].kind.f && c2.list == Without(c1.list, k)
    requires c2.slots == SetKind(c1.slots, q, Hole) && Kempt(c2, {})
    requires c2.units == c.units && c2.align == c.align && c2.hdr == c.hdr && FragsSame(c1.nodes, c2.nodes)
    requires c2.nodes.Keys <= c1.nodes.Keys && NoNewFrags(c1.nodes, c2.nodes)
    ensures q != p ==> IsHole(c2.slots, p) && End(c2.slots, p) == q
    ensures q == p ==> Evicted(c, c2, p, End(c.slots, q))
    ensures q != p ==>
      && q in c2.slots && Evicted(c, c2.(slots := MergeNext(c2.slots, p)), p, End(c.slots, q))
      && Kempt(c2.(slots := MergeNext(c2.slots, p)), {})
  {
    hide Kempt, Collapse, Keep, IdsIn, FragsSame, NoNewFrags, Gone, MergeNext, Without;
    EvictingAt(c, c1, p, q);
    SizesAt(c, p);
    DistinctList(c, {});
    GoneNext(c.slots, p, q);
    ListNext(c, c1, p, q, k);
    FragsSameTrans(c.nodes, c1.nodes, c2.nodes);
    NoNewTrans(c.nodes, c1.nodes, c2.nodes);
    if q != p { MergeHoles(c2, {}, p); }
  }

  lemma SizesAt(c: Private, p: Pc)
    requires Kempt(c, {}) && p in c.slots
    ensures 0 < c.slots[p].size
  {
    hide Ground, SlotsHold, Threaded, EmptiesFirst, ListedAll;
    SlotIn(c, p);
  }

  /** The walk stops after the last slot that starts before p + need, or at the append point. */
  lemma RunIs(c: Private, u: UnitId, p: Pc, q: Pc, need: nat)
    requires Kempt(c, {}) && p in c.slots && q in c.slots && p <= q < p + need
    requires c.slots[q].unit == u == c.slots[p].unit && u in c.units
    requires p + need <= c.units[u].end
    requires End(c.slots, q) >= p + need || End(c.slots, q) == c.units[u].cur
    ensures IdsIn(c.slots, p, End(c.slots, q)) == IdsIn(c.slots, p, p + need)
    ensures forall x :: x in c.slots && p <= x < p + need ==> x <= q
  {
    hide Ground, SlotsHold, Threaded, EmptiesFirst, ListedAll;
    ApartSlots(c);
    SlotIn(c, q);
    forall x | x in c.slots && q < x < p + need ensures false {
      SlotIn(c, x);
      NextUnit(c, u, c.slots[x].unit);
    }
    forall x | x in c.slots && x < End(c.slots, q) ensures x <= q {}
    forall x | x in c.slots && x <= q ensures x < p + need && x < End(c.slots, q) {}
  }

  lemma NextUnit(c: Private, u: UnitId, v: UnitId)
    requires Ground(c.align, c.units, c.slots) && u in c.units && v in c.units
    ensures u == v || c.units[u].reserved < c.units[v].start || c.units[v].reserved < c.units[u].start
    ensures c.units[u].start <= c.units[u].cur <= c.units[u].end <= c.units[u].reserved
    ensures c.units[v].start <= c.units[v].reserved
  {
    hide Tiled, AllAligned;
  }

  /** No slot that starts in [p, p + need) may stay. */
  ghost predicate Evictable(c: Private, p: Pc, need: nat) {
    forall q :: q in c.slots && p <= q < p + need ==> !Pinned(c, q)
  }

  lemma EvictableIs(c: Private, p: Pc, need: nat)
    ensures Evictable(c, p, need) <==>
      forall q ::
        q in c.slots && p <= q < p + need && c.slots[q].kind.Live? && c.slots[q].kind.f in c.nodes ==>
        c.nodes[c.slots[q].kind.f].Frag? ==> !c.nodes[c.slots[q].kind.f].pinned
  {
  }

  /** The scan has found nothing pinned in [p, q) and stands at the slot at q. */
  ghost predicate Scanning(c: Private, p: Pc, q: Pc, need: nat) {
    && p in c.slots && q in c.slots && p <= q < p + need && c.slots[q].unit == c.slots[p].unit
    && c.slots[p].unit in c.units
    && c.slots[q].kind.Live? && p + need <= c.units[c.slots[p].unit].end
    && forall x :: x in c.slots && p <= x < q ==> !Pinned(c, x)
  }

  lemma ScanAt(c: Private, p: Pc, q: Pc, need: nat)
    requires Kempt(c, {}) && Scanning(c, p, q, need)
    ensures NodeAt(c.nodes, c.hdr, q, c.slots[q]) && 0 < c.slots[q].size
    ensures End(c.slots, q) <= c.units[c.slots[p].unit].cur
    ensures End(c.slots, q) == c.units[c.slots[q].unit].cur ||
      (End(c.slots, q) in c.slots && c.slots[End(c.slots, q)].unit == c.slots[q].unit)
  {
    hide Ground, Threaded, EmptiesFirst, ListedAll, NodeAt;
    SlotIn(c, q);
    NodeOf(c, q);
  }

  lemma ScanNext(c: Private, p: Pc, q: Pc, need: nat)
    requires Kempt(c, {}) && Scanning(c, p, q, need) && !Pinned(c, q) && NoHoles(c.slots)
    requires End(c.slots, q) in c.slots && c.slots[End(c.slots, q)].unit == c.slots[q].unit
    requires End(c.slots, q) < p + need
    ensures Scanning(c, p, End(c.slots, q), need) && NodeAt(c.nodes, c.hdr, End(c.slots, q), c.slots[End(c.slots, q)])
  {
    hide Ground, Threaded, EmptiesFirst, ListedAll, NodeAt, Pinned;
    ApartSlots(c);
    SlotIn(c, q);
    AllOwned(c.nodes, c.hdr, c.slots, End(c.slots, q));
  }

  lemma AllOwned(nodes: Nodes, hdr: Headers, slots: Slots, q: Pc)
    requires SlotsHold(nodes, hdr, slots) && NoHoles(slots) && q in slots
    ensures slots[q].kind.Live? && NodeAt(nodes, hdr, q, slots[q])
  {
    hide NodeStart, NodeSize;
  }

  lemma ScanDone(c: Private, p: Pc, q: Pc, need: nat)
    requires Kempt(c, {}) && Scanning(c, p, q, need) && !Pinned(c, q)
    requires End(c.slots, q) >= p + need || End(c.slots, q) == c.units[c.slots[p].unit].cur
    ensures Evictable(c, p, need)
  {
    hide Kempt, Pinned;
    RunIs(c, c.slots[p].unit, p, q, need);
  }

  lemma ScanStart(c: Private, p: Pc, need: nat)
    requires p in c.slots && c.slots[p].kind.Live? && c.slots[p].unit in c.units && 0 < need
    requires p + need <= c.units[c.slots[p].unit].end
    ensures Scanning(c, p, p, need)
  {
  }

  lemma ScanUnit(c: Private, p: Pc, q: Pc, need: nat)
    requires Scanning(c, p, q, need)
    ensures p in c.slots && q in c.slots && p <= q < p + need && c.slots[q].unit == c.slots[p].unit
    ensures c.slots[p].unit in c.units
  {
  }

  lemma ScanBlocked(c: Private, p: Pc, q: Pc, need: nat)
    requires Scanning(c, p, q, need) && Pinned(c, q)
    ensures !Evictable(c, p, need)
  {
  }

  lemma EvictAgain(c: Private, c1: Private, p: Pc, q: Pc)
    requires Kempt(c, {}) && NoHoles(c.slots) && p in c.slots && q in c.slots && p <= q
    requires c.slots[q].unit == c.slots[p].unit
    requires c.slots[q].unit in c.units ==> End(c.slots, q) != c.units[c.slots[q].unit].cur
    requires Evicted(c, c1, p, End(c.slots, q)) && Kempt(c1, {})
    ensures Evicting(c, c1, p, End(c.slots, q)) && NodeAt(c1.nodes, c1.hdr, End(c.slots, q), c.slots[End(c.slots, q)])
  {
    hide Ground, Threaded, EmptiesFirst, ListedAll, NodeAt, Evicted;
    SlotIn(c, q);
    AllOwned(c.nodes, c.hdr, c.slots, End(c.slots, q));
    EvictingAt(c, c1, p, End(c.slots, q));
  }

  // ----- what a replacement does

  /** A fragment that is not in the cache asks for need bytes. */
  ghost predicate Asking(c: Private, f: NodeId, need: nat) {
    && f in c.nodes && c.nodes[f].Frag? && f !in c.list && c.nodes[f].startPc == START_PC_ALIGNMENT
    && MIN_SLOT <= need && IsAlign(c.align) && Aligned(need, c.align)
    && c.nodes[f].size + PTR <= need <= c.nodes[f].size + 91 && c.nodes[f].extra == need - c.nodes[f].size
  }

  function StartingAt(n: Node, pc: Pc): Node { n.(startPc := pc) }

  /** FRAG_SIZE_ASSIGN: the spare bytes are kept in one byte. */
  function Resized(n: Node, val: nat): Node
    requires n.Frag? && n.size + Padding(n) <= val
  {
    n.(extra := (val - (n.size + Padding(n))) % 256)
  }

  /** Only the first unit of the cache may have room, and then enough of it to be useful. */
  ghost predicate RoomOk(units: Units, order: seq<UnitId>, minHole: nat) {
    && |order| > 0 && order[0] in units
    && (forall u :: u in units ==>
          (units[u].full <==> units[u].cur == units[u].end) && (u != order[0] ==> units[u].full))
    && (units[order[0]].full || units[order[0]].cur + 2 * minHole <= units[order[0]].end)
  }

  ghost predicate OthersSame(a: Nodes, b: Nodes, f: NodeId) {
    forall m :: m in a && a[m].Frag? && m != f ==> m in b && SameBody(a[m], b[m])
  }

  /** Where the bytes [p, e) of the evicted slots went: the new slot takes size of them; the rest,
      if it is worth keeping, is an empty slot.  When they were too few, the append point moved. */
  ghost predicate BytesGo(c: Private, c': Private, u: UnitId, p: Pc, e: Pc, need: nat, size: nat, minHole: nat) {
    && u in c.units && p <= e && need <= size
    && (if e < p + need then
          && e == c.units[u].cur && p + size <= c.units[u].end
          && c'.units == c.units[u := c.units[u].(cur := p + size, full := p + size == c.units[u].end)]
          && size == (if c.units[u].end - p - need < 2 * minHole then c.units[u].end - p else need)
        else
          && c'.units == c.units
          && (if e - p - need < minHole then size == e - p else size == need && EmptyBytes(c', p + need, e - p - need)))
  }

  /** Fragment f replaced the owners of the slots that start in the need bytes from p; the list lost
      those and got f at its end; every other fragment is untouched. */
  ghost predicate Replaced(c: Private, c': Private, f: NodeId, p: Pc, e: Pc, need: nat, minHole: nat) {
    && p in c.slots && p in c'.slots && c'.slots[p].kind == Live(f) && c'.slots[p].unit == c.slots[p].unit
    && BytesGo(c, c', c.slots[p].unit, p, e, need, c'.slots[p].size, minHole)
    && IdsIn(c.slots, p, e) == IdsIn(c.slots, p, p + need)
    && ListAfter(c, c', IdsIn(c.slots, p, p + need), f)
    && OthersSame(c.nodes, c'.nodes, f) && f in c.nodes && f in c'.nodes && c.nodes[f].Frag? && c'.nodes[f].Frag?
    && c'.nodes[f].size == c.nodes[f].size
    && c'.align == c.align
  }

  /** How large the new slot is: the evicted bytes, or what was asked for if the rest is worth keeping; and
      at the end of the unit the rest of it, unless there is room for more. */
  lemma ReplacedSize(c: Private, c': Private, f: NodeId, p: Pc, e: Pc, need: nat, minHole: nat)
    requires Replaced(c, c', f, p, e, need, minHole)
    ensures p in c.slots && c.slots[p].unit in c.units && p <= e && p in c'.slots && c'.slots[p].kind == Live(f)
    ensures p + need <= e ==> c'.slots[p].size == if e - p - need < minHole then e - p else need
    ensures var u := c.units[c.slots[p].unit];
      e < p + need ==> c'.slots[p].size == if u.end - p - need < 2 * minHole then u.end - p else need
  {
    hide OthersSame, ListAfter, EmptyBytes, IdsIn;
  }

  /** The list without out, with f at its end, and perhaps one more empty slot in front. */
  ghost predicate ListAfter(c: Private, c': Private, out: set<NodeId>, f: NodeId) {
    var rest := Keep(c.list, out) + [f];
    || c'.list == rest
    || (|c'.list| > 0 && c'.list == [c'.list[0]] + rest && c'.list[0] in c'.nodes && c'.nodes[c'.list[0]].Empty?)
  }

  /** After the run is evicted and its bytes are dealt with: a hole of f's size waits at p. */
  ghost predicate Fitted(c1: Private, c2: Private, f: NodeId, p: Pc) {
    && IsHole(c2.slots, p) && OnlyHole(c2.slots, p) && p in c1.slots && c2.slots[p].unit == c1.slots[p].unit
    && f in c1.nodes && c1.nodes[f].Frag? && f in c2.nodes && c2.nodes[f].Frag? && f !in c2.list
    && c2.nodes[f].startPc == START_PC_ALIGNMENT
    && c2.nodes[f].size == c1.nodes[f].size && c2.nodes[f].size + c2.nodes[f].extra == c2.slots[p].size
    && PTR <= c2.nodes[f].extra <= 255 && MIN_SLOT <= c2.slots[p].size
    && OthersSame(c1.nodes, c2.nodes, f) && c2.align == c1.align
    && (c2.list == c1.list
           || OneEmptyMore(c2, c1.list))
  }

  lemma EvictedOnly(c: Private, c1: Private, p: Pc, e: Pc)
    requires Evicted(c, c1, p, e) && NoHoles(c.slots) && p < e
    ensures IsHole(c1.slots, p) && c1.slots[p].size == e - p && c1.slots[p].unit == c.slots[p].unit
    ensures OnlyHole(c1.slots, p)
  {
    hide FragsSame, Keep, IdsIn;
  }

  lemma EvictedAsking(c: Private, c1: Private, p: Pc, e: Pc, f: NodeId, need: nat)
    requires Evicted(c, c1, p, e) && Asking(c, f, need)
    ensures Asking(c1, f, need) && c1.nodes[f].size == c.nodes[f].size
  {
    hide Aligned, Collapse, IdsIn;
    assert SameBody(c.nodes[f], c1.nodes[f]);
  }

  /** The new record of f once val bytes are its own. */
  lemma ResizeOk(c: Private, c': Private, f: NodeId, need: nat, val: nat, p: Pc)
    requires Asking(c, f, need) && need <= val <= need + 127
    requires c' == c.(nodes := c.nodes[f := Resized(c.nodes[f], val)])
    ensures f in c'.nodes && c'.nodes[f].Frag? && f in c.nodes && c.nodes[f].Frag?
    ensures Rewritten(c, c', f, p) && c'.nodes[f].size + c'.nodes[f].extra == val && PTR <= c'.nodes[f].extra <= 255
    ensures c'.nodes[f].startPc == START_PC_ALIGNMENT && c'.nodes[f].size == c.nodes[f].size
    ensures OthersSame(c.nodes, c'.nodes, f)
  {
    hide Aligned;
  }

  /** What is left of a unit after an aligned size is aligned too. */
  lemma RestAligned(c: Private, u: UnitId, size: nat)
    requires Kempt(c, {}) && u in c.units && IsAlign(c.align) && Aligned(size, c.align)
    requires c.units[u].cur + size <= c.units[u].end
    ensures Aligned(size + (c.units[u].end - c.units[u].cur - size), c.align)
  {
    hide SlotsHold, Threaded, EmptiesFirst, ListedAll, Tiled, Spread, Aligned;
    AlignedSum(c.units[u].end, c.units[u].cur, c.align);
  }

  /** A run of soFar bytes at p has been evicted for f. */
  ghost predicate Waiting(c: Private, f: NodeId, u: UnitId, p: Pc, soFar: nat, need: nat) {
    && IsHole(c.slots, p) && c.slots[p].size == soFar && c.slots[p].unit == u && OnlyHole(c.slots, p) && u in c.units
    && Asking(c, f, need) && p + need <= c.units[u].end
  }

  lemma WaitingUnit(c: Private, f: NodeId, u: UnitId, p: Pc, soFar: nat, need: nat)
    requires Waiting(c, f, u, p, soFar, need)
    ensures u in c.units && f in c.nodes && p in c.slots
  {
    hide OnlyHole;
  }

  lemma AskingNode(c: Private, f: NodeId, need: nat)
    requires Asking(c, f, need)
    ensures f in c.nodes && c.nodes[f].Frag? && f !in c.list && c.nodes[f].size + Padding(c.nodes[f]) <= need
    ensures NodeSize(c.nodes[f]) == need
    ensures MIN_SLOT <= need && IsAlign(c.align) && Aligned(need, c.align)
  {
    hide Aligned;
  }

  lemma RestNeeded(c: Private, f: NodeId, u: UnitId, p: Pc, soFar: nat, need: nat)
    requires Kempt(c, {}) && Waiting(c, f, u, p, soFar, need) && soFar < need
    ensures IsAlign(c.align) && Aligned(need - soFar, c.align)
    ensures f in c.nodes && c.nodes[f].Frag? && f !in c.list && c.nodes[f].size + Padding(c.nodes[f]) <= need
  {
    hide SlotsHold, Threaded, EmptiesFirst, ListedAll, Tiled, Spread, Aligned, OnlyHole;
    AlignedSum(need, c.slots[p].size, c.align);
  }

  /** What would be left of the unit after size more bytes, if that is too small to be useful. */
  function UnusableRest(u: Unit, size: nat, minHole: nat): int {
    if u.end - u.cur - size < 2 * minHole then u.end - u.cur - size else 0
  }

  /** The append point of unit u passes size bytes, and extra bytes that would be too small a rest; they
      are a hole. */
  ghost predicate EndTaken(
    units: Units, units': Units, slots: Slots, slots': Slots, u: UnitId, size: nat, extra: nat, minHole: nat)
  {
    && u in units && u in units' && units[u].cur + size <= units[u].end && units[u].cur !in slots
    && slots' == slots[units[u].cur := Slot(size + extra, u, Hole)]
    && extra == UnusableRest(units[u], size, minHole)
    && units' == units[u := units[u].(cur := units[u].cur + size + extra, full := units'[u].full)]
    && (units'[u].full <==> units[u].full || units[u].end - units[u].cur - size < 2 * minHole)
  }

  lemma StretchTakes(c: Private, u: UnitId, size: nat, extra: nat, full: bool, minHole: nat)
    requires u in c.units && c.units[u].cur + size <= c.units[u].end && c.units[u].cur !in c.slots
    requires extra == UnusableRest(c.units[u], size, minHole)
    requires full <==> c.units[u].full || c.units[u].end - c.units[u].cur - size < 2 * minHole
    ensures var c' := Stretched(c, u, size + extra, full);
      EndTaken(c.units, c'.units, c.slots, c'.slots, u, size, extra, minHole)
  {
  }

  /** The bytes taken from the end of the unit join the hole before them. */
  lemma TailJoins(
    c: Private, c1: Private, f: NodeId, u: UnitId, p: Pc, soFar: nat, need: nat, extra: nat, minHole: nat)
    requires Waiting(c, f, u, p, soFar, need) && soFar < need && p + soFar == c.units[u].cur
    requires EndTaken(c.units, c1.units, c.slots, c1.slots, u, need - soFar, extra, minHole) && c1.align == c.align
    requires c1.nodes == c.nodes && c1.list == c.list && Kempt(c1, {})
    ensures p in c1.slots && End(c1.slots, p) in c1.slots
    ensures var s := MergeNext(c1.slots, p);
      Kempt(c1.(slots := s), {}) && IsHole(s, p) && OnlyHole(s, p) && s[p] == Slot(need + extra, u, Hole)
    ensures Asking(c1.(slots := MergeNext(c1.slots, p)), f, need)
  {
    hide Kempt, Aligned;
    MergeHoles(c1, {}, p);
  }

  lemma StretchFits(
    c: Private, c1: Private, c2: Private, order: seq<UnitId>, f: NodeId, u: UnitId, p: Pc, soFar: nat, need: nat,
    extra: nat, minHole: nat)
    requires Waiting(c, f, u, p, soFar, need) && soFar < need && p + soFar == c.units[u].cur
    requires RoomOk(c.units, order, minHole) && 0 < minHole
    requires EndTaken(c.units, c1.units, c.slots, c1.slots, u, need - soFar, extra, minHole)
    requires c2.units == c1.units && c2.align == c.align && c2.list == c.list && OthersSame(c.nodes, c2.nodes, f)
    requires IsHole(c2.slots, p) && OnlyHole(c2.slots, p) && c2.slots[p] == Slot(need + extra, u, Hole)
    requires f in c2.nodes && c2.nodes[f].Frag? && c2.nodes[f].size + c2.nodes[f].extra == need + extra
    requires PTR <= c2.nodes[f].extra <= 255
    requires f in c.nodes && c2.nodes[f].startPc == START_PC_ALIGNMENT && c.nodes[f].Frag?
    requires c2.nodes[f].size == c.nodes[f].size
    ensures Fitted(c, c2, f, p) && BytesGo(c, c2, u, p, p + soFar, need, need + extra, minHole)
    ensures RoomOk(c2.units, order, minHole)
  {
    hide Aligned, OnlyHole, OthersSame;
    assert c.units[u].full <==> c.units[u].cur == c.units[u].end;
    assert u == order[0];
    assert c2.units[u].cur == p + need + extra;
    assert c2.units[u].full <==> p + need + extra == c.units[u].end;
  }

  lemma CutParts(slots: Slots, p: Pc, n: nat)
    requires IsHole(slots, p) && OnlyHole(slots, p) && 0 < n < slots[p].size
    ensures var s := Cut(slots, p, n);
      && IsHole(s, p) && s[p] == Slot(n, slots[p].unit, Hole) && IsHole(s, p + n) && s[p + n].size == slots[p].size - n
      && (forall x :: x in s && s[x].kind.Hole? ==> x == p || x == p + n)
  {
  }

  lemma SplitFits(c: Private, c1: Private, c2: Private, f: NodeId, u: UnitId, p: Pc, soFar: nat, need: nat, n: NodeId)
    requires Waiting(c, f, u, p, soFar, need) && need < soFar
    requires c1.nodes == c.nodes && c1.units == c.units && c1.align == c.align && c1.list == c.list
    requires IsHole(c1.slots, p) && c1.slots[p] == Slot(need, u, Hole) && IsHole(c1.slots, p + need)
    requires c1.slots[p + need].size == soFar - need
    requires forall x :: x in c1.slots && c1.slots[x].kind.Hole? ==> x == p || x == p + need
    requires EmptyAdded(c1, c2, p + need, n) && n !in c1.nodes
    ensures Fitted(c, c2, f, p) && EmptyBytes(c2, p + need, soFar - need) && c2.units == c.units
    ensures c2.slots[p].size == need
  {
    hide Aligned, EmptyBytes;
    assert SameBody(c1.nodes[f], c2.nodes[f]);
    assert !IsEmptySlot(c1, p);
    assert p in c2.slots && c2.slots[p] == c1.slots[p];
    forall x | x in c2.slots && c2.slots[x].kind.Hole? ensures x == p {
      assert !IsEmptySlot(c2, x);
    }
  }

  // ----- the fragment takes its place

  /** The record of f leads to the hole at p once it starts there. */
  lemma PlaceFits(c1: Private, c2: Private, c3: Private, f: NodeId, p: Pc)
    requires Fitted(c1, c2, f, p) && Kempt(c2, {})
    requires c3 == c2.(hdr := c2.hdr[p := f], nodes := c2.nodes[f := StartingAt(c2.nodes[f], p + PTR)])
    ensures FitsHole(c3.nodes, c3.hdr, c3.slots, p, f)
  {
    hide Kempt, OthersSame;
    assert p % 4 == 0 by { WordStart(c2, p); }
  }

  lemma WordStart(c: Private, p: Pc)
    requires Kempt(c, {}) && p in c.slots
    ensures p % 4 == 0
  {
    hide SlotsHold, Threaded, EmptiesFirst, ListedAll, Tiled, Spread, Aligned;
    AlignedWord(p, c.align);
  }

  lemma QueueFits(a: Nodes, b: Nodes, hdr: Headers, slots: Slots, p: Pc, f: NodeId)
    requires FitsHole(a, hdr, slots, p, f) && SameBodies(a, b)
    ensures FitsHole(b, hdr, slots, p, f)
  {
    assert SameBody(a[f], b[f]);
  }

  /** Eviction, fitting and placing together are the replacement. */
  lemma ReplaceDone(c: Private, c1: Private, c2: Private, c4: Private, f: NodeId, p: Pc, e: Pc, need: nat, minHole: nat)
    requires NoHoles(c.slots) && Evicted(c, c1, p, e) && p < e && IdsIn(c.slots, p, e) == IdsIn(c.slots, p, p + need)
    requires f in c.nodes && c.nodes[f].Frag?
    requires Fitted(c1, c2, f, p) && BytesGo(c1, c2, c.slots[p].unit, p, e, need, c2.slots[p].size, minHole)
    requires c4.slots == SetKind(c2.slots, p, Live(f)) && c4.units == c2.units && c4.align == c2.align
    requires c4.list == c2.list + [f]
    requires SameBodies(StartAt(c2.nodes, f, p), c4.nodes)
    ensures Replaced(c, c4, f, p, e, need, minHole) && NoHoles(c4.slots)
  {
    hide IdsIn, Keep, EmptyBytes, FragsSame, Collapse;
    EvictedOnly(c, c1, p, e);
    ReplaceNodes(c.nodes, c1.nodes, c2.nodes, c4.nodes, f, p);
    if e >= p + need && e - p - need >= minHole { EmptyStill(c2, c4, f, p, p + need, e - p - need); }
    assert ListAfter(c, c4, IdsIn(c.slots, p, p + need), f) by {
      if c2.list != c1.list { assert c4.list == [c2.list[0]] + (c1.list + [f]); }
    }
    assert BytesGo(c, c4, c.slots[p].unit, p, e, need, c4.slots[p].size, minHole);
  }

  function StartAt(nodes: Nodes, f: NodeId, p: Pc): Nodes
    requires f in nodes
  {
    nodes[f := StartingAt(nodes[f], p + PTR)]
  }

  lemma ReplaceNodes(n0: Nodes, n1: Nodes, n2: Nodes, n4: Nodes, f: NodeId, p: Pc)
    requires f in n0 && n0[f].Frag? && FragsSame(n0, n1) && OthersSame(n1, n2, f) && f in n2 && n2[f].Frag? && f in n1
    requires n2[f].size == n1[f].size
    requires n1[f].Frag?
    requires SameBodies(StartAt(n2, f, p), n4)
    ensures OthersSame(n0, n4, f) && f in n4 && n4[f].Frag? && n4[f].size == n0[f].size
    ensures forall m :: m in n2 && n2[m].Empty? ==> m in n4 && n4[m].Empty?
  {
    var n3 := StartAt(n2, f, p);
    assert SameBody(n0[f], n1[f]) && SameBody(n3[f], n4[f]);
    forall m | m in n0 && n0[m].Frag? && m != f ensures m in n4 && SameBody(n0[m], n4[m]) {
      assert SameBody(n3[m], n4[m]);
    }
    forall m | m in n2 && n2[m].Empty? ensures m in n4 && n4[m].Empty? {
      assert SameBody(n3[m], n4[m]);
    }
  }

  lemma EmptyStill(c2: Private, c4: Private, f: NodeId, p: Pc, a: Pc, size: nat)
    requires EmptyBytes(c2, a, size) && IsHole(c2.slots, p) && c4.slots == SetKind(c2.slots, p, Live(f))
    requires forall m :: m in c2.nodes && c2.nodes[m].Empty? ==> m in c4.nodes && c4.nodes[m].Empty?
    ensures EmptyBytes(c4, a, size)
  {
    var x: Pc :| IsEmptySlot(c2, x) && x <= a && a + size <= x + c2.slots[x].size;
    assert IsEmptySlot(c4, x);
  }

  lemma FittedNode(c1: Private, c2: Private, f: NodeId, p: Pc)
    requires Fitted(c1, c2, f, p)
    ensures f in c2.nodes && c2.nodes[f].Frag? && f !in c2.list && Vacant(c2.slots, p) && p in c2.slots
  {
    hide OthersSame, OnlyHole;
  }

  lemma RunGone(c: Private, c1: Private, f: NodeId, u: UnitId, p: Pc, soFar: nat, need: nat)
    requires Evicted(c, c1, p, p + soFar) && NoHoles(c.slots) && 0 < soFar && Asking(c, f, need)
    requires p in c.slots && c.slots[p].unit == u && u in c.units && p + need <= c.units[u].end
    ensures Waiting(c1, f, u, p, soFar, need) && c1.units == c.units && c1.nodes.Keys <= c.nodes.Keys
    ensures f in c.nodes && c.nodes[f].Frag?
  {
    hide Asking, NoHoles, OnlyHole, Collapse, Keep, IdsIn, FragsSame;
    EvictedOnly(c, c1, p, p + soFar);
    EvictedAsking(c, c1, p, p + soFar, f, need);
    AskingNode(c, f, need);
  }

  lemma SettleBelow(n2: Nodes, n4: Nodes, f: NodeId, p: Pc, n: NodeId)
    requires f in n2 && SameBodies(StartAt(n2, f, p), n4) && NodesBelow(n2, n)
    ensures NodesBelow(n4, n)
  {
    assert StartAt(n2, f, p).Keys == n2.Keys;
  }

  // ----- which slots an insertion may take over

  /** The slot of node n can be taken over: the unit goes on for need bytes, all deletable. */
  ghost predicate CanTake(c: Private, n: NodeId, need: nat) {
    && n in c.nodes && NodeStart(c.nodes[n]) in c.slots
    && var p := NodeStart(c.nodes[n]);
      c.slots[p].unit in c.units && p + need <= c.units[c.slots[p].unit].end && Evictable(c, p, need)
  }

  /** None of the members i to j of the list can be taken over. */
  ghost predicate NoneCan(c: Private, i: nat, j: nat, need: nat) {
    forall x :: i <= x < j && x < |c.list| ==> !CanTake(c, c.list[x], need)
  }

  lemma NoneMore(c: Private, i: nat, j: nat, need: nat)
    requires NoneCan(c, i, j, need) && j < |c.list| && !CanTake(c, c.list[j], need)
    ensures NoneCan(c, i, j + 1, need)
  {
    hide CanTake;
  }

  /** What the walk along the list sees at its k-th member. */
  lemma MemberAt(c: Private, k: nat, p: Pc)
    requires Kempt(c, {}) && k < |c.list| && c.list[k] in c.nodes && p == NodeStart(c.nodes[c.list[k]])
    ensures c.nodes[c.list[k]].next == NextOf(c.list, k)
    ensures p in c.slots && c.slots[p].kind == Live(c.list[k]) && c.slots[p].unit in c.units
    ensures c.units[c.slots[p].unit].start <= c.nodes[c.list[k]].startPc < c.units[c.slots[p].unit].reserved
    ensures c.units[c.slots[p].unit].start <= p <= c.units[c.slots[p].unit].end
  {
    hide Ground, EmptiesFirst, LinksAt;
    LinksKnown(c.nodes, c.fifo, c.list, k);
    SlotOf(c, {}, c.list[k]);
    SlotIn(c, p);
  }

  lemma MemberKnown(c: Private, k: nat)
    requires Kempt(c, {}) && k < |c.list|
    ensures c.list[k] in c.nodes && 0 <= NodeStart(c.nodes[c.list[k]])
  {
    hide Ground, EmptiesFirst, LinksAt;
    SlotOf(c, {}, c.list[k]);
  }

  lemma FirstMember(c: Private)
    requires Kempt(c, {})
    ensures c.fifo == HeadOf(c.list)
  {
    hide Ground, SlotsHold, EmptiesFirst, ListedAll, LinksAt;
  }

  lemma UnitIs(c: Private, pc: Pc, u: UnitId)
    requires Kempt(c, {}) && u in c.units && Reserves(c.units[u], pc)
    ensures forall v :: v in c.units && Reserves(c.units[v], pc) ==> v == u
  {
    hide SlotsHold, Threaded, EmptiesFirst, ListedAll, Tiled, AllAligned, UnitsOk;
  }

  lemma NoneYet(c: Private, i: nat, need: nat)
    ensures NoneCan(c, i, i, need)
  {
  }

  // ----- the end of the first unit

  /** Fragment f took need bytes at the append point, or all that was left of the unit if the rest
      would have been too small. */
  ghost predicate Appended(c: Private, c': Private, f: NodeId, u: UnitId, need: nat, minHole: nat) {
    && u in c.units && c.units[u].cur in c'.slots && c.units[u].cur !in c.slots
    && TailTaken(c, c', f, u, c.units[u].cur, need, c'.slots[c.units[u].cur].size, minHole)
    && OthersSame(c.nodes, c'.nodes, f) && f in c.nodes && f in c'.nodes && c.nodes[f].Frag? && c'.nodes[f].Frag?
    && c'.nodes[f].size == c.nodes[f].size
    && c'.align == c.align
  }

  ghost predicate TailTaken(c: Private, c': Private, f: NodeId, u: UnitId, p: Pc, need: nat, size: nat, minHole: nat)
    requires u in c.units
  {
    && c'.slots == c.slots[p := Slot(size, u, Live(f))] && c'.list == c.list + [f]
    && need <= size && p + size <= c.units[u].end
    && size == (if c.units[u].end - p - need < 2 * minHole then c.units[u].end - p else need)
    && c'.units == c.units[u := c.units[u].(cur := p + size, full := p + size == c.units[u].end)]
  }

  lemma EndVacant(c: Private, u: UnitId)
    requires Kempt(c, {}) && u in c.units
    ensures c.units[u].cur !in c.slots && Vacant(c.slots, c.units[u].cur) && c.units[u].cur % 4 == 0
  {
    hide SlotsHold, Threaded, EmptiesFirst, ListedAll, Ground;
    if c.units[u].cur in c.slots {
      SlotIn(c, c.units[u].cur);
      NextUnit(c, u, c.slots[c.units[u].cur].unit);
    }
    CurWord(c, u);
  }

  lemma CurWord(c: Private, u: UnitId)
    requires Ground(c.align, c.units, c.slots) && u in c.units
    ensures c.units[u].cur % 4 == 0
  {
    hide Tiled, Spread, Aligned;
    AlignedWord(c.units[u].cur, c.align);
  }

  /** The record of f after it was placed at p and given need + extra bytes. */
  lemma PlacedResize(c0: Private, c2: Private, f: NodeId, u: UnitId, p: Pc, need: nat, extra: nat, minHole: nat)
    requires Asking(c0, f, need) && minHole <= 64 && p % 4 == 0
    requires c2.nodes == c0.nodes[f := StartingAt(c0.nodes[f], p + PTR)] && c2.list == c0.list && p in c2.hdr
    requires c2.hdr[p] == f
    requires EndTaken(c0.units, c2.units, c0.slots, c2.slots, u, need, extra, minHole) && p == c0.units[u].cur
    ensures f in c2.nodes && c2.nodes[f].Frag? && c2.nodes[f].size + Padding(c2.nodes[f]) <= need + extra
    ensures f !in c2.list && Vacant(c2.slots, p)
    ensures var n3 := c2.nodes[f := Resized(c2.nodes[f], need + extra)];
      && FitsHole(n3, c2.hdr, c2.slots, p, f) && OthersSame(c0.nodes, n3, f) && n3[f].Frag?
      && n3[f].size == c0.nodes[f].size
      && Rewritten(c2, c2.(nodes := n3), f, p) && n3.Keys == c0.nodes.Keys
      && (extra == 0 ==> n3 == c2.nodes)
  {
    hide Aligned;
    var n := c2.nodes[f];
    assert n.size == c0.nodes[f].size && n.extra == c0.nodes[f].extra && n.startPc == p + PTR && Padding(n) == 0;
    assert Resized(n, need + extra).size == n.size && Resized(n, need + extra).extra == need + extra - n.size;
    if extra == 0 { assert Resized(n, need) == n; }
  }

  lemma AppendDone(
    c0: Private, c2: Private, c3: Private, c4: Private, order: seq<UnitId>, f: NodeId, u: UnitId, need: nat, extra: nat,
    minHole: nat, n: NodeId)
    requires NoHoles(c0.slots) && RoomOk(c0.units, order, minHole) && NodesBelow(c0.nodes, n) && 0 < minHole
    requires |order| > 0 && u == order[0] && 0 < need
    requires EndTaken(c0.units, c2.units, c0.slots, c2.slots, u, need, extra, minHole)
    requires c3.slots == c2.slots && c3.units == c2.units
    requires f in c0.nodes && c0.nodes[f].Frag? && f in c3.nodes && c3.nodes[f].Frag?
    requires c3.nodes[f].size == c0.nodes[f].size
    requires OthersSame(c0.nodes, c3.nodes, f) && c3.nodes.Keys == c0.nodes.Keys && SameBodies(c3.nodes, c4.nodes)
    requires c4.align == c0.align
    requires c4.units == c3.units && c4.slots == SetKind(c3.slots, c0.units[u].cur, Live(f)) && c4.list == c0.list + [f]
    ensures Appended(c0, c4, f, u, need, minHole) && NoHoles(c4.slots) && RoomOk(c4.units, order, minHole)
    ensures NodesBelow(c4.nodes, n)
  {
    hide NodesBelow;
    AppendNodes(c0.nodes, c3.nodes, c4.nodes, f);
    FewerNodes(c0.nodes, n, c4.nodes);
    assert c0.units[u].full <==> c0.units[u].cur == c0.units[u].end;
    assert c4.slots == c0.slots[c0.units[u].cur := Slot(need + extra, u, Live(f))];
  }

  lemma AppendNodes(n0: Nodes, n3: Nodes, n4: Nodes, f: NodeId)
    requires OthersSame(n0, n3, f) && SameBodies(n3, n4) && f in n3 && n3[f].Frag?
    ensures OthersSame(n0, n4, f) && f in n4 && n4[f].Frag? && n4[f].size == n3[f].size
  {
    assert SameBody(n3[f], n4[f]);
    forall m | m in n0 && n0[m].Frag? && m != f ensures m in n4 && SameBody(n0[m], n4[m]) {
      assert SameBody(n3[m], n4[m]);
    }
  }

  // ----- adding a fragment

  /** How a fragment was added: at the end of the first unit, or in place of the k-th member of the
      list, at p, with the slots up to e evicted. */
  datatype Way = AtEnd | TakeOver(k: nat, p: Pc, e: Pc)

  /** No empty slot can be taken over. */
  ghost predicate NoEmptyCan(c: Private, need: nat) {
    forall x :: 0 <= x < |c.list| && c.list[x] in c.nodes && c.nodes[c.list[x]].Empty? ==> !CanTake(c, c.list[x], need)
  }

  predicate EndFits(units: Units, order: seq<UnitId>, need: nat) {
    |order| > 0 && order[0] in units && !units[order[0]].full && units[order[0]].end - units[order[0]].cur >= need
  }

  /** The first member of the list that can be taken over makes way, unless that is a fragment and
      the first unit has room at its end. */
  ghost predicate Added(c: Private, c': Private, order: seq<UnitId>, f: NodeId, need: nat, minHole: nat, how: Way) {
    match how
    case AtEnd => NoEmptyCan(c, need) && EndFits(c.units, order, need) && Appended(c, c', f, order[0], need, minHole)
    case TakeOver(k, p, e) =>
      && k < |c.list| && NoneCan(c, 0, k, need) && CanTake(c, c.list[k], need) && c.list[k] in c.nodes
      && p == NodeStart(c.nodes[c.list[k]]) && Replaced(c, c', f, p, e, need, minHole)
      && (c.nodes[c.list[k]].Frag? ==> NoEmptyCan(c, need) && !EndFits(c.units, order, need))
  }

  /** Removing f from the list makes no record that of a fragment. */
  lemma RemovedKinds(a: Nodes, b: Nodes, f: NodeId)
    requires f in a && (a[f].Empty? ==> b.Keys == a.Keys - {f}) && (a[f].Frag? ==> SameBodies(a, b)) && b.Keys <= a.Keys
    requires forall n :: n in a && n != f ==> n in b && SameBody(a[n], b[n])
    ensures NoNewFrags(a, b)
  {
    forall m | m in b && b[m].Frag? ensures m in a && a[m].Frag? {
      assert m in a;
      assert SameBody(a[m], b[m]);
    }
  }

  /** What an insertion does to the counters of the working set: the fragments that made way are counted,
      and whether the new one had been deleted before. */
  ghost function Counted(s: W.WSet, c: Private, need: nat, how: Way, regenerated: bool): W.WSet {
    match how
    case AtEnd => s
    case TakeOver(k, p, e) => W.Replacing(s, FragsIn(c, p, p + need), regenerated)
  }

  ghost function MemberStart(c: Private, k: nat): (p: Pc)
    requires Kempt(c, {}) && k < |c.list|
    ensures c.list[k] in c.nodes && p == NodeStart(c.nodes[c.list[k]])
  {
    MemberKnown(c, k);
    NodeStart(c.nodes[c.list[k]])
  }

  lemma EmptiesTried(c: Private, k: nat, need: nat)
    requires Kempt(c, {}) && NoneCan(c, 0, k, need) && k <= |c.list|
    requires k < |c.list| ==> c.list[k] in c.nodes && c.nodes[c.list[k]].Frag?
    ensures NoEmptyCan(c, need)
  {
    hide Ground, SlotsHold, Threaded, ListedAll, CanTake;
  }

  lemma RoomUnit(units: Units, order: seq<UnitId>, minHole: nat)
    requires RoomOk(units, order, minHole)
    ensures |order| > 0 && order[0] in units
  {
  }

  lemma NoneJoin(c: Private, i: nat, j: nat, k: nat, need: nat)
    requires NoneCan(c, i, j, need) && NoneCan(c, j, k, need)
    ensures NoneCan(c, i, k, need)
  {
    hide CanTake;
  }

  // ----- removing a fragment

  /** Fragment f is gone from the list and from p, where its bytes are empty; every other fragment
      is where it was. */
  ghost predicate RemovedFrag(c: Private, c': Private, f: NodeId, p: Pc) {
    && p in c.slots && EmptyBytes(c', p, c.slots[p].size) && SlotsKept(c, c', p)
    && (c'.list == Keep(c.list, {f})
           || OneEmptyMore(c', Keep(c.list, {f})))
    && FragsSame(c.nodes, c'.nodes) && c'.units == c.units && c'.align == c.align
  }

  lemma SlotOfNode(c: Private, p: Pc)
    requires Kempt(c, {}) && p in c.slots && c.slots[p].kind.Live?
    ensures c.slots[p].kind.f in c.nodes && NodeStart(c.nodes[c.slots[p].kind.f]) == p
    ensures NodeSize(c.nodes[c.slots[p].kind.f]) == c.slots[p].size
    ensures PTR < c.slots[p].size
  {
    hide Ground, Threaded, EmptiesFirst, ListedAll;
    NodeOf(c, p);
  }

  lemma OutIndex(c: Private, f: NodeId) returns (k: nat)
    requires Kempt(c, {f})
    ensures k < |c.list| && c.list[k] == f
  {
    hide Ground, SlotsHold, Threaded, EmptiesFirst, Lives;
    k :| 0 <= k < |c.list| && c.list[k] == f;
  }

  lemma {:induction false} KeepOne(l: seq<NodeId>, k: nat)
    requires Distinct(l) && k < |l|
    ensures Keep(l, {l[k]}) == Without(l, k)
  {
    KeepAll(l);
    KeepWithout(l, {}, k);
    assert {} + {l[k]} == {l[k]};
  }

  lemma RemovedList(l: seq<NodeId>, l2: seq<NodeId>, n: NodeId, f: NodeId, k: nat)
    requires Distinct(l) && Distinct(l2) && (l2 == l || l2 == [n] + l) && k < |l2| && l2[k] == f && n != f
    ensures Without(l2, k) == if l2 == l then Keep(l, {f}) else [n] + Keep(l, {f})
  {
    hide Distinct, Keep;
    if l2 == l {
      KeepOne(l, k);
    } else {
      assert l2[k] == l[k - 1];
      DistinctRest(l2);
      assert l2[1..] == l;
      KeepOne(l, k - 1);
      assert Without(l2, k) == [n] + Without(l, k - 1);
    }
  }

  lemma DistinctRest(l: seq<NodeId>)
    requires Distinct(l) && |l| > 0
    ensures Distinct(l[1..])
  {
  }

  lemma EmptyStays(c2: Private, c3: Private, a: Pc, size: nat)
    requires EmptyBytes(c2, a, size) && c3.slots == c2.slots
    requires forall m :: m in c2.nodes && c2.nodes[m].Empty? ==> m in c3.nodes && c3.nodes[m].Empty?
    ensures EmptyBytes(c3, a, size)
  {
    var x: Pc :| IsEmptySlot(c2, x) && x <= a && a + size <= x + c2.slots[x].size;
    assert IsEmptySlot(c3, x);
  }

  lemma KeptAgain(c0: Private, c1: Private, c2: Private, c3: Private, p: Pc)
    requires p in c0.slots && c1.nodes == c0.nodes && c1.slots == SetKind(c0.slots, p, Hole) && SlotsKept(c1, c2, p)
    requires c3.slots == c2.slots
    requires c0.slots[p].kind.Live? && c0.slots[p].kind.f in c0.nodes && c0.nodes[c0.slots[p].kind.f].Frag?
    requires SameBodies(c2.nodes, c3.nodes)
    ensures SlotsKept(c0, c3, p)
  {
    forall x ensures IsEmptySlot(c2, x) <==> IsEmptySlot(c3, x) {
      if x in c2.slots && c2.slots[x].kind.Live? && c2.slots[x].kind.f in c2.nodes {
        assert SameBody(c2.nodes[c2.slots[x].kind.f], c3.nodes[c2.slots[x].kind.f]);
      }
    }
    forall x ensures x != p ==> (IsEmptySlot(c0, x) <==> IsEmptySlot(c1, x)) {}
  }

  lemma RemoveDone(c0: Private, c1: Private, c2: Private, c3: Private, f: NodeId, p: Pc, n: NodeId, k: nat, m: NodeId)
    requires Kempt(c0, {}) && Kempt(c2, {f}) && NoHoles(c0.slots) && p in c0.slots && c0.slots[p].kind == Live(f)
    requires f in c0.nodes && c0.nodes[f].Frag?
    requires c1 == c0.(slots := SetKind(c0.slots, p, Hole)) && EmptyAdded(c1, c2, p, n) && n !in c0.nodes
    requires NodesBelow(c2.nodes, m)
    requires k < |c2.list| && c2.list[k] == f && c3.list == Without(c2.list, k) && f in c2.nodes
    requires c3.slots == c2.slots && c3.units == c2.units && c3.align == c2.align
    requires (c2.nodes[f].Frag? ==> SameBodies(c2.nodes, c3.nodes))
    ensures RemovedFrag(c0, c3, f, p) && NoHoles(c3.slots) && NodesBelow(c3.nodes, m)
  {
    hide Kempt, EmptyBytes, Without, SlotsKept, SameBodies, NodesBelow, Keep;
    assert SameBody(c1.nodes[f], c2.nodes[f]);
    DistinctList(c0, {});
    DistinctList(c2, {f});
    RemovedList(c0.list, c2.list, n, f, k);
    BodiesStay(c2.nodes, c3.nodes, m);
    EmptyStays(c2, c3, p, c0.slots[p].size);
    if c2.list != c0.list { assert c3.list == [n] + Keep(c0.list, {f}) && c3.list[0] == n; }
    KeptAgain(c0, c1, c2, c3, p);
    FragsSameTrans(c0.nodes, c2.nodes, c3.nodes);
    HolesGone(c1, c2, p);
  }

  lemma BodiesStay(a: Nodes, b: Nodes, m: NodeId)
    requires SameBodies(a, b) && NodesBelow(a, m)
    ensures FragsSame(a, b) && NodesBelow(b, m)
    ensures forall x :: x in a && a[x].Empty? ==> x in b && b[x].Empty?
  {
    forall x | x in a && a[x].Empty? ensures x in b && b[x].Empty? { assert SameBody(a[x], b[x]); }
  }

  lemma HolesGone(c1: Private, c2: Private, p: Pc)
    requires SlotsKept(c1, c2, p) && OnlyHole(c1.slots, p)
    ensures NoHoles(c2.slots)
  {
    forall x | x in c2.slots ensures !c2.slots[x].kind.Hole? {
      assert IsEmptySlot(c2, x) || !IsEmptySlot(c2, x);
    }
  }

  // ----- units

  lemma OpenTops(units: Units, u: UnitId, unit: Unit)
    ensures TopsOf(units[u := unit]) == TopsOf(units)[u := unit.cur]
  {
  }

  lemma OpenTiled(units: Units, slots: Slots, u: UnitId, unit: Unit)
    requires TopsOf(units).Keys == units.Keys && Tiled(units, TopsOf(units), slots) && u !in units
    requires unit.cur == unit.start
    ensures TopsOf(units[u := unit]).Keys == units[u := unit].Keys
    ensures Tiled(units[u := unit], TopsOf(units[u := unit]), slots)
  {
    hide Tiled, TopsOf;
    OpenTops(units, u, unit);
    TiledOpen(units, TopsOf(units), slots, u, unit);
  }

  lemma OpenSpread(units: Units, u: UnitId, unit: Unit)
    requires Spread(units) && u !in units && unit.cur == unit.start < unit.end <= unit.reserved <= unit.start + UINT_MAX
    requires forall v :: v in units ==> units[v].reserved < unit.start || unit.reserved < units[v].start
    ensures Spread(units[u := unit])
  {
    hide TopsOf;
    AllTops(units);
    AllTops(units[u := unit]);
  }

  lemma AllTops(units: Units)
    ensures TopsOf(units).Keys == units.Keys && forall u :: u in units ==> TopsOf(units)[u] == units[u].cur
  {
  }

  /** A cache of one empty unit. */
  lemma FreshKempt(align: nat, nodes: Nodes, base: Pc, size: nat, commit: nat)
    requires IsAlign(align) && base % PAGE == 0 && (base + commit) % PAGE == 0 && 0 < commit <= size <= UINT_MAX
    ensures var units: Units := map[0 := Unit(base, base, base + commit, base + size, false, false, true)];
      Kempt(Private(align, nodes, map[], units, None, map[], []), {})
  {
    hide Aligned;
    PageAligned(base, align);
    PageAligned(base + commit, align);
  }

  /** An empty unit joins, apart from all others. */
  lemma OpenKempt(c: Private, u: UnitId, unit: Unit)
    requires Kempt(c, {}) && u !in c.units
    requires unit.cur == unit.start < unit.end <= unit.reserved <= unit.start + UINT_MAX
    requires forall v :: v in c.units ==> c.units[v].reserved < unit.start || unit.reserved < c.units[v].start
    requires unit.start % PAGE == 0 && unit.end % PAGE == 0
    ensures Kempt(c.(units := c.units[u := unit]), {})
  {
    hide SlotsHold, Threaded, EmptiesFirst, ListedAll, Tiled, Spread, Aligned, TopsOf, UnitsOk;
    SpreadOk(c.units);
    OpenTiled(c.units, c.slots, u, unit);
    OpenSpread(c.units, u, unit);
    PageAligned(unit.start, c.align);
    PageAligned(unit.end, c.align);
  }

  /** More of a unit's reservation is committed. */
  lemma CommitKempt(c: Private, u: UnitId, n: nat, full: bool)
    requires Kempt(c, {}) && u in c.units && c.units[u].end + n <= c.units[u].reserved && n % PAGE == 0
    ensures Kempt(c.(units := c.units[u := c.units[u].(end := c.units[u].end + n, full := full)]), {})
  {
    hide SlotsHold, Threaded, EmptiesFirst, ListedAll, Tiled, Spread, Aligned, TopsOf;
    SpreadOk(c.units);
    var units' := c.units[u := c.units[u].(end := c.units[u].end + n, full := full)];
    CommitTops(c.units, u, n, full);
    StretchTiled(c.units, units', TopsOf(c.units), c.slots);
    PageAligned(n, c.align);
    AlignedSum(c.units[u].end, n, c.align);
  }

  lemma CommitTops(units: Units, u: UnitId, n: nat, full: bool)
    requires u in units && Spread(units) && units[u].end + n <= units[u].reserved
    ensures var units' := units[u := units[u].(end := units[u].end + n, full := full)];
      TopsOf(units') == TopsOf(units) && Spread(units')
  {
    hide Spread;
    var units' := units[u := units[u].(end := units[u].end + n, full := full)];
    assert TopsOf(units') == TopsOf(units);
    CommitSpread(units, units', u);
  }

  lemma CommitSpread(units: Units, units': Units, u: UnitId)
    requires Spread(units) && u in units && u in units' && TopsOf(units') == TopsOf(units)
    requires units' == units[u := units'[u]]
    requires units'[u].start == units[u].start && units'[u].cur == units[u].cur
    requires units'[u].reserved == units[u].reserved
    requires units[u].end <= units'[u].end <= units[u].reserved
    ensures Spread(units')
  {
    hide TopsOf;
    forall v | v in units'
      ensures v in units && units'[v].start == units[v].start && units'[v].cur == units[v].cur
      ensures units'[v].reserved == units[v].reserved
      && units[v].end <= units'[v].end <= units'[v].reserved {}
    assert units'.Keys == units.Keys;
  }

  lemma CloseRest(c: Private, u: UnitId)
    requires Kempt(c, {}) && u in c.units
    ensures IsAlign(c.align) && Aligned(c.units[u].end - c.units[u].cur, c.align) && c.units[u].cur <= c.units[u].end
  {
    hide SlotsHold, Threaded, EmptiesFirst, ListedAll, Tiled, Aligned;
    AlignedSum(c.units[u].end, c.units[u].cur, c.align);
  }

  /** What fcache_add_fragment prepares: the slot size of the fragment, and its spare bytes. */
  lemma PrepareAsk(c: Private, f: NodeId, u: UnitId)
    requires Kempt(c, {}) && u in c.units && f in c.nodes && c.nodes[f].Frag? && f !in c.list
    ensures IsAlign(c.align)
    ensures var need := SlotSize(c.nodes[f].size, c.align);
      && c.nodes[f].size <= need
      && var c' := c.(nodes := c.nodes[f := PreparedNode(c.nodes[f], need)]);
        Asking(c', f, need) && Kempt(c', {})
  {
    hide SlotsHold, Threaded, EmptiesFirst, ListedAll, Tiled, Spread, Aligned, SlotSize;
    SlotSizeOk(c.nodes[f].size, c.align);
    var need := SlotSize(c.nodes[f].size, c.align);
    var c' := c.(nodes := c.nodes[f := PreparedNode(c.nodes[f], need)]);
    EndVacant(c, u);
    RewriteKempt(c, c', f, c.units[u].cur);
  }

  function PreparedNode(n: Node, need: nat): Node
    requires n.Frag? && n.size <= need
  {
    Frag(START_PC_ALIGNMENT, n.size, (need - n.size) % 256, n.shiftable, n.pinned, n.next, n.prev)
  }

  lemma OneHole(slots: Slots, p: Pc, s: Slot)
    requires NoHoles(slots)
    ensures OnlyHole(slots[p := s], p)
  {
  }

  lemma PagesSum(x: nat, y: nat)
    requires x % PAGE == 0 && y % PAGE == 0
    ensures (x + y) % PAGE == 0
  {
  }

  // ----- a cache that grows

  /** The list has more empty slots in front, if anything; units keep their places; no fragment is
      touched. */
  ghost predicate GrewFrom(c: Private, c': Private) {
    && c'.align == c.align && FragsSame(c.nodes, c'.nodes) && NoNewFrags(c.nodes, c'.nodes)
    && EmptiesBefore(c, c') && UnitsStay(c.units, c'.units)
  }

  ghost predicate EmptiesBefore(c: Private, c': Private) {
    && |c.list| <= |c'.list| && c'.list[|c'.list| - |c.list|..] == c.list
    && forall i :: 0 <= i < |c'.list| - |c.list| ==> c'.list[i] in c'.nodes && c'.nodes[c'.list[i]].Empty?
  }

  ghost predicate UnitsStay(a: Units, b: Units) {
    forall u :: u in a ==> u in b && b[u].start == a[u].start && b[u].reserved == a[u].reserved && a[u].end <= b[u].end
  }

  lemma GrewNot(c: Private)
    ensures GrewFrom(c, c)
  {
  }

  lemma GrewUnits(c: Private, units: Units)
    requires UnitsStay(c.units, units)
    ensures GrewFrom(c, c.(units := units))
  {
  }

  lemma GrewTwice(c: Private, c1: Private, c2: Private)
    requires GrewFrom(c, c1) && GrewFrom(c1, c2) && forall i :: 0 <= i < |c2.list| ==> c2.list[i] in c2.nodes
    ensures GrewFrom(c, c2)
  {
    var d, d1 := |c1.list| - |c.list|, |c2.list| - |c1.list|;
    assert c2.list[d1 + d..] == c2.list[d1..][d..];
    forall i | 0 <= i < d1 + d ensures c2.list[i] in c2.nodes && c2.nodes[c2.list[i]].Empty? {
      if i >= d1 { assert c2.list[i] == c2.list[d1..][i - d1] == c1.list[i - d1]; }
    }
  }

  lemma ListKnown(c: Private, out: set<NodeId>)
    requires Kempt(c, out)
    ensures forall i :: 0 <= i < |c.list| ==> c.list[i] in c.nodes
  {
    hide Ground, SlotsHold, Threaded, ListedAll;
  }

  /** The bytes up to the end of the first unit became an empty slot. */
  lemma GrewClosed(c: Private, c1: Private, c2: Private, p: Pc, n: NodeId)
    requires c1.nodes == c.nodes && c1.list == c.list && c1.align == c.align && UnitsStay(c.units, c1.units)
    requires EmptyAdded(c1, c2, p, n)
    ensures GrewFrom(c, c2)
  {
    hide SlotsKept, EmptyBytes, FragsSame, NoNewFrags;
  }

  /** The request is the same after growing. */
  lemma StillAsking(c: Private, c': Private, f: NodeId, need: nat)
    requires Asking(c, f, need) && GrewFrom(c, c')
    ensures Asking(c', f, need)
  {
    hide Aligned;
    assert SameBody(c.nodes[f], c'.nodes[f]);
    var d := |c'.list| - |c.list|;
    forall i | 0 <= i < |c'.list| ensures c'.list[i] != f {
      if i >= d { assert c'.list[i] == c'.list[d..][i - d]; }
    }
  }

  ghost predicate PagesOk(units: Units) {
    forall u :: u in units ==> units[u].end % PAGE == 0 && units[u].reserved % PAGE == 0
  }

  /** What fcache_create_unit can return: an empty unit of at least the size asked for, apart from all
      others. */
  ghost predicate CanOpen(units: Units, u: UnitId, unit: Unit, size: nat) {
    && u !in units && unit.cur == unit.start < unit.end <= unit.reserved <= unit.start + UINT_MAX
    && !unit.full && !unit.pendingFree && unit.attached && size <= unit.reserved - unit.start
    && unit.start % PAGE == 0 && unit.end % PAGE == 0 && unit.reserved % PAGE == 0
    && forall v :: v in units ==> units[v].reserved < unit.start || unit.reserved < units[v].start
  }

  lemma CanOpenStill(units: Units, units': Units, u: UnitId, unit: Unit, size: nat)
    requires CanOpen(units, u, unit, size) && UnitsStay(units, units') && units'.Keys == units.Keys
    ensures CanOpen(units', u, unit, size)
  {
  }

  lemma PagesStill(units: Units, u: UnitId, unit: Unit)
    requires PagesOk(units) && unit.end % PAGE == 0 && unit.reserved % PAGE == 0
    ensures PagesOk(units[u := unit])
  {
  }

  lemma StayOne(units: Units, u: UnitId, unit: Unit)
    requires u in units ==>
      unit.start == units[u].start && unit.reserved == units[u].reserved && units[u].end <= unit.end
    ensures UnitsStay(units, units[u := unit])
  {
  }

  lemma PagesAfter(c: Private, c': Private, order: seq<UnitId>, f: NodeId, need: nat, minHole: nat, how: Way)
    requires PagesOk(c.units) && Added(c, c', order, f, need, minHole, how)
    ensures PagesOk(c'.units)
  {
    hide NoEmptyCan, NoneCan, CanTake, EndFits, OthersSame, ListAfter, IdsIn, EmptyBytes, NodeStart;
  }

  lemma UnitPages(units: Units, u: UnitId)
    requires PagesOk(units) && u in units
    ensures units[u].end % PAGE == 0 && units[u].reserved % PAGE == 0
  {
  }

  lemma PagesRest(x: nat, n: nat)
    requires x % PAGE == 0 && (x + n) % PAGE == 0
    ensures n % PAGE == 0
  {
  }

  lemma CanOpenIs(units: Units, u: UnitId, unit: Unit, size: nat)
    requires CanOpen(units, u, unit, size)
    ensures u !in units && unit.cur == unit.start && !unit.full && size <= unit.reserved - unit.start
    ensures unit.end % PAGE == 0 && unit.reserved % PAGE == 0 && unit.start < unit.end
  {
  }

  /** No room without growing: the working set warrants it, or nothing at all can make way. */
  ghost predicate MustGrow(c: Private, order: seq<UnitId>, need: nat, granted: bool) {
    Asks(c, order, need) && (granted || NoneCan(c, 0, |c.list|, need))
  }

  lemma AddedEmpty(
    c: Private, c': Private, order: seq<UnitId>, f: NodeId, need: nat, minHole: nat, k: nat, p: Pc, e: Pc)
    requires k < |c.list| && NoneCan(c, 0, k, need) && CanTake(c, c.list[k], need) && c.list[k] in c.nodes
    requires c.nodes[c.list[k]].Empty?
    requires p == NodeStart(c.nodes[c.list[k]]) && Replaced(c, c', f, p, e, need, minHole)
    ensures Added(c, c', order, f, need, minHole, TakeOver(k, p, e))
    ensures !Asks(c, order, need) && forall granted :: !MustGrow(c, order, need, granted)
  {
    hide Replaced, NodeStart, CanTake;
  }

  lemma AddedAtEnd(c: Private, c': Private, order: seq<UnitId>, f: NodeId, need: nat, minHole: nat)
    requires NoEmptyCan(c, need) && EndFits(c.units, order, need) && Appended(c, c', f, order[0], need, minHole)
    ensures Added(c, c', order, f, need, minHole, AtEnd) && !Asks(c, order, need)
    ensures forall granted :: !MustGrow(c, order, need, granted)
  {
    hide Appended, NoEmptyCan, NoneCan;
  }

  lemma AddedLater(
    c: Private, c': Private, order: seq<UnitId>, f: NodeId, need: nat, minHole: nat, k: nat, p: Pc, e: Pc)
    requires k < |c.list| && NoneCan(c, 0, k, need) && CanTake(c, c.list[k], need) && c.list[k] in c.nodes
    requires NoEmptyCan(c, need) && !EndFits(c.units, order, need)
    requires p == NodeStart(c.nodes[c.list[k]]) && Replaced(c, c', f, p, e, need, minHole)
    ensures Added(c, c', order, f, need, minHole, TakeOver(k, p, e)) && !MustGrow(c, order, need, false)
    ensures Asks(c, order, need)
  {
    hide Replaced, NodeStart, CanTake;
  }

  lemma GrowsNow(c: Private, order: seq<UnitId>, need: nat, granted: bool)
    requires NoEmptyCan(c, need) && !EndFits(c.units, order, need) && (granted || NoneCan(c, 0, |c.list|, need))
    ensures MustGrow(c, order, need, granted)
  {
  }

  lemma AsksNow(c: Private, order: seq<UnitId>, need: nat)
    requires NoEmptyCan(c, need) && !EndFits(c.units, order, need)
    ensures Asks(c, order, need)
  {
  }

  lemma GrowsRank(c: Private, order: seq<UnitId>, need: nat)
    requires Asks(c, order, need) && |order| > 0 && order[0] in c.units
    ensures Rank(c.units, order, need) > 0
  {
    hide NoEmptyCan;
  }

  lemma AskedNone(s: W.WSet, c: Private, order: seq<UnitId>, need: nat)
    ensures Asked(s, Considered(s, c, order, need), need, 0)
  {
    hide W.Decision;
  }

  lemma AskedMore(s: W.WSet, s1: W.WSet, s2: W.WSet, need: nat, size: nat, newUnit: bool, calls: nat)
    requires s1 == SpaceTaken(W.Decision(s, need).0, size, newUnit) && Asked(s1, s2, need, calls)
    ensures Asked(s, s2, need, calls + 1)
  {
    hide W.Decision, SpaceTaken;
  }

  lemma GrewOn(c: Private, c1: Private, c2: Private)
    requires GrewFrom(c, c1) && GrewFrom(c1, c2) && Kempt(c2, {})
    ensures GrewFrom(c, c2)
  {
    hide Kempt;
    ListKnown(c2, {});
    GrewTwice(c, c1, c2);
  }

  // ----- the working set

  /** No empty slot can be taken over and the first unit has no room: whether to grow is looked at. */
  ghost predicate Asks(c: Private, order: seq<UnitId>, need: nat) {
    NoEmptyCan(c, need) && !EndFits(c.units, order, need)
  }

  /** The working set once the cache has considered whether to grow for need bytes, if it had to. */
  ghost function Considered(s: W.WSet, c: Private, order: seq<UnitId>, need: nat): W.WSet {
    if Asks(c, order, need) then W.Decision(s, need).0 else s
  }

  /** The working set once there is more space: with a new unit the counters start again. */
  function SpaceTaken(s: W.WSet, size: nat, newUnit: bool): W.WSet {
    (if newUnit then W.NewUnit(s) else s).(size := size)
  }

  /** The working set has gone from s to s' over as many growths of the cache as calls says, considered
      before each, and perhaps once more. */
  ghost predicate Asked(s: W.WSet, s': W.WSet, need: nat, calls: nat)
    decreases calls
  {
    if calls == 0 then s' == s || s' == W.Decision(s, need).0
    else exists size: nat, newUnit: bool ::
      Asked(SpaceTaken(W.Decision(s, need).0, size, newUnit), s', need, calls - 1)
  }
}
