/** Giving back the unused end of a private fragment's slot (fcache_return_extra_space): to unclaimed
    space, to the empty slot that follows, or as a new empty slot. */
module PrivateTrimming {
  import opened Options
  import opened Memory
  import opened Alignment
  import opened Layout
  import opened Fifo
  import opened PrivateModel
  import opened Eviction
  import opened Requests

  predicate CanPlan(n: Node, space: nat, align: nat) {
    IsAlign(align) && n.Frag? && 0 <= NodeStart(n) && PTR <= n.extra && space <= n.size && MIN_SLOT <= NodeSize(n)
  }

  function NodePlan(n: Node, space: nat, align: nat): Plan
    requires CanPlan(n, space, align)
  {
    PlanOf(NodeStart(n), NodeSize(n), space + n.extra - PTR, align)
  }

  function NodeReturnable(n: Node, space: nat, align: nat): int {
    if CanPlan(n, space, align) then NodePlan(n, space, align).returnable else 0
  }

  /** The fragment's record afterwards; fcache_extra is one byte. */
  function TrimNode(n: Node, space: nat, g: Plan, released: bool): Node
    requires n.Frag? && space <= n.size && 0 <= g.returnable && 0 <= g.slotPadding && 0 <= g.minPadding
  {
    n.(size := n.size - space,
       extra := (PTR + g.slotPadding + (if released then 0 else g.returnable) + g.minPadding) % 256)
  }

  /** The last r bytes of the slot at p are given up: at the end of a unit if they leave room enough, at
      the append point and in front of an empty slot always, and elsewhere if they are a hole worth
      having. */
  ghost predicate NodeWorth(c: Private, hole: nat, p: Pc, r: int) {
    && p in c.slots && c.slots[p].unit in c.units && r > 0
    && var u, end := c.units[c.slots[p].unit], End(c.slots, p);
      if end == u.end then r >= 2 * hole else end == u.cur || IsEmptySlot(c, end) || r >= hole
  }

  /** Fragment f keeps its place and gives up the last r bytes of its slot; no other fragment and no
      other fragment's slot changes. */
  ghost predicate NodeTrimmed(c: Private, c': Private, f: NodeId, p: Pc, space: nat, r: nat) {
    && p in c.slots && c.slots[p].kind == Live(f) && f in c.nodes && c.nodes[f].Frag? && space <= c.nodes[f].size
    && f in c'.nodes && c'.nodes[f].Frag? && c'.nodes[f].size == c.nodes[f].size - space
    && c'.nodes[f].startPc == c.nodes[f].startPc && c'.nodes[f].pinned == c.nodes[f].pinned
    && r < c.slots[p].size && p in c'.slots && c'.slots[p] == c.slots[p].(size := c.slots[p].size - r)
    && OthersSame(c.nodes, c'.nodes, f) && NoNewFrags(c.nodes, c'.nodes) && OtherSlots(c, c', p) && c'.align == c.align
  }

  /** Apart from the slot at p and from empty slots, the slots are the same. */
  ghost predicate OtherSlots(c: Private, c': Private, p: Pc) {
    && (forall x :: x in c.slots && x != p && !IsEmptySlot(c, x) ==> x in c'.slots && c'.slots[x] == c.slots[x])
    && (forall x :: x in c'.slots && x != p && !IsEmptySlot(c', x) ==> x in c.slots && c'.slots[x] == c.slots[x])
  }

  /** Where the r bytes from q on went, that ended the slot at p. */
  ghost predicate GivenUp(c: Private, c': Private, order: seq<UnitId>, p: Pc, q: Pc, r: nat) {
    && p in c.slots && c.slots[p].unit in c.units && q + r == End(c.slots, p) && p < q
    && var u, end := c.slots[p].unit, End(c.slots, p);
      if r == 0 then c'.slots == c.slots && c'.units == c.units && c'.list == c.list
      else if |order| > 0 && u == order[0] && c.units[u].cur == end then
        && c'.units == c.units[u := c.units[u].(cur := q, full := false)]
        && c'.slots == c.slots[p := c.slots[p].(size := q - p)] && c'.list == c.list
      else
        && c'.units == c.units
        && if IsEmptySlot(c, end) then c'.slots == Joined(c.slots, p, q, r, end) && c'.list == c.list
           else
             && EmptyBytes(c', q, r)
             && (c'.list == c.list
                 || OneEmptyMore(c', c.list))
  }

  /** The empty slot at end starts r bytes earlier, at q, where the slot at p ends now. */
  function Joined(s: Slots, p: Pc, q: Pc, r: nat, end: Pc): Slots
    requires p in s && end in s && p <= q
  {
    (s - {end})[p := s[p].(size := q - p)][q := s[end].(size := r + s[end].size)]
  }

  // ----- what the decision reads

  lemma TrimStart(c: Private, f: NodeId, p: Pc, space: nat)
    requires Kempt(c, {}) && p in c.slots && c.slots[p].kind == Live(f) && f in c.nodes && c.nodes[f].Frag?
    requires space <= c.nodes[f].size
    ensures CanPlan(c.nodes[f], space, c.align) && NodeAt(c.nodes, c.hdr, p, c.slots[p]) && c.slots[p].unit in c.units
    ensures NodeStart(c.nodes[f]) == p && NodeSize(c.nodes[f]) == c.slots[p].size
    ensures p <= c.nodes[f].startPc < c.units[c.slots[p].unit].reserved && c.units[c.slots[p].unit].start <= p
    ensures End(c.slots, p) <= c.units[c.slots[p].unit].cur <= c.units[c.slots[p].unit].end
    ensures Aligned(p, c.align) && Aligned(c.slots[p].size, c.align)
  {
    hide Threaded, EmptiesFirst, ListedAll, Tiled, Spread, Aligned;
    NodeOf(c, p);
    hide SlotsHold;
    SlotIn(c, p);
  }

  /** The slot that follows, if there is one. */
  lemma TrimNext(c: Private, p: Pc)
    requires Kempt(c, {}) && NoHoles(c.slots) && p in c.slots && c.slots[p].unit in c.units
    requires End(c.slots, p) != c.units[c.slots[p].unit].cur
    ensures End(c.slots, p) in c.slots && c.slots[End(c.slots, p)].unit == c.slots[p].unit
    ensures NodeAt(c.nodes, c.hdr, End(c.slots, p), c.slots[End(c.slots, p)])
  {
    hide Threaded, EmptiesFirst, ListedAll, Ground, NodeAt;
    SlotIn(c, p);
    AllOwned(c.nodes, c.hdr, c.slots, End(c.slots, p));
  }

  /** The plan and the new record fit the slot. */
  lemma TrimFits(c: Private, f: NodeId, p: Pc, space: nat, released: bool)
    requires f in c.nodes && CanPlan(c.nodes[f], space, c.align) && c.nodes[f].extra <= 255
    requires NodeStart(c.nodes[f]) == p && Aligned(p, c.align) && Aligned(NodeSize(c.nodes[f]), c.align)
    requires !released ==> NodePlan(c.nodes[f], space, c.align).returnable < 128
    ensures var g, total := NodePlan(c.nodes[f], space, c.align), NodeSize(c.nodes[f]);
      && 0 <= g.returnable && 0 <= g.slotPadding && 0 <= g.minPadding && MIN_SLOT <= total - g.returnable
      && Aligned(total - g.returnable, c.align)
      && NodeStart(TrimNode(c.nodes[f], space, g, released)) == p
      && NodeSize(TrimNode(c.nodes[f], space, g, released)) == (if released then total - g.returnable else total)
      && PTR <= TrimNode(c.nodes[f], space, g, released).extra <= 255
  {
    hide Aligned, PlanOf;
    PlanAddsUp(p, NodeSize(c.nodes[f]), space + c.nodes[f].extra - PTR, c.align);
  }

  // ----- the fragment's own slot and record

  /** The record of f and the size of its slot change; the rest of the slot may be a hole. */
  ghost predicate Reshaped(c: Private, c': Private, f: NodeId, p: Pc) {
    && p in c.slots && c.slots[p].kind == Live(f) && f in c.nodes && c.nodes[f].Frag? && f in c'.nodes
    && c' == c.(nodes := c.nodes[f := c'.nodes[f]], slots := c'.slots) && c'.nodes[f].Frag?
    && c'.nodes[f].next == c.nodes[f].next && c'.nodes[f].prev == c.nodes[f].prev
    && p in c'.slots && c'.slots[p].kind == Live(f) && NodeAt(c'.nodes, c.hdr, p, c'.slots[p])
    && (forall x :: x in c.slots && x != p && !c.slots[x].kind.Hole? ==> x in c'.slots && c'.slots[x] == c.slots[x])
    && (forall x :: x in c'.slots && x != p && !c'.slots[x].kind.Hole? ==> x in c.slots && c'.slots[x] == c.slots[x])
  }

  lemma ReshapeHold(c: Private, c': Private, f: NodeId, p: Pc)
    requires SlotsHold(c.nodes, c.hdr, c.slots) && ListedAll(c.nodes, c.slots, c.list, {}) && Reshaped(c, c', f, p)
    ensures SlotsHold(c'.nodes, c'.hdr, c'.slots) && ListedAll(c'.nodes, c'.slots, c'.list, {})
  {
    hide NodeSize, NodeStart;
    NodeOf(c, p);
    forall x | x in c'.slots && !c'.slots[x].kind.Hole? ensures NodeAt(c'.nodes, c'.hdr, x, c'.slots[x]) {
      if x != p { NodeOf(c, x); }
    }
    forall n ensures Lives(c'.nodes, c'.slots, n) <==> Lives(c.nodes, c.slots, n) {
    }
  }

  lemma ReshapeKempt(c: Private, c': Private, f: NodeId, p: Pc)
    requires Kempt(c, {}) && Reshaped(c, c', f, p) && Ground(c'.align, c'.units, c'.slots)
    ensures Kempt(c', {})
  {
    hide Ground, SlotsHold, ListedAll, NodeAt;
    ReshapeHold(c, c', f, p);
    SameLinks(c.nodes, c'.nodes, c.fifo, c.list);
  }

  /** With the slot of f cut after n bytes. */
  ghost function Trimmed(c: Private, f: NodeId, p: Pc, n: nat, node: Node): Private
    requires p in c.slots && 0 < n < c.slots[p].size
  {
    c.(nodes := c.nodes[f := node], slots := Cut(c.slots, p, n))
  }

  ghost predicate FitsSlot(c: Private, f: NodeId, p: Pc, n: nat, node: Node) {
    && p in c.slots && c.slots[p].kind == Live(f) && f in c.nodes && c.nodes[f].Frag? && node.Frag?
    && node == c.nodes[f].(size := node.size, extra := node.extra) && PTR <= node.extra <= 255
    && MIN_SLOT <= n && NodeStart(node) == p && NodeSize(node) == n && node.startPc < p + n
  }

  lemma CutKempt(c: Private, f: NodeId, p: Pc, n: nat, node: Node)
    requires Kempt(c, {}) && NoHoles(c.slots) && FitsSlot(c, f, p, n, node) && n < c.slots[p].size
    requires Aligned(n, c.align)
    ensures Kempt(Trimmed(c, f, p, n, node), {}) && p + n !in c.slots
    ensures IsHole(Trimmed(c, f, p, n, node).slots, p + n) && OnlyHole(Trimmed(c, f, p, n, node).slots, p + n)
    ensures Trimmed(c, f, p, n, node).slots[p + n] == Slot(c.slots[p].size - n, c.slots[p].unit, Hole)
  {
    hide Threaded, EmptiesFirst, ListedAll, Ground, Aligned, NodeStart, NodeSize;
    NodeOf(c, p);
    CutGround(c, p, n);
    ReshapeKempt(c, Trimmed(c, f, p, n, node), f, p);
  }

  /** Too little to hand over: the fragment keeps the bytes as padding. */
  lemma RefitKempt(c: Private, f: NodeId, p: Pc, node: Node)
    requires Kempt(c, {}) && p in c.slots && FitsSlot(c, f, p, c.slots[p].size, node)
    ensures Kempt(c.(nodes := c.nodes[f := node]), {})
  {
    hide Threaded, EmptiesFirst, ListedAll, Ground, NodeStart, NodeSize;
    NodeOf(c, p);
    ReshapeKempt(c, c.(nodes := c.nodes[f := node]), f, p);
  }

  function ShiftNode(n: Node, space: nat): Node
    requires n.Frag? && space <= n.size
  {
    n.(startPc := n.startPc + space, size := n.size - space)
  }

  /** Shifting the start keeps the header address and the size of the slot. */
  lemma ShiftKempt(c: Private, f: NodeId, p: Pc, space: nat)
    requires Kempt(c, {}) && p in c.slots && c.slots[p].kind == Live(f) && f in c.nodes && c.nodes[f].Frag?
    requires c.nodes[f].shiftable && c.nodes[f].startPc % START_PC_ALIGNMENT == 0
    requires space <= c.nodes[f].size && space <= START_PC_ALIGNMENT - 1
    ensures Kempt(c.(nodes := c.nodes[f := ShiftNode(c.nodes[f], space)]), {})
    ensures NodeStart(ShiftNode(c.nodes[f], space)) == p && NodeSize(ShiftNode(c.nodes[f], space)) == c.slots[p].size
  {
    hide Threaded, EmptiesFirst, ListedAll, Ground;
    NodeOf(c, p);
    ReshapeKempt(c, c.(nodes := c.nodes[f := ShiftNode(c.nodes[f], space)]), f, p);
  }

  // ----- the bytes that are handed over

  /** The append point moves back over the hole at q. */
  ghost function PulledBack(c: Private, u: UnitId, q: Pc): Private
    requires u in c.units
  {
    c.(units := c.units[u := c.units[u].(cur := q, full := false)], slots := c.slots - {q})
  }

  lemma PullGround(c: Private, u: UnitId, q: Pc)
    requires Ground(c.align, c.units, c.slots) && q in c.slots && c.slots[q].unit == u && u in c.units
    requires End(c.slots, q) == c.units[u].cur
    ensures Ground(c.align, PulledBack(c, u, q).units, PulledBack(c, u, q).slots)
  {
    hide Tiled, Aligned, Spread, UnitsOk, TopsOf;
    SpreadOk(c.units);
    SlotIn(c, q);
    TopOf(c.units, u);
    TiledChop(c.units, TopsOf(c.units), c.slots, q);
    PullTops(c.units, u, q);
    var c' := PulledBack(c, u, q);
    StretchTiled(c.units, c'.units, TopsOf(c'.units), c'.slots);
    PullSpread(c.units, u, q);
  }

  lemma PullTops(units: Units, u: UnitId, q: Pc)
    requires u in units
    ensures TopsOf(units[u := units[u].(cur := q, full := false)]) == TopsOf(units)[u := q]
  {
  }

  lemma PullSpread(units: Units, u: UnitId, q: Pc)
    requires Spread(units) && u in units && units[u].start <= q <= units[u].cur
    ensures Spread(units[u := units[u].(cur := q, full := false)])
  {
  }

  lemma PullKempt(c: Private, u: UnitId, q: Pc)
    requires Kempt(c, {}) && IsHole(c.slots, q) && OnlyHole(c.slots, q) && c.slots[q].unit == u && u in c.units
    requires End(c.slots, q) == c.units[u].cur
    ensures Kempt(PulledBack(c, u, q), {}) && NoHoles(PulledBack(c, u, q).slots)
  {
    hide SlotsHold, ListedAll, Threaded, EmptiesFirst, Ground;
    PullGround(c, u, q);
    HeldFrame(c, {}, PulledBack(c, u, q).slots);
  }

  /** What every way of handing over leaves as it was. */
  lemma TrimShape(c: Private, c1: Private, c': Private, f: NodeId, p: Pc, n: nat, node: Node, space: nat)
    requires FitsSlot(c, f, p, n, node) && n < c.slots[p].size && NoHoles(c.slots) && p + n !in c.slots
    requires c1 == Trimmed(c, f, p, n, node) && space <= c.nodes[f].size && node.size == c.nodes[f].size - space
    requires FragsSame(c1.nodes, c'.nodes) && NoNewFrags(c1.nodes, c'.nodes) && c'.align == c.align
    requires SlotsKept(c1, c', p + n)
    ensures NodeTrimmed(c, c', f, p, space, c.slots[p].size - n)
  {
    hide NodeStart, NodeSize;
    assert SameBody(node, c'.nodes[f]);
    assert !IsEmptySlot(c1, p);
    forall m | m in c.nodes && c.nodes[m].Frag? && m != f ensures m in c'.nodes && SameBody(c.nodes[m], c'.nodes[m]) {
      assert SameBody(c1.nodes[m], c'.nodes[m]);
    }
    forall x | x in c.slots && x != p ensures x in c1.slots && c1.slots[x] == c.slots[x] && x != p + n {}
    forall x | x in c1.slots && x != p && x != p + n ensures x in c.slots && c1.slots[x] == c.slots[x] {}
    forall x ensures x != p + n && x != p ==> (IsEmptySlot(c1, x) <==> IsEmptySlot(c, x)) {}
  }

  /** The slot of f can end at q, r bytes earlier, with node as the record of f. */
  ghost predicate CanCut(c: Private, f: NodeId, p: Pc, q: Pc, r: nat, space: nat, node: Node) {
    && p < q && FitsSlot(c, f, p, q - p, node) && 0 < r && q + r == End(c.slots, p)
    && IsAlign(c.align) && Aligned(q - p, c.align) && q !in c.slots
    && space <= c.nodes[f].size && node.size == c.nodes[f].size - space
  }

  /** After the cut the last r bytes are a hole. */
  lemma CutDone(
    c: Private, f: NodeId, p: Pc, q: Pc, r: nat, space: nat, node: Node, n: NodeId)
    requires Kempt(c, {}) && NoHoles(c.slots) && CanCut(c, f, p, q, r, space, node) && NodesBelow(c.nodes, n)
    ensures p in c.slots && 0 < q - p < c.slots[p].size && q + r == p + c.slots[p].size
    ensures var c1 := Trimmed(c, f, p, q - p, node);
      && Kempt(c1, {}) && IsHole(c1.slots, q) && OnlyHole(c1.slots, q) && c1.slots[q].size == r
      && c1.slots[q].unit == c.slots[p].unit && NodesBelow(c1.nodes, n)
  {
    hide Kempt, NoHoles, FitsSlot, Aligned, OnlyHole;
    CutKempt(c, f, p, q - p, node);
    SlotKnown(c, f, p, q - p, node);
  }

  lemma SlotKnown(c: Private, f: NodeId, p: Pc, n: nat, node: Node)
    requires FitsSlot(c, f, p, n, node)
    ensures p in c.slots && c.slots[p].kind == Live(f) && f in c.nodes && c.nodes[f].Frag?
  {
  }

  lemma PullDone(
    c: Private, order: seq<UnitId>, f: NodeId, p: Pc, q: Pc, r: nat, space: nat, node: Node, minHole: nat)
    requires CanCut(c, f, p, q, r, space, node) && NoHoles(c.slots) && RoomOk(c.units, order, minHole) && 0 < minHole
    requires p in c.slots && 0 < q - p < c.slots[p].size && c.slots[p].unit == order[0]
    requires c.units[order[0]].cur == q + r <= c.units[order[0]].end
    requires c.units[order[0]].full ==> r >= 2 * minHole
    requires var c1 := Trimmed(c, f, p, q - p, node);
      Kempt(c1, {}) && IsHole(c1.slots, q) && OnlyHole(c1.slots, q)
      && c1.slots[q].unit == order[0] && End(c1.slots, q) == q + r
    ensures var c' := PulledBack(Trimmed(c, f, p, q - p, node), order[0], q);
      && Kempt(c', {}) && NoHoles(c'.slots) && RoomOk(c'.units, order, minHole)
      && NodeTrimmed(c, c', f, p, space, r) && GivenUp(c, c', order, p, q, r)
  {
    hide Kempt, NodeStart, NodeSize, Aligned, OnlyHole;
    var c1 := Trimmed(c, f, p, q - p, node);
    var c' := PulledBack(c1, order[0], q);
    PullKempt(c1, order[0], q);
    assert c'.slots == c.slots[p := c.slots[p].(size := q - p)];
    TrimShape(c, c1, c', f, p, q - p, node, space);
    RoomPulled(c.units, order, minHole, q);
  }

  lemma JoinSlots(s: Slots, p: Pc, q: Pc, r: nat, k: Kind)
    requires p in s && 0 < q - p < s[p].size && q + r == End(s, p) && q !in s && 0 < r
    requires q + r in s && s[q + r].unit == s[p].unit && s[q + r].kind == k
    ensures q in Cut(s, p, q - p) && End(Cut(s, p, q - p), q) == q + r && q + r in Cut(s, p, q - p)
    ensures Cut(s, p, q - p)[q + r] == s[q + r]
    ensures SetKind(MergeNext(Cut(s, p, q - p), q), q, k) == Joined(s, p, q, r, q + r)
  {
  }

  /** The hole joins the empty slot that follows it, in place. */
  lemma JoinDone(
    c: Private, order: seq<UnitId>, f: NodeId, p: Pc, q: Pc, r: nat, space: nat, node: Node, e: NodeId, n: NodeId)
    requires CanCut(c, f, p, q, r, space, node) && NoHoles(c.slots) && c.slots[p].unit in c.units
    requires NodesBelow(c.nodes, n)
    requires IsEmptySlot(c, q + r) && c.slots[q + r].kind == Live(e) && c.slots[q + r].unit == c.slots[p].unit
    requires !(|order| > 0 && c.slots[p].unit == order[0] && c.units[c.slots[p].unit].cur == q + r)
    requires 0 < q - p < c.slots[p].size && Kempt(Trimmed(c, f, p, q - p, node), {})
    requires IsHole(Trimmed(c, f, p, q - p, node).slots, q) && OnlyHole(Trimmed(c, f, p, q - p, node).slots, q)
    ensures e in Trimmed(c, f, p, q - p, node).nodes && Trimmed(c, f, p, q - p, node).nodes[e].Empty?
    ensures End(Trimmed(c, f, p, q - p, node).slots, q) in Trimmed(c, f, p, q - p, node).slots
    ensures var c' := JoinedNext(Trimmed(c, f, p, q - p, node), q, e);
      && Kempt(c', {}) && NoHoles(c'.slots) && NodesBelow(c'.nodes, n)
      && NodeTrimmed(c, c', f, p, space, r) && GivenUp(c, c', order, p, q, r) && c'.units == c.units
  {
    hide Kempt, NodeStart, NodeSize, Aligned, Cut, MergeNext, SetKind, Joined, NodeTrimmed;
    var c1 := Trimmed(c, f, p, q - p, node);
    JoinSlots(c.slots, p, q, r, Live(e));
    assert c1.slots[q].unit == c.slots[p].unit by { CutUnit(c.slots, p, q - p); }
    assert e != f && e in c1.nodes && c1.nodes[e].Empty?;
    JoinNextKempt(c1, {}, q, e);
    JoinShape(c, f, p, q, r, space, node, e);
    assert JoinedNext(c1, q, e).slots == Joined(c.slots, p, q, r, q + r);
    JoinedFull(c.slots, p, q, r, q + r);
  }

  lemma CutUnit(s: Slots, p: Pc, n: nat)
    requires p in s && 0 < n < s[p].size
    ensures Cut(s, p, n)[p + n].unit == s[p].unit
  {
  }

  lemma JoinedFull(s: Slots, p: Pc, q: Pc, r: nat, end: Pc)
    requires p in s && end in s && p <= q && NoHoles(s)
    ensures NoHoles(Joined(s, p, q, r, end))
  {
  }

  lemma JoinShape(c: Private, f: NodeId, p: Pc, q: Pc, r: nat, space: nat, node: Node, e: NodeId)
    requires CanCut(c, f, p, q, r, space, node) && NoHoles(c.slots)
    requires IsEmptySlot(c, q + r) && c.slots[q + r].kind == Live(e) && c.slots[q + r].unit == c.slots[p].unit && e != f
    ensures 0 < q - p < c.slots[p].size
    ensures q in Trimmed(c, f, p, q - p, node).slots && q + r in Trimmed(c, f, p, q - p, node).slots
    ensures End(Trimmed(c, f, p, q - p, node).slots, q) == q + r
    ensures NodeTrimmed(c, JoinedNext(Trimmed(c, f, p, q - p, node), q, e), f, p, space, r)
  {
    hide NodeStart, NodeSize, Aligned, MergeNext, SetKind, Cut, NodeTrimmed;
    var c1 := Trimmed(c, f, p, q - p, node);
    JoinSlots(c.slots, p, q, r, Live(e));
    var c' := JoinedNext(c1, q, e);
    JoinKept(c, c1, c', p, q, r, e) by { assert c1.slots == Cut(c.slots, p, q - p); }
    TrimShape(c, c1, c', f, p, q - p, node, space);
  }

  lemma JoinKept(c: Private, c1: Private, c': Private, p: Pc, q: Pc, r: nat, e: NodeId)
    requires p in c.slots && 0 < q - p < c.slots[p].size && c1.slots == Cut(c.slots, p, q - p) && q !in c.slots
    requires q + r == End(c.slots, p) && q + r in c.slots && c.slots[q + r].kind == Live(e) && e in c1.nodes
    requires c1.nodes[e].Empty? && e in c'.nodes && c'.nodes == c1.nodes[e := c'.nodes[e]] && c'.nodes[e].Empty?
    requires c'.slots == Joined(c.slots, p, q, r, q + r)
    ensures SlotsKept(c1, c', q)
  {
    assert IsEmptySlot(c', q) && IsEmptySlot(c1, q + r);
    forall x | x != q && x != q + r
      ensures x in c1.slots <==> x in c'.slots
      ensures x in c1.slots ==> c1.slots[x] == c'.slots[x]
      ensures IsEmptySlot(c1, x) <==> IsEmptySlot(c', x)
    {
    }
  }

  /** The hole becomes an empty slot at the front of the list. */
  lemma AddDone(
    c: Private, c': Private, order: seq<UnitId>, f: NodeId, p: Pc, q: Pc, r: nat, space: nat, node: Node, e: NodeId)
    requires CanCut(c, f, p, q, r, space, node) && NoHoles(c.slots) && c.slots[p].unit in c.units
    requires !IsEmptySlot(c, q + r) && 0 < q - p < c.slots[p].size && OnlyHole(Trimmed(c, f, p, q - p, node).slots, q)
    requires !(|order| > 0 && c.slots[p].unit == order[0] && c.units[c.slots[p].unit].cur == q + r)
    requires EmptyAdded(Trimmed(c, f, p, q - p, node), c', q, e)
    ensures NodeTrimmed(c, c', f, p, space, r) && NoHoles(c'.slots)
    ensures GivenUp(c, c', order, p, q, r) && c'.units == c.units
  {
    hide NodeStart, NodeSize, EmptyBytes, FragsSame, NoNewFrags, Aligned, OnlyHole;
    var c1 := Trimmed(c, f, p, q - p, node);
    TrimShape(c, c1, c', f, p, q - p, node, space);
    hide NodeTrimmed;
    HolesGone(c1, c', q);
  }

  lemma KeepDone(c: Private, order: seq<UnitId>, f: NodeId, p: Pc, node: Node, space: nat)
    requires p in c.slots && FitsSlot(c, f, p, c.slots[p].size, node) && c.slots[p].unit in c.units
    requires space <= c.nodes[f].size && node.size == c.nodes[f].size - space && Kempt(c, {})
    ensures Kempt(c.(nodes := c.nodes[f := node]), {})
    ensures var c' := c.(nodes := c.nodes[f := node]);
      NodeTrimmed(c, c', f, p, space, 0) && GivenUp(c, c', order, p, End(c.slots, p), 0)
  {
    hide NodeStart, NodeSize, Kempt;
    var c' := c.(nodes := c.nodes[f := node]);
    RefitKempt(c, f, p, node);
    forall x ensures IsEmptySlot(c', x) <==> IsEmptySlot(c, x) {}
  }

  lemma TrimBounds(c: Private, f: NodeId, p: Pc, space: nat)
    requires Kempt(c, {}) && p in c.slots && c.slots[p].kind == Live(f) && f in c.nodes && c.nodes[f].Frag?
    requires space <= c.nodes[f].size
    ensures CanPlan(c.nodes[f], space, c.align)
    ensures 0 <= NodePlan(c.nodes[f], space, c.align).returnable < c.slots[p].size
    ensures NodeReturnable(c.nodes[f], space, c.align) == NodePlan(c.nodes[f], space, c.align).returnable
  {
    hide Kempt, Aligned, PlanOf;
    TrimStart(c, f, p, space);
    PlanAddsUp(p, c.slots[p].size, space + c.nodes[f].extra - PTR, c.align);
  }

  /** What carrying out the plan needs. */
  lemma TrimReady(c: Private, f: NodeId, p: Pc, space: nat, released: bool)
    requires Kempt(c, {}) && NoHoles(c.slots) && p in c.slots && c.slots[p].kind == Live(f)
    requires f in c.nodes && c.nodes[f].Frag? && space <= c.nodes[f].size && CanPlan(c.nodes[f], space, c.align)
    requires var r := NodePlan(c.nodes[f], space, c.align).returnable; if released then 0 < r else r < 128
    ensures var g := NodePlan(c.nodes[f], space, c.align);
      && 0 <= g.returnable && 0 <= g.slotPadding && 0 <= g.minPadding
      && var node := TrimNode(c.nodes[f], space, g, released);
      && node.Frag? && node.size == c.nodes[f].size - space
      && (if released then CanCut(c, f, p, End(c.slots, p) - g.returnable, g.returnable, space, node)
          else FitsSlot(c, f, p, c.slots[p].size, node))
  {
    hide Kempt, Aligned, PlanOf, NodeSize;
    TrimStart(c, f, p, space);
    TrimBounds(c, f, p, space);
    TrimFits(c, f, p, space, released);
    if released { NoSlotInside(c, p, End(c.slots, p) - NodePlan(c.nodes[f], space, c.align).returnable); }
  }

  lemma CurBelow(c: Private, p: Pc)
    requires Kempt(c, {}) && p in c.slots && c.slots[p].unit in c.units
    ensures End(c.slots, p) <= c.units[c.slots[p].unit].cur <= c.units[c.slots[p].unit].end
  {
    hide SlotsHold, Threaded, EmptiesFirst, ListedAll, Ground;
    SlotIn(c, p);
  }

  lemma NoSlotInside(c: Private, p: Pc, q: Pc)
    requires Kempt(c, {}) && p in c.slots && p < q < End(c.slots, p)
    ensures q !in c.slots
  {
    hide SlotsHold, Threaded, EmptiesFirst, ListedAll, Ground;
    ApartSlots(c);
    if q in c.slots { SlotIn(c, q); }
  }

  /** The first unit still has room enough, or is full. */
  lemma RoomPulled(units: Units, order: seq<UnitId>, minHole: nat, q: Pc)
    requires RoomOk(units, order, minHole) && q <= units[order[0]].cur <= units[order[0]].end && 0 < minHole
    requires q < units[order[0]].cur && (units[order[0]].full ==> q + 2 * minHole <= units[order[0]].end)
    ensures RoomOk(units[order[0] := units[order[0]].(cur := q, full := false)], order, minHole)
  {
  }

  lemma RoomFull(units: Units, order: seq<UnitId>, minHole: nat, u: UnitId)
    requires RoomOk(units, order, minHole) && u in units
    ensures |order| > 0 && order[0] in units && (units[u].full <==> units[u].cur == units[u].end)
    ensures u != order[0] ==> units[u].cur == units[u].end
  {
  }
}
