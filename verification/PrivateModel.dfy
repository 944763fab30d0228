/** The state of a private cache and the elementary steps its operations are made of.  Here the
    owner of a slot is a node of the FIFO: a fragment or an empty slot. */
module PrivateModel {
  import opened Options
  import opened Memory
  import opened Alignment
  import opened Layout
  import opened Fifo

  /** Header words: what a walk of the cache reads at the start of each slot. */
  type Headers = map<Pc, NodeId>

  datatype Private = Private(
    align: nat, nodes: Nodes, hdr: Headers, units: Units, fifo: Option<NodeId>, slots: Slots, list: seq<NodeId>)

  function Padding(n: Node): nat { if n.Frag? && n.shiftable then n.startPc % START_PC_ALIGNMENT else 0 }

  function NodeStart(n: Node): int { n.startPc - PTR - Padding(n) }

  function NodeSize(n: Node): nat { if n.Empty? then n.fcacheSize else n.size + n.extra + Padding(n) }

  function TopsOf(units: Units): Tops { map u | u in units :: units[u].cur }

  /** Units lie apart, with a gap between any two. */
  ghost predicate Spread(units: Units) {
    && UnitsOk(units, TopsOf(units))
    && (forall u, v :: u in units && v in units && u != v ==>
          units[u].reserved < units[v].start || units[v].reserved < units[u].start)
  }

  ghost predicate AllAligned(align: nat, units: Units, slots: Slots) {
    && IsAlign(align)
    && (forall p :: p in slots ==> Aligned(p, align) && Aligned(slots[p].size, align))
    && (forall u :: u in units ==>
          Aligned(units[u].start, align) && Aligned(units[u].cur, align) && Aligned(units[u].end, align))
  }

  ghost predicate Ground(align: nat, units: Units, slots: Slots) {
    Spread(units) && Tiled(units, TopsOf(units), slots) && AllAligned(align, units, slots)
  }

  /** The node of a slot knows its address and size, and the slot's header leads to it. */
  ghost predicate NodeAt(nodes: Nodes, hdr: Headers, p: Pc, s: Slot) {
    && s.kind.Live? && s.kind.f in nodes && p in hdr && hdr[p] == s.kind.f
    && NodeStart(nodes[s.kind.f]) == p && NodeSize(nodes[s.kind.f]) == s.size && nodes[s.kind.f].startPc < p + s.size
    && (nodes[s.kind.f].Frag? ==> PTR <= nodes[s.kind.f].extra <= 255 && MIN_SLOT <= s.size)
  }

  ghost predicate SlotsHold(nodes: Nodes, hdr: Headers, slots: Slots) {
    forall p :: p in slots ==> slots[p].kind.Hole? || NodeAt(nodes, hdr, p, slots[p])
  }

  /** Node n owns the slot it says it does. */
  ghost predicate Lives(nodes: Nodes, slots: Slots, n: NodeId) {
    n in nodes && NodeStart(nodes[n]) in slots && slots[NodeStart(nodes[n])].kind == Live(n)
  }

  /** The list holds exactly the nodes that own a slot, and those in out, which own none. */
  ghost predicate ListedAll(nodes: Nodes, slots: Slots, list: seq<NodeId>, out: set<NodeId>) {
    && (forall n :: n in list <==> Lives(nodes, slots, n) || n in out)
    && (forall n :: n in out ==> !Lives(nodes, slots, n))
  }

  /** The invariant while slots may be holes and the nodes in out have lost their slots. */
  ghost predicate Kempt(c: Private, out: set<NodeId>) {
    && Ground(c.align, c.units, c.slots)
    && SlotsHold(c.nodes, c.hdr, c.slots)
    && Threaded(c.nodes, c.fifo, c.list) && EmptiesFirst(c.nodes, c.list)
    && ListedAll(c.nodes, c.slots, c.list, out)
  }

  ghost predicate IsHole(slots: Slots, p: Pc) { p in slots && slots[p].kind.Hole? }

  // ----- facts

  lemma SlotIn(c: Private, p: Pc)
    requires Ground(c.align, c.units, c.slots) && p in c.slots
    ensures c.slots[p].unit in c.units && 0 < c.slots[p].size
    ensures c.units[c.slots[p].unit].start <= p && End(c.slots, p) <= c.units[c.slots[p].unit].cur
    ensures c.units[c.slots[p].unit].cur <= c.units[c.slots[p].unit].end <= c.units[c.slots[p].unit].reserved
    ensures End(c.slots, p) == c.units[c.slots[p].unit].cur ||
      (End(c.slots, p) in c.slots && c.slots[End(c.slots, p)].unit == c.slots[p].unit)
  {
    hide Apart, Rooted, AllAligned;
    var tops := TopsOf(c.units);
    if End(c.slots, p) != tops[c.slots[p].unit] { NextInUnit(c.units, tops, c.slots, p); }
  }

  lemma ApartSlots(c: Private)
    requires Ground(c.align, c.units, c.slots)
    ensures Apart(c.slots) && TopsOf(c.units).Keys == c.units.Keys
  {
    hide Apart, Rooted, Chained, Housed, Spread, AllAligned;
  }

  lemma NodeOf(c: Private, p: Pc)
    requires SlotsHold(c.nodes, c.hdr, c.slots) && p in c.slots && !c.slots[p].kind.Hole?
    ensures NodeAt(c.nodes, c.hdr, p, c.slots[p]) && Lives(c.nodes, c.slots, c.slots[p].kind.f)
  {
  }

  /** A node on the list that has not lost its slot. */
  lemma SlotOf(c: Private, out: set<NodeId>, n: NodeId)
    requires SlotsHold(c.nodes, c.hdr, c.slots) && ListedAll(c.nodes, c.slots, c.list, out) && n in c.list && n !in out
    ensures n in c.nodes && NodeStart(c.nodes[n]) in c.slots && c.slots[NodeStart(c.nodes[n])].kind == Live(n)
    ensures NodeAt(c.nodes, c.hdr, NodeStart(c.nodes[n]), c.slots[NodeStart(c.nodes[n])])
  {
    hide NodeAt;
  }

  lemma UnitsApart(units: Units, u: UnitId, v: UnitId)
    requires Spread(units) && u in units && v in units
    ensures u == v || units[u].reserved < units[v].start || units[v].reserved < units[u].start
  {
  }

  // ----- a node loses its slot

  ghost function Vacated(c: Private, p: Pc): Private
    requires p in c.slots
  {
    c.(slots := SetKind(c.slots, p, Hole))
  }

  lemma RekindGround(align: nat, units: Units, slots: Slots, p: Pc, k: Kind)
    requires Ground(align, units, slots) && p in slots
    ensures Ground(align, units, SetKind(slots, p, k))
  {
    hide Tiled, Spread, Aligned;
    TiledSetKind(units, TopsOf(units), slots, p, k);
  }

  lemma VacateListed(nodes: Nodes, slots: Slots, list: seq<NodeId>, out: set<NodeId>, p: Pc, n: NodeId)
    requires ListedAll(nodes, slots, list, out) && p in slots && slots[p].kind == Live(n) && n in nodes
    requires NodeStart(nodes[n]) == p
    ensures ListedAll(nodes, SetKind(slots, p, Hole), list, out + {n}) && n in list && n !in out
  {
    hide NodeStart;
    var s' := SetKind(slots, p, Hole);
    assert Lives(nodes, slots, n);
    forall m ensures Lives(nodes, s', m) <==> Lives(nodes, slots, m) && m != n {
    }
  }

  lemma VacateKempt(c: Private, out: set<NodeId>, p: Pc)
    requires Kempt(c, out) && p in c.slots && c.slots[p].kind.Live?
    ensures Kempt(Vacated(c, p), out + {c.slots[p].kind.f}) && c.slots[p].kind.f in c.list && c.slots[p].kind.f !in out
    ensures NodeAt(c.nodes, c.hdr, p, c.slots[p])
  {
    hide Ground, Threaded, EmptiesFirst, ListedAll, NodeStart, NodeSize;
    NodeOf(c, p);
    RekindGround(c.align, c.units, c.slots, p, Hole);
    VacateListed(c.nodes, c.slots, c.list, out, p, c.slots[p].kind.f);
  }

  // ----- a node without a slot leaves the list

  /** fifo_remove frees the record of an empty slot. */
  function Freed(nodes: Nodes, n: NodeId): Nodes { if n in nodes && nodes[n].Empty? then nodes - {n} else nodes }

  ghost predicate Detachable(c: Private, k: nat) {
    && k < |c.list| && c.list[k] in c.nodes && c.nodes[c.list[k]].prev in c.nodes
    && (c.nodes[c.list[k]].next.Some? ==> c.nodes[c.list[k]].next.value in c.nodes)
    && c.fifo.Some? && c.fifo.value in c.nodes
  }

  ghost function Detached(c: Private, k: nat): Private
    requires Detachable(c, k)
  {
    c.(nodes := Freed(RemoveLinks(c.nodes, c.fifo, c.list[k]), c.list[k]),
       fifo := RemoveHead(c.nodes, c.fifo, c.list[k]), list := Without(c.list, k))
  }

  lemma WithoutMembers(l: seq<NodeId>, k: nat)
    requires Distinct(l) && k < |l|
    ensures forall n :: n in Without(l, k) <==> n in l && n != l[k]
  {
    var r := Without(l, k);
    forall n | n in l && n != l[k] ensures n in r {
      var i :| 0 <= i < |l| && l[i] == n;
      assert r[if i < k then i else i - 1] == n;
    }
    forall i | 0 <= i < |r| ensures r[i] in l && r[i] != l[k] {
      assert r[i] == l[if i < k then i else i + 1];
    }
  }

  lemma BodiesLive(a: Nodes, b: Nodes, slots: Slots, n: NodeId)
    requires n in a ==> n in b && SameBody(a[n], b[n])
    requires n in b ==> n in a
    ensures Lives(a, slots, n) <==> Lives(b, slots, n)
  {
  }

  lemma BodiesAt(a: Nodes, b: Nodes, hdr: Headers, p: Pc, s: Slot)
    requires NodeAt(a, hdr, p, s) && s.kind.f in b && SameBody(a[s.kind.f], b[s.kind.f])
    ensures NodeAt(b, hdr, p, s)
  {
  }

  lemma DetachListed(c: Private, out: set<NodeId>, k: nat, nodes': Nodes)
    requires ListedAll(c.nodes, c.slots, c.list, out) && Distinct(c.list) && k < |c.list| && c.list[k] in out
    requires forall n :: n in nodes' ==> n in c.nodes && SameBody(c.nodes[n], nodes'[n])
    requires forall n :: n in c.nodes && n != c.list[k] ==> n in nodes'
    ensures ListedAll(nodes', c.slots, Without(c.list, k), out - {c.list[k]})
  {
    hide SameBody, Lives, Distinct;
    WithoutMembers(c.list, k);
    var x := c.list[k];
    forall n ensures n != x ==> (Lives(nodes', c.slots, n) <==> Lives(c.nodes, c.slots, n)) {
      if n != x { BodiesLive(c.nodes, nodes', c.slots, n); }
    }
    assert !Lives(nodes', c.slots, x) by { GoneStays(c.nodes, nodes', c.slots, x); }
  }

  lemma GoneStays(a: Nodes, b: Nodes, slots: Slots, n: NodeId)
    requires !Lives(a, slots, n) && (n in b ==> n in a && SameBody(a[n], b[n]))
    ensures !Lives(b, slots, n)
  {
  }

  lemma DetachHold(c: Private, out: set<NodeId>, x: NodeId, nodes': Nodes)
    requires SlotsHold(c.nodes, c.hdr, c.slots) && !Lives(c.nodes, c.slots, x)
    requires forall n :: n in c.nodes && n != x ==> n in nodes' && SameBody(c.nodes[n], nodes'[n])
    ensures SlotsHold(nodes', c.hdr, c.slots)
  {
    hide SameBody, NodeAt, Lives;
    forall p | p in c.slots && !c.slots[p].kind.Hole? ensures NodeAt(nodes', c.hdr, p, c.slots[p]) {
      NodeOf(c, p);
      NodeAtKind(c.nodes, c.hdr, p, c.slots[p]);
      BodiesAt(c.nodes, nodes', c.hdr, p, c.slots[p]);
    }
  }

  lemma NodeAtKind(nodes: Nodes, hdr: Headers, p: Pc, s: Slot)
    requires NodeAt(nodes, hdr, p, s)
    ensures s.kind.Live? && s.kind.f in nodes
  {
  }

  lemma FreedList(nodes: Nodes, fifo: Option<NodeId>, l: seq<NodeId>, n: NodeId)
    requires Threaded(nodes, fifo, l) && EmptiesFirst(nodes, l) && n !in l
    ensures Threaded(Freed(nodes, n), fifo, l) && EmptiesFirst(Freed(nodes, n), l)
  {
    SameLinks(nodes, Freed(nodes, n), fifo, l);
  }

  lemma DetachKempt(c: Private, out: set<NodeId>, k: nat)
    requires Kempt(c, out) && k < |c.list| && c.list[k] in out
    ensures Detachable(c, k) && Kempt(Detached(c, k), out - {c.list[k]})
    ensures Detached(c, k).fifo == HeadOf(Without(c.list, k))
    ensures c.nodes[c.list[k]].Frag? ==> SameBodies(c.nodes, Detached(c, k).nodes)
    ensures c.nodes[c.list[k]].Empty? ==> Detached(c, k).nodes.Keys == c.nodes.Keys - {c.list[k]}
    ensures forall n :: n in c.nodes && n != c.list[k] ==>
      n in Detached(c, k).nodes && SameBody(c.nodes[n], Detached(c, k).nodes[n])
  {
    hide Ground, SlotsHold, ListedAll, EmptiesFirst, LinksAt, RemoveHead, RemoveLinks;
    RemoveThreads(c.nodes, c.fifo, c.list, k);
    var x, n1 := c.list[k], RemoveLinks(c.nodes, c.fifo, c.list[k]);
    ShapeRemove(c.nodes, n1, c.list, k);
    WithoutMembers(c.list, k);
    FreedList(n1, HeadOf(Without(c.list, k)), Without(c.list, k), x);
    FreedBodies(c.nodes, n1, x);
    DetachListed(c, out, k, Freed(n1, x));
    assert !Lives(c.nodes, c.slots, x) by { NotLiving(c, out, x); }
    DetachHold(c, out, x, Freed(n1, x));
  }

  lemma NotLiving(c: Private, out: set<NodeId>, x: NodeId)
    requires ListedAll(c.nodes, c.slots, c.list, out) && x in out
    ensures !Lives(c.nodes, c.slots, x)
  {
  }

  lemma FreedBodies(nodes: Nodes, n1: Nodes, x: NodeId)
    requires SameBodies(nodes, n1) && x in nodes
    ensures forall n :: n in Freed(n1, x) ==> n in nodes && SameBody(nodes[n], Freed(n1, x)[n])
    ensures forall n :: n in nodes && n != x ==> n in Freed(n1, x) && SameBody(nodes[n], Freed(n1, x)[n])
    ensures nodes[x].Frag? ==> SameBodies(nodes, Freed(n1, x))
    ensures nodes[x].Empty? ==> Freed(n1, x).Keys == nodes.Keys - {x}
  {
    assert SameBody(nodes[x], n1[x]);
  }

  // ----- holes are joined, cut and grown

  /** Apart from holes, the slots are the same. */
  ghost predicate SameHeld(s: Slots, s': Slots) {
    forall x :: (x in s && !s[x].kind.Hole?) || (x in s' && !s'[x].kind.Hole?) ==> x in s && x in s' && s[x] == s'[x]
  }

  lemma HeldFrame(c: Private, out: set<NodeId>, s': Slots)
    requires SlotsHold(c.nodes, c.hdr, c.slots) && ListedAll(c.nodes, c.slots, c.list, out) && SameHeld(c.slots, s')
    ensures SlotsHold(c.nodes, c.hdr, s') && ListedAll(c.nodes, s', c.list, out)
  {
    hide NodeAt, NodeStart;
    forall n ensures Lives(c.nodes, s', n) <==> Lives(c.nodes, c.slots, n) {
    }
  }

  lemma MergeHeld(s: Slots, p: Pc)
    requires IsHole(s, p) && IsHole(s, End(s, p))
    ensures SameHeld(s, MergeNext(s, p))
  {
  }

  lemma CutHeld(s: Slots, p: Pc, n: nat)
    requires IsHole(s, p) && 0 < n < s[p].size && p + n !in s
    ensures SameHeld(s, Cut(s, p, n))
  {
  }

  lemma StretchHeld(c: Private, u: UnitId, n: nat, full: bool)
    requires u in c.units && c.units[u].cur !in c.slots
    ensures SameHeld(c.slots, Stretched(c, u, n, full).slots)
  {
  }

  lemma MergeHoles(c: Private, out: set<NodeId>, p: Pc)
    requires Kempt(c, out) && IsHole(c.slots, p) && IsHole(c.slots, End(c.slots, p))
    requires c.slots[End(c.slots, p)].unit == c.slots[p].unit
    ensures Kempt(c.(slots := MergeNext(c.slots, p)), out) && SameHeld(c.slots, MergeNext(c.slots, p))
  {
    hide SlotsHold, ListedAll, Threaded, EmptiesFirst, Ground, MergeNext, SameHeld;
    MergeGround(c, p);
    MergeHeld(c.slots, p);
    HeldFrame(c, out, MergeNext(c.slots, p));
  }

  lemma MergeGround(c: Private, p: Pc)
    requires Ground(c.align, c.units, c.slots) && p in c.slots && End(c.slots, p) in c.slots
    requires c.slots[End(c.slots, p)].unit == c.slots[p].unit
    ensures Ground(c.align, c.units, MergeNext(c.slots, p))
  {
    hide Tiled, Aligned, Spread, UnitsOk;
    SpreadOk(c.units);
    SlotIn(c, End(c.slots, p));
    TiledMerge(c.units, TopsOf(c.units), c.slots, p);
    AlignedSum(c.slots[p].size, c.slots[End(c.slots, p)].size, c.align);
  }

  lemma SpreadOk(units: Units)
    requires Spread(units)
    ensures UnitsOk(units, TopsOf(units)) && TopsOf(units).Keys == units.Keys
  {
  }

  lemma CutHole(c: Private, out: set<NodeId>, p: Pc, n: nat)
    requires Kempt(c, out) && IsHole(c.slots, p) && 0 < n < c.slots[p].size && Aligned(n, c.align)
    ensures Kempt(c.(slots := Cut(c.slots, p, n)), out) && SameHeld(c.slots, Cut(c.slots, p, n)) && p + n !in c.slots
  {
    hide SlotsHold, ListedAll, Threaded, EmptiesFirst, Ground, Cut, SameHeld, Aligned;
    CutGround(c, p, n);
    CutHeld(c.slots, p, n);
    HeldFrame(c, out, Cut(c.slots, p, n));
  }

  lemma CutGround(c: Private, p: Pc, n: nat)
    requires Ground(c.align, c.units, c.slots) && p in c.slots && 0 < n < c.slots[p].size && Aligned(n, c.align)
    ensures Ground(c.align, c.units, Cut(c.slots, p, n)) && p + n !in c.slots
  {
    hide Tiled, Aligned, Spread, UnitsOk;
    SpreadOk(c.units);
    TiledCut(c.units, TopsOf(c.units), c.slots, p, n);
    AlignedSum(c.slots[p].size, n, c.align);
    AlignedSum(p, n, c.align);
  }

  /** The append point of u moves up by n bytes, which become a hole. */
  ghost function Stretched(c: Private, u: UnitId, n: nat, full: bool): Private
    requires u in c.units
  {
    c.(units := c.units[u := c.units[u].(cur := c.units[u].cur + n, full := full)],
       slots := c.slots[c.units[u].cur := Slot(n, u, Hole)])
  }

  lemma StretchGround(c: Private, u: UnitId, n: nat, full: bool)
    requires Ground(c.align, c.units, c.slots) && u in c.units && 0 < n && c.units[u].cur + n <= c.units[u].end
    requires Aligned(n, c.align)
    ensures c.units[u].cur !in c.slots
    ensures Ground(c.align, Stretched(c, u, n, full).units, Stretched(c, u, n, full).slots)
  {
    hide Tiled, Aligned, UnitsOk, Spread, AllAligned, TopsOf;
    SpreadOk(c.units);
    var tops, c' := TopsOf(c.units), Stretched(c, u, n, full);
    TopOf(c.units, u);
    TiledAppend(c.units, tops, c.slots, u, n, Hole);
    StretchTops(c.units, u, n, full);
    StretchTiled(c.units, c'.units, tops[u := tops[u] + n], c'.slots);
    StretchSpread(c.units, u, n, full);
    StretchAligned(c.align, c.units, c.slots, u, n, full);
  }

  lemma TopOf(units: Units, u: UnitId)
    requires u in units
    ensures u in TopsOf(units) && TopsOf(units)[u] == units[u].cur
  {
  }

  lemma StretchTops(units: Units, u: UnitId, n: nat, full: bool)
    requires u in units
    ensures TopsOf(units[u := units[u].(cur := units[u].cur + n, full := full)]) == TopsOf(units)[u := units[u].cur + n]
  {
  }

  lemma StretchSpread(units: Units, u: UnitId, n: nat, full: bool)
    requires Spread(units) && u in units && units[u].cur + n <= units[u].end
    ensures Spread(units[u := units[u].(cur := units[u].cur + n, full := full)])
  {
  }

  lemma StretchAligned(align: nat, units: Units, slots: Slots, u: UnitId, n: nat, full: bool)
    requires AllAligned(align, units, slots) && u in units && Aligned(n, align)
    ensures AllAligned(align, units[u := units[u].(cur := units[u].cur + n, full := full)],
      slots[units[u].cur := Slot(n, u, Hole)])
  {
    hide Aligned;
    AlignedSum(units[u].cur, n, align);
  }

  lemma StretchTiled(units: Units, units': Units, tops: Tops, slots: Slots)
    requires tops.Keys == units.Keys == units'.Keys && Tiled(units, tops, slots)
    requires forall u :: u in units ==> units[u].start == units'[u].start
    ensures Tiled(units', tops, slots)
  {
    forall u | u in units' && First(units', u) < tops[u] ensures First(units', u) in slots {
      assert First(units, u) == First(units', u);
    }
  }

  lemma Stretch(c: Private, out: set<NodeId>, u: UnitId, n: nat, full: bool)
    requires Kempt(c, out) && u in c.units && 0 < n && c.units[u].cur + n <= c.units[u].end && Aligned(n, c.align)
    ensures c.units[u].cur !in c.slots && Kempt(Stretched(c, u, n, full), out)
    ensures SameHeld(c.slots, Stretched(c, u, n, full).slots)
  {
    hide SlotsHold, ListedAll, Threaded, EmptiesFirst, Ground, SameHeld, Aligned;
    StretchGround(c, u, n, full);
    StretchHeld(c, u, n, full);
    HeldFrame(c, out, Stretched(c, u, n, full).slots);
  }

  // ----- a hole becomes an empty slot

  ghost function Emptied(c: Private, p: Pc, n: NodeId): Private
    requires p in c.slots && (c.fifo.Some? ==> c.fifo.value in c.nodes)
  {
    c.(nodes := PrependLinks(c.nodes, c.fifo, n, p + PTR, c.slots[p].size), hdr := c.hdr[p := n], fifo := Some(n),
       slots := SetKind(c.slots, p, Live(n)), list := [n] + c.list)
  }

  lemma EmptyListed(c: Private, out: set<NodeId>, p: Pc, n: NodeId, nodes': Nodes)
    requires ListedAll(c.nodes, c.slots, c.list, out) && IsHole(c.slots, p) && n !in c.nodes && n !in out && n in nodes'
    requires forall m :: m in c.nodes ==> m in nodes' && SameBody(c.nodes[m], nodes'[m])
    requires nodes'.Keys == c.nodes.Keys + {n} && NodeStart(nodes'[n]) == p
    ensures ListedAll(nodes', SetKind(c.slots, p, Live(n)), [n] + c.list, out)
  {
    hide NodeStart, SameBody;
    var s', l' := SetKind(c.slots, p, Live(n)), [n] + c.list;
    forall m ensures Lives(nodes', s', m) <==> Lives(c.nodes, c.slots, m) || m == n {
      if m in c.nodes { SameStart(c.nodes[m], nodes'[m]); }
    }
    assert forall m :: m in l' <==> m in c.list || m == n;
  }

  lemma SameStart(x: Node, y: Node)
    requires SameBody(x, y)
    ensures NodeStart(x) == NodeStart(y) && NodeSize(x) == NodeSize(y) && x.Empty? == y.Empty?
  {
  }

  lemma EmptyHold(c: Private, p: Pc, n: NodeId, nodes': Nodes)
    requires SlotsHold(c.nodes, c.hdr, c.slots) && IsHole(c.slots, p) && n !in c.nodes && n in nodes'
    requires forall m :: m in c.nodes ==> m in nodes' && SameBody(c.nodes[m], nodes'[m])
    requires NodeStart(nodes'[n]) == p && NodeSize(nodes'[n]) == c.slots[p].size && nodes'[n].Empty?
    requires nodes'[n].startPc < p + c.slots[p].size
    ensures SlotsHold(nodes', c.hdr[p := n], SetKind(c.slots, p, Live(n)))
  {
    hide NodeStart, NodeSize, SameBody;
    var s' := SetKind(c.slots, p, Live(n));
    forall x | x in s' && !s'[x].kind.Hole? ensures NodeAt(nodes', c.hdr[p := n], x, s'[x]) {
      if x != p { BodiesAt(c.nodes, nodes', c.hdr, x, c.slots[x]); }
    }
  }

  lemma PrependKempt(c: Private, out: set<NodeId>, p: Pc, n: NodeId)
    requires Kempt(c, out) && IsHole(c.slots, p) && n !in c.nodes && PTR < c.slots[p].size
    ensures c.fifo.Some? ==> c.fifo.value in c.nodes
    ensures Kempt(Emptied(c, p, n), out)
    ensures SameBodies(c.nodes, Emptied(c, p, n).nodes - {n}) && Emptied(c, p, n).nodes[n].Empty?
    ensures NodeStart(Emptied(c, p, n).nodes[n]) == p && NodeSize(Emptied(c, p, n).nodes[n]) == c.slots[p].size
  {
    hide Ground, SlotsHold, ListedAll, EmptiesFirst, PrependLinks, Threaded;
    PrependThreads(c.nodes, c.fifo, c.list, n, p + PTR, c.slots[p].size);
    var nodes' := PrependLinks(c.nodes, c.fifo, n, p + PTR, c.slots[p].size);
    assert (nodes' - {n}).Keys == c.nodes.Keys;
    forall m | m in c.nodes ensures m in nodes' && SameBody(c.nodes[m], nodes'[m]) {
      assert SameBody(c.nodes[m], (nodes' - {n})[m]);
    }
    assert n !in out by { OutKnown(c, out, n); }
    ShapePrepend(c.nodes, nodes', c.list, n);
    RekindGround(c.align, c.units, c.slots, p, Live(n));
    EmptyListed(c, out, p, n, nodes');
    EmptyHold(c, p, n, nodes');
  }

  lemma OutKnown(c: Private, out: set<NodeId>, n: NodeId)
    requires ListedAll(c.nodes, c.slots, c.list, out) && Threaded(c.nodes, c.fifo, c.list) && n !in c.nodes
    ensures n !in out
  {
    forall i | 0 <= i < |c.list| ensures c.list[i] != n { assert LinksAt(c.nodes, c.list, i); }
  }

  // ----- a hole is joined to a neighbouring empty slot

  ghost predicate Enlarged(a: Nodes, b: Nodes, e: NodeId, startPc: Pc, size: nat) {
    e in a && a[e].Empty? && b == a[e := a[e].(startPc := startPc, fcacheSize := size)]
  }

  /** The hole at p goes to the empty slot that follows it, whose node is e. */
  ghost function JoinedNext(c: Private, p: Pc, e: NodeId): Private
    requires p in c.slots && End(c.slots, p) in c.slots && e in c.nodes && c.nodes[e].Empty?
  {
    c.(nodes := c.nodes[e := c.nodes[e].(startPc := p + PTR, fcacheSize := c.nodes[e].fcacheSize + c.slots[p].size)],
       hdr := c.hdr[p := e], slots := SetKind(MergeNext(c.slots, p), p, Live(e)))
  }

  lemma JoinNextHold(c: Private, out: set<NodeId>, p: Pc, e: NodeId)
    requires SlotsHold(c.nodes, c.hdr, c.slots) && ListedAll(c.nodes, c.slots, c.list, out) && IsHole(c.slots, p)
    requires End(c.slots, p) in c.slots && c.slots[End(c.slots, p)].kind == Live(e) && e in c.nodes && c.nodes[e].Empty?
    requires 0 < c.slots[p].size
    ensures SlotsHold(JoinedNext(c, p, e).nodes, JoinedNext(c, p, e).hdr, JoinedNext(c, p, e).slots)
    ensures ListedAll(JoinedNext(c, p, e).nodes, JoinedNext(c, p, e).slots, c.list, out)
  {
    var q, c' := End(c.slots, p), JoinedNext(c, p, e);
    NodeOf(c, q);
    forall x | x in c'.slots && !c'.slots[x].kind.Hole? ensures NodeAt(c'.nodes, c'.hdr, x, c'.slots[x]) {
      if x != p {
        NodeOf(c, x);
      }
    }
    forall n ensures Lives(c'.nodes, c'.slots, n) <==> Lives(c.nodes, c.slots, n) {
    }
  }

  lemma JoinNextKempt(c: Private, out: set<NodeId>, p: Pc, e: NodeId)
    requires Kempt(c, out) && IsHole(c.slots, p) && End(c.slots, p) in c.slots
    requires c.slots[End(c.slots, p)].kind == Live(e)
    requires e in c.nodes && c.nodes[e].Empty? && c.slots[End(c.slots, p)].unit == c.slots[p].unit
    ensures Kempt(JoinedNext(c, p, e), out)
  {
    hide SlotsHold, ListedAll, Threaded, EmptiesFirst, Ground;
    SlotIn(c, p);
    JoinNextHold(c, out, p, e);
    MergeGround(c, p);
    RekindGround(c.align, c.units, MergeNext(c.slots, p), p, Live(e));
    EnlargeList(c, JoinedNext(c, p, e).nodes, e, p + PTR, c.nodes[e].fcacheSize + c.slots[p].size);
  }

  lemma EnlargeList(c: Private, nodes': Nodes, e: NodeId, startPc: Pc, size: nat)
    requires Threaded(c.nodes, c.fifo, c.list) && EmptiesFirst(c.nodes, c.list)
    requires Enlarged(c.nodes, nodes', e, startPc, size)
    ensures Threaded(nodes', c.fifo, c.list) && EmptiesFirst(nodes', c.list)
  {
    SameLinks(c.nodes, nodes', c.fifo, c.list);
  }

  /** The hole at p goes to the empty slot at q before it, whose node is e. */
  ghost function JoinedPrev(c: Private, q: Pc, e: NodeId): Private
    requires q in c.slots && End(c.slots, q) in c.slots && e in c.nodes && c.nodes[e].Empty?
  {
    c.(nodes := c.nodes[e := c.nodes[e].(fcacheSize := c.nodes[e].fcacheSize + c.slots[End(c.slots, q)].size)],
       slots := MergeNext(c.slots, q))
  }

  lemma JoinPrevHold(c: Private, out: set<NodeId>, q: Pc, e: NodeId)
    requires SlotsHold(c.nodes, c.hdr, c.slots) && ListedAll(c.nodes, c.slots, c.list, out)
    requires q in c.slots && c.slots[q].kind == Live(e) && e in c.nodes && c.nodes[e].Empty?
    requires IsHole(c.slots, End(c.slots, q))
    ensures SlotsHold(JoinedPrev(c, q, e).nodes, c.hdr, JoinedPrev(c, q, e).slots)
    ensures ListedAll(JoinedPrev(c, q, e).nodes, JoinedPrev(c, q, e).slots, c.list, out)
  {
    var c' := JoinedPrev(c, q, e);
    NodeOf(c, q);
    forall x | x in c'.slots && !c'.slots[x].kind.Hole? ensures NodeAt(c'.nodes, c'.hdr, x, c'.slots[x]) {
      NodeOf(c, x);
    }
    forall n ensures Lives(c'.nodes, c'.slots, n) <==> Lives(c.nodes, c.slots, n) {
    }
  }

  lemma JoinPrevKempt(c: Private, out: set<NodeId>, q: Pc, e: NodeId)
    requires Kempt(c, out) && q in c.slots && c.slots[q].kind == Live(e) && e in c.nodes && c.nodes[e].Empty?
    requires IsHole(c.slots, End(c.slots, q)) && c.slots[End(c.slots, q)].unit == c.slots[q].unit
    ensures Kempt(JoinedPrev(c, q, e), out)
  {
    hide SlotsHold, ListedAll, Threaded, EmptiesFirst, Ground;
    JoinPrevHold(c, out, q, e);
    MergeGround(c, q);
    EnlargeList(c, JoinedPrev(c, q, e).nodes, e, c.nodes[e].startPc,
      c.nodes[e].fcacheSize + c.slots[End(c.slots, q)].size);
  }

  // ----- a hole becomes a fragment's slot

  /** Node f can own the hole at p: its record fits the hole. */
  ghost predicate FitsHole(nodes: Nodes, hdr: Headers, slots: Slots, p: Pc, f: NodeId) {
    && IsHole(slots, p) && f in nodes && nodes[f].Frag? && p in hdr && hdr[p] == f
    && NodeStart(nodes[f]) == p && NodeSize(nodes[f]) == slots[p].size && PTR <= nodes[f].extra <= 255
    && MIN_SLOT <= slots[p].size
    && nodes[f].startPc < p + slots[p].size
  }

  lemma OwnListed(c: Private, p: Pc, f: NodeId)
    requires ListedAll(c.nodes, c.slots, c.list, {f}) && FitsHole(c.nodes, c.hdr, c.slots, p, f)
    ensures ListedAll(c.nodes, SetKind(c.slots, p, Live(f)), c.list, {})
  {
    hide NodeSize, NodeStart;
    var s' := SetKind(c.slots, p, Live(f));
    forall n ensures Lives(c.nodes, s', n) <==> Lives(c.nodes, c.slots, n) || n == f {
    }
  }

  lemma OwnKempt(c: Private, p: Pc, f: NodeId)
    requires Kempt(c, {f}) && FitsHole(c.nodes, c.hdr, c.slots, p, f)
    ensures Kempt(c.(slots := SetKind(c.slots, p, Live(f))), {})
  {
    hide Ground, Threaded, EmptiesFirst, ListedAll, NodeSize, NodeStart;
    RekindGround(c.align, c.units, c.slots, p, Live(f));
    OwnListed(c, p, f);
  }

  ghost predicate Vacant(slots: Slots, p: Pc) { p in slots ==> slots[p].kind.Hole? }

  /** The record and header of a fragment that owns no slot change. */
  ghost predicate Rewritten(c: Private, c': Private, f: NodeId, p: Pc) {
    && f in c.nodes && c.nodes[f].Frag? && f in c'.nodes && c'.nodes == c.nodes[f := c'.nodes[f]] && c'.nodes[f].Frag?
    && (forall x :: x in c.hdr && x != p ==> x in c'.hdr && c'.hdr[x] == c.hdr[x])
    && c'.align == c.align && c'.units == c.units && c'.fifo == c.fifo && c'.slots == c.slots && c'.list == c.list
  }

  lemma Unowned(c: Private, out: set<NodeId>, f: NodeId)
    requires SlotsHold(c.nodes, c.hdr, c.slots) && ListedAll(c.nodes, c.slots, c.list, out) && f !in c.list
    ensures forall x :: x in c.slots ==> c.slots[x].kind != Live(f)
  {
    hide NodeAt, NodeStart;
    forall x | x in c.slots ensures c.slots[x].kind != Live(f) {
      if c.slots[x].kind.Live? { NodeOf(c, x); }
    }
  }

  lemma RewriteHold(c: Private, c': Private, f: NodeId, p: Pc)
    requires SlotsHold(c.nodes, c.hdr, c.slots) && ListedAll(c.nodes, c.slots, c.list, {}) && f !in c.list
    requires Rewritten(c, c', f, p) && Vacant(c.slots, p)
    ensures SlotsHold(c'.nodes, c'.hdr, c'.slots) && ListedAll(c'.nodes, c'.slots, c'.list, {})
  {
    hide NodeStart, NodeSize;
    Unowned(c, {}, f);
    forall x | x in c'.slots && !c'.slots[x].kind.Hole? ensures NodeAt(c'.nodes, c'.hdr, x, c'.slots[x]) {
      NodeOf(c, x);
    }
    forall n ensures Lives(c'.nodes, c'.slots, n) <==> Lives(c.nodes, c.slots, n) {
    }
  }

  lemma RewriteKempt(c: Private, c': Private, f: NodeId, p: Pc)
    requires Kempt(c, {}) && f !in c.list && Rewritten(c, c', f, p) && Vacant(c.slots, p)
    ensures Kempt(c', {})
  {
    hide Ground, SlotsHold, ListedAll;
    RewriteHold(c, c', f, p);
    SameLinks(c.nodes, c'.nodes, c.fifo, c.list);
  }

  // ----- a fragment joins the list

  ghost predicate Appendable(c: Private, f: NodeId) {
    f in c.nodes && c.nodes[f].Frag?
    && (c.fifo.Some? ==> c.fifo.value in c.nodes && c.nodes[c.fifo.value].prev in c.nodes)
  }

  ghost function Queued(c: Private, f: NodeId): Private
    requires Appendable(c, f)
  {
    c.(nodes := AppendLinks(c.nodes, c.fifo, f), fifo := HeadOf(c.list + [f]), list := c.list + [f])
  }

  lemma BodiesHold(c: Private, nodes': Nodes)
    requires SlotsHold(c.nodes, c.hdr, c.slots) && SameBodies(c.nodes, nodes')
    ensures SlotsHold(nodes', c.hdr, c.slots)
  {
    hide SameBody, NodeAt;
    forall x | x in c.slots && !c.slots[x].kind.Hole? ensures NodeAt(nodes', c.hdr, x, c.slots[x]) {
      NodeAtKind(c.nodes, c.hdr, x, c.slots[x]);
      BodiesAt(c.nodes, nodes', c.hdr, x, c.slots[x]);
    }
  }

  lemma QueueListed(c: Private, f: NodeId, nodes': Nodes)
    requires ListedAll(c.nodes, c.slots, c.list, {}) && f !in c.list && SameBodies(c.nodes, nodes')
    ensures ListedAll(nodes', c.slots, c.list + [f], {f})
  {
    hide SameBody, Lives;
    forall n ensures Lives(nodes', c.slots, n) <==> Lives(c.nodes, c.slots, n) {
      BodiesLive(c.nodes, nodes', c.slots, n);
    }
  }

  lemma QueueKempt(c: Private, f: NodeId)
    requires Kempt(c, {}) && f !in c.list && f in c.nodes && c.nodes[f].Frag?
    ensures Appendable(c, f) && Kempt(Queued(c, f), {f}) && SameBodies(c.nodes, Queued(c, f).nodes)
    ensures HeadOf(c.list + [f]) == if c.fifo.None? then Some(f) else c.fifo
  {
    hide Ground, SlotsHold, ListedAll, AppendLinks, LinksAt, SameBodies, EmptiesFirst;
    AppendThreads(c.nodes, c.fifo, c.list, f);
    var nodes' := AppendLinks(c.nodes, c.fifo, f);
    ShapeAppend(c.nodes, nodes', c.list, f);
    BodiesHold(c, nodes');
    QueueListed(c, f, nodes');
  }
}
