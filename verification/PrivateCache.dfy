/** A private code cache (fcache_t with a FIFO): replacement, empty slots, room at the end. */
module PrivateCaches {
  import opened Options
  import opened Memory
  import opened Alignment
  import opened Layout
  import opened Fifo
  import opened PrivateModel
  import opened Eviction
  import opened Requests
  import opened PrivateTrimming
  import W = WorkingSet

  class PrivateCache {
    const align: nat
    const minHole: nat
    const commitIncrement: nat
    const maxUnit: nat
    const wset: W.WorkingSetState
    var nodes: Nodes
    var hdr: Headers
    var units: Units
    var order: seq<UnitId>
    var fifo: Option<NodeId>
    var nextNode: NodeId
    ghost var slots: Slots
    ghost var list: seq<NodeId>

    ghost function View(): Private
      reads this
    {
      Private(align, nodes, hdr, units, fifo, slots, list)
    }

    /** fifo_append */
    method FifoAppend(f: NodeId)
      requires f !in list && f in nodes && nodes[f].Frag?
      requires Kempt(View(), {})
      modifies `nodes, `fifo, `list
      ensures Kempt(View(), {f}) && list == old(list) + [f] && SameBodies(old(nodes), nodes)
    {
      hide Kempt;
      QueueKempt(View(), f);
      nodes := SetNext(nodes, f, None);
      if fifo == None {
        fifo := Some(f);
        nodes := SetPrev(nodes, f, f);
      } else {
        var head := fifo.value;
        nodes := SetPrev(nodes, f, nodes[head].prev);
        nodes := SetNext(nodes, nodes[head].prev, Some(f));
        nodes := SetPrev(nodes, head, f);
      }
      list := list + [f];
    }

    /** fifo_remove of a node that has lost its slot; the record of an empty slot is freed. */
    method FifoRemove(f: NodeId, ghost k: nat, ghost out: set<NodeId>)
      requires k < |list| && list[k] == f && f in out
      requires Kempt(View(), out)
      modifies `nodes, `fifo, `list
      ensures Kempt(View(), out - {f}) && list == Without(old(list), k) && |list| == |old(list)| - 1
      ensures f in old(nodes) && (old(nodes)[f].Empty? ==> nodes.Keys == old(nodes).Keys - {f})
      ensures old(nodes)[f].Frag? ==> SameBodies(old(nodes), nodes)
      ensures forall n :: n in old(nodes) && n != f ==> n in nodes && SameBody(old(nodes)[n], nodes[n])
    {
      hide Kempt, SameBody, SameBodies;
      DetachKempt(View(), out, k);
      var empty := nodes[f].Empty?;
      if fifo == Some(f) {
        fifo := nodes[f].next;
      } else {
        nodes := SetNext(nodes, nodes[f].prev, nodes[f].next);
      }
      if nodes[f].next == None {
        if fifo != None {
          nodes := SetPrev(nodes, fifo.value, nodes[f].prev);
        }
      } else {
        nodes := SetPrev(nodes, nodes[f].next.value, nodes[f].prev);
      }
      if empty {
        nodes := nodes - {f};
      }
      list := Without(list, k);
    }

    /** fifo_prepend_empty: the hole at start enlarges the empty slot at the front of the list if
        they touch, and otherwise becomes a new one there. */
    method PrependEmpty(start: Pc, size: nat, ghost out: set<NodeId>) returns (ghost n: NodeId)
      requires IsHole(slots, start) && slots[start].size == size && PTR < size
      requires forall m :: m in out ==> m in nodes && nodes[m].Frag?
      requires NodesBelow(nodes, nextNode)
      requires Kempt(View(), out)
      modifies `nodes, `hdr, `fifo, `nextNode, `slots, `list
      ensures Kempt(View(), out) && EmptyAdded(old(View()), View(), start, n)
      ensures var l, was := old(list), old(nodes);
        list ==
          if |l| > 0 && l[0] in was && was[l[0]].Empty?
            && (was[l[0]].startPc - 8 == start + size || was[l[0]].startPc - 8 + was[l[0]].fcacheSize == start)
          then l else [n] + l
      ensures NodesBelow(nodes, nextNode) && n !in old(nodes)
    {
      hide Kempt, EmptyAdded, NodeStart, NodeSize, NodesBelow, SameBodies;
      ghost var c0 := View();
      n := nextNode;
      FrontKnown(c0, out, start);
      FrontIs(c0, out);
      assert n !in nodes by { BelowNot(nodes, nextNode); }
      if fifo.Some? && nodes[fifo.value].Empty? {
        var e := fifo.value;
        if NodeStart(nodes[e]) == start + size {
          JoinNextKempt(c0, out, start, e);
          EmptyAddedNext(c0, start, e, n);
          nodes := nodes[e := nodes[e].(startPc := start + PTR, fcacheSize := nodes[e].fcacheSize + size)];
          hdr := hdr[start := e];
          slots := SetKind(MergeNext(slots, start), start, Live(e));
          FewerNodes(c0.nodes, nextNode, nodes);
          return;
        } else if NodeStart(nodes[e]) + NodeSize(nodes[e]) == start {
          ghost var q := NodeStart(nodes[e]);
          JoinPrevKempt(c0, out, q, e);
          EmptyAddedPrev(c0, q, e, n);
          nodes := nodes[e := nodes[e].(fcacheSize := nodes[e].fcacheSize + size)];
          slots := MergeNext(slots, q);
          FewerNodes(c0.nodes, nextNode, nodes);
          return;
        }
      }
      PrependKempt(c0, out, start, n);
      UnownedFresh(c0, out, n);
      EmptyAddedNew(c0, start, n);
      var slot := nextNode;
      nextNode := nextNode + 1;
      hdr := hdr[start := slot];
      if fifo == None {
        nodes := nodes[slot := Empty(start + PTR, size, fifo, slot)];
      } else {
        nodes := nodes[slot := Empty(start + PTR, size, fifo, nodes[fifo.value].prev)];
        nodes := SetPrev(nodes, fifo.value, slot);
      }
      fifo := Some(slot);
      slots, list := SetKind(slots, start, Live(slot)), [slot] + list;
      MoreNodes(c0.nodes, n, nodes);
    }

    /** force_fragment_from_cache: the owner of the slot at q leaves the list. */
    method ForceFragment(victim: NodeId, ghost q: Pc) returns (ghost k: nat)
      requires q in slots && slots[q].kind == Live(victim)
      requires Kempt(View(), {})
      modifies `nodes, `fifo, `slots, `list, wset`numReplaced
      ensures Kempt(View(), {}) && slots == SetKind(old(slots), q, Hole)
      ensures k < |old(list)| && old(list)[k] == victim && list == Without(old(list), k) && victim in old(nodes)
      ensures FragsSame(old(nodes), nodes) && NoNewFrags(old(nodes), nodes) && nodes.Keys <= old(nodes).Keys
      ensures wset.View() == W.Evicted(old(wset.View()), if old(nodes)[victim].Frag? then 1 else 0)
    {
      hide Kempt, SameBody, Without;
      VacateKempt(View(), {}, q);
      k := IndexOf(View(), {}, q);
      var empty := nodes[victim].Empty?;
      slots := SetKind(slots, q, Hole);
      assert {} + {victim} == {victim} && {victim} - {victim} == {};
      FifoRemove(victim, k, {victim});
      RemovedKinds(old(nodes), nodes, victim);
      if !empty {
        wset.CountEviction();
      }
    }

    /** The first walk of replace_fragments: may the slots that start in the need bytes from first
        all be deleted? */
    method CanReplace(u: UnitId, first: NodeId, need: nat, ghost p: Pc) returns (ok: bool)
      requires p in slots && slots[p].kind == Live(first) && slots[p].unit == u && u in units
      requires 0 < need && p + need <= units[u].end && NoHoles(slots)
      requires Kempt(View(), {})
      ensures ok <==> Evictable(View(), p, need)
      ensures ok <==>
        forall q ::
          q in slots && p <= q < p + need && slots[q].kind.Live? && slots[q].kind.f in nodes ==>
          nodes[slots[q].kind.f].Frag? ==> !nodes[slots[q].kind.f].pinned
    {
      EvictableIs(View(), p, need);
      hide Kempt, Evictable, NoHoles, NodeStart, NodeSize, Scanning;
      var soFar, victim := 0, first;
      ScanStart(View(), p, need);
      ScanAt(View(), p, p, need);
      var pc := NodeStart(nodes[first]);
      while true
        invariant pc == p + soFar && pc in slots && slots[pc].kind == Live(victim) && Scanning(View(), p, pc, need)
        decreases units[u].cur - pc
      {
        ScanAt(View(), p, pc, need);
        ScanUnit(View(), p, pc, need);
        if nodes[victim].Frag? && nodes[victim].pinned {
          ScanBlocked(View(), p, pc, need);
          return false;
        }
        soFar := soFar + NodeSize(nodes[victim]);
        if soFar >= need {
          ScanDone(View(), p, pc, need);
          return true;
        }
        if pc + NodeSize(nodes[victim]) == units[u].cur {
          ScanDone(View(), p, pc, need);
          return true;
        }
        ScanNext(View(), p, pc, need);
        pc := pc + NodeSize(nodes[victim]);
        victim := hdr[pc];
      }
    }

    /** The second walk of replace_fragments: the slots that start in the need bytes from first
        become one hole. */
    method EvictRun(u: UnitId, first: NodeId, need: nat, ghost p: Pc) returns (soFar: nat)
      requires p in slots && slots[p].kind == Live(first) && slots[p].unit == u && u in units
      requires 0 < need && p + need <= units[u].end && NoHoles(slots)
      requires Kempt(View(), {})
      modifies `nodes, `fifo, `slots, `list, wset`numReplaced
      ensures Kempt(View(), {}) && Evicted(old(View()), View(), p, p + soFar)
      ensures 0 < soFar && p + soFar <= units[u].cur && (soFar >= need || p + soFar == units[u].cur)
      ensures IdsIn(old(slots), p, p + soFar) == IdsIn(old(slots), p, p + need)
      ensures wset.View() == W.Evicted(old(wset.View()), FragsIn(old(View()), p, p + need))
    {
      hide Kempt, NoHoles, NodeStart, NodeSize, Evicted, IdsIn, Without, FragsSame, MergeNext, FragsIn;
      hide NoNewFrags;
      ghost var c0, s0 := View(), wset.View();
      soFar := 0;
      var victim := first;
      EvictNone(c0, p);
      NoneIn(c0, p);
      assert Evicting(c0, c0, p, p);
      EvictingAt(c0, c0, p, p);
      var pc := NodeStart(nodes[first]);
      while true
        invariant pc == p + soFar && pc < p + need && Evicting(c0, View(), p, pc) && c0.slots[pc].kind == Live(victim)
        invariant units == c0.units && wset.View() == W.Evicted(s0, FragsIn(c0, p, pc))
        decreases units[u].cur - pc
      {
        EvictingAt(c0, View(), p, pc);
        ghost var q, c1 := pc, View();
        var size := NodeSize(nodes[victim]);
        soFar := soFar + size;
        pc := pc + size;
        ghost var k := ForceFragment(victim, q);
        EvictStep(c0, c1, View(), p, q, k);
        EvictCount(c0, c1, p, q, k);
        if q != p {
          slots := MergeNext(slots, p);
        }
        if soFar >= need || pc == units[u].cur {
          RunIs(c0, u, p, q, need);
          SameIn(c0, p, pc, p + need);
          return;
        }
        EvictAgain(c0, View(), p, q);
        victim := hdr[pc];
      }
    }

    /** extend_unit_end(unit, size, false): the append point moves past size bytes, and past the rest
        of the unit if that is too small to be useful.  The bytes passed over become a hole. */
    method ExtendUnitEnd(u: UnitId, size: nat) returns (extra: nat)
      requires u in units && 0 < size && units[u].cur + size <= units[u].end && IsAlign(align) && Aligned(size, align)
      requires Kempt(View(), {})
      modifies `units, `slots
      ensures EndTaken(old(units), units, old(slots), slots, u, size, extra, minHole)
      ensures Kempt(View(), {})
    {
      hide Kempt, Aligned, EndTaken, Stretched;
      ghost var c0 := View();
      extra := 0;
      var left := units[u].end - units[u].cur - size;
      var full := units[u].full;
      if left < 2 * minHole {
        full := true;
        if left > 0 {
          extra := left;
        }
      }
      RestAligned(c0, u, size);
      Stretch(c0, {}, u, size + extra, full);
      StretchTakes(c0, u, size, extra, full, minHole);
      MoveEnd(u, size + extra, full);
    }

    /** The append point of unit u moves past n bytes. */
    method MoveEnd(u: UnitId, n: nat, full: bool)
      requires u in units
      modifies `units, `slots
      ensures View() == Stretched(old(View()), u, n, full)
    {
      slots := slots[units[u].cur := Slot(n, u, Hole)];
      units := units[u := units[u].(cur := units[u].cur + n, full := full)];
    }

    /** place_fragment: the header is written and the fragment learns its address. */
    method PlaceFragment(f: NodeId, p: Pc)
      requires f in nodes && nodes[f].Frag? && f !in list && Vacant(slots, p)
      requires Kempt(View(), {})
      modifies `nodes, `hdr
      ensures Kempt(View(), {}) && hdr == old(hdr)[p := f]
      ensures f in old(nodes) && nodes == old(nodes)[f := StartingAt(old(nodes)[f], p + PTR)]
    {
      hide Kempt;
      ghost var c0 := View();
      hdr := hdr[p := f];
      nodes := nodes[f := StartingAt(nodes[f], p + PTR)];
      RewriteKempt(c0, View(), f, p);
    }

    /** The evicted run reaches the append point and is too short: more of the unit is taken. */
    method FitStretch(f: NodeId, u: UnitId, p: Pc, soFar: nat, need: nat)
      requires Waiting(View(), f, u, p, soFar, need) && soFar < need && p + soFar == units[u].cur
      requires (minHole == 28 || minHole == 64) && RoomOk(units, order, minHole)
      requires Kempt(View(), {})
      modifies `nodes, `units, `slots
      ensures Kempt(View(), {}) && Fitted(old(View()), View(), f, p) && nodes.Keys == old(nodes).Keys
      ensures BytesGo(old(View()), View(), u, p, p + soFar, need, slots[p].size, minHole)
      ensures RoomOk(units, order, minHole)
    {
      hide Kempt, Asking, RoomOk, Fitted, OnlyHole, MergeNext, Resized, Aligned, Rewritten;
      ghost var c0 := View();
      RestNeeded(c0, f, u, p, soFar, need);
      var extra := ExtendUnitEnd(u, need - soFar);
      ghost var c1 := View();
      TailJoins(c0, c1, f, u, p, soFar, need, extra, minHole);
      slots := MergeNext(slots, p);
      ghost var c2 := View();
      ResizeOk(c2, c2.(nodes := c2.nodes[f := Resized(c2.nodes[f], need + extra)]), f, need, need + extra, p);
      nodes := nodes[f := Resized(nodes[f], need + extra)];
      RewriteKempt(c2, View(), f, p);
      StretchFits(c0, c1, View(), order, f, u, p, soFar, need, extra, minHole);
    }

    /** The fragment keeps all the bytes of the evicted run. */
    method FitWhole(f: NodeId, u: UnitId, p: Pc, soFar: nat, need: nat)
      requires Waiting(View(), f, u, p, soFar, need) && need <= soFar < need + minHole
      requires (minHole == 28 || minHole == 64)
      requires Kempt(View(), {})
      modifies `nodes
      ensures Kempt(View(), {}) && Fitted(old(View()), View(), f, p) && nodes.Keys == old(nodes).Keys
      ensures BytesGo(old(View()), View(), u, p, p + soFar, need, slots[p].size, minHole)
    {
      hide Kempt, Asking, Resized, OnlyHole, Rewritten;
      ghost var c0 := View();
      AskingNode(c0, f, need);
      ResizeOk(c0, c0.(nodes := c0.nodes[f := Resized(c0.nodes[f], soFar)]), f, need, soFar, p);
      nodes := nodes[f := Resized(nodes[f], soFar)];
      RewriteKempt(c0, View(), f, p);
    }

    /** What the fragment does not need of the evicted run becomes an empty slot. */
    method FitSplit(f: NodeId, u: UnitId, p: Pc, soFar: nat, need: nat)
      requires Waiting(View(), f, u, p, soFar, need) && need + minHole <= soFar && (minHole == 28 || minHole == 64)
      requires NodesBelow(nodes, nextNode)
      requires Kempt(View(), {})
      modifies `nodes, `hdr, `fifo, `nextNode, `slots, `list
      ensures Kempt(View(), {}) && Fitted(old(View()), View(), f, p) && NodesBelow(nodes, nextNode)
      ensures BytesGo(old(View()), View(), u, p, p + soFar, need, slots[p].size, minHole) && units == old(units)
    {
      hide Kempt, Asking, OnlyHole, NodesBelow, Fitted, EmptyAdded, EmptyBytes, Cut, Aligned;
      ghost var c0 := View();
      AskingNode(c0, f, need);
      CutHole(c0, {}, p, need);
      CutParts(c0.slots, p, need);
      slots := Cut(slots, p, need);
      ghost var c1 := View();
      ghost var n := PrependEmpty(p + NodeSize(nodes[f]), soFar - need, {});
      SplitFits(c0, c1, View(), f, u, p, soFar, need, n);
    }

    /** The bytes of an evicted run: more of the unit is taken if they are too few, and what is left
        over becomes an empty slot if it is large enough. */
    method FitRun(f: NodeId, u: UnitId, p: Pc, soFar: nat, need: nat)
      requires Waiting(View(), f, u, p, soFar, need) && (soFar >= need || p + soFar == units[u].cur)
      requires (minHole == 28 || minHole == 64) && RoomOk(units, order, minHole) && NodesBelow(nodes, nextNode)
      requires Kempt(View(), {})
      modifies `nodes, `hdr, `fifo, `nextNode, `units, `slots, `list
      ensures Kempt(View(), {}) && Fitted(old(View()), View(), f, p) && NodesBelow(nodes, nextNode)
      ensures BytesGo(old(View()), View(), u, p, p + soFar, need, slots[p].size, minHole)
      ensures RoomOk(units, order, minHole)
    {
      hide Kempt, RoomOk, NodesBelow, Fitted, Waiting, BytesGo;
      ghost var c0 := View();
      WaitingUnit(c0, f, u, p, soFar, need);
      if soFar < need {
        FitStretch(f, u, p, soFar, need);
        FewerNodes(c0.nodes, nextNode, nodes);
      } else if soFar - need < minHole {
        FitWhole(f, u, p, soFar, need);
        FewerNodes(c0.nodes, nextNode, nodes);
      } else {
        FitSplit(f, u, p, soFar, need);
      }
    }

    /** The placed fragment joins the list as the owner of the hole at p. */
    method Enqueue(f: NodeId, ghost p: Pc)
      requires f !in list && FitsHole(nodes, hdr, slots, p, f)
      requires Kempt(View(), {})
      modifies `nodes, `fifo, `slots, `list
      ensures Kempt(View(), {}) && slots == SetKind(old(slots), p, Live(f)) && list == old(list) + [f]
      ensures SameBodies(old(nodes), nodes)
    {
      hide Kempt, SameBodies;
      FifoAppend(f);
      QueueFits(old(nodes), nodes, hdr, slots, p, f);
      OwnKempt(View(), p, f);
      slots := SetKind(slots, p, Live(f));
    }

    /** place_fragment and fifo_append: f takes the hole at p. */
    method Settle(f: NodeId, p: Pc, ghost c1: Private)
      requires Fitted(c1, View(), f, p)
      requires Kempt(View(), {})
      modifies `nodes, `hdr, `fifo, `slots, `list
      ensures Kempt(View(), {}) && slots == SetKind(old(slots), p, Live(f)) && list == old(list) + [f]
      ensures f in old(nodes) && SameBodies(StartAt(old(nodes), f, p), nodes)
    {
      hide Kempt, Fitted, FitsHole, SameBodies;
      ghost var c2 := View();
      FittedNode(c1, c2, f, p);
      PlaceFragment(f, p);
      ghost var c3 := View();
      PlaceFits(c1, c2, c3, f, p);
      Enqueue(f, p);
    }

    /** replace_fragments: all or nothing.  Either a slot that starts in the need bytes from first
        may not be deleted and nothing changes, or exactly those slots are evicted. */
    method ReplaceFragments(f: NodeId, u: UnitId, first: NodeId, need: nat, regenerated: bool, ghost p: Pc)
      returns (ok: bool, ghost e: Pc)
      requires p in slots && slots[p].kind == Live(first) && slots[p].unit == u && u in units
      requires p + need <= units[u].end
      requires Asking(View(), f, need) && (minHole == 28 || minHole == 64)
      requires NoHoles(slots) && RoomOk(units, order, minHole) && NodesBelow(nodes, nextNode)
      requires Kempt(View(), {})
      modifies `nodes, `hdr, `fifo, `nextNode, `units, `slots, `list, wset`numReplaced, wset`numRegenerated
      ensures ok <==> old(Evictable(View(), p, need))
      ensures ok <==>
        old(forall q ::
              q in slots && p <= q < p + need && slots[q].kind.Live? && slots[q].kind.f in nodes ==>
              nodes[slots[q].kind.f].Frag? ==> !nodes[slots[q].kind.f].pinned)
      ensures ok ==> p in slots && slots[p].kind == Live(f) && p <= e
      ensures ok && p + need <= e ==> slots[p].size == if e - p - need < minHole then e - p else need
      ensures ok && e < p + need ==>
        var was := old(units)[u];
        slots[p].size == if was.end - p - need < 2 * minHole then was.end - p else need
      ensures !ok ==> View() == old(View()) && wset.View() == old(wset.View())
      ensures ok ==> wset.View() == W.Replacing(old(wset.View()), FragsIn(old(View()), p, p + need), regenerated)
      ensures ok ==> Replaced(old(View()), View(), f, p, e, need, minHole)
      ensures Kempt(View(), {}) && NoHoles(slots) && RoomOk(units, order, minHole) && NodesBelow(nodes, nextNode)
    {
      hide Kempt, Evictable, NoHoles, RoomOk, NodesBelow, Asking, Replaced, Evicted, Fitted, BytesGo, SameBodies;
      hide Waiting, IdsIn, FragsIn;
      ghost var c0 := View();
      e := p;
      AskingNode(c0, f, need);
      ok := CanReplace(u, first, need, p);
      EvictableIs(c0, p, need);
      if !ok {
        return;
      }
      var headerPc := StartOf(first, p);
      var soFar := EvictRun(u, first, need, p);
      e := p + soFar;
      ghost var c1 := View();
      RunGone(c0, c1, f, u, p, soFar, need);
      FewerNodes(c0.nodes, nextNode, nodes);
      FitRun(f, u, headerPc, soFar, need);
      ghost var c2 := View();
      Settle(f, headerPc, c1);
      SettleBelow(c2.nodes, nodes, f, p, nextNode);
      ReplaceDone(c0, c1, c2, View(), f, p, e, need, minHole);
      ReplacedSize(c0, View(), f, p, e, need, minHole);
      wset.CountReplacement(regenerated);
    }

    method StartOf(n: NodeId, ghost p: Pc) returns (pc: Pc)
      requires p in slots && slots[p].kind == Live(n)
      requires Kempt(View(), {})
      ensures pc == p
    {
      hide Kempt, NodeStart, NodeSize;
      ghost var k := IndexOf(View(), {}, p);
      pc := NodeStart(nodes[n]);
    }

    /** What holds between operations. */
    ghost predicate Valid()
      reads this
    {
      NoHoles(slots) && RoomOk(units, order, minHole) && NodesBelow(nodes, nextNode) && (minHole == 28 || minHole == 64)
      && Kempt(View(), {})
    }

    /** fcache_lookup_unit: the interval lookup of the unit that reserves pc. */
    method LookupUnit(pc: Pc) returns (u: Option<UnitId>)
      requires Kempt(View(), {})
      ensures u.Some? ==> u.value in units && units[u.value].start <= pc < units[u.value].reserved
      ensures forall v :: v in units && units[v].start <= pc < units[v].reserved ==> u == Some(v)
    {
      hide Kempt;
      u := None;
      if v :| v in units && Reserves(units[v], pc) {
        u := Some(v);
        UnitIs(View(), pc, v);
      }
    }

    /** One step along the list: f replaces n and its neighbours if their unit goes on far enough
        and none of them is undeletable. */
    method TryReplace(f: NodeId, n: NodeId, need: nat, regenerated: bool, ghost k: nat)
      returns (ok: bool, ghost p: Pc, ghost e: Pc)
      requires k < |list| && list[k] == n && Asking(View(), f, need)
      requires Valid()
      modifies `nodes, `hdr, `fifo, `nextNode, `units, `slots, `list, wset`numReplaced, wset`numRegenerated
      ensures Valid()
      ensures ok <==> CanTake(old(View()), n, need)
      ensures n in old(nodes) && p == NodeStart(old(nodes)[n]) && p in old(slots) && old(slots)[p].unit in old(units)
      ensures ok <==>
        && p + need <= old(units)[old(slots)[p].unit].end
        && old(forall q ::
                 q in slots && p <= q < p + need && slots[q].kind.Live? && slots[q].kind.f in nodes ==>
                 nodes[slots[q].kind.f].Frag? ==> !nodes[slots[q].kind.f].pinned)
      ensures !ok ==> View() == old(View()) && wset.View() == old(wset.View())
      ensures ok ==> wset.View() == W.Replacing(old(wset.View()), FragsIn(old(View()), p, p + need), regenerated)
      ensures ok ==>
        Replaced(old(View()), View(), f, p, e, need, minHole) && n in old(nodes) && p == NodeStart(old(nodes)[n])
    {
      hide Kempt, Evictable, NoHoles, RoomOk, NodesBelow, Asking, Replaced, NodeStart, FragsIn;
      MemberKnown(View(), k);
      p, e, ok := NodeStart(nodes[n]), 0, false;
      MemberAt(View(), k, p);
      var found := LookupUnit(nodes[n].startPc);
      assert Reserves(units[slots[p].unit], nodes[n].startPc);
      var u := found.value;
      if units[u].end - NodeStart(nodes[n]) >= need {
        ok, e := ReplaceFragments(f, u, n, need, regenerated, p);
      }
    }

    /** replace_fifo: the first member of the list from fifo on that can be taken over. */
    method ReplaceFifo(
      f: NodeId, need: nat, start: Option<NodeId>, regenerated: bool, ghost i: nat)
      returns (ok: bool, ghost k: nat, ghost p: Pc, ghost e: Pc)
      requires i <= |list| && start == (if i < |list| then Some(list[i]) else None) && Asking(View(), f, need)
      requires Valid()
      modifies `nodes, `hdr, `fifo, `nextNode, `units, `slots, `list, wset`numReplaced, wset`numRegenerated
      ensures Valid()
      ensures !ok ==> View() == old(View()) && wset.View() == old(wset.View()) && NoneCan(View(), i, |list|, need)
      ensures ok ==> wset.View() == W.Replacing(old(wset.View()), FragsIn(old(View()), p, p + need), regenerated)
      ensures ok ==>
        i <= k < |old(list)| && NoneCan(old(View()), i, k, need) && CanTake(old(View()), old(list)[k], need)
      ensures ok ==>
        Replaced(old(View()), View(), f, p, e, need, minHole)
        && old(list)[k] in old(nodes) && p == NodeStart(old(nodes)[old(list)[k]])
    {
      hide Kempt, NoHoles, RoomOk, NodesBelow, Asking, Replaced, NodeStart, CanTake, NoneCan, FragsIn;
      var next := start;
      ok, k, p, e := false, i, 0, 0;
      NoneYet(View(), i, need);
      while next != None
        invariant i <= k <= |list| && next == (if k < |list| then Some(list[k]) else None) && !ok
        invariant View() == old(View()) && wset.View() == old(wset.View())
        invariant Valid() && NoneCan(View(), i, k, need)
        decreases |list| - k
      {
        ok, p, e := TryReplace(f, next.value, need, regenerated, k);
        if ok {
          MemberKnown(old(View()), k);
          return;
        }
        NoneMore(View(), i, k, need);
        MemberKnown(View(), k);
        MemberAt(View(), k, NodeStart(nodes[next.value]));
        next, k := nodes[next.value].next, k + 1;
      }
    }

    /** The append path of add_fragment_common. */
    method AppendFragment(f: NodeId, u: UnitId, need: nat)
      requires Asking(View(), f, need) && |order| > 0 && u == order[0] && u in units
      requires units[u].cur + need <= units[u].end
      requires Valid()
      modifies `nodes, `hdr, `fifo, `units, `slots, `list
      ensures Valid() && Appended(old(View()), View(), f, u, need, minHole)
      ensures u in units && units[u].cur ==
        var was := old(units)[u]; if was.end - was.cur - need < 2 * minHole then was.end else was.cur + need
    {
      hide Kempt, NoHoles, RoomOk, NodesBelow, Asking, FitsHole, SameBodies, Aligned, Resized, EndTaken;
      ghost var c0 := View();
      var p := units[u].cur;
      AskingNode(c0, f, need);
      EndVacant(c0, u);
      PlaceFragment(f, p);
      ghost var c1 := View();
      var extra := ExtendUnitEnd(u, need);
      ghost var c2 := View();
      PlacedResize(c0, c2, f, u, p, need, extra, minHole);
      if extra > 0 {
        nodes := nodes[f := Resized(nodes[f], need + extra)];
        RewriteKempt(c2, View(), f, p);
      }
      ghost var c3 := View();
      Enqueue(f, p);
      AppendDone(c0, c2, c3, View(), order, f, u, need, extra, minHole, nextNode);
    }

    /** The first step of add_fragment_common: the empty slots at the front of the list, in order. */
    method ReplaceEmpty(
      f: NodeId, need: nat, regenerated: bool)
      returns (ok: bool, next: Option<NodeId>, ghost k: nat, ghost p: Pc, ghost e: Pc)
      requires Asking(View(), f, need)
      requires Valid()
      modifies `nodes, `hdr, `fifo, `nextNode, `units, `slots, `list, wset`numReplaced, wset`numRegenerated
      ensures Valid()
      ensures !ok ==> View() == old(View()) && k <= |list| && next == (if k < |list| then Some(list[k]) else None)
      ensures !ok ==> NoneCan(View(), 0, k, need) && NoEmptyCan(View(), need) && wset.View() == old(wset.View())
      ensures ok ==> wset.View() == W.Replacing(old(wset.View()), FragsIn(old(View()), p, p + need), regenerated)
      ensures ok ==>
        k < |old(list)| && NoneCan(old(View()), 0, k, need) && CanTake(old(View()), old(list)[k], need)
        && old(list)[k] in old(nodes)
      ensures ok ==>
        old(nodes)[old(list)[k]].Empty? && Replaced(old(View()), View(), f, p, e, need, minHole)
        && p == NodeStart(old(nodes)[old(list)[k]])
    {
      hide Kempt, NoHoles, RoomOk, NodesBelow, Asking, Replaced, NodeStart, CanTake, NoneCan, NoEmptyCan, FragsIn;
      ok, next, k, p, e := false, fifo, 0, 0, 0;
      FirstMember(View());
      NoneYet(View(), 0, need);
      if |list| > 0 { MemberKnown(View(), 0); }
      while next != None && nodes[next.value].Empty?
        invariant k <= |list| && next == (if k < |list| then Some(list[k]) else None) && !ok && View() == old(View())
        invariant (next.Some? ==> next.value in nodes) && wset.View() == old(wset.View())
        invariant Valid() && NoneCan(View(), 0, k, need)
        decreases |list| - k
      {
        ok, p, e := TryReplace(f, next.value, need, regenerated, k);
        if ok {
          return;
        }
        NoneMore(View(), 0, k, need);
        MemberAt(View(), k, MemberStart(View(), k));
        if k + 1 < |list| { MemberKnown(View(), k + 1); }
        next, k := nodes[next.value].next, k + 1;
      }
      EmptiesTried(View(), k, need);
    }

    /** fcache_remove_fragment: its bytes become part of an empty slot at the front of the list. */
    method RemoveFragment(f: NodeId, ghost p: Pc)
      requires p in slots && slots[p].kind == Live(f) && f in nodes && nodes[f].Frag?
      requires Valid()
      modifies `nodes, `hdr, `fifo, `nextNode, `slots, `list
      ensures Valid() && RemovedFrag(old(View()), View(), f, p)
      ensures var l, was := old(list), old(nodes);
        |list| ==
          if l[0] in was && was[l[0]].Empty?
            && (was[l[0]].startPc - 8 == p + old(slots)[p].size || was[l[0]].startPc - 8 + was[l[0]].fcacheSize == p)
          then |l| - 1 else |l|
    {
      hide Kempt, NoHoles, NodesBelow, EmptyAdded, SameBodies, Without, SlotsKept, EmptyBytes, FragsSame;
      ghost var c0 := View();
      VacateKempt(c0, {}, p);
      assert {} + {f} == {f} && {f} - {f} == {};
      SlotOfNode(c0, p);
      var hdrStart, size := NodeStart(nodes[f]), NodeSize(nodes[f]);
      slots := SetKind(slots, p, Hole);
      ghost var c1 := View();
      ghost var n := PrependEmpty(hdrStart, size, {f});
      ghost var c2 := View();
      ghost var k := OutIndex(c2, f);
      FifoRemove(f, k, {f});
      RemoveDone(c0, c1, c2, View(), f, p, n, k, nextNode);
    }

    /** fcache_shift_start_pc */
    method ShiftStartPc(f: NodeId, space: nat, ghost p: Pc)
      requires p in slots && slots[p].kind == Live(f) && f in nodes && nodes[f].Frag? && nodes[f].shiftable
      requires nodes[f].startPc % START_PC_ALIGNMENT == 0
      requires space <= nodes[f].size && space <= START_PC_ALIGNMENT - 1
      requires Valid()
      modifies `nodes
      ensures Valid() && f in nodes && nodes == old(nodes)[f := ShiftNode(old(nodes)[f], space)]
      ensures NodeStart(nodes[f]) == p && NodeSize(nodes[f]) == slots[p].size
      ensures nodes[f].startPc == old(nodes)[f].startPc + space && nodes[f].size == old(nodes)[f].size - space
    {
      hide Kempt, NoHoles, RoomOk, NodesBelow;
      ShiftKempt(View(), f, p, space);
      FewerNodes(nodes, nextNode, nodes[f := ShiftNode(nodes[f], space)]);
      nodes := nodes[f := ShiftNode(nodes[f], space)];
    }

    /** The decision of fcache_return_extra_space: move the append point back over the last r bytes of
        the slot at p, join them to the empty slot that follows, make them an empty slot, or keep them. */
    method ReturnHow(u: UnitId, end: Pc, r: nat, ghost p: Pc) returns (pull: bool, join: bool, add: bool)
      requires p in slots && end == End(slots, p) && u == slots[p].unit && u in units && slots[p].kind.Live?
      requires Valid()
      ensures pull || join || add <==>
        && r > 0
        && (if end == units[u].end then r >= 2 * minHole
            else end == units[u].cur || r >= minHole || (end in hdr && hdr[end] in nodes && nodes[hdr[end]].Empty?))
      ensures pull <==> NodeWorth(View(), minHole, p, r) && u == order[0] && units[u].cur == end
      ensures join <==> NodeWorth(View(), minHole, p, r) && !pull && IsEmptySlot(View(), end)
      ensures add <==> NodeWorth(View(), minHole, p, r) && !pull && !join
      ensures pull && units[u].full ==> r >= 2 * minHole
      ensures join || add ==> r >= minHole || IsEmptySlot(View(), end)
      ensures join ==> end in hdr && end in slots && slots[end].kind == Live(hdr[end]) && slots[end].unit == u
    {
      hide Kempt, NoHoles, RoomOk, NodesBelow, NodeStart, NodeSize;
      pull, join, add := false, false, false;
      RoomFull(units, order, minHole, u);
      EndVacant(View(), u);
      CurBelow(View(), p);
      if r > 0 {
        if end == units[u].end {
          if r >= 2 * minHole {
            pull, add := u == order[0], u != order[0];
          }
        } else if end == units[u].cur {
          pull := true;
        } else {
          TrimNext(View(), p);
          join := nodes[hdr[end]].Empty?;
          add := !join && r >= minHole;
        }
      }
    }

    /** The fragment's record and slot shrink; the rest of the slot is a hole. */
    method CutSlot(f: NodeId, ghost p: Pc, ghost n: nat, node: Node)
      requires p in slots && 0 < n < slots[p].size
      modifies `nodes, `slots
      ensures View() == Trimmed(old(View()), f, p, n, node)
    {
      hide Cut;
      nodes := nodes[f := node];
      slots := Cut(slots, p, n);
    }

    method MoveBack(u: UnitId, q: Pc)
      requires u in units
      modifies `units, `slots
      ensures View() == PulledBack(old(View()), u, q)
    {
      units := units[u := units[u].(cur := q, full := false)];
      slots := slots - {q};
    }

    /** The empty slot e takes in the hole of size bytes before it. */
    method EnlargeNext(q: Pc, size: nat, e: NodeId)
      requires IsHole(slots, q) && slots[q].size == size && End(slots, q) in slots && e in nodes && nodes[e].Empty?
      modifies `nodes, `hdr, `slots
      ensures View() == JoinedNext(old(View()), q, e)
    {
      hide SetKind;
      nodes := nodes[e := nodes[e].(startPc := q + PTR, fcacheSize := nodes[e].fcacheSize + size)];
      hdr := hdr[q := e];
      slots := SetKind(MergeNext(slots, q), q, Live(e));
    }

    /** The end of the slot of f, r bytes from q on, goes where the decision says. */
    method HandOver(f: NodeId, u: UnitId, q: Pc, r: nat, space: nat, node: Node, pull: bool, join: bool, ghost p: Pc)
      requires p in slots && CanCut(View(), f, p, q, r, space, node) && u == slots[p].unit && u in units && |order| > 0
      requires pull <==> u == order[0] && units[u].cur == q + r
      requires join <==> !pull && IsEmptySlot(View(), q + r)
      requires pull && units[u].full ==> r >= 2 * minHole
      requires !pull && !join ==> r >= minHole
      requires join ==> q + r in hdr && slots[q + r].kind == Live(hdr[q + r]) && slots[q + r].unit == u
      requires Valid()
      modifies `nodes, `hdr, `fifo, `nextNode, `units, `slots, `list
      ensures Valid() && NodeTrimmed(old(View()), View(), f, p, space, r)
      ensures GivenUp(old(View()), View(), order, p, q, r)
    {
      hide Kempt, NoHoles, RoomOk, NodesBelow, NodeTrimmed, GivenUp, EmptyAdded, IsEmptySlot, Trimmed, PulledBack;
      hide JoinedNext, OnlyHole, CanCut;
      ghost var c0 := View();
      CurBelow(c0, p);
      CutDone(c0, f, p, q, r, space, node, nextNode);
      CutSlot(f, p, q - p, node);
      if pull {
        PullDone(c0, order, f, p, q, r, space, node, minHole);
        MoveBack(u, q);
      } else if join {
        var e := hdr[q + r];
        JoinDone(c0, order, f, p, q, r, space, node, e, nextNode);
        EnlargeNext(q, r, e);
      } else {
        ghost var e := PrependEmpty(q, r, {});
        AddDone(c0, View(), order, f, p, q, r, space, node, e);
      }
    }

    /** fcache_return_extra_space.  The fragment's own fields are written before its bytes are handed
        over; nothing in between looks at them. */
    method ReturnExtraSpace(f: NodeId, space: nat, ghost p: Pc) returns (ghost given: nat)
      requires p in slots && slots[p].kind == Live(f) && f in nodes && nodes[f].Frag? && space <= nodes[f].size
      requires Valid()
      modifies `nodes, `hdr, `fifo, `nextNode, `units, `slots, `list
      ensures Valid() && NodeTrimmed(old(View()), View(), f, p, space, given)
      ensures given ==
        var r := NodeReturnable(old(nodes)[f], space, align); if NodeWorth(old(View()), minHole, p, r) then r else 0
      ensures GivenUp(old(View()), View(), order, p, p + old(slots)[p].size - given, given)
    {
      hide Kempt, NoHoles, RoomOk, NodesBelow, NodeTrimmed, GivenUp, NodeStart, NodeSize, Aligned, CanPlan, NodePlan;
      hide TrimNode, CanCut, IsEmptySlot;
      ghost var c0 := View();
      TrimStart(c0, f, p, space);
      var found := LookupUnit(nodes[f].startPc);
      assert Reserves(units[slots[p].unit], nodes[f].startPc);
      var u := found.value;
      RoomFull(units, order, minHole, u);
      var g := NodePlan(nodes[f], space, align);
      var end := NodeStart(nodes[f]) + NodeSize(nodes[f]);
      TrimBounds(c0, f, p, space);
      var pull, join, add := ReturnHow(u, end, g.returnable, p);
      var released := pull || join || add;
      given := if released then g.returnable else 0;
      TrimReady(c0, f, p, space, released);
      var node := TrimNode(nodes[f], space, g, released);
      if released {
        HandOver(f, u, end - g.returnable, g.returnable, space, node, pull, join, p);
      } else {
        KeepDone(c0, order, f, p, node, space);
        FewerNodes(nodes, nextNode, nodes[f := node]);
        nodes := nodes[f := node];
      }
    }

    /** The part of try_for_more_space that commits more of the first unit's reservation. */
    method CommitMore(need: nat) returns (fits: bool)
      requires |order| > 0 && order[0] in units && units[order[0]].end < units[order[0]].reserved
      requires GrowthOk() && PagesOk(units) && Rank(units, order, need) > 0 && 0 < need
      requires Valid()
      modifies `units, wset`size
      ensures Valid() && PagesOk(units) && GrewFrom(old(View()), View())
      ensures units.Keys == old(units).Keys && UnitsStay(old(units), units)
      ensures fits <==> old(Rank(units, order, need)) == 1
      ensures fits <==> old(units)[order[0]].cur + need <= old(units)[order[0]].reserved
      ensures if fits then Rank(units, order, need) == 0
              else order[0] in units && units[order[0]].end == units[order[0]].reserved
    {
      hide Kempt, NoHoles, NodesBelow, GrewFrom, PagesOk, UnitsStay;
      ghost var c0, v := View(), order[0];
      RoomUnit(units, order, minHole);
      CloseRest(c0, v);
      UnitPages(units, v);
      var commit, k := CommitSize(units[order[0]], need, commitIncrement);
      PagesRest(units[v].end, commit);
      ExtendCommitment(commit);
      StayOne(c0.units, v, units[v]);
      PagesStill(c0.units, v, units[v]);
      GrewUnits(c0, units);
      fits := units[order[0]].cur + need <= units[order[0]].end;
    }

    /** The part of try_for_more_space that closes the first unit and puts the unit that
        fcache_create_unit returns in its place. */
    method StartNewUnit(need: nat, u: UnitId, unit: Unit)
      requires |order| > 0 && order[0] in units
      requires CanOpen(units, u, unit, NewUnitSize(maxUnit, need)) && GrowthOk() && PagesOk(units)
      requires Valid()
      modifies `nodes, `hdr, `fifo, `nextNode, `units, `order, `slots, `list
      modifies wset`size, wset`numReplaced, wset`numRegenerated
      ensures Valid() && PagesOk(units) && GrewFrom(old(View()), View()) && Rank(units, order, need) <= 1
      ensures wset.View() == SpaceTaken(old(wset.View()), wset.size, true)
      ensures wset.numReplaced == 0 && wset.numRegenerated == 0
    {
      hide Kempt, NoHoles, NodesBelow, CanOpen, GrewFrom, NewUnitSize, PagesOk, UnitsStay;
      ghost var c0, v := View(), order[0];
      NewSizeOk(maxUnit, need);
      UnitPages(units, v);
      CloseUnit();
      ghost var c1 := View();
      StayOne(c0.units, v, units[v]);
      PagesStill(c0.units, v, units[v]);
      CanOpenStill(c0.units, units, u, unit, NewUnitSize(maxUnit, need));
      OpenUnit(u, unit, NewUnitSize(maxUnit, need));
      CanOpenIs(c1.units, u, unit, NewUnitSize(maxUnit, need));
      StayOne(c1.units, u, unit);
      PagesStill(c1.units, u, unit);
      GrewUnits(c1, units);
      ListKnown(c1, {});
      GrewTwice(c0, c1, View());
      wset.ResetCounters();
    }

    /** try_for_more_space without a maximum size: more of the first unit is committed, or it is closed
        and the unit that fcache_create_unit returns becomes the first. */
    method TryForMoreSpace(need: nat, u: UnitId, unit: Unit)
      requires Rank(units, order, need) > 0
      requires (Rank(units, order, need) == 2 ==> CanOpen(units, u, unit, NewUnitSize(maxUnit, need)))
      requires GrowthOk() && PagesOk(units) && 0 < need
      requires Valid()
      modifies `nodes, `hdr, `fifo, `nextNode, `units, `order, `slots, `list
      modifies wset`size, wset`numReplaced, wset`numRegenerated
      ensures Valid() && PagesOk(units) && GrewFrom(old(View()), View())
      ensures wset.View() == SpaceTaken(old(wset.View()), wset.size, old(Rank(units, order, need)) == 2)
      ensures Rank(units, order, need) < old(Rank(units, order, need))
    {
      hide Kempt, NoHoles, NodesBelow, CanOpen, GrewFrom, NewUnitSize, PagesOk, UnitsStay;
      ghost var c0 := View();
      RoomUnit(units, order, minHole);
      CloseRest(c0, order[0]);
      UnitPages(units, order[0]);
      if units[order[0]].end < units[order[0]].reserved {
        var fits := CommitMore(need);
        if fits {
          return;
        }
        CanOpenStill(c0.units, units, u, unit, NewUnitSize(maxUnit, need));
      } else {
        GrewNot(c0);
      }
      ghost var c1 := View();
      StartNewUnit(need, u, unit);
      GrewOn(c0, c1, View());
    }

    /** A cache without a maximum size, which grows in pages. */
    ghost predicate GrowthOk() {
      && 0 < commitIncrement && commitIncrement % PAGE == 0 && maxUnit % PAGE == 0
      && wset.fifo && wset.maxSize == 0 && wset.maxUnitSize == maxUnit
    }

    /** add_fragment_common as far as it needs no more space: an empty slot is taken over if one can be,
        else the end of the first unit is used if it has room, else, unless the working set warrants that
        the cache grows, the first member of the list that can be taken over makes way. */
    method AddWithin(f: NodeId, need: nat, regenerated: bool) returns (ok: bool, ghost how: Way)
      requires Asking(View(), f, need)
      requires Valid()
      modifies `nodes, `hdr, `fifo, `nextNode, `units, `slots, `list, wset
      ensures Valid()
      ensures ok <==> !MustGrow(old(View()), order, need, W.Decision(old(wset.View()), need).1)
      ensures ok ==> Added(old(View()), View(), order, f, need, minHole, how)
      ensures var s := Considered(old(wset.View()), old(View()), order, need);
        wset.View() == if ok then Counted(s, old(View()), need, how, regenerated) else s
      ensures !ok ==> View() == old(View()) && Asks(old(View()), order, need)
      ensures |order| > 0 && order[0] in old(units)
      ensures var was := old(units)[order[0]];
        ok && how.AtEnd? ==> !was.full && was.end - was.cur >= need
      ensures var was, l, n := old(units)[order[0]], old(list), old(nodes);
        !ok || (how.TakeOver? && how.k < |l| && l[how.k] in n && n[l[how.k]].Frag?) ==>
        was.full || was.end - was.cur < need
    {
      hide Kempt, NoHoles, NodesBelow, Asking, Replaced, NodeStart, CanTake, NoneCan, NoEmptyCan, Appended, Added;
      hide W.Decision, FragsIn, MustGrow, Asks;
      ghost var c0 := View();
      RoomUnit(units, order, minHole);
      AskingNode(c0, f, need);
      how := AtEnd;
      var next;
      ghost var i, k, p, e;
      ok, next, i, p, e := ReplaceEmpty(f, need, regenerated);
      if ok {
        how := TakeOver(i, p, e);
        AddedEmpty(c0, View(), order, f, need, minHole, i, p, e);
        return;
      }
      var v := order[0];
      if !units[v].full && units[v].end - units[v].cur >= need {
        AppendFragment(f, v, need);
        AddedAtEnd(c0, View(), order, f, need, minHole);
        return true, AtEnd;
      }
      AsksNow(c0, order, need);
      var grow := wset.CheckRegenReplaceRatio(need);
      if !grow {
        ok, k, p, e := ReplaceFifo(f, need, next, regenerated, i);
        NoneJoin(c0, 0, i, if ok then k else |c0.list|, need);
        if ok {
          how := TakeOver(k, p, e);
          AddedLater(c0, View(), order, f, need, minHole, k, p, e);
          return;
        }
      }
      GrowsNow(c0, order, need, grow);
    }

    /** The same on a private cache that is at its maximum size: the working set has no say. */
    method AddAtMaximum(f: NodeId, need: nat, regenerated: bool) returns (ok: bool, ghost how: Way)
      requires Asking(View(), f, need) && W.AtMax(wset.View(), need)
      requires Valid()
      modifies `nodes, `hdr, `fifo, `nextNode, `units, `slots, `list, wset
      ensures Valid()
      ensures ok ==> Added(old(View()), View(), order, f, need, minHole, how)
      ensures ok ==> wset.View() == Counted(old(wset.View()), old(View()), need, how, regenerated)
      ensures !ok ==> View() == old(View()) && wset.View() == old(wset.View())
      ensures !ok ==> NoneCan(View(), 0, |list|, need) && !EndFits(units, order, need)
    {
      hide Kempt, NoHoles, RoomOk, NodesBelow, Asking, NoneCan, NoEmptyCan, Counted, Added;
      ok, how := AddWithin(f, need, regenerated);
    }

    /** add_fragment_common on a private cache without a maximum size: when the fragment cannot be placed
        within the cache as it is, the cache grows and the search starts again.  mid and ms are the cache
        and its working set when the fragment is placed. */
    method AddFragmentCommon(f: NodeId, need: nat, u: UnitId, unit: Unit, regenerated: bool)
      returns (ghost how: Way, ghost mid: Private, ghost ms: W.WSet, ghost calls: nat)
      requires Asking(View(), f, need) && GrowthOk() && PagesOk(units)
      requires Rank(units, order, need) == 2 ==> CanOpen(units, u, unit, NewUnitSize(maxUnit, need))
      requires Valid()
      modifies `nodes, `hdr, `fifo, `nextNode, `units, `order, `slots, `list, wset
      ensures Valid() && PagesOk(units)
      ensures GrewFrom(old(View()), mid) && Kempt(mid, {}) && Added(mid, View(), order, f, need, minHole, how)
      ensures wset.View() == Counted(ms, mid, need, how, regenerated)
      ensures calls <= old(Rank(units, order, need)) <= 2
      ensures calls == 0 ==> mid == old(View()) && ms == Considered(old(wset.View()), old(View()), old(order), need)
      ensures calls > 0 <==>
        MustGrow(old(View()), old(order), need, W.Decision(old(wset.View()), need).1)
      ensures Asked(old(wset.View()), ms, need, calls)
      decreases Rank(units, order, need)
    {
      hide Kempt, NoHoles, NodesBelow, Asking, Added, CanOpen, W.Decision, Asked, Counted, Asks;
      hide GrewFrom, NewUnitSize, PagesOk, MustGrow;
      ghost var c0, s0 := View(), wset.View();
      calls, mid, ms := 0, c0, Considered(s0, c0, order, need);
      GrewNot(c0);
      AskedNone(s0, c0, order, need);
      RoomUnit(units, order, minHole);
      CloseRest(c0, order[0]);
      AskingNode(c0, f, need);
      ghost var rank := Rank(units, order, need);
      var ok;
      ok, how := AddWithin(f, need, regenerated);
      if ok {
        PagesAfter(c0, View(), order, f, need, minHole, how);
        return;
      }
      GrowsRank(c0, order, need);
      TryForMoreSpace(need, u, unit);
      ghost var c1, s1 := View(), wset.View();
      StillAsking(c0, c1, f, need);
      how, mid, ms, calls := AddFragmentCommon(f, need, u, unit, regenerated);
      GrewOn(c0, c1, mid);
      AskedMore(s0, s1, ms, need, s1.size, rank == 2, calls);
      calls := calls + 1;
    }

    /** fcache_add_fragment on a private cache without a maximum size. */
    method AddFragment(f: NodeId, u: UnitId, unit: Unit, regenerated: bool)
      returns (ghost how: Way, ghost need: nat, ghost asked: Private, ghost mid: Private, ghost ms: W.WSet)
      requires f in nodes && nodes[f].Frag? && f !in list && IsAlign(align) && GrowthOk() && PagesOk(units)
      requires CanOpen(units, u, unit, NewUnitSize(maxUnit, SlotSize(nodes[f].size, align)))
      requires Valid()
      modifies `nodes, `hdr, `fifo, `nextNode, `units, `order, `slots, `list, wset
      ensures Valid() && PagesOk(units) && need == SlotSize(old(nodes)[f].size, align) && old(nodes)[f].size <= need
      ensures LeastSlot(need, old(nodes)[f].size, align)
      ensures asked == old(View()).(nodes := old(nodes)[f := PreparedNode(old(nodes)[f], need)])
      ensures GrewFrom(asked, mid) && Added(mid, View(), order, f, need, minHole, how)
      ensures wset.View() == Counted(ms, mid, need, how, regenerated)
      ensures MustGrow(asked, old(order), need, W.Decision(old(wset.View()), need).1) || mid == asked
    {
      hide Kempt, NoHoles, RoomOk, NodesBelow, Asking, Added, SlotSize, GrewFrom, CanOpen, NewUnitSize, PagesOk;
      hide MustGrow, FragsIn, Asked, LeastSlot;
      ghost var c0 := View();
      RoomUnit(units, order, minHole);
      SlotSizeLeast(nodes[f].size, align);
      PrepareAsk(c0, f, order[0]);
      var slotSize := SlotSize(nodes[f].size, align);
      need := slotSize;
      nodes := nodes[f := PreparedNode(nodes[f], slotSize)];
      FewerNodes(c0.nodes, nextNode, nodes);
      asked := View();
      ghost var calls;
      how, mid, ms, calls := AddFragmentCommon(f, slotSize, u, unit, regenerated);
    }

    /** extend_unit_end(unit, 0, true) on the first unit: the rest of it becomes an empty slot. */
    method CloseUnit()
      requires |order| > 0 && order[0] in units
      requires Valid()
      modifies `nodes, `hdr, `fifo, `nextNode, `units, `slots, `list
      ensures Valid() && GrewFrom(old(View()), View())
      ensures units == old(units)[order[0] := old(units)[order[0]].(cur := old(units)[order[0]].end, full := true)]
      ensures old(units)[order[0]].cur < old(units)[order[0]].end ==>
        EmptyBytes(View(), old(units)[order[0]].cur, old(units)[order[0]].end - old(units)[order[0]].cur)
    {
      hide Kempt, NodesBelow, EmptyBytes, Aligned, NoHoles, SlotsKept, FragsSame, GrewFrom, UnitsStay, NoNewFrags;
      ghost var c0 := View();
      var u := order[0];
      CloseRest(c0, u);
      var left := units[u].end - units[u].cur;
      if left < 2 * minHole {
        if left > 0 {
          assert false;
        }
        assert units[u].full;
        assert units == units[u := units[u].(cur := units[u].end, full := true)];
        GrewNot(c0);
      } else {
        Stretch(c0, {}, u, left, true);
        var pc := units[u].cur;
        slots := slots[pc := Slot(left, u, Hole)];
        units := units[u := units[u].(cur := units[u].cur + left, full := true)];
        ghost var c1 := View();
        ghost var n := PrependEmpty(pc, left, {});
        StayOne(c0.units, u, c1.units[u]);
        GrewClosed(c0, c1, View(), pc, n) by { assert EmptyAdded(c1, View(), pc, n); }
        HolesGone(c1, View(), pc) by { OneHole(c0.slots, pc, Slot(left, u, Hole)); }
      }
    }

    /** The new unit of try_for_more_space, put at the front of the cache's list once the first unit
        is closed. */
    method OpenUnit(u: UnitId, unit: Unit, ghost size: nat)
      requires CanOpen(units, u, unit, size) && |order| > 0 && order[0] in units && units[order[0]].full
      requires Valid()
      modifies `units, `order, wset`size
      ensures Valid() && order == [u] + old(order) && units == old(units)[u := unit]
      ensures wset.size == old(wset.size) + unit.end - unit.start
    {
      hide Kempt, NoHoles, NodesBelow;
      OpenKempt(View(), u, unit);
      units := units[u := unit];
      order := [u] + order;
      wset.size := wset.size + (unit.end - unit.start);
    }

    /** cache_extend_commitment on the first unit. */
    method ExtendCommitment(n: nat)
      requires |order| > 0 && order[0] in units && 0 < n && n % PAGE == 0
      requires units[order[0]].end + n <= units[order[0]].reserved
      requires Valid()
      modifies `units, wset`size
      ensures Valid() && wset.size == old(wset.size) + n
      ensures units == old(units)[order[0] := old(units)[order[0]].(end := old(units)[order[0]].end + n, full := false)]
    {
      hide Kempt, NoHoles, NodesBelow;
      CommitKempt(View(), order[0], n, false);
      CloseRest(View(), order[0]);
      units := units[order[0] := units[order[0]].(end := units[order[0]].end + n, full := false)];
      wset.size := wset.size + n;
    }

    /** fcache_cache_init: one empty unit and an empty list. */
    constructor (
      align: nat, minHole: nat, commitIncrement: nat, maxUnit: nat, wset: W.WorkingSetState, nodes: Nodes,
      nextNode: NodeId, base: Pc, size: nat, commit: nat)
      requires IsAlign(align) && (minHole == 28 || minHole == 64) && NodesBelow(nodes, nextNode)
      requires base % PAGE == 0 && size % PAGE == 0 && commit % PAGE == 0 && 0 < commit <= size <= UINT_MAX
      modifies wset`size
      ensures Valid() && PagesOk(units) && list == [] && this.nodes == nodes && this.align == align
      ensures this.minHole == minHole && this.wset == wset && wset.size == old(wset.size) + commit
      ensures this.commitIncrement == commitIncrement && this.maxUnit == maxUnit && order == [0]
      ensures units == map[0 := Unit(base, base, base + commit, base + size, false, false, true)]
    {
      hide NodesBelow, Kempt;
      PagesSum(base, commit);
      PagesSum(base, size);
      FreshKempt(align, nodes, base, size, commit);
      this.align, this.minHole, this.nodes, this.nextNode := align, minHole, nodes, nextNode;
      this.commitIncrement, this.maxUnit, this.wset := commitIncrement, maxUnit, wset;
      hdr, fifo, slots, list := map[], None, map[], [];
      units, order := map[0 := Unit(base, base, base + commit, base + size, false, false, true)], [0];
      new;
      wset.size := wset.size + commit;
    }
  }
}
