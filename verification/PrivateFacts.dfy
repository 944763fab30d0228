/** What the invariant of a private cache says about its FIFO and its bytes. */
module PrivateFacts {
  import opened Options
  import opened Memory
  import opened Layout
  import opened Fifo
  import opened PrivateModel
  import opened Eviction

  /** The FIFO is all empty slots and then all fragments; its head points back to its tail and its
      tail points nowhere. */
  lemma FifoForm(c: Private) returns (e: nat)
    requires Kempt(c, {})
    ensures e <= |c.list|
    ensures forall i :: 0 <= i < |c.list| ==> c.list[i] in c.nodes && (c.nodes[c.list[i]].Empty? <==> i < e)
    ensures c.list == [] <==> c.fifo == None
    ensures c.list != [] ==>
      c.fifo == Some(c.list[0]) && c.nodes[c.list[0]].prev == c.list[|c.list| - 1]
      && c.nodes[c.list[|c.list| - 1]].next == None
  {
    hide Ground, SlotsHold, ListedAll, LinksAt, EmptiesFirst;
    e := Empties(c.nodes, c.list);
    if c.list != [] {
      LinksKnown(c.nodes, c.fifo, c.list, 0);
      LinksKnown(c.nodes, c.fifo, c.list, |c.list| - 1);
    }
  }

  lemma Empties(nodes: Nodes, l: seq<NodeId>) returns (e: nat)
    requires EmptiesFirst(nodes, l)
    ensures e <= |l| && forall i :: 0 <= i < |l| ==> l[i] in nodes && (nodes[l[i]].Empty? <==> i < e)
  {
    e := 0;
    while e < |l| && nodes[l[e]].Empty?
      invariant e <= |l| && forall i :: 0 <= i < e ==> nodes[l[i]].Empty?
    {
      e := e + 1;
    }
  }

  /** Each slot's owner is on the FIFO exactly once, and each member of the FIFO owns one slot. */
  lemma OnceEach(c: Private, p: Pc) returns (k: nat)
    requires p in c.slots && NoHoles(c.slots) && Kempt(c, {})
    ensures k < |c.list| && c.slots[p].kind == Live(c.list[k])
    ensures forall i :: 0 <= i < |c.list| && c.slots[p].kind == Live(c.list[i]) ==> i == k
    ensures forall q :: q in c.slots && c.slots[q].kind == c.slots[p].kind ==> q == p
  {
    hide Ground, EmptiesFirst, LinksAt, ListedAll, NodeSize;
    AllOwned(c.nodes, c.hdr, c.slots, p);
    k := IndexOf(c, {}, p);
    forall q | q in c.slots && c.slots[q].kind == c.slots[p].kind ensures q == p {
      AllOwned(c.nodes, c.hdr, c.slots, q);
    }
  }

  lemma OwnsSlot(c: Private, k: nat) returns (p: Pc)
    requires k < |c.list| && Kempt(c, {})
    ensures p in c.slots && c.slots[p].kind == Live(c.list[k])
  {
    hide Ground, Threaded, EmptiesFirst, NodeSize;
    SlotOf(c, {}, c.list[k]);
    p := NodeStart(c.nodes[c.list[k]]);
  }

  /** Every byte before the append point of a unit lies in one slot, and in only one. */
  lemma {:induction false} ByteOwned(c: Private, u: UnitId, q: Pc, a: Pc) returns (p: Pc)
    requires q in c.slots && c.slots[q].unit == u && u in c.units && q <= a < c.units[u].cur
    requires Ground(c.align, c.units, c.slots)
    ensures p in c.slots && c.slots[p].unit == u && p <= a < End(c.slots, p)
    ensures forall x :: x in c.slots && x <= a < End(c.slots, x) ==> x == p
    decreases a - q
  {
    hide Ground;
    SlotIn(c, q);
    ApartSlots(c);
    p := q;
    if End(c.slots, q) <= a {
      p := ByteOwned(c, u, End(c.slots, q), a);
    }
  }

  lemma EveryByteOwned(c: Private, u: UnitId, a: Pc) returns (p: Pc)
    requires u in c.units && c.units[u].start <= a < c.units[u].cur
    requires Kempt(c, {})
    ensures p in c.slots && c.slots[p].unit == u && p <= a < End(c.slots, p)
    ensures forall x :: x in c.slots && x <= a < End(c.slots, x) ==> x == p
  {
    hide Ground, SlotsHold, Threaded, EmptiesFirst, ListedAll;
    UnitStart(c, u);
    p := ByteOwned(c, u, c.units[u].start, a);
  }

  lemma UnitStart(c: Private, u: UnitId)
    requires u in c.units && c.units[u].start < c.units[u].cur && Ground(c.align, c.units, c.slots)
    ensures c.units[u].start in c.slots && c.slots[c.units[u].start].unit == u
  {
    hide Apart, Chained, AllAligned;
    assert First(c.units, u) in c.slots;
  }
}
