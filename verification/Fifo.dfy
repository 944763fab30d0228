/** The FIFO of a private cache: empty slots and fragments on one doubly linked list whose head
    points back to its tail. */
module Fifo {
  import opened Options
  import opened Memory

  type NodeId = nat

  /** What the list links: an empty_slot_t or a private fragment_t. */
  datatype Node =
    | Empty(startPc: Pc, fcacheSize: nat, next: Option<NodeId>, prev: NodeId)
    | Frag(startPc: Pc, size: nat, extra: nat, shiftable: bool, pinned: bool, next: Option<NodeId>, prev: NodeId)

  type Nodes = map<NodeId, Node>

  predicate Distinct(l: seq<NodeId>) { forall i, j :: 0 <= i < j < |l| ==> l[i] != l[j] }

  function NextOf(l: seq<NodeId>, i: nat): Option<NodeId> { if i + 1 < |l| then Some(l[i + 1]) else None }

  function PrevOf(l: seq<NodeId>, i: nat): NodeId
    requires i < |l|
  {
    if i > 0 then l[i - 1] else l[|l| - 1]
  }

  function HeadOf(l: seq<NodeId>): Option<NodeId> { if |l| > 0 then Some(l[0]) else None }

  ghost predicate LinksAt(nodes: Nodes, l: seq<NodeId>, i: nat)
    requires i < |l|
  {
    l[i] in nodes && nodes[l[i]].next == NextOf(l, i) && nodes[l[i]].prev == PrevOf(l, i)
  }

  /** The head pointer and the next and prev fields thread l; the head's prev is the tail and the
      tail's next is NULL. */
  ghost predicate Threaded(nodes: Nodes, fifo: Option<NodeId>, l: seq<NodeId>) {
    Distinct(l) && fifo == HeadOf(l) && forall i :: 0 <= i < |l| ==> LinksAt(nodes, l, i)
  }

  /** All empty slots come before all fragments. */
  ghost predicate EmptiesFirst(nodes: Nodes, l: seq<NodeId>) {
    (forall i :: 0 <= i < |l| ==> l[i] in nodes)
    && forall i, j :: 0 <= i < j < |l| && nodes[l[j]].Empty? ==> nodes[l[i]].Empty?
  }

  function SetNext(nodes: Nodes, n: NodeId, next: Option<NodeId>): Nodes
    requires n in nodes
  {
    nodes[n := nodes[n].(next := next)]
  }

  function SetPrev(nodes: Nodes, n: NodeId, prev: NodeId): Nodes
    requires n in nodes
  {
    nodes[n := nodes[n].(prev := prev)]
  }

  /** The same records, apart from their links. */
  ghost predicate SameBodies(a: Nodes, b: Nodes) {
    a.Keys == b.Keys && forall n :: n in a ==> SameBody(a[n], b[n])
  }

  predicate SameBody(x: Node, y: Node) { x.(next := None, prev := 0) == y.(next := None, prev := 0) }

  function Without(l: seq<NodeId>, k: nat): seq<NodeId>
    requires k < |l|
  {
    l[..k] + l[k + 1..]
  }

  // ----- fifo_append

  function AppendLinks(nodes: Nodes, fifo: Option<NodeId>, f: NodeId): Nodes
    requires f in nodes && (fifo.Some? ==> fifo.value in nodes && nodes[fifo.value].prev in nodes)
  {
    var n1 := SetNext(nodes, f, None);
    if fifo.None? then SetPrev(n1, f, f)
    else
      var n2 := SetPrev(n1, f, n1[fifo.value].prev);
      SetPrev(SetNext(n2, n2[fifo.value].prev, Some(f)), fifo.value, f)
  }

  lemma AppendThreads(nodes: Nodes, fifo: Option<NodeId>, l: seq<NodeId>, f: NodeId)
    requires Threaded(nodes, fifo, l) && f in nodes && f !in l
    ensures fifo.Some? ==> fifo.value in nodes && nodes[fifo.value].prev in nodes
    ensures Threaded(AppendLinks(nodes, fifo, f), HeadOf(l + [f]), l + [f])
    ensures SameBodies(nodes, AppendLinks(nodes, fifo, f))
  {
    if |l| > 0 {
      assert LinksAt(nodes, l, 0) && LinksAt(nodes, l, |l| - 1);
    }
    var l', nodes' := l + [f], AppendLinks(nodes, fifo, f);
    forall i | 0 <= i < |l'| ensures LinksAt(nodes', l', i) {
      if i < |l| { assert LinksAt(nodes, l, i); }
    }
  }

  // ----- fifo_remove

  function RemoveHead(nodes: Nodes, fifo: Option<NodeId>, f: NodeId): Option<NodeId>
    requires f in nodes
  {
    if fifo == Some(f) then nodes[f].next else fifo
  }

  function RemoveLinks(nodes: Nodes, fifo: Option<NodeId>, f: NodeId): Nodes
    requires f in nodes && nodes[f].prev in nodes
    requires nodes[f].next.Some? ==> nodes[f].next.value in nodes
    requires fifo.Some? ==> fifo.value in nodes
  {
    var n1 := if fifo == Some(f) then nodes else SetNext(nodes, nodes[f].prev, nodes[f].next);
    var head := RemoveHead(nodes, fifo, f);
    if n1[f].next.None? then
      if head.Some? then SetPrev(n1, head.value, n1[f].prev) else n1
    else SetPrev(n1, n1[f].next.value, n1[f].prev)
  }

  lemma LinksKnown(nodes: Nodes, fifo: Option<NodeId>, l: seq<NodeId>, k: nat)
    requires Threaded(nodes, fifo, l) && k < |l|
    ensures l[k] in nodes && nodes[l[k]].prev == PrevOf(l, k) && PrevOf(l, k) in nodes
    ensures nodes[l[k]].next == NextOf(l, k)
    ensures NextOf(l, k).Some? ==> NextOf(l, k).value in nodes
    ensures fifo == Some(l[0]) && l[0] in nodes
  {
    assert LinksAt(nodes, l, k) && LinksAt(nodes, l, 0) && LinksAt(nodes, l, |l| - 1);
    if k + 1 < |l| { assert LinksAt(nodes, l, k + 1); }
    if k > 0 { assert LinksAt(nodes, l, k - 1); }
  }

  lemma RemoveThreads(nodes: Nodes, fifo: Option<NodeId>, l: seq<NodeId>, k: nat)
    requires Threaded(nodes, fifo, l) && k < |l|
    ensures l[k] in nodes && nodes[l[k]].prev in nodes && (nodes[l[k]].next.Some? ==> nodes[l[k]].next.value in nodes)
    ensures fifo.Some? && fifo.value in nodes
    ensures RemoveHead(nodes, fifo, l[k]) == HeadOf(Without(l, k))
    ensures Threaded(RemoveLinks(nodes, fifo, l[k]), HeadOf(Without(l, k)), Without(l, k))
    ensures SameBodies(nodes, RemoveLinks(nodes, fifo, l[k]))
  {
    LinksKnown(nodes, fifo, l, k);
    assert k > 0 ==> l[0] != l[k];
    var l' := Without(l, k);
    assert RemoveHead(nodes, fifo, l[k]) == HeadOf(l');
    forall i | 0 <= i < |l'| ensures LinksAt(RemoveLinks(nodes, fifo, l[k]), l', i) {
      RemoveLinksAt(nodes, fifo, l, k, i);
    }
  }

  lemma RemoveLinksAt(nodes: Nodes, fifo: Option<NodeId>, l: seq<NodeId>, k: nat, i: nat)
    requires Threaded(nodes, fifo, l) && k < |l| && i < |l| - 1
    requires l[k] in nodes && nodes[l[k]].prev in nodes && (nodes[l[k]].next.Some? ==> nodes[l[k]].next.value in nodes)
    requires fifo.Some? && fifo.value in nodes
    ensures LinksAt(RemoveLinks(nodes, fifo, l[k]), Without(l, k), i)
  {
    LinksKnown(nodes, fifo, l, k);
    var j := if i < k then i else i + 1;
    assert Without(l, k)[i] == l[j];
    assert LinksAt(nodes, l, j);
    assert LinksAt(nodes, l, k);
    var n' := RemoveLinks(nodes, fifo, l[k]);
    assert n'[l[j]].next == NextOf(Without(l, k), i);
    assert n'[l[j]].prev == PrevOf(Without(l, k), i);
  }

  // ----- putting an empty slot on the front

  function PrependLinks(nodes: Nodes, fifo: Option<NodeId>, n: NodeId, startPc: Pc, size: nat): Nodes
    requires fifo.Some? ==> fifo.value in nodes
  {
    if fifo.None? then nodes[n := Empty(startPc, size, fifo, n)]
    else SetPrev(nodes[n := Empty(startPc, size, fifo, nodes[fifo.value].prev)], fifo.value, n)
  }

  lemma PrependThreads(nodes: Nodes, fifo: Option<NodeId>, l: seq<NodeId>, n: NodeId, startPc: Pc, size: nat)
    requires Threaded(nodes, fifo, l) && n !in nodes
    ensures fifo.Some? ==> fifo.value in nodes
    ensures Threaded(PrependLinks(nodes, fifo, n, startPc, size), Some(n), [n] + l)
    ensures SameBodies(nodes, PrependLinks(nodes, fifo, n, startPc, size) - {n})
    ensures n in PrependLinks(nodes, fifo, n, startPc, size)
    ensures SameBody(PrependLinks(nodes, fifo, n, startPc, size)[n], Empty(startPc, size, None, 0))
  {
    if |l| > 0 { assert LinksAt(nodes, l, 0); }
    var l', nodes' := [n] + l, PrependLinks(nodes, fifo, n, startPc, size);
    forall i | 0 <= i < |l| ensures l[i] != n { assert LinksAt(nodes, l, i); }
    forall i | 0 <= i < |l'| ensures LinksAt(nodes', l', i) {
      if i > 0 { assert LinksAt(nodes, l, i - 1); }
    }
  }

  // ----- order

  lemma ShapeAppend(nodes: Nodes, nodes': Nodes, l: seq<NodeId>, f: NodeId)
    requires EmptiesFirst(nodes, l) && SameBodies(nodes, nodes') && f in nodes && nodes[f].Frag?
    ensures EmptiesFirst(nodes', l + [f])
  {
    forall i, j | 0 <= i < j < |l + [f]| && nodes'[(l + [f])[j]].Empty? ensures nodes'[(l + [f])[i]].Empty? {
      assert SameBody(nodes[(l + [f])[i]], nodes'[(l + [f])[i]]) && SameBody(nodes[(l + [f])[j]], nodes'[(l + [f])[j]]);
    }
  }

  lemma ShapeRemove(nodes: Nodes, nodes': Nodes, l: seq<NodeId>, k: nat)
    requires EmptiesFirst(nodes, l) && SameBodies(nodes, nodes') && k < |l|
    ensures EmptiesFirst(nodes', Without(l, k))
  {
    var l' := Without(l, k);
    forall i | 0 <= i < |l'|
      ensures l'[i] == l[if i < k then i else i + 1] && l'[i] in nodes' && SameBody(nodes[l'[i]], nodes'[l'[i]])
    {
      assert l[if i < k then i else i + 1] in nodes;
    }
  }

  lemma ShapePrepend(nodes: Nodes, nodes': Nodes, l: seq<NodeId>, n: NodeId)
    requires EmptiesFirst(nodes, l) && SameBodies(nodes, nodes' - {n}) && n in nodes' && nodes'[n].Empty? && n !in nodes
    ensures EmptiesFirst(nodes', [n] + l)
  {
    var l' := [n] + l;
    forall i | 0 < i < |l'|
      ensures l'[i] == l[i - 1] && l'[i] in nodes && l'[i] in nodes' && SameBody(nodes[l'[i]], nodes'[l'[i]])
    {
      assert l[i - 1] in nodes;
      assert SameBody(nodes[l'[i]], (nodes' - {n})[l'[i]]);
    }
  }

  /** l without the members of out, in the same order. */
  function Keep(l: seq<NodeId>, out: set<NodeId>): (r: seq<NodeId>)
    ensures forall n :: n in r <==> n in l && n !in out
  {
    if |l| == 0 then []
    else if l[0] in out then Keep(l[1..], out)
    else [l[0]] + Keep(l[1..], out)
  }

  lemma {:induction false} KeepAll(l: seq<NodeId>)
    ensures Keep(l, {}) == l
  {
    if |l| > 0 { KeepAll(l[1..]); }
  }

  /** Removing one more member. */
  lemma {:induction false} KeepWithout(l: seq<NodeId>, out: set<NodeId>, k: nat)
    requires Distinct(l) && k < |Keep(l, out)|
    ensures Without(Keep(l, out), k) == Keep(l, out + {Keep(l, out)[k]})
  {
    var r, tail := Keep(l, out), l[1..];
    var more := out + {r[k]};
    DistinctTail(l);
    hide Distinct, Without;
    if l[0] in out {
      assert r == Keep(tail, out);
      KeepWithout(tail, out, k);
    } else if k == 0 {
      KeepSame(tail, out, more);
      assert Without(r, 0) == r[1..] by { WithoutFirst(r); }
    } else {
      assert r[k] == Keep(tail, out)[k - 1];
      KeepWithout(tail, out, k - 1);
      WithoutLater(l[0], Keep(tail, out), k - 1);
      assert r[k] in tail;
    }
  }

  lemma DistinctTail(l: seq<NodeId>)
    requires Distinct(l) && |l| > 0
    ensures Distinct(l[1..]) && l[0] !in l[1..]
  {
  }

  lemma WithoutFirst(r: seq<NodeId>)
    requires |r| > 0
    ensures Without(r, 0) == r[1..]
  {
  }

  lemma WithoutLater(x: NodeId, r: seq<NodeId>, k: nat)
    requires k < |r|
    ensures Without([x] + r, k + 1) == [x] + Without(r, k)
  {
  }

  lemma {:induction false} KeepSame(l: seq<NodeId>, a: set<NodeId>, b: set<NodeId>)
    requires forall n :: n in l ==> (n in a <==> n in b)
    ensures Keep(l, a) == Keep(l, b)
  {
    if |l| > 0 { KeepSame(l[1..], a, b); }
  }

  /** Changing anything but links keeps the list. */
  lemma SameLinks(nodes: Nodes, nodes': Nodes, fifo: Option<NodeId>, l: seq<NodeId>)
    requires Threaded(nodes, fifo, l)
    requires forall n :: n in l && n in nodes ==>
      n in nodes' && nodes'[n].next == nodes[n].next && nodes'[n].prev == nodes[n].prev
    ensures Threaded(nodes', fifo, l)
  {
    forall i | 0 <= i < |l| ensures LinksAt(nodes', l, i) { assert LinksAt(nodes, l, i); }
  }
}
