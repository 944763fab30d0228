/** Where a unit is in its life: on the cache's list, waiting to be flushed, waiting to be
    freed, or dead and ready for reuse. */
module Lifecycle {
  import opened Memory
  import opened Alignment
  import opened Layout
  import opened Requests
  import opened Accounting
  import W = WorkingSet
  import opened Placing
  import opened Growing

  /** A unit on the to-free list, with the flushtime it was stamped with. */
  datatype Flushed = Flushed(id: UnitId, stamp: nat)
  datatype Dead = Dead(id: UnitId, unit: Unit)

  function FlushedIds(l: seq<Flushed>): seq<UnitId> { seq(|l|, i requires 0 <= i < |l| => l[i].id) }
  function DeadIds(l: seq<Dead>): seq<UnitId> { seq(|l|, i requires 0 <= i < |l| => l[i].id) }

  function DropAt(l: seq<Dead>, i: nat): seq<Dead>
    requires i < |l|
  {
    l[..i] + l[i + 1..]
  }

  ghost predicate AllDistinct(l: seq<UnitId>) { forall i, j :: 0 <= i < j < |l| ==> l[i] != l[j] }

  function CommittedSize(u: Unit): int { u.end - u.start }

  ghost predicate StampsSorted(l: seq<Flushed>) { forall i, j :: 0 <= i < j < |l| ==> l[i].stamp <= l[j].stamp }

  ghost predicate SizesSorted(l: seq<Dead>) {
    forall i, j :: 0 <= i < j < |l| ==> CommittedSize(l[i].unit) <= CommittedSize(l[j].unit)
  }

  /** Every unit is in exactly one place, flushed units are exactly those to be freed, and only those
      may have lost their cache. */
  ghost predicate OnePlace(
    units: Units, order: seq<UnitId>, toFlush: seq<UnitId>, toFree: seq<Flushed>, dead: seq<Dead>) {
    && AllDistinct(order + toFlush + FlushedIds(toFree) + DeadIds(dead))
    && (forall u :: u in units <==> u in order + toFlush + FlushedIds(toFree))
    && (forall u :: u in units ==> (units[u].pendingFree <==> u in FlushedIds(toFree)))
    && (forall u :: u in units && !units[u].attached ==> units[u].pendingFree)
    && StampsSorted(toFree) && SizesSorted(dead)
  }

  predicate PagedUnit(u: Unit, maxUnit: nat) {
    && u.start % PAGE == 0 && u.end % PAGE == 0 && u.reserved % PAGE == 0 && u.start < u.end <= u.reserved
    && maxUnit <= u.reserved - u.start <= UINT_MAX
  }

  predicate Disjoint(a: Unit, b: Unit) { a.reserved <= b.start || b.reserved <= a.start }

  /** Units are whole pages of at least the configured size, and the memory of dead units is
      kept apart from all other units. */
  ghost predicate Paged(units: Units, dead: seq<Dead>, maxUnit: nat) {
    && (forall u :: u in units ==> PagedUnit(units[u], maxUnit))
    && (forall i :: 0 <= i < |dead| ==> PagedUnit(dead[i].unit, maxUnit))
    && (forall u, i :: u in units && 0 <= i < |dead| ==> Disjoint(units[u], dead[i].unit))
    && (forall i, j :: 0 <= i < j < |dead| ==> Disjoint(dead[i].unit, dead[j].unit))
  }

  predicate SamePlace(a: Unit, b: Unit) {
    && b.start == a.start && b.reserved == a.reserved && b.pendingFree == a.pendingFree && b.attached == a.attached
    && b.end % PAGE == 0 && b.start < b.end <= b.reserved
  }

  /** Changing append points and flags, or committing more, moves no unit. */
  lemma PlaceKept(
    units: Units, units': Units, order: seq<UnitId>, toFlush: seq<UnitId>, toFree: seq<Flushed>, dead: seq<Dead>,
    maxUnit: nat)
    requires OnePlace(units, order, toFlush, toFree, dead) && Paged(units, dead, maxUnit) && units'.Keys == units.Keys
    requires forall u :: u in units ==> SamePlace(units[u], units'[u])
    ensures OnePlace(units', order, toFlush, toFree, dead) && Paged(units', dead, maxUnit)
  {
  }

  /** The oldest unit moves from the end of the cache's list to the front of the to-flush list. */
  lemma FlushOldest(units: Units, order: seq<UnitId>, toFlush: seq<UnitId>, toFree: seq<Flushed>, dead: seq<Dead>)
    requires OnePlace(units, order, toFlush, toFree, dead) && |order| > 0
    ensures OnePlace(units, order[..|order| - 1], [order[|order| - 1]] + toFlush, toFree, dead)
  {
    var n := |order| - 1;
    assert order[..n] + ([order[n]] + toFlush) + FlushedIds(toFree) == order + toFlush + FlushedIds(toFree);
  }

  /** A unit has joined the front of the cache's list and, if so decided, the one at its end has
      moved to the front of the to-flush list. */
  predicate NewFirst(
    order: seq<UnitId>, toFlush: seq<UnitId>, order': seq<UnitId>, toFlush': seq<UnitId>, flushOldest: bool) {
    && |order| > 0 && |order'| > 0
    && order'[1..] == (if flushOldest then order[..|order| - 1] else order)
    && toFlush' == (if flushOldest then [order[|order| - 1]] + toFlush else toFlush)
  }

  /** A new unit joins the front of the cache's list. */
  lemma AddUnit(
    units: Units, order: seq<UnitId>, toFlush: seq<UnitId>, toFree: seq<Flushed>, dead: seq<Dead>, u: UnitId,
    unit: Unit)
    requires OnePlace(units, order, toFlush, toFree, dead) && !unit.pendingFree && unit.attached
    requires u !in order + toFlush + FlushedIds(toFree) + DeadIds(dead)
    ensures OnePlace(units[u := unit], [u] + order, toFlush, toFree, dead)
  {
    var all := order + toFlush + FlushedIds(toFree);
    var all' := [u] + order + toFlush + FlushedIds(toFree);
    assert all' == [u] + all;
    assert all' + DeadIds(dead) == [u] + (all + DeadIds(dead));
    assert u !in all && u !in FlushedIds(toFree);
  }

  /** Taking the i-th dead unit off the dead list. */
  lemma Revive(units: Units, order: seq<UnitId>, toFlush: seq<UnitId>, toFree: seq<Flushed>, dead: seq<Dead>, i: nat)
    requires OnePlace(units, order, toFlush, toFree, dead) && i < |dead|
    ensures OnePlace(units, order, toFlush, toFree, DropAt(dead, i))
    ensures dead[i].id !in order + toFlush + FlushedIds(toFree) + DeadIds(DropAt(dead, i))
  {
    var live := order + toFlush + FlushedIds(toFree);
    var d, d' := DeadIds(dead), DeadIds(DropAt(dead, i));
    assert d' == d[..i] + d[i + 1..];
    forall x, y | 0 <= x < y < |live + d'| ensures (live + d')[x] != (live + d')[y] {
      var x0 := if x < |live| + i then x else x + 1;
      var y0 := if y < |live| + i then y else y + 1;
      assert (live + d)[x0] == (live + d')[x] && (live + d)[y0] == (live + d')[y];
    }
    forall x | 0 <= x < |live + d'| ensures (live + d')[x] != dead[i].id {
      var x0 := if x < |live| + i then x else x + 1;
      assert (live + d)[x0] == (live + d')[x] && (live + d)[|live| + i] == dead[i].id;
      assert x0 < |live| + i || |live| + i < x0;
    }
  }

  lemma PagedAdd(units: Units, dead: seq<Dead>, maxUnit: nat, u: UnitId, unit: Unit)
    requires Paged(units, dead, maxUnit) && PagedUnit(unit, maxUnit)
    requires forall i :: 0 <= i < |dead| ==> Disjoint(unit, dead[i].unit)
    ensures Paged(units[u := unit], dead, maxUnit)
  {
  }

  lemma PagedRevive(units: Units, dead: seq<Dead>, maxUnit: nat, i: nat)
    requires Paged(units, dead, maxUnit) && i < |dead|
    ensures Paged(units, DropAt(dead, i), maxUnit) && PagedUnit(dead[i].unit, maxUnit)
    ensures forall u :: u in units ==> Disjoint(units[u], dead[i].unit)
    ensures forall j :: 0 <= j < |DropAt(dead, i)| ==> Disjoint(dead[i].unit, DropAt(dead, i)[j].unit)
  {
    var d' := DropAt(dead, i);
    forall j | 0 <= j < |d'| ensures d'[j] == dead[if j < i then j else j + 1] && Disjoint(dead[i].unit, d'[j].unit) {}
  }

  /** A region the operating system may hand out: whole pages, apart from every unit. */
  ghost predicate FreshRegion(units: Units, dead: seq<Dead>, base: Pc, size: nat) {
    && base % PAGE == 0 && size % PAGE == 0 && 0 < size <= UINT_MAX
    && (forall u :: u in units ==> units[u].reserved <= base || base + size <= units[u].start)
    && (forall i :: 0 <= i < |dead| ==> dead[i].unit.reserved <= base || base + size <= dead[i].unit.start)
  }

  /** The numbers in use are below n, and size is the sum of the shares of all units. */
  ghost predicate Ledger(units: Units, dead: seq<Dead>, n: nat, size: nat) {
    (forall u :: u in units ==> u < n) &&
      (forall i :: 0 <= i < |dead| ==> dead[i].id < n) && size == Committed(units, n)
  }

  lemma FreshId(
    units: Units, order: seq<UnitId>, toFlush: seq<UnitId>, toFree: seq<Flushed>, dead: seq<Dead>, n: nat, size: nat)
    requires OnePlace(units, order, toFlush, toFree, dead) && Ledger(units, dead, n, size)
    ensures n !in order + toFlush + FlushedIds(toFree) + DeadIds(dead)
  {
    var live := order + toFlush + FlushedIds(toFree);
    assert n !in live;
  }

  lemma SamePlaces(
    units: Units, u: UnitId, unit: Unit, order: seq<UnitId>, toFlush: seq<UnitId>, toFree: seq<Flushed>,
    dead: seq<Dead>, maxUnit: nat)
    requires OnePlace(units, order, toFlush, toFree, dead) && Paged(units, dead, maxUnit) && u in units
    requires SamePlace(units[u], unit)
    ensures OnePlace(units[u := unit], order, toFlush, toFree, dead) && Paged(units[u := unit], dead, maxUnit)
  {
    hide OnePlace;
    forall v | v in units ensures SamePlace(units[v], units[u := unit][v]) {
      assert PagedUnit(units[v], maxUnit);
    }
    PlaceKept(units, units[u := unit], order, toFlush, toFree, dead, maxUnit);
  }

  lemma UnitPages(units: Units, dead: seq<Dead>, maxUnit: nat, u: UnitId)
    requires Paged(units, dead, maxUnit) && u in units
    ensures PagedUnit(units[u], maxUnit)
  {
  }

  /** The unit, revived or fresh, is empty, whole pages, and apart from all others. */
  ghost predicate CanAdmit(
    units: Units, order: seq<UnitId>, toFlush: seq<UnitId>, toFree: seq<Flushed>, dead: seq<Dead>, maxUnit: nat,
    u: UnitId, unit: Unit, n: nat, size: nat) {
    && OnePlace(units, order, toFlush, toFree, dead) && Paged(units, dead, maxUnit)
    && u !in order + toFlush + FlushedIds(toFree) + DeadIds(dead) && PagedUnit(unit, maxUnit) && Blank(unit)
    && (forall i :: 0 <= i < |dead| ==> Disjoint(unit, dead[i].unit))
    && (forall v :: v in units ==> Disjoint(units[v], unit))
    && Ledger(units, dead, n, size) && u < n
  }

  lemma Admit(
    units: Units, order: seq<UnitId>, toFlush: seq<UnitId>, toFree: seq<Flushed>, dead: seq<Dead>, maxUnit: nat,
    u: UnitId, unit: Unit, n: nat, size: nat)
    requires CanAdmit(units, order, toFlush, toFree, dead, maxUnit, u, unit, n, size)
    ensures u !in units && Elsewhere(units, unit)
    ensures OnePlace(units[u := unit], [u] + order, toFlush, toFree, dead) && Paged(units[u := unit], dead, maxUnit)
    ensures Ledger(units[u := unit], dead, n, size + CommittedSize(unit))
  {
    AddUnit(units, order, toFlush, toFree, dead, u, unit);
    PagedAdd(units, dead, maxUnit, u, unit);
    var live := order + toFlush + FlushedIds(toFree);
    assert u !in live;
    hide Paged, OnePlace;
    ShareChanges(units, units[u := unit], u, n);
  }

  lemma ReviveIds(units: Units, dead: seq<Dead>, n: nat, size: nat, i: nat)
    requires Ledger(units, dead, n, size) && i < |dead|
    ensures Ledger(units, DropAt(dead, i), n, size) && dead[i].id < n
  {
  }

  lemma FreshUnit(units: Units, dead: seq<Dead>, maxUnit: nat, base: Pc, size: nat, commit: nat)
    requires FreshRegion(units, dead, base, size) && maxUnit <= size && 0 < commit <= size && commit % PAGE == 0
    ensures var unit := Unit(base, base, base + commit, base + size, false, false, true);
      && PagedUnit(unit, maxUnit) && Blank(unit)
      && (forall i :: 0 <= i < |dead| ==> Disjoint(unit, dead[i].unit))
      && (forall v :: v in units ==> Disjoint(units[v], unit))
  {
  }

  lemma DeadSorted(units: Units, order: seq<UnitId>, toFlush: seq<UnitId>, toFree: seq<Flushed>, dead: seq<Dead>)
    requires OnePlace(units, order, toFlush, toFree, dead)
    ensures SizesSorted(dead)
  {
    hide AllDistinct, FlushedIds, DeadIds, StampsSorted, SizesSorted;
  }

  /** The k-th dead unit is a smallest one that is large enough; k is past the end if none is. */
  ghost predicate DeadChoice(dead: seq<Dead>, size: nat, k: nat) {
    && k <= |dead|
    && (k == |dead| ==> forall j :: 0 <= j < |dead| ==> CommittedSize(dead[j].unit) < size)
    && (k < |dead| ==>
          && CommittedSize(dead[k].unit) >= size
          && forall j :: 0 <= j < |dead| && CommittedSize(dead[j].unit) >= size ==>
              CommittedSize(dead[k].unit) <= CommittedSize(dead[j].unit))
  }

  lemma SameDisjoint(units: Units, dead: seq<Dead>, a: Unit, b: Unit)
    requires a.start == b.start && a.reserved == b.reserved
    requires forall u :: u in units ==> Disjoint(units[u], a)
    requires forall j :: 0 <= j < |dead| ==> Disjoint(a, dead[j].unit)
    ensures forall u :: u in units ==> Disjoint(units[u], b)
    ensures forall j :: 0 <= j < |dead| ==> Disjoint(b, dead[j].unit)
  {
  }

  lemma MoreIds(units: Units, dead: seq<Dead>, n: nat, size: nat)
    requires Ledger(units, dead, n, size)
    ensures Ledger(units, dead, n + 1, size)
  {
  }

  lemma AdmitBlank(
    units: Units, order: seq<UnitId>, toFlush: seq<UnitId>, toFree: seq<Flushed>, dead: seq<Dead>, maxUnit: nat,
    u: UnitId, unit: Unit, n: nat, size: nat)
    requires CanAdmit(units, order, toFlush, toFree, dead, maxUnit, u, unit, n, size)
    ensures Blank(unit)
  {
    hide OnePlace, Paged, Ledger;
  }

  /** A unit changes, and the size with its share. */
  lemma LedgerStep(units: Units, u: UnitId, unit: Unit, dead: seq<Dead>, n: nat, size: nat)
    requires Ledger(units, dead, n, size) && u in units
    ensures Share(units[u]) <= size && Ledger(units[u := unit], dead, n, size - Share(units[u]) + Share(unit))
  {
    ShareBelow(units, u, n);
    ShareChanges(units, units[u := unit], u, n);
  }

  lemma LedgerShare(units: Units, u: UnitId, dead: seq<Dead>, maxUnit: nat, n: nat, size: nat)
    requires Ledger(units, dead, n, size) && Paged(units, dead, maxUnit) && u in units
    ensures Share(units[u]) <= size && Share(units[u]) == if units[u].attached then units[u].end - units[u].start else 0
  {
    LedgerStep(units, u, units[u], dead, n, size);
    UnitPages(units, dead, maxUnit, u);
  }

  /** A unit changes without moving to another place; so does the size if more of it is committed. */
  lemma PlacesStep(
    units: Units, u: UnitId, unit: Unit, order: seq<UnitId>, toFlush: seq<UnitId>, toFree: seq<Flushed>,
    dead: seq<Dead>, maxUnit: nat, n: nat, size: nat)
    requires OnePlace(units, order, toFlush, toFree, dead) && Paged(units, dead, maxUnit)
    requires Ledger(units, dead, n, size) && u in units && SamePlace(units[u], unit) && !unit.pendingFree
    ensures OnePlace(units[u := unit], order, toFlush, toFree, dead) && Paged(units[u := unit], dead, maxUnit)
    ensures 0 <= size + unit.end - units[u].end
    ensures Ledger(units[u := unit], dead, n, size + unit.end - units[u].end)
  {
    SamePlaces(units, u, unit, order, toFlush, toFree, dead, maxUnit);
    LedgerStep(units, u, unit, dead, n, size);
    hide Ledger;
    UnitPages(units, dead, maxUnit, u);
    UnitPages(units[u := unit], dead, maxUnit, u);
  }

  lemma FreshStill(units: Units, u: UnitId, unit: Unit, dead: seq<Dead>, base: Pc, size: nat)
    requires FreshRegion(units, dead, base, size) && u in units && unit.start == units[u].start
    requires unit.reserved == units[u].reserved
    ensures FreshRegion(units[u := unit], dead, base, size)
  {
  }

  /** Moving an append point keeps every unit in its place. */
  lemma StillPlaced(
    units: Units, u: UnitId, order: seq<UnitId>, toFlush: seq<UnitId>, toFree: seq<Flushed>, dead: seq<Dead>,
    maxUnit: nat, n: nat, size: nat)
    requires OnePlace(units, order, toFlush, toFree, dead) && Paged(units, dead, maxUnit)
    requires Ledger(units, dead, n, size) && u in units
    ensures forall x: Pc, b: bool {:trigger units[u].(cur := x, full := b)} ::
      var units' := units[u := units[u].(cur := x, full := b)];
      OnePlace(units', order, toFlush, toFree, dead) && Paged(units', dead, maxUnit) && Ledger(units', dead, n, size)
  {
    hide OnePlace, Paged, Ledger;
    forall x: Pc, b: bool
      ensures var units' := units[u := units[u].(cur := x, full := b)];
        OnePlace(units', order, toFlush, toFree, dead) && Paged(units', dead, maxUnit) && Ledger(units', dead, n, size)
    {
      var unit := units[u].(cur := x, full := b);
      UnitPages(units, dead, maxUnit, u);
      SamePlaces(units, u, unit, order, toFlush, toFree, dead, maxUnit);
      LedgerStep(units, u, unit, dead, n, size);
    }
  }

  // ----- flushing and freeing

  /** As OnePlace, while the units in local, taken off the to-flush list, are being flushed and
      those in walked have been. */
  ghost predicate OnePlaceBut(
    units: Units, order: seq<UnitId>, local: seq<UnitId>, toFree: seq<Flushed>, dead: seq<Dead>, walked: seq<UnitId>) {
    && AllDistinct(order + local + FlushedIds(toFree) + DeadIds(dead))
    && (forall u :: u in units <==> u in order + local + FlushedIds(toFree))
    && (forall u :: u in units ==> (units[u].pendingFree <==> u in FlushedIds(toFree) || u in walked))
    && (forall u :: u in units && !units[u].attached ==> u in FlushedIds(toFree))
    && StampsSorted(toFree) && SizesSorted(dead)
  }

  lemma FlushBegin(units: Units, order: seq<UnitId>, toFlush: seq<UnitId>, toFree: seq<Flushed>, dead: seq<Dead>)
    requires OnePlace(units, order, toFlush, toFree, dead)
    ensures OnePlaceBut(units, order, toFlush, toFree, dead, toFlush[..0])
  {
    hide AllDistinct, FlushedIds, DeadIds;
  }

  lemma FlushStep(units: Units, order: seq<UnitId>, local: seq<UnitId>, toFree: seq<Flushed>, dead: seq<Dead>, i: nat)
    requires i < |local| && OnePlaceBut(units, order, local, toFree, dead, local[..i])
    ensures local[i] in units && !units[local[i]].pendingFree && (|order| > 0 ==> local[i] != order[0])
    ensures OnePlaceBut(units[local[i] := units[local[i]].(pendingFree := true)],
      order, local, toFree, dead, local[..i + 1])
  {
    var u := local[i];
    var all := order + local + FlushedIds(toFree) + DeadIds(dead);
    assert all[|order| + i] == u;
    if |order| > 0 { assert all[0] == order[0]; }
    assert u in order + local + FlushedIds(toFree);
    forall x | x in FlushedIds(toFree) || x in local[..i] ensures x != u {
      if x in local[..i] {
        var j :| 0 <= j < i && local[j] == x;
        assert all[|order| + j] == x;
      } else {
        var j :| 0 <= j < |FlushedIds(toFree)| && FlushedIds(toFree)[j] == x;
        assert all[|order| + |local| + j] == x;
      }
    }
    assert forall x :: x in local[..i + 1] <==> x in local[..i] || x == u;
  }

  function Stamped(local: seq<UnitId>, stamp: nat): seq<Flushed> {
    seq(|local|, i requires 0 <= i < |local| => Flushed(local[i], stamp))
  }

  lemma StampedIs(toFree: seq<Flushed>, local: seq<UnitId>, stamp: nat, r: seq<Flushed>)
    ensures r == toFree + Stamped(local, stamp) <==>
      && |r| == |toFree| + |local| && r[..|toFree|] == toFree
      && forall i :: 0 <= i < |local| ==> r[|toFree| + i] == Flushed(local[i], stamp)
  {
    if |r| == |toFree| + |local| && r[..|toFree|] == toFree {
      assert r == toFree + r[|toFree|..];
    }
  }

  /** The units once those in local are marked as flushed. */
  function AllPending(units: Units, local: seq<UnitId>): Units {
    map u | u in units :: if u in local then units[u].(pendingFree := true) else units[u]
  }

  lemma MarkNext(units: Units, local: seq<UnitId>, i: nat)
    requires i < |local| && local[i] in units && local[i] !in local[..i]
    ensures var m := AllPending(units, local[..i]);
      local[i] in m && AllPending(units, local[..i + 1]) == m[local[i] := m[local[i]].(pendingFree := true)]
  {
    assert forall x :: x in local[..i + 1] <==> x in local[..i] || x == local[i];
  }

  /** The units once the chain local is on the to-free list: all but the last lost their cache. */
  function ChainFlushed(units: Units, local: seq<UnitId>): Units {
    map u | u in units ::
      if u in local then units[u].(pendingFree := true, attached := u == local[|local| - 1]) else units[u]
  }

  /** The units while the first i of the chain have lost their cache. */
  function Detaching(units: Units, local: seq<UnitId>, i: nat): Units
    requires i <= |local|
  {
    map u | u in units :: if u in local[..i] then units[u].(attached := false) else units[u]
  }

  lemma DetachNext(units: Units, local: seq<UnitId>, i: nat)
    requires i < |local| && local[i] in units
    ensures var m := Detaching(units, local, i);
      local[i] in m && Detaching(units, local, i + 1) == m[local[i] := m[local[i]].(attached := false)]
  {
    assert forall x :: x in local[..i + 1] <==> x in local[..i] || x == local[i];
  }

  /** After the loop exactly the last of the chain still has its cache. */
  lemma DetachAll(units: Units, local: seq<UnitId>)
    requires AllDistinct(local) && forall i :: 0 <= i < |local| ==> local[i] in units && units[local[i]].attached
    ensures Detaching(AllPending(units, local), local, if |local| == 0 then 0 else |local| - 1) ==
      ChainFlushed(units, local)
  {
    var n := if |local| == 0 then 0 else |local| - 1;
    if |local| > 0 {
      assert forall x :: x in local <==> x in local[..n] || x == local[n];
      assert forall i :: 0 <= i < n ==> local[..n][i] == local[i];
    }
  }

  /** The units of a chain are distinct, known, and still have their cache. */
  lemma ChainKnown(units: Units, order: seq<UnitId>, local: seq<UnitId>, toFree: seq<Flushed>, dead: seq<Dead>)
    requires OnePlace(units, order, local, toFree, dead)
    ensures AllDistinct(local) && forall i :: 0 <= i < |local| ==> local[i] in units && units[local[i]].attached
    ensures |order| > 0 ==> order[0] in units && order[0] !in local
  {
    var all := order + local + FlushedIds(toFree) + DeadIds(dead);
    forall i | 0 <= i < |local|
      ensures local[i] in units && units[local[i]].attached && local[i] !in FlushedIds(toFree)
    {
      assert all[|order| + i] == local[i];
      assert local[i] in order + local + FlushedIds(toFree);
      forall j | 0 <= j < |FlushedIds(toFree)| ensures FlushedIds(toFree)[j] != local[i] {
        assert all[|order| + |local| + j] == FlushedIds(toFree)[j];
      }
    }
    forall i, j | 0 <= i < j < |local| ensures local[i] != local[j] {
      assert all[|order| + i] == local[i] && all[|order| + j] == local[j];
    }
    if |order| > 0 {
      assert all[0] == order[0] && order[0] in order + local + FlushedIds(toFree);
      forall i | 0 <= i < |local| ensures local[i] != order[0] { assert all[|order| + i] == local[i]; }
    }
  }

  /** The flushed units join the end of the to-free list with the flush's time; all but the last
      have lost their cache. */
  lemma FlushEnd(
    units: Units, units': Units, order: seq<UnitId>, local: seq<UnitId>, toFree: seq<Flushed>, dead: seq<Dead>,
    stamp: nat)
    requires OnePlaceBut(units, order, local, toFree, dead, local)
    requires forall i :: 0 <= i < |toFree| ==> toFree[i].stamp <= stamp
    requires units'.Keys == units.Keys
    requires forall u :: u in units ==> units'[u].pendingFree == units[u].pendingFree
    requires forall u :: u in units && !units'[u].attached ==> u in local || !units[u].attached
    ensures OnePlace(units', order, [], toFree + Stamped(local, stamp), dead)
  {
    var f, f' := FlushedIds(toFree), FlushedIds(toFree + Stamped(local, stamp));
    assert f' == f + local;
    var d := DeadIds(dead);
    Rotate(order, local, f, d);
    assert order + [] + f' + d == order + f + local + d;
    assert forall u :: u in order + [] + f' <==> u in order + local + f;
  }

  lemma Rotate(a: seq<UnitId>, b: seq<UnitId>, c: seq<UnitId>, d: seq<UnitId>)
    requires AllDistinct(a + b + c + d)
    ensures AllDistinct(a + c + b + d)
  {
    var s, t := a + b + c + d, a + c + b + d;
    forall i, j | 0 <= i < j < |t| ensures t[i] != t[j] {
      var i0, j0 := RotateIndex(|a|, |b|, |c|, i), RotateIndex(|a|, |b|, |c|, j);
      assert s[i0] == t[i] && s[j0] == t[j] && i0 != j0;
      assert i0 < j0 || j0 < i0;
    }
  }

  function RotateIndex(a: nat, b: nat, c: nat, i: nat): nat {
    if i < a then i else if i < a + c then i + b else if i < a + c + b then i - c else i
  }

  /** The first unit on the to-free list leaves it; it may become dead. */
  lemma FreeFirst(units: Units, order: seq<UnitId>, toFlush: seq<UnitId>, toFree: seq<Flushed>, dead: seq<Dead>)
    requires OnePlace(units, order, toFlush, toFree, dead) && |toFree| > 0
    ensures toFree[0].id in units && (|order| > 0 ==> toFree[0].id != order[0]) && units[toFree[0].id].pendingFree
    ensures OnePlace(units - {toFree[0].id}, order, toFlush, toFree[1..], dead)
    ensures toFree[0].id !in order + toFlush + FlushedIds(toFree[1..]) + DeadIds(dead)
  {
    var u := toFree[0].id;
    var a, f, f', d := order + toFlush, FlushedIds(toFree), FlushedIds(toFree[1..]), DeadIds(dead);
    assert f == [u] + f';
    var s, t := a + f + d, a + f' + d;
    assert s[|a|] == u;
    if |order| > 0 { assert s[0] == order[0]; }
    forall i | 0 <= i < |t| ensures t[i] != u {
      var i0 := if i < |a| then i else i + 1;
      assert s[i0] == t[i] && (i0 < |a| || |a| < i0);
    }
    forall i, j | 0 <= i < j < |t| ensures t[i] != t[j] {
      assert s[if i < |a| then i else i + 1] == t[i] && s[if j < |a| then j else j + 1] == t[j];
    }
    assert u in f && u in a + f;
    assert forall x :: x in a + f <==> x in a + f' || x == u;
    assert forall x :: x in a + f' ==> x != u by { assert forall x :: x in a + f' ==> x in t; }
    assert forall x :: x in f <==> x in f' || x == u;
  }

  /** Where a unit goes in the dead list, which is kept sorted by size. */
  function DeadIndex(dead: seq<Dead>, size: int): (i: nat)
    ensures i <= |dead| && (i < |dead| ==> CommittedSize(dead[i].unit) >= size)
    ensures forall j :: 0 <= j < i ==> CommittedSize(dead[j].unit) < size
  {
    if |dead| == 0 || CommittedSize(dead[0].unit) >= size then 0 else 1 + DeadIndex(dead[1..], size)
  }

  function InsertAt(l: seq<Dead>, i: nat, d: Dead): seq<Dead>
    requires i <= |l|
  {
    l[..i] + [d] + l[i..]
  }

  lemma Bury(
    units: Units, order: seq<UnitId>, toFlush: seq<UnitId>, toFree: seq<Flushed>, dead: seq<Dead>, i: nat, d: Dead)
    requires OnePlace(units, order, toFlush, toFree, dead) && i <= |dead|
    requires d.id !in order + toFlush + FlushedIds(toFree) + DeadIds(dead)
    requires (i < |dead| ==> CommittedSize(dead[i].unit) >= CommittedSize(d.unit))
    requires forall j :: 0 <= j < i ==> CommittedSize(dead[j].unit) < CommittedSize(d.unit)
    ensures OnePlace(units, order, toFlush, toFree, InsertAt(dead, i, d))
  {
    var live := order + toFlush + FlushedIds(toFree);
    var s, t := live + DeadIds(dead), live + DeadIds(InsertAt(dead, i, d));
    forall x | 0 <= x < |t|
      ensures t[x] == (if x < |live| + i then s[x] else if x == |live| + i then d.id else s[x - 1]) {}
    assert forall z :: 0 <= z < |s| ==> s[z] != d.id;
    forall x, y | 0 <= x < y < |t| ensures t[x] != t[y] {
      var m := |live| + i;
      if x == m {
        assert t[y] == s[y - 1];
      } else if y == m {
        assert t[x] == s[x];
      } else {
        var x0, y0 := if x < m then x else x - 1, if y < m then y else y - 1;
        assert t[x] == s[x0] && t[y] == s[y0] && x0 < y0;
      }
    }
    var dead' := InsertAt(dead, i, d);
    forall x, y | 0 <= x < y < |dead'| ensures CommittedSize(dead'[x].unit) <= CommittedSize(dead'[y].unit) {
      assert dead'[x] == (if x < i then dead[x] else if x == i then d else dead[x - 1]);
      assert dead'[y] == (if y < i then dead[y] else if y == i then d else dead[y - 1]);
    }
  }

  /** A dead unit belongs to no cache and waits for nothing. */
  function Retired(u: UnitId, unit: Unit): Dead { Dead(u, unit.(pendingFree := false, attached := false)) }

  lemma PagedBury(units: Units, dead: seq<Dead>, maxUnit: nat, u: UnitId, i: nat)
    requires Paged(units, dead, maxUnit) && u in units && i <= |dead|
    requires forall v, w :: v in units && w in units && v != w ==> Disjoint(units[v], units[w])
    ensures Paged(units - {u}, dead, maxUnit) && Paged(units - {u}, InsertAt(dead, i, Retired(u, units[u])), maxUnit)
  {
    var d, dead' := Retired(u, units[u]), InsertAt(dead, i, Retired(u, units[u]));
    forall x | 0 <= x < |dead'| ensures dead'[x] == (if x < i then dead[x] else if x == i then d else dead[x - 1]) {}
  }

  lemma BuryIds(units: Units, dead: seq<Dead>, n: nat, size: nat, u: UnitId, i: nat)
    requires Ledger(units, dead, n, size) && u in units && i <= |dead|
    ensures Share(units[u]) <= size && Ledger(units - {u}, dead, n, size - Share(units[u]))
    ensures Ledger(units - {u}, InsertAt(dead, i, Retired(u, units[u])), n, size - Share(units[u]))
  {
    ShareBelow(units, u, n);
    ShareChanges(units, units - {u}, u, n);
  }

  /** What flushing local[i] does to the places of the units. */
  lemma FlushKeeps(
    units: Units, units': Units, order: seq<UnitId>, local: seq<UnitId>, toFree: seq<Flushed>, dead: seq<Dead>,
    maxUnit: nat, n: nat, size: nat, i: nat)
    requires i < |local| && local[i] in units && units' == units[local[i] := units[local[i]].(pendingFree := true)]
    requires Paged(units, dead, maxUnit) && Ledger(units, dead, n, size)
    ensures Paged(units', dead, maxUnit) && Ledger(units', dead, n, size)
  {
    assert PagedUnit(units[local[i]], maxUnit);
    LedgerStep(units, local[i], units'[local[i]], dead, n, size);
  }

  /** Another unit is kept on the dead list: there are few, or many threads. */
  predicate KeepsDead(count: nat, numThreads: nat) { count < 5 || count * 4 <= numThreads }

  lemma KeepsFewer(x: nat, y: nat, numThreads: nat)
    requires x <= y && KeepsDead(y, numThreads)
    ensures KeepsDead(x, numThreads)
  {
  }

  /** The dead list after unit u is freed: it is kept unless there are enough already. */
  function DeadAfter(dead: seq<Dead>, u: UnitId, unit: Unit, numThreads: nat): (r: seq<Dead>)
    ensures |r| == if KeepsDead(|dead|, numThreads) then |dead| + 1 else |dead|
  {
    if KeepsDead(|dead|, numThreads) then InsertAt(dead, DeadIndex(dead, CommittedSize(unit)), Retired(u, unit))
    else dead
  }

  /** What becomes of the dead list, spelled out: below five dead units, or one for every four threads, the
      unit joins it in front of the first that is not smaller. */
  lemma DeadAfterIs(dead: seq<Dead>, u: UnitId, unit: Unit, numThreads: nat) returns (j: nat)
    ensures |dead| >= 5 && 4 * |dead| > numThreads ==> DeadAfter(dead, u, unit, numThreads) == dead
    ensures |dead| < 5 || 4 * |dead| <= numThreads ==>
      && j <= |dead| && (j < |dead| ==> dead[j].unit.end - dead[j].unit.start >= unit.end - unit.start)
      && (forall i :: 0 <= i < j ==> dead[i].unit.end - dead[i].unit.start < unit.end - unit.start)
      && DeadAfter(dead, u, unit, numThreads) ==
           dead[..j] + [Dead(u, unit.(pendingFree := false, attached := false))] + dead[j..]
  {
    j := DeadIndex(dead, CommittedSize(unit));
  }

  /** How many dead units there are when n more were freed: they stop being kept at five, or at more than
      one for every four threads. */
  function DeadCount(count: nat, n: nat, numThreads: nat): nat {
    var most := 1 + if numThreads / 4 > 4 then numThreads / 4 else 4;
    if count >= most then count else if count + n <= most then count + n else most
  }

  lemma DeadCountNext(count: nat, n: nat, numThreads: nat)
    ensures DeadCount(count, n + 1, numThreads) ==
      DeadCount(count, n, numThreads) + if KeepsDead(DeadCount(count, n, numThreads), numThreads) then 1 else 0
    ensures KeepsDead(DeadCount(count, n, numThreads), numThreads) <==> KeepsDead(count + n, numThreads)
    ensures DeadCount(count, 0, numThreads) == count
  {
  }

  lemma DeadCountIs(count: nat, n: nat, numThreads: nat)
    ensures var most := 1 + if numThreads / 4 > 4 then numThreads / 4 else 4;
      DeadCount(count, n, numThreads) == if count >= most then count else if count + n <= most then count + n else most
  {
  }

  /** Whatever is on the dead list was there before or is the unit just freed. */
  lemma DeadFrom(dead: seq<Dead>, u: UnitId, unit: Unit, numThreads: nat)
    ensures forall d :: d in DeadAfter(dead, u, unit, numThreads) ==> d in dead || d == Retired(u, unit)
  {
  }

  lemma FreePlaces(
    units: Units, order: seq<UnitId>, toFlush: seq<UnitId>, toFree: seq<Flushed>, dead: seq<Dead>, maxUnit: nat, n: nat,
    size: nat, numThreads: nat)
    requires OnePlace(units, order, toFlush, toFree, dead) && Paged(units, dead, maxUnit)
    requires Ledger(units, dead, n, size) && |toFree| > 0
    requires forall v, w :: v in units && w in units && v != w ==>
      units[v].reserved <= units[w].start || units[w].reserved <= units[v].start
    ensures var u := toFree[0].id;
      && u in units && (|order| > 0 ==> u != order[0])
      && OnePlace(units - {u}, order, toFlush, toFree[1..], DeadAfter(dead, u, units[u], numThreads))
      && Paged(units - {u}, DeadAfter(dead, u, units[u], numThreads), maxUnit)
      && Share(units[u]) <= size
      && Ledger(units - {u}, DeadAfter(dead, u, units[u], numThreads), n, size - Share(units[u]))
  {
    hide OnePlace, Paged, Ledger, InsertAt;
    FreeFirst(units, order, toFlush, toFree, dead);
    var u := toFree[0].id;
    var i := DeadIndex(dead, CommittedSize(units[u]));
    PagedBury(units, dead, maxUnit, u, i);
    BuryIds(units, dead, n, size, u, i);
    Bury(units - {u}, order, toFlush, toFree[1..], dead, i, Retired(u, units[u]));
  }

  lemma FirstKnown(units: Units, order: seq<UnitId>, toFlush: seq<UnitId>, toFree: seq<Flushed>, dead: seq<Dead>)
    requires OnePlace(units, order, toFlush, toFree, dead) && |toFree| > 0
    ensures toFree[0].id in units
  {
    hide AllDistinct, DeadIds, StampsSorted, SizesSorted;
    assert FlushedIds(toFree)[0] == toFree[0].id;
    assert toFree[0].id in order + toFlush + FlushedIds(toFree);
  }

  lemma PrefixGrows(l: seq<Flushed>, n: nat)
    requires n < |l|
    ensures l[n..][1..] == l[n + 1..] && l[n..][0] == l[n]
    ensures forall u :: u in FlushedIds(l[..n + 1]) <==> u in FlushedIds(l[..n]) || u == l[n].id
  {
    assert FlushedIds(l[..n + 1]) == FlushedIds(l[..n]) + [l[n].id];
  }

  lemma PrefixMember(l: seq<Flushed>, n: nat, u: UnitId)
    requires n < |l|
    ensures u in FlushedIds(l[..n + 1]) <==> u in FlushedIds(l[..n]) || u == l[n].id
  {
    assert FlushedIds(l[..n + 1]) == FlushedIds(l[..n]) + [l[n].id];
  }

  /** Being sorted, a list whose first stamp is late enough has only late stamps. */
  lemma StampedPrefix(
    units: Units, order: seq<UnitId>, toFlush: seq<UnitId>, toFree: seq<Flushed>, dead: seq<Dead>, flushtime: nat)
    requires OnePlace(units, order, toFlush, toFree, dead) && (|toFree| == 0 || toFree[0].stamp > flushtime)
    ensures forall i :: 0 <= i < |toFree| ==> toFree[i].stamp > flushtime
  {
    hide AllDistinct, FlushedIds, DeadIds, SizesSorted;
  }

  lemma EmptyPlaces(maxUnit: nat)
    ensures OnePlace(map[], [], [], [], []) && Paged(map[], [], maxUnit) && Ledger(map[], [], 0, 0)
  {
  }

  // ----- frames of flushing and freeing

  lemma NonePending(units: Units, local: seq<UnitId>)
    ensures units == AllPending(units, local[..0])
  {
  }

  lemma PendingNext(units: Units, local: seq<UnitId>, i: nat)
    requires AllDistinct(local) && i < |local| && local[i] in AllPending(units, local[..i])
    ensures var m := AllPending(units, local[..i]);
      AllPending(units, local[..i + 1]) == m[local[i] := m[local[i]].(pendingFree := true)]
    ensures local[i] !in local[..i]
  {
    MarkNext(units, local, i);
  }

  lemma PendingKeys(units: Units, local: seq<UnitId>)
    ensures AllPending(units, local).Keys == units.Keys
  {
  }

  lemma NoneDetached(units: Units, local: seq<UnitId>)
    ensures units == Detaching(units, local, 0)
  {
  }

  /** After the chain is on the to-free list every unit is in its place again. */
  lemma ChainPlaces(
    units0: Units, units1: Units, units: Units, order: seq<UnitId>, local: seq<UnitId>,
    toFree: seq<Flushed>, dead: seq<Dead>, maxUnit: nat,
    stamp: nat)
    requires OnePlaceBut(units1, order, local, toFree, dead, local) && Paged(units1, dead, maxUnit)
    requires units1 == AllPending(units0, local) && units == ChainFlushed(units0, local)
    requires forall i :: 0 <= i < |toFree| ==> toFree[i].stamp <= stamp
    ensures OnePlace(units, order, [], toFree + Stamped(local, stamp), dead) && Paged(units, dead, maxUnit)
  {
    hide OnePlaceBut, OnePlace, AllDistinct, FlushedIds, DeadIds;
    FlushEnd(units1, units, order, local, toFree, dead, stamp);
    forall u | u in units ensures u in units1 && PagedUnit(units1[u], maxUnit) && PagedUnit(units[u], maxUnit) {}
    forall u, i | u in units && 0 <= i < |dead| ensures Disjoint(units[u], dead[i].unit) {
      assert Disjoint(units1[u], dead[i].unit);
    }
  }

  /** Which units are left, unchanged, once those in gone are freed. */
  function SurvivingUnits(units: Units, gone: seq<UnitId>): Units { map u | u in units && u !in gone :: units[u] }

  lemma NoneFreed(units: Units, toFree: seq<Flushed>)
    ensures units == SurvivingUnits(units, FlushedIds(toFree[..0]))
  {
  }

  /** Freeing a unit does not fail: it has its cache, or nothing reads it, because the build keeps no
      statistics and the unit goes back to the system, enough dead units being kept already. */
  predicate UnitFreeable(unit: Unit, deadCount: nat, numThreads: nat, statistics: bool) {
    unit.attached || (!statistics && deadCount >= 5 && 4 * deadCount > numThreads)
  }

  /** The same of the i-th unit of a list that is freed in order. */
  predicate CanFreeAt(units: Units, toFree: seq<Flushed>, deadCount: nat, numThreads: nat, statistics: bool, i: nat) {
    i < |toFree| && toFree[i].id in units && UnitFreeable(units[toFree[i].id], deadCount + i, numThreads, statistics)
  }

  lemma StillThere(units: Units, toFree: seq<Flushed>, n: nat)
    requires n < |toFree| && toFree[n].id in SurvivingUnits(units, FlushedIds(toFree[..n]))
    ensures toFree[n].id in units && SurvivingUnits(units, FlushedIds(toFree[..n]))[toFree[n].id] == units[toFree[n].id]
    ensures SurvivingUnits(units, FlushedIds(toFree[..n + 1])) ==
      SurvivingUnits(units, FlushedIds(toFree[..n])) - {toFree[n].id}
  {
    PrefixGrows(toFree, n);
  }

  /** Whether the n-th unit can be freed when its turn comes, n units having been freed before it. */
  lemma TurnIs(
    units: Units, toFree: seq<Flushed>, count: nat, numThreads: nat, statistics: bool, n: nat, dead: nat)
    requires n < |toFree| && toFree[n].id in units && dead == DeadCount(count, n, numThreads)
    ensures CanFreeAt(units, toFree, count, numThreads, statistics, n) <==>
      units[toFree[n].id].attached || (!statistics && dead >= 5 && 4 * dead > numThreads)
    ensures DeadCount(count, n + 1, numThreads) == dead + if dead < 5 || 4 * dead <= numThreads then 1 else 0
  {
    DeadCountNext(count, n, numThreads);
  }

  /** Every dead unit was dead before or is one of those in gone. */
  ghost predicate DeadOnly(dead: seq<Dead>, dead': seq<Dead>, gone: seq<UnitId>) {
    forall d :: d in dead' ==> d in dead || d.id in gone
  }

  lemma SameDead(dead: seq<Dead>, gone: seq<UnitId>)
    ensures DeadOnly(dead, dead, gone)
  {
  }

  lemma DeadNext(dead: seq<Dead>, dead1: seq<Dead>, toFree: seq<Flushed>, n: nat, unit: Unit, numThreads: nat)
    requires n < |toFree| && DeadOnly(dead, dead1, FlushedIds(toFree[..n]))
    ensures DeadOnly(dead, DeadAfter(dead1, toFree[n].id, unit, numThreads), FlushedIds(toFree[..n + 1]))
  {
    hide FlushedIds, DeadAfter;
    var dead2 := DeadAfter(dead1, toFree[n].id, unit, numThreads);
    DeadFrom(dead1, toFree[n].id, unit, numThreads);
    PrefixGrows(toFree, n);
    forall d | d in dead2 ensures d in dead || d.id in FlushedIds(toFree[..n + 1]) {
      PrefixMember(toFree, n, d.id);
    }
  }

  // ----- how a cache grows

  lemma RankFresh(units: Units, order: seq<UnitId>, slotSize: nat)
    requires |order| > 0 && order[0] in units && Blank(units[order[0]])
    requires slotSize <= units[order[0]].reserved - units[order[0]].start
    ensures Rank(units, order, slotSize) <= 1
  {
  }

  /** Where the units are, and whether a flush is due. */
  datatype Roster = Roster(units: Units, order: seq<UnitId>, toFlush: seq<UnitId>, dead: seq<Dead>, pending: bool)

  predicate SameHome(a: Unit, b: Unit) {
    b.start == a.start && b.reserved == a.reserved && b.pendingFree == a.pendingFree && b.attached == a.attached
  }

  ghost predicate SameHomes(a: Units, b: Units) { forall u :: u in a ==> u in b && SameHome(a[u], b[u]) }

  /** No unit came or went. */
  ghost predicate SameRoster(r: Roster, r': Roster) {
    r' == r.(units := r'.units) && r'.units.Keys == r.units.Keys && SameHomes(r.units, r'.units)
  }

  /** One unit was added, and the oldest set aside if so decided.  With no dead unit to be reused it
      is the size bytes of fresh memory at base. */
  ghost predicate NewUnitIn(r: Roster, r': Roster, base: Pc, size: nat, flushOldest: bool) {
    && NewFirst(r.order, r.toFlush, r'.order, r'.toFlush, flushOldest) && r'.pending == (r.pending || flushOldest)
    && r'.order[0] !in r.units && r'.units.Keys == r.units.Keys + {r'.order[0]} && SameHomes(r.units, r'.units)
    && (r.dead == [] ==>
          r'.dead == [] && r'.units[r'.order[0]].start == base && r'.units[r'.order[0]].reserved == base + size)
  }

  /** Nothing but the size of the cache has changed. */
  predicate SameButSize(s: W.WSet, s': W.WSet) { s' == s.(size := s'.size) }

  /** The working set when the decision about a new unit is made: all of the first unit's reservation
      has been committed by then. */
  function AtDecision(r: Roster, s: W.WSet): W.WSet {
    if |r.order| == 0 || r.order[0] !in r.units || r.units[r.order[0]].end > r.units[r.order[0]].reserved then s
    else s.(size := s.size + (r.units[r.order[0]].reserved - r.units[r.order[0]].end))
  }

  /** A request makes the cache grow by a unit exactly when no free slot is large enough and the first
      unit, with all its reservation, is too small; the working set then decides about the oldest. */
  ghost predicate Grows(
    r: Roster, s: W.WSet, r': Roster, s': W.WSet, slots: Slots, slotSize: nat, base: Pc, maxUnit: nat)
  {
    if HasRoom(slots, slotSize) || Rank(r.units, r.order, slotSize) < 2 then SameRoster(r, r') && SameButSize(s, s')
    else
      && NewUnitIn(r, r', base, NewUnitSize(maxUnit, slotSize), W.FlushesOldest(AtDecision(r, s)))
      && s' == W.AfterNewUnit(AtDecision(r, s), s'.size)
  }

  /** With a new unit the counters start again; without, they stay. */
  lemma GrowsCounters(
    r: Roster, s: W.WSet, r': Roster, s': W.WSet, slots: Slots, slotSize: nat, base: Pc, maxUnit: nat)
    requires Grows(r, s, r', s', slots, slotSize, base, maxUnit) && |r'.order| > 0 && r'.order[0] in r'.units
    ensures r'.order[0] in r.units ==> s'.numReplaced == s.numReplaced && s'.numRegenerated == s.numRegenerated
    ensures r'.order[0] !in r.units ==> s'.numReplaced == 0 && s'.numRegenerated == 0
  {
    hide HasRoom, Rank, NewUnitSize, W.Decision, W.FlushesOldest, AtDecision;
  }

  /** The same, and the placement was counted. */
  ghost predicate GrowsPlacing(
    r: Roster, s: W.WSet, r': Roster, s': W.WSet, slots: Slots, slotSize: nat, base: Pc, maxUnit: nat,
    regenerated: bool)
  {
    exists s1 :: s' == W.Placed(s1, regenerated) && Grows(r, s, r', s1, slots, slotSize, base, maxUnit)
  }

  lemma SizeSame(s: W.WSet)
    ensures SameButSize(s, s)
  {
  }

  lemma RosterBefore(r: Roster, r1: Roster, r2: Roster, base: Pc, size: nat, flushOldest: bool)
    requires SameRoster(r, r1) && NewUnitIn(r1, r2, base, size, flushOldest)
    ensures NewUnitIn(r, r2, base, size, flushOldest)
  {
  }

  lemma GrowsSame(
    r: Roster, s: W.WSet, r': Roster, s': W.WSet, slots: Slots, slotSize: nat, base: Pc, maxUnit: nat)
    requires SameRoster(r, r') && SameButSize(s, s')
    requires HasRoom(slots, slotSize) || Rank(r.units, r.order, slotSize) < 2
    ensures Grows(r, s, r', s', slots, slotSize, base, maxUnit)
  {
  }

  /** Room was made for slotSize bytes: in the first unit, or in a new one. */
  ghost predicate SpaceMade(
    r: Roster, s: W.WSet, r': Roster, s': W.WSet, slotSize: nat, base: Pc, maxUnit: nat)
  {
    && Rank(r'.units, r'.order, slotSize) < Rank(r.units, r.order, slotSize) <= 2
    && if Rank(r.units, r.order, slotSize) < 2 then SameRoster(r, r') && SameButSize(s, s')
       else
         && NewUnitIn(r, r', base, NewUnitSize(maxUnit, slotSize), W.FlushesOldest(AtDecision(r, s)))
         && s' == W.AfterNewUnit(AtDecision(r, s), s'.size)
  }

  lemma SpaceCommitted(r: Roster, s: W.WSet, r': Roster, s': W.WSet, slotSize: nat, base: Pc, maxUnit: nat)
    requires SameRoster(r, r') && SameButSize(s, s') && Rank(r.units, r.order, slotSize) == 1
    requires Rank(r'.units, r'.order, slotSize) == 0
    ensures SpaceMade(r, s, r', s', slotSize, base, maxUnit)
  {
  }

  lemma SpaceOpened(
    r: Roster, s: W.WSet, r1: Roster, r': Roster, s': W.WSet, slotSize: nat, base: Pc, maxUnit: nat)
    requires SameRoster(r, r1) && Rank(r.units, r.order, slotSize) == 2 && Rank(r'.units, r'.order, slotSize) <= 1
    requires NewUnitIn(r1, r', base, NewUnitSize(maxUnit, slotSize), W.FlushesOldest(AtDecision(r, s)))
    requires s' == W.AfterNewUnit(AtDecision(r, s), s'.size)
    ensures SpaceMade(r, s, r', s', slotSize, base, maxUnit)
  {
    hide Rank, NewUnitSize, W.FlushesOldest, W.AfterNewUnit, AtDecision;
  }

  lemma SpaceRank(r: Roster, s: W.WSet, r': Roster, s': W.WSet, slotSize: nat, base: Pc, maxUnit: nat)
    requires SpaceMade(r, s, r', s', slotSize, base, maxUnit)
    ensures Rank(r'.units, r'.order, slotSize) < Rank(r.units, r.order, slotSize) <= 2
  {
  }

  /** Room was made, and what came after needed no unit more. */
  lemma GrowsLater(
    r: Roster, s: W.WSet, r1: Roster, s1: W.WSet, r2: Roster, s2: W.WSet, slots: Slots, slots1: Slots, slotSize: nat,
    base: Pc, maxUnit: nat)
    requires !HasRoom(slots, slotSize) && SpaceMade(r, s, r1, s1, slotSize, base, maxUnit)
    requires Grows(r1, s1, r2, s2, slots1, slotSize, base, maxUnit)
    ensures Grows(r, s, r2, s2, slots, slotSize, base, maxUnit)
  {
    hide HasRoom, Rank, NewUnitSize, W.Decision, W.FlushesOldest, AtDecision;
  }

  /** A new unit joins. */
  lemma RosterGrown(r: Roster, r': Roster, base: Pc, size: nat, flushOldest: bool)
    requires NewFirst(r.order, r.toFlush, r'.order, r'.toFlush, flushOldest) && r'.pending == (r.pending || flushOldest)
    requires r'.order[0] !in r.units && r'.order[0] in r'.units
    requires r'.units == r.units[r'.order[0] := r'.units[r'.order[0]]]
    requires r.dead == [] ==>
      r'.dead == [] && r'.units[r'.order[0]].start == base && r'.units[r'.order[0]].reserved == base + size
    ensures NewUnitIn(r, r', base, size, flushOldest)
  {
  }

  lemma RosterStep(r: Roster, u: UnitId, unit: Unit)
    requires u in r.units && SameHome(r.units[u], unit)
    ensures SameRoster(r, r.(units := r.units[u := unit]))
  {
  }

  lemma RosterSame(r: Roster)
    ensures SameRoster(r, r)
  {
  }
}
