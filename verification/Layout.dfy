/** Units of code-cache memory and the slots that tile them.

    slots maps the address of each slot to its size, its unit and what occupies it.  A Hole
    is a slot being worked on; a Lost slot holds bytes that no fragment and no list owns. */
module Layout {
  import opened Memory

  datatype Kind = Live(f: FragId) | Free | Lost | Hole
  datatype Slot = Slot(size: nat, unit: UnitId, kind: Kind)
  /** attached stands for a cache field that is not NULL. */
  datatype Unit = Unit(start: Pc, cur: Pc, end: Pc, reserved: Pc, full: bool, pendingFree: bool, attached: bool)

  type Units = map<UnitId, Unit>
  type Tops = map<UnitId, Pc>
  type Slots = map<Pc, Slot>

  predicate Reserves(u: Unit, pc: Pc) { u.start <= pc < u.reserved }

  ghost predicate NoHoles(slots: Slots) { forall p :: p in slots ==> !slots[p].kind.Hole? }

  /** Only the slot at p may be a hole. */
  ghost predicate OnlyHole(slots: Slots, p: Pc) { forall x :: x in slots && slots[x].kind.Hole? ==> x == p }

  /** The address right after the slot at p. */
  function End(slots: Slots, p: Pc): Pc
    requires p in slots
  {
    p + slots[p].size
  }

  /** The address at which the walk of a unit begins. */
  function First(units: Units, u: UnitId): Pc
    requires u in units
  {
    units[u].start
  }

  /** Each unit is used up to its top, inside its committed part, and units are disjoint and
      smaller than 4GB. */
  ghost predicate UnitsOk(units: Units, tops: Tops) {
    && tops.Keys == units.Keys
    && (forall u :: u in units ==>
          && units[u].start <= tops[u] <= units[u].end <= units[u].reserved
          && units[u].start <= units[u].cur <= units[u].end
          && units[u].reserved - units[u].start <= UINT_MAX)
    && (forall u, v :: u in units && v in units && u != v ==>
          units[u].reserved <= units[v].start || units[v].reserved <= units[u].start)
  }

  /** Every slot lies between the start and the top of its unit. */
  ghost predicate Housed(units: Units, tops: Tops, slots: Slots)
    requires tops.Keys == units.Keys
  {
    forall p :: p in slots ==>
      && 0 < slots[p].size && slots[p].unit in units
      && units[slots[p].unit].start <= p && p + slots[p].size <= tops[slots[p].unit]
  }

  /** Slots do not overlap. */
  ghost predicate Apart(slots: Slots) {
    forall p, q :: p in slots && q in slots && p < q ==> p + slots[p].size <= q
  }

  /** Each slot ends where another begins or at the top of its unit. */
  ghost predicate Chained(tops: Tops, slots: Slots) {
    forall p {:trigger End(slots, p)} :: p in slots ==>
      (slots[p].unit in tops && End(slots, p) == tops[slots[p].unit]) || End(slots, p) in slots
  }

  /** A unit in use begins with a slot. */
  ghost predicate Rooted(units: Units, tops: Tops, slots: Slots)
    requires tops.Keys == units.Keys
  {
    forall u {:trigger First(units, u)} :: u in units && First(units, u) < tops[u] ==> First(units, u) in slots
  }

  /** The slots of each unit lie between its start and its top, do not overlap, and leave no
      byte out. */
  ghost predicate Tiled(units: Units, tops: Tops, slots: Slots)
    requires tops.Keys == units.Keys
  {
    && Housed(units, tops, slots)
    && Apart(slots)
    && Chained(tops, slots)
    && Rooted(units, tops, slots)
  }

  lemma NextInUnit(units: Units, tops: Tops, slots: Slots, p: Pc)
    requires UnitsOk(units, tops) && Tiled(units, tops, slots) && p in slots
    requires End(slots, p) != tops[slots[p].unit]
    ensures End(slots, p) in slots && slots[End(slots, p)].unit == slots[p].unit
  {
    var q := End(slots, p);
    var u, v := slots[p].unit, slots[q].unit;
    assert units[u].start <= q < units[u].reserved;
    assert units[v].start <= q < units[v].reserved;
  }

  function SetKind(slots: Slots, p: Pc, k: Kind): Slots
    requires p in slots
  {
    slots[p := slots[p].(kind := k)]
  }

  /** The slot at p takes over the one that follows it. */
  function MergeNext(slots: Slots, p: Pc): Slots
    requires p in slots && End(slots, p) in slots
  {
    var q := End(slots, p);
    (slots - {q})[p := slots[p].(size := slots[p].size + slots[q].size)]
  }

  /** The slot at p keeps n bytes; the rest becomes a hole. */
  function Cut(slots: Slots, p: Pc, n: nat): Slots
    requires p in slots && 0 < n < slots[p].size
  {
    slots[p := slots[p].(size := n)][p + n := Slot(slots[p].size - n, slots[p].unit, Hole)]
  }

  lemma TiledSetKind(units: Units, tops: Tops, slots: Slots, p: Pc, k: Kind)
    requires tops.Keys == units.Keys && Tiled(units, tops, slots) && p in slots
    ensures Tiled(units, tops, SetKind(slots, p, k))
  {
    var s' := SetKind(slots, p, k);
    assert forall x :: x in s' ==> x in slots && s'[x].size == slots[x].size && s'[x].unit == slots[x].unit;
    forall x | x in s' ensures (s'[x].unit in tops && End(s', x) == tops[s'[x].unit]) || End(s', x) in s' {
      assert End(s', x) == End(slots, x);
    }
  }

  lemma MergeApart(slots: Slots, p: Pc)
    requires Apart(slots) && p in slots && End(slots, p) in slots
    requires 0 < slots[p].size
    ensures Apart(MergeNext(slots, p))
  {
    var q, s' := End(slots, p), MergeNext(slots, p);
    forall x, y | x in s' && y in s' && x < y ensures x + s'[x].size <= y {
      assert x in slots && y in slots && y != q;
    }
  }

  lemma MergeChained(tops: Tops, slots: Slots, p: Pc)
    requires Apart(slots) && Chained(tops, slots) && p in slots && End(slots, p) in slots
    requires 0 < slots[p].size && 0 < slots[End(slots, p)].size && slots[End(slots, p)].unit == slots[p].unit
    ensures Chained(tops, MergeNext(slots, p))
  {
    var q, s' := End(slots, p), MergeNext(slots, p);
    forall x | x in s' ensures (s'[x].unit in tops && End(s', x) == tops[s'[x].unit]) || End(s', x) in s' {
      if x == p {
        assert End(s', x) == End(slots, q);
      } else {
        assert End(s', x) == End(slots, x);
      }
    }
  }

  lemma MergeRooted(units: Units, tops: Tops, slots: Slots, p: Pc)
    requires UnitsOk(units, tops) && Housed(units, tops, slots) && Rooted(units, tops, slots)
    requires p in slots && End(slots, p) in slots && slots[End(slots, p)].unit == slots[p].unit
    ensures Rooted(units, tops, MergeNext(slots, p))
  {
    var q, s' := End(slots, p), MergeNext(slots, p);
    forall u | u in units && First(units, u) < tops[u] ensures First(units, u) in s' {
      assert First(units, u) != q;
    }
  }

  lemma TiledMerge(units: Units, tops: Tops, slots: Slots, p: Pc)
    requires UnitsOk(units, tops) && Tiled(units, tops, slots) && p in slots
    requires End(slots, p) != tops[slots[p].unit]
    ensures End(slots, p) in slots && Tiled(units, tops, MergeNext(slots, p))
  {
    NextInUnit(units, tops, slots, p);
    MergeApart(slots, p);
    MergeChained(tops, slots, p);
    MergeRooted(units, tops, slots, p);
  }

  lemma CutApart(slots: Slots, p: Pc, n: nat)
    requires Apart(slots) && p in slots && 0 < n < slots[p].size
    ensures Apart(Cut(slots, p, n)) && p + n !in slots
  {
    var s' := Cut(slots, p, n);
    assert p + n !in slots;
    forall x, y | x in s' && y in s' && x < y ensures x + s'[x].size <= y {
    }
  }

  lemma CutChained(tops: Tops, slots: Slots, p: Pc, n: nat)
    requires Chained(tops, slots) && p in slots && 0 < n < slots[p].size && p + n !in slots
    ensures Chained(tops, Cut(slots, p, n))
  {
    var s' := Cut(slots, p, n);
    forall x | x in s' ensures (s'[x].unit in tops && End(s', x) == tops[s'[x].unit]) || End(s', x) in s' {
      if x == p + n {
        assert End(s', x) == End(slots, p);
      } else if x != p {
        assert End(s', x) == End(slots, x);
      }
    }
  }

  lemma TiledCut(units: Units, tops: Tops, slots: Slots, p: Pc, n: nat)
    requires tops.Keys == units.Keys && Tiled(units, tops, slots)
    requires p in slots && 0 < n < slots[p].size
    ensures Tiled(units, tops, Cut(slots, p, n)) && p + n !in slots
  {
    CutApart(slots, p, n);
    CutChained(tops, slots, p, n);
    hide Apart, Chained;
  }

  /** A slot within the part of unit u that lies beyond its top meets no other slot. */
  lemma BeyondTop(units: Units, tops: Tops, slots: Slots, u: UnitId, p: Pc)
    requires UnitsOk(units, tops) && Housed(units, tops, slots) && u in units && p in slots
    ensures p + slots[p].size <= tops[u] || units[u].reserved <= p
  {
    var v := slots[p].unit;
    assert v == u || units[u].reserved <= units[v].start || units[v].reserved <= units[u].start;
  }

  lemma AppendApart(units: Units, tops: Tops, slots: Slots, u: UnitId, n: nat, k: Kind)
    requires UnitsOk(units, tops) && Housed(units, tops, slots) && Apart(slots)
    requires u in units && 0 < n && tops[u] + n <= units[u].end
    ensures tops[u] !in slots
    ensures Apart(slots[tops[u] := Slot(n, u, k)])
  {
    forall p | p in slots ensures p + slots[p].size <= tops[u] || tops[u] + n <= p {
      BeyondTop(units, tops, slots, u, p);
    }
  }

  lemma AppendChained(tops: Tops, slots: Slots, u: UnitId, n: nat, k: Kind)
    requires Chained(tops, slots) && u in tops && tops[u] !in slots
    ensures Chained(tops[u := tops[u] + n], slots[tops[u] := Slot(n, u, k)])
  {
    var t := tops[u];
    var s', tops' := slots[t := Slot(n, u, k)], tops[u := t + n];
    forall x | x in s' ensures (s'[x].unit in tops' && End(s', x) == tops'[s'[x].unit]) || End(s', x) in s' {
      if x != t { assert End(s', x) == End(slots, x); }
    }
  }

  /** A slot of n bytes is appended at the top of unit u. */
  lemma TiledAppend(units: Units, tops: Tops, slots: Slots, u: UnitId, n: nat, k: Kind)
    requires UnitsOk(units, tops) && Tiled(units, tops, slots)
    requires u in units && 0 < n && tops[u] + n <= units[u].end
    ensures tops[u] !in slots
    ensures Tiled(units, tops[u := tops[u] + n], slots[tops[u] := Slot(n, u, k)])
  {
    AppendApart(units, tops, slots, u, n, k);
    AppendChained(tops, slots, u, n, k);
    hide Apart, Chained;
  }

  lemma ChopChained(units: Units, tops: Tops, slots: Slots, p: Pc)
    requires UnitsOk(units, tops) && Tiled(units, tops, slots) && p in slots
    requires End(slots, p) == tops[slots[p].unit]
    ensures Chained(tops[slots[p].unit := p], slots - {p})
  {
    var u := slots[p].unit;
    var s', tops' := slots - {p}, tops[u := p];
    forall x | x in s' ensures (s'[x].unit in tops' && End(s', x) == tops'[s'[x].unit]) || End(s', x) in s' {
      assert End(s', x) == End(slots, x);
      if End(slots, x) != tops[slots[x].unit] {
        NextInUnit(units, tops, slots, x);
      }
    }
  }

  lemma ChopHoused(units: Units, tops: Tops, slots: Slots, p: Pc)
    requires tops.Keys == units.Keys && Housed(units, tops, slots) && Apart(slots) && p in slots
    requires End(slots, p) == tops[slots[p].unit]
    ensures Housed(units, tops[slots[p].unit := p], slots - {p}) && Apart(slots - {p})
  {
    forall x | x in slots - {p} && slots[x].unit == slots[p].unit ensures x + slots[x].size <= p {
      assert x < p || p < x;
    }
  }

  lemma ChopRooted(units: Units, tops: Tops, slots: Slots, p: Pc)
    requires UnitsOk(units, tops) && Housed(units, tops, slots) && Rooted(units, tops, slots) && p in slots
    ensures Rooted(units, tops[slots[p].unit := p], slots - {p})
  {
    var u := slots[p].unit;
    forall v | v in units && First(units, v) < tops[u := p][v] ensures First(units, v) in slots - {p} {
      assert First(units, v) == p ==> v == u;
    }
  }

  /** The last slot of a unit is given back: the top moves down to it. */
  lemma TiledChop(units: Units, tops: Tops, slots: Slots, p: Pc)
    requires UnitsOk(units, tops) && Tiled(units, tops, slots) && p in slots
    requires End(slots, p) == tops[slots[p].unit]
    ensures Tiled(units, tops[slots[p].unit := p], slots - {p})
  {
    ChopHoused(units, tops, slots, p);
    ChopChained(units, tops, slots, p);
    ChopRooted(units, tops, slots, p);
  }

  lemma OpenHoused(units: Units, tops: Tops, slots: Slots, u: UnitId, unit: Unit)
    requires tops.Keys == units.Keys && Housed(units, tops, slots) && Chained(tops, slots) && u !in units
    ensures Housed(units[u := unit], tops[u := unit.start], slots) && Chained(tops[u := unit.start], slots)
  {
  }

  lemma OpenRooted(units: Units, tops: Tops, slots: Slots, u: UnitId, unit: Unit)
    requires tops.Keys == units.Keys && Rooted(units, tops, slots) && u !in units
    ensures Rooted(units[u := unit], tops[u := unit.start], slots)
  {
    var units', tops' := units[u := unit], tops[u := unit.start];
    forall v | v in units' && First(units', v) < tops'[v] ensures First(units', v) in slots {
      assert v != u && First(units', v) == First(units, v);
    }
  }

  /** An empty unit joins. */
  lemma TiledOpen(units: Units, tops: Tops, slots: Slots, u: UnitId, unit: Unit)
    requires tops.Keys == units.Keys && Tiled(units, tops, slots) && u !in units
    ensures Tiled(units[u := unit], tops[u := unit.start], slots)
  {
    hide Apart, Housed, Chained, Rooted;
    OpenHoused(units, tops, slots, u, unit);
    OpenRooted(units, tops, slots, u, unit);
  }
}
