/** The size of a cache as a sum over its units. */
module Accounting {
  import opened Memory
  import opened Layout

  /** What a unit adds to the size of its cache: its committed bytes, while it has a cache. */
  function Share(u: Unit): nat { if u.attached && u.start <= u.end then u.end - u.start else 0 }

  function ShareAt(units: Units, u: UnitId): nat { if u in units then Share(units[u]) else 0 }

  /** The committed bytes of the units with numbers below n that have their cache. */
  function Committed(units: Units, n: nat): nat {
    if n == 0 then 0 else Committed(units, n - 1) + ShareAt(units, n - 1)
  }

  lemma {:induction false} SameShares(units: Units, units': Units, n: nat)
    requires forall u: UnitId :: u < n ==> ShareAt(units', u) == ShareAt(units, u)
    ensures Committed(units', n) == Committed(units, n)
  {
    if n > 0 { SameShares(units, units', n - 1); }
  }

  /** One unit's share changes the sum by as much. */
  lemma {:induction false} ShareChanges(units: Units, units': Units, u: UnitId, n: nat)
    requires u < n && forall v: UnitId :: v < n && v != u ==> ShareAt(units', v) == ShareAt(units, v)
    ensures Committed(units', n) + ShareAt(units, u) == Committed(units, n) + ShareAt(units', u)
  {
    if u == n - 1 { SameShares(units, units', n - 1); } else { ShareChanges(units, units', u, n - 1); }
  }

  lemma {:induction false} ShareBelow(units: Units, u: UnitId, n: nat)
    requires u < n
    ensures ShareAt(units, u) <= Committed(units, n)
  {
    if u < n - 1 { ShareBelow(units, u, n - 1); }
  }

  lemma {:induction false} NoUnits(n: nat)
    ensures Committed(map[], n) == 0
  {
    if n > 0 { NoUnits(n - 1); }
  }

  /** The sum of the shares of the listed units. */
  function SizeOf(units: Units, l: seq<UnitId>): nat {
    if |l| == 0 then 0 else SizeOf(units, l[..|l| - 1]) + ShareAt(units, l[|l| - 1])
  }

  lemma {:induction false} SizeWithout(units: Units, l: seq<UnitId>, x: UnitId)
    requires x !in l
    ensures SizeOf(units - {x}, l) == SizeOf(units, l)
  {
    if |l| > 0 {
      assert l[|l| - 1] != x && x !in l[..|l| - 1];
      SizeWithout(units, l[..|l| - 1], x);
    }
  }

  /** A list that names every unit once has the sum of all shares. */
  lemma {:induction false} SizeOfAll(units: Units, l: seq<UnitId>, n: nat)
    requires forall i, j :: 0 <= i < j < |l| ==> l[i] != l[j]
    requires forall u :: u in units ==> u in l && u < n
    requires forall i :: 0 <= i < |l| ==> l[i] < n
    ensures SizeOf(units, l) == Committed(units, n)
  {
    if |l| == 0 {
      assert units == map[];
      NoUnits(n);
    } else {
      var l', x := l[..|l| - 1], l[|l| - 1];
      assert x !in l';
      SizeOfAll(units - {x}, l', n);
      SizeWithout(units, l', x);
      ShareChanges(units, units - {x}, x, n);
    }
  }

  lemma {:induction false} SizeJoined(units: Units, a: seq<UnitId>, b: seq<UnitId>)
    ensures SizeOf(units, a + b) == SizeOf(units, a) + SizeOf(units, b)
  {
    if |b| == 0 { assert a + b == a; }
    else {
      assert (a + b)[..|a + b| - 1] == a + b[..|b| - 1];
      SizeJoined(units, a, b[..|b| - 1]);
    }
  }
}
