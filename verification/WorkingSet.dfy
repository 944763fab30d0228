/** The adaptive working set: when a finite cache may grow. */
module WorkingSet {

  datatype WSet = WSet(
    size: nat, maxSize: nat, maxUnitSize: nat, freeUpgradeSize: nat, replaceParam: nat, regenParam: nat,
    finite: bool, fifo: bool, wsetCheck: nat, recordWset: bool, numReplaced: nat, numRegenerated: nat)

  function Min(x: nat, y: nat): nat { if x <= y then x else y }

  /** The counters after the ratio was looked at: both lose the same number of multiples of their
      parameters, as many as fit into both. */
  function Reduced(s: WSet): WSet
    requires s.replaceParam > 0 && s.regenParam > 0
  {
    var k := Min(s.numReplaced / s.replaceParam, s.numRegenerated / s.regenParam);
    s.(numReplaced := Less(s.numReplaced, k, s.replaceParam), numRegenerated := Less(s.numRegenerated, k, s.regenParam))
  }

  /** x - k * p, cut off at 0. */
  function Less(x: nat, k: nat, p: nat): nat { if k * p <= x then x - k * p else 0 }

  /** Regenerated fragments per replaced ones exceed the target: growth is granted. */
  predicate RatioReached(s: WSet)
    requires s.replaceParam > 0 && s.regenParam > 0
  {
    && s.numReplaced >= s.replaceParam && s.numRegenerated >= s.regenParam
    && s.numRegenerated / s.regenParam > s.numReplaced / s.replaceParam
  }

  predicate AtMax(s: WSet, addSize: nat) { s.maxSize != 0 && s.size + addSize > s.maxSize }

  /** The working set is adapted: growth is neither always nor never granted. */
  predicate Adaptive(s: WSet) { s.finite && s.replaceParam > 0 && s.regenParam > 0 }

  /** Whether the cache may grow, and the state afterwards. */
  function Decision(s: WSet, addSize: nat): (WSet, bool) {
    if AtMax(s, addSize) then (s, false)
    else if !s.finite || s.replaceParam == 0 then (s, true)
    else if s.regenParam == 0 then (s, false)
    else if s.wsetCheck > 0 then (s.(wsetCheck := s.wsetCheck - 1), false)
    else if s.size < s.freeUpgradeSize then
      (if s.fifo then s.(wsetCheck := s.replaceParam)
       else s.(recordWset := s.recordWset || s.size + s.maxUnitSize >= s.freeUpgradeSize), true)
    else if !s.fifo && !s.recordWset then (s.(recordWset := true), true)
    else
      var s1 := if s.fifo then s.(wsetCheck := s.replaceParam) else s;
      if s.numReplaced >= s.replaceParam && s.numRegenerated >= s.regenParam then (Reduced(s1), RatioReached(s1))
      else (s1, false)
  }

  lemma DivLess(x: nat, p: nat)
    requires 0 < p <= x
    ensures (x - p) / p == x / p - 1 && x / p >= 1
  {
    var q, r := x / p, x % p;
    assert x == p * q + r;
    assert q >= 1;
    assert x - p == p * (q - 1) + r;
    DivIs(x - p, p, q - 1, r);
  }

  lemma DivIs(x: nat, p: nat, q: nat, r: nat)
    requires 0 < p && x == p * q + r && r < p
    ensures x / p == q
  {
    QuotientUnique(p, q, r, x / p, x % p);
  }

  lemma QuotientUnique(p: nat, q: nat, r: nat, q': nat, r': nat)
    requires r < p && r' < p && p * q + r == p * q' + r'
    ensures q == q'
  {
    if q > q' { TimesApart(p, q, q'); }
    if q < q' { TimesApart(p, q', q); }
  }

  lemma TimesApart(p: nat, a: nat, b: nat)
    requires a > b
    ensures p * a >= p * b + p
  {
    var d: nat := a - b - 1;
    assert p * a == p * b + p + p * d;
  }

  lemma DivSmall(x: nat, p: nat)
    requires 0 < p
    ensures x / p == 0 <==> x < p
  {
    if x < p { DivIs(x, p, 0, x); } else { DivLess(x, p); }
  }

  lemma TimesStep(k: nat, p: nat)
    ensures (k + 1) * p == k * p + p
  {
  }

  class WorkingSetState {
    const maxSize: nat
    const maxUnitSize: nat
    const freeUpgradeSize: nat
    const replaceParam: nat
    const regenParam: nat
    const finite: bool
    const fifo: bool
    var size: nat
    var wsetCheck: nat
    var recordWset: bool
    var numReplaced: nat
    var numRegenerated: nat

    constructor (
      maxSize: nat, maxUnitSize: nat, freeUpgradeSize: nat, replaceParam: nat, regenParam: nat, finite: bool,
      fifo: bool)
      ensures View() ==
        WSet(0, maxSize, maxUnitSize, freeUpgradeSize, replaceParam, regenParam, finite, fifo, 0, false, 0, 0)
    {
      this.maxSize, this.maxUnitSize, this.freeUpgradeSize := maxSize, maxUnitSize, freeUpgradeSize;
      this.replaceParam, this.regenParam, this.finite, this.fifo := replaceParam, regenParam, finite, fifo;
      size, wsetCheck, recordWset, numReplaced, numRegenerated := 0, 0, false, 0, 0;
    }

    function View(): WSet
      reads this
    {
      WSet(size, maxSize, maxUnitSize, freeUpgradeSize, replaceParam, regenParam,
        finite, fifo, wsetCheck, recordWset, numReplaced, numRegenerated)
    }

    /** The subtraction loop: a ratio without division. */
    method SubtractMultiples() returns (ghost k: nat)
      requires replaceParam > 0 && regenParam > 0
      modifies `numReplaced, `numRegenerated
      ensures View() == Reduced(old(View()))
      ensures old(numReplaced) == numReplaced + k * replaceParam
      ensures old(numRegenerated) == numRegenerated + k * regenParam
      ensures numReplaced < replaceParam || numRegenerated < regenParam
      ensures numRegenerated >= regenParam <==> old(numRegenerated) / regenParam > old(numReplaced) / replaceParam
    {
      k := 0;
      while numReplaced >= replaceParam && numRegenerated >= regenParam
        invariant numReplaced == old(numReplaced) - k * replaceParam
        invariant numRegenerated == old(numRegenerated) - k * regenParam
        invariant old(numReplaced) / replaceParam == numReplaced / replaceParam + k
        invariant old(numRegenerated) / regenParam == numRegenerated / regenParam + k
      {
        DivLess(numReplaced, replaceParam);
        DivLess(numRegenerated, regenParam);
        TimesStep(k, replaceParam);
        TimesStep(k, regenParam);
        numReplaced := numReplaced - replaceParam;
        numRegenerated := numRegenerated - regenParam;
        k := k + 1;
      }
      DivSmall(numReplaced, replaceParam);
      DivSmall(numRegenerated, regenParam);
    }

    /** check_regen_replace_ratio: at the maximum size no; not finite or nothing to replace, yes; no
        target, no; waiting, no; below the free size, yes, and a FIFO cache waits after that, a shared one
        keeps track from when its next unit reaches that size; a shared cache that does not keep track yet,
        yes; else by the ratio. */
    method CheckRegenReplaceRatio(addSize: nat) returns (grow: bool)
      modifies `wsetCheck, `recordWset, `numReplaced, `numRegenerated
      ensures (View(), grow) == Decision(old(View()), addSize)
      ensures maxSize != 0 && size + addSize > maxSize ==> !grow && View() == old(View())
      ensures (maxSize == 0 || size + addSize <= maxSize) && (!finite || replaceParam == 0) ==>
        grow && View() == old(View())
      ensures (maxSize == 0 || size + addSize <= maxSize) && finite && replaceParam > 0 && regenParam == 0 ==>
        !grow && View() == old(View())
      ensures (maxSize == 0 || size + addSize <= maxSize) && finite && replaceParam > 0 && regenParam > 0 ==>
        if old(wsetCheck) > 0 then !grow && View() == old(View()).(wsetCheck := old(wsetCheck) - 1)
        else if size < freeUpgradeSize then
          && grow && numReplaced == old(numReplaced) && numRegenerated == old(numRegenerated)
          && wsetCheck == (if fifo then replaceParam else 0)
          && (recordWset <==> old(recordWset) || (!fifo && size + maxUnitSize >= freeUpgradeSize))
        else if !fifo && !old(recordWset) then grow && View() == old(View()).(recordWset := true)
        else
          && wsetCheck == (if fifo then replaceParam else 0) && recordWset == old(recordWset)
          && (grow <==>
                && old(numReplaced) >= replaceParam && old(numRegenerated) >= regenParam
                && old(numRegenerated) / regenParam > old(numReplaced) / replaceParam)
    {
      if maxSize != 0 && size + addSize > maxSize {
        return false;
      } else if !finite || replaceParam == 0 {
        return true;
      } else if regenParam == 0 {
        return false;
      } else if wsetCheck > 0 {
        wsetCheck := wsetCheck - 1;
        return false;
      } else if size < freeUpgradeSize {
        if fifo {
          wsetCheck := replaceParam;
        } else if size + maxUnitSize >= freeUpgradeSize && !recordWset {
          recordWset := true;
        }
        return true;
      }
      if fifo {
        wsetCheck := replaceParam;
      } else if !recordWset {
        recordWset := true;
        return true;
      }
      if numReplaced >= replaceParam && numRegenerated >= regenParam {
        ghost var k := SubtractMultiples();
        if numRegenerated >= regenParam {
          return true;
        }
      }
      return false;
    }

    /** The part of place_fragment that keeps track of regenerated fragments. */
    method CountPlacement(regenerated: bool)
      modifies `numReplaced, `numRegenerated
      ensures View() == Placed(old(View()), regenerated)
      ensures numReplaced == old(numReplaced) + if recordWset then 1 else 0
      ensures numRegenerated == old(numRegenerated) + if recordWset && regenerated then 1 else 0
    {
      if recordWset {
        numReplaced := numReplaced + 1;
        if regenerated {
          numRegenerated := numRegenerated + 1;
        }
      }
    }

    /** The part of force_fragment_from_cache that counts an evicted fragment. */
    method CountEviction()
      modifies `numReplaced
      ensures View() == Evicted(old(View()), 1)
      ensures numReplaced == old(numReplaced) + if finite then 1 else 0
    {
      if finite {
        numReplaced := numReplaced + 1;
      }
    }

    /** The end of replace_fragments. */
    method CountReplacement(regenerated: bool)
      modifies `numRegenerated
      ensures View() == Regained(old(View()), regenerated)
      ensures numRegenerated == old(numRegenerated) + if finite && numReplaced > 0 && regenerated then 1 else 0
    {
      if finite && numReplaced > 0 && regenerated {
        numRegenerated := numRegenerated + 1;
      }
    }

    /** The end of try_for_more_space. */
    method ResetCounters()
      modifies `numReplaced, `numRegenerated
      ensures View() == NewUnit(old(View())) && numReplaced == 0 && numRegenerated == 0
    {
      numReplaced, numRegenerated := 0, 0;
    }
  }

  /** A finite cache has evicted n fragments. */
  function Evicted(s: WSet, n: nat): WSet { if s.finite then s.(numReplaced := s.numReplaced + n) else s }

  /** The fragment that takes their place had been deleted before, or not. */
  function Regained(s: WSet, regenerated: bool): WSet {
    if s.finite && s.numReplaced > 0 && regenerated then s.(numRegenerated := s.numRegenerated + 1) else s
  }

  /** One replacement in a FIFO cache. */
  function Replacing(s: WSet, n: nat, regenerated: bool): (r: WSet)
    ensures r == s.(numReplaced := r.numReplaced, numRegenerated := r.numRegenerated)
    ensures r.numReplaced == s.numReplaced + if s.finite then n else 0
    ensures r.numRegenerated == s.numRegenerated + if s.finite && s.numReplaced + n > 0 && regenerated then 1 else 0
  {
    Regained(Evicted(s, n), regenerated)
  }

  // ----- over many checks

  /** The state after n checks. */
  function After(s: WSet, addSizes: seq<nat>): WSet {
    if |addSizes| == 0 then s else Decision(After(s, addSizes[..|addSizes| - 1]), addSizes[|addSizes| - 1]).0
  }

  /** While a FIFO cache waits, it only counts down. */
  lemma {:induction false} CountsDown(s: WSet, addSizes: seq<nat>)
    requires Adaptive(s) && |addSizes| <= s.wsetCheck && forall i :: 0 <= i < |addSizes| ==> !AtMax(s, addSizes[i])
    ensures After(s, addSizes) == s.(wsetCheck := s.wsetCheck - |addSizes|)
  {
    if |addSizes| > 0 {
      CountsDown(s, addSizes[..|addSizes| - 1]);
    }
  }

  /** A FIFO cache that was let grow, or whose ratio was looked at, then refuses the next
      replaceParam requests to grow. */
  lemma WaitsItsTurn(s: WSet, addSize: nat, addSizes: seq<nat>, next: nat)
    requires Adaptive(s) && s.fifo && s.wsetCheck == 0 && !AtMax(s, addSize)
    requires |addSizes| < s.replaceParam && !AtMax(s, next)
    requires forall i :: 0 <= i < |addSizes| ==> !AtMax(s, addSizes[i])
    ensures !Decision(After(Decision(s, addSize).0, addSizes), next).1
  {
    var s1 := Decision(s, addSize).0;
    assert s1.wsetCheck == s.replaceParam;
    CountsDown(s1, addSizes);
  }

  /** When both counters have reached their parameters, growth is granted exactly when more
      multiples of regenParam than of replaceParam fit, and afterwards one of the counters is
      below its parameter. */
  lemma RatioExact(s: WSet)
    requires Adaptive(s) && s.numReplaced >= s.replaceParam && s.numRegenerated >= s.regenParam
    ensures var k := Min(s.numReplaced / s.replaceParam, s.numRegenerated / s.regenParam);
      && k >= 1 && Reduced(s).numReplaced + k * s.replaceParam == s.numReplaced
      && Reduced(s).numRegenerated + k * s.regenParam == s.numRegenerated
    ensures RatioReached(s) <==> Reduced(s).numRegenerated >= s.regenParam
    ensures Reduced(s).numReplaced < s.replaceParam || Reduced(s).numRegenerated < s.regenParam
  {
    var a, b := s.numReplaced / s.replaceParam, s.numRegenerated / s.regenParam;
    DivLess(s.numReplaced, s.replaceParam);
    DivLess(s.numRegenerated, s.regenParam);
    LessIs(s.numReplaced, Min(a, b), s.replaceParam);
    LessIs(s.numRegenerated, Min(a, b), s.regenParam);
  }

  lemma LessIs(x: nat, k: nat, p: nat)
    requires 0 < p && k <= x / p
    ensures k * p <= x && (x - k * p < p <==> k == x / p)
  {
    MultiplesOf(p, x / p, x % p, k);
  }

  lemma MultiplesOf(p: nat, q: nat, r: nat, k: nat)
    requires r < p && k <= q
    ensures k * p <= p * q + r && (p * q + r - k * p < p <==> k == q)
  {
    if k < q { TimesApart(p, q, k); }
  }

  // ----- shared caches

  /** place_fragment on a cache that keeps track: a fragment was placed, perhaps one that had been
      deleted before. */
  function Placed(s: WSet, regenerated: bool): WSet {
    if !s.recordWset then s
    else s.(numReplaced := s.numReplaced + 1, numRegenerated := s.numRegenerated + if regenerated then 1 else 0)
  }

  function AllPlaced(s: WSet, ps: seq<bool>): WSet {
    if |ps| == 0 then s else Placed(AllPlaced(s, ps[..|ps| - 1]), ps[|ps| - 1])
  }

  function Regenerated(ps: seq<bool>): (n: nat)
    ensures n <= |ps|
  {
    if |ps| == 0 then 0 else Regenerated(ps[..|ps| - 1]) + if ps[|ps| - 1] then 1 else 0
  }

  /** try_for_more_space: with the new unit both counters start again. */
  function NewUnit(s: WSet): WSet { s.(numReplaced := 0, numRegenerated := 0) }

  lemma {:induction false} PlacedCounts(s: WSet, ps: seq<bool>)
    requires s.recordWset
    ensures AllPlaced(s, ps) ==
      s.(numReplaced := s.numReplaced + |ps|, numRegenerated := s.numRegenerated + Regenerated(ps))
  {
    if |ps| > 0 { PlacedCounts(s, ps[..|ps| - 1]); }
  }

  /** The oldest unit is flushed to make up for a new one: the cache is finite and may not grow. */
  predicate FlushesOldest(s: WSet) { s.finite && !Decision(s, 0).1 }

  /** try_for_more_space: the decision is made, the new unit makes the cache as large as size, and both
      counters start again. */
  function AfterNewUnit(s: WSet, size: nat): WSet { NewUnit(Decision(s, 0).0).(size := size) }

  /** A large shared cache gets one unit for free, and from then on keeps track. */
  lemma FirstUnitFree(s: WSet, addSize: nat)
    requires Adaptive(s) && !s.fifo && s.wsetCheck == 0 && !AtMax(s, addSize) && s.size >= s.freeUpgradeSize
    requires !s.recordWset
    ensures Decision(s, addSize).1 && Decision(s, addSize).0 == s.(recordWset := true)
  {
  }

  /** After that a shared cache may add a unit without flushing one exactly when, of the fragments
      placed since the last new unit, enough were regenerated. */
  lemma SharedGrants(s: WSet, ps: seq<bool>, addSize: nat)
    requires Adaptive(s) && !s.fifo && s.wsetCheck == 0 && s.recordWset && s.size >= s.freeUpgradeSize
    requires !AtMax(s, addSize)
    ensures Decision(AllPlaced(NewUnit(s), ps), addSize).1 <==>
      && |ps| >= s.replaceParam && Regenerated(ps) >= s.regenParam
      && Regenerated(ps) / s.regenParam > |ps| / s.replaceParam
  {
    PlacedCounts(NewUnit(s), ps);
  }

  /** From one new unit to the next, at sizes past the free upgrades: the oldest unit is set aside exactly
      when, of the fragments placed in between, too few were regenerated. */
  lemma OldestGoes(s: WSet, size: nat, ps: seq<bool>, size': nat)
    requires Adaptive(s) && !s.fifo && s.wsetCheck == 0 && s.recordWset && s.maxSize == 0
    requires size' >= s.freeUpgradeSize
    ensures FlushesOldest(AllPlaced(AfterNewUnit(s, size), ps).(size := size')) <==>
      !(&& |ps| >= s.replaceParam && Regenerated(ps) >= s.regenParam
        && Regenerated(ps) / s.regenParam > |ps| / s.replaceParam)
  {
    var s1 := Decision(s, 0).0.(size := size');
    SharedKeeps(s, 0);
    PlacedCounts(AfterNewUnit(s, size), ps);
    PlacedCounts(NewUnit(s1), ps);
    assert AllPlaced(AfterNewUnit(s, size), ps).(size := size') == AllPlaced(NewUnit(s1), ps);
    SharedGrants(s1, ps, 0);
  }

  /** A shared cache that never waits between checks goes on so, and never stops keeping track. */
  lemma SharedKeeps(s: WSet, addSize: nat)
    requires !s.fifo && s.wsetCheck == 0
    ensures var s' := Decision(s, addSize).0;
      && s'.wsetCheck == 0 && (s.recordWset ==> s'.recordWset)
      && s' == s.(recordWset := s'.recordWset, numReplaced := s'.numReplaced, numRegenerated := s'.numRegenerated)
  {
  }

  /** With a regeneration parameter as large as the replacement parameter that never happens. */
  lemma EqualParamsNeverGrant(s: WSet, ps: seq<bool>, addSize: nat)
    requires Adaptive(s) && !s.fifo && s.wsetCheck == 0 && s.recordWset && s.size >= s.freeUpgradeSize
    requires !AtMax(s, addSize)
    requires s.regenParam >= s.replaceParam
    ensures !Decision(AllPlaced(NewUnit(s), ps), addSize).1
  {
    SharedGrants(s, ps, addSize);
    QuotientsOrdered(Regenerated(ps), s.regenParam, |ps|, s.replaceParam);
  }

  lemma QuotientsOrdered(x: nat, p: nat, y: nat, q: nat)
    requires x <= y && 0 < q <= p
    ensures x / p <= y / q
  {
    LessIs(x, x / p, p);
    if x / p > y / q {
      FloorExceeds(y, q, x / p);
      TimesOrdered(x / p, q, p);
    }
  }

  lemma TimesOrdered(k: nat, q: nat, p: nat)
    requires q <= p
    ensures k * q <= k * p
  {
  }

  lemma FloorExceeds(y: nat, q: nat, k: nat)
    requires 0 < q && k > y / q
    ensures k * q > y
  {
    MultipleExceeds(q, y / q, y % q, k);
  }

  lemma MultipleExceeds(q: nat, d: nat, r: nat, k: nat)
    requires r < q && k > d
    ensures k * q > q * d + r
  {
    TimesApart(q, k, d);
  }
}
