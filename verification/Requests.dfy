/** The size of the slot a fragment asks for, and of the memory that is made available for it. */
module Requests {
  import opened Memory
  import opened Alignment
  import opened Layout

  /** fcache_add_fragment: header included, at least the minimum, rounded up to the alignment. */
  function SlotSize(size: nat, align: nat): nat
    requires IsAlign(align)
  {
    AlignForward(if size + PTR < MIN_SLOT then MIN_SLOT else size + PTR, align)
  }

  /** n is the least slot for a body of the given size: room for the 8 bytes of the header, at least
      28 bytes, and a multiple of the alignment. */
  ghost predicate LeastSlot(n: nat, size: nat, align: nat) {
    && IsAlign(align) && n % align == 0 && 28 <= n && size + 8 <= n
    && forall m: nat :: m % align == 0 && 28 <= m && size + 8 <= m ==> n <= m
  }

  lemma SlotSizeLeast(size: nat, align: nat)
    requires IsAlign(align)
    ensures LeastSlot(SlotSize(size, align), size, align)
  {
    hide Aligned;
    AlignedIs(SlotSize(size, align), align);
    forall m: nat | m % align == 0 && 28 <= m && size + 8 <= m ensures SlotSize(size, align) <= m {
      AlignedIs(m, align);
      AlignForwardBound(if size + PTR < MIN_SLOT then MIN_SLOT else size + PTR, m, align);
    }
  }

  /** The spare bytes of a request fit fcache_extra. */
  lemma SlotSizeOk(size: nat, align: nat)
    requires IsAlign(align)
    ensures MIN_SLOT <= SlotSize(size, align) && Aligned(SlotSize(size, align), align)
    ensures size + PTR <= SlotSize(size, align) <= size + 91
  {
    hide Aligned;
  }

  function PageForward(x: nat): (r: nat)
    ensures x <= r < x + PAGE && r % PAGE == 0
  {
    (x + 4095) / 4096 * 4096
  }

  /** The size of a new unit: a large fragment gets a unit of twice its size. */
  function NewUnitSize(maxUnit: nat, slotSize: nat): (r: nat)
    ensures 2 * slotSize <= maxUnit ==> r == maxUnit
    ensures maxUnit < 2 * slotSize ==> r % 4096 == 0 && 2 * slotSize <= r < 2 * slotSize + 4096
  {
    if maxUnit < 2 * slotSize then PageForward(2 * slotSize) else maxUnit
  }

  /** How far add_fragment_common is from placing at the end of the first unit: it fits now, it
      fits once more of the reservation is committed, or a new unit is needed. */
  function Rank(units: Units, order: seq<UnitId>, slotSize: nat): nat {
    if |order| == 0 || order[0] !in units then 0
    else
      var x := units[order[0]];
      if !x.full && x.end - x.cur >= slotSize then 0
      else if x.cur + slotSize <= x.reserved then 1
      else 2
  }

  lemma NewSizeOk(maxUnit: nat, slotSize: nat)
    requires maxUnit % PAGE == 0
    ensures maxUnit <= NewUnitSize(maxUnit, slotSize) && NewUnitSize(maxUnit, slotSize) % PAGE == 0
    ensures slotSize <= NewUnitSize(maxUnit, slotSize)
  {
  }

  lemma PagesAdd(x: nat, n: nat, k: nat)
    requires x % PAGE == 0 && n == 4096 * k
    ensures (x + n) % PAGE == 0
  {
    assert x == 4096 * (x / 4096);
    assert x + n == 4096 * (x / 4096 + k);
  }

  function Doubled(n: nat, k: nat): nat { if k == 0 then n else 2 * Doubled(n, k - 1) }

  /** The commitment try_for_more_space asks for: doubled until the request fits, at most what is
      reserved. */
  method CommitSize(u: Unit, slotSize: nat, increment: nat) returns (commit: nat, ghost k: nat)
    requires 0 < increment && increment % PAGE == 0
    requires u.end < u.reserved && u.end % PAGE == 0 && u.reserved % PAGE == 0
    ensures u.cur + slotSize <= u.end + Doubled(increment, k)
    ensures k > 0 ==> u.cur + slotSize > u.end + Doubled(increment, k - 1)
    ensures u.end + commit ==
      if u.end + Doubled(increment, k) <= u.reserved then u.end + Doubled(increment, k) else u.reserved
    ensures commit <= increment || commit < 2 * (u.cur + slotSize - u.end)
    ensures PAGE <= commit && u.end + commit <= u.reserved && (u.end + commit) % PAGE == 0
    ensures u.cur + slotSize <= u.reserved ==> u.cur + slotSize <= u.end + commit
    ensures u.cur + slotSize > u.reserved ==> u.end + commit == u.reserved
  {
    commit, k := increment, 0;
    ghost var pages := commit / PAGE;
    while u.cur + slotSize > u.end + commit
      invariant commit == Doubled(increment, k) && (k > 0 ==> u.cur + slotSize > u.end + Doubled(increment, k - 1))
      invariant 0 < pages && commit == 4096 * pages && (commit == increment || commit < 2 * (u.cur + slotSize - u.end))
      decreases u.cur + slotSize - u.end - commit
    {
      commit, pages, k := commit * 2, pages * 2, k + 1;
    }
    PagesAdd(u.end, commit, pages);
    if u.end + commit > u.reserved {
      commit := u.reserved - u.end;
    }
  }

  // ----- giving spare bytes back

  /** How many bytes can be returned, and the padding that stays behind for slot alignment and
      for the minimum slot size. */
  datatype Plan = Plan(returnable: int, slotPadding: int, minPadding: int)

  /** For a slot of total bytes at hdr of which the last spare ones are not needed. */
  function PlanOf(hdr: nat, total: nat, spare: nat, align: nat): Plan
    requires IsAlign(align) && MIN_SLOT <= total
  {
    var r := if total - spare < MIN_SLOT then total - MIN_SLOT else spare;
    var endAddr := hdr + total - r;
    var slotPadding := AlignForward(endAddr, align) - endAddr;
    Plan(r - slotPadding, slotPadding, spare - r)
  }

  /** Nothing underflows, the slot stays aligned and large enough, and the bytes add up. */
  lemma PlanAddsUp(hdr: nat, total: nat, spare: nat, align: nat)
    requires IsAlign(align) && MIN_SLOT <= total && spare <= total - PTR
    requires Aligned(hdr, align) && Aligned(total, align)
    ensures var g := PlanOf(hdr, total, spare, align);
      && 0 <= g.returnable && MIN_SLOT <= total - g.returnable
      && 0 <= g.slotPadding < align && 0 <= g.minPadding <= MIN_SLOT - PTR
      && spare == g.slotPadding + g.returnable + g.minPadding
      && Aligned(total - g.returnable, align) && Aligned(g.returnable, align)
  {
    hide Aligned;
    var r := if total - spare < MIN_SLOT then total - MIN_SLOT else spare;
    var endAddr := hdr + total - r;
    AlignedSum(hdr, total, align);
    AlignForwardBound(endAddr, hdr + total, align);
    AlignedSum(AlignForward(endAddr, align), hdr, align);
    AlignedSum(total, AlignForward(endAddr, align) - hdr, align);
  }

  /** Any aligned part of the spare bytes whose loss leaves a slot of the minimum size is at most what the
      plan returns. */
  lemma PlanIsMost(hdr: nat, total: nat, spare: nat, align: nat, r: nat)
    requires IsAlign(align) && MIN_SLOT <= total && spare <= total - PTR
    requires Aligned(hdr, align) && Aligned(total, align) && Aligned(r, align)
    requires r <= spare && MIN_SLOT <= total - r
    ensures r <= PlanOf(hdr, total, spare, align).returnable
  {
    hide Aligned;
    var most := if total - spare < MIN_SLOT then total - MIN_SLOT else spare;
    AlignedSum(hdr, total, align);
    AlignedSum(hdr + total, r, align);
    AlignForwardBound(hdr + total - most, hdr + total - r, align);
  }
}
