/** Power-of-two alignment, for the slot alignments the cache options allow. */
module Alignment {
  predicate IsAlign(a: nat) { a == 4 || a == 8 || a == 16 || a == 32 || a == 64 }

  /** k * a, spelled out so that each product has a constant factor. */
  function Times(k: int, a: nat): int
    requires IsAlign(a)
  {
    if a == 4 then 4 * k else if a == 8 then 8 * k else if a == 16 then 16 * k
    else if a == 32 then 32 * k else 64 * k
  }

  ghost predicate Aligned(x: int, a: nat)
    requires IsAlign(a)
  {
    exists k :: Times(k, a) == x
  }

  function Chunks(x: nat, a: nat): nat
    requires IsAlign(a)
  {
    if a == 4 then (x + 3) / 4 else if a == 8 then (x + 7) / 8 else if a == 16 then (x + 15) / 16
    else if a == 32 then (x + 31) / 32 else (x + 63) / 64
  }

  /** (x + (a - 1)) & ~(a - 1) */
  function AlignForward(x: nat, a: nat): (r: nat)
    requires IsAlign(a)
    ensures x <= r < x + a && Aligned(r, a)
  {
    Times(Chunks(x, a), a)
  }

  lemma AlignedSum(x: int, y: int, a: nat)
    requires IsAlign(a) && Aligned(x, a) && Aligned(y, a)
    ensures Aligned(x + y, a) && Aligned(x - y, a)
  {
    var i :| Times(i, a) == x;
    var j :| Times(j, a) == y;
    assert Times(i + j, a) == x + y && Times(i - j, a) == x - y;
  }

  lemma AlignedWord(x: int, a: nat)
    requires IsAlign(a) && Aligned(x, a)
    ensures x % 4 == 0
  {
    var i :| Times(i, a) == x;
    TimesWord(i, a);
  }

  lemma TimesWord(i: int, a: nat)
    requires IsAlign(a)
    ensures Times(i, a) % 4 == 0
  {
    if a == 4 { FourTimes(i); } else if a == 8 { FourTimes(2 * i); } else if a == 16 { FourTimes(4 * i); }
    else if a == 32 { FourTimes(8 * i); } else { FourTimes(16 * i); }
  }

  lemma FourTimes(j: int)
    ensures (4 * j) % 4 == 0
  {
  }

  /** Aligned means divisible. */
  lemma AlignedIs(x: nat, a: nat)
    requires IsAlign(a)
    ensures Aligned(x, a) <==> x % a == 0
  {
    if a == 4 { MultipleOf4(x); } else if a == 8 { MultipleOf8(x); } else if a == 16 { MultipleOf16(x); }
    else if a == 32 { MultipleOf32(x); } else { MultipleOf64(x); }
  }

  lemma MultipleOf4(x: nat)
    ensures Aligned(x, 4) <==> x % 4 == 0
  {
    assert x % 4 == 0 ==> Times(x / 4, 4) == x;
  }

  lemma MultipleOf8(x: nat)
    ensures Aligned(x, 8) <==> x % 8 == 0
  {
    assert x % 8 == 0 ==> Times(x / 8, 8) == x;
  }

  lemma MultipleOf16(x: nat)
    ensures Aligned(x, 16) <==> x % 16 == 0
  {
    assert x % 16 == 0 ==> Times(x / 16, 16) == x;
  }

  lemma MultipleOf32(x: nat)
    ensures Aligned(x, 32) <==> x % 32 == 0
  {
    assert x % 32 == 0 ==> Times(x / 32, 32) == x;
  }

  lemma MultipleOf64(x: nat)
    ensures Aligned(x, 64) <==> x % 64 == 0
  {
    assert x % 64 == 0 ==> Times(x / 64, 64) == x;
  }

  /** Rounding up never passes an aligned bound. */
  lemma AlignForwardBound(x: nat, y: nat, a: nat)
    requires IsAlign(a) && Aligned(y, a) && x <= y
    ensures AlignForward(x, a) <= y
  {
    var i :| Times(i, a) == y;
    assert Chunks(x, a) <= i;
  }

  // ----- pages

  const PAGE: nat := 4096

  /** Page multiples are aligned for every slot alignment. */
  lemma PageAligned(x: nat, a: nat)
    requires IsAlign(a) && x % PAGE == 0
    ensures Aligned(x, a)
  {
    var j := x / PAGE;
    assert x == 4096 * j;
    assert Times(if a == 4 then 1024 * j else if a == 8 then 512 * j else if a == 16 then 256 * j
                 else if a == 32 then 128 * j else 64 * j, a) == x;
  }
}
