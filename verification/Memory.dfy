/** Code-cache memory as 4-byte words, and the in-band records kept in it.

    A live slot starts with a pointer to its fragment_t.  A free slot starts with a
    free-list header (next, flags, size, prev) and ends with a footer holding its size.
    The first word of a slot is therefore either a fragment pointer or a list pointer. */
module Memory {
  type Pc = nat
  type FragId = nat
  type UnitId = nat

  const PTR: nat := 8          // sizeof(fragment_t *)
  const FLAGS_AT: nat := 8     // offset of flags in both fragment_t and the free-list header
  const SIZE_AT: nat := 12
  const PREV_AT: nat := 16
  const FOOTER: nat := 4
  const MIN_SLOT: nat := 28    // header (24) plus footer (4)
  const START_PC_ALIGNMENT: nat := 4
  const UINT_MAX: nat := 0xFFFF_FFFF

  /** The value of a 32-bit unsigned expression. */
  function U32(x: nat): (r: nat)
    ensures r <= 4294967295 && (x <= 4294967295 ==> r == x)
  {
    x % 0x1_0000_0000
  }

  datatype Ref = Null | FragRef(id: FragId) | EntryRef(pc: Pc)

  /** The flag bits the cache looks at, by name. */
  datatype Flags = Flags(freeList: bool, followsFree: bool, wasDeleted: bool, shiftable: bool)

  const FREE_FLAGS := Flags(true, false, false, false)

  datatype Word = Raw | Ptr(ref: Ref) | PtrHigh(ref: Ref) | Bits(flags: Flags) | Num(n: nat)

  type Mem = map<Pc, Word>

  /** A whole pointer is stored at a: both its words are there and belong together. */
  predicate IsPtr(m: Mem, a: Pc) {
    a in m && m[a].Ptr? && a + 4 in m && m[a + 4] == PtrHigh(m[a].ref)
  }

  predicate PtrAt(m: Mem, a: Pc, r: Ref) {
    IsPtr(m, a) && m[a].ref == r
  }

  function LoadPtr(m: Mem, a: Pc): Ref
    requires IsPtr(m, a)
  {
    m[a].ref
  }

  function StorePtr(m: Mem, a: Pc, r: Ref): Mem
    requires a in m && a + 4 in m
  {
    m[a := Ptr(r)][a + 4 := PtrHigh(r)]
  }

  /** A free-list record of the given size lies at pc: flags, size and footer are intact and
      both link fields hold pointers. */
  predicate EntryAt(m: Mem, pc: Pc, size: nat)
    requires size >= MIN_SLOT
  {
    && IsPtr(m, pc) && IsPtr(m, pc + PREV_AT)
    && pc + FLAGS_AT in m && m[pc + FLAGS_AT] == Bits(FREE_FLAGS)
    && pc + SIZE_AT in m && m[pc + SIZE_AT] == Num(size)
    && pc + size - FOOTER in m && m[pc + size - FOOTER] == Num(size)
  }

  /** The words a free-list record needs are mapped. */
  predicate Mapped(m: Mem, pc: Pc, size: nat)
    requires size >= MIN_SLOT
  {
    && pc in m && pc + 4 in m && pc + FLAGS_AT in m && pc + SIZE_AT in m
    && pc + PREV_AT in m && pc + PREV_AT + 4 in m && pc + size - FOOTER in m
  }

  /** Writing the header and footer of a new free-list record. */
  function StoreEntry(m: Mem, pc: Pc, size: nat, next: Ref): Mem
    requires size >= MIN_SLOT && Mapped(m, pc, size)
  {
    var m1 := StorePtr(m, pc, next);
    var m2 := StorePtr(m1, pc + PREV_AT, Null);
    m2[pc + SIZE_AT := Num(size)][pc + FLAGS_AT := Bits(FREE_FLAGS)][pc + size - FOOTER := Num(size)]
  }
}
