/** The segregated free lists: nine doubly linked lists threaded through the free slots. */
module FreeLists {
  import opened Memory
  import opened Layout

  const BUCKETS: nat := 9
  const SIZES: seq<nat> := [0, 44, 52, 56, 64, 72, 80, 112, 172]

  type Lists = seq<seq<Pc>>

  /** The bucket whose range [SIZES[b], SIZES[b + 1]) holds the size; the last is open-ended. */
  function Bucket(size: nat): (b: nat)
    ensures b < BUCKETS
  {
    if size >= 172 then 8 else if size >= 112 then 7 else if size >= 80 then 6
    else if size >= 72 then 5 else if size >= 64 then 4 else if size >= 56 then 3
    else if size >= 52 then 2 else if size >= 44 then 1 else 0
  }

  lemma BucketRange(size: nat, b: nat)
    requires b < BUCKETS
    ensures Bucket(size) == b <==> SIZES[b] <= size && (b + 1 < BUCKETS ==> size < SIZES[b + 1])
  {
    assert SIZES == [0, 44, 52, 56, 64, 72, 80, 112, 172];
  }

  method FindFreeListBucket(size: nat) returns (bucket: nat)
    ensures bucket == Bucket(size) < 9
    ensures var from := [0, 44, 52, 56, 64, 72, 80, 112, 172];
      from[bucket] <= size && (bucket < 8 ==> size < from[bucket + 1])
  {
    bucket := BUCKETS - 1;
    while size < SIZES[bucket]
      invariant bucket < BUCKETS
      invariant forall c :: bucket < c < BUCKETS ==> size < SIZES[c]
    {
      bucket := bucket - 1;
    }
    BucketRange(size, bucket);
  }

  lemma BucketMonotone(x: nat, y: nat)
    requires x <= y
    ensures Bucket(x) <= Bucket(y)
  {
  }

  /** The lists hold exactly the free slots, each once and in the bucket of its size. */
  ghost predicate Listed(slots: Slots, lists: Lists) {
    && |lists| == BUCKETS
    && (forall b, i :: 0 <= b < BUCKETS && 0 <= i < |lists[b]| ==> InBucket(slots, lists[b][i], b))
    && (forall p :: p in slots && slots[p].kind.Free? ==> p in lists[Bucket(slots[p].size)])
    && (forall b, i, j :: 0 <= b < BUCKETS && 0 <= i < j < |lists[b]| ==> lists[b][i] != lists[b][j])
  }

  ghost predicate InBucket(slots: Slots, p: Pc, b: nat) {
    p in slots && slots[p].kind.Free? && slots[p].size >= MIN_SLOT && Bucket(slots[p].size) == b
  }

  function NextRef(l: seq<Pc>, i: nat): Ref
    requires i < |l|
  {
    if i + 1 < |l| then EntryRef(l[i + 1]) else Null
  }

  function PrevRef(l: seq<Pc>, i: nat): Ref
    requires i < |l|
  {
    if i > 0 then EntryRef(l[i - 1]) else Null
  }

  function HeadRef(l: seq<Pc>): Ref { if |l| > 0 then EntryRef(l[0]) else Null }

  ghost predicate NodeOk(m: Mem, l: seq<Pc>, i: nat)
    requires i < |l|
  {
    PtrAt(m, l[i], NextRef(l, i)) && PtrAt(m, l[i] + PREV_AT, PrevRef(l, i))
  }

  ghost predicate ListOk(m: Mem, head: Ref, l: seq<Pc>) {
    head == HeadRef(l) && forall i :: 0 <= i < |l| ==> NodeOk(m, l, i)
  }

  /** Bucket heads and the in-band next and prev fields thread each list in order. */
  ghost predicate Linked(m: Mem, heads: seq<Ref>, lists: Lists) {
    |heads| == |lists| == BUCKETS && forall b :: 0 <= b < BUCKETS ==> ListOk(m, heads[b], lists[b])
  }

  /** Every live slot starts with its fragment pointer, every free slot holds a record of its size. */
  ghost predicate HeadersOk(m: Mem, slots: Slots) {
    forall p :: p in slots ==> HeaderOk(m, p, slots[p])
  }

  ghost predicate HeaderOk(m: Mem, p: Pc, s: Slot) {
    && (s.kind.Live? ==> PtrAt(m, p, FragRef(s.kind.f)))
    && (s.kind.Free? ==> s.size >= MIN_SLOT && EntryAt(m, p, s.size))
  }

  // ----- unlinking

  function Without(l: seq<Pc>, k: nat): seq<Pc>
    requires k < |l|
  {
    l[..k] + l[k + 1..]
  }

  /** The stores remove_from_free_list makes into the neighbouring records. */
  function UnlinkMem(m: Mem, prev: Ref, next: Ref): Mem
    requires prev.EntryRef? ==> IsPtr(m, prev.pc)
    requires next.EntryRef? ==> IsPtr(m, next.pc + PREV_AT)
  {
    var m1 := if prev.EntryRef? then StorePtr(m, prev.pc, next) else m;
    if next.EntryRef? then StorePtr(m1, next.pc + PREV_AT, prev) else m1
  }

  /** Two records do not share words. */
  ghost predicate Spaced(x: Pc, y: Pc) { x + MIN_SLOT <= y || y + MIN_SLOT <= x }

  ghost predicate AllSpaced(l: seq<Pc>, x: Pc) {
    forall i :: 0 <= i < |l| && l[i] != x ==> Spaced(l[i], x)
  }

  lemma EntriesSpaced(slots: Slots, lists: Lists, b: nat, x: Pc)
    requires Apart(slots) && Listed(slots, lists) && b < BUCKETS
    requires x in slots && slots[x].size >= MIN_SLOT
    ensures AllSpaced(lists[b], x)
  {
    forall i | 0 <= i < |lists[b]| && lists[b][i] != x ensures Spaced(lists[b][i], x) {
      assert InBucket(slots, lists[b][i], b);
    }
  }

  /** Storing a next field leaves every other record's links alone. */
  lemma StoreNextFrame(m: Mem, x: Pc, r: Ref, l: seq<Pc>, i: nat)
    requires IsPtr(m, x) && i < |l| && NodeOk(m, l, i) && l[i] != x && Spaced(l[i], x)
    ensures NodeOk(StorePtr(m, x, r), l, i)
  {
  }

  lemma StorePrevFrame(m: Mem, x: Pc, r: Ref, l: seq<Pc>, i: nat)
    requires IsPtr(m, x + PREV_AT) && i < |l| && NodeOk(m, l, i) && l[i] != x && Spaced(l[i], x)
    ensures NodeOk(StorePtr(m, x + PREV_AT, r), l, i)
  {
  }

  lemma UnlinkOtherList(m: Mem, prev: Ref, next: Ref, head: Ref, l: seq<Pc>)
    requires prev.EntryRef? ==> IsPtr(m, prev.pc) && prev.pc !in l && AllSpaced(l, prev.pc)
    requires next.EntryRef? ==> IsPtr(m, next.pc + PREV_AT) && next.pc !in l && AllSpaced(l, next.pc)
    requires prev.EntryRef? && next.EntryRef? ==> Spaced(prev.pc, next.pc)
    requires ListOk(m, head, l)
    ensures ListOk(UnlinkMem(m, prev, next), head, l)
  {
    var m1 := if prev.EntryRef? then StorePtr(m, prev.pc, next) else m;
    forall i | 0 <= i < |l| ensures NodeOk(UnlinkMem(m, prev, next), l, i) {
      if prev.EntryRef? { StoreNextFrame(m, prev.pc, next, l, i); }
      assert NodeOk(m1, l, i);
      hide NodeOk;
      if next.EntryRef? { StorePrevFrame(m1, next.pc, prev, l, i); }
    }
  }

  ghost predicate Separate(l: seq<Pc>) {
    forall i, j :: 0 <= i < |l| && 0 <= j < |l| && i != j ==> Spaced(l[i], l[j])
  }

  /** Unlinking the k-th record threads the list without it. */
  lemma UnlinkList(m: Mem, head: Ref, l: seq<Pc>, k: nat)
    requires ListOk(m, head, l) && Separate(l) && k < |l|
    ensures PrevRef(l, k).EntryRef? ==> IsPtr(m, PrevRef(l, k).pc)
    ensures NextRef(l, k).EntryRef? ==> IsPtr(m, NextRef(l, k).pc + PREV_AT)
    ensures ListOk(UnlinkMem(m, PrevRef(l, k), NextRef(l, k)),
                   if k > 0 then head else NextRef(l, k), Without(l, k))
  {
    if k > 0 { assert NodeOk(m, l, k - 1); }
    if k + 1 < |l| { assert NodeOk(m, l, k + 1); }
    var m', l' := UnlinkMem(m, PrevRef(l, k), NextRef(l, k)), Without(l, k);
    forall i | 0 <= i < |l'| ensures NodeOk(m', l', i) {
      UnlinkNode(m, head, l, k, if i < k then i else i + 1);
    }
  }

  lemma PtrFrame(m: Mem, a: Pc, r: Ref, b: Pc, r': Ref)
    requires PtrAt(m, a, r) && IsPtr(m, b) && (a + PTR <= b || b + PTR <= a)
    ensures PtrAt(StorePtr(m, b, r'), a, r)
  {
  }

  lemma UnlinkNode(m: Mem, head: Ref, l: seq<Pc>, k: nat, j: nat)
    requires ListOk(m, head, l) && Separate(l) && k < |l| && j < |l| && j != k
    ensures PrevRef(l, k).EntryRef? ==> IsPtr(m, PrevRef(l, k).pc)
    ensures NextRef(l, k).EntryRef? ==> IsPtr(m, NextRef(l, k).pc + PREV_AT)
    ensures NodeOk(UnlinkMem(m, PrevRef(l, k), NextRef(l, k)), Without(l, k), if j < k then j else j - 1)
  {
    assert k > 0 ==> NodeOk(m, l, k - 1);
    assert k + 1 < |l| ==> NodeOk(m, l, k + 1);
    assert NodeOk(m, l, j);
    var z, prev, next := l[j], PrevRef(l, k), NextRef(l, k);
    assert j != k - 1 && k > 0 ==> Spaced(z, prev.pc);
    assert j != k + 1 && k + 1 < |l| ==> Spaced(z, next.pc);
    assert k > 0 && k + 1 < |l| ==> Spaced(prev.pc, next.pc);
    hide ListOk, Separate;
    var l' := Without(l, k);
    var j' := if j < k then j else j - 1;
    assert l'[j'] == z && NextRef(l', j') == (if j + 1 == k then next else NextRef(l, j))
        && PrevRef(l', j') == (if j == k + 1 then prev else PrevRef(l, j));
    hide Without, NextRef, PrevRef;
    UnlinkPtr(m, prev, next, z, if j + 1 == k then m[z].ref else NextRef(l, j), j + 1 == k);
    UnlinkPrevPtr(m, prev, next, z, if j == k + 1 then m[z + PREV_AT].ref else PrevRef(l, j), j == k + 1);
  }

  lemma UnlinkPtr(m: Mem, prev: Ref, next: Ref, z: Pc, r: Ref, isPrev: bool)
    requires prev.EntryRef? ==> IsPtr(m, prev.pc)
    requires next.EntryRef? ==> IsPtr(m, next.pc + PREV_AT)
    requires PtrAt(m, z, r) && isPrev == (prev == EntryRef(z))
    requires prev.EntryRef? && !isPrev ==> Spaced(z, prev.pc)
    requires next.EntryRef? ==> z == next.pc || Spaced(z, next.pc)
    requires prev.EntryRef? && next.EntryRef? ==> Spaced(prev.pc, next.pc)
    ensures PtrAt(UnlinkMem(m, prev, next), z, if isPrev then next else r)
  {
    var m1 := if prev.EntryRef? then StorePtr(m, prev.pc, next) else m;
    if prev.EntryRef? && !isPrev { PtrFrame(m, z, r, prev.pc, next); }
    if prev.EntryRef? && next.EntryRef? { PtrFrame(m, next.pc + PREV_AT, m[next.pc + PREV_AT].ref, prev.pc, next); }
    assert PtrAt(m1, z, if isPrev then next else r);
    hide StorePtr;
    if next.EntryRef? { PtrFrame(m1, z, if isPrev then next else r, next.pc + PREV_AT, prev); }
  }

  lemma UnlinkPrevPtr(m: Mem, prev: Ref, next: Ref, z: Pc, r: Ref, isNext: bool)
    requires prev.EntryRef? ==> IsPtr(m, prev.pc)
    requires next.EntryRef? ==> IsPtr(m, next.pc + PREV_AT)
    requires PtrAt(m, z + PREV_AT, r) && isNext == (next == EntryRef(z))
    requires next.EntryRef? && !isNext ==> Spaced(z, next.pc)
    requires prev.EntryRef? ==> z == prev.pc || Spaced(z, prev.pc)
    requires prev.EntryRef? && next.EntryRef? ==> Spaced(prev.pc, next.pc)
    ensures PtrAt(UnlinkMem(m, prev, next), z + PREV_AT, if isNext then prev else r)
  {
    var m1 := if prev.EntryRef? then StorePtr(m, prev.pc, next) else m;
    if prev.EntryRef? { PtrFrame(m, z + PREV_AT, r, prev.pc, next); }
    if prev.EntryRef? && next.EntryRef? { PtrFrame(m, next.pc + PREV_AT, m[next.pc + PREV_AT].ref, prev.pc, next); }
    assert PtrAt(m1, z + PREV_AT, r);
    if next.EntryRef? && !isNext { PtrFrame(m1, z + PREV_AT, r, next.pc + PREV_AT, prev); }
  }

  // ----- taking a slot off its list

  /** Slots that hold a record or a fragment are large enough for one. */
  ghost predicate Sized(slots: Slots) {
    forall p :: p in slots && (slots[p].kind.Live? || slots[p].kind.Free?) ==> slots[p].size >= MIN_SLOT
  }

  lemma ListSeparate(slots: Slots, lists: Lists, b: nat)
    requires Apart(slots) && Listed(slots, lists) && b < BUCKETS
    ensures Separate(lists[b])
  {
    var l := lists[b];
    forall i, j | 0 <= i < |l| && 0 <= j < |l| && i != j ensures Spaced(l[i], l[j]) {
      assert InBucket(slots, l[i], b) && InBucket(slots, l[j], b);
      assert l[i] != l[j] by { assert i < j || j < i; }
    }
  }

  /** An entry of one bucket is in no other bucket. */
  lemma OneBucket(slots: Slots, lists: Lists, b: nat, i: nat, c: nat)
    requires Listed(slots, lists) && b < BUCKETS && c < BUCKETS && b != c && i < |lists[b]|
    ensures lists[b][i] !in lists[c]
  {
    assert InBucket(slots, lists[b][i], b);
  }

  lemma UnlinkBucket(m: Mem, heads: seq<Ref>, lists: Lists, slots: Slots, b: nat, k: nat, c: nat)
    requires Apart(slots) && Listed(slots, lists) && Linked(m, heads, lists)
    requires b < BUCKETS && k < |lists[b]| && c < BUCKETS && c != b
    ensures PrevRef(lists[b], k).EntryRef? ==> IsPtr(m, PrevRef(lists[b], k).pc)
    ensures NextRef(lists[b], k).EntryRef? ==> IsPtr(m, NextRef(lists[b], k).pc + PREV_AT)
    ensures ListOk(UnlinkMem(m, PrevRef(lists[b], k), NextRef(lists[b], k)), heads[c], lists[c])
  {
    var l := lists[b];
    assert ListOk(m, heads[b], l) && ListOk(m, heads[c], lists[c]);
    ListSeparate(slots, lists, b);
    UnlinkList(m, heads[b], l, k);
    if k > 0 {
      OneBucket(slots, lists, b, k - 1, c);
      assert InBucket(slots, l[k - 1], b);
      EntriesSpaced(slots, lists, c, l[k - 1]);
    }
    if k + 1 < |l| {
      OneBucket(slots, lists, b, k + 1, c);
      assert InBucket(slots, l[k + 1], b);
      EntriesSpaced(slots, lists, c, l[k + 1]);
    }
    hide Linked, Listed, Apart, UnlinkMem, ListOk;
    UnlinkOtherList(m, PrevRef(l, k), NextRef(l, k), heads[c], lists[c]);
  }

  lemma DetachLinked(m: Mem, heads: seq<Ref>, lists: Lists, slots: Slots, b: nat, k: nat)
    requires Apart(slots) && Listed(slots, lists) && Linked(m, heads, lists)
    requires b < BUCKETS && k < |lists[b]|
    ensures PrevRef(lists[b], k).EntryRef? ==> IsPtr(m, PrevRef(lists[b], k).pc)
    ensures NextRef(lists[b], k).EntryRef? ==> IsPtr(m, NextRef(lists[b], k).pc + PREV_AT)
    ensures Linked(UnlinkMem(m, PrevRef(lists[b], k), NextRef(lists[b], k)),
                   if k > 0 then heads else heads[b := NextRef(lists[b], k)],
                   lists[b := Without(lists[b], k)])
  {
    assert ListOk(m, heads[b], lists[b]);
    ListSeparate(slots, lists, b);
    UnlinkList(m, heads[b], lists[b], k);
    forall c | 0 <= c < BUCKETS && c != b
      ensures ListOk(UnlinkMem(m, PrevRef(lists[b], k), NextRef(lists[b], k)), heads[c], lists[c])
    {
      UnlinkBucket(m, heads, lists, slots, b, k, c);
    }
    hide ListOk, Listed, UnlinkMem, Without;
  }

  lemma DetachListed(slots: Slots, lists: Lists, b: nat, k: nat)
    requires Listed(slots, lists) && b < BUCKETS && k < |lists[b]|
    ensures InBucket(slots, lists[b][k], b)
    ensures Listed(SetKind(slots, lists[b][k], Hole), lists[b := Without(lists[b], k)])
  {
    var p, l, l' := lists[b][k], lists[b], Without(lists[b], k);
    assert InBucket(slots, p, b);
    var s', lists' := SetKind(slots, p, Hole), lists[b := l'];
    assert forall i :: 0 <= i < |l'| ==> l'[i] == l[if i < k then i else i + 1];
    forall c, i | 0 <= c < BUCKETS && 0 <= i < |lists'[c]| ensures InBucket(s', lists'[c][i], c) {
      assert InBucket(slots, lists'[c][i], c);
    }
    forall x | x in s' && s'[x].kind.Free? ensures x in lists'[Bucket(s'[x].size)] {
      if Bucket(s'[x].size) == b {
        var i :| 0 <= i < |l| && l[i] == x;
        assert l'[if i < k then i else i - 1] == x;
      }
    }
  }

  /** Unlinking writes only link fields of other free records. */
  lemma DetachHeaders(m: Mem, slots: Slots, prev: Ref, next: Ref)
    requires Apart(slots) && Sized(slots) && HeadersOk(m, slots)
    requires prev.EntryRef? ==> IsPtr(m, prev.pc) && prev.pc in slots && slots[prev.pc].kind.Free?
    requires next.EntryRef? ==> IsPtr(m, next.pc + PREV_AT) && next.pc in slots && slots[next.pc].kind.Free?
    ensures HeadersOk(UnlinkMem(m, prev, next), slots)
  {
    var m1 := if prev.EntryRef? then StorePtr(m, prev.pc, next) else m;
    if prev.EntryRef? { StoreLinkHeaders(m, slots, prev.pc, 0, next); }
    assert HeadersOk(m1, slots);
    if next.EntryRef? {
      assert HeaderOk(m1, next.pc, slots[next.pc]);
      StoreLinkHeaders(m1, slots, next.pc, PREV_AT, prev);
    }
  }

  lemma StoreLinkHeaders(m: Mem, slots: Slots, x: Pc, offset: nat, r: Ref)
    requires Apart(slots) && Sized(slots) && HeadersOk(m, slots)
    requires x in slots && slots[x].kind.Free? && (offset == 0 || offset == PREV_AT) && IsPtr(m, x + offset)
    ensures HeadersOk(StorePtr(m, x + offset, r), slots)
  {
    hide HeaderOk, StorePtr;
    forall z | z in slots ensures HeaderOk(StorePtr(m, x + offset, r), z, slots[z]) {
      assert HeaderOk(m, z, slots[z]);
      if z == x {
        LinkFieldHeader(m, x, slots[x], offset, r);
      } else if slots[z].kind.Live? || slots[z].kind.Free? {
        assert z + slots[z].size <= x || x + slots[x].size <= z;
        OtherHeader(m, x + offset, r, z, slots[z]);
      } else {
        NoHeader(StorePtr(m, x + offset, r), z, slots[z]);
      }
    }
  }

  lemma NoHeader(m: Mem, z: Pc, s: Slot)
    requires !s.kind.Live? && !s.kind.Free?
    ensures HeaderOk(m, z, s)
  {
  }

  /** Rewriting a link field keeps the rest of the record. */
  lemma LinkFieldHeader(m: Mem, x: Pc, s: Slot, offset: nat, r: Ref)
    requires HeaderOk(m, x, s) && s.kind.Free? && (offset == 0 || offset == PREV_AT) && IsPtr(m, x + offset)
    ensures HeaderOk(StorePtr(m, x + offset, r), x, s)
  {
  }

  lemma OtherHeader(m: Mem, a: Pc, r: Ref, z: Pc, s: Slot)
    requires HeaderOk(m, z, s) && s.size >= MIN_SLOT && IsPtr(m, a) && (z + s.size <= a || a + PTR <= z)
    ensures HeaderOk(StorePtr(m, a, r), z, s)
  {
  }

  // ----- bytes on a list

  function Bytes(slots: Slots, l: seq<Pc>): nat {
    if l == [] then 0 else (if l[0] in slots then slots[l[0]].size else 0) + Bytes(slots, l[1..])
  }

  lemma {:induction false} BytesFrame(s: Slots, s': Slots, l: seq<Pc>)
    requires forall i :: 0 <= i < |l| ==> l[i] in s && l[i] in s' && s[l[i]].size == s'[l[i]].size
    ensures Bytes(s, l) == Bytes(s', l)
  {
    if l != [] { BytesFrame(s, s', l[1..]); }
  }

  lemma {:induction false} BytesWithout(slots: Slots, l: seq<Pc>, k: nat)
    requires k < |l| && l[k] in slots
    ensures Bytes(slots, l) == Bytes(slots, Without(l, k)) + slots[l[k]].size
  {
    if k == 0 {
      assert Without(l, 0) == l[1..];
    } else {
      BytesWithout(slots, l[1..], k - 1);
      assert Without(l, k)[1..] == Without(l[1..], k - 1);
    }
  }

  // ----- putting a slot on its list

  /** The stores add_to_free_list makes: the new record, then the old head's prev field. */
  function LinkMem(m: Mem, p: Pc, size: nat, head: Ref): Mem
    requires size >= MIN_SLOT && Mapped(m, p, size)
    requires head.EntryRef? ==> IsPtr(m, head.pc + PREV_AT)
  {
    var m1 := StoreEntry(m, p, size, head);
    if head.EntryRef? && head.pc + PREV_AT in m1 && head.pc + PREV_AT + 4 in m1
    then StorePtr(m1, head.pc + PREV_AT, EntryRef(p)) else m1
  }

  /** Writing a record inside the slot at p leaves pointers outside it alone. */
  lemma StoreEntryFrame(m: Mem, p: Pc, size: nat, head: Ref, a: Pc, r: Ref)
    requires size >= MIN_SLOT && Mapped(m, p, size) && PtrAt(m, a, r)
    requires a + PTR <= p || p + size <= a
    ensures PtrAt(StoreEntry(m, p, size, head), a, r)
  {
  }

  lemma StoreEntryKeys(m: Mem, p: Pc, size: nat, head: Ref)
    requires size >= MIN_SLOT && Mapped(m, p, size)
    ensures StoreEntry(m, p, size, head).Keys == m.Keys
  {
  }

  /** Linking p in front of another list's head leaves this list alone. */
  lemma LinkOtherList(m: Mem, p: Pc, size: nat, head: Ref, h: Ref, l: seq<Pc>)
    requires size >= MIN_SLOT && Mapped(m, p, size) && ListOk(m, h, l)
    requires forall i :: 0 <= i < |l| ==> l[i] + MIN_SLOT <= p || p + size <= l[i]
    requires head.EntryRef? ==> IsPtr(m, head.pc + PREV_AT) && head.pc !in l && AllSpaced(l, head.pc)
    ensures ListOk(LinkMem(m, p, size, head), h, l)
  {
    var m1 := StoreEntry(m, p, size, head);
    forall i | 0 <= i < |l| ensures NodeOk(LinkMem(m, p, size, head), l, i) {
      assert NodeOk(m, l, i);
      StoreEntryFrame(m, p, size, head, l[i], NextRef(l, i));
      StoreEntryFrame(m, p, size, head, l[i] + PREV_AT, PrevRef(l, i));
      assert NodeOk(m1, l, i);
      if head.EntryRef? {
        assert Spaced(l[i], head.pc);
        LinkPrevFrame(m1, head.pc, EntryRef(p), l, i);
      }
    }
  }

  lemma LinkPrevFrame(m: Mem, x: Pc, r: Ref, l: seq<Pc>, i: nat)
    requires x + PREV_AT in m && x + PREV_AT + 4 in m && i < |l| && NodeOk(m, l, i) && Spaced(l[i], x)
    ensures NodeOk(StorePtr(m, x + PREV_AT, r), l, i)
  {
  }

  /** Linking p in front of its own list. */
  lemma LinkList(m: Mem, p: Pc, size: nat, l: seq<Pc>)
    requires size >= MIN_SLOT && Mapped(m, p, size) && ListOk(m, HeadRef(l), l) && Separate(l)
    requires forall i :: 0 <= i < |l| ==> l[i] + MIN_SLOT <= p || p + size <= l[i]
    ensures |l| > 0 ==> IsPtr(m, l[0] + PREV_AT)
    ensures ListOk(LinkMem(m, p, size, HeadRef(l)), EntryRef(p), [p] + l)
  {
    if |l| > 0 { assert NodeOk(m, l, 0); }
    forall i | 0 <= i < |[p] + l| ensures NodeOk(LinkMem(m, p, size, HeadRef(l)), [p] + l, i) {
      if i == 0 {
        LinkFirst(m, p, size, HeadRef(l), [p] + l);
      } else {
        assert NodeOk(m, l, i - 1) && (i > 1 ==> Spaced(l[i - 1], l[0]));
        LinkNode(m, p, size, l, i - 1);
      }
    }
  }

  lemma LinkFirst(m: Mem, p: Pc, size: nat, head: Ref, l': seq<Pc>)
    requires size >= MIN_SLOT && Mapped(m, p, size) && |l'| > 0 && l'[0] == p && NextRef(l', 0) == head
    requires head.EntryRef? ==> IsPtr(m, head.pc + PREV_AT) && (head.pc + MIN_SLOT <= p || p + size <= head.pc)
    ensures NodeOk(LinkMem(m, p, size, head), l', 0)
  {
  }

  lemma LinkNode(m: Mem, p: Pc, size: nat, l: seq<Pc>, j: nat)
    requires size >= MIN_SLOT && Mapped(m, p, size) && j < |l| && NodeOk(m, l, j) && (j > 0 ==> Spaced(l[j], l[0]))
    requires l[j] + MIN_SLOT <= p || p + size <= l[j]
    requires IsPtr(m, l[0] + PREV_AT)
    ensures NodeOk(LinkMem(m, p, size, HeadRef(l)), [p] + l, j + 1)
  {
    hide StoreEntry, Mapped, StorePtr, PtrAt, Spaced, EntryAt;
    StoreEntryKeys(m, p, size, HeadRef(l));
    StoreEntryFrame(m, p, size, HeadRef(l), l[j], NextRef(l, j));
    StoreEntryFrame(m, p, size, HeadRef(l), l[j] + PREV_AT, PrevRef(l, j));
    HeadPatched(StoreEntry(m, p, size, HeadRef(l)), p, l, j);
  }

  /** The prev field of the first record gets p, the links of the others stay. */
  lemma HeadPatched(m: Mem, p: Pc, l: seq<Pc>, j: nat)
    requires j < |l| && NodeOk(m, l, j) && (j > 0 ==> Spaced(l[j], l[0]))
    requires l[0] + PREV_AT in m && l[0] + PREV_AT + 4 in m
    ensures NodeOk(StorePtr(m, l[0] + PREV_AT, EntryRef(p)), [p] + l, j + 1)
  {
    var l' := [p] + l;
    assert l'[j + 1] == l[j] && NextRef(l', j + 1) == NextRef(l, j)
        && PrevRef(l', j + 1) == (if j == 0 then EntryRef(p) else PrevRef(l, j));
  }

  lemma AttachLinked(m: Mem, heads: seq<Ref>, lists: Lists, slots: Slots, p: Pc)
    requires Apart(slots) && Listed(slots, lists) && Linked(m, heads, lists)
    requires p in slots && !slots[p].kind.Free? && slots[p].size >= MIN_SLOT && Mapped(m, p, slots[p].size)
    ensures var b, size := Bucket(slots[p].size), slots[p].size;
      && (heads[b].EntryRef? ==> IsPtr(m, heads[b].pc + PREV_AT))
      && Linked(LinkMem(m, p, size, heads[b]), heads[b := EntryRef(p)], lists[b := [p] + lists[b]])
  {
    var b, size := Bucket(slots[p].size), slots[p].size;
    var l := lists[b];
    assert ListOk(m, heads[b], l);
    forall c, i | 0 <= c < BUCKETS && 0 <= i < |lists[c]|
      ensures lists[c][i] + MIN_SLOT <= p || p + size <= lists[c][i]
    {
      assert InBucket(slots, lists[c][i], c);
    }
    ListSeparate(slots, lists, b);
    LinkList(m, p, size, l);
    forall c | 0 <= c < BUCKETS && c != b ensures ListOk(LinkMem(m, p, size, heads[b]), heads[c], lists[c]) {
      assert ListOk(m, heads[c], lists[c]);
      if |l| > 0 {
        assert InBucket(slots, l[0], b);
        OneBucket(slots, lists, b, 0, c);
        EntriesSpaced(slots, lists, c, l[0]);
      }
      LinkOtherList(m, p, size, heads[b], heads[c], lists[c]);
    }
    hide ListOk, Listed, LinkMem, Apart;
  }

  lemma AttachListed(slots: Slots, lists: Lists, p: Pc)
    requires Listed(slots, lists) && p in slots && !slots[p].kind.Free? && slots[p].size >= MIN_SLOT
    ensures var b := Bucket(slots[p].size);
      Listed(SetKind(slots, p, Free), lists[b := [p] + lists[b]])
  {
    var b := Bucket(slots[p].size);
    var s', l', lists' := SetKind(slots, p, Free), [p] + lists[b], lists[b := [p] + lists[b]];
    forall c, i | 0 <= c < BUCKETS && 0 <= i < |lists'[c]| ensures InBucket(s', lists'[c][i], c) {
      if c != b {
        assert InBucket(slots, lists[c][i], c);
      } else if i > 0 {
        assert InBucket(slots, lists[b][i - 1], b);
      }
    }
    forall x | x in s' && s'[x].kind.Free? ensures x in lists'[Bucket(s'[x].size)] {
      if x == p { assert l'[0] == p; } else { assert x in lists[Bucket(slots[x].size)]; }
    }
    forall i, j | 0 <= i < j < |l'| ensures l'[i] != l'[j] {
      if i == 0 { assert InBucket(slots, lists[b][j - 1], b); }
    }
  }

  /** Writing a record into the slot at p leaves the headers of the other slots alone. */
  lemma StoreEntryHeaders(m: Mem, slots: Slots, p: Pc, head: Ref)
    requires Apart(slots) && Sized(slots) && HeadersOk(m, slots)
    requires p in slots && slots[p].size >= MIN_SLOT && Mapped(m, p, slots[p].size)
    ensures HeadersOk(StoreEntry(m, p, slots[p].size, head), SetKind(slots, p, Free))
  {
    var m', s' := StoreEntry(m, p, slots[p].size, head), SetKind(slots, p, Free);
    forall z | z in s' ensures HeaderOk(m', z, s'[z]) {
      assert HeaderOk(m, z, slots[z]);
      if z != p && (slots[z].kind.Live? || slots[z].kind.Free?) {
        assert z + slots[z].size <= p || p + slots[p].size <= z;
        HeaderFrame(m, p, slots[p].size, head, z, slots[z]);
      }
    }
  }

  lemma HeaderFrame(m: Mem, p: Pc, size: nat, head: Ref, z: Pc, s: Slot)
    requires size >= MIN_SLOT && Mapped(m, p, size) && HeaderOk(m, z, s) && s.size >= MIN_SLOT
    requires z + s.size <= p || p + size <= z
    ensures HeaderOk(StoreEntry(m, p, size, head), z, s)
  {
    if s.kind.Live? { StoreEntryFrame(m, p, size, head, z, FragRef(s.kind.f)); }
  }

  lemma FreedShape(slots: Slots, p: Pc)
    requires Apart(slots) && Sized(slots) && p in slots && slots[p].size >= MIN_SLOT
    ensures Apart(SetKind(slots, p, Free)) && Sized(SetKind(slots, p, Free))
  {
  }

  lemma HeaderHere(m: Mem, slots: Slots, x: Pc)
    requires HeadersOk(m, slots) && x in slots && slots[x].kind.Free?
    ensures IsPtr(m, x + PREV_AT)
  {
    assert HeaderOk(m, x, slots[x]);
  }

  lemma AttachHeaders(m: Mem, slots: Slots, p: Pc, head: Ref)
    requires Apart(slots) && Sized(slots) && HeadersOk(m, slots)
    requires p in slots && slots[p].size >= MIN_SLOT && Mapped(m, p, slots[p].size)
    requires head.EntryRef? ==>
      IsPtr(m, head.pc + PREV_AT) && head.pc in slots && slots[head.pc].kind.Free? && head.pc != p
    ensures HeadersOk(LinkMem(m, p, slots[p].size, head), SetKind(slots, p, Free))
  {
    hide Apart, Sized, StoreEntry, HeadersOk, Mapped;
    var m1, s' := StoreEntry(m, p, slots[p].size, head), SetKind(slots, p, Free);
    StoreEntryHeaders(m, slots, p, head);
    if head.EntryRef? {
      FreedShape(slots, p);
      HeaderHere(m1, s', head.pc);
      StoreLinkHeaders(m1, s', head.pc, PREV_AT, EntryRef(p));
    }
  }
}
