/** The data items of RFC 8949 that a fast transaction recording is made of, their encoding, and a
    decoder for them. */
module Cbor {
  import opened Options

  type Byte = x: nat | x < 256
  type Bytes = seq<Byte>

  const U64: nat := 0x1_0000_0000_0000_0000
  const BREAK: Byte := 255
  const INDEFINITE: nat := 31

  // ----- numbers in network byte order

  /** The last n base-256 digits of v, most significant first. */
  function BigEndian(v: nat, n: nat): (b: Bytes)
    ensures |b| == n
  {
    if n == 0 then [] else BigEndian(v / 256, n - 1) + [v % 256]
  }

  function Value(b: Bytes): nat {
    if |b| == 0 then 0 else Value(b[..|b| - 1]) * 256 + b[|b| - 1]
  }

  function Power(n: nat): nat { if n == 0 then 1 else 256 * Power(n - 1) }

  lemma {:induction false} ValueOf(v: nat, n: nat)
    requires v < Power(n)
    ensures Value(BigEndian(v, n)) == v
  {
    if n > 0 {
      ValueOf(v / 256, n - 1);
      assert BigEndian(v, n)[..n - 1] == BigEndian(v / 256, n - 1);
    }
  }

  lemma {:induction false} ValueBound(b: Bytes)
    ensures Value(b) < Power(|b|)
  {
    if |b| > 0 { ValueBound(b[..|b| - 1]); }
  }

  lemma Powers()
    ensures Power(1) == 256 && Power(2) == 65536 && Power(4) == 0x1_0000_0000 && Power(8) == U64
  {
    assert Power(3) == 256 * Power(2) && Power(5) == 256 * Power(4) && Power(6) == 256 * Power(5);
    assert Power(7) == 256 * Power(6);
  }

  // ----- heads

  /** How wide the argument of a head is written: the writer's own rule, or the shortest form. */
  datatype Style = Writer | Shortest

  /** The number of argument bytes after the initial byte. */
  function Width(style: Style, v: nat): (n: nat)
    ensures n == 0 || n == 1 || n == 2 || n == 4 || n == 8
  {
    if v < 24 then 0
    else if v < 255 || (style == Shortest && v == 255) then 1
    else if v < 65536 then 2
    else if v < 0xFFFF_FFFF || (style == Shortest && v == 0xFFFF_FFFF) then 4
    else 8
  }

  /** The additional information that announces n argument bytes. */
  function Info(n: nat): nat { if n == 1 then 24 else if n == 2 then 25 else if n == 4 then 26 else 27 }

  function Head(style: Style, major: nat, v: nat): (b: Bytes)
    requires major < 8
    ensures |b| == 1 + Width(style, v)
  {
    var n := Width(style, v);
    if n == 0 then [major * 32 + v] else [major * 32 + Info(n)] + BigEndian(v, n)
  }

  /** The number of argument bytes that the additional information announces. */
  function Announced(info: nat): nat {
    if info < 24 || info == INDEFINITE then 0
    else if info == 24 then 1
    else if info == 25 then 2
    else if info == 26 then 4
    else 8
  }

  datatype HeadRead = HeadRead(major: nat, info: nat, value: nat, rest: Bytes)

  /** The head at the start of b; the value of an indefinite-length head is 0. */
  function ReadHead(b: Bytes): (r: Option<HeadRead>)
    ensures r.Some? ==> |r.value.rest| < |b| && r.value.major < 8 && r.value.info < 32
  {
    if |b| == 0 then None
    else
      var major, info := b[0] / 32, b[0] % 32;
      var n := Announced(info);
      if 28 <= info < 31 || |b| < 1 + n then None
      else Some(HeadRead(major, info, if info < 24 then info else Value(b[1..1 + n]), b[1 + n..]))
  }

  /** A head is read back, whatever follows it. */
  lemma HeadRoundTrip(style: Style, major: nat, v: nat, rest: Bytes)
    requires major < 8 && v < U64
    ensures ReadHead(Head(style, major, v) + rest).Some?
    ensures var r := ReadHead(Head(style, major, v) + rest).value;
      r.major == major && r.value == v && r.rest == rest && r.info != INDEFINITE
  {
    var b, n := Head(style, major, v) + rest, Width(style, v);
    assert b[0] == Head(style, major, v)[0];
    Powers();
    if n > 0 {
      assert b[1..1 + n] == BigEndian(v, n);
      ValueOf(v, n);
    } else {
      assert b[1..] == rest;
    }
    assert b[1 + n..] == rest;
  }

  /** No head is a proper prefix of another: heads delimit themselves. */
  lemma HeadsPrefixFree(style: Style, style': Style, m: nat, m': nat, v: nat, v': nat, rest: Bytes, rest': Bytes)
    requires m < 8 && m' < 8 && v < U64 && v' < U64
    requires Head(style, m, v) + rest == Head(style', m', v') + rest'
    ensures m == m' && v == v' && rest == rest'
  {
    HeadRoundTrip(style, m, v, rest);
    HeadRoundTrip(style', m', v', rest');
  }

  /** No encoding of a head is shorter than the shortest form. */
  lemma ShortestIsShortest(b: Bytes, r: HeadRead)
    requires ReadHead(b) == Some(r) && r.info != INDEFINITE
    ensures |b| - |r.rest| >= |Head(Shortest, r.major, r.value)|
  {
    var n := |b| - |r.rest| - 1;
    Powers();
    if r.info >= 24 { ValueBound(b[1..1 + n]); }
  }

  /** The writer's heads are shortest, except at exactly two values, where they are longer. */
  lemma WriterAlmostShortest(major: nat, v: nat)
    requires major < 8
    ensures Head(Writer, major, v) == Head(Shortest, major, v) <==> v != 255 && v != 0xFFFF_FFFF
    ensures v == 255 || v == 0xFFFF_FFFF ==> |Head(Writer, major, v)| > |Head(Shortest, major, v)|
  {
  }

  // ----- items

  datatype Item =
    | UInt(n: nat)
    | NegInt(n: nat)
    | ByteString(bytes: Bytes)
    | TextString(text: Bytes)
    | Array(items: Items)
    | OpenArray(items: Items)
    | Map(pairs: Pairs)
    | Tagged(tag: nat, item: Item)

  datatype Items = NoItems | MoreItems(first: Item, others: Items)
  datatype Pairs = NoPairs | MorePairs(key: Item, value: Item, others: Pairs)

  function Count(items: Items): nat { if items.NoItems? then 0 else 1 + Count(items.others) }
  function PairCount(pairs: Pairs): nat { if pairs.NoPairs? then 0 else 1 + PairCount(pairs.others) }

  /** Section 3.1: negative integers count down from -1. */
  function Int(v: int): Item { if v < 0 then NegInt(-v - 1) else UInt(v) }

  function Encode(style: Style, i: Item): Bytes {
    match i
    case UInt(n) => Head(style, 0, n)
    case NegInt(n) => Head(style, 1, n)
    case ByteString(b) => Head(style, 2, |b|) + b
    case TextString(t) => Head(style, 3, |t|) + t
    case Array(items) => Head(style, 4, Count(items)) + EncodeItems(style, items)
    case OpenArray(items) => [4 * 32 + INDEFINITE] + EncodeItems(style, items) + [BREAK]
    case Map(pairs) => Head(style, 5, PairCount(pairs)) + EncodePairs(style, pairs)
    case Tagged(t, item) => Head(style, 6, t) + Encode(style, item)
  }

  function EncodeItems(style: Style, items: Items): Bytes {
    match items
    case NoItems => []
    case MoreItems(i, others) => Encode(style, i) + EncodeItems(style, others)
  }

  function EncodePairs(style: Style, pairs: Pairs): Bytes {
    match pairs
    case NoPairs => []
    case MorePairs(k, v, others) => Encode(style, k) + Encode(style, v) + EncodePairs(style, others)
  }

  lemma EncodeTagged(style: Style, t: nat, item: Item)
    ensures Encode(style, Tagged(t, item)) == Head(style, 6, t) + Encode(style, item)
  {
  }

  lemma EncodeOpen(style: Style, items: Items)
    ensures Encode(style, OpenArray(items)) == [4 * 32 + INDEFINITE] + EncodeItems(style, items) + [BREAK]
  {
  }

  /** Every number and length fits the 64 bits a head can hold. */
  predicate Fits(i: Item) {
    match i
    case UInt(n) => n < U64
    case NegInt(n) => n < U64
    case ByteString(b) => |b| < U64
    case TextString(t) => |t| < U64
    case Array(items) => Count(items) < U64 && AllFit(items)
    case OpenArray(items) => AllFit(items)
    case Map(pairs) => PairCount(pairs) < U64 && PairsFit(pairs)
    case Tagged(t, item) => t < U64 && Fits(item)
  }

  predicate AllFit(items: Items) { items.NoItems? || (Fits(items.first) && AllFit(items.others)) }
  predicate PairsFit(pairs: Pairs) {
    pairs.NoPairs? || (Fits(pairs.key) && Fits(pairs.value) && PairsFit(pairs.others))
  }

  // ----- decoding

  datatype Read<T> = Read(got: T, rest: Bytes)

  /** The item at the start of b, with whatever follows it. */
  function Decode(b: Bytes): (r: Option<Read<Item>>)
    ensures r.Some? ==> |r.value.rest| < |b|
    decreases |b|, 0
  {
    var h := ReadHead(b);
    if h.None? then None
    else
      var HeadRead(major, info, v, rest) := h.value;
      if major == 4 && info == INDEFINITE then
        var items := DecodeUntilBreak(rest);
        if items.None? then None else Some(Read(OpenArray(items.value.got), items.value.rest))
      else if info == INDEFINITE then None
      else match major
        case 0 => Some(Read(UInt(v), rest))
        case 1 => Some(Read(NegInt(v), rest))
        case 2 => if v <= |rest| then Some(Read(ByteString(rest[..v]), rest[v..])) else None
        case 3 => if v <= |rest| then Some(Read(TextString(rest[..v]), rest[v..])) else None
        case 4 =>
          var items := DecodeItems(rest, v);
          if items.None? then None else Some(Read(Array(items.value.got), items.value.rest))
        case 5 =>
          var pairs := DecodePairs(rest, v);
          if pairs.None? then None else Some(Read(Map(pairs.value.got), pairs.value.rest))
        case 6 =>
          var item := Decode(rest);
          if item.None? then None else Some(Read(Tagged(v, item.value.got), item.value.rest))
        case _ => None
  }

  function DecodeItems(b: Bytes, n: nat): (r: Option<Read<Items>>)
    ensures r.Some? ==> |r.value.rest| <= |b|
    decreases |b|, 1
  {
    if n == 0 then Some(Read(NoItems, b))
    else
      var i := Decode(b);
      if i.None? then None
      else
        var others := DecodeItems(i.value.rest, n - 1);
        if others.None? then None else Some(Read(MoreItems(i.value.got, others.value.got), others.value.rest))
  }

  function DecodeUntilBreak(b: Bytes): (r: Option<Read<Items>>)
    ensures r.Some? ==> |r.value.rest| < |b|
    decreases |b|, 1
  {
    if |b| == 0 then None
    else if b[0] == BREAK then Some(Read(NoItems, b[1..]))
    else
      var i := Decode(b);
      if i.None? then None
      else
        var others := DecodeUntilBreak(i.value.rest);
        if others.None? then None else Some(Read(MoreItems(i.value.got, others.value.got), others.value.rest))
  }

  function DecodePairs(b: Bytes, n: nat): (r: Option<Read<Pairs>>)
    ensures r.Some? ==> |r.value.rest| <= |b|
    decreases |b|, 1
  {
    if n == 0 then Some(Read(NoPairs, b))
    else
      var k := Decode(b);
      if k.None? then None
      else
        var v := Decode(k.value.rest);
        if v.None? then None
        else
          var others := DecodePairs(v.value.rest, n - 1);
          if others.None? then None
          else Some(Read(MorePairs(k.value.got, v.value.got, others.value.got), others.value.rest))
  }

  // ----- the round trip

  /** No item starts with a break. */
  lemma NotBreak(style: Style, i: Item)
    ensures |Encode(style, i)| > 0 && Encode(style, i)[0] != BREAK
  {
    match i
    case OpenArray(items) =>
      assert Encode(style, i)[0] == 4 * 32 + INDEFINITE;
    case Tagged(t, item) => assert Encode(style, i)[0] == Head(style, 6, t)[0];
    case _ =>
  }

  /** Decoding an encoded item gives the item back and stops where it ends. */
  lemma {:induction false} RoundTrip(style: Style, i: Item, rest: Bytes)
    requires Fits(i)
    ensures Decode(Encode(style, i) + rest) == Some(Read(i, rest))
    decreases i
  {
    hide Head, ReadHead;
    match i
    case UInt(n) => HeadRoundTrip(style, 0, n, rest);
    case NegInt(n) => HeadRoundTrip(style, 1, n, rest);
    case ByteString(b) => StringRoundTrip(style, 2, b, rest);
    case TextString(t) => StringRoundTrip(style, 3, t, rest);
    case Array(items) =>
      ItemsRoundTrip(style, items, rest);
      ArrayRead(style, items, rest);
    case OpenArray(items) =>
      BreakRoundTrip(style, items, rest);
      OpenArrayRead(style, items, rest);
    case Map(pairs) =>
      PairsRoundTrip(style, pairs, rest);
      MapRead(style, pairs, rest);
    case Tagged(t, item) =>
      RoundTrip(style, item, rest);
      TagRead(style, t, item, rest);
  }

  lemma ArrayRead(style: Style, items: Items, rest: Bytes)
    requires Count(items) < U64
    requires DecodeItems(EncodeItems(style, items) + rest, Count(items)) == Some(Read(items, rest))
    ensures Decode(Encode(style, Array(items)) + rest) == Some(Read(Array(items), rest))
  {
    hide ReadHead, Head;
    var body := EncodeItems(style, items);
    assert Encode(style, Array(items)) + rest == Head(style, 4, Count(items)) + (body + rest);
    HeadRoundTrip(style, 4, Count(items), body + rest);
  }

  lemma OpenArrayRead(style: Style, items: Items, rest: Bytes)
    requires DecodeUntilBreak(EncodeItems(style, items) + [BREAK] + rest) == Some(Read(items, rest))
    ensures Decode(Encode(style, OpenArray(items)) + rest) == Some(Read(OpenArray(items), rest))
  {
    hide ReadHead;
    var body := EncodeItems(style, items);
    assert Encode(style, OpenArray(items)) + rest == [4 * 32 + INDEFINITE] + (body + [BREAK] + rest);
    OpenHead(body + [BREAK] + rest);
  }

  lemma MapRead(style: Style, pairs: Pairs, rest: Bytes)
    requires PairCount(pairs) < U64
    requires DecodePairs(EncodePairs(style, pairs) + rest, PairCount(pairs)) == Some(Read(pairs, rest))
    ensures Decode(Encode(style, Map(pairs)) + rest) == Some(Read(Map(pairs), rest))
  {
    hide ReadHead, Head;
    var body := EncodePairs(style, pairs);
    assert Encode(style, Map(pairs)) + rest == Head(style, 5, PairCount(pairs)) + (body + rest);
    HeadRoundTrip(style, 5, PairCount(pairs), body + rest);
  }

  lemma TagRead(style: Style, t: nat, item: Item, rest: Bytes)
    requires t < U64 && Decode(Encode(style, item) + rest) == Some(Read(item, rest))
    ensures Decode(Encode(style, Tagged(t, item)) + rest) == Some(Read(Tagged(t, item), rest))
  {
    hide ReadHead, Head;
    assert Encode(style, Tagged(t, item)) + rest == Head(style, 6, t) + (Encode(style, item) + rest);
    HeadRoundTrip(style, 6, t, Encode(style, item) + rest);
  }

  lemma StringRoundTrip(style: Style, major: nat, s: Bytes, rest: Bytes)
    requires (major == 2 || major == 3) && |s| < U64
    ensures Decode(Head(style, major, |s|) + s + rest) ==
      Some(Read(if major == 2 then ByteString(s) else TextString(s), rest))
  {
    assert Head(style, major, |s|) + s + rest == Head(style, major, |s|) + (s + rest);
    HeadRoundTrip(style, major, |s|, s + rest);
    assert (s + rest)[..|s|] == s && (s + rest)[|s|..] == rest;
  }

  lemma OpenHead(rest: Bytes)
    ensures ReadHead([4 * 32 + INDEFINITE] + rest) == Some(HeadRead(4, INDEFINITE, 0, rest))
  {
    var b := [4 * 32 + INDEFINITE] + rest;
    assert b[1..1] == [] && b[1..] == rest;
  }

  lemma {:induction false} ItemsRoundTrip(style: Style, items: Items, rest: Bytes)
    requires AllFit(items)
    ensures DecodeItems(EncodeItems(style, items) + rest, Count(items)) == Some(Read(items, rest))
    decreases items
  {
    hide Head, ReadHead, Decode, Encode;
    match items
    case NoItems => assert [] + rest == rest;
    case MoreItems(i, others) =>
      assert EncodeItems(style, items) + rest == Encode(style, i) + (EncodeItems(style, others) + rest);
      RoundTrip(style, i, EncodeItems(style, others) + rest);
      ItemsRoundTrip(style, others, rest);
  }

  lemma {:induction false} BreakRoundTrip(style: Style, items: Items, rest: Bytes)
    requires AllFit(items)
    ensures DecodeUntilBreak(EncodeItems(style, items) + [BREAK] + rest) == Some(Read(items, rest))
    decreases items
  {
    hide Head, ReadHead, Decode, Encode;
    match items
    case NoItems => assert [] + [BREAK] + rest == [BREAK] + rest;
    case MoreItems(i, others) =>
      var tail := EncodeItems(style, others) + [BREAK] + rest;
      assert EncodeItems(style, items) + [BREAK] + rest == Encode(style, i) + tail;
      NotBreak(style, i);
      RoundTrip(style, i, tail);
      BreakRoundTrip(style, others, rest);
  }

  lemma {:induction false} PairsRoundTrip(style: Style, pairs: Pairs, rest: Bytes)
    requires PairsFit(pairs)
    ensures DecodePairs(EncodePairs(style, pairs) + rest, PairCount(pairs)) == Some(Read(pairs, rest))
    decreases pairs
  {
    hide Head, ReadHead, Decode, Encode;
    match pairs
    case NoPairs => assert [] + rest == rest;
    case MorePairs(k, v, others) =>
      var tail := EncodePairs(style, others) + rest;
      assert EncodePairs(style, pairs) + rest == Encode(style, k) + (Encode(style, v) + tail);
      RoundTrip(style, k, Encode(style, v) + tail);
      RoundTrip(style, v, tail);
      PairsRoundTrip(style, others, rest);
  }

  /** Different items have different encodings, even in different styles. */
  lemma EncodeInjective(style: Style, style': Style, i: Item, j: Item)
    requires Fits(i) && Fits(j) && Encode(style, i) == Encode(style', j)
    ensures i == j
  {
    RoundTrip(style, i, []);
    RoundTrip(style', j, []);
    assert Encode(style, i) + [] == Encode(style, i) && Encode(style', j) + [] == Encode(style', j);
  }

  /** Signed numbers from -2^64 up to 2^64 are read back. */
  lemma SignedRoundTrip(style: Style, v: int, rest: Bytes)
    requires -v <= U64 && v < U64
    ensures Decode(Encode(style, Int(v)) + rest) == Some(Read(Int(v), rest))
    ensures forall w :: Int(w) == Int(v) ==> w == v
  {
    RoundTrip(style, Int(v), rest);
  }
}
