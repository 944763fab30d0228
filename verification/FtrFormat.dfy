/** The tables of a transaction recording and the data items they are written as. */
module FtrFormat {
  import opened Options
  import opened Cbor

  /** Text is its UTF-8 encoding. */
  type Text = Bytes

  datatype Stream = Stream(name: nat, kind: nat)
  datatype Generator = Generator(name: nat, stream: int)
  datatype Attribute = Attribute(tag: nat, name: nat, typ: int, value: int)
  datatype Transaction = Transaction(id: nat, generator: int, start: int, end: int, attributes: seq<Attribute>)
  datatype TxEntry = TxEntry(stream: int, start: int, end: int, transactions: seq<Transaction>)
  datatype Relation = Relation(name: nat, txSource: int, txSink: int, streamSource: int, streamSink: int)

  /** A part of the file, as tables. */
  datatype Chunk =
    | InfoChunk(unit: int, time: nat)
    | DictionaryChunk(first: nat, texts: seq<Text>)
    | DirectoryChunk(streams: seq<Stream>, generators: seq<Generator>)
    | TxChunk(entry: TxEntry)
    | RelationChunk(relations: seq<Relation>)

  const FILE_TAG: nat := 55799

  // ----- heads, as the writer computes them

  /** _GenerateTypedValue: the argument byte by byte, by shifting and masking. */
  function TypedValue(major: nat, value: nat): Bytes
    requires major < 8
  {
    if value < 24 then [major * 32 + value]
    else if value < 255 then [major * 32 + 24, value % 256]
    else if value < 65536 then [major * 32 + 25, value / 0x100 % 256, value % 256]
    else if value < 0xFFFF_FFFF then
      [major * 32 + 26, value / 0x100_0000 % 256, value / 0x1_0000 % 256, value / 0x100 % 256, value % 256]
    else
      [major * 32 + 27, value / 0x100_0000_0000_0000 % 256, value / 0x1_0000_0000_0000 % 256,
       value / 0x100_0000_0000 % 256,
       value / 0x1_0000_0000 % 256, value / 0x100_0000 % 256, value / 0x1_0000 % 256, value / 0x100 % 256, value % 256]
  }

  lemma Shifts(v: nat)
    ensures v / 256 / 256 == v / 0x1_0000
    ensures v / 0x1_0000 / 256 == v / 0x100_0000
    ensures v / 0x100_0000 / 256 == v / 0x1_0000_0000
    ensures v / 0x1_0000_0000 / 256 == v / 0x100_0000_0000
    ensures v / 0x100_0000_0000 / 256 == v / 0x1_0000_0000_0000
    ensures v / 0x1_0000_0000_0000 / 256 == v / 0x100_0000_0000_0000
  {
  }

  lemma Digits2(v: nat)
    ensures BigEndian(v, 2) == [v / 0x100 % 256, v % 256]
  {
    assert BigEndian(v / 256, 1) == BigEndian(v / 256 / 256, 0) + [v / 256 % 256];
  }

  lemma Digits4(v: nat)
    ensures BigEndian(v, 4) == [v / 0x100_0000 % 256, v / 0x1_0000 % 256, v / 0x100 % 256, v % 256]
  {
    Shifts(v);
    Digits2(v / 0x1_0000);
    assert BigEndian(v / 256, 3) == BigEndian(v / 0x1_0000, 2) + [v / 256 % 256];
  }

  lemma Digits8(v: nat)
    ensures BigEndian(v, 8) ==
      [v / 0x100_0000_0000_0000 % 256, v / 0x1_0000_0000_0000 % 256, v / 0x100_0000_0000 % 256,
       v / 0x1_0000_0000 % 256, v / 0x100_0000 % 256, v / 0x1_0000 % 256, v / 0x100 % 256, v % 256]
  {
    Shifts(v);
    Shifts(v / 0x1_0000_0000);
    Digits4(v / 0x1_0000_0000);
    assert BigEndian(v / 256, 7) == BigEndian(v / 0x1_0000, 6) + [v / 256 % 256];
    assert BigEndian(v / 0x1_0000, 6) == BigEndian(v / 0x100_0000, 5) + [v / 0x1_0000 % 256];
    assert BigEndian(v / 0x100_0000, 5) == BigEndian(v / 0x1_0000_0000, 4) + [v / 0x100_0000 % 256];
  }

  /** The shifted bytes are a head in the writer's style. */
  lemma TypedValueIsHead(major: nat, value: nat)
    requires major < 8
    ensures TypedValue(major, value) == Head(Writer, major, value)
  {
    if value < 24 {
    } else if value < 255 {
      assert BigEndian(value, 1) == BigEndian(value / 256, 0) + [value % 256];
    } else if value < 65536 {
      Digits2(value);
    } else if value < 0xFFFF_FFFF {
      Digits4(value);
    } else {
      Digits8(value);
    }
  }

  /** The number that four bytes from i on hold, highest first. */
  function Word(b: Bytes, i: nat): nat
    requires i + 4 <= |b|
  {
    var w, x, y, z: nat := b[i], b[i + 1], b[i + 2], b[i + 3];
    16777216 * w + 65536 * x + 256 * y + z
  }

  lemma Word4(v: nat)
    ensures Word([v / 0x100_0000 % 256, v / 0x1_0000 % 256, v / 0x100 % 256, v % 256], 0) == v % 4294967296
  {
    Shifts(v);
  }

  /** The first byte holds the major type and how many bytes follow. */
  lemma HeadSize(major: nat, v: nat)
    requires major < 8
    ensures var b := TypedValue(major, v);
      && |b| == (if v < 24 then 1 else if v < 255 then 2 else if v < 65536 then 3 else if v < 4294967295 then 5 else 9)
      && b[0] == 32 * major + if v < 24 then v else if v < 255 then 24 else if v < 65536 then 25
                              else if v < 4294967295 then 26 else 27
  {
  }

  /** Those bytes hold the value, highest byte first. */
  lemma HeadValue(major: nat, v: nat)
    requires major < 8 && v < 0x1_0000_0000_0000_0000
    ensures var b := TypedValue(major, v);
      && (|b| == 2 ==> b[1] == v)
      && (|b| == 3 ==> 256 * (b[1] as nat) + b[2] == v)
      && (|b| == 5 ==> Word(b, 1) == v)
      && (|b| == 9 ==> 4294967296 * Word(b, 1) + Word(b, 5) == v)
  {
    hide Word;
    if v >= 4294967295 {
      EightBytes(major, v);
    } else if v >= 65536 {
      Word4(v);
      WordAt(TypedValue(major, v), [v / 0x100_0000 % 256, v / 0x1_0000 % 256, v / 0x100 % 256, v % 256], 1);
    }
  }

  lemma EightBytes(major: nat, v: nat)
    requires major < 8 && 4294967295 <= v < 0x1_0000_0000_0000_0000
    ensures var b := TypedValue(major, v); |b| == 9 && 4294967296 * Word(b, 1) + Word(b, 5) == v
  {
    hide Word;
    var b, high := TypedValue(major, v), v / 0x1_0000_0000;
    Word4(v);
    Word4(high);
    WordAt(b, [v / 0x100_0000 % 256, v / 0x1_0000 % 256, v / 0x100 % 256, v % 256], 5);
    var w := [high / 0x100_0000 % 256, high / 0x1_0000 % 256, high / 0x100 % 256, high % 256];
    assert b[1..5] == w by { HighBytes(v); }
    WordAt(b, w, 1);
  }

  lemma HighBytes(v: nat)
    ensures var h := v / 0x1_0000_0000;
      && h / 0x100_0000 == v / 0x100_0000_0000_0000 && h / 0x1_0000 == v / 0x1_0000_0000_0000
      && h / 0x100 == v / 0x100_0000_0000
  {
    Shifts(v);
    Shifts(v / 0x1_0000_0000);
  }

  lemma WordAt(b: Bytes, w: Bytes, i: nat)
    requires |w| == 4 && i + 4 <= |b| && b[i..i + 4] == w
    ensures Word(b, i) == Word(w, 0)
  {
    assert b[i] == w[0] && b[i + 1] == w[1] && b[i + 2] == w[2] && b[i + 3] == w[3];
  }

  function ArraySize(n: nat): Bytes { TypedValue(4, n) }
  function OpenArraySize(): Bytes { [4 * 32 + INDEFINITE] }
  function Tag(t: nat): Bytes { TypedValue(6, t) }

  /** _GenerateSigned */
  function Signed(v: int): Bytes { if v < 0 then TypedValue(1, -v - 1) else TypedValue(0, v) }

  lemma SignedIsInt(v: int)
    ensures Signed(v) == Encode(Writer, Int(v))
  {
    TypedValueIsHead(if v < 0 then 1 else 0, if v < 0 then -v - 1 else v);
  }

  // ----- items

  function FromSeq(s: seq<Item>): Items { if |s| == 0 then NoItems else MoreItems(s[0], FromSeq(s[1..])) }

  lemma {:induction false} FromSeqCount(s: seq<Item>)
    ensures Count(FromSeq(s)) == |s|
  {
    if |s| > 0 { FromSeqCount(s[1..]); }
  }

  lemma {:induction false} EncodeSnoc(style: Style, s: seq<Item>, i: Item)
    ensures EncodeItems(style, FromSeq(s + [i])) == EncodeItems(style, FromSeq(s)) + Encode(style, i)
  {
    if |s| > 0 {
      EncodeSnoc(style, s[1..], i);
      assert (s + [i])[1..] == s[1..] + [i];
      assert (s + [i])[0] == s[0];
    } else {
      assert (s + [i])[1..] == [];
    }
  }

  lemma {:induction false} FromSeqInjective(s: seq<Item>, t: seq<Item>)
    requires FromSeq(s) == FromSeq(t)
    ensures s == t
  {
    if |s| > 0 && |t| > 0 { FromSeqInjective(s[1..], t[1..]); }
  }

  function Ints(s: seq<int>): Items { if |s| == 0 then NoItems else MoreItems(Int(s[0]), Ints(s[1..])) }

  function Triple(a: int, b: int, c: int): Item { Array(Ints([a, b, c])) }

  function StreamItem(id: nat, s: Stream): Item { Tagged(16, Triple(id, s.name, s.kind)) }
  function GeneratorItem(id: nat, g: Generator): Item { Tagged(17, Triple(id, g.name, g.stream)) }
  function AttributeItem(a: Attribute): Item { Tagged(a.tag, Triple(a.name, a.typ, a.value)) }
  function RelationItem(r: Relation): Item { Array(Ints([r.name, r.txSource, r.txSink, r.streamSource, r.streamSink])) }

  function AttributeItems(s: seq<Attribute>): seq<Item> { seq(|s|, i requires 0 <= i < |s| => AttributeItem(s[i])) }
  function RelationItems(s: seq<Relation>): seq<Item> { seq(|s|, i requires 0 <= i < |s| => RelationItem(s[i])) }
  function StreamItems(s: seq<Stream>): seq<Item> { seq(|s|, i requires 0 <= i < |s| => StreamItem(i + 1, s[i])) }

  /** Generators are numbered on from the last stream, which counts as number 1 if there is none. */
  function GeneratorBase(streams: nat): nat { (if streams == 0 then 0 else streams - 1) + 2 }

  function GeneratorItems(base: nat, s: seq<Generator>): seq<Item> {
    seq(|s|, i requires 0 <= i < |s| => GeneratorItem(base + i, s[i]))
  }

  function TransactionItem(t: Transaction): Item {
    Array(FromSeq([Tagged(6, Array(Ints([t.id, t.generator, t.start, t.end])))] + AttributeItems(t.attributes)))
  }

  function TransactionItems(s: seq<Transaction>): seq<Item> {
    seq(|s|, i requires 0 <= i < |s| => TransactionItem(s[i]))
  }

  function Entries(first: nat, texts: seq<Text>): Pairs
    decreases |texts|
  {
    if |texts| == 0 then NoPairs else MorePairs(UInt(first), TextString(texts[0]), Entries(first + 1, texts[1..]))
  }

  /** The item inside a chunk's byte string. */
  function Payload(c: Chunk): Item {
    match c
    case InfoChunk(unit, time) => Array(MoreItems(Int(unit), MoreItems(Tagged(1, UInt(time)), NoItems)))
    case DictionaryChunk(first, texts) => Map(Entries(first, texts))
    case DirectoryChunk(streams, generators) =>
      OpenArray(FromSeq(StreamItems(streams) + GeneratorItems(GeneratorBase(|streams|), generators)))
    case TxChunk(entry) => OpenArray(FromSeq(TransactionItems(entry.transactions)))
    case RelationChunk(relations) => OpenArray(FromSeq(RelationItems(relations)))
  }

  /** A chunk as it stands in the file: its payload, encoded, as a tagged byte string. */
  function ChunkItem(c: Chunk): Item {
    var bytes := ByteString(Encode(Writer, Payload(c)));
    match c
    case InfoChunk(_, _) => Tagged(6, bytes)
    case DictionaryChunk(_, _) => Tagged(8, bytes)
    case DirectoryChunk(_, _) => Tagged(10, bytes)
    case TxChunk(e) =>
      Tagged(
        12, Array(MoreItems(Int(e.stream), MoreItems(Int(e.start), MoreItems(Int(e.end), MoreItems(bytes, NoItems))))))
    case RelationChunk(_) => Tagged(14, bytes)
  }

  function ChunkItems(s: seq<Chunk>): seq<Item> { seq(|s|, i requires 0 <= i < |s| => ChunkItem(s[i])) }

  function FileItem(chunks: seq<Chunk>): Item { Tagged(FILE_TAG, OpenArray(FromSeq(ChunkItems(chunks)))) }

  /** All numbers and lengths of a chunk fit 64 bits. */
  predicate ChunkFits(c: Chunk) { Fits(Payload(c)) && Fits(ChunkItem(c)) }

  // ----- what the file means

  lemma {:induction false} AllChunksFit(chunks: seq<Chunk>)
    requires forall i :: 0 <= i < |chunks| ==> ChunkFits(chunks[i])
    ensures AllFit(FromSeq(ChunkItems(chunks)))
  {
    if |chunks| > 0 {
      AllChunksFit(chunks[1..]);
      assert ChunkItems(chunks)[1..] == ChunkItems(chunks[1..]);
    }
  }

  /** The file is one item, followed by nothing. */
  lemma FileReadsBack(chunks: seq<Chunk>)
    requires forall i :: 0 <= i < |chunks| ==> ChunkFits(chunks[i])
    ensures Decode(Encode(Shortest, FileItem(chunks))) == Some(Read(FileItem(chunks), []))
  {
    AllChunksFit(chunks);
    RoundTrip(Shortest, FileItem(chunks), []);
    assert Encode(Shortest, FileItem(chunks)) + [] == Encode(Shortest, FileItem(chunks));
  }

  /** Each chunk's byte string decodes to the item of its tables. */
  lemma PayloadReadsBack(c: Chunk)
    requires ChunkFits(c)
    ensures Decode(Encode(Writer, Payload(c))) == Some(Read(Payload(c), []))
  {
    RoundTrip(Writer, Payload(c), []);
    assert Encode(Writer, Payload(c)) + [] == Encode(Writer, Payload(c));
  }

  // ----- the tables can be recovered

  lemma {:induction false} IntsInjective(s: seq<int>, t: seq<int>)
    requires Ints(s) == Ints(t)
    ensures s == t
  {
    if |s| > 0 && |t| > 0 { IntsInjective(s[1..], t[1..]); }
  }

  lemma TripleInjective(a: int, b: int, c: int, a': int, b': int, c': int)
    requires Triple(a, b, c) == Triple(a', b', c')
    ensures a == a' && b == b' && c == c'
  {
    IntsInjective([a, b, c], [a', b', c']);
    assert [a, b, c][0] == [a', b', c'][0] && [a, b, c][1] == [a', b', c'][1] && [a, b, c][2] == [a', b', c'][2];
  }

  lemma {:induction false} EntriesInjective(first: nat, texts: seq<Text>, first': nat, texts': seq<Text>)
    requires Entries(first, texts) == Entries(first', texts')
    ensures texts == texts' && (|texts| > 0 ==> first == first')
    decreases |texts|
  {
    if |texts| > 0 && |texts'| > 0 { EntriesInjective(first + 1, texts[1..], first' + 1, texts'[1..]); }
  }

  lemma RelationsInjective(s: seq<Relation>, t: seq<Relation>)
    requires RelationItems(s) == RelationItems(t)
    ensures s == t
  {
    assert |RelationItems(s)| == |RelationItems(t)|;
    forall i | 0 <= i < |s| ensures s[i] == t[i] {
      assert RelationItems(s)[i] == RelationItems(t)[i];
      var x := [s[i].name, s[i].txSource, s[i].txSink, s[i].streamSource, s[i].streamSink];
      var y := [t[i].name, t[i].txSource, t[i].txSink, t[i].streamSource, t[i].streamSink];
      IntsInjective(x, y);
      assert x[0] == y[0] && x[1] == y[1] && x[2] == y[2] && x[3] == y[3] && x[4] == y[4];
    }
  }

  lemma AttributesInjective(s: seq<Attribute>, t: seq<Attribute>)
    requires AttributeItems(s) == AttributeItems(t)
    ensures s == t
  {
    assert |AttributeItems(s)| == |AttributeItems(t)|;
    forall i | 0 <= i < |s| ensures s[i] == t[i] {
      assert AttributeItems(s)[i] == AttributeItems(t)[i];
      TripleInjective(s[i].name, s[i].typ, s[i].value, t[i].name, t[i].typ, t[i].value);
    }
  }

  lemma TransactionInjective(s: Transaction, t: Transaction)
    requires TransactionItem(s) == TransactionItem(t)
    ensures s == t
  {
    var x, y := [s.id, s.generator, s.start, s.end], [t.id, t.generator, t.start, t.end];
    var xs := [Tagged(6, Array(Ints(x)))] + AttributeItems(s.attributes);
    var ys := [Tagged(6, Array(Ints(y)))] + AttributeItems(t.attributes);
    FromSeqInjective(xs, ys);
    assert xs[0] == ys[0] && xs[1..] == AttributeItems(s.attributes) && ys[1..] == AttributeItems(t.attributes);
    IntsInjective(x, y);
    assert x[0] == y[0] && x[1] == y[1] && x[2] == y[2] && x[3] == y[3];
    AttributesInjective(s.attributes, t.attributes);
  }

  lemma TransactionsInjective(s: seq<Transaction>, t: seq<Transaction>)
    requires TransactionItems(s) == TransactionItems(t)
    ensures s == t
  {
    assert |TransactionItems(s)| == |TransactionItems(t)|;
    forall i | 0 <= i < |s| ensures s[i] == t[i] {
      assert TransactionItems(s)[i] == TransactionItems(t)[i];
      TransactionInjective(s[i], t[i]);
    }
  }

  function DirectoryItems(s: seq<Stream>, g: seq<Generator>): seq<Item> {
    StreamItems(s) + GeneratorItems(GeneratorBase(|s|), g)
  }

  predicate IsStreamAt(items: seq<Item>, i: nat) { i < |items| && items[i].Tagged? && items[i].tag == 16 }

  lemma TagsTell(s: seq<Stream>, g: seq<Generator>)
    ensures forall i: nat :: IsStreamAt(DirectoryItems(s, g), i) <==> i < |s|
  {
  }

  lemma DirectorySplit(s: seq<Stream>, g: seq<Generator>, s': seq<Stream>, g': seq<Generator>)
    requires DirectoryItems(s, g) == DirectoryItems(s', g')
    ensures |s| == |s'|
  {
    TagsTell(s, g);
    TagsTell(s', g');
    hide IsStreamAt;
    assert IsStreamAt(DirectoryItems(s, g), |s|) <==> |s| < |s'|;
    assert IsStreamAt(DirectoryItems(s, g), |s'|) <==> |s'| < |s|;
  }

  lemma DirectoryInjective(s: seq<Stream>, g: seq<Generator>, s': seq<Stream>, g': seq<Generator>)
    requires DirectoryItems(s, g) == DirectoryItems(s', g')
    ensures s == s' && g == g'
  {
    DirectorySplit(s, g, s', g');
    var a, b := DirectoryItems(s, g), DirectoryItems(s', g');
    assert |a| == |b| && |g| == |g'|;
    forall i | 0 <= i < |s| ensures s[i] == s'[i] {
      assert a[i] == b[i];
      TripleInjective(i + 1, s[i].name, s[i].kind, i + 1, s'[i].name, s'[i].kind);
    }
    var base := GeneratorBase(|s|);
    forall i | 0 <= i < |g| ensures g[i] == g'[i] {
      assert a[|s| + i] == b[|s| + i];
      TripleInjective(base + i, g[i].name, g[i].stream, base + i, g'[i].name, g'[i].stream);
    }
  }

  lemma PayloadInjective(a: Chunk, b: Chunk)
    requires Payload(a) == Payload(b) && (a.InfoChunk? <==> b.InfoChunk?)
    requires (a.DictionaryChunk? <==> b.DictionaryChunk?)
    requires (a.DirectoryChunk? <==> b.DirectoryChunk?) && (a.TxChunk? <==> b.TxChunk?)
    requires a.TxChunk? ==>
      a.entry.stream == b.entry.stream && a.entry.start == b.entry.start && a.entry.end == b.entry.end
    ensures a == b || (a.DictionaryChunk? && b.DictionaryChunk? && a.texts == [] && b.texts == [])
  {
    match a
    case InfoChunk(_, _) =>
    case DictionaryChunk(first, texts) => EntriesInjective(first, texts, b.first, b.texts);
    case DirectoryChunk(s, g) =>
      FromSeqInjective(DirectoryItems(s, g), DirectoryItems(b.streams, b.generators));
      DirectoryInjective(s, g, b.streams, b.generators);
    case TxChunk(e) =>
      FromSeqInjective(TransactionItems(e.transactions), TransactionItems(b.entry.transactions));
      TransactionsInjective(e.transactions, b.entry.transactions);
    case RelationChunk(r) =>
      FromSeqInjective(RelationItems(r), RelationItems(b.relations));
      RelationsInjective(r, b.relations);
  }

  /** A chunk can be told from what stands in the file, but for where an empty dictionary chunk
      would have started. */
  lemma ChunkRecovered(a: Chunk, b: Chunk)
    requires ChunkFits(a) && ChunkFits(b) && ChunkItem(a) == ChunkItem(b)
    ensures a == b || (a.DictionaryChunk? && b.DictionaryChunk? && a.texts == [] && b.texts == [])
  {
    hide Payload, Encode, Fits;
    EncodeInjective(Writer, Writer, Payload(a), Payload(b));
    PayloadInjective(a, b);
  }

  /** Two files with the same bytes hold the same chunks. */
  lemma FileRecovered(s: seq<Chunk>, t: seq<Chunk>)
    requires forall i :: 0 <= i < |s| ==> ChunkFits(s[i])
    requires forall i :: 0 <= i < |t| ==> ChunkFits(t[i])
    requires Encode(Shortest, FileItem(s)) == Encode(Shortest, FileItem(t))
    ensures |s| == |t| && forall i :: 0 <= i < |s| ==>
      s[i] == t[i] || (s[i].DictionaryChunk? && t[i].DictionaryChunk? && s[i].texts == [] && t[i].texts == [])
  {
    hide ChunkFits, ChunkItem;
    FileReadsBack(s);
    FileReadsBack(t);
    FromSeqInjective(ChunkItems(s), ChunkItems(t));
    assert |ChunkItems(s)| == |ChunkItems(t)|;
    forall i | 0 <= i < |s|
      ensures s[i] == t[i] || (s[i].DictionaryChunk? && t[i].DictionaryChunk? && s[i].texts == [] && t[i].texts == [])
    {
      assert ChunkItems(s)[i] == ChunkItems(t)[i];
      ChunkRecovered(s[i], t[i]);
    }
  }
}
