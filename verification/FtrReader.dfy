/** A reader of transaction recordings, written from the format alone: it knows the tags and the places of
    the fields, and gives the tables back. */
module FtrReader {
  import opened Options
  import opened Cbor
  import opened FtrFormat

  function ToSeq(items: Items): seq<Item> { if items.NoItems? then [] else [items.first] + ToSeq(items.others) }

  /** All or nothing: what each item reads as. */
  function ReadAll<T>(read: Item -> Option<T>, s: seq<Item>): Option<seq<T>> {
    if |s| == 0 then Some([])
    else
      var first, others := read(s[0]), ReadAll(read, s[1..]);
      if first.None? || others.None? then None else Some([first.value] + others.value)
  }

  function ReadInt(i: Item): Option<int> {
    match i
    case UInt(n) => Some(n)
    case NegInt(n) => Some(-1 - n)
    case _ => None
  }

  /** An array of integers, bare. */
  function ReadInts(i: Item): Option<seq<int>> { if i.Array? then ReadAll(ReadInt, ToSeq(i.items)) else None }

  /** An array of integers under a tag. */
  function ReadTagged(i: Item): Option<(nat, seq<int>)> {
    if !i.Tagged? then None
    else
      var r := ReadInts(i.item);
      if r.None? then None else Some((i.tag, r.value))
  }

  /** The item that a byte string holds, with nothing behind it. */
  function ReadInside(i: Item): Option<Item> {
    if !i.ByteString? then None
    else
      var r := Decode(i.bytes);
      if r.Some? && r.value.rest == [] then Some(r.value.got) else None
  }

  /** The elements of an array of indefinite length inside a byte string. */
  function ReadOpen(i: Item): Option<seq<Item>> {
    var r := ReadInside(i);
    if r.Some? && r.value.OpenArray? then Some(ToSeq(r.value.items)) else None
  }

  // ----- the records

  function ReadRelation(i: Item): Option<Relation> {
    var r := ReadInts(i);
    if r.Some? && |r.value| == 5 && r.value[0] >= 0
    then Some(Relation(r.value[0], r.value[1], r.value[2], r.value[3], r.value[4])) else None
  }

  function ReadAttribute(i: Item): Option<Attribute> {
    var r := ReadTagged(i);
    if r.Some? && |r.value.1| == 3 && r.value.1[0] >= 0
    then Some(Attribute(r.value.0, r.value.1[0], r.value.1[1], r.value.1[2])) else None
  }

  /** A transaction: number, generator, start and end under tag 6, and then the attributes. */
  function ReadTransaction(i: Item): Option<Transaction> {
    if !i.Array? || i.items.NoItems? then None
    else
      var head, attributes := ReadTagged(i.items.first), ReadAll(ReadAttribute, ToSeq(i.items.others));
      if head.None? || attributes.None? || head.value.0 != 6 || |head.value.1| != 4 || head.value.1[0] < 0 then None
      else
        var h := head.value.1;
        Some(Transaction(h[0], h[1], h[2], h[3], attributes.value))
  }

  /** The records under tag 16 at the start of a directory, numbered from 1. */
  function ReadStreams(s: seq<Item>, id: nat): seq<Stream> {
    if |s| == 0 then []
    else
      var r := ReadTagged(s[0]);
      if r.Some? && r.value.0 == 16 && |r.value.1| == 3 && r.value.1[0] == id && r.value.1[1] >= 0 && r.value.1[2] >= 0
      then [Stream(r.value.1[1], r.value.1[2])] + ReadStreams(s[1..], id + 1) else []
  }

  /** The records under tag 17 that make up the rest, numbered from id. */
  function ReadGenerators(s: seq<Item>, id: nat): Option<seq<Generator>> {
    if |s| == 0 then Some([])
    else
      var r, others := ReadTagged(s[0]), ReadGenerators(s[1..], id + 1);
      if others.Some? && r.Some? && r.value.0 == 17 && |r.value.1| == 3 && r.value.1[0] == id && r.value.1[1] >= 0
      then Some([Generator(r.value.1[1], r.value.1[2])] + others.value) else None
  }

  /** The texts of a map whose keys count on from first. */
  function ReadTexts(pairs: Pairs, first: nat): Option<seq<Text>> {
    if pairs.NoPairs? then Some([])
    else
      var others := ReadTexts(pairs.others, first + 1);
      if others.Some? && pairs.key == UInt(first) && pairs.value.TextString?
      then Some([pairs.value.text] + others.value) else None
  }

  // ----- the chunks

  function ReadInfo(i: Item): Option<Chunk> {
    match ReadInside(i)
    case Some(Array(MoreItems(unit, MoreItems(Tagged(tag, UInt(time)), NoItems)))) =>
      if tag == 1 && ReadInt(unit).Some? then Some(InfoChunk(ReadInt(unit).value, time)) else None
    case _ => None
  }

  function ReadDictionary(i: Item): Option<Chunk> {
    match ReadInside(i)
    case Some(Map(pairs)) =>
      if pairs.NoPairs? then Some(DictionaryChunk(0, []))
      else if pairs.key.UInt? && ReadTexts(pairs, pairs.key.n).Some?
      then Some(DictionaryChunk(pairs.key.n, ReadTexts(pairs, pairs.key.n).value)) else None
    case _ => None
  }

  /** Streams and then generators, whose numbers follow those of the streams; without a stream they start
      at 2. */
  function ReadDirectory(i: Item): Option<Chunk> {
    var s := ReadOpen(i);
    if s.None? then None
    else
      var streams := ReadStreams(s.value, 1);
      if |streams| > |s.value| then None
      else
        var generators := ReadGenerators(s.value[|streams|..], if streams == [] then 2 else |streams| + 1);
        if generators.None? then None else Some(DirectoryChunk(streams, generators.value))
  }

  /** Stream, start and end, and the transactions. */
  function ReadTxBlock(i: Item): Option<Chunk> {
    match i
    case Array(MoreItems(stream, MoreItems(start, MoreItems(end, MoreItems(block, NoItems))))) =>
      var s := ReadOpen(block);
      if s.None? || ReadInt(stream).None? || ReadInt(start).None? || ReadInt(end).None? then None
      else
        var ts := ReadAll(ReadTransaction, s.value);
        if ts.None? then None
        else Some(TxChunk(TxEntry(ReadInt(stream).value, ReadInt(start).value, ReadInt(end).value, ts.value)))
    case _ => None
  }

  function ReadRelations(i: Item): Option<Chunk> {
    var s := ReadOpen(i);
    if s.None? then None
    else
      var r := ReadAll(ReadRelation, s.value);
      if r.None? then None else Some(RelationChunk(r.value))
  }

  function ReadChunk(i: Item): Option<Chunk> {
    if !i.Tagged? then None
    else if i.tag == 6 then ReadInfo(i.item)
    else if i.tag == 8 then ReadDictionary(i.item)
    else if i.tag == 10 then ReadDirectory(i.item)
    else if i.tag == 12 then ReadTxBlock(i.item)
    else if i.tag == 14 then ReadRelations(i.item)
    else None
  }

  /** The chunks of a file. */
  function ReadFile(b: Bytes): Option<seq<Chunk>> {
    match Decode(b)
    case Some(Read(Tagged(tag, OpenArray(items)), rest)) =>
      if tag == 55799 && rest == [] then ReadAll(ReadChunk, ToSeq(items)) else None
    case _ => None
  }

  // ----- what was written is read

  lemma {:induction false} AllRead<T>(read: Item -> Option<T>, s: seq<Item>, t: seq<T>)
    requires |s| == |t| && forall i :: 0 <= i < |s| ==> read(s[i]) == Some(t[i])
    ensures ReadAll(read, s) == Some(t)
  {
    if |s| > 0 {
      AllRead(read, s[1..], t[1..]);
      assert t == [t[0]] + t[1..];
    }
  }

  lemma {:induction false} FromSeqRead(s: seq<Item>)
    ensures ToSeq(FromSeq(s)) == s
  {
    if |s| > 0 { FromSeqRead(s[1..]); }
  }

  lemma {:induction false} IntsRead(s: seq<int>)
    ensures ReadAll(ReadInt, ToSeq(Ints(s))) == Some(s)
  {
    if |s| > 0 {
      IntsRead(s[1..]);
      var l := ToSeq(Ints(s));
      assert l[0] == Int(s[0]) && l[1..] == ToSeq(Ints(s[1..]));
      assert s == [s[0]] + s[1..];
    }
  }

  lemma AttributeRead(a: Attribute)
    ensures ReadAttribute(AttributeItem(a)) == Some(a)
  {
    IntsRead([a.name, a.typ, a.value]);
  }

  lemma RelationRead(r: Relation)
    ensures ReadRelation(RelationItem(r)) == Some(r)
  {
    IntsRead([r.name, r.txSource, r.txSink, r.streamSource, r.streamSink]);
  }

  lemma TransactionRead(t: Transaction)
    ensures ReadTransaction(TransactionItem(t)) == Some(t)
  {
    hide AttributeItem, ReadAttribute;
    var head, attributes := Tagged(6, Array(Ints([t.id, t.generator, t.start, t.end]))), AttributeItems(t.attributes);
    assert ([head] + attributes)[0] == head && ([head] + attributes)[1..] == attributes;
    IntsRead([t.id, t.generator, t.start, t.end]);
    FromSeqRead(attributes);
    forall i | 0 <= i < |attributes| ensures ReadAttribute(attributes[i]) == Some(t.attributes[i]) {
      AttributeRead(t.attributes[i]);
    }
    AllRead(ReadAttribute, attributes, t.attributes);
  }

  lemma StreamRead(id: nat, s: Stream)
    ensures ReadTagged(StreamItem(id, s)) == Some((16, [id, s.name, s.kind]))
  {
    IntsRead([id, s.name, s.kind]);
  }

  lemma GeneratorRead(id: nat, g: Generator)
    ensures ReadTagged(GeneratorItem(id, g)) == Some((17, [id, g.name, g.stream]))
  {
    IntsRead([id, g.name, g.stream]);
  }

  lemma {:induction false} GeneratorsRead(s: seq<Item>, g: seq<Generator>, id: nat)
    requires |s| == |g| && forall i :: 0 <= i < |s| ==> s[i] == GeneratorItem(id + i, g[i])
    ensures ReadGenerators(s, id) == Some(g)
  {
    if |s| > 0 {
      hide GeneratorItem, ReadTagged;
      assert s[0] == GeneratorItem(id + 0, g[0]);
      GeneratorRead(id, g[0]);
      GeneratorsRead(s[1..], g[1..], id + 1);
      assert g == [Generator(g[0].name, g[0].stream)] + g[1..];
    }
  }

  lemma {:induction false} StreamsRead(s: seq<Item>, t: seq<Stream>, rest: seq<Item>, id: nat)
    requires |s| == |t| && forall i :: 0 <= i < |s| ==> s[i] == StreamItem(id + i, t[i])
    requires |rest| > 0 ==> ReadTagged(rest[0]).Some? && ReadTagged(rest[0]).value.0 != 16
    ensures ReadStreams(s + rest, id) == t
  {
    hide StreamItem, ReadTagged;
    if |s| > 0 {
      assert s[0] == StreamItem(id + 0, t[0]) && (s + rest)[1..] == s[1..] + rest;
      StreamRead(id, t[0]);
      StreamsRead(s[1..], t[1..], rest, id + 1);
      assert t == [Stream(t[0].name, t[0].kind)] + t[1..];
    } else {
      assert s + rest == rest;
    }
  }

  lemma DirectoryRead(streams: seq<Stream>, generators: seq<Generator>)
    ensures var s := DirectoryItems(streams, generators);
      && ReadStreams(s, 1) == streams && |streams| <= |s|
      && ReadGenerators(s[|streams|..], if streams == [] then 2 else |streams| + 1) == Some(generators)
  {
    hide StreamItem, GeneratorItem, ReadTagged, ReadStreams, ReadGenerators;
    var base := GeneratorBase(|streams|);
    var first, rest := StreamItems(streams), GeneratorItems(base, generators);
    if |generators| > 0 { GeneratorRead(base, generators[0]); }
    StreamsRead(first, streams, rest, 1);
    GeneratorsRead(rest, generators, base);
    assert (first + rest)[|streams|..] == rest;
  }

  lemma {:induction false} TextsRead(first: nat, texts: seq<Text>)
    ensures ReadTexts(Entries(first, texts), first) == Some(texts)
    decreases |texts|
  {
    if |texts| > 0 {
      TextsRead(first + 1, texts[1..]);
      assert texts == [texts[0]] + texts[1..];
    }
  }

  /** An empty dictionary chunk does not say where it would have started. */
  function Normal(c: Chunk): Chunk { if c.DictionaryChunk? && c.texts == [] then DictionaryChunk(0, []) else c }

  function AllNormal(chunks: seq<Chunk>): seq<Chunk> {
    seq(|chunks|, i requires 0 <= i < |chunks| => Normal(chunks[i]))
  }

  /** The byte string of a chunk gives its payload back. */
  lemma InsideRead(c: Chunk)
    requires ChunkFits(c)
    ensures ReadInside(ByteString(Encode(Writer, Payload(c)))) == Some(Payload(c))
  {
    hide Payload, Encode, Decode, Fits;
    PayloadReadsBack(c);
  }

  lemma OpenRead(c: Chunk, s: seq<Item>)
    requires ChunkFits(c) && Payload(c) == OpenArray(FromSeq(s))
    ensures ReadOpen(ByteString(Encode(Writer, Payload(c)))) == Some(s)
  {
    hide Payload, Encode, Decode, Fits, ReadInside;
    InsideRead(c);
    FromSeqRead(s);
  }

  /** Whatever chunk was written is the chunk read. */
  lemma ChunkRead(c: Chunk)
    requires ChunkFits(c)
    ensures ReadChunk(ChunkItem(c)) == Some(Normal(c))
  {
    hide Encode, Decode, Fits, ReadInside, ChunkFits, ReadOpen, ReadStreams, ReadGenerators, ReadTransaction;
    hide ReadRelation, ReadTexts;
    InsideRead(c);
    match c
    case InfoChunk(_, _) =>
    case DictionaryChunk(first, texts) => TextsRead(first, texts);
    case DirectoryChunk(streams, generators) =>
      OpenRead(c, DirectoryItems(streams, generators));
      DirectoryRead(streams, generators);
    case TxChunk(e) =>
      var items := TransactionItems(e.transactions);
      OpenRead(c, items);
      forall i | 0 <= i < |items| ensures ReadTransaction(items[i]) == Some(e.transactions[i]) {
        TransactionRead(e.transactions[i]);
      }
      AllRead(ReadTransaction, items, e.transactions);
    case RelationChunk(relations) =>
      var items := RelationItems(relations);
      OpenRead(c, items);
      forall i | 0 <= i < |items| ensures ReadRelation(items[i]) == Some(relations[i]) {
        RelationRead(relations[i]);
      }
      AllRead(ReadRelation, items, relations);
  }

  /** The reader gives back what the writer was given. */
  lemma FileRead(chunks: seq<Chunk>)
    requires forall i :: 0 <= i < |chunks| ==> ChunkFits(chunks[i])
    ensures ReadFile(Encode(Shortest, FileItem(chunks))) == Some(AllNormal(chunks))
  {
    hide Encode, Decode, ChunkFits, ReadChunk, ChunkItem, Normal;
    FileReadsBack(chunks);
    var items := ChunkItems(chunks);
    FromSeqRead(items);
    forall i | 0 <= i < |items| ensures ReadChunk(items[i]) == Some(AllNormal(chunks)[i]) { ChunkRead(chunks[i]); }
    AllRead(ReadChunk, items, AllNormal(chunks));
  }

  // ----- the first bytes

  /** The major types of section 3.1 of RFC 8949, and the two bytes around an array of indefinite length. */
  lemma MajorTypes(style: Style, n: nat, b: Bytes, items: Items, pairs: Pairs, item: Item)
    ensures Encode(style, UInt(n))[0] / 32 == 0 && Encode(style, NegInt(n))[0] / 32 == 1
    ensures Encode(style, ByteString(b))[0] / 32 == 2 && Encode(style, TextString(b))[0] / 32 == 3
    ensures Encode(style, Array(items))[0] / 32 == 4 && Encode(style, Map(pairs))[0] / 32 == 5
    ensures Encode(style, Tagged(n, item))[0] / 32 == 6
    ensures Encode(style, OpenArray(items)) == [0x9F] + EncodeItems(style, items) + [0xFF]
  {
    hide BigEndian;
  }

  /** A file starts with tag 55799 and the start of an array, and ends with a break. */
  lemma FileFrame(chunks: seq<Chunk>)
    ensures var b := Encode(Shortest, FileItem(chunks));
      |b| >= 5 && b[..4] == [0xD9, 0xD9, 0xF7, 0x9F] && b[|b| - 1] == 0xFF
  {
    hide ChunkItems;
    TypedValueIsHead(6, 55799);
    WriterAlmostShortest(6, 55799);
    var items := FromSeq(ChunkItems(chunks));
    EncodeTagged(Shortest, 55799, OpenArray(items));
    EncodeOpen(Shortest, items);
    assert Head(Shortest, 6, 55799) == [0xD9, 0xD9, 0xF7];
  }
}
