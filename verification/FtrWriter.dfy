/** The writer of transaction recordings (fld/ftr_writer.py). */
module FtrWriters {
  import opened Options
  import opened Cbor
  import opened FtrFormat
  import opened FtrReader

  /** The position of the first element equal to x. */
  function IndexOf<T(==)>(s: seq<T>, x: T): (k: nat)
    requires x in s
    ensures k < |s| && s[k] == x && forall j :: 0 <= j < k ==> s[j] != x
  {
    if s[0] == x then 0 else 1 + IndexOf(s[1..], x)
  }

  /** The first element equal to x stands at k. */
  predicate IsFirst<T(==)>(s: seq<T>, x: T, k: nat) { k < |s| && s[k] == x && forall j :: 0 <= j < k ==> s[j] != x }

  // ----- how a chunk's bytes grow

  lemma {:induction false} EntriesSnoc(first: nat, texts: seq<Text>, t: Text)
    ensures EncodePairs(Writer, Entries(first, texts + [t])) ==
      EncodePairs(Writer, Entries(first, texts)) + Encode(Writer, UInt(first + |texts|)) + Encode(Writer, TextString(t))
    decreases |texts|
  {
    if |texts| > 0 {
      EntriesSnoc(first + 1, texts[1..], t);
      assert (texts + [t])[1..] == texts[1..] + [t] && (texts + [t])[0] == texts[0];
    } else {
      assert (texts + [t])[1..] == [];
    }
  }

  lemma {:induction false} EntriesCount(first: nat, texts: seq<Text>)
    ensures PairCount(Entries(first, texts)) == |texts|
    decreases |texts|
  {
    if |texts| > 0 { EntriesCount(first + 1, texts[1..]); }
  }

  /** _GenerateDictionaryItem */
  function DictionaryItem(idx: nat, text: Text): Bytes { TypedValue(0, idx) + TypedValue(3, |text|) + text }

  lemma DictionaryItemIs(idx: nat, text: Text)
    ensures DictionaryItem(idx, text) == Encode(Writer, UInt(idx)) + Encode(Writer, TextString(text))
  {
    TypedValueIsHead(0, idx);
    TypedValueIsHead(3, |text|);
  }

  lemma Ints3(a: int, b: int, c: int)
    ensures ArraySize(3) + Signed(a) + Signed(b) + Signed(c) == Encode(Writer, Triple(a, b, c))
  {
    hide Encode, Head, TypedValue, Signed, Int;
    TypedValueIsHead(4, 3);
    SignedIsInt(a);
    SignedIsInt(b);
    SignedIsInt(c);
    IntsCons(a, [b, c]);
    IntsCons(b, [c]);
    IntsCons(c, []);
    assert [a, b, c] == [a] + [b, c] && [b, c] == [b] + [c] && [c] == [c] + [];
    ArrayOf([a, b, c]);
  }

  lemma IntsCons(a: int, s: seq<int>)
    ensures EncodeItems(Writer, Ints([a] + s)) == Encode(Writer, Int(a)) + EncodeItems(Writer, Ints(s))
  {
    assert ([a] + s)[1..] == s;
  }

  lemma {:induction false} IntsCount(s: seq<int>)
    ensures Count(Ints(s)) == |s|
  {
    if |s| > 0 { IntsCount(s[1..]); }
  }

  lemma ArrayOf(s: seq<int>)
    ensures Encode(Writer, Array(Ints(s))) == Head(Writer, 4, |s|) + EncodeItems(Writer, Ints(s))
  {
    IntsCount(s);
  }

  lemma TaggedTriple(t: nat, a: int, b: int, c: int)
    ensures Tag(t) + ArraySize(3) + Signed(a) + Signed(b) + Signed(c) == Encode(Writer, Tagged(t, Triple(a, b, c)))
  {
    hide TypedValue, Signed, Head, Triple, Encode;
    TypedValueIsHead(6, t);
    Ints3(a, b, c);
    EncodeTagged(Writer, t, Triple(a, b, c));
    assert Tag(t) + ArraySize(3) + Signed(a) + Signed(b) + Signed(c) ==
      Tag(t) + (ArraySize(3) + Signed(a) + Signed(b) + Signed(c));
  }

  lemma StreamIs(id: nat, s: Stream)
    ensures Tag(16) + ArraySize(3) + Signed(id) + Signed(s.name) + Signed(s.kind) == Encode(Writer, StreamItem(id, s))
  {
    TaggedTriple(16, id, s.name, s.kind);
  }

  lemma GeneratorIs(id: nat, g: Generator)
    ensures Tag(17) + ArraySize(3) + Signed(id) + Signed(g.name) + Signed(g.stream) ==
      Encode(Writer, GeneratorItem(id, g))
  {
    TaggedTriple(17, id, g.name, g.stream);
  }

  lemma AttributeIs(a: Attribute)
    ensures Tag(a.tag) + ArraySize(3) + Signed(a.name) + Signed(a.typ) + Signed(a.value) ==
      Encode(Writer, AttributeItem(a))
  {
    TaggedTriple(a.tag, a.name, a.typ, a.value);
  }

  lemma RelationIs(r: Relation)
    ensures Encode(Writer, RelationItem(r)) ==
      ArraySize(5) + Signed(r.name) + Signed(r.txSource) + Signed(r.txSink) + Signed(r.streamSource)
        + Signed(r.streamSink)
  {
    hide Encode, Head, TypedValue, Signed, Int;
    TypedValueIsHead(4, 5);
    var a, b, c, d, e := r.name, r.txSource, r.txSink, r.streamSource, r.streamSink;
    SignedIsInt(a);
    SignedIsInt(b);
    SignedIsInt(c);
    SignedIsInt(d);
    SignedIsInt(e);
    IntsCons(a, [b, c, d, e]);
    IntsCons(b, [c, d, e]);
    IntsCons(c, [d, e]);
    IntsCons(d, [e]);
    IntsCons(e, []);
    assert [a, b, c, d, e] == [a] + [b, c, d, e] && [b, c, d, e] == [b] + [c, d, e] && [c, d, e] == [c] + [d, e];
    assert [d, e] == [d] + [e] && [e] == [e] + [];
    ArrayOf([a, b, c, d, e]);
  }

  /** The head of a transaction: its first element, before the attributes. */
  lemma TransactionHeadIs(t: Transaction)
    ensures Tag(6) + ArraySize(4) + Signed(t.id) + Signed(t.generator) + Signed(t.start) + Signed(t.end) ==
      Encode(Writer, Tagged(6, Array(Ints([t.id, t.generator, t.start, t.end]))))
  {
    hide Encode, Head, TypedValue, Signed, Int;
    EncodeTagged(Writer, 6, Array(Ints([t.id, t.generator, t.start, t.end])));
    TypedValueIsHead(4, 4);
    TypedValueIsHead(6, 6);
    var a, b, c, d := t.id, t.generator, t.start, t.end;
    SignedIsInt(a);
    SignedIsInt(b);
    SignedIsInt(c);
    SignedIsInt(d);
    IntsCons(a, [b, c, d]);
    IntsCons(b, [c, d]);
    IntsCons(c, [d]);
    IntsCons(d, []);
    assert [a, b, c, d] == [a] + [b, c, d] && [b, c, d] == [b] + [c, d] && [c, d] == [c] + [d] && [d] == [d] + [];
    ArrayOf([a, b, c, d]);
  }

  /** The bytes of a chunk's payload so far: one item more. */
  lemma OneMore(s: seq<Item>, i: Item, k: nat)
    requires k < |s| && i == s[k]
    ensures EncodeItems(Writer, FromSeq(s[..k + 1])) == EncodeItems(Writer, FromSeq(s[..k])) + Encode(Writer, i)
  {
    EncodeSnoc(Writer, s[..k], i);
    assert s[..k + 1] == s[..k] + [i];
  }

  /** _GenerateTransaction, as GenerateTXBlockChunk writes one. */
  method WriteTransaction(t: Transaction) returns (b: Bytes)
    ensures b == Encode(Writer, TransactionItem(t))
  {
    hide Encode, TypedValue, Signed, AttributeItem, EncodeItems, FromSeq, Ints, TransactionItem;
    ghost var first := Tagged(6, Array(Ints([t.id, t.generator, t.start, t.end])));
    ghost var all := [first] + AttributeItems(t.attributes);
    var body := Tag(6) + ArraySize(4) + Signed(t.id) + Signed(t.generator) + Signed(t.start) + Signed(t.end);
    TransactionHeadIs(t);
    OneMore(all, first, 0);
    NothingYet(all);
    var i := 0;
    while i < |t.attributes|
      invariant i <= |t.attributes| && body == EncodeItems(Writer, FromSeq(all[..i + 1]))
    {
      var a := t.attributes[i];
      AttributeIs(a);
      OneMore(all, AttributeItem(a), i + 1);
      body := body + (Tag(a.tag) + ArraySize(3) + Signed(a.name) + Signed(a.typ) + Signed(a.value));
      i := i + 1;
    }
    b := ArraySize(|t.attributes| + 1) + body;
    assert all[..|all|] == all;
    TypedValueIsHead(4, |all|);
    ArrayIs(all);
    assert TransactionItem(t) == Array(FromSeq(all)) by { TransactionIs(t); }
  }

  lemma TransactionIs(t: Transaction)
    ensures TransactionItem(t) ==
      Array(FromSeq([Tagged(6, Array(Ints([t.id, t.generator, t.start, t.end])))] + AttributeItems(t.attributes)))
  {
  }

  lemma ArrayIs(s: seq<Item>)
    ensures Encode(Writer, Array(FromSeq(s))) == Head(Writer, 4, |s|) + EncodeItems(Writer, FromSeq(s))
  {
    FromSeqCount(s);
  }

  // ----- what the dictionary chunks list

  function Numbered(first: nat, texts: seq<Text>): seq<(nat, Text)> {
    seq(|texts|, i requires 0 <= i < |texts| => (first + i, texts[i]))
  }

  /** All dictionary entries of a file, in the order they stand in it. */
  function Listing(chunks: seq<Chunk>): seq<(nat, Text)> {
    if |chunks| == 0 then []
    else
      var last := chunks[|chunks| - 1];
      Listing(chunks[..|chunks| - 1]) + if last.DictionaryChunk? then Numbered(last.first, last.texts) else []
  }

  lemma ListingSnoc(chunks: seq<Chunk>, c: Chunk)
    ensures Listing(chunks + [c]) == Listing(chunks) + if c.DictionaryChunk? then Numbered(c.first, c.texts) else []
  {
    assert (chunks + [c])[..|chunks|] == chunks;
  }

  lemma NumberedMore(d: seq<Text>, k: nat)
    requires k <= |d|
    ensures Numbered(0, d[..k]) + Numbered(k, d[k..]) == Numbered(0, d)
  {
  }

  lemma ContentSnoc(start: Bytes, chunks: seq<Chunk>, c: Chunk)
    ensures start + EncodeItems(Shortest, FromSeq(ChunkItems(chunks + [c]))) ==
      start + EncodeItems(Shortest, FromSeq(ChunkItems(chunks))) + Encode(Shortest, ChunkItem(c))
  {
    assert ChunkItems(chunks + [c]) == ChunkItems(chunks) + [ChunkItem(c)];
    EncodeSnoc(Shortest, ChunkItems(chunks), ChunkItem(c));
  }

  // ----- transactions

  predicate HasTx(entries: seq<TxEntry>, e: nat, i: nat) { e < |entries| && i < |entries[e].transactions| }

  function TxId(entries: seq<TxEntry>, e: nat, i: nat): nat
    requires HasTx(entries, e, i)
  {
    entries[e].transactions[i].id
  }

  /** Every transaction has its own number, at most last. */
  ghost predicate Numbers(entries: seq<TxEntry>, last: nat) {
    && (forall e: nat, i: nat :: HasTx(entries, e, i) ==> TxId(entries, e, i) <= last)
    && (forall e: nat, i: nat, e': nat, i': nat ::
          HasTx(entries, e, i) && HasTx(entries, e', i') && TxId(entries, e, i) == TxId(entries, e', i') ==>
            e == e' && i == i')
  }

  function Attributed(t: Transaction, id: nat, a: Attribute): Transaction {
    if t.id == id then t.(attributes := t.attributes + [a]) else t
  }

  function AllAttributed(ts: seq<Transaction>, id: nat, a: Attribute): seq<Transaction> {
    seq(|ts|, i requires 0 <= i < |ts| => Attributed(ts[i], id, a))
  }

  function EntriesAttributed(entries: seq<TxEntry>, id: nat, a: Attribute): seq<TxEntry> {
    seq(|entries|, e requires 0 <= e < |entries| =>
      entries[e].(transactions := AllAttributed(entries[e].transactions, id, a)))
  }

  /** The attribute goes to the transaction of that number, behind its others, and nothing else changes. */
  lemma OneAttributed(entries: seq<TxEntry>, last: nat, e: nat, i: nat, a: Attribute)
    requires Numbers(entries, last) && HasTx(entries, e, i)
    ensures var r, t := EntriesAttributed(entries, TxId(entries, e, i), a), entries[e].transactions[i];
      r == entries[e := TxEntry(entries[e].stream, entries[e].start, entries[e].end,
        entries[e].transactions[i := Transaction(t.id, t.generator, t.start, t.end, t.attributes + [a])])]
  {
    var r, t := EntriesAttributed(entries, TxId(entries, e, i), a), entries[e].transactions[i];
    forall x, y | 0 <= x < |r| && 0 <= y < |r[x].transactions| && (x != e || y != i)
      ensures r[x].transactions[y] == entries[x].transactions[y]
    {
      assert HasTx(entries, x, y) && TxId(entries, x, y) != TxId(entries, e, i);
    }
    forall x | 0 <= x < |r| && x != e ensures r[x] == entries[x] {
      assert r[x].transactions == entries[x].transactions;
    }
    var ts := entries[e].transactions[i := Transaction(t.id, t.generator, t.start, t.end, t.attributes + [a])];
    assert r[e].transactions == ts && r[e] == TxEntry(entries[e].stream, entries[e].start, entries[e].end, ts);
  }

  /** A number that no transaction has changes nothing. */
  lemma NoneAttributed(entries: seq<TxEntry>, id: nat, a: Attribute)
    requires forall e: nat, i: nat :: HasTx(entries, e, i) ==> TxId(entries, e, i) != id
    ensures EntriesAttributed(entries, id, a) == entries
  {
    var r := EntriesAttributed(entries, id, a);
    forall x | 0 <= x < |r| ensures r[x] == entries[x] {
      forall y | 0 <= y < |r[x].transactions| ensures r[x].transactions[y] == entries[x].transactions[y] {
        assert HasTx(entries, x, y);
      }
      assert r[x].transactions == entries[x].transactions;
    }
  }

  lemma AttributedNumbers(entries: seq<TxEntry>, last: nat, id: nat, a: Attribute)
    requires Numbers(entries, last)
    ensures Numbers(EntriesAttributed(entries, id, a), last)
  {
    var r := EntriesAttributed(entries, id, a);
    forall e: nat, i: nat | HasTx(r, e, i) ensures HasTx(entries, e, i) && TxId(r, e, i) == TxId(entries, e, i) {}
  }

  function WithTransaction(entries: seq<TxEntry>, e: nat, t: Transaction): seq<TxEntry>
    requires e < |entries|
  {
    entries[e := entries[e].(transactions := entries[e].transactions + [t])]
  }

  lemma NewTransaction(entries: seq<TxEntry>, last: nat, e: nat, t: Transaction)
    requires Numbers(entries, last) && e < |entries| && t.id == last + 1
    ensures Numbers(WithTransaction(entries, e, t), last + 1)
  {
    var n, r := |entries[e].transactions|, entries[e := entries[e].(transactions := entries[e].transactions + [t])];
    forall x: nat, i: nat | HasTx(r, x, i)
      ensures if x == e && i == n then TxId(r, x, i) == last + 1
              else HasTx(entries, x, i) && TxId(r, x, i) == TxId(entries, x, i) {}
  }

  lemma NewEntry(entries: seq<TxEntry>, last: nat, entry: TxEntry)
    requires Numbers(entries, last) && entry.transactions == []
    ensures Numbers(entries + [entry], last)
  {
    var r := entries + [entry];
    forall x: nat, i: nat | HasTx(r, x, i) ensures HasTx(entries, x, i) && TxId(r, x, i) == TxId(entries, x, i) {}
  }

  lemma MoreNumbers(entries: seq<TxEntry>, last: nat)
    requires Numbers(entries, last)
    ensures Numbers(entries, last + 1)
  {
  }

  // ----- the payloads that are open arrays

  lemma OpenArrayIs(s: seq<Item>)
    ensures Encode(Writer, OpenArray(FromSeq(s))) == OpenArraySize() + EncodeItems(Writer, FromSeq(s[..|s|])) + [BREAK]
  {
    assert s[..|s|] == s;
  }

  lemma NothingYet(s: seq<Item>)
    ensures EncodeItems(Writer, FromSeq(s[..0])) == []
  {
  }

  /** The array of GenerateDirectoryChunk. */
  method WriteDirectory(streams: seq<Stream>, generators: seq<Generator>) returns (bytes: Bytes)
    ensures bytes == Encode(Writer, Payload(DirectoryChunk(streams, generators)))
  {
    hide Encode, TypedValue, Signed, StreamItem, GeneratorItem, EncodeItems, FromSeq;
    ghost var all := DirectoryItems(streams, generators);
    bytes := OpenArraySize();
    NothingYet(all);
    var lastIdx := 0;
    var n := 0;
    while n < |streams|
      invariant n <= |streams| && bytes == OpenArraySize() + EncodeItems(Writer, FromSeq(all[..n]))
      invariant lastIdx == if n == 0 then 0 else n - 1
    {
      lastIdx := n;
      var s := streams[n];
      StreamIs(n + 1, s);
      OneMore(all, StreamItem(n + 1, s), n);
      bytes := bytes + (Tag(16) + ArraySize(3) + Signed(lastIdx + 1) + Signed(s.name) + Signed(s.kind));
      n := n + 1;
    }
    var idx := 0;
    while idx < |generators|
      invariant idx <= |generators| && bytes == OpenArraySize() + EncodeItems(Writer, FromSeq(all[..|streams| + idx]))
    {
      var g := generators[idx];
      GeneratorIs(lastIdx + idx + 2, g);
      OneMore(all, GeneratorItem(lastIdx + idx + 2, g), |streams| + idx);
      bytes := bytes + (Tag(17) + ArraySize(3) + Signed(lastIdx + idx + 2) + Signed(g.name) + Signed(g.stream));
      idx := idx + 1;
    }
    OpenArrayIs(all);
    bytes := bytes + [BREAK];
  }

  /** The transaction array of GenerateTXBlockChunk. */
  method WriteTransactions(transactions: seq<Transaction>) returns (bytes: Bytes)
    ensures bytes == Encode(Writer, OpenArray(FromSeq(TransactionItems(transactions))))
  {
    hide Encode, TransactionItem, EncodeItems, FromSeq;
    ghost var all := TransactionItems(transactions);
    bytes := OpenArraySize();
    NothingYet(all);
    var idx := 0;
    while idx < |transactions|
      invariant idx <= |transactions| && bytes == OpenArraySize() + EncodeItems(Writer, FromSeq(all[..idx]))
    {
      var t := WriteTransaction(transactions[idx]);
      OneMore(all, TransactionItem(transactions[idx]), idx);
      bytes := bytes + t;
      idx := idx + 1;
    }
    OpenArrayIs(all);
    bytes := bytes + [BREAK];
  }

  /** The array of GenerateRelationChunk. */
  method WriteRelations(relations: seq<Relation>) returns (bytes: Bytes)
    ensures bytes == Encode(Writer, Payload(RelationChunk(relations)))
  {
    hide Encode, RelationItem, EncodeItems, FromSeq, TypedValue, Signed;
    ghost var all := RelationItems(relations);
    bytes := OpenArraySize();
    NothingYet(all);
    var idx := 0;
    while idx < |relations|
      invariant idx <= |relations| && bytes == OpenArraySize() + EncodeItems(Writer, FromSeq(all[..idx]))
    {
      var r := relations[idx];
      RelationIs(r);
      OneMore(all, RelationItem(r), idx);
      bytes := bytes + (ArraySize(5) + Signed(r.name) + Signed(r.txSource) + Signed(r.txSink)
        + Signed(r.streamSource) + Signed(r.streamSink));
      idx := idx + 1;
    }
    OpenArrayIs(all);
    bytes := bytes + [BREAK];
  }

  /** The map of GenerateDictionaryChunk. */
  method WriteDictionary(first: nat, texts: seq<Text>) returns (bytes: Bytes)
    ensures bytes == Encode(Writer, Payload(DictionaryChunk(first, texts)))
  {
    hide Encode, TypedValue, Entries;
    bytes := TypedValue(5, |texts|);
    TypedValueIsHead(5, |texts|);
    NoEntries(first);
    var idx := 0;
    while idx < |texts|
      invariant idx <= |texts| && bytes == Head(Writer, 5, |texts|) + EncodePairs(Writer, Entries(first, texts[..idx]))
    {
      DictionaryItemIs(first + idx, texts[idx]);
      EntriesSnoc(first, texts[..idx], texts[idx]);
      assert texts[..idx + 1] == texts[..idx] + [texts[idx]];
      bytes := bytes + DictionaryItem(first + idx, texts[idx]);
      idx := idx + 1;
    }
    assert texts[..|texts|] == texts;
    DictionaryIs(first, texts);
  }

  lemma NoEntries(first: nat)
    ensures EncodePairs(Writer, Entries(first, [])) == []
  {
  }

  class FtrWriter {
    var content: Bytes
    var dumped: nat
    var dictionary: seq<Text>
    var streams: seq<Stream>
    var generators: seq<Generator>
    var txEntries: seq<TxEntry>
    var transactionId: nat
    var relations: seq<Relation>
    ghost var chunks: seq<Chunk>

    /** The bytes are the open file item with the chunks written so far; the dictionary chunks
        list every index below dumped once, in order, with its text. */
    ghost predicate Valid()
      reads this
    {
      && content == Start() + EncodeItems(Shortest, FromSeq(ChunkItems(chunks)))
      && dumped <= |dictionary| && Listing(chunks) == Numbered(0, dictionary[..dumped])
      && Numbers(txEntries, transactionId)
    }

    constructor ()
      ensures Valid() && chunks == [] && dictionary == [] && streams == [] && generators == [] && txEntries == []
      ensures relations == [] && transactionId == 0
    {
      content := Tag(FILE_TAG) + OpenArraySize();
      dumped, dictionary, streams, generators, txEntries, transactionId, relations := 0, [], [], [], [], 0, [];
      chunks := [];
    }

    /** What WriteFTRFile writes: the content and a closing break. */
    method WriteFile() returns (file: Bytes)
      requires Valid()
      modifies `content
      ensures file == Encode(Shortest, FileItem(chunks)) && content == file
      ensures |file| >= 5 && file[..4] == [0xD9, 0xD9, 0xF7, 0x9F] && file[|file| - 1] == 0xFF
      ensures (forall i :: 0 <= i < |chunks| ==> ChunkFits(chunks[i])) ==> ReadFile(file) == Some(AllNormal(chunks))
    {
      hide Encode, EncodeItems, FromSeq, ChunkItems, Listing, Start, Numbers, FileItem, ReadFile, ChunkFits;
      content := content + [BREAK];
      file := content;
      ClosedFile(chunks);
      FileFrame(chunks);
      if forall i :: 0 <= i < |chunks| ==> ChunkFits(chunks[i]) { FileRead(chunks); }
    }

    /** Appending a chunk keeps the file well formed. */
    ghost method Note(c: Chunk)
      requires content == Start() + EncodeItems(Shortest, FromSeq(ChunkItems(chunks))) + Encode(Shortest, ChunkItem(c))
      modifies `chunks
      ensures chunks == old(chunks) + [c] && content == Start() + EncodeItems(Shortest, FromSeq(ChunkItems(chunks)))
      ensures Listing(chunks) == Listing(old(chunks)) + if c.DictionaryChunk? then Numbered(c.first, c.texts) else []
    {
      ContentSnoc(Start(), chunks, c);
      ListingSnoc(chunks, c);
      chunks := chunks + [c];
    }

    method GenerateInfoChunk(unit: int, now: nat)
      requires Valid()
      modifies `content, `chunks
      ensures Valid() && chunks == old(chunks) + [InfoChunk(unit, now)]
    {
      hide Encode, TypedValue, Signed, EncodeItems, FromSeq, ChunkItems, Listing, Start, Numbers;
      var info := ArraySize(2) + Signed(unit) + Tag(1) + TypedValue(0, now);
      InfoIs(unit, now);
      content := content + Encode(Shortest, Tagged(6, ByteString(info)));
      Note(InfoChunk(unit, now));
    }

    method AddToDictionary(item: Text) returns (k: nat)
      requires Valid()
      modifies `dictionary
      ensures Valid() && dictionary == old(dictionary) + [item]
      ensures IsFirst(dictionary, item, k)
    {
      hide Encode, EncodeItems, FromSeq, ChunkItems, Listing, Start, Numbers;
      dictionary := dictionary + [item];
      assert dictionary[..dumped] == old(dictionary)[..dumped];
      k := IndexOf(dictionary, item);
    }

    method GenerateDictionaryChunk()
      requires Valid()
      modifies `content, `chunks, `dumped
      ensures Valid() && dumped == |dictionary|
      ensures chunks == old(chunks) + [DictionaryChunk(old(dumped), dictionary[old(dumped)..])]
    {
      hide Encode, TypedValue, Listing, Start, Numbers, ChunkItems, EncodeItems, FromSeq;
      var texts := dictionary[dumped..];
      var bytes := WriteDictionary(dumped, texts);
      content := content + Encode(Shortest, Tagged(8, ByteString(bytes)));
      NumberedMore(dictionary, dumped);
      Note(DictionaryChunk(dumped, texts));
      dumped := |dictionary|;
      assert dictionary[..dumped] == dictionary;
    }

    method AddToStreams(name: Text, kind: Text) returns (id: Option<nat>)
      requires Valid()
      modifies `streams
      ensures Valid() && (id.None? <==> name !in dictionary || kind !in dictionary)
      ensures id.None? ==> streams == old(streams)
      ensures id.Some? ==>
        |streams| == |old(streams)| + 1 && old(streams) <= streams
        && IsFirst(dictionary, name, streams[|streams| - 1].name)
        && IsFirst(dictionary, kind, streams[|streams| - 1].kind)
      ensures id.Some? ==> id.value > 0 && IsFirst(streams, streams[|streams| - 1], id.value - 1)
    {
      hide Encode, EncodeItems, FromSeq, ChunkItems, Listing, Start, Numbers;
      if name !in dictionary || kind !in dictionary {
        return None;
      }
      var s := Stream(IndexOf(dictionary, name), IndexOf(dictionary, kind));
      streams := streams + [s];
      id := Some(IndexOf(streams, s) + 1);
    }

    method AddToGenerators(name: Text, stream: int) returns (id: Option<nat>)
      requires Valid()
      modifies `generators
      ensures Valid() && (id.None? <==> name !in dictionary)
      ensures id.None? ==> generators == old(generators)
      ensures id.Some? ==> |generators| == |old(generators)| + 1 && old(generators) <= generators
      ensures id.Some? ==>
        var g := generators[|generators| - 1]; g.stream == stream && IsFirst(dictionary, name, g.name)
      ensures id.Some? ==> HandedOut(generators, |streams|, id.value, generators[|generators| - 1])
    {
      hide Encode, EncodeItems, FromSeq, ChunkItems, Listing, Start, Numbers;
      if name !in dictionary {
        return None;
      }
      var g := Generator(IndexOf(dictionary, name), stream);
      generators := generators + [g];
      id := Some(IndexOf(generators, g) + 1 + |streams|);
      assert HandedOut(generators, |streams|, id.value, g);
    }

    method GenerateDirectoryChunk()
      requires Valid()
      modifies `content, `chunks
      ensures Valid() && chunks == old(chunks) + [DirectoryChunk(streams, generators)]
    {
      hide Encode, EncodeItems, FromSeq, ChunkItems, Listing, Start, Numbers, Payload;
      var directory := WriteDirectory(streams, generators);
      content := content + Encode(Shortest, Tagged(10, ByteString(directory)));
      Note(DirectoryChunk(streams, generators));
    }

    /** The index of the first entry equal to the new one, which may be an older, still empty one. */
    method AddTXStream(stream: int, startTime: int, endTime: int) returns (k: nat)
      requires Valid()
      modifies `txEntries
      ensures Valid() && txEntries == old(txEntries) + [TxEntry(stream, startTime, endTime, [])]
      ensures IsFirst(txEntries, TxEntry(stream, startTime, endTime, []), k)
    {
      hide Encode, EncodeItems, FromSeq, ChunkItems, Listing, Start, Numbers;
      var entry := TxEntry(stream, startTime, endTime, []);
      NewEntry(txEntries, transactionId, entry);
      txEntries := txEntries + [entry];
      k := IndexOf(txEntries, entry);
    }

    /** The number is used up even when there is no such entry.  A negative position counts from the
        end. */
    method AddTransaction(entry: int, generator: int, startTime: int, endTime: int) returns (id: Option<nat>)
      requires Valid()
      modifies `txEntries, `transactionId
      ensures Valid() && transactionId == old(transactionId) + 1
      ensures !(-|txEntries| <= entry < |txEntries|) ==> id == None && txEntries == old(txEntries)
      ensures -|txEntries| <= entry < |txEntries| ==> id == Some(transactionId)
      ensures -|old(txEntries)| <= entry < |old(txEntries)| ==>
        txEntries == WithTransaction(
          old(txEntries), if entry < 0 then entry + |old(txEntries)| else entry,
          Transaction(transactionId, generator, startTime, endTime, []))
      ensures |txEntries| == |old(txEntries)|
      ensures forall i :: 0 <= i < |txEntries| ==>
        var was := old(txEntries)[i];
        txEntries[i] ==
          if i == entry || i == entry + |txEntries|
          then TxEntry(was.stream, was.start, was.end,
            was.transactions + [Transaction(old(transactionId) + 1, generator, startTime, endTime, [])])
          else was
    {
      hide Encode, EncodeItems, FromSeq, ChunkItems, Listing, Start, Numbers;
      transactionId := transactionId + 1;
      MoreNumbers(txEntries, transactionId - 1);
      var e := if entry < 0 then entry + |txEntries| else entry;
      if e < 0 || e >= |txEntries| {
        return None;
      }
      var t := Transaction(transactionId, generator, startTime, endTime, []);
      NewTransaction(txEntries, transactionId - 1, e, t);
      txEntries := txEntries[e := txEntries[e].(transactions := txEntries[e].transactions + [t])];
      id := Some(transactionId);
    }

    method AddAttribute(id: nat, tag: nat, name: Text, typ: int, value: int) returns (ok: bool)
      requires Valid()
      modifies `txEntries
      ensures Valid() && (ok <==> name in dictionary)
      ensures !ok ==> txEntries == old(txEntries)
      ensures ok ==>
        txEntries == EntriesAttributed(old(txEntries), id, Attribute(tag, IndexOf(dictionary, name), typ, value))
    {
      hide Encode, EncodeItems, FromSeq, ChunkItems, Listing, Start, Numbers, AllAttributed;
      if name !in dictionary {
        return false;
      }
      var k := IndexOf(dictionary, name);
      var a := Attribute(tag, k, typ, value);
      AttributedNumbers(txEntries, transactionId, id, a);
      var e := 0;
      while e < |txEntries|
        modifies `txEntries
        invariant e <= |txEntries| == |old(txEntries)|
        invariant forall x :: 0 <= x < |txEntries| ==>
          txEntries[x] ==
            if x < e then old(txEntries)[x].(transactions := AllAttributed(old(txEntries)[x].transactions, id, a))
            else old(txEntries)[x]
      {
        var ts := AttributeTransactions(txEntries[e].transactions, id, a);
        txEntries := txEntries[e := txEntries[e].(transactions := ts)];
        e := e + 1;
      }
      assert txEntries == EntriesAttributed(old(txEntries), id, a);
      ok := true;
    }

    method GenerateTXBlockChunk()
      requires Valid()
      modifies `content, `chunks
      ensures Valid() && |chunks| == |old(chunks)| + |txEntries| && chunks[..|old(chunks)|] == old(chunks)
      ensures forall i :: 0 <= i < |txEntries| ==> chunks[|old(chunks)| + i] == TxChunk(txEntries[i])
    {
      hide Encode, EncodeItems, FromSeq, ChunkItems, Listing, Start, Numbers, TransactionItems;
      var i := 0;
      while i < |txEntries|
        invariant i <= |txEntries| && Valid() && chunks == old(chunks) + TxChunks(txEntries)[..i]
      {
        var entry := txEntries[i];
        var txblock := WriteTransactions(entry.transactions);
        var items := MoreItems(Int(entry.start), MoreItems(Int(entry.end), MoreItems(ByteString(txblock), NoItems)));
        content := content + Encode(Shortest, Tagged(12, Array(MoreItems(Int(entry.stream), items))));
        Note(TxChunk(entry));
        assert TxChunks(txEntries)[..i + 1] == TxChunks(txEntries)[..i] + [TxChunk(entry)];
        i := i + 1;
      }
    }

    method AddRelation(name: Text, txSource: int, txSink: int, streamSource: int, streamSink: int) returns (ok: bool)
      requires Valid()
      modifies `relations
      ensures Valid() && (ok <==> name in dictionary)
      ensures !ok ==> relations == old(relations)
      ensures ok ==>
        relations == old(relations) + [Relation(IndexOf(dictionary, name), txSource, txSink, streamSource, streamSink)]
    {
      hide Encode, EncodeItems, FromSeq, ChunkItems, Listing, Start, Numbers;
      if name !in dictionary {
        return false;
      }
      var k := IndexOf(dictionary, name);
      relations := relations + [Relation(k, txSource, txSink, streamSource, streamSink)];
      ok := true;
    }

    method GenerateRelationChunk()
      requires Valid()
      modifies `content, `chunks
      ensures Valid() && chunks == old(chunks) + [RelationChunk(relations)]
    {
      hide Encode, EncodeItems, FromSeq, ChunkItems, Listing, Start, Numbers, Payload;
      var bytes := WriteRelations(relations);
      content := content + Encode(Shortest, Tagged(14, ByteString(bytes)));
      Note(RelationChunk(relations));
    }
  }

  /** The inner loop of AddAttribute. */
  method AttributeTransactions(ts: seq<Transaction>, id: nat, a: Attribute) returns (r: seq<Transaction>)
    ensures r == AllAttributed(ts, id, a)
  {
    r := ts;
    var i := 0;
    while i < |ts|
      invariant i <= |ts| == |r|
      invariant forall x :: 0 <= x < |ts| ==> r[x] == if x < i then Attributed(ts[x], id, a) else ts[x]
    {
      if r[i].id == id {
        r := r[i := r[i].(attributes := r[i].attributes + [a])];
      }
      i := i + 1;
    }
  }

  function TxChunks(entries: seq<TxEntry>): seq<Chunk> {
    seq(|entries|, i requires 0 <= i < |entries| => TxChunk(entries[i]))
  }

  /** The number given out for generator g while there were n streams: the place of the first record
      equal to it, counted on from the streams. */
  ghost predicate HandedOut(generators: seq<Generator>, n: nat, id: nat, g: Generator) {
    n < id && IsFirst(generators, g, id - n - 1)
  }

  // ----- the numbers given out and the numbers declared

  /** The directory declares number id for the stream s. */
  ghost predicate DeclaresStream(streams: seq<Stream>, generators: seq<Generator>, id: nat, s: Stream) {
    StreamItem(id, s) in DirectoryItems(streams, generators)
  }

  ghost predicate DeclaresGenerator(streams: seq<Stream>, generators: seq<Generator>, id: nat, g: Generator) {
    GeneratorItem(id, g) in DirectoryItems(streams, generators)
  }

  /** A stream's number, given out once its record was added, is declared with that record in
      every later directory, and with no other. */
  lemma StreamDeclared(streams: seq<Stream>, later: seq<Stream>, generators: seq<Generator>, id: nat)
    requires 1 <= id <= |streams| && streams <= later
    ensures DeclaresStream(later, generators, id, streams[id - 1])
    ensures forall s :: DeclaresStream(later, generators, id, s) ==> s == streams[id - 1]
  {
    var d := DirectoryItems(later, generators);
    assert d[id - 1] == StreamItem(id, later[id - 1]);
    forall s | DeclaresStream(later, generators, id, s) ensures s == streams[id - 1] {
      var k :| 0 <= k < |d| && d[k] == StreamItem(id, s);
      assert IsStreamAt(d, k);
      TagsTell(later, generators);
      assert d[k] == StreamItem(k + 1, later[k]);
      TripleInjective(id, s.name, s.kind, k + 1, later[k].name, later[k].kind);
    }
  }

  /** What the directory declares for a number: the generator at that place. */
  lemma GeneratorDeclaredIs(streams: seq<Stream>, generators: seq<Generator>, id: nat, g: Generator)
    ensures DeclaresGenerator(streams, generators, id, g) <==>
      var k := id - GeneratorBase(|streams|); 0 <= k < |generators| && generators[k] == g
  {
    var d, base := DirectoryItems(streams, generators), GeneratorBase(|streams|);
    if base <= id < base + |generators| && generators[id - base] == g {
      assert d[|streams| + (id - base)] == GeneratorItem(id, g);
    }
    if DeclaresGenerator(streams, generators, id, g) {
      var k :| 0 <= k < |d| && d[k] == GeneratorItem(id, g);
      assert !IsStreamAt(d, k);
      TagsTell(streams, generators);
      var j := k - |streams|;
      assert d[k] == GeneratorItem(base + j, generators[j]);
      TripleInjective(id, g.name, g.stream, base + j, generators[j].name, generators[j].stream);
    }
  }

  /** A number given out for a generator while there were n streams is declared with its record in a
      later directory exactly when there was a stream by then and none was added since. */
  lemma GeneratorDeclaredIff(
    generators: seq<Generator>, n: nat, id: nat, g: Generator, laterStreams: seq<Stream>, later: seq<Generator>)
    requires HandedOut(generators, n, id, g) && n <= |laterStreams| && generators <= later
    ensures DeclaresGenerator(laterStreams, later, id, g) <==> 0 < n == |laterStreams|
  {
    GeneratorDeclaredIs(laterStreams, later, id, g);
    var k := id - n - 1;
    assert later[k] == generators[k];
    forall j | 0 <= j < k ensures later[j] != g { assert later[j] == generators[j]; }
  }

  /** With a stream in place and no stream added after, every generator number given out is
      declared with exactly its record. */
  lemma GeneratorDeclared(
    streams: seq<Stream>, generators: seq<Generator>, later: seq<Generator>, id: nat, g: Generator)
    requires |streams| > 0 && generators <= later && HandedOut(generators, |streams|, id, g)
    ensures DeclaresGenerator(streams, later, id, g)
    ensures forall h :: DeclaresGenerator(streams, later, id, h) ==> h == g
  {
    GeneratorDeclaredIs(streams, later, id, g);
    forall h | DeclaresGenerator(streams, later, id, h) ensures h == g {
      GeneratorDeclaredIs(streams, later, id, h);
    }
  }

  /** Without a stream the first generator is given number 1 and declared with number 2. */
  lemma NoStreamMismatch(g: Generator)
    ensures HandedOut([g], 0, 1, g) && !DeclaresGenerator([], [g], 1, g) && DeclaresGenerator([], [g], 2, g)
  {
    GeneratorDeclaredIs([], [g], 1, g);
    GeneratorDeclaredIs([], [g], 2, g);
  }

  function Start(): Bytes { Tag(FILE_TAG) + OpenArraySize() }

  lemma ClosedFile(chunks: seq<Chunk>)
    ensures Start() + EncodeItems(Shortest, FromSeq(ChunkItems(chunks))) + [BREAK] == Encode(Shortest, FileItem(chunks))
  {
    hide EncodeItems, FromSeq, ChunkItems, Head, TypedValue, Encode;
    TypedValueIsHead(6, FILE_TAG);
    WriterAlmostShortest(6, FILE_TAG);
    var items := FromSeq(ChunkItems(chunks));
    EncodeTagged(Shortest, FILE_TAG, OpenArray(items));
    EncodeOpen(Shortest, items);
    assert Start() + EncodeItems(Shortest, items) + [BREAK] ==
      Head(Shortest, 6, FILE_TAG) + ([4 * 32 + INDEFINITE] + EncodeItems(Shortest, items) + [BREAK]);
  }

  lemma InfoIs(unit: int, now: nat)
    ensures ArraySize(2) + Signed(unit) + Tag(1) + TypedValue(0, now) == Encode(Writer, Payload(InfoChunk(unit, now)))
  {
    hide TypedValue, Signed, Head, Int, Encode;
    TypedValueIsHead(4, 2);
    TypedValueIsHead(6, 1);
    TypedValueIsHead(0, now);
    SignedIsInt(unit);
    PairItems(Int(unit), Tagged(1, UInt(now)));
    EncodeTagged(Writer, 1, UInt(now));
    EncodeUInt(now);
  }

  lemma EncodeUInt(n: nat)
    ensures Encode(Writer, UInt(n)) == Head(Writer, 0, n)
  {
  }

  lemma PairItems(a: Item, b: Item)
    ensures Encode(Writer, Array(MoreItems(a, MoreItems(b, NoItems)))) ==
      Head(Writer, 4, 2) + (Encode(Writer, a) + Encode(Writer, b))
  {
    hide Head;
    assert EncodeItems(Writer, MoreItems(b, NoItems)) == Encode(Writer, b) + [];
    assert Count(MoreItems(b, NoItems)) == 1;
  }

  lemma DictionaryIs(first: nat, texts: seq<Text>)
    ensures Encode(Writer, Payload(DictionaryChunk(first, texts))) ==
      Head(Writer, 5, |texts|) + EncodePairs(Writer, Entries(first, texts))
  {
    EntriesCount(first, texts);
  }
}
