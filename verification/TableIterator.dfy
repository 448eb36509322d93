/** The iterator of a table, and a lookup in it, from the bytes of the file: both see exactly the entries
    that were given to the builder (table/table.cc: NewIterator, BlockReader, InternalGet). */
module TableIterator {
  import opened InternalKeys
  import opened VersionSearch
  import opened Cursors
  import opened Coding
  import opened BlockFormat
  import opened Comparators
  import opened FilterBlock
  import opened TableLookup
  import opened TableBuilder
  import opened TwoLevel
  import opened IteratorStack
  import BlockIter

  // ----- The entries of a table as a store sees them -----

  function EntryOf(kv: KeyValue): Entry
    requires Parses(kv.key)
  {
    Entry(KeyOf(kv.key), kv.value)
  }

  ghost predicate AllParse(kvs: seq<KeyValue>) {
    forall kv :: kv in kvs ==> Parses(kv.key)
  }

  ghost predicate BlocksParse(t: Table) {
    forall i :: 0 <= i < |t.blocks| ==> AllParse(t.blocks[i])
  }

  lemma {:induction false} EntriesParse(blocks: seq<seq<KeyValue>>, i: nat, j: nat)
    requires i <= j < |blocks| && AllParse(EntriesFrom(blocks, i))
    ensures AllParse(blocks[j])
    decreases j - i
  {
    var rest := EntriesFrom(blocks, i + 1);
    assert EntriesFrom(blocks, i) == blocks[i] + rest;
    if i < j {
      assert forall kv :: kv in rest ==> kv in EntriesFrom(blocks, i);
      EntriesParse(blocks, i + 1, j);
    } else {
      assert forall kv :: kv in blocks[i] ==> kv in EntriesFrom(blocks, i);
    }
  }

  lemma IndexParses(t: Table, i: nat)
    requires GoodTable(t) && BlocksParse(t) && i < |t.index|
    ensures Parses(t.index[i].key)
  {
    assert GoodIndexEntry(t, i) && InternalKeysOf(t.blocks[i]) && AllParse(t.blocks[i]);
    assert t.blocks[i][|t.blocks[i]| - 1] in t.blocks[i];
  }

  /** The index and the blocks it names stand for those of the table. */
  ghost predicate Mirrors(t: Table, index: seq<Entry>, blocks: Blocks) {
    && StandFor(t.index, index) && Names(index, blocks)
    && |t.blocks| == |index| && forall i :: 0 <= i < |index| ==> StandFor(t.blocks[i], BlockAt(index, blocks, i))
  }

  // ----- Index keys separate blocks -----

  lemma LastIsLargest(b: seq<KeyValue>, kv: KeyValue)
    requires InternalKeysOf(b) && kv in b
    ensures !InternalLess(LastKey(b), kv.key)
  {
    InternalIsStrictOrder();
    var j :| 0 <= j < |b| && b[j] == kv;
    assert j == |b| - 1 || InternalLess(b[j].key, LastKey(b));
  }

  /** The index key of a block is at least each of its keys. */
  lemma OwnBlock(t: Table, i: nat, kv: KeyValue)
    requires GoodTable(t) && i < |t.index| && kv in t.blocks[i]
    ensures !InternalLess(t.index[i].key, kv.key)
  {
    InternalIsStrictOrder();
    IndexAtLeast(t, i);
    LastIsLargest(t.blocks[i], kv);
    AtMost(LastKey(t.blocks[i]), t.index[i].key);
    AtMost(kv.key, LastKey(t.blocks[i]));
  }

  lemma FirstIsSmallest(b: seq<KeyValue>, kv: KeyValue)
    requires InternalKeysOf(b) && kv in b
    ensures b[0].key == kv.key || InternalLess(b[0].key, kv.key)
  {
    var k :| 0 <= k < |b| && b[k] == kv;
    assert k == 0 || InternalLess(b[0].key, b[k].key);
  }

  /** ... and below each key of the blocks that follow. */
  lemma LaterBlock(t: Table, i: nat, j: nat, kv: KeyValue)
    requires GoodTable(t) && i < j < |t.index| && kv in t.blocks[j]
    ensures InternalLess(t.index[i].key, kv.key)
  {
    IndexBelowNext(t, j - 1);
    FirstIsSmallest(t.blocks[j], kv);
    var first := t.blocks[j][0].key;
    if i < j - 1 {
      IndexStep(t, i, j - 1);
      InternalTransitive(t.index[i].key, t.index[j - 1].key, first);
    }
    if first != kv.key {
      InternalTransitive(t.index[i].key, first, kv.key);
    }
  }

  lemma MemberStands(kvs: seq<KeyValue>, entries: seq<Entry>, e: Entry) returns (kv: KeyValue)
    requires StandFor(kvs, entries) && e in entries
    ensures kv in kvs && StandsFor(kv, e)
  {
    var j :| 0 <= j < |entries| && entries[j] == e;
    kv := kvs[j];
  }

  lemma IndexSeparates(t: Table, index: seq<Entry>, blocks: Blocks, i: nat, j: nat, e: Entry)
    requires GoodTable(t) && Mirrors(t, index, blocks) && i <= j < |index| && e in BlockAt(index, blocks, j)
    ensures if i == j then !Less(index[i].key, e.key) else Less(index[i].key, e.key)
  {
    var kv := MemberStands(t.blocks[j], BlockAt(index, blocks, j), e);
    assert StandsFor(t.index[i], index[i]);
    KeyOfKeepsOrder(t.index[i].key, kv.key);
    if i == j {
      OwnBlock(t, i, kv);
    } else {
      LaterBlock(t, i, j, kv);
    }
  }

  lemma StandAppend(a: seq<KeyValue>, b: seq<KeyValue>, x: seq<Entry>, y: seq<Entry>)
    requires StandFor(a, x) && StandFor(b, y)
    ensures StandFor(a + b, x + y)
  {
    forall i | 0 <= i < |a + b| ensures StandsFor((a + b)[i], (x + y)[i]) {
      assert if i < |a| then StandsFor(a[i], x[i]) else StandsFor(b[i - |a|], y[i - |a|]);
    }
  }

  /** The first n blocks, and the rest of the entries. */
  lemma {:induction false} FirstBlocks(t: Table, index: seq<Entry>, blocks: Blocks, n: nat) returns (front: seq<KeyValue>)
    requires Mirrors(t, index, blocks) && n <= |index|
    ensures front + EntriesFrom(t.blocks, n) == Entries(t)
    ensures StandFor(front, Concat(index, blocks, n))
  {
    if n == 0 {
      front := [];
    } else {
      var before := FirstBlocks(t, index, blocks, n - 1);
      front := before + t.blocks[n - 1];
      StandAppend(before, t.blocks[n - 1], Concat(index, blocks, n - 1), BlockAt(index, blocks, n - 1));
      assert front + EntriesFrom(t.blocks, n) == before + EntriesFrom(t.blocks, n - 1);
    }
  }

  /** In a table as it is built, index seeks are sound, and the blocks one after the other are exactly
      its entries. */
  lemma TableSeparates(t: Table, index: seq<Entry>, blocks: Blocks)
    requires GoodTable(t) && Mirrors(t, index, blocks)
    ensures Separates(index, blocks) && StandFor(Entries(t), Concat(index, blocks, |index|))
  {
    forall i, e | 0 <= i < |index| && e in BlockAt(index, blocks, i) ensures !Less(index[i].key, e.key) {
      IndexSeparates(t, index, blocks, i, i, e);
    }
    forall i, j, e | 0 <= i < j < |index| && e in BlockAt(index, blocks, j) ensures Less(index[i].key, e.key) {
      IndexSeparates(t, index, blocks, i, j, e);
    }
    var front := FirstBlocks(t, index, blocks, |index|);
    assert front + EntriesFrom(t.blocks, |index|) == front;
  }

  // ----- The iterator of a table -----

  ghost predicate StandSoFar(kvs: seq<KeyValue>, entries: seq<Entry>) {
    |entries| <= |kvs| && forall i {:trigger StandsFor(kvs[i], entries[i])} :: 0 <= i < |entries| ==> StandsFor(kvs[i], entries[i])
  }

  lemma StandNext(kvs: seq<KeyValue>, entries: seq<Entry>, e: Entry)
    requires |entries| < |kvs| && StandSoFar(kvs, entries) && StandsFor(kvs[|entries|], e)
    ensures StandSoFar(kvs, entries + [e])
  {
    forall i | 0 <= i < |entries + [e]| ensures StandsFor(kvs[i], (entries + [e])[i]) {
      assert i < |entries| ==> StandsFor(kvs[i], entries[i]);
    }
  }

  method CurrentEntry(iter: BlockIter.Iter, ghost s: Shape) returns (e: Entry)
    requires iter.Inv() && iter.Valid() && iter.built == Some(s) && AllParse(s.kvs)
    ensures iter.pos < |s.kvs| && StandsFor(s.kvs[iter.pos], e)
  {
    assert s.kvs[iter.pos] in s.kvs;
    e := EntryOf(KeyValue(iter.key, iter.value));
  }

  /** The iterator stands just behind the entries taken so far. */
  ghost predicate Walked(iter: BlockIter.Iter, s: Shape, entries: seq<Entry>)
    reads iter
  {
    iter.Inv() && iter.built == Some(s) && iter.pos == |entries| && StandSoFar(s.kvs, entries)
  }

  method TakeEntry(iter: BlockIter.Iter, ghost s: Shape, entries: seq<Entry>) returns (more: seq<Entry>)
    requires Walked(iter, s, entries) && iter.Valid() && AllParse(s.kvs)
    modifies iter
    ensures Walked(iter, s, more) && |more| == |entries| + 1
  {
    var e := CurrentEntry(iter, s);
    StandNext(s.kvs, entries, e);
    more := entries + [e];
    iter.Next();
  }

  lemma StoodForAll(iter: BlockIter.Iter, s: Shape, entries: seq<Entry>)
    requires Walked(iter, s, entries) && !iter.Valid()
    ensures StandFor(s.kvs, entries)
  {
  }

  /** What the iterator over a block runs through. */
  method BlockEntries(contents: Bytes, ghost s: Shape) returns (entries: seq<Entry>)
    requires IsBlock(contents, s) && AllParse(s.kvs)
    ensures StandFor(s.kvs, entries)
  {
    var iter := BlockIter.NewIterator(InternalLess, contents, s);
    iter.SeekToFirst();
    entries := [];
    while iter.Valid()
      invariant Walked(iter, s, entries)
      decreases |s.kvs| - |entries|
    {
      entries := TakeEntry(iter, s, entries);
    }
    StoodForAll(iter, s, entries);
  }

  /** Blocks 0 to n - 1 can be opened by their index values. */
  ghost predicate Tabulated(t: Table, index: seq<Entry>, blocks: Blocks, n: nat) {
    && |t.blocks| == |index| && n <= |index|
    && forall i :: 0 <= i < n ==> index[i].value in blocks && StandFor(t.blocks[i], blocks[index[i].value])
  }

  lemma IndexValue(t: Table, index: seq<Entry>, i: nat)
    requires GoodTable(t) && StandFor(t.index, index) && i < |index|
    ensures index[i].value == EncodeHandle(t.handles[i]) && t.handles[i].offset < TWO_64 && t.handles[i].size < TWO_64
  {
    assert GoodIndexEntry(t, i) && StandsFor(t.index[i], index[i]);
  }

  lemma TabulateNext(t: Table, index: seq<Entry>, blocks: Blocks, n: nat, entries: seq<Entry>)
    requires GoodTable(t) && HandlesAscend(t.handles) && StandFor(t.index, index)
    requires Tabulated(t, index, blocks, n) && n < |index| && StandFor(t.blocks[n], entries)
    ensures Tabulated(t, index, blocks[index[n].value := entries], n + 1)
  {
    IndexValue(t, index, n);
    forall i | 0 <= i < n ensures index[i].value != index[n].value {
      IndexValue(t, index, i);
      HandleRoundTrip(t.handles[i]);
      HandleRoundTrip(t.handles[n]);
    }
  }

  lemma IndexKeysParse(t: Table)
    requires GoodTable(t) && BlocksParse(t)
    ensures AllParse(t.index)
  {
    forall kv | kv in t.index ensures Parses(kv.key) {
      var i :| 0 <= i < |t.index| && t.index[i] == kv;
      IndexParses(t, i);
    }
  }

  ghost predicate BlocksStored(crc: Crc, file: Bytes, t: Table, shapes: seq<Shape>) {
    && |shapes| == |t.blocks| == |t.handles|
    && forall i :: 0 <= i < |t.blocks| ==> BlockStored(crc, file, t.handles[i], shapes[i], t.blocks[i])
  }

  /** Table::BlockReader: the block an index value names. */
  method OpenBlock(crc: Crc, file: Bytes, handleValue: Bytes, ghost h: Handle, ghost s: Shape, ghost kvs: seq<KeyValue>)
    returns (entries: seq<Entry>)
    requires handleValue == EncodeHandle(h) && h.offset < TWO_64 && h.size < TWO_64
    requires BlockStored(crc, file, h, s, kvs) && AllParse(kvs)
    ensures StandFor(kvs, entries)
  {
    HandleRoundTrip(h);
    var handle := DecodeHandle(handleValue).value;
    entries := BlockEntries(ReadBlock(crc, file, handle).value, s);
  }

  method Tabulate(crc: Crc, file: Bytes, index: seq<Entry>, ghost t: Table, ghost shapes: seq<Shape>) returns (blocks: Blocks)
    requires GoodTable(t) && HandlesAscend(t.handles) && BlocksParse(t) && BlocksStored(crc, file, t, shapes) && StandFor(t.index, index)
    ensures Mirrors(t, index, blocks)
  {
    blocks := map[];
    for i := 0 to |index|
      invariant Tabulated(t, index, blocks, i)
    {
      IndexValue(t, index, i);
      assert BlockStored(crc, file, t.handles[i], shapes[i], t.blocks[i]) && AllParse(t.blocks[i]);
      var entries := OpenBlock(crc, file, index[i].value, t.handles[i], shapes[i], t.blocks[i]);
      TabulateNext(t, index, blocks, i, entries);
      blocks := blocks[index[i].value := entries];
    }
  }

  /** Table::NewIterator: the two-level iterator over the index block, with the block function tabulated. */
  method NewTableIterator(crc: Crc, file: Bytes, index: Bytes, ghost t: Table, ghost indexShape: Shape, ghost shapes: seq<Shape>)
    returns (iter: TwoLevelIterator)
    requires GoodTable(t) && HandlesAscend(t.handles) && BlocksParse(t) && Stored(crc, file, index, t, indexShape, shapes)
    ensures fresh(iter) && fresh(iter.Repr()) && iter.Inv() && !iter.Valid()
    ensures Separates(iter.Index(), iter.blocks) && StandFor(Entries(t), iter.Entries())
  {
    IndexKeysParse(t);
    var indexEntries := BlockEntries(index, indexShape);
    var blocks := Tabulate(crc, file, indexEntries, t, shapes);
    TableSeparates(t, indexEntries, blocks);
    iter := OverIndex(indexEntries, blocks);
  }

  method OverIndex(index: seq<Entry>, blocks: Blocks) returns (iter: TwoLevelIterator)
    requires Names(index, blocks)
    ensures fresh(iter) && fresh(iter.Repr()) && iter.Inv() && !iter.Valid() && iter.Index() == index && iter.blocks == blocks
  {
    var indexIter := new Cursor(index);
    iter := new TwoLevelIterator(indexIter, blocks);
  }

  /** A finished table and its iterator. */
  method FinishAndOpen(builder: TableBuilder) returns (iter: TwoLevelIterator)
    requires builder.Valid() && AllParse(builder.Contents()) && |builder.file| + 2 * TWO_32 < TWO_64
    requires |builder.indexBlock.buffer| + 4 * |builder.indexBlock.restarts| + |builder.lastKey| + 64 < TWO_32
    modifies builder, builder.dataBlock, builder.indexBlock
    ensures fresh(iter) && fresh(iter.Repr()) && iter.Inv() && !iter.Valid()
    ensures Separates(iter.Index(), iter.blocks) && StandFor(old(builder.Contents()), iter.Entries())
  {
    ghost var t, indexShape;
    var index;
    index, t, indexShape := builder.Finish();
    forall i | 0 <= i < |t.blocks| ensures AllParse(t.blocks[i]) {
      EntriesParse(t.blocks, 0, i);
    }
    iter := NewTableIterator(builder.crc, builder.file, index, t, indexShape, builder.parts.shapes);
  }

  lemma StandUnique(kvs: seq<KeyValue>, a: seq<Entry>, b: seq<Entry>)
    requires StandFor(kvs, a) && StandFor(kvs, b)
    ensures a == b
  {
    forall i | 0 <= i < |a| ensures a[i] == b[i] {
      assert StandsFor(kvs[i], a[i]) && StandsFor(kvs[i], b[i]);
    }
  }

  /** Whatever valid calls are made, the iterator of a finished table and a cursor over the entries that
      were added to its builder end in the same place, at the same entry. */
  method BuiltTableIsCursor(builder: TableBuilder, model: Cursor, calls: seq<Call>) returns (iter: TwoLevelIterator)
    requires builder.Valid() && AllParse(builder.Contents()) && |builder.file| + 2 * TWO_32 < TWO_64
    requires |builder.indexBlock.buffer| + 4 * |builder.indexBlock.restarts| + |builder.lastKey| + 64 < TWO_32
    requires StandFor(builder.Contents(), model.entries) && !model.Valid() && Allowed(model.entries, |model.entries|, calls)
    modifies builder, builder.dataBlock, builder.indexBlock, model
    ensures iter.Inv() && (iter.Valid() <==> model.Valid())
    ensures iter.Valid() ==> iter.Current() == model.Current()
    ensures Ended(model.entries, model.pos) == After(model.entries, |model.entries|, calls)
  {
    ghost var kvs := builder.Contents();
    iter := FinishAndOpen(builder);
    StandUnique(kvs, iter.Entries(), model.entries);
    TwoLevelIsCursor(iter, model, calls);
  }

  // ----- A lookup -----

  lemma OrderAgrees(kvs: seq<KeyValue>, entries: seq<Entry>, k: Bytes, j: nat)
    requires StandFor(kvs, entries) && Parses(k) && j < |kvs|
    ensures InternalLess(kvs[j].key, k) <==> Less(entries[j].key, KeyOf(k))
  {
    assert StandsFor(kvs[j], entries[j]);
    KeyOfKeepsOrder(kvs[j].key, k);
  }

  lemma ScanAt(kvs: seq<KeyValue>, k: Bytes, i: nat)
    requires i <= |kvs| && (forall j :: 0 <= j < i ==> InternalLess(kvs[j].key, k))
    requires i < |kvs| ==> !InternalLess(kvs[i].key, k)
    ensures FirstFrom(kvs, k) == if i < |kvs| then Some(kvs[i]) else None
  {
    assert kvs + [] == kvs;
    if i < |kvs| {
      ScanStops(kvs, [], i, k);
    } else {
      ScanPast(kvs, [], k);
    }
  }

  /** A linear scan of the bytes stops where a seek on the entries does. */
  lemma ScanIsSeek(kvs: seq<KeyValue>, entries: seq<Entry>, k: Bytes, key: InternalKey)
    requires StandFor(kvs, entries) && Parses(k) && key == KeyOf(k)
    ensures var i := SeekIndex(entries, key); FirstFrom(kvs, k) == if i < |kvs| then Some(kvs[i]) else None
  {
    var i := SeekIndex(entries, key);
    forall j | 0 <= j < i ensures InternalLess(kvs[j].key, k) {
      OrderAgrees(kvs, entries, k, j);
    }
    if i < |kvs| {
      OrderAgrees(kvs, entries, k, i);
    }
    ScanAt(kvs, k, i);
  }

  /** LookupKey::internal_key. */
  function LookupBytes(user: Bytes, s: SequenceNumber): (k: Bytes)
    ensures Parses(k) && UserOf(k) == user && KeyOf(k) == LookupKey(Embed(user), s)
  {
    LookupTag(user, s);
    user + Fixed64(PackSequenceAndType(s, TYPE_FOR_SEEK))
  }

  lemma TagBehind(user: Bytes, tag: nat, k: Bytes)
    requires tag < TWO_64 && k == user + Fixed64(tag)
    ensures |k| >= 8 && UserOf(k) == user && TagOf(k) == tag
  {
    assert k[|k| - 8..] == Fixed64(tag) + [];
    Fixed64RoundTrip(tag, []);
  }

  lemma PackParts(s: SequenceNumber, tag: nat)
    requires tag == PackSequenceAndType(s, TYPE_FOR_SEEK)
    ensures tag < TWO_64 && tag / 256 == s && tag % 256 == 1
  {
  }

  lemma KeyFrom(k: Bytes, user: Bytes, s: SequenceNumber)
    requires |k| >= 8 && UserOf(k) == user && TagOf(k) / 256 == s && TagOf(k) % 256 == 1
    ensures Parses(k) && KeyOf(k) == LookupKey(Embed(user), s)
  {
  }

  lemma LookupTag(user: Bytes, s: SequenceNumber)
    ensures PackSequenceAndType(s, TYPE_FOR_SEEK) < TWO_64
    ensures var k := user + Fixed64(PackSequenceAndType(s, TYPE_FOR_SEEK));
      Parses(k) && UserOf(k) == user && KeyOf(k) == LookupKey(Embed(user), s)
  {
    var tag := PackSequenceAndType(s, TYPE_FOR_SEEK);
    PackParts(s, tag);
    TagBehind(user, tag, user + Fixed64(tag));
    KeyFrom(user + Fixed64(tag), user, s);
  }

  /** What a lookup keeps, as an entry of the store. */
  function Kept(r: Option<KeyValue>): Option<Entry>
    requires r.Some? ==> Parses(r.value.key)
  {
    if r.Some? then Some(EntryOf(r.value)) else None
  }

  lemma SameUserAgrees(kv: KeyValue, e: Entry, k: Bytes, user: Bytes)
    requires StandsFor(kv, e) && |k| >= 8 && UserOf(k) == user
    ensures |kv.key| >= 8 && (UserOf(kv.key) == UserOf(k) <==> e.key.user == Embed(user)) && EntryOf(kv) == e
  {
    EmbedKeepsOrder(UserOf(kv.key), user);
  }

  lemma KeptAt(kvs: seq<KeyValue>, entries: seq<Entry>, user: Bytes, k: Bytes, i: nat, found: Option<KeyValue>)
    requires StandFor(kvs, entries) && |k| >= 8 && UserOf(k) == user && i <= |kvs|
    requires found == if i < |kvs| then Some(kvs[i]) else None
    ensures var r := SameUser(found, k);
      && (r.Some? ==> Parses(r.value.key))
      && Kept(r) == if i < |entries| && entries[i].key.user == Embed(user) then Some(entries[i]) else None
  {
    if i < |kvs| {
      assert StandsFor(kvs[i], entries[i]);
      SameUserAgrees(kvs[i], entries[i], k, user);
    }
  }

  /** What is kept of a linear scan for a lookup key is what the store gets from the table. */
  lemma ScanIsTableGet(kvs: seq<KeyValue>, entries: seq<Entry>, user: Bytes, s: SequenceNumber, k: Bytes)
    requires StandFor(kvs, entries) && Parses(k) && UserOf(k) == user && KeyOf(k) == LookupKey(Embed(user), s)
    ensures var r := SameUser(FirstFrom(kvs, k), k); (r.Some? ==> Parses(r.value.key)) && TableGet(entries, Embed(user), s) == Kept(r)
  {
    ScanIsSeek(kvs, entries, k, LookupKey(Embed(user), s));
    KeptAt(kvs, entries, user, k, SeekIndex(entries, LookupKey(Embed(user), s)), FirstFrom(kvs, k));
  }

  /** The answer handed over is dropped unless it is for the user key. */
  lemma KeptIsSameUser(found: Option<KeyValue>, k: Bytes, user: Bytes)
    requires |k| >= 8 && UserOf(k) == user && (SameUser(found, k).Some? ==> Parses(SameUser(found, k).value.key))
    ensures Kept(SameUser(found, k)) ==
      if found.Some? && Parses(found.value.key) && UserOf(found.value.key) == user then Some(EntryOf(found.value)) else None
  {
  }

  /** TableCache::Get with SaveValue, on the bytes of a file: what the store's search gets from the table. */
  method GetFromTable(crc: Crc, file: Bytes, index: Bytes, filter: FilterBlockReader?, user: Bytes, s: SequenceNumber,
                      ghost t: Table, ghost indexShape: Shape, ghost shapes: seq<Shape>, ghost entries: seq<Entry>)
    returns (r: Option<Entry>)
    requires GoodTable(t) && Stored(crc, file, index, t, indexShape, shapes) && StandFor(Entries(t), entries)
    requires filter != null ==> NoFalseNegative(filter, t)
    ensures r == TableGet(entries, Embed(user), s)
  {
    var k := LookupBytes(user, s);
    var found := InternalGet(crc, file, index, filter, k, t, indexShape, shapes);
    ScanIsTableGet(Entries(t), entries, user, s, k);
    KeptIsSameUser(found, k, user);
    r := None;
    if found.Some? && Parses(found.value.key) && UserOf(found.value.key) == user {
      r := Some(EntryOf(found.value));
    }
  }
}
