/** A table with a filter block: every entry's user key is in the filter of its block, so a lookup that asks
    the filter first finds what it would find without (table/table_builder.cc, table/table.cc). */
module TableFilter {
  import opened InternalKeys
  import opened VersionSearch
  import opened Coding
  import opened BlockFormat
  import opened Bloom
  import opened FilterBlock
  import opened Comparators
  import opened TableLookup
  import opened TableBuilder
  import opened IteratorStack
  import opened TableIterator

  /** The user keys of these entries were added to the filter of a block at this offset. */
  ghost predicate KeysAdded(kvs: seq<KeyValue>, offset: nat, added: seq<AddedKey>) {
    forall kv :: kv in kvs && |kv.key| >= 8 ==> AddedKey(FilterIndex(offset), UserOf(kv.key)) in added
  }

  /** The finished blocks at their offsets, and the open one at the end of the file. */
  ghost predicate AllAdded(p: Parts, open: seq<KeyValue>, fileSize: nat, added: seq<AddedKey>) {
    && |p.handles| == |p.blocks| && KeysAdded(open, fileSize, added)
    && forall i :: 0 <= i < |p.blocks| ==> KeysAdded(p.blocks[i], p.handles[i].offset, added)
  }

  lemma KeyAdded(kvs: seq<KeyValue>, kv: KeyValue, offset: nat, added: seq<AddedKey>)
    requires |kv.key| >= 8 && KeysAdded(kvs, offset, added)
    ensures KeysAdded(kvs + [kv], offset, added + [AddedKey(FilterIndex(offset), UserOf(kv.key))])
  {
  }

  lemma MoreAdded(kvs: seq<KeyValue>, offset: nat, added: seq<AddedKey>, a: AddedKey)
    requires KeysAdded(kvs, offset, added)
    ensures KeysAdded(kvs, offset, added + [a])
  {
  }

  /** An entry joins the open block. */
  lemma EntryAdded(p: Parts, q: Parts, open: seq<KeyValue>, kv: KeyValue, fileSize: nat, added: seq<AddedKey>)
    requires |kv.key| >= 8 && AllAdded(p, open, fileSize, added) && SameBlocks(p, q)
    ensures AllAdded(q, open + [kv], fileSize, added + [AddedKey(FilterIndex(fileSize), UserOf(kv.key))])
  {
    KeyAdded(open, kv, fileSize, added);
    forall i | 0 <= i < |q.blocks| ensures KeysAdded(q.blocks[i], q.handles[i].offset, added + [AddedKey(FilterIndex(fileSize), UserOf(kv.key))]) {
      MoreAdded(p.blocks[i], p.handles[i].offset, added, AddedKey(FilterIndex(fileSize), UserOf(kv.key)));
    }
  }

  /** The open block is written where the file ended. */
  lemma BlockWritten(p: Parts, q: Parts, open: seq<KeyValue>, fileSize: nat, fileSize': nat, added: seq<AddedKey>)
    requires AllAdded(p, open, fileSize, added) && OneMoreBlock(p, q, fileSize, open)
    ensures AllAdded(q, [], fileSize', added)
  {
    forall i | 0 <= i < |q.blocks| ensures KeysAdded(q.blocks[i], q.handles[i].offset, added) {
      assert i < |p.blocks| ==> KeysAdded(p.blocks[i], p.handles[i].offset, added);
    }
  }

  lemma IndexGrows(a: nat, b: nat)
    requires a <= b
    ensures FilterIndex(a) <= FilterIndex(b)
  {
  }

  lemma NothingAdded(p: Parts, added: seq<AddedKey>)
    requires p.blocks == [] && p.handles == []
    ensures AllAdded(p, [], 0, added) && FilterIndex(0) == 0
  {
  }

  class FilteredTableBuilder {
    const table: TableBuilder
    const filter: FilterBlockBuilder

    constructor (crc: Crc, blockSize: nat, restartInterval: nat, policy: BloomFilterPolicy)
      requires restartInterval >= 1 && 1 <= policy.k <= 30
      ensures Valid() && table.Contents() == [] && filter.policy == policy
      ensures fresh(table) && fresh(table.dataBlock) && fresh(table.indexBlock) && fresh(filter)
    {
      table := new TableBuilder(crc, blockSize, restartInterval);
      filter := new FilterBlockBuilder(policy);
      new;
      Begin();
    }

    method Begin()
      requires table.Valid() && filter.Valid() && filter.filterOffsets == []
      requires table.parts.blocks == [] && table.parts.handles == [] && table.dataBlock.shape.kvs == [] && table.file == []
      modifies filter
      ensures Valid()
    {
      NothingAdded(table.parts, filter.added);
      filter.StartBlock(0);
      NothingAdded(table.parts, filter.added);
    }

    ghost predicate Valid()
      reads this, table, table.dataBlock, table.indexBlock, filter
    {
      && table.Valid() && filter.Valid() && |filter.filterOffsets| == FilterIndex(|table.file|)
      && AllAdded(table.parts, table.dataBlock.shape.kvs, |table.file|, filter.added)
    }

    /** The key goes to the filter of the open block; a block that is full is written, and the filter goes on
        with the next one. */
    method Add(key: Bytes, value: Bytes)
      requires Valid() && |key| >= 8 && table.Room(key, value)
      requires table.numEntries > 0 ==> InternalLess(table.lastKey, key)
      modifies table, table.dataBlock, table.indexBlock, filter
      ensures Valid() && table.Contents() == old(table.Contents()) + [KeyValue(key, value)]
    {
      ghost var was, size, open, added := table.parts, |table.file|, table.dataBlock.shape.kvs, filter.added;
      filter.AddKey(UserOf(key));
      table.Add(key, value);
      Proceed(was, size, open, KeyValue(key, value), added);
    }

    /** The entry is in both; if it filled its block, the next one begins. */
    method Proceed(ghost was: Parts, ghost size: nat, ghost open: seq<KeyValue>, ghost kv: KeyValue, ghost added: seq<AddedKey>)
      requires table.Valid() && filter.Valid() && |kv.key| >= 8 && |filter.filterOffsets| == FilterIndex(size)
      requires AllAdded(was, open, size, added) && filter.added == added + [AddedKey(FilterIndex(size), UserOf(kv.key))]
      requires !table.pendingIndexEntry ==>
        |table.file| == size && SameBlocks(was, table.parts) && table.dataBlock.shape.kvs == open + [kv]
      requires table.pendingIndexEntry ==> table.dataBlock.shape.kvs == [] && OneMoreBlock(was, table.parts, size, open + [kv])
      modifies filter
      ensures Valid()
    {
      EntryAdded(was, was, open, kv, size, added);
      if table.pendingIndexEntry {
        Continue(was, size, open + [kv]);
      } else {
        EntryAdded(was, table.parts, open, kv, size, added);
      }
    }

    /** After a block is written, keys go to the filter of the next one. */
    method Continue(ghost was: Parts, ghost size: nat, ghost open: seq<KeyValue>)
      requires table.Valid() && filter.Valid() && |filter.filterOffsets| == FilterIndex(size)
      requires AllAdded(was, open, size, filter.added) && OneMoreBlock(was, table.parts, size, open) && table.dataBlock.shape.kvs == []
      modifies filter
      ensures Valid() && filter.added == old(filter.added)
      ensures |filter.result| + |filter.start| * filter.policy.bitsPerKey
        <= |old(filter.result)| + |old(filter.start)| * filter.policy.bitsPerKey + 66
    {
      BlockWritten(was, table.parts, open, size, |table.file|, filter.added);
      IndexGrows(size, |table.file|);
      filter.StartBlock(|table.file|);
    }

    method Flush()
      requires Valid()
      modifies table, table.dataBlock, filter
      ensures Valid() && table.Contents() == old(table.Contents()) && table.dataBlock.shape.kvs == [] && table.lastKey == old(table.lastKey)
      ensures |table.file| <= |old(table.file)| + TWO_32 + BLOCK_TRAILER_SIZE
      ensures |filter.result| + |filter.start| * filter.policy.bitsPerKey
        <= |old(filter.result)| + |old(filter.start)| * filter.policy.bitsPerKey + 66
    {
      ghost var was, size, open := table.parts, |table.file|, table.dataBlock.shape.kvs;
      table.BufferHoldsEntries();
      if |table.dataBlock.buffer| > 0 {
        table.Flush();
        Continue(was, size, open);
      }
    }

    /** What is left is written, then the filter block, then the index; the reader of the filter block never
        rules out a block that has the key. */
    method Finish() returns (index: Bytes, reader: FilterBlockReader, ghost t: Table, ghost indexShape: Shape)
      requires Valid() && |table.indexBlock.buffer| + 4 * |table.indexBlock.restarts| + |table.lastKey| + 64 < TWO_32
      requires |table.file| + 4 * TWO_32 < TWO_64
      requires |filter.result| + |filter.start| * filter.policy.bitsPerKey
        + 4 * FilterIndex(|table.file| + TWO_32 + BLOCK_TRAILER_SIZE) + 256 < TWO_32
      modifies table, table.dataBlock, table.indexBlock, filter
      ensures GoodTable(t) && Entries(t) == old(table.Contents()) && HandlesAscend(t.handles)
      ensures Stored(table.crc, table.file, index, t, indexShape, table.parts.shapes)
      ensures fresh(reader) && NoFalseNegative(reader, t)
    {
      ghost var limit := |table.file| + TWO_32 + BLOCK_TRAILER_SIZE;
      Flush();
      IndexGrows(|table.file|, limit);
      index, reader, t, indexShape := FinishFlushed();
    }

    method FinishFlushed() returns (index: Bytes, reader: FilterBlockReader, ghost t: Table, ghost indexShape: Shape)
      requires Valid() && table.dataBlock.shape.kvs == [] && |table.file| + 2 * TWO_32 < TWO_64
      requires |table.indexBlock.buffer| + 4 * |table.indexBlock.restarts| + |table.lastKey| + 64 < TWO_32
      requires |filter.result| + |filter.start| * filter.policy.bitsPerKey + 4 * |filter.filterOffsets| + 128 < TWO_32
      modifies table, table.dataBlock, table.indexBlock, filter
      ensures GoodTable(t) && Entries(t) == old(table.Contents()) && HandlesAscend(t.handles)
      ensures Stored(table.crc, table.file, index, t, indexShape, table.parts.shapes)
      ensures fresh(reader) && NoFalseNegative(reader, t)
    {
      ghost var done, size := table.parts, |table.file|;
      reader := FinishFilter();
      index, t, indexShape := table.Finish();
      EveryKeyIsThere(done, size, filter.added, reader, t);
    }

    method FinishFilter() returns (reader: FilterBlockReader)
      requires filter.Valid()
      requires |filter.result| + |filter.start| * filter.policy.bitsPerKey + 4 * |filter.filterOffsets| + 128 < TWO_32
      modifies filter
      ensures fresh(reader) && filter.added == old(filter.added)
      ensures forall a: AddedKey, offset: nat :: a in filter.added && a.index == FilterIndex(offset) ==> reader.Has(offset, a.key)
    {
      var contents := filter.Finish();
      reader := new FilterBlockReader(filter.policy, contents, filter.result, filter.filterOffsets);
    }
  }

  lemma EveryKeyIsThere(p: Parts, size: nat, added: seq<AddedKey>, reader: FilterBlockReader, t: Table)
    requires AllAdded(p, [], size, added)
    requires t.blocks == p.blocks && t.handles == p.handles
    requires forall a: AddedKey, offset: nat :: a in added && a.index == FilterIndex(offset) ==> reader.Has(offset, a.key)
    ensures NoFalseNegative(reader, t)
  {
    forall i, kv | 0 <= i < |t.blocks| && kv in t.blocks[i] && |kv.key| >= 8 ensures reader.Has(t.handles[i].offset, UserOf(kv.key)) {
      assert KeysAdded(p.blocks[i], p.handles[i].offset, added);
    }
  }

  /** A lookup in a finished table, through its filter block: what the store gets from the entries added. */
  method FinishAndGet(builder: FilteredTableBuilder, user: Bytes, s: SequenceNumber, ghost entries: seq<Entry>) returns (r: Option<Entry>)
    requires builder.Valid() && StandFor(builder.table.Contents(), entries)
    requires |builder.table.indexBlock.buffer| + 4 * |builder.table.indexBlock.restarts| + |builder.table.lastKey| + 64 < TWO_32
    requires |builder.table.file| + 4 * TWO_32 < TWO_64
    requires |builder.filter.result| + |builder.filter.start| * builder.filter.policy.bitsPerKey
      + 4 * FilterIndex(|builder.table.file| + TWO_32 + BLOCK_TRAILER_SIZE) + 256 < TWO_32
    modifies builder.table, builder.table.dataBlock, builder.table.indexBlock, builder.filter
    ensures r == TableGet(entries, Embed(user), s)
  {
    ghost var t, indexShape;
    var index, reader;
    index, reader, t, indexShape := builder.Finish();
    r := GetFromTable(builder.table.crc, builder.table.file, index, reader, user, s, t, indexShape, builder.table.parts.shapes, entries);
  }
}
