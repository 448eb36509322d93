/** Building a table: data blocks, and an index whose keys separate them (table/table_builder.cc). */
module TableBuilder {
  import opened InternalKeys
  import opened Coding
  import opened BlockFormat
  import opened BlockBuilder
  import opened Comparators
  import opened TableLookup

  // ----- The table under construction -----

  /** Finished blocks with their handles and shapes; the index lacks the last one while pending. */
  datatype Parts = Parts(index: seq<KeyValue>, handles: seq<Handle>, blocks: seq<seq<KeyValue>>, shapes: seq<Shape>)

  /** The first key after block i: of the next finished block, or of the open one. */
  ghost predicate NextKeyIs(p: Parts, open: seq<KeyValue>, i: nat, key: Bytes) {
    if i + 1 < |p.blocks| then p.blocks[i + 1] != [] && key == p.blocks[i + 1][0].key else open != [] && key == open[0].key
  }

  ghost predicate IndexEntryDone(p: Parts, open: seq<KeyValue>, i: nat)
    requires i < |p.index| <= |p.handles| == |p.blocks| && p.blocks[i] != []
  {
    && p.index[i].value == EncodeHandle(p.handles[i])
    && exists key :: NextKeyIs(p, open, i, key) && Separator(LastKey(p.blocks[i]), p.index[i].key, key)
  }

  ghost predicate Written(crc: Crc, file: Bytes, p: Parts)
  {
    && |p.handles| == |p.blocks| == |p.shapes|
    && (forall i :: 0 <= i < |p.blocks| ==> InternalKeysOf(p.blocks[i]))
    && (forall i :: 0 <= i < |p.blocks| ==> BlockStored(crc, file, p.handles[i], p.shapes[i], p.blocks[i]))
    && (forall i :: 0 <= i < |p.blocks| ==> p.handles[i].offset + p.handles[i].size < |file|)
    && HandlesAscend(p.handles)
  }

  ghost predicate HandlesAscend(handles: seq<Handle>) {
    forall i, j :: 0 <= i < j < |handles| ==> handles[i].offset < handles[j].offset
  }

  /** Every finished block but a pending one has its index entry. */
  ghost predicate Building(crc: Crc, file: Bytes, p: Parts, open: seq<KeyValue>, pending: bool) {
    && Written(crc, file, p)
    && |p.index| + (if pending then 1 else 0) == |p.blocks|
    && (forall i :: 0 <= i < |p.index| ==> IndexEntryDone(p, open, i))
    && (open == [] || InternalKeysOf(open))
    && (pending ==> open == [])
    && (!pending && |p.blocks| > 0 ==> open != [])
  }

  ghost predicate SameBlocks(was: Parts, now: Parts) {
    now.blocks == was.blocks && now.handles == was.handles
  }

  /** One more block, at this offset of the file. */
  ghost predicate OneMoreBlock(was: Parts, now: Parts, offset: nat, kvs: seq<KeyValue>) {
    && now.blocks == was.blocks + [kvs] && |now.handles| == |was.handles| + 1
    && now.handles == was.handles + [now.handles[|was.handles|]] && now.handles[|was.handles|].offset == offset
  }

  /** All entries added so far. */
  ghost function Added(p: Parts, open: seq<KeyValue>): seq<KeyValue> {
    EntriesFrom(p.blocks, 0) + open
  }

  /** The key of the last entry added. */
  ghost predicate LastAdded(p: Parts, open: seq<KeyValue>, key: Bytes) {
    if open != [] then key == open[|open| - 1].key
    else |p.blocks| > 0 ==> p.blocks[|p.blocks| - 1] != [] && key == LastKey(p.blocks[|p.blocks| - 1])
  }

  lemma {:induction false} EntriesAppend(blocks: seq<seq<KeyValue>>, b: seq<KeyValue>, i: nat)
    requires i <= |blocks|
    ensures EntriesFrom(blocks + [b], i) == EntriesFrom(blocks, i) + b
    decreases |blocks| - i
  {
    if i == |blocks| {
      assert EntriesFrom(blocks + [b], i + 1) == [];
    } else {
      EntriesAppend(blocks, b, i + 1);
      assert blocks[i] + (EntriesFrom(blocks, i + 1) + b) == EntriesFrom(blocks, i) + b;
    }
  }

  lemma StillStored(crc: Crc, file: Bytes, more: Bytes, h: Handle, s: Shape, kvs: seq<KeyValue>)
    requires BlockStored(crc, file, h, s, kvs)
    ensures BlockStored(crc, file + more, h, s, kvs)
  {
    var end := h.offset + h.size;
    assert (file + more)[h.offset..end + 1] == file[h.offset..end + 1];
    assert (file + more)[h.offset..end] == file[h.offset..end];
    assert DecodeFixed32((file + more)[end + 1..]) == DecodeFixed32(file[end + 1..]) by {
      var x, y := (file + more)[end + 1..], file[end + 1..];
      assert x[0] == y[0] && x[1] == y[1] && x[2] == y[2] && x[3] == y[3];
    }
  }

  lemma StillWritten(crc: Crc, file: Bytes, more: Bytes, p: Parts)
    requires Written(crc, file, p)
    ensures Written(crc, file + more, p)
  {
    forall i | 0 <= i < |p.blocks| ensures BlockStored(crc, file + more, p.handles[i], p.shapes[i], p.blocks[i]) {
      StillStored(crc, file, more, p.handles[i], p.shapes[i], p.blocks[i]);
    }
  }

  // ----- What each step does -----

  /** The open block becomes finished block number |p.blocks|. */
  ghost function Flushed(p: Parts, h: Handle, s: Shape): Parts {
    p.(handles := p.handles + [h], blocks := p.blocks + [s.kvs], shapes := p.shapes + [s])
  }

  lemma SameThenOneMore(was: Parts, mid: Parts, now: Parts, offset: nat, kvs: seq<KeyValue>)
    requires SameBlocks(was, mid) && OneMoreBlock(mid, now, offset, kvs)
    ensures OneMoreBlock(was, now, offset, kvs) && now.blocks != []
  {
  }

  lemma FlushedIsOneMore(p: Parts, h: Handle, s: Shape)
    requires |p.handles| == |p.blocks|
    ensures OneMoreBlock(p, Flushed(p, h, s), h.offset, s.kvs)
  {
  }

  lemma FlushWritten(crc: Crc, file: Bytes, p: Parts, s: Shape, contents: Bytes)
    requires Written(crc, file, p) && IsBlock(contents, s) && InternalKeysOf(s.kvs)
    ensures Written(crc, file + RawBlock(crc, contents), Flushed(p, Handle(|file|, |contents|), s))
  {
    StillWritten(crc, file, RawBlock(crc, contents), p);
    RawBlockRoundTrip(crc, file, contents, []);
    var file' := file + RawBlock(crc, contents);
    assert file' + [] == file';
  }

  /** Index entries depend on the key that follows their block, not on where that key is kept. */
  lemma IndexEntryKept(p: Parts, open: seq<KeyValue>, q: Parts, open': seq<KeyValue>, i: nat)
    requires i < |p.index| <= |p.handles| == |p.blocks| && p.blocks[i] != [] && IndexEntryDone(p, open, i)
    requires i < |q.index| <= |q.handles| == |q.blocks| && q.index[i] == p.index[i] && q.blocks[i] == p.blocks[i] && q.handles[i] == p.handles[i]
    requires forall key :: NextKeyIs(p, open, i, key) ==> NextKeyIs(q, open', i, key)
    ensures IndexEntryDone(q, open', i)
  {
    var key :| NextKeyIs(p, open, i, key) && Separator(LastKey(p.blocks[i]), p.index[i].key, key);
    assert NextKeyIs(q, open', i, key);
  }

  lemma FlushBuilds(crc: Crc, file: Bytes, p: Parts, s: Shape, contents: Bytes, now: Bytes, q: Parts)
    requires Building(crc, file, p, s.kvs, false) && s.kvs != [] && IsBlock(contents, s)
    requires now == file + RawBlock(crc, contents) && q == Flushed(p, Handle(|file|, |contents|), s)
    ensures Building(crc, now, q, [], true)
    ensures Added(q, []) == Added(p, s.kvs)
  {
    FlushWritten(crc, file, p, s, contents);
    EntriesAppend(p.blocks, s.kvs, 0);
    FlushKeepsIndex(p, s, q);
  }

  lemma FlushKeepsIndex(p: Parts, s: Shape, q: Parts)
    requires |p.index| == |p.handles| == |p.blocks| && s.kvs != [] && (forall i :: 0 <= i < |p.blocks| ==> p.blocks[i] != [])
    requires q.index == p.index && q.blocks == p.blocks + [s.kvs] && |q.handles| == |q.blocks| && p.handles <= q.handles
    requires forall i :: 0 <= i < |p.index| ==> IndexEntryDone(p, s.kvs, i)
    ensures forall i :: 0 <= i < |q.index| ==> IndexEntryDone(q, [], i)
  {
    forall i | 0 <= i < |q.index| ensures IndexEntryDone(q, [], i) {
      IndexEntryKept(p, s.kvs, q, [], i);
    }
  }

  ghost function Indexed(p: Parts, sep: Bytes): Parts
    requires |p.handles| > 0
  {
    p.(index := p.index + [KeyValue(sep, EncodeHandle(p.handles[|p.handles| - 1]))])
  }

  /** The index entry of the pending block, once the next block's first key is known. */
  lemma IndexBuilds(crc: Crc, file: Bytes, p: Parts, sep: Bytes, first: KeyValue)
    requires Building(crc, file, p, [], true) && |first.key| >= 8
    requires Separator(LastKey(p.blocks[|p.blocks| - 1]), sep, first.key)
    ensures Building(crc, file, Indexed(p, sep), [first], false)
  {
    var q := Indexed(p, sep);
    forall i | 0 <= i < |q.index| ensures IndexEntryDone(q, [first], i) {
      if i < |p.index| {
        IndexEntryKept(p, [], q, [first], i);
      } else {
        assert NextKeyIs(q, [first], i, first.key);
      }
    }
  }

  lemma BeforeAppended(open: seq<KeyValue>, key: Bytes, i: nat)
    requires i < |open| && Ascending(InternalLess, open) && InternalLess(open[|open| - 1].key, key)
    ensures InternalLess(open[i].key, key)
  {
    if i < |open| - 1 {
      InternalTransitive(open[i].key, open[|open| - 1].key, key);
    }
  }

  lemma AppendAscends(open: seq<KeyValue>, kv: KeyValue)
    requires open == [] || InternalKeysOf(open)
    requires |kv.key| >= 8 && (open != [] ==> InternalLess(open[|open| - 1].key, kv.key))
    ensures InternalKeysOf(open + [kv])
  {
    var more := open + [kv];
    forall i, j | 0 <= i < j < |more| ensures InternalLess(more[i].key, more[j].key) {
      if j < |open| {
        assert more[i] == open[i] && more[j] == open[j];
      } else {
        BeforeAppended(open, kv.key, i);
      }
    }
  }

  lemma OpenGrows(crc: Crc, file: Bytes, p: Parts, open: seq<KeyValue>, kv: KeyValue)
    requires Building(crc, file, p, open, false) && |kv.key| >= 8
    requires open != [] ==> InternalLess(open[|open| - 1].key, kv.key)
    ensures Building(crc, file, p, open + [kv], false)
  {
    var more := open + [kv];
    AppendAscends(open, kv);
    forall i | 0 <= i < |p.index| ensures IndexEntryDone(p, more, i) {
      IndexEntryKept(p, open, p, more, i);
    }
  }

  /** The last index entry completes a good table. */
  lemma LastIndexBuilds(crc: Crc, file: Bytes, p: Parts, sep: Bytes)
    requires Building(crc, file, p, [], true) && |file| < TWO_64
    requires Follows(LastKey(p.blocks[|p.blocks| - 1]), sep)
    ensures GoodTable(Table(Indexed(p, sep).index, p.handles, p.blocks))
  {
    var t := Table(Indexed(p, sep).index, p.handles, p.blocks);
    forall i | 0 <= i < |t.blocks| ensures GoodIndexEntry(t, i) {
      if i < |p.index| {
        assert IndexEntryDone(p, [], i);
      }
    }
  }

  // ----- The builder -----

  /** What the fields of an open builder say, of the entries in its blocks. */
  ghost predicate Consistent(crc: Crc, file: Bytes, p: Parts, open: seq<KeyValue>, index: seq<KeyValue>, lastKey: Bytes, numEntries: nat,
                             pending: bool, handle: Handle) {
    && index == p.index && Building(crc, file, p, open, pending) && LastAdded(p, open, lastKey)
    && (pending ==> |p.handles| > 0 && handle == p.handles[|p.handles| - 1])
    && (numEntries == 0 <==> p.blocks == [] && open == [])
  }

  lemma GrowsConsistent(crc: Crc, file: Bytes, p: Parts, open: seq<KeyValue>, index: seq<KeyValue>, lastKey: Bytes, numEntries: nat,
                        handle: Handle, kv: KeyValue, more: seq<KeyValue>)
    requires Consistent(crc, file, p, open, index, lastKey, numEntries, false, handle) && |kv.key| >= 8
    requires (numEntries > 0 ==> InternalLess(lastKey, kv.key)) && more == open + [kv]
    ensures Consistent(crc, file, p, more, index, kv.key, numEntries + 1, false, handle)
    ensures Added(p, more) == Added(p, open) + [kv]
  {
    OpenGrows(crc, file, p, open, kv);
  }

  /** The pending block has its index entry, and the entry to come opens a new one. */
  lemma IndexConsistent(crc: Crc, file: Bytes, p: Parts, q: Parts, index: seq<KeyValue>, numEntries: nat, handle: Handle, kv: KeyValue,
                        first: seq<KeyValue>)
    requires first == [kv] && index == q.index && Building(crc, file, q, first, false) && SameBlocks(p, q)
    ensures Consistent(crc, file, q, first, index, kv.key, numEntries + 1, false, handle)
    ensures Added(q, first) == Added(p, []) + [kv]
  {
  }

  lemma FlushConsistent(crc: Crc, file: Bytes, p: Parts, s: Shape, index: seq<KeyValue>, lastKey: Bytes, numEntries: nat,
                        contents: Bytes, now: Bytes, q: Parts, old_: Handle, handle: Handle)
    requires Consistent(crc, file, p, s.kvs, index, lastKey, numEntries, false, old_) && s.kvs != [] && IsBlock(contents, s)
    requires now == file + RawBlock(crc, contents) && handle == Handle(|file|, |contents|) && q == Flushed(p, handle, s)
    ensures Consistent(crc, now, q, [], index, lastKey, numEntries, true, handle)
    ensures Added(q, []) == Added(p, s.kvs) && OneMoreBlock(p, q, |file|, s.kvs)
  {
    FlushBuilds(crc, file, p, s, contents, now, q);
    FlushedIsOneMore(p, handle, s);
  }

  class TableBuilder {
    const crc: Crc
    const blockSize: nat
    const dataBlock: BlockBuilder
    const indexBlock: BlockBuilder
    var file: Bytes
    var lastKey: Bytes
    var numEntries: nat
    var closed: bool
    var pendingIndexEntry: bool
    var pendingHandle: Handle
    ghost var parts: Parts

    constructor (crc: Crc, blockSize: nat, restartInterval: nat)
      requires restartInterval >= 1
      ensures Valid() && Contents() == [] && file == []
      ensures fresh(dataBlock) && fresh(indexBlock) && parts.blocks == [] && parts.handles == [] && dataBlock.shape.kvs == []
    {
      this.crc, this.blockSize := crc, blockSize;
      dataBlock := new BlockBuilder(restartInterval);
      indexBlock := new BlockBuilder(1);
      file, lastKey, numEntries, closed, pendingIndexEntry, pendingHandle := [], [], 0, false, false, Handle(0, 0);
      parts := Parts([], [], [], []);
    }

    /** Room for the restart array of a block. */
    static ghost predicate Finishable(b: BlockBuilder)
      reads b
    {
      |b.buffer| + 4 * |b.restarts| + 8 < TWO_32
    }

    ghost predicate Blocks()
      reads this, dataBlock, indexBlock
    {
      && dataBlock != indexBlock && dataBlock.Valid() && indexBlock.Valid()
      && !dataBlock.finished && !indexBlock.finished && Finishable(dataBlock) && Finishable(indexBlock)
    }

    ghost predicate Valid()
      reads this, dataBlock, indexBlock
    {
      && !closed && Blocks()
      && Consistent(crc, file, parts, dataBlock.shape.kvs, indexBlock.shape.kvs, lastKey, numEntries, pendingIndexEntry, pendingHandle)
    }

    /** Every entry added, in order. */
    ghost function Contents(): seq<KeyValue>
      reads this, dataBlock
    {
      Added(parts, dataBlock.shape.kvs)
    }

    /** Both blocks have room for the entry and for one more index entry. */
    ghost predicate Room(key: Bytes, value: Bytes)
      reads this, dataBlock, indexBlock
    {
      && |dataBlock.buffer| + 4 * |dataBlock.restarts| + |key| + |value| + 64 < TWO_32
      && |indexBlock.buffer| + 4 * |indexBlock.restarts| + |lastKey| + 64 < TWO_32
      && |file| + 2 * TWO_32 < TWO_64
    }

    /** Adds an entry after all others; the block before it gets its index entry now that the key
        after it is known, and a block grown to block_size is written out. */
    method Add(key: Bytes, value: Bytes)
      requires Valid() && |key| >= 8 && Room(key, value)
      requires numEntries > 0 ==> InternalLess(lastKey, key)
      modifies this, dataBlock, indexBlock
      ensures Valid() && Contents() == old(Contents()) + [KeyValue(key, value)]
      ensures !pendingIndexEntry ==> file == old(file) && SameBlocks(old(parts), parts)
      ensures !pendingIndexEntry ==> dataBlock.shape.kvs == old(dataBlock.shape.kvs) + [KeyValue(key, value)]
      ensures pendingIndexEntry ==> dataBlock.shape.kvs == []
      ensures pendingIndexEntry ==> OneMoreBlock(old(parts), parts, |old(file)|, old(dataBlock.shape.kvs) + [KeyValue(key, value)])
    {
      ghost var was, offset, kvs := parts, |file|, dataBlock.shape.kvs + [KeyValue(key, value)];
      AddEntry(key, value);
      ghost var mid := parts;
      var estimatedBlockSize := |dataBlock.buffer| + 4 * |dataBlock.restarts| + 4;
      if estimatedBlockSize >= blockSize {
        Flush();
        SameThenOneMore(was, mid, parts, offset, kvs);
      }
    }

    method AddEntry(key: Bytes, value: Bytes)
      requires Valid() && |key| >= 8 && Room(key, value)
      requires numEntries > 0 ==> InternalLess(lastKey, key)
      modifies this`lastKey, this`pendingIndexEntry, this`parts, this`numEntries, dataBlock, indexBlock
      ensures Valid() && Contents() == old(Contents()) + [KeyValue(key, value)] && !pendingIndexEntry
      ensures SameBlocks(old(parts), parts) && dataBlock.shape.kvs == old(dataBlock.shape.kvs) + [KeyValue(key, value)]
    {
      if pendingIndexEntry {
        AddToNewBlock(key, value);
      } else {
        AddToOpenBlock(key, value);
      }
    }

    method AddToNewBlock(key: Bytes, value: Bytes)
      requires Valid() && pendingIndexEntry && |key| >= 8 && Room(key, value) && InternalLess(lastKey, key)
      modifies this`lastKey, this`pendingIndexEntry, this`parts, this`numEntries, dataBlock, indexBlock
      ensures Valid() && Contents() == old(Contents()) + [KeyValue(key, value)] && !pendingIndexEntry
      ensures SameBlocks(old(parts), parts) && dataBlock.shape.kvs == old(dataBlock.shape.kvs) + [KeyValue(key, value)]
    {
      PendingFacts();
      ghost var was, first := parts, dataBlock.shape.kvs + [KeyValue(key, value)];
      AddIndexEntry(key, value);
      IndexConsistent(crc, file, was, parts, indexBlock.shape.kvs, numEntries, pendingHandle, KeyValue(key, value), first);
      AddToBlock(key, value, first);
    }

    method AddToOpenBlock(key: Bytes, value: Bytes)
      requires Valid() && !pendingIndexEntry && |key| >= 8 && Room(key, value)
      requires numEntries > 0 ==> InternalLess(lastKey, key)
      modifies this`lastKey, this`numEntries, dataBlock
      ensures Valid() && Contents() == old(Contents()) + [KeyValue(key, value)]
      ensures dataBlock.shape.kvs == old(dataBlock.shape.kvs) + [KeyValue(key, value)]
    {
      ghost var more := dataBlock.shape.kvs + [KeyValue(key, value)];
      GrowsConsistent(crc, file, parts, dataBlock.shape.kvs, indexBlock.shape.kvs, lastKey, numEntries, pendingHandle, KeyValue(key, value), more);
      AddToBlock(key, value, more);
    }

    /** The index entry of the pending block: a key between its last key and the new one. */
    method AddIndexEntry(key: Bytes, ghost value: Bytes)
      requires Valid() && pendingIndexEntry && |key| >= 8 && InternalLess(lastKey, key)
      requires |indexBlock.buffer| + 4 * |indexBlock.restarts| + |lastKey| + 64 < TWO_32 && |file| < TWO_64
      modifies this`lastKey, this`pendingIndexEntry, this`parts, indexBlock
      ensures Blocks() && indexBlock.shape.kvs == parts.index && dataBlock.shape.kvs == [] && !pendingIndexEntry
      ensures Building(crc, file, parts, [KeyValue(key, value)], false) && SameBlocks(old(parts), parts)
    {
      PendingFacts();
      var separator := ShortestInternalSeparator(lastKey, key);
      IndexBuilds(crc, file, parts, separator, KeyValue(key, value));
      AddPending(separator);
    }

    /** index_block.Add(last_key, handle_encoding), for the key last_key was changed to. */
    method AddPending(indexKey: Bytes)
      requires Blocks() && indexBlock.shape.kvs == parts.index && |parts.handles| > 0
      requires pendingHandle == parts.handles[|parts.handles| - 1] && pendingHandle.offset < TWO_64 && pendingHandle.size < TWO_64
      requires |indexBlock.buffer| + 4 * |indexBlock.restarts| + |indexKey| + 64 < TWO_32
      modifies this`lastKey, this`pendingIndexEntry, this`parts, indexBlock
      ensures Blocks() && indexBlock.shape.kvs == parts.index && !pendingIndexEntry && lastKey == indexKey
      ensures parts == Indexed(old(parts), indexKey)
    {
      lastKey := indexKey;
      var handleEncoding := EncodeHandle(pendingHandle);
      HandleLength(pendingHandle);
      indexBlock.Add(lastKey, handleEncoding);
      pendingIndexEntry := false;
      parts := Indexed(parts, lastKey);
    }

    lemma PendingFacts()
      requires Valid() && pendingIndexEntry && |file| < TWO_64
      ensures |parts.blocks| == |parts.handles| > 0 && parts.blocks[|parts.blocks| - 1] != [] && lastKey == LastKey(parts.blocks[|parts.blocks| - 1])
      ensures |lastKey| >= 8 && pendingHandle.offset < TWO_64 && pendingHandle.size < TWO_64
      ensures dataBlock.shape.kvs == [] && Building(crc, file, parts, [], true)
    {
      var b := parts.blocks[|parts.blocks| - 1];
      assert InternalKeysOf(b);
      assert b[|b| - 1] in b;
    }

    method AddToBlock(key: Bytes, value: Bytes, ghost more: seq<KeyValue>)
      requires !closed && Blocks()
      requires more == dataBlock.shape.kvs + [KeyValue(key, value)]
      requires Consistent(crc, file, parts, more, indexBlock.shape.kvs, key, numEntries + 1, pendingIndexEntry, pendingHandle)
      requires |dataBlock.buffer| + 4 * |dataBlock.restarts| + |key| + |value| + 64 < TWO_32
      modifies this`lastKey, this`numEntries, dataBlock
      ensures Valid() && dataBlock.shape.kvs == more
    {
      lastKey := key;
      numEntries := numEntries + 1;
      dataBlock.Add(key, value);
    }

    /** Writes the open block, if it has entries; its index entry is now pending. */
    method Flush()
      requires Valid()
      modifies this, dataBlock
      ensures Valid() && Contents() == old(Contents()) && dataBlock.shape.kvs == []
      ensures lastKey == old(lastKey) && |file| <= |old(file)| + TWO_32 + BLOCK_TRAILER_SIZE
      ensures pendingIndexEntry <==> parts.blocks != []
      ensures old(dataBlock.shape.kvs) == [] ==> file == old(file) && parts == old(parts)
      ensures old(dataBlock.shape.kvs) != [] ==> OneMoreBlock(old(parts), parts, |old(file)|, old(dataBlock.shape.kvs))
    {
      BufferHoldsEntries();
      if |dataBlock.buffer| > 0 {
        WriteDataBlock();
      }
    }

    method WriteDataBlock()
      requires Valid() && dataBlock.shape.kvs != []
      modifies this`file, this`pendingHandle, this`parts, this`pendingIndexEntry, dataBlock
      ensures Valid() && Contents() == old(Contents()) && dataBlock.shape.kvs == [] && pendingIndexEntry && parts.blocks != []
      ensures |file| <= |old(file)| + TWO_32 + BLOCK_TRAILER_SIZE
      ensures OneMoreBlock(old(parts), parts, |old(file)|, old(dataBlock.shape.kvs))
    {
      ghost var s, was, before, handle := dataBlock.shape, parts, file, pendingHandle;
      NotPending();
      var contents := dataBlock.Finish();
      PutBlock(contents, s);
      FlushConsistent(crc, before, was, s, indexBlock.shape.kvs, lastKey, numEntries, contents, file, parts, handle, pendingHandle);
    }

    lemma NotPending()
      requires Valid() && dataBlock.shape.kvs != []
      ensures !pendingIndexEntry
    {
    }

    method PutBlock(contents: Bytes, ghost s: Shape)
      requires dataBlock != indexBlock && dataBlock.Valid()
      modifies this`file, this`pendingHandle, this`parts, this`pendingIndexEntry, dataBlock
      ensures dataBlock.Valid() && dataBlock.Empty() && Finishable(dataBlock)
      ensures pendingHandle == Handle(|old(file)|, |contents|) && pendingIndexEntry
      ensures file == old(file) + RawBlock(crc, contents) && parts == Flushed(old(parts), pendingHandle, s)
    {
      pendingHandle := Handle(|file|, |contents|);
      parts := Flushed(parts, pendingHandle, s);
      file := file + RawBlock(crc, contents);
      dataBlock.Reset();
      pendingIndexEntry := true;
    }

    /** A block builder is empty exactly when its buffer is. */
    lemma BufferHoldsEntries()
      requires Blocks()
      ensures |dataBlock.buffer| > 0 <==> dataBlock.shape.kvs != []
    {
      OffsetsAscend(dataBlock.buffer, dataBlock.shape, 0, |dataBlock.shape.kvs|);
    }

    /** The last block's index entry: any key not below its last one. */
    method AddLastIndexEntry()
      requires Valid() && pendingIndexEntry && |file| < TWO_64
      requires |indexBlock.buffer| + 4 * |indexBlock.restarts| + |lastKey| + 64 < TWO_32
      modifies this`lastKey, this`pendingIndexEntry, this`parts, indexBlock
      ensures Blocks() && indexBlock.shape.kvs == parts.index && Written(crc, file, parts)
      ensures SameBlocks(old(parts), parts) && GoodTable(Table(parts.index, parts.handles, parts.blocks))
    {
      PendingFacts();
      var successor := ShortInternalSuccessor(lastKey);
      ghost var done := Indexed(parts, successor);
      LastIndexBuilds(crc, file, parts, successor);
      SealIndex(successor, done);
    }

    method SealIndex(indexKey: Bytes, ghost done: Parts)
      requires Blocks() && indexBlock.shape.kvs == parts.index && |parts.handles| > 0 && Written(crc, file, parts)
      requires pendingHandle == parts.handles[|parts.handles| - 1] && pendingHandle.offset < TWO_64 && pendingHandle.size < TWO_64
      requires |indexBlock.buffer| + 4 * |indexBlock.restarts| + |indexKey| + 64 < TWO_32
      requires done == Indexed(parts, indexKey)
      modifies this`lastKey, this`pendingIndexEntry, this`parts, indexBlock
      ensures Blocks() && parts == done && indexBlock.shape.kvs == parts.index && Written(crc, file, parts)
    {
      AddPending(indexKey);
    }

    /** Flushes, completes the index and writes it.  Looking any key up in the result is a linear
        scan of the entries added. */
    method Finish() returns (index: Bytes, ghost t: Table, ghost indexShape: Shape)
      requires Valid() && |indexBlock.buffer| + 4 * |indexBlock.restarts| + |lastKey| + 64 < TWO_32
      requires |file| + 2 * TWO_32 < TWO_64
      modifies this, dataBlock, indexBlock
      ensures closed && GoodTable(t) && Entries(t) == old(Contents()) && HandlesAscend(t.handles)
      ensures Stored(crc, file, index, t, indexShape, parts.shapes)
      ensures old(dataBlock.shape.kvs) == [] ==> t.blocks == old(parts.blocks) && t.handles == old(parts.handles)
    {
      Flush();
      ghost var p := parts;
      index, t, indexShape := FinishIndex();
      EntriesOf(p, t);
    }

    method FinishIndex() returns (index: Bytes, ghost t: Table, ghost indexShape: Shape)
      requires Valid() && dataBlock.shape.kvs == [] && |file| < TWO_64
      requires |indexBlock.buffer| + 4 * |indexBlock.restarts| + |lastKey| + 64 < TWO_32
      modifies this, indexBlock
      ensures closed && GoodTable(t) && t.blocks == old(parts.blocks) && t.handles == old(parts.handles) && HandlesAscend(t.handles)
      ensures Stored(crc, file, index, t, indexShape, parts.shapes)
    {
      CompleteIndex();
      index, t, indexShape := WriteIndex();
    }

    /** After a flush: the index entry of the last block, if there is any block. */
    method CompleteIndex()
      requires Valid() && dataBlock.shape.kvs == [] && |file| < TWO_64
      requires |indexBlock.buffer| + 4 * |indexBlock.restarts| + |lastKey| + 64 < TWO_32
      modifies this`lastKey, this`pendingIndexEntry, this`parts, indexBlock
      ensures Blocks() && indexBlock.shape.kvs == parts.index && Written(crc, file, parts)
      ensures SameBlocks(old(parts), parts) && GoodTable(Table(parts.index, parts.handles, parts.blocks))
    {
      if pendingIndexEntry {
        AddLastIndexEntry();
      } else {
        NoBlocksIsGood(crc, file, parts);
      }
    }

    method WriteIndex() returns (index: Bytes, ghost t: Table, ghost indexShape: Shape)
      requires Blocks() && indexBlock.shape.kvs == parts.index && Written(crc, file, parts)
      requires GoodTable(Table(parts.index, parts.handles, parts.blocks))
      modifies this`closed, this`file, indexBlock
      ensures closed && t == Table(parts.index, parts.handles, parts.blocks) && HandlesAscend(t.handles)
      ensures Stored(crc, file, index, t, indexShape, parts.shapes)
    {
      closed := true;
      t := Table(parts.index, parts.handles, parts.blocks);
      indexShape := indexBlock.shape;
      index := indexBlock.Finish();
      StillWritten(crc, file, RawBlock(crc, index), parts);
      file := file + RawBlock(crc, index);
    }
  }

  lemma EntriesOf(p: Parts, t: Table)
    requires t.blocks == p.blocks
    ensures Entries(t) == Added(p, [])
  {
  }

  lemma NoBlocksIsGood(crc: Crc, file: Bytes, p: Parts)
    requires Building(crc, file, p, [], false)
    ensures GoodTable(Table(p.index, p.handles, p.blocks))
  {
  }

  lemma HandleLength(h: Handle)
    requires h.offset < TWO_64 && h.size < TWO_64
    ensures |EncodeHandle(h)| <= 20
  {
    assert Pow128(5) == 128 * (128 * (128 * (128 * (128 * Pow128(0)))));
    assert Pow128(10) == 128 * (128 * (128 * (128 * (128 * Pow128(5)))));
    VarintSize(h.offset, 10);
    VarintSize(h.size, 10);
  }
}
