/** Looking up a key through a table's index, and through a linear scan (table/table.cc, table/format.cc). */
module TableLookup {
  import opened InternalKeys
  import opened Coding
  import opened BlockFormat
  import opened BlockIter
  import opened Comparators
  import opened FilterBlock

  // ----- Handles and raw blocks -----

  datatype Handle = Handle(offset: nat, size: nat)

  function EncodeHandle(h: Handle): Bytes {
    Varint(h.offset) + Varint(h.size)
  }

  /** BlockHandle::DecodeFrom; bytes after the two numbers are allowed. */
  function DecodeHandle(s: Bytes): Option<Handle> {
    match GetVarint64(s)
    case NoVarint => None
    case Parsed(offset, n) =>
      match GetVarint64(s[n..])
      case NoVarint => None
      case Parsed(size, _) => Some(Handle(offset, size))
  }

  lemma HandleRoundTrip(h: Handle)
    requires h.offset < TWO_64 && h.size < TWO_64
    ensures DecodeHandle(EncodeHandle(h)) == Some(h)
  {
    var s := EncodeHandle(h);
    Varint64RoundTrip(h.offset, Varint(h.size));
    assert s[|Varint(h.offset)|..] == Varint(h.size) + [];
    Varint64RoundTrip(h.size, []);
  }

  const NO_COMPRESSION: byte := 0
  const BLOCK_TRAILER_SIZE: nat := 5

  /** WriteRawBlock: contents, type and masked checksum of both. */
  function RawBlock(crc: Crc, contents: Bytes): (r: Bytes)
    ensures |r| == |contents| + BLOCK_TRAILER_SIZE
  {
    contents + [NO_COMPRESSION] + Fixed32(Mask(crc(contents + [NO_COMPRESSION])))
  }

  /** ReadBlock with checksums verified: nothing when the block is cut off or damaged. */
  function ReadBlock(crc: Crc, file: Bytes, h: Handle): Option<Bytes> {
    if h.offset + h.size + BLOCK_TRAILER_SIZE > |file| then None
    else
      var end := h.offset + h.size;
      if Unmask(DecodeFixed32(file[end + 1..])) != crc(file[h.offset..end + 1]) then None
      else if file[end] != NO_COMPRESSION then None
      else Some(file[h.offset..end])
  }

  lemma RawBlockRoundTrip(crc: Crc, front: Bytes, contents: Bytes, rest: Bytes)
    ensures ReadBlock(crc, front + RawBlock(crc, contents) + rest, Handle(|front|, |contents|)) == Some(contents)
  {
    var file := front + RawBlock(crc, contents) + rest;
    var end := |front| + |contents|;
    var stored := Mask(crc(contents + [NO_COMPRESSION]));
    assert file[end + 1..] == Fixed32(stored) + rest;
    Fixed32RoundTrip(stored, rest);
    MaskRoundTrip(crc(contents + [NO_COMPRESSION]));
    assert file[|front|..end + 1] == contents + [NO_COMPRESSION];
    assert file[|front|..end] == contents;
  }

  // ----- The logical table -----

  /** Index entries, and the entries of the data block each one names. */
  datatype Table = Table(index: seq<KeyValue>, handles: seq<Handle>, blocks: seq<seq<KeyValue>>)

  function LastKey(b: seq<KeyValue>): Bytes
    requires b != []
  {
    b[|b| - 1].key
  }

  ghost predicate InternalKeysOf(b: seq<KeyValue>) {
    b != [] && Ascending(InternalLess, b) && forall kv :: kv in b ==> |kv.key| >= 8
  }

  /** What the last index key must be. */
  ghost predicate Follows(last: Bytes, key: Bytes) {
    |key| >= 8 && !InternalLess(key, last) && (Parses(last) ==> Parses(key))
  }

  /** Index entry i names block i, and its key separates the block from the next. */
  ghost predicate GoodIndexEntry(t: Table, i: nat)
    requires i < |t.index| == |t.handles| == |t.blocks| && forall j :: 0 <= j < |t.blocks| ==> t.blocks[j] != []
  {
    && t.index[i].value == EncodeHandle(t.handles[i]) && t.handles[i].offset < TWO_64 && t.handles[i].size < TWO_64
    && if i + 1 < |t.blocks| then Separator(LastKey(t.blocks[i]), t.index[i].key, t.blocks[i + 1][0].key)
       else Follows(LastKey(t.blocks[i]), t.index[i].key)
  }

  ghost predicate GoodTable(t: Table) {
    && |t.index| == |t.handles| == |t.blocks|
    && (forall i :: 0 <= i < |t.blocks| ==> InternalKeysOf(t.blocks[i]))
    && (forall i :: 0 <= i < |t.blocks| ==> GoodIndexEntry(t, i))
  }

  /** The entries of blocks i and on, in order. */
  function EntriesFrom(blocks: seq<seq<KeyValue>>, i: nat): seq<KeyValue>
    requires i <= |blocks|
    decreases |blocks| - i
  {
    if i == |blocks| then [] else blocks[i] + EntriesFrom(blocks, i + 1)
  }

  function Entries(t: Table): seq<KeyValue> {
    EntriesFrom(t.blocks, 0)
  }

  /** The linear scan: the first entry at or after k. */
  function FirstFrom(kvs: seq<KeyValue>, k: Bytes): Option<KeyValue> {
    if kvs == [] then None
    else if !InternalLess(kvs[0].key, k) then Some(kvs[0])
    else FirstFrom(kvs[1..], k)
  }

  /** What the caller of a lookup keeps: an entry of the same user key. */
  function SameUser(r: Option<KeyValue>, k: Bytes): Option<KeyValue>
    requires |k| >= 8
  {
    if r.Some? && |r.value.key| >= 8 && UserOf(r.value.key) == UserOf(k) then r else None
  }

  lemma {:induction false} ScanPast(a: seq<KeyValue>, b: seq<KeyValue>, k: Bytes)
    requires forall i :: 0 <= i < |a| ==> InternalLess(a[i].key, k)
    ensures FirstFrom(a + b, k) == FirstFrom(b, k)
  {
    if a == [] {
      assert a + b == b;
    } else {
      assert (a + b)[1..] == a[1..] + b;
      ScanPast(a[1..], b, k);
    }
  }

  lemma ScanStops(a: seq<KeyValue>, b: seq<KeyValue>, j: nat, k: Bytes)
    requires j < |a| && (forall i :: 0 <= i < j ==> InternalLess(a[i].key, k)) && !InternalLess(a[j].key, k)
    ensures FirstFrom(a + b, k) == Some(a[j])
  {
    assert a + b == a[..j] + (a[j..] + b);
    ScanPast(a[..j], a[j..] + b, k);
  }

  /** A block whose index key is below k has only entries below k. */
  lemma BlockBelow(t: Table, i: nat, k: Bytes)
    requires GoodTable(t) && i < |t.blocks| && InternalLess(t.index[i].key, k)
    ensures forall j :: 0 <= j < |t.blocks[i]| ==> InternalLess(t.blocks[i][j].key, k)
  {
    InternalIsStrictOrder();
    assert GoodIndexEntry(t, i) && InternalKeysOf(t.blocks[i]);
    var b := t.blocks[i];
    forall j | 0 <= j < |b| ensures InternalLess(b[j].key, k) {
      assert j == |b| - 1 || InternalLess(b[j].key, LastKey(b));
      assert LastKey(b) == t.index[i].key || InternalLess(LastKey(b), t.index[i].key);
    }
  }

  lemma {:induction false} ScanReaches(t: Table, n: nat, i: nat, k: Bytes)
    requires GoodTable(t) && n <= i <= |t.blocks|
    requires forall j :: 0 <= j < i ==> InternalLess(t.index[j].key, k)
    ensures FirstFrom(EntriesFrom(t.blocks, n), k) == FirstFrom(EntriesFrom(t.blocks, i), k)
    decreases i - n
  {
    if n < i {
      BlockBelow(t, n, k);
      ScanPast(t.blocks[n], EntriesFrom(t.blocks, n + 1), k);
      ScanReaches(t, n + 1, i, k);
    }
  }

  /** The first entry of the next block is past k, and belongs to another user key unless the
      index key is the last key of the block. */
  lemma NextBlockApart(t: Table, i: nat, k: Bytes)
    requires GoodTable(t) && i + 1 < |t.blocks| && |k| >= 8
    requires !InternalLess(t.index[i].key, k) && InternalLess(LastKey(t.blocks[i]), k)
    ensures !InternalLess(t.blocks[i + 1][0].key, k) && UserOf(t.blocks[i + 1][0].key) != UserOf(k)
    ensures |t.blocks[i + 1][0].key| >= 8
  {
    InternalIsStrictOrder();
    assert GoodIndexEntry(t, i);
    var last, sep, next := LastKey(t.blocks[i]), t.index[i].key, t.blocks[i + 1][0].key;
    assert k == sep || InternalLess(k, sep);
    NotBothWays(UserOf(k), UserOf(sep));
  }

  /** The index search followed by a search in one block finds what a linear scan finds, up to
      entries of other user keys. */
  lemma LookupIsScan(t: Table, k: Bytes, i: nat, j: nat)
    requires GoodTable(t) && |k| >= 8 && i < |t.index| && j <= |t.blocks[i]|
    requires (forall l :: 0 <= l < i ==> InternalLess(t.index[l].key, k)) && !InternalLess(t.index[i].key, k)
    requires (forall l :: 0 <= l < j ==> InternalLess(t.blocks[i][l].key, k))
    requires j < |t.blocks[i]| ==> !InternalLess(t.blocks[i][j].key, k)
    ensures SameUser(if j < |t.blocks[i]| then Some(t.blocks[i][j]) else None, k) == SameUser(FirstFrom(Entries(t), k), k)
    ensures j < |t.blocks[i]| ==> FirstFrom(Entries(t), k) == Some(t.blocks[i][j])
  {
    ScanReaches(t, 0, i, k);
    var b, rest := t.blocks[i], EntriesFrom(t.blocks, i + 1);
    if j < |b| {
      ScanStops(b, rest, j, k);
    } else {
      ScanPast(b, rest, k);
      assert InternalKeysOf(b);
      if i + 1 < |t.blocks| {
        NextBlockApart(t, i, k);
        assert rest[0] == t.blocks[i + 1][0];
      }
    }
  }

  lemma PastTheEnd(t: Table, k: Bytes)
    requires GoodTable(t) && forall l :: 0 <= l < |t.index| ==> InternalLess(t.index[l].key, k)
    ensures FirstFrom(Entries(t), k) == None
  {
    ScanReaches(t, 0, |t.blocks|, k);
  }

  lemma AtMost(a: Bytes, b: Bytes)
    requires !InternalLess(b, a)
    ensures a == b || InternalLess(a, b)
  {
    InternalIsStrictOrder();
  }

  lemma FirstBeforeLast(b: seq<KeyValue>)
    requires InternalKeysOf(b)
    ensures b[0].key == LastKey(b) || InternalLess(b[0].key, LastKey(b))
  {
  }

  lemma IndexAtLeast(t: Table, i: nat)
    requires GoodTable(t) && i < |t.index|
    ensures InternalKeysOf(t.blocks[i]) && |t.index[i].key| >= 8 && !InternalLess(t.index[i].key, LastKey(t.blocks[i]))
  {
    assert GoodIndexEntry(t, i);
  }

  lemma IndexBelowNext(t: Table, i: nat)
    requires GoodTable(t) && i + 1 < |t.index|
    ensures InternalKeysOf(t.blocks[i + 1]) && InternalLess(t.index[i].key, t.blocks[i + 1][0].key)
  {
    assert GoodIndexEntry(t, i);
  }

  lemma ThroughBlock(sep: Bytes, first: Bytes, last: Bytes, sep': Bytes)
    requires InternalLess(sep, first) && (first == last || InternalLess(first, last)) && !InternalLess(sep', last)
    ensures InternalLess(sep, sep')
  {
    AtMost(last, sep');
    if first != last {
      InternalTransitive(sep, first, last);
    }
    if last != sep' {
      InternalTransitive(sep, last, sep');
    }
  }

  /** Index keys ascend: each is below the next block's first key, and so below its last. */
  lemma NextIndexLarger(t: Table, j: nat)
    requires GoodTable(t) && 0 < j < |t.index|
    ensures InternalLess(t.index[j - 1].key, t.index[j].key)
  {
    IndexAtLeast(t, j);
    IndexBelowNext(t, j - 1);
    FirstBeforeLast(t.blocks[j]);
    ThroughBlock(t.index[j - 1].key, t.blocks[j][0].key, LastKey(t.blocks[j]), t.index[j].key);
  }

  lemma {:induction false} IndexStep(t: Table, i: nat, j: nat)
    requires GoodTable(t) && i < j < |t.index|
    ensures InternalLess(t.index[i].key, t.index[j].key)
    decreases j
  {
    NextIndexLarger(t, j);
    if i < j - 1 {
      IndexStep(t, i, j - 1);
      InternalTransitive(t.index[i].key, t.index[j - 1].key, t.index[j].key);
    }
  }

  lemma IndexAscends(t: Table)
    requires GoodTable(t)
    ensures Ascending(InternalLess, t.index)
  {
    forall i, j | 0 <= i < j < |t.index| ensures InternalLess(t.index[i].key, t.index[j].key) {
      IndexStep(t, i, j);
    }
  }

  // ----- The lookup -----

  /** The file holds the table's blocks at its handles; `index` is the index block. */
  ghost predicate Stored(crc: Crc, file: Bytes, index: Bytes, t: Table, indexShape: Shape, shapes: seq<Shape>) {
    && IsBlock(index, indexShape) && indexShape.kvs == t.index && |shapes| == |t.blocks| == |t.handles|
    && forall i :: 0 <= i < |t.blocks| ==> BlockStored(crc, file, t.handles[i], shapes[i], t.blocks[i])
  }

  ghost predicate BlockStored(crc: Crc, file: Bytes, h: Handle, s: Shape, kvs: seq<KeyValue>) {
    && ReadBlock(crc, file, h).Some? && IsBlock(ReadBlock(crc, file, h).value, s) && s.kvs == kvs
  }

  /** The user key of every entry is in the filter of its block. */
  ghost predicate NoFalseNegative(filter: FilterBlockReader, t: Table)
    requires |t.handles| == |t.blocks|
  {
    forall i, kv :: 0 <= i < |t.blocks| && kv in t.blocks[i] && |kv.key| >= 8 ==> filter.Has(t.handles[i].offset, UserOf(kv.key))
  }

  ghost predicate HasUser(b: seq<KeyValue>, user: Bytes) {
    exists kv :: kv in b && |kv.key| >= 8 && UserOf(kv.key) == user
  }

  /** Table::InternalGet: what it hands to the caller, kept only when the user keys agree, is what
      a linear scan of the whole table would find. */
  method InternalGet(crc: Crc, file: Bytes, index: Bytes, filter: FilterBlockReader?, k: Bytes,
                     ghost t: Table, ghost indexShape: Shape, ghost shapes: seq<Shape>) returns (r: Option<KeyValue>)
    requires GoodTable(t) && Stored(crc, file, index, t, indexShape, shapes) && |k| >= 8
    requires filter != null ==> NoFalseNegative(filter, t)
    ensures SameUser(r, k) == SameUser(FirstFrom(Entries(t), k), k)
  {
    InternalIsStrictOrder();
    IndexAscends(t);
    var indexIter := NewIterator(InternalLess, index, indexShape);
    indexIter.Seek(k);
    r := None;
    if indexIter.Valid() {
      ghost var i := indexIter.pos;
      assert GoodIndexEntry(t, i) && BlockStored(crc, file, t.handles[i], shapes[i], t.blocks[i]);
      HandleRoundTrip(t.handles[i]);
      var handle := DecodeHandle(indexIter.value).value;
      assert handle == t.handles[i];
      var may := AskFilterBlock(filter, handle.offset, UserOf(k), t, i);
      if !may {
        FilteredOut(t, k, i);
      } else {
        var contents := ReadBlock(crc, file, handle).value;
        r := SearchBlock(contents, shapes[i], t, i, k);
      }
    } else {
      PastTheEnd(t, k);
    }
  }

  /** InternalFilterPolicy::KeyMayMatch, if there is a filter block at all. */
  method AskFilterBlock(filter: FilterBlockReader?, blockOffset: nat, user: Bytes, ghost t: Table, ghost i: nat) returns (may: bool)
    requires |t.handles| == |t.blocks| && i < |t.blocks| && blockOffset == t.handles[i].offset
    requires filter != null ==> NoFalseNegative(filter, t)
    ensures HasUser(t.blocks[i], user) ==> may
  {
    may := true;
    if filter != null {
      may := filter.KeyMayMatch(blockOffset, user);
    }
  }

  method SearchBlock(contents: Bytes, ghost s: Shape, ghost t: Table, ghost i: nat, k: Bytes) returns (r: Option<KeyValue>)
    requires GoodTable(t) && i < |t.index| && |k| >= 8 && IsBlock(contents, s) && s.kvs == t.blocks[i]
    requires (forall l :: 0 <= l < i ==> InternalLess(t.index[l].key, k)) && !InternalLess(t.index[i].key, k)
    ensures SameUser(r, k) == SameUser(FirstFrom(Entries(t), k), k)
  {
    InternalIsStrictOrder();
    assert InternalKeysOf(t.blocks[i]);
    var blockIter := NewIterator(InternalLess, contents, s);
    blockIter.Seek(k);
    LookupIsScan(t, k, i, blockIter.pos);
    r := if blockIter.Valid() then Some(KeyValue(blockIter.key, blockIter.value)) else None;
  }

  /** A block the filter rules out could only have answered with another user key. */
  lemma FilteredOut(t: Table, k: Bytes, i: nat)
    requires GoodTable(t) && |k| >= 8 && i < |t.index| && !HasUser(t.blocks[i], UserOf(k))
    requires (forall l :: 0 <= l < i ==> InternalLess(t.index[l].key, k)) && !InternalLess(t.index[i].key, k)
    ensures SameUser(FirstFrom(Entries(t), k), k) == None
  {
    InternalIsStrictOrder();
    var b := t.blocks[i];
    assert InternalKeysOf(b);
    var j := ScanIndex(b, k);
    LookupIsScan(t, k, i, j);
    assert j < |b| ==> b[j] in b;
  }

  lemma {:induction false} ScanIndex(b: seq<KeyValue>, k: Bytes) returns (j: nat)
    ensures j <= |b| && (forall l :: 0 <= l < j ==> InternalLess(b[l].key, k))
    ensures j < |b| ==> !InternalLess(b[j].key, k)
  {
    if b == [] || !InternalLess(b[0].key, k) {
      j := 0;
    } else {
      var n := ScanIndex(b[1..], k);
      j := n + 1;
    }
  }
}
