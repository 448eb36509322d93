/** The iterators stand in for one another: under the same calls, the merging iterator, the two-level
    iterator and the iterator over the bytes of a block are where a plain cursor over the same entries would
    be (table/merger.cc, table/two_level_iterator.cc, table/block.cc, include/leveldb/iterator.h). */
module IteratorStack {
  import opened InternalKeys
  import opened VersionSearch
  import opened Cursors
  import opened BlockFormat
  import opened Comparators
  import BlockIter
  import Merger
  import TwoLevel

  /** One call. */
  datatype Call = First | Last | SeekTo(target: InternalKey) | Forward | Backward

  /** Next and Prev are for valid iterators only. */
  predicate MayCall(entries: seq<Entry>, pos: nat, c: Call) {
    c.Forward? || c.Backward? ==> pos < |entries|
  }

  /** Where a call leaves an iterator over the entries; |entries| means invalid. */
  function MovedBy(entries: seq<Entry>, pos: nat, c: Call): nat
    requires pos <= |entries| && MayCall(entries, pos, c)
  {
    match c
    case First => 0
    case Last => if entries == [] then 0 else |entries| - 1
    case SeekTo(target) => SeekIndex(entries, target)
    case Forward => pos + 1
    case Backward => if pos == 0 then |entries| else pos - 1
  }

  ghost predicate Allowed(entries: seq<Entry>, pos: nat, calls: seq<Call>)
    requires pos <= |entries|
    decreases |calls|
  {
    calls == [] || (MayCall(entries, pos, calls[0]) && Allowed(entries, MovedBy(entries, pos, calls[0]), calls[1..]))
  }

  /** The position after all of the calls. */
  ghost function After(entries: seq<Entry>, pos: nat, calls: seq<Call>): nat
    requires pos <= |entries| && Allowed(entries, pos, calls)
    decreases |calls|
  {
    if calls == [] then pos else After(entries, MovedBy(entries, pos, calls[0]), calls[1..])
  }

  /** A seek can end in only one place. */
  lemma SeekIsUnique(entries: seq<Entry>, p: nat, target: InternalKey)
    requires p <= |entries| && (forall j :: 0 <= j < p ==> Less(entries[j].key, target))
    requires p < |entries| ==> !Less(entries[p].key, target)
    ensures p == SeekIndex(entries, target)
  {
    var q := SeekIndex(entries, target);
  }

  function Ended(entries: seq<Entry>, pos: nat): nat {
    if pos < |entries| then pos else |entries|
  }

  method DriveCursor(iter: Cursor, calls: seq<Call>)
    requires Allowed(iter.entries, Ended(iter.entries, iter.pos), calls)
    modifies iter
    ensures Ended(iter.entries, iter.pos) == After(iter.entries, Ended(iter.entries, old(iter.pos)), calls)
    decreases |calls|
  {
    if calls == [] {
      return;
    }
    match calls[0] {
      case First => iter.SeekToFirst();
      case Last => iter.SeekToLast();
      case SeekTo(target) =>
        iter.Seek(target);
        SeekIsUnique(iter.entries, iter.pos, target);
      case Forward => iter.Next();
      case Backward => iter.Prev();
    }
    DriveCursor(iter, calls[1..]);
  }

  method DriveMerging(iter: Merger.MergingIterator, calls: seq<Call>)
    requires iter.Inv() && iter.Pos() <= |iter.Entries()| && Allowed(iter.Entries(), iter.Pos(), calls)
    modifies iter, iter.children
    ensures iter.Inv() && iter.Pos() == After(iter.Entries(), old(iter.Pos()), calls)
    decreases |calls|
  {
    if calls == [] {
      return;
    }
    CallMerging(iter, calls[0]);
    DriveMerging(iter, calls[1..]);
  }

  method CallMerging(iter: Merger.MergingIterator, c: Call)
    requires iter.Inv() && iter.Pos() <= |iter.Entries()| && MayCall(iter.Entries(), iter.Pos(), c)
    modifies iter, iter.children
    ensures iter.Inv() && iter.Pos() == MovedBy(iter.Entries(), old(iter.Pos()), c) <= |iter.Entries()|
  {
    match c {
      case First => iter.SeekToFirst();
      case Last => iter.SeekToLast();
      case SeekTo(target) =>
        iter.Seek(target);
        SeekIsUnique(iter.Entries(), iter.Pos(), target);
      case Forward => iter.Next();
      case Backward => iter.Prev();
    }
  }

  method DriveTwoLevel(iter: TwoLevel.TwoLevelIterator, calls: seq<Call>)
    requires iter.Inv() && TwoLevel.Separates(iter.Index(), iter.blocks)
    requires iter.Pos() <= |iter.Entries()| && Allowed(iter.Entries(), iter.Pos(), calls)
    modifies iter, iter.Repr()
    ensures iter.Inv() && fresh(iter.Repr() - old(iter.Repr())) && iter.Pos() == After(iter.Entries(), old(iter.Pos()), calls)
    decreases |calls|
  {
    if calls == [] {
      return;
    }
    CallTwoLevel(iter, calls[0]);
    DriveTwoLevel(iter, calls[1..]);
  }

  method CallTwoLevel(iter: TwoLevel.TwoLevelIterator, c: Call)
    requires iter.Inv() && TwoLevel.Separates(iter.Index(), iter.blocks)
    requires iter.Pos() <= |iter.Entries()| && MayCall(iter.Entries(), iter.Pos(), c)
    modifies iter, iter.Repr()
    ensures iter.Inv() && fresh(iter.Repr() - old(iter.Repr()))
    ensures iter.Pos() == MovedBy(iter.Entries(), old(iter.Pos()), c) <= |iter.Entries()|
  {
    match c {
      case First => iter.SeekToFirst();
      case Last => iter.SeekToLast();
      case SeekTo(target) =>
        iter.Seek(target);
        SeekIsUnique(iter.Entries(), iter.Pos(), target);
      case Forward => iter.Next();
      case Backward => iter.Prev();
    }
  }

  /** Whatever valid calls are made, a merging iterator and a cursor over the merged entries end in the
      same place, at the same entry. */
  method MergingIsCursor(iter: Merger.MergingIterator, model: Cursor, calls: seq<Call>)
    requires iter.Inv() && !iter.Valid() && !model.Valid() && model.entries == iter.Entries()
    requires model !in iter.children && Allowed(iter.Entries(), |iter.Entries()|, calls)
    modifies iter, iter.children, model
    ensures Ended(model.entries, model.pos) == After(model.entries, |model.entries|, calls)
    ensures iter.Inv() && (iter.Valid() <==> model.Valid())
    ensures iter.Valid() ==> iter.Current() == model.Current()
  {
    DriveMerging(iter, calls);
    DriveCursor(model, calls);
    if iter.Valid() {
      var e := iter.Current();
    }
  }

  /** ... and so do a two-level iterator and a cursor over the concatenated blocks. */
  method TwoLevelIsCursor(iter: TwoLevel.TwoLevelIterator, model: Cursor, calls: seq<Call>)
    requires iter.Inv() && !iter.Valid() && !model.Valid() && model.entries == iter.Entries() && model !in iter.Repr()
    requires TwoLevel.Separates(iter.Index(), iter.blocks) && Allowed(iter.Entries(), |iter.Entries()|, calls)
    modifies iter, iter.Repr(), model
    ensures Ended(model.entries, model.pos) == After(model.entries, |model.entries|, calls)
    ensures iter.Inv() && (iter.Valid() <==> model.Valid())
    ensures iter.Valid() ==> iter.Current() == model.Current()
  {
    DriveTwoLevel(iter, calls);
    DriveCursor(model, calls);
    if iter.Valid() {
      var e := iter.Current();
    }
  }

  // ----- Blocks -----

  /** The entries of the store that the entries of a block stand for. */
  ghost predicate StandFor(kvs: seq<KeyValue>, entries: seq<Entry>) {
    |kvs| == |entries| && forall i {:trigger StandsFor(kvs[i], entries[i])} :: 0 <= i < |kvs| ==> StandsFor(kvs[i], entries[i])
  }

  ghost predicate StandsFor(kv: KeyValue, e: Entry) {
    Parses(kv.key) && e == Entry(KeyOf(kv.key), kv.value)
  }

  /** The calls as a block gets them, with the bytes of the targets. */
  ghost predicate InBytes(calls: seq<Call>, targets: seq<Bytes>) {
    |calls| == |targets| && forall i :: 0 <= i < |calls| ==> TargetIs(calls[i], targets[i])
  }

  ghost predicate TargetIs(c: Call, target: Bytes) {
    c.SeekTo? ==> Parses(target) && KeyOf(target) == c.target
  }

  lemma InBytesRest(calls: seq<Call>, targets: seq<Bytes>)
    requires InBytes(calls, targets) && calls != []
    ensures TargetIs(calls[0], targets[0]) && InBytes(calls[1..], targets[1..])
  {
    forall i | 0 <= i < |calls[1..]| ensures TargetIs(calls[1..][i], targets[1..][i]) {
      assert TargetIs(calls[i + 1], targets[i + 1]);
    }
  }

  /** A seek on bytes ends where a seek on entries does. */
  lemma SeekOnBytes(kvs: seq<KeyValue>, entries: seq<Entry>, p: nat, target: Bytes)
    requires StandFor(kvs, entries) && Parses(target) && p <= |kvs|
    requires forall j :: 0 <= j < p ==> InternalLess(kvs[j].key, target)
    requires p < |kvs| ==> !InternalLess(kvs[p].key, target)
    ensures p == SeekIndex(entries, KeyOf(target))
  {
    forall j | 0 <= j < |kvs| ensures InternalLess(kvs[j].key, target) <==> Less(entries[j].key, KeyOf(target)) {
      assert StandsFor(kvs[j], entries[j]);
      KeyOfKeepsOrder(kvs[j].key, target);
    }
    SeekIsUnique(entries, p, KeyOf(target));
  }

  /** A block built from internal keys in ascending order. */
  ghost predicate OnBlock(iter: BlockIter.Iter, entries: seq<Entry>) {
    && iter.built.Some? && iter.less == InternalLess && StrictOrder(iter.less)
    && Ascending(iter.less, iter.Entries()) && StandFor(iter.Entries(), entries)
  }

  method CallBlock(iter: BlockIter.Iter, c: Call, target: Bytes, ghost entries: seq<Entry>)
    requires iter.Inv() && OnBlock(iter, entries) && iter.pos <= |entries| && MayCall(entries, iter.pos, c) && TargetIs(c, target)
    modifies iter
    ensures iter.Inv() && iter.pos == MovedBy(entries, old(iter.pos), c) <= |entries|
  {
    match c {
      case First => iter.SeekToFirst();
      case Last => iter.SeekToLast();
      case SeekTo(_) =>
        iter.Seek(target);
        SeekOnBytes(iter.Entries(), entries, iter.pos, target);
      case Forward => iter.Next();
      case Backward => iter.Prev();
    }
  }

  method DriveBlock(iter: BlockIter.Iter, calls: seq<Call>, targets: seq<Bytes>, ghost entries: seq<Entry>)
    requires iter.Inv() && OnBlock(iter, entries) && iter.pos <= |entries| && Allowed(entries, iter.pos, calls) && InBytes(calls, targets)
    modifies iter
    ensures iter.Inv() && iter.pos == After(entries, old(iter.pos), calls)
    decreases |calls|
  {
    if calls == [] {
      return;
    }
    InBytesRest(calls, targets);
    CallBlock(iter, calls[0], targets[0], entries);
    DriveBlock(iter, calls[1..], targets[1..], entries);
  }

  /** ... and so do the iterator over the bytes of a block and a cursor over the entries that were put
      into it. */
  method BlockIsCursor(iter: BlockIter.Iter, model: Cursor, calls: seq<Call>, targets: seq<Bytes>)
    requires iter.Inv() && !iter.Valid() && !model.Valid() && OnBlock(iter, model.entries)
    requires Allowed(model.entries, |model.entries|, calls) && InBytes(calls, targets)
    modifies iter, model
    ensures Ended(model.entries, model.pos) == After(model.entries, |model.entries|, calls)
    ensures iter.Inv() && (iter.Valid() <==> model.Valid())
    ensures iter.Valid() ==> StandsFor(KeyValue(iter.key, iter.value), model.Current())
  {
    DriveBlock(iter, calls, targets, model.entries);
    DriveCursor(model, calls);
  }
}
