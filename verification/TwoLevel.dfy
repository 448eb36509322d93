/** The two-level iterator: a cursor over the concatenation of the blocks an index names
    (table/two_level_iterator.cc). */
module TwoLevel {
  import opened InternalKeys
  import opened VersionSearch
  import opened Cursors

  /** What the block function opens for each index value. */
  type Blocks = map<Bytes, seq<Entry>>

  ghost predicate Names(index: seq<Entry>, blocks: Blocks) {
    forall i :: 0 <= i < |index| ==> index[i].value in blocks
  }

  function BlockAt(index: seq<Entry>, blocks: Blocks, i: nat): seq<Entry>
    requires Names(index, blocks) && i < |index|
  {
    blocks[index[i].value]
  }

  function Concat(index: seq<Entry>, blocks: Blocks, n: nat): seq<Entry>
    requires Names(index, blocks) && n <= |index|
  {
    if n == 0 then [] else Concat(index, blocks, n - 1) + BlockAt(index, blocks, n - 1)
  }

  function Start(index: seq<Entry>, blocks: Blocks, n: nat): nat
    requires Names(index, blocks) && n <= |index|
  {
    |Concat(index, blocks, n)|
  }

  lemma {:induction false} ConcatPrefix(index: seq<Entry>, blocks: Blocks, i: nat, n: nat)
    requires Names(index, blocks) && i <= n <= |index|
    ensures Concat(index, blocks, i) <= Concat(index, blocks, n)
  {
    if i < n {
      ConcatPrefix(index, blocks, i, n - 1);
    }
  }

  /** Entry j of block i is entry Start(i) + j of the concatenation. */
  lemma BlockEntry(index: seq<Entry>, blocks: Blocks, i: nat, j: nat)
    requires Names(index, blocks) && i < |index| && j < |BlockAt(index, blocks, i)|
    ensures Start(index, blocks, i) + j < Start(index, blocks, |index|)
    ensures Concat(index, blocks, |index|)[Start(index, blocks, i) + j] == BlockAt(index, blocks, i)[j]
  {
    ConcatPrefix(index, blocks, i + 1, |index|);
    assert Concat(index, blocks, i + 1)[Start(index, blocks, i) + j] == BlockAt(index, blocks, i)[j];
  }

  /** Each index key is at least every key of its block and below every key of later blocks. */
  ghost predicate Separates(index: seq<Entry>, blocks: Blocks)
    requires Names(index, blocks)
  {
    && (forall i, e :: 0 <= i < |index| && e in BlockAt(index, blocks, i) ==> !Less(index[i].key, e.key))
    && forall i, j, e :: 0 <= i < j < |index| && e in BlockAt(index, blocks, j) ==> Less(index[i].key, e.key)
  }

  lemma {:induction false} AllBelow(index: seq<Entry>, blocks: Blocks, n: nat, target: InternalKey)
    requires Names(index, blocks) && Separates(index, blocks) && n <= |index|
    requires forall i :: 0 <= i < n ==> Less(index[i].key, target)
    ensures forall k :: 0 <= k < Start(index, blocks, n) ==> Less(Concat(index, blocks, n)[k].key, target)
  {
    if n > 0 {
      AllBelow(index, blocks, n - 1, target);
      var s := Start(index, blocks, n - 1);
      forall k | s <= k < Start(index, blocks, n) ensures Less(Concat(index, blocks, n)[k].key, target) {
        assert Concat(index, blocks, n)[k] in BlockAt(index, blocks, n - 1);
      }
    }
  }

  lemma {:induction false} AllAbove(index: seq<Entry>, blocks: Blocks, i: nat, n: nat, target: InternalKey)
    requires Names(index, blocks) && Separates(index, blocks) && i < n <= |index|
    requires !Less(index[i].key, target)
    ensures forall k :: Start(index, blocks, i + 1) <= k < Start(index, blocks, n) ==> !Less(Concat(index, blocks, n)[k].key, target)
  {
    if i + 1 < n {
      AllAbove(index, blocks, i, n - 1, target);
      var s := Start(index, blocks, n - 1);
      forall k | s <= k < Start(index, blocks, n) ensures !Less(Concat(index, blocks, n)[k].key, target) {
        assert Concat(index, blocks, n)[k] in BlockAt(index, blocks, n - 1);
      }
    }
  }

  /** An index seek, then a seek in that block, split the whole concatenation at the target. */
  lemma SeekSplits(index: seq<Entry>, blocks: Blocks, i: nat, q: nat, target: InternalKey)
    requires Names(index, blocks) && Separates(index, blocks) && i < |index| && q <= |BlockAt(index, blocks, i)|
    requires forall j :: 0 <= j < i ==> Less(index[j].key, target)
    requires !Less(index[i].key, target)
    requires forall j :: 0 <= j < q ==> Less(BlockAt(index, blocks, i)[j].key, target)
    requires q < |BlockAt(index, blocks, i)| ==> !Less(BlockAt(index, blocks, i)[q].key, target)
    ensures var m, p := Concat(index, blocks, |index|), Start(index, blocks, i) + q;
      && p <= |m| && (forall k :: 0 <= k < p ==> Less(m[k].key, target))
      && (p < |m| ==> !Less(m[p].key, target))
  {
    var m, p, s := Concat(index, blocks, |index|), Start(index, blocks, i) + q, Start(index, blocks, i);
    ConcatPrefix(index, blocks, i, |index|);
    ConcatPrefix(index, blocks, i + 1, |index|);
    AllBelow(index, blocks, i, target);
    forall k | 0 <= k < p ensures Less(m[k].key, target) {
      if k < s {
        assert m[k] == Concat(index, blocks, i)[k];
      } else {
        BlockEntry(index, blocks, i, k - s);
      }
    }
    if q < |BlockAt(index, blocks, i)| {
      BlockEntry(index, blocks, i, q);
    } else {
      AllAbove(index, blocks, i, |index|, target);
    }
  }

  class TwoLevelIterator {
    const indexIter: Cursor
    const blocks: Blocks
    var dataIter: Cursor?
    var dataBlockHandle: Bytes

    constructor (indexIter: Cursor, blocks: Blocks)
      requires Names(indexIter.entries, blocks)
      ensures this.indexIter == indexIter && this.blocks == blocks && Inv() && !Valid() && Repr() == {indexIter}
    {
      this.indexIter, this.blocks := indexIter, blocks;
      dataIter, dataBlockHandle := null, [];
    }

    ghost function Repr(): set<object>
      reads this
    {
      {indexIter} + if dataIter == null then {} else {dataIter}
    }

    function Index(): seq<Entry> {
      indexIter.entries
    }

    ghost predicate DataMatches()
      reads this
    {
      && Names(Index(), blocks)
      && (dataIter != null ==> dataIter != indexIter && dataBlockHandle in blocks && dataIter.entries == blocks[dataBlockHandle])
    }

    ghost predicate OnBlock()
      reads this, indexIter
    {
      indexIter.Valid() && dataIter != null && dataBlockHandle == indexIter.Current().value
    }

    ghost predicate Inv()
      reads this, Repr()
    {
      DataMatches() && (Valid() ==> OnBlock())
    }

    predicate Valid()
      reads this, dataIter
    {
      dataIter != null && dataIter.Valid()
    }

    /** What this iterator is a cursor over. */
    ghost function Entries(): seq<Entry>
      requires Names(Index(), blocks)
    {
      Concat(Index(), blocks, |Index()|)
    }

    ghost function Pos(): nat
      requires Inv()
      reads this, Repr()
    {
      if Valid() then Start(Index(), blocks, indexIter.pos) + dataIter.pos else |Entries()|
    }

    function Current(): Entry
      requires Inv() && Valid()
      reads this, Repr()
      ensures Pos() < |Entries()| && Current() == Entries()[Pos()]
    {
      BlockEntry(Index(), blocks, indexIter.pos, dataIter.pos);
      dataIter.Current()
    }

    /** Opens the block under the index position, unless it is open already. */
    method InitDataBlock()
      requires DataMatches()
      modifies this`dataIter, this`dataBlockHandle
      ensures DataMatches()
      ensures if indexIter.Valid() then OnBlock() else dataIter == null
      ensures dataIter == old(dataIter) || dataIter == null || fresh(dataIter)
    {
      if !indexIter.Valid() {
        dataIter := null;
      } else {
        var handle := indexIter.Current().value;
        if dataIter != null && handle == dataBlockHandle {
        } else {
          var iter := new Cursor(blocks[handle]);
          dataBlockHandle := handle;
          dataIter := iter;
        }
      }
    }

    method SkipEmptyDataBlocksForward()
      requires DataMatches()
      requires if indexIter.Valid() then OnBlock() && dataIter.pos <= |dataIter.entries| else dataIter == null
      modifies this`dataIter, this`dataBlockHandle, Repr()
      ensures Inv() && fresh(Repr() - old(Repr()))
      ensures Pos() == old(if indexIter.Valid() then Start(Index(), blocks, indexIter.pos) + dataIter.pos else |Entries()|)
    {
      ghost var p := if indexIter.Valid() then Start(Index(), blocks, indexIter.pos) + dataIter.pos else |Entries()|;
      while (dataIter == null || !dataIter.Valid()) && indexIter.Valid()
        invariant DataMatches() && fresh(Repr() - old(Repr()))
        invariant indexIter.Valid() ==> OnBlock() && dataIter.pos <= |dataIter.entries|
        invariant indexIter.Valid() ==> p == Start(Index(), blocks, indexIter.pos) + dataIter.pos
        invariant !indexIter.Valid() ==> dataIter == null && p == |Entries()|
        decreases |Index()| - indexIter.pos
      {
        indexIter.Next();
        InitDataBlock();
        if dataIter != null {
          dataIter.SeekToFirst();
        }
      }
      if dataIter == null || !dataIter.Valid() {
        dataIter := null;
      }
    }

    /** An exhausted block stands for the position just before its first entry. */
    method SkipEmptyDataBlocksBackward()
      requires DataMatches()
      requires if indexIter.Valid() then OnBlock() else dataIter == null && Index() == []
      modifies this`dataIter, this`dataBlockHandle, Repr()
      ensures Inv() && fresh(Repr() - old(Repr()))
      ensures Pos() == old(
        if !indexIter.Valid() then 0
        else if Valid() then Start(Index(), blocks, indexIter.pos) + dataIter.pos
        else if Start(Index(), blocks, indexIter.pos) == 0 then |Entries()|
        else Start(Index(), blocks, indexIter.pos) - 1)
    {
      ghost var p: int := if !indexIter.Valid() then -1
        else if Valid() then Start(Index(), blocks, indexIter.pos) + dataIter.pos else Start(Index(), blocks, indexIter.pos) - 1;
      while (dataIter == null || !dataIter.Valid()) && indexIter.Valid()
        invariant DataMatches() && fresh(Repr() - old(Repr()))
        invariant indexIter.Valid() ==> OnBlock()
        invariant indexIter.Valid() ==> p == Start(Index(), blocks, indexIter.pos) + if Valid() then dataIter.pos else -1
        invariant !indexIter.Valid() ==> dataIter == null && p == -1
        decreases if indexIter.Valid() then indexIter.pos + 1 else 0
      {
        indexIter.Prev();
        InitDataBlock();
        if dataIter != null {
          dataIter.SeekToLast();
        }
      }
      if dataIter == null || !dataIter.Valid() {
        dataIter := null;
      }
    }

    // ----- The public operations, with the contract of a cursor -----

    method SeekToFirst()
      requires Inv()
      modifies this, Repr()
      ensures Inv() && fresh(Repr() - old(Repr())) && Pos() == 0
    {
      indexIter.SeekToFirst();
      InitDataBlock();
      if dataIter != null {
        dataIter.SeekToFirst();
      }
      SkipEmptyDataBlocksForward();
    }

    method SeekToLast()
      requires Inv()
      modifies this, Repr()
      ensures Inv() && fresh(Repr() - old(Repr()))
      ensures Pos() == if Entries() == [] then 0 else |Entries()| - 1
    {
      indexIter.SeekToLast();
      InitDataBlock();
      if dataIter != null {
        dataIter.SeekToLast();
      }
      SkipEmptyDataBlocksBackward();
    }

    method Seek(target: InternalKey)
      requires Inv() && Separates(Index(), blocks)
      modifies this, Repr()
      ensures Inv() && fresh(Repr() - old(Repr())) && Pos() <= |Entries()|
      ensures forall j :: 0 <= j < Pos() ==> Less(Entries()[j].key, target)
      ensures Pos() < |Entries()| ==> !Less(Entries()[Pos()].key, target)
    {
      SeekParts(target);
      SkipEmptyDataBlocksForward();
    }

    /** The place the two parts stand for. */
    ghost function Place(): nat
      requires DataMatches() && (if indexIter.Valid() then OnBlock() else dataIter == null)
      reads this, indexIter, Repr()
    {
      if indexIter.Valid() then Start(Index(), blocks, indexIter.pos) + dataIter.pos else |Entries()|
    }

    method SeekParts(target: InternalKey)
      requires Inv() && Separates(Index(), blocks)
      modifies this`dataIter, this`dataBlockHandle, Repr()
      ensures DataMatches() && fresh(Repr() - old(Repr()))
      ensures if indexIter.Valid() then OnBlock() && dataIter.pos <= |dataIter.entries| else dataIter == null
      ensures Place() <= |Entries()| && forall j :: 0 <= j < Place() ==> Less(Entries()[j].key, target)
      ensures Place() < |Entries()| ==> !Less(Entries()[Place()].key, target)
    {
      indexIter.Seek(target);
      InitDataBlock();
      if dataIter != null {
        dataIter.Seek(target);
        SeekSplits(Index(), blocks, indexIter.pos, dataIter.pos, target);
      } else {
        AllBelow(Index(), blocks, |Index()|, target);
      }
    }

    method Next()
      requires Inv() && Valid()
      modifies this, Repr()
      ensures Inv() && fresh(Repr() - old(Repr())) && Pos() == old(Pos()) + 1
    {
      dataIter.Next();
      SkipEmptyDataBlocksForward();
    }

    method Prev()
      requires Inv() && Valid()
      modifies this, Repr()
      ensures Inv() && fresh(Repr() - old(Repr()))
      ensures Pos() == if old(Pos()) == 0 then |Entries()| else old(Pos()) - 1
    {
      dataIter.Prev();
      SkipEmptyDataBlocksBackward();
    }
  }
}
