/** The iterator contract: a position in a sorted list of entries (include/leveldb/iterator.h). */
module Cursors {
  import opened InternalKeys
  import opened VersionSearch

  /** Which way an iterator last moved. */
  datatype Direction = Forward | Reverse

  /** An iterator over `entries`; it is invalid at the position |entries|, however it got there. */
  class Cursor {
    const entries: seq<Entry>
    var pos: nat

    constructor (entries: seq<Entry>)
      ensures this.entries == entries && !Valid()
    {
      this.entries := entries;
      pos := |entries|;
    }

    predicate Valid()
      reads this
    {
      pos < |entries|
    }

    function Current(): Entry
      requires Valid()
      reads this
    {
      entries[pos]
    }

    method SeekToFirst()
      modifies this
      ensures pos == 0
    {
      pos := 0;
    }

    method SeekToLast()
      modifies this
      ensures pos == if entries == [] then 0 else |entries| - 1
    {
      pos := if entries == [] then 0 else |entries| - 1;
    }

    method Seek(target: InternalKey)
      modifies this
      ensures pos <= |entries|
      ensures forall j :: 0 <= j < pos ==> Less(entries[j].key, target)
      ensures pos < |entries| ==> !Less(entries[pos].key, target)
    {
      pos := SeekIndex(entries, target);
    }

    method Next()
      requires Valid()
      modifies this
      ensures pos == old(pos) + 1
    {
      pos := pos + 1;
    }

    method Prev()
      requires Valid()
      modifies this
      ensures pos == if old(pos) == 0 then |entries| else old(pos) - 1
    {
      pos := if pos == 0 then |entries| else pos - 1;
    }
  }
}
