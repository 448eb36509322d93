/** The iterator over one block: binary search on restart points, and steps both ways (table/block.cc). */
module BlockIter {
  import opened InternalKeys
  import opened Coding
  import opened BlockFormat

  /** The restart block that holds entry k. */
  ghost predicate RestartOf(s: Shape, r: nat, k: nat)
    requires GoodShape(s)
  {
    && r < |s.points| && s.points[r] <= k
    && (r + 1 < |s.points| ==> k <= s.points[r + 1])
  }

  /** What ParseNextKey starts from so that it reads entry k: the offset, a key that shares the
      prefix, and a restart block not past it. */
  ghost predicate ReadyFor(s: Shape, k: nat, end: nat, key: Bytes, r: nat)
    requires GoodShape(s)
  {
    && k <= |s.kvs| && end == s.offsets[k] && r < |s.points| && s.points[r] <= k
    && (k < |s.kvs| ==> Shares(s, k) && s.shared[k] <= |key| && s.kvs[k].key[..s.shared[k]] == key[..s.shared[k]])
  }

  /** The iterator's fields when it stands at entry k. */
  ghost predicate StandsAt(s: Shape, k: nat, current: nat, end: nat, key: Bytes, value: Bytes, r: nat)
    requires GoodShape(s)
  {
    && k < |s.kvs| && current == s.offsets[k] && end == s.offsets[k + 1]
    && key == s.kvs[k].key && value == s.kvs[k].value && RestartOf(s, r, k)
  }

  lemma StandingIsReady(s: Shape, k: nat, current: nat, end: nat, key: Bytes, value: Bytes, r: nat)
    requires GoodShape(s) && StandsAt(s, k, current, end, key, value, r)
    ensures ReadyFor(s, k + 1, end, key, r)
  {
    if k + 1 < |s.kvs| {
      assert Shares(s, k + 1);
    }
  }

  lemma PointIsReady(s: Shape, r: nat)
    requires GoodShape(s) && r < |s.points|
    ensures s.points[r] <= |s.kvs| && ReadyFor(s, s.points[r], s.offsets[s.points[r]], [], r)
  {
    if s.points[r] < |s.kvs| {
      assert Shares(s, s.points[r]);
    }
  }

  /** Comparing restart offsets is comparing entry numbers. */
  lemma PointOrder(data: Bytes, s: Shape, r: nat, k: nat)
    requires IsBlock(data, s) && r < |s.points| && k <= |s.kvs|
    ensures s.points[r] <= |s.kvs|
    ensures RestartPoint(data, s.offsets[|s.kvs|], r) < s.offsets[k] <==> s.points[r] < k
  {
    var entries := data[..s.offsets[|s.kvs|]];
    if s.points[r] < k {
      OffsetsAscend(entries, s, s.points[r], k);
    } else {
      OffsetsAscend(entries, s, k, s.points[r]);
    }
  }

  class Iter {
    const less: Order
    const data: Bytes
    const restarts: nat
    const numRestarts: nat
    /** The shape of the block, when it is one that a builder made. */
    ghost const built: Option<Shape>
    var current: nat
    var restartIndex: nat
    var key: Bytes
    var value: Bytes
    /** The offset just past value. */
    var valueEnd: nat
    var corrupt: bool
    /** The number of the current entry. */
    ghost var pos: nat

    constructor (less: Order, data: Bytes, restarts: nat, numRestarts: nat, ghost built: Option<Shape>)
      requires InBounds(data, restarts, numRestarts)
      requires built.Some? ==> IsBlock(data, built.value) && restarts == built.value.offsets[|built.value.kvs|] && numRestarts == |built.value.points|
      ensures this.less == less && this.data == data && this.built == built && Inv() && !Valid()
    {
      this.less, this.data, this.restarts, this.numRestarts, this.built := less, data, restarts, numRestarts, built;
      current, restartIndex, key, value, valueEnd, corrupt := restarts, numRestarts, [], [], 0, false;
      pos := if built.Some? then |built.value.kvs| else 0;
    }

    /** The restart array lies in the block, and every restart point in the entries. */
    static ghost predicate InBounds(data: Bytes, restarts: nat, numRestarts: nat) {
      && numRestarts > 0 && restarts + 4 * numRestarts + 4 <= |data|
      && forall r :: 0 <= r < numRestarts ==> RestartPoint(data, restarts, r) <= restarts
    }

    ghost predicate Opened() {
      && InBounds(data, restarts, numRestarts)
      && (built.Some? ==> IsBlock(data, built.value) && restarts == built.value.offsets[|built.value.kvs|] && numRestarts == |built.value.points|)
    }

    ghost function Entries(): seq<KeyValue>
      requires built.Some?
    {
      built.value.kvs
    }

    ghost predicate Inv()
      reads this
    {
      && Opened() && (Valid() ==> restartIndex < numRestarts && current < valueEnd <= restarts)
      && (built.Some? ==> AtPos() && !corrupt)
    }

    ghost predicate AtPos()
      requires Opened() && built.Some?
      reads this
    {
      if Valid() then StandsAt(built.value, pos, current, valueEnd, key, value, restartIndex) else pos == |built.value.kvs|
    }

    predicate Valid()
      reads this
    {
      current < restarts
    }

    method GetRestartPoint(index: nat) returns (offset: nat)
      requires Opened() && index < numRestarts
      ensures offset == RestartPoint(data, restarts, index) <= restarts
    {
      offset := DecodeFixed32(data[restarts + 4 * index..]) as nat;
    }

    method SeekToRestartPoint(index: nat)
      requires Opened() && index < numRestarts && (built.Some? ==> !corrupt)
      modifies this
      ensures key == [] && restartIndex == index && valueEnd == RestartPoint(data, restarts, index)
      ensures built.Some? ==> !corrupt && built.value.points[index] <= |built.value.kvs| && ReadyFor(built.value, built.value.points[index], valueEnd, key, index)
    {
      key := [];
      restartIndex := index;
      valueEnd := GetRestartPoint(index);
      value := [];
      if built.Some? {
        PointIsReady(built.value, index);
      }
    }

    method CorruptionError()
      modifies this
      ensures current == restarts && restartIndex == numRestarts && corrupt && key == [] && value == []
    {
      current, restartIndex := restarts, numRestarts;
      corrupt := true;
      key, value := [], [];
    }

    /** Reads the entry that starts at valueEnd. */
    method ParseNextKey(ghost k: nat) returns (ok: bool)
      requires Opened() && restartIndex < numRestarts && valueEnd <= restarts
      requires built.Some? ==> !corrupt && ReadyFor(built.value, k, valueEnd, key, restartIndex)
      modifies this
      ensures Inv() && ok == Valid()
      ensures ok ==> current == old(valueEnd)
      ensures built.Some? ==> pos == k && (ok <==> k < |Entries()|)
    {
      current := valueEnd;
      if current >= restarts {
        current, restartIndex := restarts, numRestarts;
        pos := if built.Some? then |built.value.kvs| else 0;
        EndIsEnd(k, valueEnd);
        return false;
      }
      var d := DecodeEntry(data[..restarts], current);
      NextDecodes(k, valueEnd);
      if d.None? || |key| < d.value.shared {
        CorruptionError();
        return false;
      }
      var valueAt := d.value.at + d.value.nonShared;
      key := key[..d.value.shared] + data[..restarts][d.value.at..valueAt];
      value := data[..restarts][valueAt..valueAt + d.value.valueLength];
      valueEnd := valueAt + d.value.valueLength;
      pos := k;
      AdvanceRestart(k);
      ok := true;
    }

    /** An entry past the last is past the end of the entries. */
    lemma EndIsEnd(k: nat, end: nat)
      requires Opened() && end <= restarts
      requires built.Some? ==> k <= |Entries()| && end == built.value.offsets[k]
      ensures built.Some? && end >= restarts ==> k == |Entries()|
      ensures built.Some? && end < restarts ==> k < |Entries()|
    {
      if built.Some? && k < |Entries()| {
        OffsetsAscend(data[..restarts], built.value, k, |Entries()|);
      }
    }

    /** In a built block the next entry decodes. */
    lemma NextDecodes(k: nat, end: nat)
      requires Opened() && end < restarts
      requires built.Some? ==> ReadyFor(built.value, k, end, key, restartIndex)
      ensures built.Some? ==> k < |Entries()| && end < built.value.offsets[k + 1] <= restarts
      ensures built.Some? ==>
        var d := DecodeEntry(data[..restarts], end);
        && d.Some? && d.value.shared <= |key|
        && key[..d.value.shared] + data[..restarts][d.value.at..d.value.at + d.value.nonShared] == Entries()[k].key
        && data[..restarts][d.value.at + d.value.nonShared..d.value.at + d.value.nonShared + d.value.valueLength] == Entries()[k].value
        && d.value.at + d.value.nonShared + d.value.valueLength == built.value.offsets[k + 1]
    {
      EndIsEnd(k, end);
      if built.Some? {
        DecodesAt(data[..restarts], built.value, k, key);
      }
    }

    method AdvanceRestart(ghost k: nat)
      requires Opened() && restartIndex < numRestarts && current < restarts
      requires built.Some? ==> k < |Entries()| && current == built.value.offsets[k] && built.value.points[restartIndex] <= k
      modifies this`restartIndex
      ensures restartIndex < numRestarts && (built.Some? ==> RestartOf(built.value, restartIndex, k))
    {
      while restartIndex + 1 < numRestarts && RestartPoint(data, restarts, restartIndex + 1) < current
        invariant restartIndex < numRestarts
        invariant built.Some? ==> built.value.points[restartIndex] <= k
        decreases numRestarts - restartIndex
      {
        if built.Some? {
          PointOrder(data, built.value, restartIndex + 1, k);
        }
        restartIndex := restartIndex + 1;
      }
      if built.Some? && restartIndex + 1 < numRestarts {
        PointOrder(data, built.value, restartIndex + 1, k);
      }
    }

    // ----- The public operations: over a built block, those of a cursor on its entries -----

    method Next()
      requires Inv() && Valid()
      modifies this
      ensures Inv() && (built.Some? ==> pos == old(pos) + 1)
    {
      if built.Some? {
        StandingIsReady(built.value, pos, current, valueEnd, key, value, restartIndex);
      }
      var ok := ParseNextKey(pos + 1);
    }

    method SeekToFirst()
      requires Inv()
      modifies this
      ensures Inv() && (built.Some? ==> pos == 0)
    {
      SeekToRestartPoint(0);
      var ok := ParseNextKey(0);
    }

    /** Parses entries as long as they end before `limit`; in a built block that is up to the entry
        that ends there, and there is one. */
    method ParseUpTo(limit: nat, ghost k: nat, ghost last: nat)
      requires Opened() && restartIndex < numRestarts && valueEnd <= restarts
      requires built.Some? ==> !corrupt && ReadyFor(built.value, k, valueEnd, key, restartIndex)
      requires built.Some? ==> if Entries() == [] then last == 0 else k <= last < |Entries()| && limit == built.value.offsets[last + 1]
      modifies this
      ensures Inv() && (built.Some? ==> pos == last)
    {
      ghost var n: nat := k;
      var ok := ParseNextKey(n);
      while ok && valueEnd < limit
        invariant Inv() && ok == Valid()
        invariant built.Some? ==> if Entries() == [] then !ok else ok && pos == n <= last
        decreases ok, restarts - current
      {
        if built.Some? {
          StandingIsReady(built.value, pos, current, valueEnd, key, value, restartIndex);
          LaterEntry(n, last);
        }
        n := n + 1;
        ok := ParseNextKey(n);
      }
      if built.Some? && Entries() != [] {
        EntryNotPast(n, last);
      }
    }

    lemma LaterEntry(n: nat, last: nat)
      requires Opened() && built.Some? && n <= last < |Entries()|
      ensures built.value.offsets[n + 1] < built.value.offsets[last + 1] ==> n < last
    {
    }

    lemma EntryNotPast(n: nat, last: nat)
      requires Opened() && built.Some? && n <= last < |Entries()|
      ensures built.value.offsets[n + 1] >= built.value.offsets[last + 1] ==> n == last
    {
      OffsetsAscend(data[..restarts], built.value, n + 1, last + 1);
    }

    method SeekToLast()
      requires Inv()
      modifies this
      ensures Inv() && (built.Some? ==> pos == if Entries() == [] then 0 else |Entries()| - 1)
    {
      SeekToRestartPoint(numRestarts - 1);
      ParseUpTo(restarts, if built.Some? then built.value.points[numRestarts - 1] else 0,
                if built.Some? && Entries() != [] then |Entries()| - 1 else 0);
    }

    /** Steps back by parsing forward from the last restart point before the current entry. */
    method Prev()
      requires Inv() && Valid()
      modifies this
      ensures Inv() && (built.Some? ==> pos == if old(pos) == 0 then |Entries()| else old(pos) - 1)
    {
      var original := current;
      ghost var was := pos;
      while RestartPoint(data, restarts, restartIndex) >= original
        invariant Opened() && restartIndex < numRestarts && current == original < restarts && pos == was
        invariant built.Some? ==> !corrupt && was < |Entries()| && original == built.value.offsets[was]
        decreases restartIndex
      {
        if built.Some? {
          PointOrder(data, built.value, restartIndex, was);
        }
        if restartIndex == 0 {
          current, restartIndex := restarts, numRestarts;
          pos := if built.Some? then |built.value.kvs| else 0;
          return;
        }
        restartIndex := restartIndex - 1;
      }
      if built.Some? {
        PointOrder(data, built.value, restartIndex, was);
      }
      SeekToRestartPoint(restartIndex);
      ParseUpTo(original, if built.Some? then built.value.points[restartIndex] else 0, if was > 0 then was - 1 else 0);
    }

    /** Binary search over the restart points for the last one with a key below the target, then a
        scan of that restart block: the first entry not below the target. */
    method Seek(target: Bytes)
      requires Inv()
      requires StrictOrder(less) && (built.Some? ==> Ascending(less, Entries()))
      modifies this
      ensures Inv()
      ensures built.Some? ==>
        && pos <= |Entries()|
        && (forall j :: 0 <= j < pos ==> less(Entries()[j].key, target))
        && (pos < |Entries()| ==> !less(Entries()[pos].key, target))
    {
      var left, right := 0, numRestarts - 1;
      while left < right
        invariant 0 <= left <= right < numRestarts && Inv()
        invariant built.Some? && left > 0 ==> PointBelow(left, target)
        decreases right - left
      {
        var mid := (left + right + 1) / 2;
        var regionOffset := GetRestartPoint(mid);
        if built.Some? {
          PointDecodes(mid);
        }
        var d := DecodeEntry(data[..restarts], regionOffset);
        if d.None? || d.value.shared != 0 {
          CorruptionError();
          return;
        }
        var midKey := data[..restarts][d.value.at..d.value.at + d.value.nonShared];
        if less(midKey, target) {
          left := mid;
        } else {
          right := mid - 1;
        }
      }
      SeekToRestartPoint(left);
      ghost var k := if built.Some? then built.value.points[left] else 0;
      if built.Some? && left > 0 {
        EarlierBelow(k, target);
      }
      ScanTo(target, k);
    }

    /** The key at restart point r is below the target. */
    ghost predicate PointBelow(r: nat, target: Bytes)
      requires Opened() && built.Some?
    {
      r < numRestarts && built.value.points[r] < |Entries()| && less(Entries()[built.value.points[r]].key, target)
    }

    /** The entry at a restart point is stored whole. */
    lemma PointDecodes(r: nat)
      requires Opened() && built.Some? && 0 < r < numRestarts
      ensures built.value.points[r] < |Entries()|
      ensures var d := DecodeEntry(data[..restarts], RestartPoint(data, restarts, r));
        && d.Some? && d.value.shared == 0
        && data[..restarts][d.value.at..d.value.at + d.value.nonShared] == Entries()[built.value.points[r]].key
    {
      var k := built.value.points[r];
      assert Shares(built.value, k);
      DecodesAt(data[..restarts], built.value, k, []);
      var d := DecodeEntry(data[..restarts], RestartPoint(data, restarts, r));
      assert [] + data[..restarts][d.value.at..d.value.at + d.value.nonShared] == data[..restarts][d.value.at..d.value.at + d.value.nonShared];
    }

    /** Linear search for the first key at or after the target. */
    method ScanTo(target: Bytes, ghost k: nat)
      requires Opened() && restartIndex < numRestarts && valueEnd <= restarts
      requires built.Some? ==> !corrupt && ReadyFor(built.value, k, valueEnd, key, restartIndex)
      requires built.Some? ==> AllBelow(k, target)
      modifies this
      ensures Inv()
      ensures built.Some? ==>
        && pos <= |Entries()|
        && (forall j :: 0 <= j < pos ==> less(Entries()[j].key, target))
        && (pos < |Entries()| ==> !less(Entries()[pos].key, target))
    {
      ghost var n: nat := k;
      var ok := ParseNextKey(n);
      while ok && less(key, target)
        invariant Inv() && ok == Valid()
        invariant built.Some? ==> pos == n && AllBelow(n, target)
        decreases ok, restarts - current
      {
        if built.Some? {
          StandingIsReady(built.value, pos, current, valueEnd, key, value, restartIndex);
        }
        n := n + 1;
        ok := ParseNextKey(n);
      }
    }

    lemma EarlierBelow(k: nat, target: Bytes)
      requires built.Some? && k < |Entries()| && StrictOrder(less) && Ascending(less, Entries()) && less(Entries()[k].key, target)
      ensures AllBelow(k, target)
    {
    }

    ghost predicate AllBelow(n: nat, target: Bytes)
      requires built.Some?
    {
      n <= |Entries()| && forall j :: 0 <= j < n ==> less(Entries()[j].key, target)
    }
  }

  /** Block::Block and NewIterator's checks: where the restart array starts, and how many there are;
      nothing for contents too short, and zero restarts for the empty iterator. */
  function OpenBlock(data: Bytes): Option<(nat, nat)> {
    if |data| < 4 || NumRestarts(data) > (|data| - 4) / 4 then None
    else Some((|data| - 4 * (1 + NumRestarts(data)), NumRestarts(data)))
  }

  lemma OpensBuilt(data: Bytes, s: Shape)
    requires IsBlock(data, s)
    ensures OpenBlock(data) == Some((s.offsets[|s.kvs|], |s.points|))
    ensures Iter.InBounds(data, s.offsets[|s.kvs|], |s.points|)
  {
    forall r | 0 <= r < |s.points| ensures RestartPoint(data, s.offsets[|s.kvs|], r) <= s.offsets[|s.kvs|] {
      OffsetsAscend(data[..s.offsets[|s.kvs|]], s, s.points[r], |s.kvs|);
    }
  }

  /** NewIterator on a finished block: a cursor over exactly the entries added to its builder. */
  method NewIterator(less: Order, data: Bytes, ghost s: Shape) returns (iter: Iter)
    requires IsBlock(data, s)
    ensures fresh(iter) && iter.Inv() && !iter.Valid() && iter.built == Some(s) && iter.Entries() == s.kvs && iter.less == less
  {
    OpensBuilt(data, s);
    var found := OpenBlock(data);
    iter := new Iter(less, data, found.value.0, found.value.1, Some(s));
  }
}
