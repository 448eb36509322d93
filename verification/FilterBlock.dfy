/** Filter blocks: one filter for every 2 KB of data blocks, with no false negatives (table/filter_block.cc). */
module FilterBlock {
  import opened InternalKeys
  import opened Coding
  import opened BlockFormat
  import opened BlockBuilder
  import opened Bloom

  const FILTER_BASE_LG: byte := 11
  const FILTER_BASE: nat := 2048

  /** The index of the filter that covers a block at this offset. */
  function FilterIndex(blockOffset: nat): nat {
    blockOffset / FILTER_BASE
  }

  datatype AddedKey = AddedKey(index: nat, key: Bytes)

  // ----- Flattened keys -----

  /** start cuts keys into consecutive pieces. */
  ghost predicate Cuts(keys: Bytes, start: seq<nat>) {
    && (forall i :: 0 <= i < |start| ==> start[i] <= |keys|)
    && (forall i, j :: 0 <= i < j < |start| ==> start[i] <= start[j])
  }

  function KeyAt(keys: Bytes, start: seq<nat>, i: nat): Bytes
    requires i < |start| && start[i] <= (if i + 1 < |start| then start[i + 1] else |keys|) <= |keys|
  {
    keys[start[i]..if i + 1 < |start| then start[i + 1] else |keys|]
  }

  ghost predicate IsPending(keys: Bytes, start: seq<nat>, key: Bytes)
    requires Cuts(keys, start)
  {
    exists i :: 0 <= i < |start| && KeyAt(keys, start, i) == key
  }

  lemma PendingGrows(keys: Bytes, start: seq<nat>, key: Bytes)
    requires Cuts(keys, start)
    ensures Cuts(keys + key, start + [|keys|])
    ensures IsPending(keys + key, start + [|keys|], key)
    ensures forall other :: IsPending(keys, start, other) ==> IsPending(keys + key, start + [|keys|], other)
  {
    var keys', start' := keys + key, start + [|keys|];
    assert KeyAt(keys', start', |start|) == key;
    forall other | IsPending(keys, start, other) ensures IsPending(keys', start', other) {
      var i :| 0 <= i < |start| && KeyAt(keys, start, i) == other;
      assert KeyAt(keys', start', i) == other;
    }
  }

  // ----- Generated filters -----

  /** Filter i of the result. */
  function FilterAt(result: Bytes, offsets: seq<nat>, i: nat): Bytes
    requires i < |offsets| && offsets[i] <= (if i + 1 < |offsets| then offsets[i + 1] else |result|) <= |result|
  {
    result[offsets[i]..if i + 1 < |offsets| then offsets[i + 1] else |result|]
  }

  /** Every added key is in its filter, or waits for the next one. */
  ghost predicate Covered(policy: BloomFilterPolicy, a: AddedKey, result: Bytes, offsets: seq<nat>, keys: Bytes, start: seq<nat>)
    requires Cuts(result, offsets) && Cuts(keys, start)
  {
    if a.index < |offsets| then policy.Contains(FilterAt(result, offsets, a.index), a.key)
    else a.index == |offsets| && IsPending(keys, start, a.key)
  }

  lemma FilterAppended(result: Bytes, offsets: seq<nat>, more: Bytes, i: nat)
    requires Cuts(result, offsets) && i <= |offsets|
    ensures Cuts(result + more, offsets + [|result|])
    ensures FilterAt(result + more, offsets + [|result|], i) == if i < |offsets| then FilterAt(result, offsets, i) else more
  {
  }

  class FilterBlockBuilder {
    const policy: BloomFilterPolicy
    var keys: Bytes
    var start: seq<nat>
    var result: Bytes
    var filterOffsets: seq<nat>
    /** Every key added, with the index of the filter it belongs to. */
    ghost var added: seq<AddedKey>

    constructor (policy: BloomFilterPolicy)
      requires 1 <= policy.k <= 30
      ensures this.policy == policy && Valid() && added == [] && filterOffsets == []
    {
      this.policy := policy;
      keys, start, result, filterOffsets, added := [], [], [], [], [];
    }

    ghost predicate Valid()
      reads this
    {
      && 1 <= policy.k <= 30 && Cuts(result, filterOffsets) && Cuts(keys, start)
      && forall a :: a in added ==> Covered(policy, a, result, filterOffsets, keys, start)
    }

    /** Data blocks come with nondecreasing offsets: filters before this block's are made now, so keys
        added from here on go to the filter of this block offset. */
    method StartBlock(blockOffset: nat)
      requires Valid() && FilterIndex(blockOffset) >= |filterOffsets|
      modifies this
      ensures Valid() && added == old(added) && |filterOffsets| == FilterIndex(blockOffset)
      ensures |result| + |start| * policy.bitsPerKey <= |old(result)| + |old(start)| * policy.bitsPerKey + 66
    {
      var filterIndex := FilterIndex(blockOffset);
      while filterIndex > |filterOffsets|
        invariant Valid() && added == old(added) && |filterOffsets| <= filterIndex
        invariant (start == old(start) && result == old(result))
          || (start == [] && |result| <= |old(result)| + |old(start)| * policy.bitsPerKey + 66)
        decreases filterIndex - |filterOffsets|
      {
        GenerateFilter();
      }
    }

    method AddKey(key: Bytes)
      requires Valid()
      modifies this
      ensures Valid() && added == old(added) + [AddedKey(|filterOffsets|, key)] && filterOffsets == old(filterOffsets)
    {
      PendingGrows(keys, start, key);
      start := start + [|keys|];
      keys := keys + key;
      added := added + [AddedKey(|filterOffsets|, key)];
    }

    method GenerateFilter()
      requires Valid()
      modifies this
      ensures Valid() && added == old(added) && |filterOffsets| == |old(filterOffsets)| + 1 && start == []
      ensures |result| <= |old(result)| + |old(start)| * policy.bitsPerKey + 66
      ensures old(start) == [] ==> result == old(result)
    {
      var filter: Bytes := [];
      if |start| > 0 {
        var tmpKeys := KeyList();
        filter := policy.CreateFilter(tmpKeys);
      }
      ghost var offsets := filterOffsets;
      forall a | a in added ensures a.index <= |offsets| && (a.index == |offsets| ==> policy.Contains(filter, a.key)) {
        assert Covered(policy, a, result, offsets, keys, start);
      }
      forall a | a in added
        ensures Cuts(result + filter, offsets + [|result|])
        ensures Covered(policy, a, result + filter, offsets + [|result|], [], [])
      {
        FilterAppended(result, offsets, filter, a.index);
        assert Covered(policy, a, result, offsets, keys, start);
      }
      FilterAppended(result, offsets, filter, |offsets|);
      filterOffsets := filterOffsets + [|result|];
      result := result + filter;
      keys, start := [], [];
    }

    /** The keys that wait, as a list. */
    method KeyList() returns (list: seq<Bytes>)
      requires Valid()
      ensures |list| == |start| && forall key :: IsPending(keys, start, key) ==> key in list
    {
      list := [];
      for i := 0 to |start|
        invariant |list| == i && forall j :: 0 <= j < i ==> list[j] == KeyAt(keys, start, j)
      {
        list := list + [KeyAt(keys, start, i)];
      }
      forall key | IsPending(keys, start, key) ensures key in list {
        var i :| 0 <= i < |start| && KeyAt(keys, start, i) == key;
        assert list[i] == key;
      }
    }

    /** The filters, their offsets, where the offsets start, and the base. */
    method Finish() returns (contents: Bytes)
      requires Valid() && |result| + |start| * policy.bitsPerKey + 4 * |filterOffsets| + 128 < TWO_32
      modifies this
      ensures FinishedAs(contents, result, filterOffsets) && added == old(added)
      ensures forall a :: a in added ==> a.index < |filterOffsets| && policy.Contains(FilterAt(result, filterOffsets, a.index), a.key)
    {
      if start != [] {
        GenerateFilter();
      }
      forall a | a in added ensures a.index < |filterOffsets| && policy.Contains(FilterAt(result, filterOffsets, a.index), a.key) {
        assert Covered(policy, a, result, filterOffsets, keys, start);
      }
      contents := result;
      for i := 0 to |filterOffsets|
        invariant contents == result + Fixed32s(filterOffsets, i)
      {
        contents := contents + Fixed32(filterOffsets[i] as uint32);
      }
      contents := contents + Fixed32(|result| as uint32);
      contents := contents + [FILTER_BASE_LG];
    }
  }

  /** The contents of a finished filter block. */
  ghost predicate FinishedAs(contents: Bytes, result: Bytes, offsets: seq<nat>) {
    && Cuts(result, offsets) && |contents| < TWO_32 && (forall i :: 0 <= i < |offsets| ==> offsets[i] < TWO_32) && |result| < TWO_32
    && contents == result + Fixed32s(offsets, |offsets|) + Fixed32(|result| as uint32) + [FILTER_BASE_LG]
  }

  /** Words of the offset array, the one after the last included. */
  lemma OffsetWord(contents: Bytes, result: Bytes, offsets: seq<nat>, i: nat)
    requires FinishedAs(contents, result, offsets) && i <= |offsets|
    ensures |contents| == |result| + 4 * |offsets| + 5
    ensures DecodeFixed32(contents[|result| + 4 * i..]) as nat == if i < |offsets| then offsets[i] else |result|
  {
    var last := Fixed32(|result| as uint32) + [FILTER_BASE_LG];
    if i < |offsets| {
      Fixed32sAt(result, offsets, |offsets|, last, i);
      assert contents == result + Fixed32s(offsets, |offsets|) + last;
    } else {
      assert contents[|result| + 4 * i..] == last;
      Fixed32RoundTrip(|result| as uint32, [FILTER_BASE_LG]);
    }
  }

  /** What the reader decodes from a finished block. */
  lemma ReaderDecodes(contents: Bytes, result: Bytes, offsets: seq<nat>, blockOffset: nat)
    requires FinishedAs(contents, result, offsets)
    ensures |contents| == |result| + 4 * |offsets| + 5
    ensures DecodeFixed32(contents[|contents| - 5..]) as nat == |result|
    ensures Shifted(blockOffset, contents[|contents| - 1] as nat) == FilterIndex(blockOffset)
  {
    OffsetWord(contents, result, offsets, |offsets|);
    ShiftIsIndex(blockOffset);
  }

  lemma FilterSlice(contents: Bytes, result: Bytes, offsets: seq<nat>, i: nat)
    requires FinishedAs(contents, result, offsets) && i < |offsets|
    ensures |contents| == |result| + 4 * |offsets| + 5
    ensures var start, limit := DecodeFixed32(contents[|result| + 4 * i..]) as nat, DecodeFixed32(contents[|result| + 4 * i + 4..]) as nat;
      start <= limit <= |result| && contents[start..limit] == FilterAt(result, offsets, i)
  {
    OffsetWord(contents, result, offsets, i);
    OffsetWord(contents, result, offsets, i + 1);
    assert 4 * (i + 1) == 4 * i + 4;
  }

  class FilterBlockReader {
    const policy: BloomFilterPolicy
    const contents: Bytes
    /** The filters and their offsets, when the contents are those of a finished block. */
    ghost const result: Bytes
    ghost const offsets: seq<nat>

    constructor (policy: BloomFilterPolicy, contents: Bytes, ghost result: Bytes, ghost offsets: seq<nat>)
      ensures this.policy == policy && this.contents == contents && this.result == result && this.offsets == offsets
    {
      this.policy, this.contents, this.result, this.offsets := policy, contents, result, offsets;
    }

    /** The key is in the filter of this block offset. */
    ghost predicate Has(blockOffset: nat, key: Bytes) {
      && FinishedAs(contents, result, offsets) && FilterIndex(blockOffset) < |offsets|
      && policy.Contains(FilterAt(result, offsets, FilterIndex(blockOffset)), key)
    }

    /** For any contents; what cannot be read may match. */
    method KeyMayMatch(blockOffset: nat, key: Bytes) returns (may: bool)
      ensures FinishedAs(contents, result, offsets) ==>
        (may <==> FilterIndex(blockOffset) < |offsets| ==> policy.Matches(FilterAt(result, offsets, FilterIndex(blockOffset)), key))
      ensures Has(blockOffset, key) ==> may
      ensures |contents| < 5 ==> may
    {
      var n := |contents|;
      if n < 5 {
        return true;
      }
      var lastWord := DecodeFixed32(contents[n - 5..]) as nat;
      if FinishedAs(contents, result, offsets) {
        ReaderDecodes(contents, result, offsets, blockOffset);
      }
      if lastWord > n - 5 {
        return true;
      }
      may := AskFilter(policy, contents, lastWord, Shifted(blockOffset, contents[n - 1] as nat), key, result, offsets);
    }
  }

  /** The index is known; beyond the last filter everything may match. */
  method AskFilter(policy: BloomFilterPolicy, contents: Bytes, lastWord: nat, index: nat, key: Bytes, ghost result: Bytes, ghost offsets: seq<nat>)
    returns (may: bool)
    requires lastWord + 5 <= |contents|
    ensures FinishedAs(contents, result, offsets) && lastWord == |result| ==>
      (may <==> index < |offsets| ==> policy.Matches(FilterAt(result, offsets, index), key))
  {
    var num := (|contents| - 5 - lastWord) / 4;
    ghost var good := FinishedAs(contents, result, offsets) && lastWord == |result|;
    if good {
      OffsetWord(contents, result, offsets, |offsets|);
    }
    may := true;
    if index < num {
      if good {
        FilterSlice(contents, result, offsets, index);
      }
      may := FilterMatches(policy, contents, lastWord, index, key);
    }
  }

  /** The test of one filter, given where the offset array starts. */
  method FilterMatches(policy: BloomFilterPolicy, contents: Bytes, lastWord: nat, index: nat, key: Bytes) returns (may: bool)
    requires lastWord + 4 * index + 8 < |contents|
    ensures var start, limit := DecodeFixed32(contents[lastWord + 4 * index..]) as nat, DecodeFixed32(contents[lastWord + 4 * index + 4..]) as nat;
      if start <= limit <= lastWord then may <==> policy.Matches(contents[start..limit], key) else may <==> start != limit
  {
    var start := DecodeFixed32(contents[lastWord + 4 * index..]) as nat;
    var limit := DecodeFixed32(contents[lastWord + 4 * index + 4..]) as nat;
    if start <= limit <= lastWord {
      may := policy.KeyMayMatch(key, contents[start..limit]);
    } else {
      may := start != limit;
    }
  }

  /** blockOffset >> lg. */
  function Shifted(blockOffset: nat, lg: nat): nat {
    if lg == 0 then blockOffset else Shifted(blockOffset / 2, lg - 1)
  }

  lemma ShiftIsIndex(blockOffset: nat)
    ensures Shifted(blockOffset, FILTER_BASE_LG as nat) == FilterIndex(blockOffset)
  {
    ShiftedTwice(blockOffset, 11, 1);
    assert blockOffset / 1 == blockOffset;
    assert Pow2(11) == 2 * (2 * (2 * (2 * (2 * (2 * (2 * (2 * (2 * (2 * (2 * Pow2(0)))))))))));
  }

  lemma {:induction false} ShiftedTwice(x: nat, lg: nat, m: nat)
    requires m > 0
    ensures Shifted(x / m, lg) == x / (m * Pow2(lg))
  {
    if lg == 0 {
      assert m * Pow2(0) == m;
    } else {
      QuotientOf(x, m, 2);
      ShiftedTwice(x, lg - 1, m * 2);
      assert m * 2 * Pow2(lg - 1) == m * Pow2(lg);
    }
  }

  // ----- No false negatives -----

  /** Finishing a filter block and asking the reader for a key that was added under a block offset. */
  method AddedKeyMatches(builder: FilterBlockBuilder, blockOffset: nat, key: Bytes) returns (may: bool)
    requires builder.Valid() && AddedKey(FilterIndex(blockOffset), key) in builder.added
    requires |builder.result| + |builder.start| * builder.policy.bitsPerKey + 4 * |builder.filterOffsets| + 128 < TWO_32
    modifies builder
    ensures may
  {
    var contents := builder.Finish();
    var reader := new FilterBlockReader(builder.policy, contents, builder.result, builder.filterOffsets);
    may := reader.KeyMayMatch(blockOffset, key);
  }
}
