/** Building a block: prefix compression with restart points (table/block_builder.cc). */
module BlockBuilder {
  import opened InternalKeys
  import opened Coding
  import opened BlockFormat

  // ----- What one more entry does to the shape -----

  /** How many bytes key shares with last, at most all of either. */
  ghost predicate Shared(last: Bytes, key: Bytes, n: nat) {
    n <= |last| && n <= |key| && key[..n] == last[..n]
  }

  ghost function Extended(s: Shape, kv: KeyValue, shared: nat, restart: bool): Shape
    requires GoodShape(s) && shared <= |kv.key|
  {
    Shape(s.kvs + [kv], s.offsets + [s.offsets[|s.kvs|] + |EncodeEntry(shared, kv)|], s.shared + [shared],
          if restart then s.points + [|s.kvs|] else s.points)
  }

  lemma ExtendedPoints(s: Shape, kv: KeyValue, shared: nat, restart: bool)
    requires GoodShape(s) && shared <= |kv.key|
    requires restart ==> shared == 0 && s.kvs != []
    requires s.kvs == [] ==> shared == 0
    ensures GoodPoints(Extended(s, kv, shared, restart))
  {
    var t := Extended(s, kv, shared, restart);
    forall r, q | 0 <= r < q < |t.points| ensures t.points[r] < t.points[q] {
      if q < |s.points| {
        assert s.points[r] < s.points[q];
      }
    }
    forall r | 0 <= r < |t.points| && t.points[r] < |t.kvs| ensures t.shared[t.points[r]] == 0 {
      if r < |s.points| && s.points[r] < |s.kvs| {
        assert s.shared[s.points[r]] == 0;
      }
    }
  }

  lemma ExtendedShape(s: Shape, kv: KeyValue, shared: nat, restart: bool)
    requires GoodShape(s) && |kv.key| < TWO_32 && |kv.value| < TWO_32
    requires Shared(if s.kvs == [] then [] else s.kvs[|s.kvs| - 1].key, kv.key, shared)
    requires restart ==> shared == 0 && s.kvs != []
    ensures GoodShape(Extended(s, kv, shared, restart))
  {
    var t := Extended(s, kv, shared, restart);
    ExtendedPoints(s, kv, shared, restart);
    forall i | 0 <= i < |t.kvs| ensures Shares(t, i) {
      if i < |s.kvs| {
        assert Shares(s, i);
      }
    }
  }

  lemma ExtendedHolds(bytes: Bytes, s: Shape, kv: KeyValue, shared: nat, restart: bool)
    requires GoodShape(s) && Holds(bytes, s) && shared <= |kv.key| && GoodShape(Extended(s, kv, shared, restart))
    ensures Holds(bytes + EncodeEntry(shared, kv), Extended(s, kv, shared, restart))
  {
    var t, more := Extended(s, kv, shared, restart), bytes + EncodeEntry(shared, kv);
    var n := |s.kvs|;
    forall i | 0 <= i <= n ensures EntryAt(more, t, i) {
      assert Shares(t, i);
      if i < n {
        assert EntryAt(bytes, s, i) && Shares(s, i);
        assert more[t.offsets[i]..t.offsets[i + 1]] == bytes[s.offsets[i]..s.offsets[i + 1]];
      } else {
        assert more[t.offsets[n]..t.offsets[n + 1]] == EncodeEntry(shared, kv);
      }
    }
  }

  /** Entry i leaves out all that it shares with the key before it. */
  ghost predicate SharesAll(s: Shape, i: nat)
    requires i < |s.kvs| == |s.shared|
  {
    var n, last := s.shared[i], if i == 0 then [] else s.kvs[i - 1].key;
    n <= |last| && n <= |s.kvs[i].key| && (n == |last| || n == |s.kvs[i].key| || last[n] != s.kvs[i].key[n])
  }

  predicate SpacedAt(points: seq<nat>, r: nat, interval: nat)
    requires 0 < r < |points|
  {
    points[r] == points[r - 1] + interval
  }

  /** Every restart block but the last holds `interval` entries, and outside restart points nothing
      that is shared is stored again. */
  ghost predicate Compressed(s: Shape, interval: nat)
    requires GoodShape(s)
  {
    && (forall i {:trigger SharesAll(s, i)} :: 0 <= i < |s.kvs| ==> i in s.points || SharesAll(s, i))
    && (forall r {:trigger SpacedAt(s.points, r, interval)} :: 0 < r < |s.points| ==> SpacedAt(s.points, r, interval))
    && |s.kvs| <= s.points[|s.points| - 1] + interval
  }

  lemma ExtendedCompressed(s: Shape, kv: KeyValue, shared: nat, restart: bool, interval: nat)
    requires GoodShape(s) && Compressed(s, interval) && interval > 0 && shared <= |kv.key|
    requires GoodShape(Extended(s, kv, shared, restart))
    requires restart <==> |s.kvs| == s.points[|s.points| - 1] + interval
    requires !restart ==> SharesAll(Extended(s, kv, shared, restart), |s.kvs|)
    ensures Compressed(Extended(s, kv, shared, restart), interval)
  {
    var t := Extended(s, kv, shared, restart);
    forall i | 0 <= i < |t.kvs| ensures i in t.points || SharesAll(t, i) {
      if i < |s.kvs| {
        if i in s.points {
          assert i in t.points;
        } else {
          assert SharesAll(s, i);
        }
      } else if restart {
        assert t.points[|s.points|] == i;
      }
    }
    forall r | 0 < r < |t.points| ensures SpacedAt(t.points, r, interval) {
      assert r < |s.points| ==> SpacedAt(s.points, r, interval);
    }
  }

  // ----- The restart array -----

  function Fixed32s(vs: seq<nat>, n: nat): (r: Bytes)
    requires n <= |vs| && forall i :: 0 <= i < n ==> vs[i] < TWO_32
    ensures |r| == 4 * n
  {
    if n == 0 then [] else Fixed32s(vs, n - 1) + Fixed32(vs[n - 1] as uint32)
  }

  lemma WordAt(front: Bytes, v: uint32, rest: Bytes)
    ensures DecodeFixed32((front + Fixed32(v) + rest)[|front|..]) == v
  {
    assert (front + Fixed32(v) + rest)[|front|..] == Fixed32(v) + rest;
    Fixed32RoundTrip(v, rest);
  }

  lemma Regrouped(a: Bytes, b: Bytes, c: Bytes, d: Bytes)
    ensures a + (b + c) + d == (a + b) + c + d && a + (b + c) + d == a + b + (c + d)
  {
  }

  lemma {:induction false} Fixed32sAt(prefix: Bytes, vs: seq<nat>, n: nat, rest: Bytes, i: nat)
    requires i < n <= |vs| && forall j :: 0 <= j < n ==> vs[j] < TWO_32
    ensures |prefix + Fixed32s(vs, n) + rest| >= |prefix| + 4 * i + 4
    ensures RestartPoint(prefix + Fixed32s(vs, n) + rest, |prefix|, i) == vs[i]
  {
    var last := Fixed32(vs[n - 1] as uint32);
    Regrouped(prefix, Fixed32s(vs, n - 1), last, rest);
    if i == n - 1 {
      WordAt(prefix + Fixed32s(vs, n - 1), vs[n - 1] as uint32, rest);
    } else {
      Fixed32sAt(prefix, vs, n - 1, last + rest, i);
    }
  }

  /** The fields of a builder that has added the entries of s. */
  ghost predicate Builds(s: Shape, buffer: Bytes, restarts: seq<nat>, counter: nat, lastKey: Bytes, interval: nat) {
    && GoodShape(s) && Holds(buffer, s) && |buffer| < TWO_32 && Compressed(s, interval)
    && |restarts| == |s.points| && (forall r :: 0 <= r < |restarts| ==> restarts[r] == s.offsets[s.points[r]])
    && EndsWith(s, counter, lastKey)
  }

  /** The number of entries since the last restart point, and the last key. */
  predicate EndsWith(s: Shape, counter: nat, lastKey: Bytes)
    requires |s.points| > 0
  {
    counter == |s.kvs| - s.points[|s.points| - 1] && lastKey == if |s.kvs| == 0 then [] else s.kvs[|s.kvs| - 1].key
  }

  lemma ExtendedEnds(s: Shape, counter: nat, lastKey: Bytes, kv: KeyValue, shared: nat, restart: bool)
    requires GoodShape(s) && shared <= |kv.key| && EndsWith(s, counter, lastKey)
    ensures EndsWith(Extended(s, kv, shared, restart), if restart then 1 else counter + 1, kv.key)
  {
  }

  /** What is left out of the next key, and whether a restart block begins with it. */
  ghost predicate Chosen(lastKey: Bytes, key: Bytes, counter: nat, interval: nat, shared: nat, restart: bool) {
    && Shared(lastKey, key, shared) && (restart <==> counter == interval)
    && if restart then shared == 0 else shared == |lastKey| || shared == |key| || lastKey[shared] != key[shared]
  }

  lemma ExtendedEntries(s: Shape, buffer: Bytes, counter: nat, lastKey: Bytes, interval: nat, kv: KeyValue, shared: nat, restart: bool)
    requires GoodShape(s) && Holds(buffer, s) && Compressed(s, interval) && interval > 0
    requires |kv.key| < TWO_32 && |kv.value| < TWO_32
    requires EndsWith(s, counter, lastKey) && Chosen(lastKey, kv.key, counter, interval, shared, restart)
    ensures var t := Extended(s, kv, shared, restart);
      GoodShape(t) && Holds(buffer + EncodeEntry(shared, kv), t) && Compressed(t, interval)
  {
    ExtendedShape(s, kv, shared, restart);
    ExtendedHolds(buffer, s, kv, shared, restart);
    ExtendedCompressed(s, kv, shared, restart, interval);
  }

  /** One more entry. */
  lemma ExtendedBuilds(s: Shape, buffer: Bytes, restarts: seq<nat>, counter: nat, lastKey: Bytes, interval: nat,
                       kv: KeyValue, shared: nat, restart: bool,
                       t: Shape, buffer': Bytes, restarts': seq<nat>, counter': nat, lastKey': Bytes)
    requires Builds(s, buffer, restarts, counter, lastKey, interval) && interval > 0
    requires |buffer| + |kv.key| + |kv.value| + 15 < TWO_32
    requires Chosen(lastKey, kv.key, counter, interval, shared, restart)
    requires restarts' == if restart then restarts + [|buffer|] else restarts
    requires buffer' == buffer + EncodeEntry(shared, kv)
    requires counter' == (if restart then 1 else counter + 1) && lastKey' == lastKey[..shared] + kv.key[shared..]
    requires t == Extended(s, kv, shared, restart)
    ensures Builds(t, buffer', restarts', counter', lastKey', interval)
    ensures |buffer'| <= |buffer| + |kv.key| + |kv.value| + 15
  {
    KeyRebuilt(lastKey, kv.key, shared);
    ExtendedEntries(s, buffer, counter, lastKey, interval, kv, shared, restart);
    EntryLength(shared, kv);
    ExtendedEnds(s, counter, lastKey, kv, shared, restart);
    ExtendedRestarts(s, restarts, kv, shared, restart, |buffer|, restarts');
  }

  lemma KeyRebuilt(lastKey: Bytes, key: Bytes, shared: nat)
    requires Shared(lastKey, key, shared)
    ensures lastKey[..shared] + key[shared..] == key
  {
  }

  lemma ExtendedRestarts(s: Shape, restarts: seq<nat>, kv: KeyValue, shared: nat, restart: bool, end: nat, restarts': seq<nat>)
    requires GoodShape(s) && shared <= |kv.key| && end == s.offsets[|s.kvs|]
    requires |restarts| == |s.points| && forall r :: 0 <= r < |restarts| ==> restarts[r] == s.offsets[s.points[r]]
    requires restarts' == if restart then restarts + [end] else restarts
    requires GoodShape(Extended(s, kv, shared, restart))
    ensures var t := Extended(s, kv, shared, restart);
      |restarts'| == |t.points| && forall r :: 0 <= r < |restarts'| ==> restarts'[r] == t.offsets[t.points[r]]
  {
    var t := Extended(s, kv, shared, restart);
    forall r | 0 <= r < |restarts'| ensures restarts'[r] == t.offsets[t.points[r]] {
      if r < |restarts| {
        assert restarts[r] == s.offsets[s.points[r]];
      }
    }
  }

  class BlockBuilder {
    const restartInterval: nat
    var buffer: Bytes
    var restarts: seq<nat>
    var counter: nat
    var finished: bool
    var lastKey: Bytes
    ghost var shape: Shape

    constructor (restartInterval: nat)
      requires restartInterval >= 1
      ensures this.restartInterval == restartInterval && Valid() && Empty() && buffer == [] && restarts == [0]
    {
      this.restartInterval := restartInterval;
      buffer, restarts, counter, finished, lastKey := [], [0], 0, false, [];
      shape := Shape([], [0], [], [0]);
    }

    ghost predicate Empty()
      reads this
    {
      shape.kvs == [] && !finished
    }

    ghost predicate Valid()
      reads this
    {
      restartInterval >= 1 && (!finished ==> Builds(shape, buffer, restarts, counter, lastKey, restartInterval))
    }

    method Reset()
      requires Valid()
      modifies this
      ensures Valid() && Empty() && buffer == [] && restarts == [0]
    {
      buffer, restarts, counter, finished, lastKey := [], [0], 0, false, [];
      shape := Shape([], [0], [], [0]);
    }

    /** How much of the key is left out, and whether this entry starts a restart block. */
    method ShareOrRestart(key: Bytes) returns (shared: nat, restart: bool)
      requires Valid() && !finished
      modifies this`restarts, this`counter
      ensures Chosen(lastKey, key, old(counter), restartInterval, shared, restart)
      ensures restarts == if restart then old(restarts) + [|buffer|] else old(restarts)
      ensures counter == if restart then 0 else old(counter)
    {
      shared, restart := 0, false;
      if counter < restartInterval {
        var minLength := if |lastKey| < |key| then |lastKey| else |key|;
        while shared < minLength && lastKey[shared] == key[shared]
          invariant shared <= minLength && key[..shared] == lastKey[..shared]
        {
          shared := shared + 1;
        }
      } else {
        restarts := restarts + [|buffer|];
        counter := 0;
        restart := true;
      }
    }

    /** Adds one entry to the shape; the keys before it stay as they were. */
    method Add(key: Bytes, value: Bytes)
      requires Valid() && !finished && |buffer| + |key| + |value| + 15 < TWO_32
      modifies this
      ensures Valid() && !finished && shape.kvs == old(shape.kvs) + [KeyValue(key, value)]
      ensures |buffer| <= |old(buffer)| + |key| + |value| + 15 && |restarts| <= |old(restarts)| + 1
    {
      ghost var s, b, r, c, l, kv := shape, buffer, restarts, counter, lastKey, KeyValue(key, value);
      var shared, restart := ShareOrRestart(key);
      var entry := EntryBytes(shared, key, value);
      buffer := buffer + entry;
      lastKey := lastKey[..shared] + key[shared..];
      counter := counter + 1;
      shape := Extended(s, kv, shared, restart);
      ExtendedBuilds(s, b, r, c, l, restartInterval, kv, shared, restart, shape, buffer, restarts, counter, lastKey);
    }

    /** Appends the restart array: the result is a block of the shape built. */
    method Finish() returns (block: Bytes)
      requires Valid() && !finished && |buffer| + 4 * |restarts| + 4 < TWO_32
      modifies this
      ensures Valid() && finished && shape == old(shape) && IsBlock(block, shape) && Compressed(shape, restartInterval)
    {
      ghost var entries := buffer;
      RestartsSmall();
      for i := 0 to |restarts|
        invariant |restarts| == old(|restarts|) && restarts == old(restarts)
        invariant buffer == entries + Fixed32s(restarts, i)
        invariant shape == old(shape) && finished == old(finished) && counter == old(counter) && restartInterval >= 1
      {
        buffer := buffer + Fixed32(restarts[i] as uint32);
      }
      buffer := buffer + Fixed32(|restarts| as uint32);
      finished := true;
      block := buffer;
      FinishedIsBlock(entries, shape, restarts, block);
    }

    lemma RestartsSmall()
      requires Valid() && !finished
      ensures forall r :: 0 <= r < |restarts| ==> restarts[r] < TWO_32
    {
      forall r | 0 <= r < |restarts| ensures restarts[r] < TWO_32 {
        OffsetsAscend(buffer, shape, shape.points[r], shape.points[r]);
      }
    }
  }

  /** The three lengths, the rest of the key, and the value. */
  method EntryBytes(shared: nat, key: Bytes, value: Bytes) returns (entry: Bytes)
    requires shared <= |key| < TWO_32 && |value| < TWO_32
    ensures entry == EncodeEntry(shared, KeyValue(key, value))
  {
    var a := EncodeVarint32(shared as uint32);
    var b := EncodeVarint32((|key| - shared) as uint32);
    var c := EncodeVarint32(|value| as uint32);
    entry := a + b + c + key[shared..] + value;
  }

  lemma EntryLength(shared: nat, kv: KeyValue)
    requires shared <= |kv.key| < TWO_32 && |kv.value| < TWO_32
    ensures |EncodeEntry(shared, kv)| <= |kv.key| + |kv.value| + 15
  {
    VarintFits32(shared as uint32);
    VarintFits32((|kv.key| - shared) as uint32);
    VarintFits32(|kv.value| as uint32);
  }

  lemma LastFixed32(front: Bytes, v: uint32)
    ensures NumRestarts(front + Fixed32(v)) == v as nat
  {
    var block := front + Fixed32(v);
    assert block[|block| - 4..] == Fixed32(v) + [];
    Fixed32RoundTrip(v, []);
  }

  /** The restart offsets are read back from behind the entries. */
  lemma FinishedPoints(entries: Bytes, s: Shape, restarts: seq<nat>, rest: Bytes)
    requires GoodShape(s) && s.offsets[|s.kvs|] == |entries|
    requires |restarts| == |s.points| && forall r :: 0 <= r < |restarts| ==> restarts[r] == s.offsets[s.points[r]] < TWO_32
    ensures var block := entries + Fixed32s(restarts, |restarts|) + rest;
      forall r :: 0 <= r < |s.points| ==> RestartPoint(block, s.offsets[|s.kvs|], r) == s.offsets[s.points[r]]
  {
    forall r | 0 <= r < |s.points|
      ensures RestartPoint(entries + Fixed32s(restarts, |restarts|) + rest, s.offsets[|s.kvs|], r) == s.offsets[s.points[r]]
    {
      Fixed32sAt(entries, restarts, |restarts|, rest, r);
    }
  }

  lemma FinishedIsBlock(entries: Bytes, s: Shape, restarts: seq<nat>, block: Bytes)
    requires GoodShape(s) && Holds(entries, s) && |entries| + 4 * |restarts| + 4 < TWO_32
    requires |restarts| == |s.points| && forall r :: 0 <= r < |restarts| ==> restarts[r] == s.offsets[s.points[r]] < TWO_32
    requires block == entries + Fixed32s(restarts, |restarts|) + Fixed32(|restarts| as uint32)
    ensures IsBlock(block, s)
  {
    assert block[..s.offsets[|s.kvs|]] == entries;
    FinishedPoints(entries, s, restarts, Fixed32(|restarts| as uint32));
    LastFixed32(entries + Fixed32s(restarts, |restarts|), |restarts| as uint32);
  }
}
