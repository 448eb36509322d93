/** The format of one block: prefix-compressed entries, restart points, and their decoding (table/block.cc). */
module BlockFormat {
  import opened InternalKeys
  import opened Coding

  datatype KeyValue = KeyValue(key: Bytes, value: Bytes)

  /** "key a comes before key b" under the table's comparator. */
  type Order = (Bytes, Bytes) -> bool

  ghost predicate StrictOrder(less: Order) {
    && (forall a :: !less(a, a))
    && (forall a, b :: a != b ==> less(a, b) || less(b, a))
    && (forall a, b, c :: less(a, b) && less(b, c) ==> less(a, c))
  }

  ghost predicate Ascending(less: Order, kvs: seq<KeyValue>) {
    forall i, j :: 0 <= i < j < |kvs| ==> less(kvs[i].key, kvs[j].key)
  }

  // ----- One entry -----

  /** The bytes of an entry that shares `shared` bytes with the key before it. */
  function EncodeEntry(shared: nat, kv: KeyValue): Bytes
    requires shared <= |kv.key|
  {
    Varint(shared) + Varint(|kv.key| - shared) + Varint(|kv.value|) + kv.key[shared..] + kv.value
  }

  datatype Delta = Delta(shared: nat, nonShared: nat, valueLength: nat, at: nat)

  /** Three varints of s from position p on. */
  function ThreeVarints(s: Bytes, p: nat): Option<Delta>
    requires p <= |s|
  {
    match GetVarint32(s[p..])
    case NoVarint => None
    case Parsed(a, l) =>
      match GetVarint32(s[p + l..])
      case NoVarint => None
      case Parsed(b, m) =>
        match GetVarint32(s[p + l + m..])
        case NoVarint => None
        case Parsed(c, n) => Some(Delta(a, b, c, p + l + m + n))
  }

  /** The header of the entry at position p of the entries s, if a whole entry is there. */
  function DecodeEntry(s: Bytes, p: nat): (r: Option<Delta>)
    requires p <= |s|
    ensures r.Some? ==> p < r.value.at && r.value.at + r.value.nonShared + r.value.valueLength <= |s|
  {
    if |s| - p < 3 then None
    else
      var d := if s[p] < 128 && s[p + 1] < 128 && s[p + 2] < 128
        then Some(Delta(s[p] as nat, s[p + 1] as nat, s[p + 2] as nat, p + 3)) else ThreeVarints(s, p);
      if d.None? || |s| - d.value.at < d.value.nonShared + d.value.valueLength then None else d
  }

  lemma OneByte(s: Bytes, p: nat)
    requires p < |s| && s[p] < 128
    ensures GetVarint32(s[p..]) == Parsed(s[p] as nat, 1)
  {
  }

  /** The fast path reads what three varint decodings would. */
  lemma FastPath(s: Bytes, p: nat)
    requires p + 3 <= |s| && s[p] < 128 && s[p + 1] < 128 && s[p + 2] < 128
    ensures ThreeVarints(s, p) == Some(Delta(s[p] as nat, s[p + 1] as nat, s[p + 2] as nat, p + 3))
  {
    OneByte(s, p);
    OneByte(s, p + 1);
    OneByte(s, p + 2);
  }

  /** Whatever follows b, a varint decodes from it to v, and takes all of it. */
  ghost predicate DecodesTo(b: Bytes, v: nat) {
    forall rest: Bytes :: GetVarint32(b + rest) == Parsed(v, |b|)
  }

  lemma VarintDecodesTo(v: nat)
    requires v < TWO_32
    ensures DecodesTo(Varint(v), v)
  {
    forall rest: Bytes ensures GetVarint32(Varint(v) + rest) == Parsed(v, |Varint(v)|) {
      Varint32RoundTrip(v as uint32, rest);
    }
  }

  lemma EncodedVarint(s: Bytes, p: nat, b: Bytes, v: nat, rest: Bytes)
    requires p <= |s| && DecodesTo(b, v) && s[p..] == b + rest
    ensures GetVarint32(s[p..]) == Parsed(v, |b|) && p + |b| <= |s| && s[p + |b|..] == rest
  {
    assert GetVarint32(b + rest) == Parsed(v, |b|);
    assert s[p + |b|..] == s[p..][|b|..];
  }

  lemma ThreeParsed(s: Bytes, p: nat, q: nat, r: nat, x: nat, y: nat, z: nat, n: nat)
    requires p <= q <= r <= |s|
    requires GetVarint32(s[p..]) == Parsed(x, q - p) && GetVarint32(s[q..]) == Parsed(y, r - q) && GetVarint32(s[r..]) == Parsed(z, n)
    ensures ThreeVarints(s, p) == Some(Delta(x, y, z, r + n))
  {
    assert p + (q - p) == q && p + (q - p) + (r - q) == r;
  }

  lemma EncodedHeader(s: Bytes, p: nat, a: Bytes, x: nat, b: Bytes, y: nat, c: Bytes, z: nat, tail: Bytes)
    requires p <= |s| && DecodesTo(a, x) && DecodesTo(b, y) && DecodesTo(c, z)
    requires s[p..] == a + (b + (c + tail))
    ensures var at := p + |a| + |b| + |c|;
      at <= |s| && s[at..] == tail && ThreeVarints(s, p) == Some(Delta(x, y, z, at))
  {
    var q, r := p + |a|, p + |a| + |b|;
    EncodedVarint(s, p, a, x, b + (c + tail));
    EncodedVarint(s, q, b, y, c + tail);
    EncodedVarint(s, r, c, z, tail);
    ThreeParsed(s, p, q, r, x, y, z, |c|);
  }

  lemma DecodesHeader(s: Bytes, p: nat)
    requires p + 3 <= |s| && ThreeVarints(s, p).Some?
    requires ThreeVarints(s, p).value.at + ThreeVarints(s, p).value.nonShared + ThreeVarints(s, p).value.valueLength <= |s|
    ensures DecodeEntry(s, p) == ThreeVarints(s, p)
  {
    if s[p] < 128 && s[p + 1] < 128 && s[p + 2] < 128 {
      FastPath(s, p);
    }
  }

  lemma EntrySplits(shared: nat, kv: KeyValue, rest: Bytes)
    requires shared <= |kv.key|
    ensures EncodeEntry(shared, kv) + rest
      == Varint(shared) + (Varint(|kv.key| - shared) + (Varint(|kv.value|) + (kv.key[shared..] + kv.value + rest)))
  {
  }

  /** d is the decoded header of an entry at p, and points at its key delta and value. */
  ghost predicate Decoded(s: Bytes, p: nat, shared: nat, kv: KeyValue, d: Delta)
    requires shared <= |kv.key|
  {
    && d.shared == shared && d.nonShared == |kv.key| - shared && d.valueLength == |kv.value|
    && d.at + d.nonShared + d.valueLength == p + |EncodeEntry(shared, kv)| <= |s|
    && s[d.at..d.at + d.nonShared] == kv.key[shared..]
    && s[d.at + d.nonShared..d.at + d.nonShared + d.valueLength] == kv.value
  }

  /** Decoding an encoded entry gives its lengths, its key delta and its value. */
  lemma DecodesEntry(s: Bytes, p: nat, shared: nat, kv: KeyValue, rest: Bytes)
    requires p <= |s| && shared <= |kv.key| < TWO_32 && |kv.value| < TWO_32
    requires s[p..] == EncodeEntry(shared, kv) + rest
    ensures DecodeEntry(s, p).Some? && Decoded(s, p, shared, kv, DecodeEntry(s, p).value)
  {
    EntrySplits(shared, kv, rest);
    VarintDecodesTo(shared);
    VarintDecodesTo(|kv.key| - shared);
    VarintDecodesTo(|kv.value|);
    EncodedHeader(s, p, Varint(shared), shared, Varint(|kv.key| - shared), |kv.key| - shared, Varint(|kv.value|), |kv.value|,
                  kv.key[shared..] + kv.value + rest);
    var d := ThreeVarints(s, p).value;
    DeltaAndValue(s, d.at, kv.key[shared..], kv.value, rest);
    DecodesHeader(s, p);
  }

  lemma DeltaAndValue(s: Bytes, at: nat, delta: Bytes, value: Bytes, rest: Bytes)
    requires at <= |s| && s[at..] == delta + value + rest
    ensures at + |delta| + |value| <= |s|
    ensures s[at..at + |delta|] == delta && s[at + |delta|..at + |delta| + |value|] == value
  {
    assert s[at..at + |delta|] == s[at..][..|delta|];
    assert s[at + |delta|..at + |delta| + |value|] == s[at..][|delta|..|delta| + |value|];
  }

  // ----- A whole block -----

  /** The entries, where each begins (and where the last ends), what each shares with the one
      before, and which entries are restart points. */
  datatype Shape = Shape(kvs: seq<KeyValue>, offsets: seq<nat>, shared: seq<nat>, points: seq<nat>)

  ghost predicate Shares(s: Shape, i: nat)
    requires i < |s.kvs| == |s.shared|
  {
    && s.shared[i] <= |s.kvs[i].key| < TWO_32 && |s.kvs[i].value| < TWO_32
    && if i == 0 then s.shared[i] == 0
       else s.shared[i] <= |s.kvs[i - 1].key| && s.kvs[i].key[..s.shared[i]] == s.kvs[i - 1].key[..s.shared[i]]
  }

  /** Restart points ascend from entry 0, and share nothing. */
  ghost predicate GoodPoints(s: Shape)
    requires |s.kvs| == |s.shared|
  {
    && |s.points| > 0 && s.points[0] == 0
    && (forall r, q :: 0 <= r < q < |s.points| ==> s.points[r] < s.points[q])
    && (forall r :: 0 <= r < |s.points| ==> s.points[r] < |s.kvs| || (s.kvs == [] && |s.points| == 1))
    && (forall r :: 0 <= r < |s.points| && s.points[r] < |s.kvs| ==> s.shared[s.points[r]] == 0)
  }

  ghost predicate GoodShape(s: Shape) {
    && |s.shared| == |s.kvs| && |s.offsets| == |s.kvs| + 1 && s.offsets[0] == 0
    && (forall i :: 0 <= i < |s.kvs| ==> Shares(s, i))
    && GoodPoints(s)
  }

  /** Entry i of the shape lies at its offset in the entries' bytes. */
  ghost predicate EntryAt(bytes: Bytes, s: Shape, i: nat)
    requires GoodShape(s) && i < |s.kvs|
  {
    assert Shares(s, i);
    && s.offsets[i] <= s.offsets[i + 1] <= |bytes|
    && bytes[s.offsets[i]..s.offsets[i + 1]] == EncodeEntry(s.shared[i], s.kvs[i])
  }

  /** bytes holds exactly the entries. */
  ghost predicate Holds(bytes: Bytes, s: Shape)
    requires GoodShape(s)
  {
    && (forall i :: 0 <= i < |s.kvs| ==> EntryAt(bytes, s, i))
    && s.offsets[|s.kvs|] == |bytes|
  }

  lemma {:induction false} OffsetsAscend(bytes: Bytes, s: Shape, i: nat, j: nat)
    requires GoodShape(s) && Holds(bytes, s) && i <= j <= |s.kvs|
    ensures s.offsets[i] <= s.offsets[j] <= |bytes|
    ensures i < j ==> s.offsets[i] < s.offsets[j]
    decreases j
  {
    if i < j {
      OffsetsAscend(bytes, s, i, j - 1);
      assert EntryAt(bytes, s, j - 1) && Shares(s, j - 1);
    }
    assert j < |s.kvs| ==> EntryAt(bytes, s, j);
  }

  /** Decoding at the offset of entry i, given a key that shares its prefix, rebuilds the entry. */
  lemma DecodesAt(bytes: Bytes, s: Shape, i: nat, before: Bytes)
    requires GoodShape(s) && Holds(bytes, s) && i < |s.kvs|
    requires s.shared[i] <= |before| && Shares(s, i) && before[..s.shared[i]] == s.kvs[i].key[..s.shared[i]]
    ensures s.offsets[i] < s.offsets[i + 1] <= |bytes|
    ensures var d := DecodeEntry(bytes, s.offsets[i]);
      && d.Some? && d.value.shared == s.shared[i]
      && d.value.shared <= |before| && before[..d.value.shared] + bytes[d.value.at..d.value.at + d.value.nonShared] == s.kvs[i].key
      && bytes[d.value.at + d.value.nonShared..d.value.at + d.value.nonShared + d.value.valueLength] == s.kvs[i].value
      && d.value.at + d.value.nonShared + d.value.valueLength == s.offsets[i + 1]
  {
    assert EntryAt(bytes, s, i);
    var p, q := s.offsets[i], s.offsets[i + 1];
    assert bytes[p..] == bytes[p..q] + bytes[q..];
    DecodesEntry(bytes, p, s.shared[i], s.kvs[i], bytes[q..]);
    assert s.kvs[i].key == s.kvs[i].key[..s.shared[i]] + s.kvs[i].key[s.shared[i]..];
  }

  // ----- Restart points -----

  function RestartPoint(data: Bytes, restarts: nat, index: nat): nat
    requires restarts + 4 * index + 4 <= |data|
  {
    DecodeFixed32(data[restarts + 4 * index..]) as nat
  }

  function NumRestarts(data: Bytes): nat
    requires |data| >= 4
  {
    DecodeFixed32(data[|data| - 4..]) as nat
  }

  /** data is a finished block of shape s: the entries, the restart offsets, and their number. */
  ghost predicate IsBlock(data: Bytes, s: Shape) {
    && GoodShape(s)
    && s.offsets[|s.kvs|] + 4 * |s.points| + 4 == |data| < TWO_32
    && Holds(data[..s.offsets[|s.kvs|]], s)
    && (forall r :: 0 <= r < |s.points| ==> RestartPoint(data, s.offsets[|s.kvs|], r) == s.offsets[s.points[r]])
    && NumRestarts(data) == |s.points|
  }
}
