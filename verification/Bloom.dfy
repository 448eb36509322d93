/** Bloom filters: a key put in is always found (util/bloom.cc). */
module Bloom {
  import opened InternalKeys
  import opened Coding

  // ----- Bits of a byte -----

  /** b & (1 << i). */
  predicate HasBit(b: nat, i: nat) {
    if i == 0 then b % 2 == 1 else HasBit(b / 2, i - 1)
  }

  /** b | (1 << i). */
  function WithBit(b: nat, i: nat): nat {
    if i == 0 then b / 2 * 2 + 1 else b % 2 + 2 * WithBit(b / 2, i - 1)
  }

  lemma {:induction false} ZeroHasNoBit(i: nat)
    ensures !HasBit(0, i)
  {
    if i > 0 {
      ZeroHasNoBit(i - 1);
    }
  }

  /** Setting a bit sets it, and changes no other. */
  lemma {:induction false} WithBitMeaning(b: nat, i: nat, j: nat)
    ensures HasBit(WithBit(b, i), j) <==> i == j || HasBit(b, j)
  {
    var c := WithBit(b, i);
    if i == 0 {
      assert c / 2 == b / 2;
    } else {
      assert c / 2 == WithBit(b / 2, i - 1) && c % 2 == b % 2;
      if j > 0 {
        WithBitMeaning(b / 2, i - 1, j - 1);
      }
    }
  }

  lemma {:induction false} WithBitFits(b: nat, i: nat, n: nat)
    requires b < Pow2(n) && i < n
    ensures WithBit(b, i) < Pow2(n)
  {
    assert b / 2 < Pow2(n - 1);
    if i > 0 {
      WithBitFits(b / 2, i - 1, n - 1);
    }
  }

  lemma WithBitIsByte(b: byte, i: nat)
    requires i < 8
    ensures WithBit(b as nat, i) < 256
  {
    assert Pow2(8) == 2 * (2 * (2 * (2 * (2 * (2 * (2 * (2 * Pow2(0))))))));
    WithBitFits(b as nat, i, 8);
  }

  // ----- The filter -----

  /** The hash function; only its value matters here. */
  type Hash = Bytes -> uint32

  /** Rotate right by 17 bits. */
  function Delta(h: uint32): nat {
    h as nat / 131072 + h as nat % 131072 * 32768
  }

  /** The j-th of the double-hashed probes, in wrapping 32-bit arithmetic. */
  function Probe(h: uint32, j: nat): nat {
    if j == 0 then h as nat else (Probe(h, j - 1) + Delta(h)) % TWO_32
  }

  ghost predicate BitSet(bits: Bytes, position: nat) {
    position / 8 < |bits| && HasBit(bits[position / 8] as nat, position % 8)
  }

  /** All of a key's k probes are set in an array of |bits| bytes. */
  ghost predicate ProbesSet(bits: Bytes, h: uint32, k: nat)
    requires |bits| > 0
  {
    forall j :: 0 <= j < k ==> BitSet(bits, Probe(h, j) % (8 * |bits|))
  }

  /** Position p is one of the first k probes. */
  ghost predicate IsProbe(h: uint32, k: nat, size: nat, p: nat)
    requires size > 0
  {
    exists j :: 0 <= j < k && Probe(h, j) % (8 * size) == p
  }

  lemma MoreProbes(h: uint32, k: nat, size: nat, p: nat)
    requires size > 0
    ensures IsProbe(h, k + 1, size, p) <==> IsProbe(h, k, size, p) || Probe(h, k) % (8 * size) == p
  {
  }

  /** Setting one bit sets it, and no other. */
  lemma SetOne(before: Bytes, position: nat)
    requires position / 8 < |before|
    ensures WithBit(before[position / 8] as nat, position % 8) < 256
    ensures var after := before[position / 8 := WithBit(before[position / 8] as nat, position % 8) as byte];
      forall p: nat :: BitSet(after, p) <==> BitSet(before, p) || p == position
  {
    var i, b := position / 8, before[position / 8];
    WithBitIsByte(b, position % 8);
    var after := before[i := WithBit(b as nat, position % 8) as byte];
    forall p: nat ensures BitSet(after, p) <==> BitSet(before, p) || p == position {
      WithBitMeaning(b as nat, position % 8, p % 8);
    }
  }

  /** Testing probe number j. */
  lemma ProbeBit(bits: Bytes, h: uint32, j: nat, position: nat)
    requires |bits| > 0 && position == Probe(h, j) % (8 * |bits|)
    ensures position / 8 < |bits|
    ensures HasBit(bits[position / 8] as nat, position % 8) && ProbesSet(bits, h, j) ==> ProbesSet(bits, h, j + 1)
    ensures !HasBit(bits[position / 8] as nat, position % 8) ==> forall k :: k > j ==> !ProbesSet(bits, h, k)
  {
    if !HasBit(bits[position / 8] as nat, position % 8) {
      assert !BitSet(bits, Probe(h, j) % (8 * |bits|));
    }
  }

  class BloomFilterPolicy {
    const bitsPerKey: nat
    const hash: Hash
    const k: nat

    /** About 0.69 probes for each bit per key, between 1 and 30. */
    constructor (bitsPerKey: nat, hash: Hash)
      ensures this.bitsPerKey == bitsPerKey && this.hash == hash && 1 <= k <= 30
    {
      this.bitsPerKey, this.hash := bitsPerKey, hash;
      var probes := (bitsPerKey as real * 0.69).Floor;
      k := if probes < 1 then 1 else if probes > 30 then 30 else probes;
    }

    /** What KeyMayMatch answers on a filter this policy made. */
    ghost predicate Contains(filter: Bytes, key: Bytes) {
      |filter| >= 2 && filter[|filter| - 1] as nat == k && ProbesSet(filter[..|filter| - 1], hash(key), k)
    }

    /** Position p is a probe of one of the first n keys. */
    ghost predicate ProbedBy(keys: seq<Bytes>, n: nat, size: nat, p: nat)
      requires n <= |keys| && size > 0
    {
      exists l :: 0 <= l < n && IsProbe(hash(keys[l]), k, size, p)
    }

    /** The bits that are set are the probes of the keys. */
    ghost predicate ExactlyProbed(bits: Bytes, keys: seq<Bytes>)
      requires |bits| > 0
    {
      forall p: nat :: BitSet(bits, p) <==> ProbedBy(keys, |keys|, |bits|, p)
    }

    /** A filter of the size asked for, at least eight bytes, in which exactly the probes of the keys
        are set; so every key is found. */
    method CreateFilter(keys: seq<Bytes>) returns (filter: Bytes)
      requires 1 <= k <= 30
      ensures var bits := if |keys| * bitsPerKey < 64 then 64 else |keys| * bitsPerKey;
        bits <= 8 * (|filter| - 1) < bits + 8
      ensures filter[|filter| - 1] as nat == k
      ensures ExactlyProbed(filter[..|filter| - 1], keys)
      ensures forall key :: key in keys ==> Contains(filter, key)
      ensures |filter| <= |keys| * bitsPerKey + 66
    {
      var bits := |keys| * bitsPerKey;
      if bits < 64 {
        bits := 64;
      }
      var bytes := (bits + 7) / 8;
      var arr: Bytes := seq(bytes, _ => 0);
      NoBitSet(arr);
      for i := 0 to |keys|
        invariant |arr| == bytes > 0
        invariant forall p: nat :: BitSet(arr, p) <==> ProbedBy(keys, i, bytes, p)
      {
        arr := AddKey(arr, keys[i]);
        forall p: nat ensures ProbedBy(keys, i + 1, bytes, p) <==> ProbedBy(keys, i, bytes, p) || IsProbe(hash(keys[i]), k, bytes, p) {
        }
      }
      filter := arr + [k as byte];
      assert filter[..|filter| - 1] == arr;
      forall key | key in keys ensures Contains(filter, key) {
        AllProbesSet(arr, keys, key);
      }
    }

    lemma NoBitSet(arr: Bytes)
      requires forall i :: 0 <= i < |arr| ==> arr[i] == 0
      ensures forall p: nat :: !BitSet(arr, p)
    {
      forall p: nat | p / 8 < |arr| ensures !HasBit(0, p % 8) {
        ZeroHasNoBit(p % 8);
      }
    }

    lemma AllProbesSet(arr: Bytes, keys: seq<Bytes>, key: Bytes)
      requires |arr| > 0 && key in keys && ExactlyProbed(arr, keys)
      ensures ProbesSet(arr, hash(key), k)
    {
      var l :| 0 <= l < |keys| && keys[l] == key;
      forall j | 0 <= j < k ensures BitSet(arr, Probe(hash(key), j) % (8 * |arr|)) {
        assert IsProbe(hash(keys[l]), k, |arr|, Probe(hash(key), j) % (8 * |arr|));
      }
    }

    /** Sets the bits of one key's probes, and no others. */
    method AddKey(bits: Bytes, key: Bytes) returns (r: Bytes)
      requires |bits| > 0
      ensures |r| == |bits|
      ensures forall p: nat :: BitSet(r, p) <==> BitSet(bits, p) || IsProbe(hash(key), k, |bits|, p)
    {
      r := bits;
      var h := hash(key) as nat;
      var delta := Delta(hash(key));
      for j := 0 to k
        invariant |r| == |bits| && h == Probe(hash(key), j)
        invariant forall p: nat :: BitSet(r, p) <==> BitSet(bits, p) || IsProbe(hash(key), j, |bits|, p)
      {
        var position := h % (8 * |r|);
        SetOne(r, position);
        r := r[position / 8 := WithBit(r[position / 8] as nat, position % 8) as byte];
        forall p: nat ensures IsProbe(hash(key), j + 1, |bits|, p) <==> IsProbe(hash(key), j, |bits|, p) || p == position {
          MoreProbes(hash(key), j, |bits|, p);
        }
        h := (h + delta) % TWO_32;
      }
    }

    /** What a reader answers on any filter: too short never matches, too many probes always do, and
        otherwise every probe decides. */
    ghost predicate Matches(filter: Bytes, key: Bytes) {
      |filter| >= 2 && (filter[|filter| - 1] > 30 || ProbesSet(filter[..|filter| - 1], hash(key), filter[|filter| - 1] as nat))
    }

    method KeyMayMatch(key: Bytes, filter: Bytes) returns (may: bool)
      ensures may <==> Matches(filter, key)
      ensures Contains(filter, key) ==> may
    {
      var len := |filter|;
      if len < 2 {
        return false;
      }
      var bits := (len - 1) * 8;
      var probes := filter[len - 1] as nat;
      if probes > 30 {
        return true;
      }
      var h := hash(key) as nat;
      var delta := Delta(hash(key));
      ghost var array_ := filter[..len - 1];
      for j := 0 to probes
        invariant h == Probe(hash(key), j)
        invariant ProbesSet(array_, hash(key), j)
      {
        var position := h % bits;
        ProbeBit(array_, hash(key), j, position);
        if !HasBit(filter[position / 8] as nat, position % 8) {
          return false;
        }
        h := (h + delta) % TWO_32;
      }
      may := true;
    }
  }
}
