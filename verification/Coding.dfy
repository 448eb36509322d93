/** Fixed-width and variable-width integers, and length-prefixed strings (util/coding.cc, util/crc32c.h). */
module Coding {
  import opened InternalKeys

  newtype uint32 = x: int | 0 <= x < 0x1_0000_0000
  const TWO_32: nat := 0x1_0000_0000
  const TWO_64: nat := 0x1_0000_0000_0000_0000

  // ----- Powers of two -----

  function Pow2(n: nat): (r: nat)
    ensures r > 0
  {
    if n == 0 then 1 else 2 * Pow2(n - 1)
  }

  // ----- Fixed width -----

  function Fixed32(v: uint32): (r: Bytes)
    ensures |r| == 4
  {
    [(v % 256) as byte, (v / 256 % 256) as byte, (v / 65536 % 256) as byte, (v / 16777216) as byte]
  }

  function DecodeFixed32(s: Bytes): uint32
    requires |s| >= 4
  {
    s[0] as uint32 + s[1] as uint32 * 256 + s[2] as uint32 * 65536 + s[3] as uint32 * 16777216
  }

  lemma Fixed32RoundTrip(v: uint32, rest: Bytes)
    ensures DecodeFixed32(Fixed32(v) + rest) == v
  {
    var s, d := Fixed32(v) + rest, Fixed32(v);
    assert s[0] == d[0] && s[1] == d[1] && s[2] == d[2] && s[3] == d[3];
    DigitsSum(v as int);
  }

  lemma DigitsSum(v: int)
    requires v >= 0
    ensures v % 256 + v / 256 % 256 * 256 + v / 65536 % 256 * 65536 + v / 16777216 * 16777216 == v
  {
    var a := v / 256;
    var b := a / 256;
    var c := b / 256;
    QuotientOf(v, 256, 256);
    QuotientOf(v, 65536, 256);
    assert v == 256 * a + v % 256 && a == 256 * b + a % 256 && b == 256 * c + b % 256;
  }

  lemma Expand(m: int, n: int, q: int, r: int)
    ensures m * (n * q + r) == (m * n) * q + m * r
  {
  }

  lemma RemainderFits(m: int, n: int, r: int, b: int)
    requires 0 <= r < n && 0 <= b < m
    ensures 0 <= m * r + b < m * n
  {
    assert m * r <= m * (n - 1);
  }

  lemma QuotientOf(v: int, m: int, n: int)
    requires v >= 0 && m > 0 && n > 0
    ensures m * n > 0 && v / (m * n) == v / m / n
  {
    var a, b := v / m, v % m;
    var q, r := a / n, a % n;
    RemainderFits(m, n, r, b);
    Expand(m, n, q, r);
    QuotientIs(v, m * n, q, m * r + b);
  }

  lemma QuotientIs(x: int, m: int, q: int, r: int)
    requires x >= 0 && m > 0 && x == m * q + r && 0 <= r < m
    ensures x / m == q
  {
    var d := q - x / m;
    assert m * d == x % m - r by {
      assert m * d == m * q - m * (x / m);
    }
    Multiples(m, d);
  }

  /** A 64-bit number as two 32-bit halves, the low one first. */
  function Fixed64(v: nat): (r: Bytes)
    requires v < TWO_64
    ensures |r| == 8
  {
    Fixed32((v % TWO_32) as uint32) + Fixed32((v / TWO_32) as uint32)
  }

  function DecodeFixed64(s: Bytes): nat
    requires |s| >= 8
  {
    DecodeFixed32(s) as nat + DecodeFixed32(s[4..]) as nat * TWO_32
  }

  lemma Fixed64RoundTrip(v: nat, rest: Bytes)
    requires v < TWO_64
    ensures DecodeFixed64(Fixed64(v) + rest) == v
  {
    var low, high := (v % TWO_32) as uint32, (v / TWO_32) as uint32;
    var s := Fixed64(v) + rest;
    assert s == Fixed32(low) + (Fixed32(high) + rest);
    Fixed32RoundTrip(low, Fixed32(high) + rest);
    assert s[4..] == Fixed32(high) + rest;
    Fixed32RoundTrip(high, rest);
  }

  /** The other way around: four bytes are the encoding of the number they decode to. */
  lemma Fixed32Inverse(s: Bytes)
    requires |s| >= 4
    ensures Fixed32(DecodeFixed32(s)) == s[..4]
  {
    var a, b, c, d := s[0] as int, s[1] as int, s[2] as int, s[3] as int;
    var v := a + 256 * (b + 256 * (c + 256 * d));
    assert DecodeFixed32(s) as int == v;
    DigitsOf(v, a, b, c, d);
  }

  lemma DigitsOf(v: int, a: int, b: int, c: int, d: int)
    requires 0 <= a < 256 && 0 <= b < 256 && 0 <= c < 256 && 0 <= d < 256
    requires v == a + 256 * (b + 256 * (c + 256 * d))
    ensures v % 256 == a && v / 256 % 256 == b && v / 65536 % 256 == c && v / 16777216 == d
  {
  }

  lemma Fixed64Inverse(s: Bytes)
    requires |s| >= 8
    ensures DecodeFixed64(s) < TWO_64 && Fixed64(DecodeFixed64(s)) == s[..8]
  {
    var low, high := DecodeFixed32(s), DecodeFixed32(s[4..]);
    Halves(low as nat, high as nat);
    Fixed32Inverse(s);
    Fixed32Inverse(s[4..]);
    assert s[..8] == s[..4] + s[4..][..4];
  }

  lemma Halves(low: nat, high: nat)
    requires low < TWO_32 && high < TWO_32
    ensures low + high * TWO_32 < TWO_64 && (low + high * TWO_32) % TWO_32 == low && (low + high * TWO_32) / TWO_32 == high
  {
  }

  // ----- Masked checksums -----

  /** The checksum function; only its value matters here. */
  type Crc = Bytes -> uint32

  const MASK_DELTA: nat := 0xa282ead8

  /** Rotate right by 15 bits and add a constant, in 32 bits. */
  function Mask(crc: uint32): uint32 {
    ((crc as nat / 32768 + crc as nat % 32768 * 131072 + MASK_DELTA) % TWO_32) as uint32
  }

  function Unmask(masked: uint32): uint32 {
    var rot := (masked as nat + TWO_32 - MASK_DELTA) % TWO_32;
    (rot / 131072 + rot % 131072 * 32768) as uint32
  }

  lemma MaskRoundTrip(crc: uint32)
    ensures Unmask(Mask(crc)) == crc
  {
    var high, low := crc as nat / 32768, crc as nat % 32768;
    var rot := high + low * 131072;
    AddUndone(rot);
    assert Mask(crc) as nat == (rot + MASK_DELTA) % TWO_32;
    HalvesOf(high, low);
  }

  lemma AddUndone(x: nat)
    requires x < TWO_32
    ensures ((x + MASK_DELTA) % TWO_32 + TWO_32 - MASK_DELTA) % TWO_32 == x
  {
    if x + MASK_DELTA >= TWO_32 {
      assert (x + MASK_DELTA) % TWO_32 == x + MASK_DELTA - TWO_32;
    }
  }

  lemma HalvesOf(high: nat, low: nat)
    requires high < 131072
    ensures (high + low * 131072) / 131072 == low && (high + low * 131072) % 131072 == high
  {
  }

  // ----- Varints -----

  /** Base-128, least significant group first; every byte but the last has its top bit set. */
  function Varint(v: nat): (r: Bytes)
    ensures |r| > 0
  {
    if v < 128 then [v as byte] else [(v % 128 + 128) as byte] + Varint(v / 128)
  }

  datatype Parsed = NoVarint | Parsed(value: nat, length: nat)

  /** The number a byte string starts with, however long. */
  function ParseVarint(s: Bytes): (r: Parsed)
    ensures r.Parsed? ==> 0 < r.length <= |s|
  {
    if s == [] then NoVarint
    else if s[0] < 128 then Parsed(s[0] as nat, 1)
    else match ParseVarint(s[1..])
         case NoVarint => NoVarint
         case Parsed(v, n) => Parsed((s[0] - 128) as nat + 128 * v, n + 1)
  }

  lemma {:induction false} VarintRoundTrip(v: nat, rest: Bytes)
    ensures ParseVarint(Varint(v) + rest) == Parsed(v, |Varint(v)|)
  {
    var s := Varint(v) + rest;
    if v < 128 {
      assert s[0] == v as byte;
    } else {
      VarintRoundTrip(v / 128, rest);
      assert s[0] == (v % 128 + 128) as byte && s[1..] == Varint(v / 128) + rest;
    }
  }

  function Pow128(n: nat): nat {
    if n == 0 then 1 else 128 * Pow128(n - 1)
  }

  lemma {:induction false} VarintSize(v: nat, n: nat)
    requires n > 0 && v < Pow128(n)
    ensures |Varint(v)| <= n
  {
    if v >= 128 {
      assert Pow128(n) == 128 * Pow128(n - 1);
      assert Pow128(1) == 128 * Pow128(0);
      VarintSize(v / 128, n - 1);
    }
  }

  lemma VarintFits32(v: uint32)
    ensures |Varint(v as nat)| <= 5
  {
    assert Pow128(5) == 128 * (128 * (128 * (128 * (128 * Pow128(0)))));
    VarintSize(v as nat, 5);
  }

  method EncodeVarint32(v: uint32) returns (dst: Bytes)
    ensures dst == Varint(v as nat)
  {
    var n := v as nat;
    Varint32Cases(n);
    if n < 128 {
      dst := [n as byte];
    } else if n < 16384 {
      dst := [(n % 128 + 128) as byte, (n / 128) as byte];
    } else if n < 2097152 {
      dst := [(n % 128 + 128) as byte, (n / 128 % 128 + 128) as byte, (n / 16384) as byte];
    } else if n < 268435456 {
      dst := [(n % 128 + 128) as byte, (n / 128 % 128 + 128) as byte, (n / 16384 % 128 + 128) as byte, (n / 2097152) as byte];
    } else {
      dst := [(n % 128 + 128) as byte, (n / 128 % 128 + 128) as byte, (n / 16384 % 128 + 128) as byte,
              (n / 2097152 % 128 + 128) as byte, (n / 268435456) as byte];
    }
  }

  lemma Varint32Cases(n: nat)
    requires n < TWO_32
    ensures n >= 128 ==> Varint(n) == [(n % 128 + 128) as byte] + Varint(n / 128)
    ensures n >= 16384 ==> Varint(n / 128) == [(n / 128 % 128 + 128) as byte] + Varint(n / 16384)
    ensures n >= 2097152 ==> Varint(n / 16384) == [(n / 16384 % 128 + 128) as byte] + Varint(n / 2097152)
    ensures n >= 268435456 ==> Varint(n / 2097152) == [(n / 2097152 % 128 + 128) as byte] + Varint(n / 268435456)
  {
    assert n / 128 / 128 == n / 16384;
    assert n / 16384 / 128 == n / 2097152;
    assert n / 2097152 / 128 == n / 268435456;
  }

  method EncodeVarint64(value: nat) returns (dst: Bytes)
    requires value < TWO_64
    ensures dst == Varint(value)
  {
    var v := value;
    dst := [];
    while v >= 128
      invariant dst + Varint(v) == Varint(value)
    {
      assert dst + ([(v % 128 + 128) as byte] + Varint(v / 128)) == (dst + [(v % 128 + 128) as byte]) + Varint(v / 128);
      dst := dst + [(v % 128 + 128) as byte];
      v := v / 128;
    }
    dst := dst + [v as byte];
  }

  method VarintLength(value: nat) returns (len: nat)
    requires value < TWO_64
    ensures len == |Varint(value)|
  {
    var v := value;
    len := 1;
    while v >= 128
      invariant len + |Varint(v)| == 1 + |Varint(value)|
    {
      v := v / 128;
      len := len + 1;
    }
  }

  /** What a bounded decoder reads: at most `maxBytes` bytes, the value cut to `modulus`. */
  function Bounded(p: Parsed, maxBytes: nat, modulus: nat): Parsed
    requires modulus > 0
  {
    match p
    case NoVarint => NoVarint
    case Parsed(v, n) => if n <= maxBytes then Parsed(v % modulus, n) else NoVarint
  }

  function GetVarint32(s: Bytes): Parsed {
    Bounded(ParseVarint(s), 5, TWO_32)
  }

  function GetVarint64(s: Bytes): Parsed {
    Bounded(ParseVarint(s), 10, TWO_64)
  }

  lemma ModularAdd(x: nat, y: nat, m: nat)
    requires m > 0
    ensures (x + y) % m == (x % m + y) % m
  {
    var q, r := x / m, x % m;
    assert x + y == m * q + (r + y);
    ModularMultiple(q, r + y, m);
  }

  lemma ModularMultiple(q: nat, z: nat, m: nat)
    requires m > 0
    ensures (m * q + z) % m == z % m
  {
    assert m * q + z == m * (q + z / m) + z % m by {
      assert m * (q + z / m) == m * q + m * (z / m);
    }
    RemainderIs(m * q + z, m, q + z / m, z % m);
  }

  lemma RemainderIs(x: nat, m: nat, q: nat, r: nat)
    requires m > 0 && x == m * q + r && r < m
    ensures x % m == r
  {
    var d := q - x / m;
    assert m * d == x % m - r by {
      assert m * d == m * q - m * (x / m);
    }
    Multiples(m, d);
  }

  lemma Multiples(m: int, d: int)
    requires m > 0
    ensures d > 0 ==> m * d >= m
    ensures d < 0 ==> m * d <= -m
  {
  }

  /** With `full` read at shifts below `shift`, the rest of the number starts at p. */
  ghost predicate Remains(s: Bytes, p: nat, full: nat, shift: nat)
    requires p <= |s|
  {
    match ParseVarint(s[p..])
    case NoVarint => ParseVarint(s) == NoVarint
    case Parsed(v, n) => ParseVarint(s) == Parsed(full + shift * v, p + n)
  }

  lemma Distributes(full: nat, shift: nat, b: nat, v: nat)
    ensures full + shift * (b + 128 * v) == (full + shift * b) + (128 * shift) * v
  {
  }

  lemma MoreGroups(s: Bytes, p: nat, full: nat, shift: nat)
    requires p < |s| && s[p] >= 128 && Remains(s, p, full, shift)
    ensures Remains(s, p + 1, full + shift * (s[p] as nat - 128), 128 * shift)
  {
    assert s[p..][1..] == s[p + 1..];
    var rest := ParseVarint(s[p + 1..]);
    if rest.Parsed? {
      Distributes(full, shift, s[p] as nat - 128, rest.value);
    }
  }

  lemma LastGroup(s: Bytes, p: nat, full: nat, shift: nat)
    requires p < |s| && s[p] < 128 && Remains(s, p, full, shift)
    ensures ParseVarint(s) == Parsed(full + shift * s[p] as nat, p + 1)
  {
  }

  lemma NoGroupLeft(s: Bytes, p: nat, maxBytes: nat, full: nat, shift: nat)
    requires p <= |s| && Remains(s, p, full, shift) && (p == |s| || p == maxBytes)
    ensures ParseVarint(s).Parsed? ==> ParseVarint(s).length > maxBytes
  {
    assert p == |s| ==> s[p..] == [];
  }

  /** The decoding loop of GetVarint32PtrFallback and GetVarint64Ptr: groups are added at shifts
      of 7 bits, and bits past the width of the result are lost. */
  method GetVarintLoop(s: Bytes, maxBytes: nat, modulus: nat) returns (r: Parsed)
    requires modulus > 0
    ensures r == Bounded(ParseVarint(s), maxBytes, modulus)
  {
    var result: nat, shift: nat, p: nat := 0, 1, 0;
    ghost var full: nat := 0;
    assert s[0..] == s;
    while p < maxBytes && p < |s|
      invariant p <= |s| && p <= maxBytes && Remains(s, p, full, shift) && result == full % modulus
    {
      if s[p] >= 128 {
        MoreGroups(s, p, full, shift);
        ModularAdd(full, shift * (s[p] as nat - 128), modulus);
        result := (result + shift * (s[p] as nat - 128)) % modulus;
        full := full + shift * (s[p] as nat - 128);
        shift := 128 * shift;
        p := p + 1;
      } else {
        LastGroup(s, p, full, shift);
        ModularAdd(full, shift * s[p] as nat, modulus);
        return Parsed((result + shift * s[p] as nat) % modulus, p + 1);
      }
    }
    NoGroupLeft(s, p, maxBytes, full, shift);
    r := NoVarint;
  }

  lemma Varint32RoundTrip(v: uint32, rest: Bytes)
    ensures GetVarint32(Varint(v as nat) + rest) == Parsed(v as nat, |Varint(v as nat)|)
  {
    VarintRoundTrip(v as nat, rest);
    VarintFits32(v);
  }

  lemma Varint64RoundTrip(v: nat, rest: Bytes)
    requires v < TWO_64
    ensures GetVarint64(Varint(v) + rest) == Parsed(v, |Varint(v)|)
  {
    VarintRoundTrip(v, rest);
    assert Pow128(5) == 128 * (128 * (128 * (128 * (128 * Pow128(0)))));
    assert Pow128(10) == 128 * (128 * (128 * (128 * (128 * Pow128(5)))));
    VarintSize(v, 10);
  }

  // ----- Length-prefixed strings -----

  predicate Fits32(n: nat) {
    n < TWO_32
  }

  function LengthPrefixed(s: Bytes): Bytes {
    Varint(|s|) + s
  }

  /** The string a byte string starts with, and what follows it. */
  function GetLengthPrefixed(s: Bytes): Option<(Bytes, Bytes)> {
    match GetVarint32(s)
    case NoVarint => None
    case Parsed(len, n) => if n + len <= |s| then Some((s[n..n + len], s[n + len..])) else None
  }

  lemma LengthPrefixedRoundTrip(s: Bytes, rest: Bytes)
    requires Fits32(|s|)
    ensures GetLengthPrefixed(LengthPrefixed(s) + rest) == Some((s, rest))
  {
    var all := LengthPrefixed(s) + rest;
    var n := |Varint(|s|)|;
    assert all == Varint(|s|) + (s + rest);
    Varint32RoundTrip(|s| as uint32, s + rest);
    assert all[n..n + |s|] == s && all[n + |s|..] == rest;
  }
}
