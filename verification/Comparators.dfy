/** Byte order, internal keys as bytes, and keys shortened to separate blocks (util/comparator.cc, db/dbformat.cc). */
module Comparators {
  import opened InternalKeys
  import opened Coding
  import opened BlockFormat

  // ----- Byte order -----

  /** Slice::compare(b) < 0. */
  predicate BytesLess(a: Bytes, b: Bytes) {
    if b == [] then false
    else if a == [] then true
    else if a[0] != b[0] then a[0] < b[0]
    else BytesLess(a[1..], b[1..])
  }

  lemma {:induction false} NotLessSelf(a: Bytes)
    ensures !BytesLess(a, a)
  {
    if a != [] {
      NotLessSelf(a[1..]);
    }
  }

  lemma {:induction false} Transitive(a: Bytes, b: Bytes, c: Bytes)
    requires BytesLess(a, b) && BytesLess(b, c)
    ensures BytesLess(a, c)
    decreases |a|
  {
    if a != [] && a[0] == b[0] == c[0] {
      Transitive(a[1..], b[1..], c[1..]);
    }
  }

  lemma {:induction false} Total(a: Bytes, b: Bytes)
    requires a != b
    ensures BytesLess(a, b) || BytesLess(b, a)
    decreases |a|
  {
    if a != [] && b != [] && a[0] == b[0] {
      assert a == [a[0]] + a[1..] && b == [b[0]] + b[1..];
      Total(a[1..], b[1..]);
    }
  }

  lemma NotBothWays(a: Bytes, b: Bytes)
    ensures !(BytesLess(a, b) && BytesLess(b, a))
  {
    NotLessSelf(a);
    if BytesLess(a, b) && BytesLess(b, a) {
      Transitive(a, b, a);
    }
  }

  /** Two strings are ordered by their first difference. */
  lemma {:induction false} FirstDifference(a: Bytes, b: Bytes, d: nat)
    requires d < |a| && d < |b| && a[..d] == b[..d] && a[d] != b[d]
    ensures BytesLess(a, b) <==> a[d] < b[d]
  {
    if d > 0 {
      assert a[0] == a[..d][0] && b[0] == b[..d][0];
      assert a[1..][..d - 1] == a[..d][1..] && b[1..][..d - 1] == b[..d][1..];
      FirstDifference(a[1..], b[1..], d - 1);
    }
  }

  ghost predicate DiffersAt(a: Bytes, b: Bytes, d: nat) {
    d < |a| && d < |b| && a[d] != b[d] && forall j :: 0 <= j < d ==> a[j] == b[j]
  }

  /** There is a byte between those at the first difference. */
  ghost predicate RoomAt(start: Bytes, limit: Bytes, d: nat) {
    DiffersAt(start, limit, d) && start[d] < 0xff && start[d] as int + 1 < limit[d] as int
  }

  lemma OnlyDifference(a: Bytes, b: Bytes, d: nat)
    requires d < |a| && d < |b| && a[..d] == b[..d] && a[d] != b[d]
    ensures DiffersAt(a, b, d) && forall e: nat :: DiffersAt(a, b, e) ==> e == d
  {
    forall j | 0 <= j < d ensures a[j] == b[j] {
      assert a[..d][j] == b[..d][j];
    }
  }

  /** The key is unchanged, or no longer and strictly between start and limit; it is cut after the first
      difference exactly when there is room between the bytes there. */
  method FindShortestSeparator(start: Bytes, limit: Bytes) returns (r: Bytes)
    ensures r == start || (|r| <= |start| && BytesLess(start, r) && BytesLess(r, limit))
    ensures forall d: nat :: RoomAt(start, limit, d) ==> r == start[..d] + [start[d] + 1]
    ensures (forall d: nat :: !RoomAt(start, limit, d)) ==> r == start
  {
    var minLength := if |start| < |limit| then |start| else |limit|;
    var diffIndex := 0;
    while diffIndex < minLength && start[diffIndex] == limit[diffIndex]
      invariant diffIndex <= minLength && start[..diffIndex] == limit[..diffIndex]
    {
      diffIndex := diffIndex + 1;
    }
    r := start;
    if diffIndex < minLength {
      OnlyDifference(start, limit, diffIndex);
      var diffByte := start[diffIndex] as int;
      if diffByte < 0xff && diffByte + 1 < limit[diffIndex] as int {
        r := start[..diffIndex] + [(diffByte + 1) as byte];
        assert r[..diffIndex] == start[..diffIndex];
        FirstDifference(start, r, diffIndex);
        FirstDifference(r, limit, diffIndex);
        assert RoomAt(start, limit, diffIndex);
      }
    } else {
      NoDifference(start, limit, minLength);
    }
  }

  lemma NoDifference(a: Bytes, b: Bytes, n: nat)
    requires n <= |a| && n <= |b| && (n == |a| || n == |b|) && a[..n] == b[..n]
    ensures forall d: nat :: !DiffersAt(a, b, d)
  {
    forall d: nat | d < |a| && d < |b| ensures a[d] == b[d] {
      assert a[..n][d] == b[..n][d];
    }
  }

  /** The first byte that can be made larger. */
  ghost predicate FirstBelowMax(key: Bytes, i: nat) {
    i < |key| && key[i] != 0xff && forall j :: 0 <= j < i ==> key[j] == 0xff
  }

  /** The key is unchanged, or no longer and strictly greater: cut after its first byte below 0xff, if it
      has one. */
  method FindShortSuccessor(key: Bytes) returns (r: Bytes)
    ensures |r| <= |key| && (r == key || BytesLess(key, r))
    ensures forall i: nat :: FirstBelowMax(key, i) ==> r == key[..i] + [key[i] + 1]
    ensures (forall i: nat :: !FirstBelowMax(key, i)) ==> r == key
  {
    for i := 0 to |key|
      invariant forall j :: 0 <= j < i ==> key[j] == 0xff
    {
      if key[i] != 0xff {
        r := key[..i] + [key[i] + 1];
        assert r[..i] == key[..i];
        FirstDifference(key, r, i);
        assert FirstBelowMax(key, i);
        return;
      }
    }
    r := key;
  }

  // ----- Internal keys as bytes -----

  function UserOf(k: Bytes): Bytes
    requires |k| >= 8
  {
    k[..|k| - 8]
  }

  function TagOf(k: Bytes): nat
    requires |k| >= 8
  {
    DecodeFixed64(k[|k| - 8..])
  }

  /** InternalKeyComparator::Compare(a, b) < 0: user key up, tag down.  Strings too short to be
      internal keys come first, so that the order is total. */
  predicate InternalLess(a: Bytes, b: Bytes) {
    if |a| < 8 || |b| < 8 then |a| < 8 && (|b| >= 8 || BytesLess(a, b))
    else if UserOf(a) == UserOf(b) then TagOf(a) > TagOf(b)
    else BytesLess(UserOf(a), UserOf(b))
  }

  lemma Fixed32Injective(x: Bytes, y: Bytes)
    requires |x| >= 4 && |y| >= 4 && DecodeFixed32(x) == DecodeFixed32(y)
    ensures x[..4] == y[..4]
  {
    DigitsEqual(x[0] as int, x[1] as int, x[2] as int, x[3] as int, y[0] as int, y[1] as int, y[2] as int, y[3] as int);
  }

  lemma DigitsEqual(a: int, b: int, c: int, d: int, e: int, f: int, g: int, h: int)
    requires 0 <= a < 256 && 0 <= b < 256 && 0 <= c < 256 && 0 <= d < 256
    requires 0 <= e < 256 && 0 <= f < 256 && 0 <= g < 256 && 0 <= h < 256
    requires a + b * 256 + c * 65536 + d * 16777216 == e + f * 256 + g * 65536 + h * 16777216
    ensures a == e && b == f && c == g && d == h
  {
    assert d == h;
    assert c == g;
    assert b == f;
  }

  lemma TagInjective(a: Bytes, b: Bytes)
    requires |a| >= 8 && |b| >= 8 && UserOf(a) == UserOf(b) && TagOf(a) == TagOf(b)
    ensures a == b
  {
    var x, y := a[|a| - 8..], b[|b| - 8..];
    assert DecodeFixed32(x) == DecodeFixed32(y) && DecodeFixed32(x[4..]) == DecodeFixed32(y[4..]) by {
      var l, h, m, i := DecodeFixed32(x) as int, DecodeFixed32(x[4..]) as int, DecodeFixed32(y) as int, DecodeFixed32(y[4..]) as int;
      assert l + h * TWO_32 == m + i * TWO_32;
    }
    Fixed32Injective(x, y);
    Fixed32Injective(x[4..], y[4..]);
    assert x == x[..4] + x[4..][..4] && y == y[..4] + y[4..][..4];
    assert a == UserOf(a) + x && b == UserOf(b) + y;
  }

  /** The comparator of internal keys is a strict total order on all byte strings. */
  lemma InternalIsStrictOrder()
    ensures StrictOrder(InternalLess)
  {
    forall a: Bytes ensures !InternalLess(a, a) {
      NotLessSelf(a);
    }
    forall a: Bytes, b: Bytes | a != b ensures InternalLess(a, b) || InternalLess(b, a) {
      if |a| < 8 || |b| < 8 {
        Total(a, b);
      } else if UserOf(a) == UserOf(b) {
        if TagOf(a) == TagOf(b) {
          TagInjective(a, b);
        }
      } else {
        Total(UserOf(a), UserOf(b));
      }
    }
    forall a: Bytes, b: Bytes, c: Bytes | InternalLess(a, b) && InternalLess(b, c) ensures InternalLess(a, c) {
      InternalTransitive(a, b, c);
    }
  }

  lemma InternalTransitive(a: Bytes, b: Bytes, c: Bytes)
    requires InternalLess(a, b) && InternalLess(b, c)
    ensures InternalLess(a, c)
  {
    if |c| < 8 {
      Transitive(a, b, c);
    } else if |a| >= 8 && BytesLess(UserOf(a), UserOf(b)) && BytesLess(UserOf(b), UserOf(c)) {
      Transitive(UserOf(a), UserOf(b), UserOf(c));
      NotLessSelf(UserOf(c));
    }
  }

  // ----- Byte strings as the keys of the store -----

  /** A string as a fraction in base 257, so that a prefix comes before what it begins. */
  function Embed(b: Bytes): (r: UserKey)
    ensures 0.0 <= r < 1.0
  {
    if b == [] then 0.0 else ((b[0] as int) as real + 1.0 + Embed(b[1..])) / 257.0
  }

  /** The order of the fractions is the byte order, and no two strings have the same one. */
  lemma {:induction false} EmbedKeepsOrder(a: Bytes, b: Bytes)
    ensures Embed(a) < Embed(b) <==> BytesLess(a, b)
    ensures Embed(a) == Embed(b) <==> a == b
    decreases |a|
  {
    if a != [] && b != [] {
      EmbedKeepsOrder(a[1..], b[1..]);
      FirstStep(a[0] as int, Embed(a[1..]), b[0] as int, Embed(b[1..]));
      assert a == [a[0]] + a[1..] && b == [b[0]] + b[1..];
    }
  }

  lemma FirstStep(m: int, x: real, n: int, y: real)
    requires 0.0 <= x < 1.0 && 0.0 <= y < 1.0
    ensures (m as real + 1.0 + x) / 257.0 < (n as real + 1.0 + y) / 257.0 <==> m < n || (m == n && x < y)
    ensures (m as real + 1.0 + x) / 257.0 == (n as real + 1.0 + y) / 257.0 <==> m == n && x == y
  {
    assert m < n ==> m + 1 <= n && m as real + 1.0 <= n as real;
    assert n < m ==> n + 1 <= m && n as real + 1.0 <= m as real;
  }

  /** ParseInternalKey succeeds. */
  predicate Parses(k: Bytes) {
    |k| >= 8 && TagOf(k) % 256 <= 1
  }

  lemma TagFits(k: Bytes)
    requires |k| >= 8
    ensures TagOf(k) / 256 <= MAX_SEQUENCE && TagOf(k) == TagOf(k) / 256 * 256 + TagOf(k) % 256
  {
  }

  /** The internal key a byte string stands for in the store. */
  function KeyOf(k: Bytes): InternalKey
    requires Parses(k)
  {
    TagFits(k);
    InternalKey(Embed(UserOf(k)), TagOf(k) / 256, if TagOf(k) % 256 == 1 then Value else Deletion)
  }

  lemma TagOrder(x: nat, y: nat)
    ensures x > y <==> x / 256 > y / 256 || (x / 256 == y / 256 && x % 256 > y % 256)
    ensures x == y <==> x / 256 == y / 256 && x % 256 == y % 256
  {
  }

  /** The comparator on bytes is the order of the store on the keys they stand for. */
  lemma KeyOfKeepsOrder(a: Bytes, b: Bytes)
    requires Parses(a) && Parses(b)
    ensures InternalLess(a, b) <==> Less(KeyOf(a), KeyOf(b))
    ensures KeyOf(a) == KeyOf(b) <==> a == b
  {
    EmbedKeepsOrder(UserOf(a), UserOf(b));
    TagOrder(TagOf(a), TagOf(b));
    if UserOf(a) == UserOf(b) && TagOf(a) == TagOf(b) {
      TagInjective(a, b);
    }
  }

  /** What an index key must be between a block's last key and the next block's first key. */
  ghost predicate Separator(last: Bytes, sep: Bytes, next: Bytes) {
    && |last| >= 8 && |sep| >= 8 && |next| >= 8
    && !InternalLess(sep, last) && InternalLess(sep, next) && (Parses(last) ==> Parses(sep))
    && (sep == last || (BytesLess(UserOf(last), UserOf(sep)) && BytesLess(UserOf(sep), UserOf(next))))
  }

  const SEEK_TAG: nat := PackSequenceAndType(MAX_SEQUENCE, TYPE_FOR_SEEK)

  /** A shortened key still parses: it carries the type that seeks use. */
  lemma ShortenedParses(user: Bytes)
    ensures SEEK_TAG < TWO_64 && UserOf(user + Fixed64(SEEK_TAG)) == user && Parses(user + Fixed64(SEEK_TAG))
  {
    var k := user + Fixed64(SEEK_TAG);
    assert k[|k| - 8..] == Fixed64(SEEK_TAG) + [];
    Fixed64RoundTrip(SEEK_TAG, []);
  }

  /** InternalKeyComparator::FindShortestSeparator. */
  method ShortestInternalSeparator(start: Bytes, limit: Bytes) returns (r: Bytes)
    requires |start| >= 8 && |limit| >= 8 && InternalLess(start, limit)
    ensures Separator(start, r, limit) && |r| <= |start|
  {
    InternalIsStrictOrder();
    var userStart, userLimit := UserOf(start), UserOf(limit);
    var tmp := FindShortestSeparator(userStart, userLimit);
    if |tmp| < |userStart| && BytesLess(userStart, tmp) {
      r := tmp + Fixed64(SEEK_TAG);
      ShortenedParses(tmp);
      NotLessSelf(userStart);
      NotLessSelf(tmp);
      if InternalLess(r, start) {
        Transitive(userStart, tmp, userStart);
      }
    } else {
      r := start;
    }
  }

  /** InternalKeyComparator::FindShortSuccessor. */
  method ShortInternalSuccessor(key: Bytes) returns (r: Bytes)
    requires |key| >= 8
    ensures |r| >= 8 && !InternalLess(r, key) && |r| <= |key| && (Parses(key) ==> Parses(r))
  {
    InternalIsStrictOrder();
    var userKey := UserOf(key);
    var tmp := FindShortSuccessor(userKey);
    if |tmp| < |userKey| && BytesLess(userKey, tmp) {
      r := tmp + Fixed64(SEEK_TAG);
      ShortenedParses(tmp);
      NotLessSelf(userKey);
      if InternalLess(r, key) {
        Transitive(userKey, tmp, userKey);
      }
    } else {
      r := key;
    }
  }
}
