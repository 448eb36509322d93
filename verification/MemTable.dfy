/** The memtable: entries as length-prefixed bytes, in internal-key order (db/memtable.cc, db/dbformat.cc). */
module MemTables {
  import opened InternalKeys
  import opened Coding
  import opened Comparators

  /** One Add call. */
  datatype Added = Added(sequence: SequenceNumber, typ: ValueType, key: Bytes, value: Bytes)

  predicate Small(a: Added) {
    Fits32(|a.key| + 8) && Fits32(|a.value|)
  }

  function InternalBytes(key: Bytes, tag: nat): Bytes
    requires tag < TWO_64
  {
    key + Fixed64(tag)
  }

  function Tag(a: Added): (tag: nat)
    ensures tag < TWO_64
  {
    PackSequenceAndType(a.sequence, a.typ)
  }

  /** An entry as the arena holds it. */
  function EncodeEntry(a: Added): Bytes {
    LengthPrefixed(InternalBytes(a.key, Tag(a))) + LengthPrefixed(a.value)
  }

  lemma InternalParts(key: Bytes, tag: nat)
    requires tag < TWO_64
    ensures var k := InternalBytes(key, tag); |k| == |key| + 8 && UserOf(k) == key && TagOf(k) == tag
  {
    var k := InternalBytes(key, tag);
    assert k[|k| - 8..] == Fixed64(tag) + [];
    Fixed64RoundTrip(tag, []);
  }

  /** Both parts of an entry are read back. */
  lemma EntryRoundTrip(a: Added)
    requires Small(a)
    ensures GetLengthPrefixed(EncodeEntry(a)) == Some((InternalBytes(a.key, Tag(a)), LengthPrefixed(a.value)))
    ensures GetLengthPrefixed(LengthPrefixed(a.value)) == Some((a.value, []))
  {
    InternalParts(a.key, Tag(a));
    LengthPrefixedRoundTrip(InternalBytes(a.key, Tag(a)), LengthPrefixed(a.value));
    LengthPrefixedRoundTrip(a.value, []);
    assert LengthPrefixed(a.value) + [] == LengthPrefixed(a.value);
  }

  /** KeyComparator: the internal keys in front of two entries are compared. */
  predicate EntryLess(a: Bytes, b: Bytes) {
    match (GetLengthPrefixed(a), GetLengthPrefixed(b))
    case (Some(x), Some(y)) => InternalLess(x.0, y.0)
    case _ => false
  }

  /** What the comparator means: key up, sequence down. */
  predicate Precedes(key: Bytes, tag: nat, other: Bytes, otherTag: nat) {
    if key == other then tag > otherTag else BytesLess(key, other)
  }

  lemma InternalOrder(key: Bytes, tag: nat, other: Bytes, otherTag: nat)
    requires tag < TWO_64 && otherTag < TWO_64
    ensures InternalLess(InternalBytes(key, tag), InternalBytes(other, otherTag)) <==> Precedes(key, tag, other, otherTag)
  {
    InternalParts(key, tag);
    InternalParts(other, otherTag);
  }

  lemma PrecedesIsOrder(a: Added, b: Added, c: Added)
    ensures Precedes(a.key, Tag(a), b.key, Tag(b)) && Precedes(b.key, Tag(b), c.key, Tag(c)) ==> Precedes(a.key, Tag(a), c.key, Tag(c))
    ensures Precedes(a.key, Tag(a), b.key, Tag(b)) || Precedes(b.key, Tag(b), a.key, Tag(a)) || (a.key == b.key && Tag(a) == Tag(b))
    ensures !(Precedes(a.key, Tag(a), b.key, Tag(b)) && Precedes(b.key, Tag(b), a.key, Tag(a)))
  {
    if BytesLess(a.key, b.key) && BytesLess(b.key, c.key) {
      Transitive(a.key, b.key, c.key);
    }
    if a.key != b.key {
      Total(a.key, b.key);
    }
    NotBothWays(a.key, b.key);
    NotLessSelf(a.key);
    if BytesLess(a.key, b.key) && BytesLess(b.key, a.key) {
      NotBothWays(a.key, b.key);
    }
    if a.key == c.key && BytesLess(a.key, b.key) {
      NotBothWays(a.key, b.key);
    }
  }

  predicate Before(a: Added, b: Added) {
    Precedes(a.key, Tag(a), b.key, Tag(b))
  }

  ghost predicate Ascending(order: seq<Added>) {
    forall i, j :: 0 <= i < j < |order| ==> Before(order[i], order[j])
  }

  /** Encoded entries, and what they say. */
  ghost predicate Holds(table: seq<Bytes>, order: seq<Added>) {
    |table| == |order| && forall i :: 0 <= i < |order| ==> Small(order[i]) && table[i] == EncodeEntry(order[i])
  }

  /** Index i is where a search for the internal key stops. */
  ghost predicate Stops(order: seq<Added>, i: nat, key: Bytes, tag: nat) {
    && i <= |order|
    && (forall j :: 0 <= j < i ==> Precedes(order[j].key, Tag(order[j]), key, tag))
    && (i < |order| ==> !Precedes(order[i].key, Tag(order[i]), key, tag))
  }

  lemma EntryBelow(a: Added, target: Bytes, key: Bytes, tag: nat, rest: Bytes)
    requires Small(a) && tag < TWO_64 && Fits32(|key| + 8) && target == LengthPrefixed(InternalBytes(key, tag)) + rest
    ensures EntryLess(EncodeEntry(a), target) <==> Precedes(a.key, Tag(a), key, tag)
  {
    EntryRoundTrip(a);
    InternalParts(key, tag);
    LengthPrefixedRoundTrip(InternalBytes(key, tag), rest);
    InternalOrder(a.key, Tag(a), key, tag);
  }

  /** The skip list's search for the first entry not below the target. */
  method FindGreaterOrEqual(table: seq<Bytes>, target: Bytes, ghost order: seq<Added>, ghost key: Bytes, ghost tag: nat, ghost rest: Bytes)
    returns (i: nat)
    requires Holds(table, order) && tag < TWO_64 && Fits32(|key| + 8) && target == LengthPrefixed(InternalBytes(key, tag)) + rest
    ensures Stops(order, i, key, tag)
  {
    i := 0;
    while i < |table| && EntryLess(table[i], target)
      invariant i <= |table|
      invariant forall j :: 0 <= j < i ==> Precedes(order[j].key, Tag(order[j]), key, tag)
    {
      EntryBelow(order[i], target, key, tag, rest);
      i := i + 1;
    }
    if i < |table| {
      EntryBelow(order[i], target, key, tag, rest);
    }
  }

  ghost function SetOf(order: seq<Added>): set<Added> {
    set a | a in order
  }

  lemma InsertedAscends(order: seq<Added>, i: nat, a: Added, next: seq<Added>)
    requires Ascending(order) && Stops(order, i, a.key, Tag(a)) && next == order[..i] + [a] + order[i..]
    requires forall x :: x in order ==> x.key != a.key || x.sequence != a.sequence
    ensures Ascending(next) && SetOf(next) == SetOf(order) + {a}
  {
    if i < |order| {
      TagsDiffer(order[i], a);
      PrecedesIsOrder(order[i], a, a);
    }
    forall j, k | 0 <= j < k < |next| ensures Before(next[j], next[k]) {
      if j == i {
        assert next[k] == order[k - 1];
        if k - 1 > i {
          PrecedesIsOrder(a, order[i], order[k - 1]);
        }
      } else if j < i && k > i {
        assert next[k] == order[k - 1] && Before(order[j], order[k - 1]);
      } else if j > i {
        assert next[j] == order[j - 1] && next[k] == order[k - 1];
      }
    }
    forall x ensures x in SetOf(next) <==> x in SetOf(order) + {a} {
      assert order == order[..i] + order[i..];
      assert next[i] == a;
    }
  }

  lemma TagsDiffer(a: Added, b: Added)
    requires a.key != b.key || a.sequence != b.sequence
    ensures a.key != b.key || Tag(a) != Tag(b)
  {
  }

  datatype Result = Missing | Deleted | Present(value: Bytes)

  ghost predicate VisibleTo(a: Added, user: Bytes, s: SequenceNumber) {
    a.key == user && a.sequence <= s
  }

  /** a is the newest of the entries that a reader of the key at the snapshot may see. */
  ghost predicate NewestFor(S: set<Added>, user: Bytes, s: SequenceNumber, a: Added) {
    a in S && VisibleTo(a, user, s) && forall x :: x in S && VisibleTo(x, user, s) ==> x.sequence <= a.sequence
  }

  function ResultOf(a: Added): Result {
    if a.typ == Value then Present(a.value) else Deleted
  }

  lemma SeekTag(a: Added, s: SequenceNumber)
    ensures PackSequenceAndType(s, TYPE_FOR_SEEK) < TWO_64
    ensures Tag(a) > PackSequenceAndType(s, TYPE_FOR_SEEK) <==> a.sequence > s
  {
  }

  /** Where the search for a lookup key stops is the newest visible entry of the key, if there is one. */
  lemma StopIsNewest(order: seq<Added>, i: nat, user: Bytes, s: SequenceNumber)
    requires Ascending(order) && Stops(order, i, user, PackSequenceAndType(s, TYPE_FOR_SEEK))
    ensures i < |order| && order[i].key == user ==> NewestFor(SetOf(order), user, s, order[i])
    ensures !(i < |order| && order[i].key == user) ==> forall x :: x in order ==> !VisibleTo(x, user, s)
  {
    forall j | 0 <= j < |order| && VisibleTo(order[j], user, s)
      ensures i <= j && order[i].key == user && order[j].sequence <= order[i].sequence
    {
      SeekTag(order[j], s);
      assert j >= i;
      SeekTag(order[i], s);
      if j > i {
        assert Before(order[i], order[j]);
      }
    }
    if i < |order| && order[i].key == user {
      SeekTag(order[i], s);
    }
  }

  class MemTable {
    /** The bottom level of the skip list. */
    var table: seq<Bytes>
    ghost var order: seq<Added>

    ghost predicate Valid()
      reads this
    {
      Holds(table, order) && Ascending(order)
    }

    ghost function Contents(): set<Added>
      reads this
    {
      SetOf(order)
    }

    constructor ()
      ensures Valid() && Contents() == {}
    {
      table, order := [], [];
    }

    /** Encodes an entry and inserts it in its place.  No key gets the same sequence number twice. */
    method Add(s: SequenceNumber, typ: ValueType, key: Bytes, value: Bytes)
      requires Valid() && Small(Added(s, typ, key, value))
      requires forall x :: x in Contents() ==> x.key != key || x.sequence != s
      modifies this
      ensures Valid() && Contents() == old(Contents()) + {Added(s, typ, key, value)}
    {
      ghost var a := Added(s, typ, key, value);
      var buf := BuildEntry(s, typ, key, value);
      var i := FindGreaterOrEqual(table, buf, order, key, Tag(a), LengthPrefixed(value));
      ghost var next := order[..i] + [a] + order[i..];
      InsertedAscends(order, i, a, next);
      table := table[..i] + [buf] + table[i..];
      order := next;
    }

    /** The newest entry of the key that the snapshot may see, through one seek and one comparison of
        user keys. */
    method Get(user: Bytes, s: SequenceNumber) returns (r: Result)
      requires Valid() && Fits32(|user| + 8)
      ensures r == Missing ==> forall x :: x in Contents() ==> !VisibleTo(x, user, s)
      ensures r != Missing ==> exists a :: NewestFor(Contents(), user, s, a) && r == ResultOf(a)
    {
      var memkey := LookupKeyBytes(user, s);
      ghost var tag := PackSequenceAndType(s, TYPE_FOR_SEEK);
      assert memkey == LengthPrefixed(InternalBytes(user, tag)) + [];
      var i := FindGreaterOrEqual(table, memkey, order, user, tag, []);
      StopIsNewest(order, i, user, s);
      r := Missing;
      if i < |table| {
        ghost var a := order[i];
        EntryRoundTrip(a);
        InternalParts(a.key, Tag(a));
        var parts := GetLengthPrefixed(table[i]).value;
        if UserOf(parts.0) == user {
          assert NewestFor(Contents(), user, s, a);
          r := ReadEntry(parts.0, parts.1, a);
        }
      }
    }
  }

  lemma TypeInTag(a: Added)
    ensures Tag(a) % 256 == TypeCode(a.typ)
  {
    TagLow(a.sequence, TypeCode(a.typ));
  }

  lemma TagLow(n: nat, t: nat)
    requires t < 256
    ensures (n * 256 + t) % 256 == t
  {
  }

  /** The switch on the type in the tag. */
  method ReadEntry(internal: Bytes, rest: Bytes, ghost a: Added) returns (r: Result)
    requires Small(a) && internal == InternalBytes(a.key, Tag(a)) && rest == LengthPrefixed(a.value)
    ensures r == ResultOf(a)
  {
    EntryRoundTrip(a);
    InternalParts(a.key, Tag(a));
    TypeInTag(a);
    assert TagOf(internal) == Tag(a);
    if TagOf(internal) % 256 == TypeCode(Value) {
      r := Present(GetLengthPrefixed(rest).value.0);
    } else {
      r := Deleted;
    }
  }

  method BuildEntry(s: SequenceNumber, typ: ValueType, key: Bytes, value: Bytes) returns (buf: Bytes)
    requires Small(Added(s, typ, key, value))
    ensures buf == EncodeEntry(Added(s, typ, key, value))
  {
    var keyLength := EncodeVarint32((|key| + 8) as uint32);
    var valueLength := EncodeVarint32(|value| as uint32);
    buf := (keyLength + (key + Fixed64(PackSequenceAndType(s, typ)))) + (valueLength + value);
  }

  /** LookupKey: the key in the form that entries begin with. */
  method LookupKeyBytes(user: Bytes, s: SequenceNumber) returns (memkey: Bytes)
    requires Fits32(|user| + 8)
    ensures PackSequenceAndType(s, TYPE_FOR_SEEK) < TWO_64
    ensures memkey == LengthPrefixed(InternalBytes(user, PackSequenceAndType(s, TYPE_FOR_SEEK)))
  {
    var length := EncodeVarint32((|user| + 8) as uint32);
    memkey := length + (user + Fixed64(PackSequenceAndType(s, TYPE_FOR_SEEK)));
  }
}
