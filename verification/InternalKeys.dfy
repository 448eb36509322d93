/** Internal keys, entries, and what a read at a snapshot means (db/dbformat.h, db/dbformat.cc). */
module InternalKeys {

  /** Only the order of user keys matters above the table format.  Every countable total order,
      such as byte strings under any comparator, embeds in the rationals, so a real loses nothing. */
  type UserKey = real

  newtype byte = x: int | 0 <= x < 256
  type Bytes = seq<byte>

  datatype Option<+T> = None | Some(value: T)

  /** Eight bits are left free so that a sequence number and a type pack into 64 bits. */
  const MAX_SEQUENCE: nat := 0xff_ffff_ffff_ffff
  type SequenceNumber = s: nat | s <= MAX_SEQUENCE

  datatype ValueType = Deletion | Value
  const TYPE_FOR_SEEK := Value

  datatype InternalKey = InternalKey(user: UserKey, sequence: SequenceNumber, typ: ValueType)
  datatype Entry = Entry(key: InternalKey, value: Bytes)

  function TypeCode(t: ValueType): nat {
    match t
    case Deletion => 0
    case Value => 1
  }

  function PackSequenceAndType(s: SequenceNumber, t: ValueType): nat {
    s * 256 + TypeCode(t)
  }

  /** InternalKeyComparator::Compare: user key up, packed sequence and type down. */
  function Compare(a: InternalKey, b: InternalKey): int {
    if a.user < b.user then -1
    else if a.user > b.user then 1
    else
      var anum := PackSequenceAndType(a.sequence, a.typ);
      var bnum := PackSequenceAndType(b.sequence, b.typ);
      if anum > bnum then -1 else if anum < bnum then 1 else 0
  }

  /** What Compare(a, b) < 0 means, unpacked; CompareMeaning shows the two agree. */
  predicate Less(a: InternalKey, b: InternalKey) {
    a.user < b.user ||
    (a.user == b.user &&
     (a.sequence > b.sequence || (a.sequence == b.sequence && a.typ == Value && b.typ == Deletion)))
  }

  /** The order the store actually keeps: every write has its own sequence number, so the type
      never decides.  Before(a, b) implies Less(a, b). */
  predicate Before(a: InternalKey, b: InternalKey) {
    a.user < b.user || (a.user == b.user && a.sequence > b.sequence)
  }

  function LookupKey(u: UserKey, s: SequenceNumber): InternalKey {
    InternalKey(u, s, TYPE_FOR_SEEK)
  }

  predicate Sorted(t: seq<Entry>) {
    forall i, j :: 0 <= i < j < |t| ==> Before(t[i].key, t[j].key)
  }

  ghost predicate Visible(e: Entry, u: UserKey, s: SequenceNumber) {
    e.key.user == u && e.key.sequence <= s
  }

  /** e is the newest entry of S for u at snapshot s. */
  ghost predicate Newest(S: set<Entry>, u: UserKey, s: SequenceNumber, e: Entry) {
    && e in S && Visible(e, u, s)
    && forall x :: x in S && Visible(x, u, s) ==> x.key.sequence <= e.key.sequence
  }

  datatype Answer = NotFound | Found(value: Bytes)

  function AnswerOf(e: Entry): Answer {
    match e.key.typ
    case Deletion => NotFound
    case Value => Found(e.value)
  }

  /** The meaning of a read: the newest entry at or below the snapshot decides. */
  ghost function Read(S: set<Entry>, u: UserKey, s: SequenceNumber): Answer {
    if exists e :: Newest(S, u, s, e) then
      var e :| Newest(S, u, s, e);
      AnswerOf(e)
    else
      NotFound
  }

  /** A user key and a sequence number name at most one entry. */
  ghost predicate Unambiguous(S: set<Entry>) {
    forall a, b :: a in S && b in S && a.key.user == b.key.user && a.key.sequence == b.key.sequence ==> a == b
  }

  /** The packed number holds both parts in 64 bits, and comparing packed numbers is comparing
      sequence numbers, then types, both downwards. */
  lemma CompareMeaning(a: InternalKey, b: InternalKey)
    ensures PackSequenceAndType(a.sequence, a.typ) < 0x1_0000_0000_0000_0000
    ensures PackSequenceAndType(a.sequence, a.typ) / 256 == a.sequence
    ensures PackSequenceAndType(a.sequence, a.typ) % 256 == TypeCode(a.typ)
    ensures Compare(a, b) < 0 <==> Less(a, b)
    ensures Compare(a, b) == 0 <==> a == b
    ensures Compare(a, b) == -Compare(b, a)
  {
  }

  /** A lookup key separates exactly the entries too new for the snapshot from the visible ones. */
  lemma LookupKeySplits(k: InternalKey, u: UserKey, s: SequenceNumber)
    ensures Less(k, LookupKey(u, s)) <==> k.user < u || (k.user == u && k.sequence > s)
  {
  }

  lemma ReadNewest(S: set<Entry>, u: UserKey, s: SequenceNumber, e: Entry)
    requires Unambiguous(S)
    requires Newest(S, u, s, e)
    ensures Read(S, u, s) == AnswerOf(e)
  {
    var x :| Newest(S, u, s, x) && Read(S, u, s) == AnswerOf(x);
    assert Newest(S, u, s, x) && x == e;
  }

  /** Some visible entry means some newest entry. */
  lemma {:induction false} NewestExists(S: set<Entry>, u: UserKey, s: SequenceNumber, w: Entry) returns (e: Entry)
    requires w in S && Visible(w, u, s)
    ensures Newest(S, u, s, e)
    decreases |S|
  {
    if x :| x in S && Visible(x, u, s) && x.key.sequence > w.key.sequence {
      var T := S - {w};
      e := NewestExists(T, u, s, x);
    } else {
      e := w;
    }
  }

  /** Two stores answer alike when they have the same newest entry. */
  lemma SameNewestSameRead(S: set<Entry>, T: set<Entry>, u: UserKey, s: SequenceNumber)
    requires Unambiguous(S) && Unambiguous(T)
    requires forall e :: Newest(S, u, s, e) <==> Newest(T, u, s, e)
    ensures Read(S, u, s) == Read(T, u, s)
  {
    if e :| Newest(S, u, s, e) {
      ReadNewest(S, u, s, e);
      ReadNewest(T, u, s, e);
    }
  }
}
