/** The user-level iterator: one position per live user key at a snapshot, in either direction
    (db/db_iter.cc). */
module DbIter {
  import opened InternalKeys
  import opened VersionSearch
  import opened Cursors

  // ----- The live map -----

  predicate VisibleAt(t: seq<Entry>, s: SequenceNumber, i: nat)
    requires i < |t|
  {
    t[i].key.sequence <= s
  }

  /** Entry i gives its user key a value at the snapshot: visible, a value, and the newest visible
      entry of its user key. */
  ghost predicate Live(t: seq<Entry>, s: SequenceNumber, i: nat)
    requires i < |t|
  {
    && VisibleAt(t, s, i) && t[i].key.typ == Value
    && forall k :: 0 <= k < i && VisibleAt(t, s, k) ==> t[k].key.user != t[i].key.user
  }

  datatype Pair = Pair(user: UserKey, value: Bytes)

  /** The live pairs among the first n entries. */
  ghost function LiveUpTo(t: seq<Entry>, s: SequenceNumber, n: nat): seq<Pair>
    requires n <= |t|
  {
    if n == 0 then []
    else if Live(t, s, n - 1) then LiveUpTo(t, s, n - 1) + [Pair(t[n - 1].key.user, t[n - 1].value)]
    else LiveUpTo(t, s, n - 1)
  }

  ghost function LivePairs(t: seq<Entry>, s: SequenceNumber): seq<Pair> {
    LiveUpTo(t, s, |t|)
  }

  /** How many live entries come before entry i. */
  ghost function Rank(t: seq<Entry>, s: SequenceNumber, i: nat): nat
    requires i <= |t|
  {
    |LiveUpTo(t, s, i)|
  }

  lemma {:induction false} LivePrefix(t: seq<Entry>, s: SequenceNumber, i: nat, n: nat)
    requires i <= n <= |t|
    ensures LiveUpTo(t, s, i) <= LiveUpTo(t, s, n)
    ensures (forall k :: i <= k < n ==> !Live(t, s, k)) ==> Rank(t, s, i) == Rank(t, s, n)
  {
    if i < n {
      LivePrefix(t, s, i, n - 1);
    }
  }

  lemma LiveAtRank(t: seq<Entry>, s: SequenceNumber, i: nat)
    requires i < |t| && Live(t, s, i)
    ensures Rank(t, s, i) < |LivePairs(t, s)|
    ensures LivePairs(t, s)[Rank(t, s, i)] == Pair(t[i].key.user, t[i].value)
    ensures Rank(t, s, i + 1) == Rank(t, s, i) + 1
  {
    LivePrefix(t, s, i + 1, |t|);
    assert LiveUpTo(t, s, i + 1)[Rank(t, s, i)] == Pair(t[i].key.user, t[i].value);
  }

  ghost predicate PairAt(t: seq<Entry>, s: SequenceNumber, k: int, p: Pair) {
    0 <= k < |t| && Live(t, s, k) && p == Pair(t[k].key.user, t[k].value)
  }

  lemma {:induction false} LiveUpToMembers(t: seq<Entry>, s: SequenceNumber, n: nat)
    requires n <= |t|
    ensures forall p :: p in LiveUpTo(t, s, n) <==> exists k :: k < n && PairAt(t, s, k, p)
  {
    if n > 0 {
      LiveUpToMembers(t, s, n - 1);
      var L := LiveUpTo(t, s, n - 1);
      forall p ensures p in LiveUpTo(t, s, n) <==> exists k :: k < n && PairAt(t, s, k, p) {
        if PairAt(t, s, n - 1, p) {
          assert p in LiveUpTo(t, s, n);
        } else if p in LiveUpTo(t, s, n) {
          assert p in L || PairAt(t, s, n - 1, p);
        }
      }
    }
  }

  lemma {:induction false} LiveUpToAscends(t: seq<Entry>, s: SequenceNumber, n: nat)
    requires Sorted(t) && n <= |t|
    ensures forall i, j :: 0 <= i < j < Rank(t, s, n) ==> LiveUpTo(t, s, n)[i].user < LiveUpTo(t, s, n)[j].user
  {
    if n > 0 {
      LiveUpToAscends(t, s, n - 1);
      LiveUpToMembers(t, s, n - 1);
      var L := LiveUpTo(t, s, n - 1);
      if Live(t, s, n - 1) {
        forall i | 0 <= i < |L| ensures L[i].user < t[n - 1].key.user {
          assert L[i] in L;
          var k :| k < n - 1 && PairAt(t, s, k, L[i]);
          assert VisibleAt(t, s, k) && Before(t[k].key, t[n - 1].key);
        }
      }
    }
  }

  lemma LiveIsFound(t: seq<Entry>, s: SequenceNumber, k: nat)
    requires Sorted(t) && k < |t| && Live(t, s, k)
    ensures Read(TableEntries(t), t[k].key.user, s) == Found(t[k].value)
  {
    SortedUnambiguous(t);
    forall x | x in TableEntries(t) && Visible(x, t[k].key.user, s) ensures x.key.sequence <= t[k].key.sequence {
      var i :| 0 <= i < |t| && t[i] == x;
      assert VisibleAt(t, s, i);
      if i > k {
        assert Before(t[k].key, t[i].key);
      }
    }
    ReadNewest(TableEntries(t), t[k].key.user, s, t[k]);
  }

  lemma SortedUnambiguous(t: seq<Entry>)
    requires Sorted(t)
    ensures Unambiguous(TableEntries(t))
  {
    forall a, b | a in t && b in t && a.key.user == b.key.user && a.key.sequence == b.key.sequence ensures a == b {
      var i :| 0 <= i < |t| && t[i] == a;
      var j :| 0 <= j < |t| && t[j] == b;
    }
  }

  lemma FoundIsLive(t: seq<Entry>, s: SequenceNumber, u: UserKey, v: Bytes) returns (k: nat)
    requires Sorted(t) && Read(TableEntries(t), u, s) == Found(v)
    ensures k < |t| && Live(t, s, k) && t[k].key.user == u && t[k].value == v
  {
    var e :| Newest(TableEntries(t), u, s, e) && AnswerOf(e) == Found(v);
    k :| 0 <= k < |t| && t[k] == e;
    forall i | 0 <= i < k && VisibleAt(t, s, i) ensures t[i].key.user != u {
      assert Before(t[i].key, t[k].key) && t[i] in TableEntries(t);
      assert t[i].key.user == u ==> Visible(t[i], u, s);
    }
  }

  /** The list the iterator walks: ascending, and exactly the pairs a read at the snapshot finds. */
  lemma LivePairsMeaning(t: seq<Entry>, s: SequenceNumber)
    requires Sorted(t)
    ensures var L := LivePairs(t, s);
      && (forall i, j :: 0 <= i < j < |L| ==> L[i].user < L[j].user)
      && (forall u, v :: Pair(u, v) in L <==> Read(TableEntries(t), u, s) == Found(v))
  {
    LiveUpToMembers(t, s, |t|);
    LiveUpToAscends(t, s, |t|);
    forall u, v ensures Pair(u, v) in LivePairs(t, s) <==> Read(TableEntries(t), u, s) == Found(v) {
      if Pair(u, v) in LivePairs(t, s) {
        var k :| k < |t| && PairAt(t, s, k, Pair(u, v));
        LiveIsFound(t, s, k);
      }
      if Read(TableEntries(t), u, s) == Found(v) {
        var k := FoundIsLive(t, s, u, v);
        assert PairAt(t, s, k, Pair(u, v));
      }
    }
  }

  // ----- Scanning forward -----

  predicate Above(u: UserKey, bound: Option<UserKey>) {
    bound.Some? ==> u > bound.value
  }

  ghost predicate Wanted(t: seq<Entry>, s: SequenceNumber, bound: Option<UserKey>, k: nat)
    requires k < |t|
  {
    Live(t, s, k) && Above(t[k].key.user, bound)
  }

  /** Where a forward scan may stand with the user key `skip` to skip past: no visible entry ahead
      is below it, and any entry ahead that a passed entry hides is not above it. */
  ghost predicate ForwardScan(t: seq<Entry>, s: SequenceNumber, pos: nat, skip: Option<UserKey>) {
    && (forall k :: pos <= k < |t| && VisibleAt(t, s, k) && skip.Some? ==> t[k].key.user >= skip.value)
    && forall j, k :: 0 <= j < pos <= k < |t| && VisibleAt(t, s, j) && t[j].key.user == t[k].key.user ==> !Above(t[k].key.user, skip)
  }

  /** A forward scan that began at `from` has found nothing wanted, and has nothing to find up to
      the skipped key. */
  ghost predicate Scanning(t: seq<Entry>, s: SequenceNumber, bound: Option<UserKey>, from: nat, pos: nat, skip: Option<UserKey>) {
    && from <= pos && ForwardScan(t, s, pos, skip)
    && (forall k :: from <= k < pos && k < |t| ==> !Wanted(t, s, bound, k))
    && (forall k :: pos <= k < |t| && !Above(t[k].key.user, skip) ==> !Wanted(t, s, bound, k))
    && (bound.Some? ==> skip.Some? && skip.value >= bound.value)
  }

  lemma ScanDeletion(t: seq<Entry>, s: SequenceNumber, bound: Option<UserKey>, from: nat, pos: nat, skip: Option<UserKey>)
    requires Sorted(t) && pos < |t| && Scanning(t, s, bound, from, pos, skip)
    requires VisibleAt(t, s, pos) && t[pos].key.typ == Deletion
    ensures Scanning(t, s, bound, from, pos + 1, Some(t[pos].key.user))
  {
    var skip' := Some(t[pos].key.user);
    forall k | pos < k < |t| ensures t[k].key.user >= t[pos].key.user {
      assert Before(t[pos].key, t[k].key);
    }
  }

  lemma ScanHidden(t: seq<Entry>, s: SequenceNumber, bound: Option<UserKey>, from: nat, pos: nat, skip: Option<UserKey>)
    requires Sorted(t) && pos < |t| && Scanning(t, s, bound, from, pos, skip)
    requires VisibleAt(t, s, pos) ==> !Above(t[pos].key.user, skip)
    ensures Scanning(t, s, bound, from, pos + 1, skip)
  {
  }

  lemma ScanFound(t: seq<Entry>, s: SequenceNumber, bound: Option<UserKey>, from: nat, pos: nat, skip: Option<UserKey>)
    requires Sorted(t) && pos < |t| && Scanning(t, s, bound, from, pos, skip)
    requires VisibleAt(t, s, pos) && t[pos].key.typ == Value && Above(t[pos].key.user, skip)
    ensures FirstWanted(t, s, bound, from, Some(pos))
  {
  }

  /** `cur` is the first wanted entry from index `from` on. */
  ghost predicate FirstWanted(t: seq<Entry>, s: SequenceNumber, bound: Option<UserKey>, from: nat, cur: Option<nat>) {
    match cur
    case Some(i) => i < |t| && from <= i && Wanted(t, s, bound, i) && forall k :: from <= k < i ==> !Wanted(t, s, bound, k)
    case None => forall k :: from <= k < |t| ==> !Wanted(t, s, bound, k)
  }

  // ----- Scanning backward -----

  predicate Below(u: UserKey, bound: Option<UserKey>) {
    bound.Some? ==> u < bound.value
  }

  /** Every visible entry below the bound is at or before the internal position. */
  ghost predicate BackwardScan(t: seq<Entry>, s: SequenceNumber, pos: nat, bound: Option<UserKey>) {
    && (pos < |t| ==> Below(t[pos].key.user, bound))
    && forall k :: 0 <= k < |t| && VisibleAt(t, s, k) && Below(t[k].key.user, bound) ==> k <= pos < |t|
  }

  ghost predicate LastLive(t: seq<Entry>, s: SequenceNumber, bound: Option<UserKey>, cur: Option<nat>) {
    match cur
    case Some(i) =>
      && i < |t| && Live(t, s, i) && Below(t[i].key.user, bound)
      && forall k :: i < k < |t| && Below(t[k].key.user, bound) ==> !Live(t, s, k)
    case None => forall k :: 0 <= k < |t| && Below(t[k].key.user, bound) ==> !Live(t, s, k)
  }

  /** A backward scan that stands before `pos` last took in the visible entry `c`, if any: nothing
      visible lies between, and nothing live below the bound lies behind `c`. */
  ghost predicate TakenIn(t: seq<Entry>, s: SequenceNumber, pos: nat, bound: Option<UserKey>, c: Option<nat>) {
    && (pos < |t| ==> Below(t[pos].key.user, bound))
    && match c
       case None => BackwardScan(t, s, pos, bound)
       case Some(i) =>
         && i < |t| && VisibleAt(t, s, i) && Below(t[i].key.user, bound)
         && (pos < |t| ==> pos < i)
         && (forall k :: 0 <= k < i && VisibleAt(t, s, k) ==> k <= pos < |t|)
         && forall k :: i < k < |t| && Below(t[k].key.user, bound) ==> !Live(t, s, k)
  }

  /** What a backward scan has saved of the entry it last took in. */
  ghost predicate Holds(t: seq<Entry>, c: Option<nat>, typ: ValueType, key: Option<UserKey>, value: Bytes) {
    match c
    case None => typ == Deletion
    case Some(i) => i < |t| && typ == t[i].key.typ && (typ == Value ==> key == Some(t[i].key.user) && value == t[i].value)
  }

  function Preceding(t: seq<Entry>, pos: nat): nat {
    if pos == 0 then |t| else pos - 1
  }

  lemma BackInvisible(t: seq<Entry>, s: SequenceNumber, pos: nat, bound: Option<UserKey>, c: Option<nat>)
    requires Sorted(t) && pos < |t| && TakenIn(t, s, pos, bound, c) && !VisibleAt(t, s, pos)
    ensures TakenIn(t, s, Preceding(t, pos), bound, c)
  {
    if pos > 0 {
      assert Before(t[pos - 1].key, t[pos].key);
    }
  }

  /** The next visible entry either replaces a newer-seen one of its own user key, or follows a
      deletion. */
  lemma BackTake(t: seq<Entry>, s: SequenceNumber, pos: nat, bound: Option<UserKey>, c: Option<nat>)
    requires Sorted(t) && pos < |t| && TakenIn(t, s, pos, bound, c) && VisibleAt(t, s, pos)
    requires c.Some? && t[c.value].key.typ == Value ==> t[pos].key.user >= t[c.value].key.user
    ensures TakenIn(t, s, Preceding(t, pos), bound, Some(pos))
  {
    if pos > 0 {
      assert Before(t[pos - 1].key, t[pos].key);
    }
    if c.Some? {
      assert Before(t[pos].key, t[c.value].key);
    }
  }

  /** A value taken in, with nothing visible of its user key before it, is the entry to yield. */
  lemma BackFound(t: seq<Entry>, s: SequenceNumber, pos: nat, bound: Option<UserKey>, i: nat)
    requires Sorted(t) && TakenIn(t, s, pos, bound, Some(i)) && t[i].key.typ == Value
    requires pos < |t| ==> t[pos].key.user < t[i].key.user
    ensures LastLive(t, s, bound, Some(i)) && BackwardScan(t, s, pos, Some(t[i].key.user))
  {
    forall k | 0 <= k < i && VisibleAt(t, s, k) ensures t[k].key.user != t[i].key.user {
      if k < pos {
        assert Before(t[k].key, t[pos].key);
      }
    }
    forall k | i <= k < |t| ensures t[k].key.user >= t[i].key.user {
      if i < k {
        assert Before(t[i].key, t[k].key);
      }
    }
  }

  // ----- The iterator -----

  class DBIter {
    const iter: Cursor
    const sequence: SequenceNumber
    var savedKey: Option<UserKey>
    var savedValue: Bytes
    var direction: Direction
    var valid: bool
    /** The index of the entry the iterator stands for. */
    ghost var cur: Option<nat>

    constructor (iter: Cursor, sequence: SequenceNumber)
      requires Sorted(iter.entries)
      ensures this.iter == iter && this.sequence == sequence && Inv() && !valid
    {
      this.iter, this.sequence := iter, sequence;
      savedKey, savedValue, direction, valid, cur := None, [], Forward, false, None;
    }

    ghost predicate Inv()
      reads this, iter
    {
      && Sorted(iter.entries) && (valid <==> cur.Some?)
      && (valid ==>
            && cur.value < |iter.entries| && Live(iter.entries, sequence, cur.value)
            && match direction
               case Forward => iter.pos == cur.value
               case Reverse =>
                 && savedKey == Some(iter.entries[cur.value].key.user) && savedValue == iter.entries[cur.value].value
                 && BackwardScan(iter.entries, sequence, iter.pos, savedKey))
    }

    ghost function Pairs(): seq<Pair> {
      LivePairs(iter.entries, sequence)
    }

    /** The position in the list of live pairs. */
    ghost function At(): Option<nat>
      requires Inv()
      reads this, iter
    {
      if valid then Some(Rank(iter.entries, sequence, cur.value)) else None
    }

    function Key(): UserKey
      requires Inv() && valid
      reads this, iter
      ensures At().value < |Pairs()| && Key() == Pairs()[At().value].user
    {
      LiveAtRank(iter.entries, sequence, cur.value);
      if direction.Forward? then iter.Current().key.user else savedKey.value
    }

    function GetValue(): Bytes
      requires Inv() && valid
      reads this, iter
      ensures At().value < |Pairs()| && GetValue() == Pairs()[At().value].value
    {
      LiveAtRank(iter.entries, sequence, cur.value);
      if direction.Forward? then iter.Current().value else savedValue
    }

    /** Loop until an acceptable entry, or the end. */
    method FindNextUserEntry(skipping: bool)
      requires iter.Valid() && Sorted(iter.entries) && direction == Forward
      requires skipping ==> savedKey.Some?
      requires ForwardScan(iter.entries, sequence, iter.pos, if skipping then savedKey else None)
      modifies this, iter
      ensures Inv() && direction == Forward
      ensures FirstWanted(iter.entries, sequence, if skipping then old(savedKey) else None, old(iter.pos), cur)
    {
      ghost var t, from := iter.entries, iter.pos;
      ghost var bound := if skipping then savedKey else None;
      var skip := skipping;
      while iter.Valid()
        invariant direction == Forward && (skip ==> savedKey.Some?)
        invariant Scanning(t, sequence, bound, from, iter.pos, if skip then savedKey else None)
        decreases |t| - iter.pos
      {
        var e := iter.Current();
        if e.key.sequence <= sequence {
          match e.key.typ
          case Deletion =>
            ScanDeletion(t, sequence, bound, from, iter.pos, if skip then savedKey else None);
            savedKey, skip := Some(e.key.user), true;
          case Value =>
            if skip && e.key.user <= savedKey.value {
              ScanHidden(t, sequence, bound, from, iter.pos, savedKey);
            } else {
              ScanFound(t, sequence, bound, from, iter.pos, if skip then savedKey else None);
              valid, savedKey, cur := true, None, Some(iter.pos);
              return;
            }
        } else {
          ScanHidden(t, sequence, bound, from, iter.pos, if skip then savedKey else None);
        }
        iter.Next();
      }
      valid, savedKey, cur := false, None, None;
    }

    /** Takes in the current entry if it is visible, and steps back. */
    method StepBack(valueType: ValueType, ghost bound: Option<UserKey>, ghost taken: Option<nat>)
      returns (valueType': ValueType, ghost taken': Option<nat>)
      requires Sorted(iter.entries) && iter.Valid() && TakenIn(iter.entries, sequence, iter.pos, bound, taken)
      requires Holds(iter.entries, taken, valueType, savedKey, savedValue)
      requires iter.Current().key.sequence <= sequence && valueType != Deletion ==> iter.Current().key.user >= savedKey.value
      modifies this`savedKey, this`savedValue, iter
      ensures TakenIn(iter.entries, sequence, iter.pos, bound, taken')
      ensures Holds(iter.entries, taken', valueType', savedKey, savedValue)
      ensures iter.pos == Preceding(iter.entries, old(iter.pos))
    {
      valueType', taken' := valueType, taken;
      var e := iter.Current();
      if e.key.sequence <= sequence {
        BackTake(iter.entries, sequence, iter.pos, bound, taken);
        valueType', taken' := e.key.typ, Some(iter.pos);
        if valueType' == Deletion {
          savedKey, savedValue := None, [];
        } else {
          savedKey, savedValue := Some(e.key.user), e.value;
        }
      } else {
        BackInvisible(iter.entries, sequence, iter.pos, bound, taken);
      }
      iter.Prev();
    }

    /** Scan backwards over the entries of earlier user keys, to the newest visible one of the first
        that is not deleted. */
    method FindPrevUserEntry(ghost bound: Option<UserKey>)
      requires Sorted(iter.entries) && direction == Reverse && BackwardScan(iter.entries, sequence, iter.pos, bound)
      modifies this, iter
      ensures Inv() && LastLive(iter.entries, sequence, bound, cur)
    {
      ghost var t := iter.entries;
      var valueType := Deletion;
      ghost var taken: Option<nat> := None;
      var stop := false;
      while iter.Valid() && !stop
        invariant direction == Reverse && TakenIn(t, sequence, iter.pos, bound, taken)
        invariant Holds(t, taken, valueType, savedKey, savedValue)
        invariant stop ==> valueType == Value && iter.Valid() && t[iter.pos].key.user < savedKey.value
        decreases !stop, if iter.Valid() then iter.pos + 1 else 0
      {
        var e := iter.Current();
        if e.key.sequence <= sequence && valueType != Deletion && e.key.user < savedKey.value {
          stop := true;
        } else {
          valueType, taken := StepBack(valueType, bound, taken);
        }
      }
      if valueType == Deletion {
        valid, savedKey, savedValue, direction, cur := false, None, [], Forward, None;
      } else {
        BackFound(t, sequence, iter.pos, bound, taken.value);
        valid, cur := true, taken;
      }
    }

    // ----- The public operations, as a cursor over the live pairs -----

    method SeekToFirst()
      requires Inv()
      modifies this, iter
      ensures Inv() && At() == if Pairs() == [] then None else Some(0)
    {
      direction, savedValue := Forward, [];
      iter.SeekToFirst();
      if iter.Valid() {
        FindNextUserEntry(false);
      } else {
        valid, cur := false, None;
      }
      FirstPosition(iter.entries, sequence, cur);
    }

    method SeekToLast()
      requires Inv()
      modifies this, iter
      ensures Inv() && At() == if Pairs() == [] then None else Some(|Pairs()| - 1)
    {
      direction, savedValue := Reverse, [];
      iter.SeekToLast();
      FindPrevUserEntry(None);
      LastPosition(iter.entries, sequence, cur);
    }

    /** The first pair whose user key is not below the target. */
    method Seek(target: UserKey)
      requires Inv()
      modifies this, iter
      ensures Inv()
      ensures match At()
              case Some(i) => i < |Pairs()| && Pairs()[i].user >= target && forall j :: 0 <= j < i ==> Pairs()[j].user < target
              case None => forall p :: p in Pairs() ==> p.user < target
    {
      direction, savedValue, savedKey := Forward, [], None;
      iter.Seek(LookupKey(target, sequence));
      SeekStart(iter.entries, sequence, target, iter.pos);
      ghost var from := iter.pos;
      if iter.Valid() {
        FindNextUserEntry(false);
      } else {
        valid, cur := false, None;
      }
      SeekPosition(iter.entries, sequence, target, from, cur);
    }

    method Next()
      requires Inv() && valid
      modifies this, iter
      ensures Inv()
      ensures var i := old(At()).value + 1; At() == if i < |Pairs()| then Some(i) else None
    {
      ghost var was := cur.value;
      ghost var t := iter.entries;
      LiveAtRank(t, sequence, was);
      if direction == Reverse {
        direction := Forward;
        ghost var p := iter.pos;
        if !iter.Valid() {
          iter.SeekToFirst();
        } else {
          iter.Next();
        }
        SwitchedForward(t, sequence, p, iter.pos, was);
      } else {
        savedKey := Some(iter.Current().key.user);
        SkipsCurrent(t, sequence, was);
      }
      ghost var from := iter.pos;
      FindNextUserEntry(true);
      NextPosition(t, sequence, was, from, cur);
    }

    method Prev()
      requires Inv() && valid
      modifies this, iter
      ensures Inv()
      ensures var i := old(At()).value; At() == if i > 0 then Some(i - 1) else None
    {
      ghost var was := cur.value;
      ghost var t := iter.entries;
      ghost var bound := Some(t[was].key.user);
      LiveAtRank(t, sequence, was);
      if direction == Forward {
        savedKey := Some(iter.Current().key.user);
        BackToEarlierKey(was);
        if !iter.Valid() {
          valid, savedKey, savedValue, cur := false, None, [], None;
          PrevPosition(t, sequence, was, cur);
          return;
        }
        direction := Reverse;
      }
      FindPrevUserEntry(bound);
      PrevPosition(t, sequence, was, cur);
    }

    /** Scan backwards until the user key changes. */
    method BackToEarlierKey(ghost was: nat)
      requires Sorted(iter.entries) && iter.Valid() && was == iter.pos && savedKey == Some(iter.Current().key.user)
      modifies iter
      ensures BackwardScan(iter.entries, sequence, iter.pos, savedKey)
    {
      ghost var t := iter.entries;
      var scanning := true;
      StepsBack(t, was, was);
      while scanning
        invariant scanning ==> iter.pos <= was && t[iter.pos].key.user >= t[was].key.user
        invariant forall k :: 0 <= k < |t| && t[k].key.user < t[was].key.user ==> iter.Valid() && k <= iter.pos
        invariant !scanning && iter.Valid() ==> t[iter.pos].key.user < t[was].key.user
        decreases scanning, iter.pos
      {
        StepsBack(t, was, iter.pos);
        iter.Prev();
        scanning := iter.Valid() && iter.Current().key.user >= savedKey.value;
      }
    }
  }

  // ----- What the scans' results mean for the position -----

  lemma SkipsCurrent(t: seq<Entry>, s: SequenceNumber, cur: nat)
    requires Sorted(t) && cur < |t| && Live(t, s, cur)
    ensures ForwardScan(t, s, cur, Some(t[cur].key.user))
  {
    forall j | 0 <= j < cur ensures t[j].key.user <= t[cur].key.user {
      assert Before(t[j].key, t[cur].key);
    }
    forall k | cur < k < |t| ensures t[k].key.user >= t[cur].key.user {
      assert Before(t[cur].key, t[k].key);
    }
  }

  /** Leaving reverse: the scan starts just after the internal position, before the current entry. */
  lemma SwitchedForward(t: seq<Entry>, s: SequenceNumber, p: nat, pos: nat, cur: nat)
    requires Sorted(t) && cur < |t| && Live(t, s, cur) && BackwardScan(t, s, p, Some(t[cur].key.user))
    requires pos == if p < |t| then p + 1 else 0
    ensures pos <= cur && ForwardScan(t, s, pos, Some(t[cur].key.user))
  {
    forall j | 0 <= j < pos ensures t[j].key.user < t[cur].key.user {
      if j < p {
        assert Before(t[j].key, t[p].key);
      }
    }
  }

  lemma FirstPosition(t: seq<Entry>, s: SequenceNumber, cur: Option<nat>)
    requires FirstWanted(t, s, None, 0, cur)
    ensures match cur case Some(i) => Rank(t, s, i) == 0 && LivePairs(t, s) != [] case None => LivePairs(t, s) == []
  {
    var i := if cur.Some? then cur.value else |t|;
    forall k | 0 <= k < i ensures !Live(t, s, k) {
      assert !Wanted(t, s, None, k);
    }
    LivePrefix(t, s, 0, i);
    if cur.Some? {
      LiveAtRank(t, s, i);
    }
  }

  lemma LastPosition(t: seq<Entry>, s: SequenceNumber, cur: Option<nat>)
    requires LastLive(t, s, None, cur)
    ensures match cur case Some(i) => Rank(t, s, i) == |LivePairs(t, s)| - 1 case None => LivePairs(t, s) == []
  {
    if cur.Some? {
      LiveAtRank(t, s, cur.value);
      LivePrefix(t, s, cur.value + 1, |t|);
    } else {
      LivePrefix(t, s, 0, |t|);
    }
  }

  lemma NextPosition(t: seq<Entry>, s: SequenceNumber, was: nat, from: nat, cur: Option<nat>)
    requires Sorted(t) && was < |t| && Live(t, s, was) && from <= was
    requires FirstWanted(t, s, Some(t[was].key.user), from, cur)
    ensures match cur case Some(i) => i < |t| && Rank(t, s, i) == Rank(t, s, was) + 1 && Rank(t, s, i) < |LivePairs(t, s)|
                      case None => Rank(t, s, was) + 1 == |LivePairs(t, s)|
  {
    LiveAtRank(t, s, was);
    var i := if cur.Some? then cur.value else |t|;
    forall k | was < k < i ensures !Live(t, s, k) {
      assert Before(t[was].key, t[k].key) && !Wanted(t, s, Some(t[was].key.user), k);
    }
    LivePrefix(t, s, was + 1, i);
    if cur.Some? {
      LiveAtRank(t, s, i);
    }
  }

  lemma PrevPosition(t: seq<Entry>, s: SequenceNumber, was: nat, cur: Option<nat>)
    requires Sorted(t) && was < |t| && Live(t, s, was) && LastLive(t, s, Some(t[was].key.user), cur)
    ensures match cur case Some(i) => i < |t| && Rank(t, s, i) + 1 == Rank(t, s, was) case None => Rank(t, s, was) == 0
  {
    var i := if cur.Some? then cur.value + 1 else 0;
    forall k | i <= k < was ensures !Live(t, s, k) {
      assert Before(t[k].key, t[was].key);
      assert t[k].key.user == t[was].key.user ==> !VisibleAt(t, s, k);
    }
    LivePrefix(t, s, i, was);
    if cur.Some? {
      LiveAtRank(t, s, cur.value);
    }
  }

  lemma SeekStart(t: seq<Entry>, s: SequenceNumber, target: UserKey, pos: nat)
    requires Sorted(t) && pos <= |t|
    requires forall j :: 0 <= j < pos ==> Less(t[j].key, LookupKey(target, s))
    requires pos < |t| ==> !Less(t[pos].key, LookupKey(target, s))
    ensures ForwardScan(t, s, pos, None)
    ensures forall k :: 0 <= k < pos && VisibleAt(t, s, k) ==> t[k].key.user < target
    ensures forall k :: pos <= k < |t| ==> t[k].key.user >= target
  {
    forall k | pos <= k < |t| ensures t[k].key.user >= target {
      if pos < k {
        assert Before(t[pos].key, t[k].key);
      }
    }
  }

  lemma SeekPosition(t: seq<Entry>, s: SequenceNumber, target: UserKey, from: nat, cur: Option<nat>)
    requires Sorted(t) && from <= |t| && FirstWanted(t, s, None, from, cur)
    requires forall k :: 0 <= k < from && VisibleAt(t, s, k) ==> t[k].key.user < target
    requires forall k :: from <= k < |t| ==> t[k].key.user >= target
    ensures var L := LivePairs(t, s);
      match cur
      case Some(i) =>
        i < |t| && Rank(t, s, i) < |L| && L[Rank(t, s, i)].user >= target && forall j :: 0 <= j < Rank(t, s, i) ==> L[j].user < target
      case None => forall p :: p in L ==> p.user < target
  {
    var i := if cur.Some? then cur.value else |t|;
    LiveUpToMembers(t, s, i);
    LivePrefix(t, s, i, |t|);
    forall p | p in LiveUpTo(t, s, i) ensures p.user < target {
      var k :| k < i && PairAt(t, s, k, p);
      assert k >= from ==> !Wanted(t, s, None, k);
      assert VisibleAt(t, s, k);
    }
    if cur.Some? {
      LiveAtRank(t, s, i);
      forall j | 0 <= j < Rank(t, s, i) ensures LivePairs(t, s)[j].user < target {
        assert LiveUpTo(t, s, i)[j] in LiveUpTo(t, s, i);
      }
    }
  }

  lemma StepsBack(t: seq<Entry>, was: nat, pos: nat)
    requires Sorted(t) && pos <= was < |t|
    ensures t[pos].key.user >= t[was].key.user ==> forall k :: 0 <= k < |t| && t[k].key.user < t[was].key.user ==> k < pos
  {
    forall k | pos <= k < |t| ensures t[k].key.user >= t[pos].key.user {
      if pos < k {
        assert Before(t[pos].key, t[k].key);
      }
    }
  }
}
