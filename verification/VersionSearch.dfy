/** Table files, levels, and the search of one version (db/version_set.cc). */
module VersionSearch {
  import opened InternalKeys

  const NUM_LEVELS := 7

  /** FileMetaData together with the sorted entries of the table file it names. */
  datatype File = File(number: nat, size: nat, smallest: InternalKey, largest: InternalKey, table: seq<Entry>)

  type Version = v: seq<seq<File>> | |v| == NUM_LEVELS witness [[], [], [], [], [], [], []]

  ghost predicate ValidFile(f: File) {
    && |f.table| > 0 && Sorted(f.table)
    && f.smallest == f.table[0].key && f.largest == f.table[|f.table| - 1].key
  }

  ghost predicate ValidFiles(fs: seq<File>) {
    forall f :: f in fs ==> ValidFile(f)
  }

  /** Levels 1 and up: sorted and pairwise disjoint by internal key. */
  ghost predicate Disjoint(fs: seq<File>) {
    forall i, j :: 0 <= i < j < |fs| ==> Before(fs[i].largest, fs[j].smallest)
  }

  ghost predicate DistinctNumbers(fs: seq<File>) {
    forall i, j :: 0 <= i < j < |fs| ==> fs[i].number != fs[j].number
  }

  /** Every entry of `a` is newer than every entry of `b` for the same user key. */
  ghost predicate NewerThan(a: seq<Entry>, b: seq<Entry>) {
    forall x, y :: x in a && y in b && x.key.user == y.key.user ==> x.key.sequence > y.key.sequence
  }

  ghost predicate LevelNewer(fs: seq<File>, gs: seq<File>) {
    forall f, g :: f in fs && g in gs ==> NewerThan(f.table, g.table)
  }

  ghost predicate ZeroOrdered(fs: seq<File>) {
    && DistinctNumbers(fs)
    && forall f, g :: f in fs && g in fs && f.number > g.number ==> NewerThan(f.table, g.table)
  }

  /** The two structural invariants of a version. */
  ghost predicate ValidVersion(v: Version) {
    && (forall i :: 0 <= i < NUM_LEVELS ==> ValidFiles(v[i]))
    && ZeroOrdered(v[0])
    && (forall i :: 1 <= i < NUM_LEVELS ==> Disjoint(v[i]))
    && (forall i, j :: 0 <= i < j < NUM_LEVELS ==> LevelNewer(v[i], v[j]))
  }

  ghost function TableEntries(t: seq<Entry>): set<Entry> {
    set e | e in t
  }

  ghost function FileEntries(fs: seq<File>): set<Entry> {
    set f, e | f in fs && e in f.table :: e
  }

  ghost function VersionEntries(v: Version): set<Entry> {
    set i, f, e | 0 <= i < NUM_LEVELS && f in v[i] && e in f.table :: e
  }

  // ----- FindFile -----

  lemma SortedBounds(f: File, e: Entry)
    requires ValidFile(f) && e in f.table
    ensures e.key == f.smallest || Before(f.smallest, e.key)
    ensures e.key == f.largest || Before(e.key, f.largest)
  {
    var i :| 0 <= i < |f.table| && f.table[i] == e;
  }

  lemma DisjointLargest(fs: seq<File>, i: nat, j: nat)
    requires ValidFiles(fs) && Disjoint(fs)
    requires i < j < |fs|
    ensures Before(fs[i].largest, fs[j].largest)
  {
    assert fs[j] in fs;
    SortedBounds(fs[j], fs[j].table[0]);
  }

  /** The first file whose largest key is not below `key`. */
  method FindFile(files: seq<File>, key: InternalKey) returns (right: nat)
    requires ValidFiles(files) && Disjoint(files)
    ensures right <= |files|
    ensures forall i :: 0 <= i < right ==> Less(files[i].largest, key)
    ensures forall i :: right <= i < |files| ==> !Less(files[i].largest, key)
  {
    var left := 0;
    right := |files|;
    while left < right
      invariant 0 <= left <= right <= |files|
      invariant forall i :: 0 <= i < left ==> Less(files[i].largest, key)
      invariant forall i :: right <= i < |files| ==> !Less(files[i].largest, key)
    {
      var mid := (left + right) / 2;
      forall i | 0 <= i < mid ensures Before(files[i].largest, files[mid].largest) {
        DisjointLargest(files, i, mid);
      }
      forall i | mid < i < |files| ensures Before(files[mid].largest, files[i].largest) {
        DisjointLargest(files, mid, i);
      }
      if Less(files[mid].largest, key) {
        left := mid + 1;
      } else {
        right := mid;
      }
    }
  }

  // ----- Overlap with a range of user keys -----

  predicate AfterFile(user: Option<UserKey>, f: File) {
    user.Some? && user.value > f.largest.user
  }

  predicate BeforeFile(user: Option<UserKey>, f: File) {
    user.Some? && user.value < f.smallest.user
  }

  /** f meets the closed range of user keys; None is an open end. */
  predicate Meets(f: File, begin: Option<UserKey>, end: Option<UserKey>) {
    !AfterFile(begin, f) && !BeforeFile(end, f)
  }

  /** The binary search over a sorted level and the scan over level 0 both decide whether any file meets the range. */
  method SomeFileOverlapsRange(disjoint: bool, files: seq<File>, begin: Option<UserKey>, end: Option<UserKey>)
    returns (overlaps: bool)
    requires ValidFiles(files)
    requires disjoint ==> Disjoint(files)
    ensures overlaps <==> exists f :: f in files && Meets(f, begin, end)
  {
    if !disjoint {
      for i := 0 to |files|
        invariant forall k :: 0 <= k < i ==> !Meets(files[k], begin, end)
      {
        if !AfterFile(begin, files[i]) && !BeforeFile(end, files[i]) {
          assert files[i] in files && Meets(files[i], begin, end);
          return true;
        }
      }
      return false;
    }
    var index := 0;
    if begin.Some? {
      index := FindFile(files, InternalKey(begin.value, MAX_SEQUENCE, TYPE_FOR_SEEK));
    }
    if index >= |files| {
      return false;
    }
    overlaps := !BeforeFile(end, files[index]);
    forall k | 0 <= k < index ensures AfterFile(begin, files[k]) {
      LookupKeySplits(files[k].largest, begin.value, MAX_SEQUENCE);
    }
    forall k | index < k < |files| ensures files[index].smallest.user <= files[k].smallest.user {
      assert files[index] in files;
      SortedBounds(files[index], files[index].table[0]);
    }
    assert overlaps ==> files[index] in files && Meets(files[index], begin, end);
  }

  // ----- Searching one table -----

  /** Where a seek lands: the first entry not below the target. */
  function SeekIndex(t: seq<Entry>, k: InternalKey): (i: nat)
    ensures i <= |t|
    ensures forall j :: 0 <= j < i ==> Less(t[j].key, k)
    ensures i < |t| ==> !Less(t[i].key, k)
  {
    if t == [] || !Less(t[0].key, k) then 0 else 1 + SeekIndex(t[1..], k)
  }

  /** What SaveValue keeps of the entry a table or memtable seek lands on. */
  function TableGet(t: seq<Entry>, u: UserKey, s: SequenceNumber): Option<Entry> {
    var i := SeekIndex(t, LookupKey(u, s));
    if i < |t| && t[i].key.user == u then Some(t[i]) else None
  }

  /** A seek and one user-key comparison find the newest visible entry of a sorted run. */
  lemma TableGetIsNewest(t: seq<Entry>, u: UserKey, s: SequenceNumber)
    requires Sorted(t)
    ensures match TableGet(t, u, s)
            case Some(e) => Newest(TableEntries(t), u, s, e)
            case None => forall e :: e in t ==> !Visible(e, u, s)
  {
    var i := SeekIndex(t, LookupKey(u, s));
    forall j | 0 <= j < |t| && Visible(t[j], u, s) ensures i <= j && t[i].key.user == u && t[j].key.sequence <= t[i].key.sequence {
      assert !Less(t[j].key, LookupKey(u, s));
    }
  }

  // ----- Version::Get -----

  predicate NewestFirst(fs: seq<File>) {
    forall i, j :: 0 <= i < j < |fs| ==> fs[i].number > fs[j].number
  }

  /** One step of sorting the level-0 candidates by descending file number. */
  function InsertNewestFirst(f: File, fs: seq<File>): (r: seq<File>)
    ensures forall g :: g in r <==> g == f || g in fs
  {
    if fs == [] || f.number > fs[0].number then [f] + fs else [fs[0]] + InsertNewestFirst(f, fs[1..])
  }

  lemma {:induction false} InsertKeepsNewestFirst(f: File, fs: seq<File>)
    requires NewestFirst(fs)
    requires forall g :: g in fs ==> g.number != f.number
    ensures NewestFirst(InsertNewestFirst(f, fs))
  {
    if fs != [] && f.number <= fs[0].number {
      InsertKeepsNewestFirst(f, fs[1..]);
      var r := InsertNewestFirst(f, fs[1..]);
      forall k | 0 <= k < |r| ensures fs[0].number > r[k].number {
        assert r[k] in r;
      }
    }
  }

  ghost predicate NothingVisible(S: set<Entry>, u: UserKey, s: SequenceNumber) {
    forall e :: e in S ==> !Visible(e, u, s)
  }

  /** Is u within the file's range of user keys? */
  predicate Covers(f: File, u: UserKey) {
    f.smallest.user <= u <= f.largest.user
  }

  lemma CoveredWhenVisible(f: File, e: Entry, u: UserKey, s: SequenceNumber)
    requires ValidFile(f) && e in f.table && Visible(e, u, s)
    ensures Covers(f, u)
  {
    SortedBounds(f, e);
  }

  /** Level 0: every file whose range covers u, newest file first; the first hit ends the search. */
  method GetLevelZero(files: seq<File>, u: UserKey, s: SequenceNumber) returns (hit: Option<Entry>)
    requires ValidFiles(files) && ZeroOrdered(files)
    ensures hit.Some? ==> Newest(FileEntries(files), u, s, hit.value)
    ensures hit.None? ==> NothingVisible(FileEntries(files), u, s)
  {
    var tmp: seq<File> := [];
    for i := 0 to |files|
      invariant forall f :: f in tmp <==> f in files[..i] && Covers(f, u)
      invariant NewestFirst(tmp)
    {
      if Covers(files[i], u) {
        InsertKeepsNewestFirst(files[i], tmp);
        tmp := InsertNewestFirst(files[i], tmp);
      }
    }
    assert files[..|files|] == files;
    for i := 0 to |tmp|
      invariant forall k, e :: 0 <= k < i && e in tmp[k].table ==> !Visible(e, u, s)
    {
      assert tmp[i] in tmp && tmp[i] in files;
      TableGetIsNewest(tmp[i].table, u, s);
      hit := TableGet(tmp[i].table, u, s);
      if hit.Some? {
        assert hit.value in tmp[i].table;
        forall f, e | f in files && e in f.table && Visible(e, u, s) ensures e.key.sequence <= hit.value.key.sequence {
          CoveredWhenVisible(f, e, u, s);
          assert f in tmp;
          var k :| 0 <= k < |tmp| && tmp[k] == f;
          if k == i {
            assert e in TableEntries(f.table);
          } else if k > i {
            assert NewerThan(tmp[i].table, tmp[k].table);
          }
        }
        return;
      }
    }
    hit := None;
    forall f, e | f in files && e in f.table && Visible(e, u, s) ensures false {
      CoveredWhenVisible(f, e, u, s);
    }
  }

  /** A sorted level: one file found by binary search, if its range can hold u at all. */
  method GetSortedLevel(files: seq<File>, u: UserKey, s: SequenceNumber) returns (hit: Option<Entry>)
    requires ValidFiles(files) && Disjoint(files)
    ensures hit.Some? ==> Newest(FileEntries(files), u, s, hit.value)
    ensures hit.None? ==> NothingVisible(FileEntries(files), u, s)
  {
    var index := FindFile(files, LookupKey(u, s));
    forall k, e | 0 <= k < index && e in files[k].table ensures !Visible(e, u, s) {
      SortedBounds(files[k], e);
    }
    if index >= |files| {
      return None;
    }
    var f := files[index];
    forall k, e | index < k < |files| && e in files[k].table && Visible(e, u, s)
      ensures f.largest.user == u && f.largest.sequence > e.key.sequence
    {
      SortedBounds(files[k], e);
    }
    if u < f.smallest.user {
      SortedBounds(f, f.table[0]);
      forall e | e in f.table ensures !Visible(e, u, s) {
        SortedBounds(f, e);
      }
      return None;
    }
    TableGetIsNewest(f.table, u, s);
    hit := TableGet(f.table, u, s);
    assert f.table[|f.table| - 1] in f.table;
  }

  /** Version::Get: level by level, stopping at the first level that answers, finds the newest
      visible entry of the whole version. */
  method Get(v: Version, u: UserKey, s: SequenceNumber) returns (hit: Option<Entry>)
    requires ValidVersion(v)
    ensures hit.Some? ==> Newest(VersionEntries(v), u, s, hit.value)
    ensures hit.None? ==> NothingVisible(VersionEntries(v), u, s)
  {
    for level := 0 to NUM_LEVELS
      invariant forall i, f, e :: 0 <= i < level && f in v[i] && e in f.table ==> !Visible(e, u, s)
    {
      if level == 0 {
        hit := GetLevelZero(v[0], u, s);
      } else {
        hit := GetSortedLevel(v[level], u, s);
      }
      if hit.Some? {
        var f :| f in v[level] && hit.value in f.table;
        forall j, g, e | 0 <= j < NUM_LEVELS && g in v[j] && e in g.table && Visible(e, u, s)
          ensures e.key.sequence <= hit.value.key.sequence
        {
          if j == level {
            assert e in FileEntries(v[level]);
          } else {
            assert LevelNewer(v[level], v[j]);
          }
        }
        return;
      }
      forall f, e | f in v[level] && e in f.table ensures !Visible(e, u, s) {
        assert e in FileEntries(v[level]);
      }
    }
    hit := None;
  }
}
