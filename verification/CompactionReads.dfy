/** A whole compaction of one version, and exactly when it keeps every read (db/version_set.cc, db/db_impl.cc). */
module CompactionReads {
  import opened InternalKeys
  import opened VersionSearch
  import opened CompactionInputs
  import opened CompactionWork
  import opened VersionBuilder
  import opened VersionEdits
  import opened SortedRuns

  /** The merged input of MakeInputIterator. */
  ghost predicate MergedInput(in0: seq<File>, in1: seq<File>, input: seq<Entry>) {
    Sorted(input) && forall e :: e in input <==> e in InputEntries(in0, in1)
  }

  /** The outputs hold exactly what the drop rules keep. */
  ghost predicate CompactionOutputs(v: Version, level: nat, in0: seq<File>, in1: seq<File>, input: seq<Entry>,
                                    snapshot: SequenceNumber, outputs: seq<File>) {
    && MergedInput(in0, in1, input)
    && ValidFiles(outputs) && Disjoint(outputs)
    && Flatten(outputs) == Kept(input, |input|, snapshot, v, level)
  }

  lemma FlattenIsFileEntries(fs: seq<File>)
    ensures forall e :: e in Flatten(fs) <==> e in FileEntries(fs)
  {
    FlattenMembers(fs, |fs|);
    forall e | e in FileEntries(fs) ensures e in Flatten(fs) {
      var f :| f in fs && e in f.table;
      var k :| 0 <= k < |fs| && fs[k] == f;
    }
  }

  lemma OutputsAreCut(v: Version, level: nat, in0: seq<File>, in1: seq<File>, input: seq<Entry>, snapshot: SequenceNumber, outputs: seq<File>)
    requires CompactionOutputs(v, level, in0, in1, input, snapshot, outputs)
    ensures CutFrom(in0, in1, outputs)
    ensures FileEntries(outputs) == Outputs(input, snapshot, v, level)
  {
    FlattenIsFileEntries(outputs);
    OutputsAreInputs(input, snapshot, v, level);
    forall o, e | o in outputs && e in o.table ensures exists f :: IsInput(in0, in1, f) && e in f.table {
      assert e in FileEntries(outputs);
      assert e in Outputs(input, snapshot, v, level) && e in Inputs(input);
      InputHome(in0, in1, e);
    }
  }

  lemma InputHome(in0: seq<File>, in1: seq<File>, e: Entry)
    requires e in InputEntries(in0, in1)
    ensures exists f :: IsInput(in0, in1, f) && e in f.table
  {
    if e in FileEntries(in0) {
      var f :| f in in0 && e in f.table;
      assert IsInput(in0, in1, f);
    } else {
      var f :| f in in1 && e in f.table;
      assert IsInput(in0, in1, f);
    }
  }

  /** All entries outside the inputs: `other` (the memtables) and the untouched files. */
  ghost function Rest(v: Version, level: nat, in0: seq<File>, in1: seq<File>, other: set<Entry>): set<Entry> {
    other + LeftEntries(v, level, in0, in1)
  }

  /** Both stores give every read at or above `floor` the same answer. */
  ghost predicate SameReads(before: set<Entry>, after: set<Entry>, floor: nat) {
    forall u: UserKey, s: SequenceNumber :: floor <= s ==> Read(after, u, s) == Read(before, u, s)
  }

  /** A compaction of a valid version keeps its structure, and keeps every read at or above the
      oldest snapshot exactly when nothing resurfaces below a dropped deletion. */
  lemma CompactionMeaning(v: Version, level: nat, in0: seq<File>, in1: seq<File>, input: seq<Entry>, snapshot: SequenceNumber,
                          outputs: seq<File>, v': Version, other: set<Entry>)
    requires Installed(v) && Planned(v, level, in0, in1)
    requires CompactionOutputs(v, level, in0, in1, input, snapshot, outputs) && OutputNumbers(v, level, in0, outputs)
    requires Edited(v, ReplaceEdit(level, in0, in1, outputs), v')
    requires Unambiguous(other + VersionEntries(v)) && other !! VersionEntries(v)
    ensures Installed(v')
    ensures VersionEntries(v') <= VersionEntries(v)
    ensures SameReads(other + VersionEntries(v), other + VersionEntries(v'), snapshot)
      <==> NothingResurfaces(Rest(v, level, in0, in1, other), input, snapshot, v, level)
  {
    PlannedIsGood(v, level, in0, in1);
    OutputsAreCut(v, level, in0, in1, input, snapshot, outputs);
    ReplaceKeepsInstalled(v, level, in0, in1, outputs, v');
    CompactionContents(v, level, in0, in1, input, snapshot, outputs, v');
    var rest := Rest(v, level, in0, in1, other);
    assert rest + Inputs(input) == other + VersionEntries(v);
    assert rest + Outputs(input, snapshot, v, level) == other + VersionEntries(v');
    CompactionKeepsReadsIff(rest, input, snapshot, v, level);
  }

  lemma CompactionContents(v: Version, level: nat, in0: seq<File>, in1: seq<File>, input: seq<Entry>, snapshot: SequenceNumber,
                           outputs: seq<File>, v': Version)
    requires Installed(v) && GoodInputs(v, level, in0, in1)
    requires CompactionOutputs(v, level, in0, in1, input, snapshot, outputs)
    requires Edited(v, ReplaceEdit(level, in0, in1, outputs), v')
    ensures VersionEntries(v) == LeftEntries(v, level, in0, in1) + Inputs(input)
    ensures LeftEntries(v, level, in0, in1) !! Inputs(input)
    ensures VersionEntries(v') == LeftEntries(v, level, in0, in1) + Outputs(input, snapshot, v, level)
    ensures Outputs(input, snapshot, v, level) <= Inputs(input)
  {
    OutputsAreCut(v, level, in0, in1, input, snapshot, outputs);
    ReplacedEntries(v, level, in0, in1, outputs, v');
    EntriesSplit(v, level, in0, in1);
    LeftIsApart(v, level, in0, in1);
    OutputsAreInputs(input, snapshot, v, level);
    assert Inputs(input) == InputEntries(in0, in1);
  }

  lemma MovedIsOutput(v: Version, level: nat, f: File)
    requires Installed(v) && GoodInputs(v, level, [f], [])
    ensures CutFrom([f], [], [f]) && OutputNumbers(v, level, [f], [f])
  {
    assert f in [f];
    forall o, e | o in [f] && e in o.table ensures exists g :: IsInput([f], [], g) && e in g.table {
      assert IsInput([f], [], f);
    }
  }

  lemma MoveKeepsInstalled(v: Version, level: nat, f: File, v': Version)
    requires Installed(v) && GoodInputs(v, level, [f], [])
    requires Edited(v, ReplaceEdit(level, [f], [], [f]), v')
    ensures Installed(v')
  {
    MovedIsOutput(v, level, f);
    ReplaceKeepsInstalled(v, level, [f], [], [f], v');
  }

  lemma MoveKeepsEntries(v: Version, level: nat, f: File, v': Version)
    requires Installed(v) && GoodInputs(v, level, [f], [])
    requires Edited(v, ReplaceEdit(level, [f], [], [f]), v')
    ensures VersionEntries(v') == VersionEntries(v)
  {
    ReplacedEntries(v, level, [f], [], [f], v');
    EntriesSplit(v, level, [f], []);
    OnlyInput(f);
  }

  lemma OnlyInput(f: File)
    ensures InputEntries([f], []) == FileEntries([f])
  {
    assert FileEntries([]) == {};
  }

  /** A trivial move keeps structure and contents. */
  lemma MoveMeaning(v: Version, level: nat, f: File, v': Version)
    requires Installed(v) && Planned(v, level, [f], [])
    requires Edited(v, ReplaceEdit(level, [f], [], [f]), v')
    ensures Installed(v') && VersionEntries(v') == VersionEntries(v)
  {
    PlannedIsGood(v, level, [f], []);
    MoveKeepsInstalled(v, level, f, v');
    MoveKeepsEntries(v, level, f, v');
  }

  // ----- A condition on the files' key ranges alone -----

  /** What a boundary search on the next level would establish: no file left there starts with the
      user key an input of that level ends with. */
  ghost predicate ParentsSealed(parents: seq<File>, in1: seq<File>) {
    forall f, g :: f in in1 && g in parents && g !in in1 ==> !IsBoundary(g, f.largest)
  }

  lemma LeftParentUsersApart(parents: seq<File>, in0: seq<File>, in1: seq<File>, f: File, g: File)
    requires ValidFiles(parents) && Covering(parents, in0, in1)
    requires f in in0 && g in parents && g !in in1
    ensures g.largest.user < f.smallest.user || f.largest.user < g.smallest.user
  {
    var lo, hi :| CoveringRange(parents, in0, in1, lo, hi);
    MeetingMembers(parents, Some(lo.user), Some(hi.user));
    assert !Less(f.smallest, lo) && !Less(hi, f.largest);
  }

  lemma UsersApart(f: File, g: File, e: Entry, x: Entry)
    requires ValidFile(f) && ValidFile(g) && e in f.table && x in g.table
    requires g.largest.user < f.smallest.user || f.largest.user < g.smallest.user
    ensures x.key.user != e.key.user
  {
    SortedBounds(f, e);
    SortedBounds(g, x);
  }

  /** Beside an input on the next level, an older entry for the same user key is in a boundary file. */
  lemma OlderBesideParent(parents: seq<File>, in1: seq<File>, f: File, e: Entry, g: File, x: Entry)
    requires ValidFiles(parents) && Disjoint(parents)
    requires f in in1 && f in parents && g in parents && g !in in1
    requires e in f.table && x in g.table && x.key.user == e.key.user && x.key.sequence <= e.key.sequence
    ensures IsBoundary(g, f.largest) && g.smallest.user == e.key.user
  {
    DisjointApart(parents, f, g);
    SortedBounds(f, e);
    SortedBounds(g, x);
  }

  lemma BaseLevelHasNone(v: Version, level: nat, u: UserKey, i: nat, g: File, x: Entry)
    requires ValidVersion(v) && BaseLevel(v, level, u)
    requires level + 2 <= i < NUM_LEVELS && g in v[i] && x in g.table
    ensures x.key.user != u
  {
    SortedBounds(g, x);
    assert !Covers(g, u);
  }

  /** g is a file left on the next level that starts with the user key an input of that level ends with. */
  ghost predicate LeftBoundary(parents: seq<File>, in1: seq<File>, g: File) {
    g in parents && g !in in1 && exists f :: f in in1 && IsBoundary(g, f.largest)
  }

  /** What the boundary search that is not made on the next level would have taken in. */
  ghost function BoundaryEntries(parents: seq<File>, in1: seq<File>): set<Entry> {
    set g, x | g in parents && LeftBoundary(parents, in1, g) && x in g.table :: x
  }

  /** What is left behind and not newer than an input entry is in a boundary file. */
  lemma OlderLeftIsBoundary(v: Version, level: nat, in0: seq<File>, in1: seq<File>, f: File, e: Entry, i: nat, g: File, x: Entry)
    requires Installed(v) && GoodInputs(v, level, in0, in1) && Covering(v[level + 1], in0, in1)
    requires IsInput(in0, in1, f) && e in f.table && BaseLevel(v, level, e.key.user)
    requires i < NUM_LEVELS && g in v[i] && Untouched(level, in0, in1, i, g) && x in g.table
    requires x.key.user == e.key.user
    ensures x.key.sequence > e.key.sequence || (i == level + 1 && LeftBoundary(v[level + 1], in1, g))
  {
    if i >= level + 2 {
      BaseLevelHasNone(v, level, e.key.user, i, g, x);
    } else if f in in0 {
      if i < level {
        assert LevelNewer(v[i], v[level]);
      } else if i == level {
        assert NewerThan(g.table, f.table);
      } else {
        LeftParentUsersApart(v[level + 1], in0, in1, f, g);
        UsersApart(f, g, e, x);
      }
    } else if i <= level {
      assert LevelNewer(v[i], v[level + 1]);
    } else if x.key.sequence <= e.key.sequence {
      OlderBesideParent(v[level + 1], in1, f, e, g, x);
    }
  }

  ghost predicate NewerThanFiles(other: set<Entry>, v: Version) {
    forall x, y :: x in other && y in VersionEntries(v) ==> x.key.sequence > y.key.sequence
  }

  /** The deletion that is about to be dropped, and the input it comes from. */
  lemma DroppedHome(v: Version, level: nat, in0: seq<File>, in1: seq<File>, input: seq<Entry>, snapshot: SequenceNumber,
                    rest: set<Entry>, u: UserKey) returns (e: Entry, f: File)
    requires GoodInputs(v, level, in0, in1) && MergedInput(in0, in1, input) && DropsVisibleDeletion(rest, input, snapshot, v, level, u)
    ensures Newest(rest + Inputs(input), u, snapshot, e) && BaseLevel(v, level, u) && e.key.user == u
    ensures IsInput(in0, in1, f) && e in f.table && e in VersionEntries(v)
  {
    e :| Newest(rest + Inputs(input), u, snapshot, e) && e in input && Obsolete(e, snapshot, v, level);
    InputHome(in0, in1, e);
    f :| IsInput(in0, in1, f) && e in f.table;
    EntriesSplit(v, level, in0, in1);
  }

  lemma LeftBelowIsBoundary(v: Version, level: nat, in0: seq<File>, in1: seq<File>, f: File, e: Entry, x: Entry)
    requires Installed(v) && GoodInputs(v, level, in0, in1) && Covering(v[level + 1], in0, in1)
    requires IsInput(in0, in1, f) && e in f.table && BaseLevel(v, level, e.key.user)
    requires x in LeftEntries(v, level, in0, in1) && x.key.user == e.key.user && x.key.sequence <= e.key.sequence
    ensures x in BoundaryEntries(v[level + 1], in1)
  {
    var i, g :| 0 <= i < NUM_LEVELS && g in v[i] && Untouched(level, in0, in1, i, g) && x in g.table;
    OlderLeftIsBoundary(v, level, in0, in1, f, e, i, g, x);
  }

  /** Below a deletion about to be dropped, only boundary files can show anything. */
  lemma VisibleBelowIsBoundary(v: Version, level: nat, in0: seq<File>, in1: seq<File>, input: seq<Entry>, snapshot: SequenceNumber,
                               other: set<Entry>, u: UserKey, x: Entry)
    requires Installed(v) && Planned(v, level, in0, in1) && MergedInput(in0, in1, input) && NewerThanFiles(other, v)
    requires DropsVisibleDeletion(Rest(v, level, in0, in1, other), input, snapshot, v, level, u)
    requires x in Rest(v, level, in0, in1, other) && Visible(x, u, snapshot)
    ensures x in BoundaryEntries(v[level + 1], in1)
  {
    var rest := Rest(v, level, in0, in1, other);
    PlannedIsGood(v, level, in0, in1);
    var e, f := DroppedHome(v, level, in0, in1, input, snapshot, rest, u);
    assert x in rest + Inputs(input) && x.key.sequence <= e.key.sequence;
    assert x !in other;
    LeftBelowIsBoundary(v, level, in0, in1, f, e, x);
  }

  lemma BoundariesAreLeft(v: Version, level: nat, in0: seq<File>, in1: seq<File>)
    requires Installed(v) && level + 1 < NUM_LEVELS
    ensures BoundaryEntries(v[level + 1], in1) <= LeftEntries(v, level, in0, in1)
  {
    forall x | x in BoundaryEntries(v[level + 1], in1) ensures x in LeftEntries(v, level, in0, in1) {
      var g :| g in v[level + 1] && LeftBoundary(v[level + 1], in1, g) && x in g.table;
      assert Untouched(level, in0, in1, level + 1, g);
    }
  }

  /** So what readers would see of its user key is what the boundary files show. */
  lemma ReadBelowDeletion(v: Version, level: nat, in0: seq<File>, in1: seq<File>, input: seq<Entry>, snapshot: SequenceNumber,
                          other: set<Entry>, u: UserKey)
    requires Installed(v) && Planned(v, level, in0, in1) && MergedInput(in0, in1, input) && NewerThanFiles(other, v)
    requires Unambiguous(other + VersionEntries(v))
    requires DropsVisibleDeletion(Rest(v, level, in0, in1, other), input, snapshot, v, level, u)
    ensures Read(Rest(v, level, in0, in1, other), u, snapshot) == Read(BoundaryEntries(v[level + 1], in1), u, snapshot)
  {
    var rest, left := Rest(v, level, in0, in1, other), BoundaryEntries(v[level + 1], in1);
    PlannedIsGood(v, level, in0, in1);
    BoundariesAreLeft(v, level, in0, in1);
    EntriesSplit(v, level, in0, in1);
    forall x | x in rest && Visible(x, u, snapshot) ensures x in left {
      VisibleBelowIsBoundary(v, level, in0, in1, input, snapshot, other, u, x);
    }
    assert left <= rest <= other + VersionEntries(v);
    SameNewestSameRead(rest, left, u, snapshot);
  }

  /** No boundary file on the next level shows a value below a deletion that is dropped. */
  ghost predicate BoundariesShowNothing(v: Version, level: nat, in0: seq<File>, in1: seq<File>, input: seq<Entry>,
                                        snapshot: SequenceNumber, other: set<Entry>)
    requires level + 1 < NUM_LEVELS
  {
    forall u :: DropsVisibleDeletion(Rest(v, level, in0, in1, other), input, snapshot, v, level, u) ==>
      Read(BoundaryEntries(v[level + 1], in1), u, snapshot) == NotFound
  }

  /** The compaction keeps every read at or above the oldest snapshot if and only if no boundary file
      left on the next level shows a value below a deletion that it drops. */
  lemma ReadsKeptIffBoundariesShowNothing(v: Version, level: nat, in0: seq<File>, in1: seq<File>, input: seq<Entry>, snapshot: SequenceNumber,
                                          outputs: seq<File>, v': Version, other: set<Entry>)
    requires Installed(v) && Planned(v, level, in0, in1)
    requires CompactionOutputs(v, level, in0, in1, input, snapshot, outputs) && OutputNumbers(v, level, in0, outputs)
    requires Edited(v, ReplaceEdit(level, in0, in1, outputs), v')
    requires Unambiguous(other + VersionEntries(v)) && other !! VersionEntries(v) && NewerThanFiles(other, v)
    ensures SameReads(other + VersionEntries(v), other + VersionEntries(v'), snapshot)
      <==> BoundariesShowNothing(v, level, in0, in1, input, snapshot, other)
  {
    CompactionMeaning(v, level, in0, in1, input, snapshot, outputs, v', other);
    ResurfacingIsInBoundaries(v, level, in0, in1, input, snapshot, other);
  }

  lemma ResurfacingIsInBoundaries(v: Version, level: nat, in0: seq<File>, in1: seq<File>, input: seq<Entry>, snapshot: SequenceNumber, other: set<Entry>)
    requires Installed(v) && Planned(v, level, in0, in1) && MergedInput(in0, in1, input) && NewerThanFiles(other, v)
    requires Unambiguous(other + VersionEntries(v))
    ensures NothingResurfaces(Rest(v, level, in0, in1, other), input, snapshot, v, level)
      <==> BoundariesShowNothing(v, level, in0, in1, input, snapshot, other)
  {
    forall u | DropsVisibleDeletion(Rest(v, level, in0, in1, other), input, snapshot, v, level, u)
      ensures Read(Rest(v, level, in0, in1, other), u, snapshot) == Read(BoundaryEntries(v[level + 1], in1), u, snapshot)
    {
      ReadBelowDeletion(v, level, in0, in1, input, snapshot, other, u);
    }
  }

  /** If the next level's inputs are sealed too, the compaction is safe for every reader. */
  lemma SealedParentsAreSafe(v: Version, level: nat, in0: seq<File>, in1: seq<File>, input: seq<Entry>, snapshot: SequenceNumber, other: set<Entry>)
    requires Installed(v) && Planned(v, level, in0, in1) && MergedInput(in0, in1, input)
    requires ParentsSealed(v[level + 1], in1) && NewerThanFiles(other, v)
    ensures NothingResurfaces(Rest(v, level, in0, in1, other), input, snapshot, v, level)
  {
    var rest := Rest(v, level, in0, in1, other);
    forall u | DropsVisibleDeletion(rest, input, snapshot, v, level, u) ensures Read(rest, u, snapshot) == NotFound {
      forall x | x in rest ensures !Visible(x, u, snapshot) {
        if Visible(x, u, snapshot) {
          VisibleBelowIsBoundary(v, level, in0, in1, input, snapshot, other, u, x);
        }
      }
    }
  }

  // ----- Without the boundary search on the next level, a deleted value can come back -----

  function OneEntryFile(number: nat, e: Entry): File {
    File(number, 1, e.key, e.key, [e])
  }

  /** The level-2 value for user key 1; a level-3 file with a value for 1 and the deletion of 2; and
      the next level-3 file with the deleted value of 2. */
  const NEW_ONE := Entry(InternalKey(1.0, 4, Value), [9])
  const OLD_ONE := Entry(InternalKey(1.0, 1, Value), [3])
  const GONE_TWO := Entry(InternalKey(2.0, 3, Deletion), [])
  const OLD_TWO := Entry(InternalKey(2.0, 2, Value), [5])

  const UPPER := OneEntryFile(9, NEW_ONE)
  const LOWER := File(6, 2, OLD_ONE.key, GONE_TWO.key, [OLD_ONE, GONE_TWO])
  const BOUNDARY := OneEntryFile(7, OLD_TWO)
  const OUTPUT := OneEntryFile(10, NEW_ONE)
  const BEFORE_BUG: Version := [[], [], [UPPER], [LOWER, BOUNDARY], [], [], []]
  const AFTER_BUG: Version := [[], [], [], [OUTPUT, BOUNDARY], [], [], []]

  lemma BugFiles()
    ensures ValidFile(UPPER) && ValidFile(LOWER) && ValidFile(BOUNDARY) && ValidFile(OUTPUT)
    ensures NewerThan(UPPER.table, LOWER.table) && NewerThan(UPPER.table, BOUNDARY.table)
    ensures forall e :: e in UPPER.table <==> e == NEW_ONE
    ensures forall e :: e in LOWER.table <==> e == OLD_ONE || e == GONE_TWO
    ensures forall e :: e in BOUNDARY.table <==> e == OLD_TWO
  {
  }

  lemma BugLevels(i: nat, f: File)
    requires i < NUM_LEVELS
    ensures f in BEFORE_BUG[i] <==> (i == 2 && f == UPPER) || (i == 3 && (f == LOWER || f == BOUNDARY))
  {
  }

  lemma BugLevelOrder(i: nat)
    requires i < NUM_LEVELS
    ensures Ordered(BEFORE_BUG[i]) && Disjoint(BEFORE_BUG[i])
  {
    if i == 3 {
      assert BEFORE_BUG[3] == [LOWER, BOUNDARY];
    } else {
      assert |BEFORE_BUG[i]| <= 1;
    }
  }

  lemma BugNewer(i: nat, j: nat)
    requires i < j < NUM_LEVELS
    ensures LevelNewer(BEFORE_BUG[i], BEFORE_BUG[j])
  {
    BugFiles();
    forall f, g | f in BEFORE_BUG[i] && g in BEFORE_BUG[j] ensures NewerThan(f.table, g.table) {
      BugLevels(i, f);
      BugLevels(j, g);
    }
  }

  lemma BugLevelValid(i: nat)
    requires i < NUM_LEVELS
    ensures ValidFiles(BEFORE_BUG[i]) && Ordered(BEFORE_BUG[i]) && Disjoint(BEFORE_BUG[i])
  {
    BugFiles();
    BugLevelOrder(i);
    forall f | f in BEFORE_BUG[i] ensures ValidFile(f) {
      BugLevels(i, f);
    }
  }

  lemma BugUnique()
    ensures UniqueNumbers(BEFORE_BUG)
  {
    forall i, j, f, g | 0 <= i < NUM_LEVELS && 0 <= j < NUM_LEVELS && f in BEFORE_BUG[i] && g in BEFORE_BUG[j] && f.number == g.number
      ensures i == j && f == g
    {
      BugLevels(i, f);
      BugLevels(j, g);
    }
  }

  lemma BugInstalled()
    ensures Installed(BEFORE_BUG)
  {
    forall i | 0 <= i < NUM_LEVELS ensures ValidFiles(BEFORE_BUG[i]) && Ordered(BEFORE_BUG[i]) && Disjoint(BEFORE_BUG[i]) {
      BugLevelValid(i);
    }
    forall i, j | 0 <= i < j < NUM_LEVELS ensures LevelNewer(BEFORE_BUG[i], BEFORE_BUG[j]) {
      BugNewer(i, j);
    }
    BugUnique();
    assert BEFORE_BUG[0] == [];
  }

  lemma BugPlan()
    ensures Planned(BEFORE_BUG, 2, [UPPER], [LOWER])
  {
    var parents := BEFORE_BUG[3];
    assert IsSealedRun(BEFORE_BUG[2], 0, 1, [UPPER]);
    assert MeetingUpTo(parents, 0, Some(1.0), Some(1.0)) == [];
    assert MeetingUpTo(parents, 1, Some(1.0), Some(1.0)) == [LOWER];
    assert MeetingUpTo(parents, 2, Some(1.0), Some(1.0)) == [LOWER];
    assert UPPER in [UPPER];
    assert CoveringRange(parents, [UPPER], [LOWER], NEW_ONE.key, NEW_ONE.key);
  }

  lemma BugInput()
    ensures MergedInput([UPPER], [LOWER], [NEW_ONE, OLD_ONE, GONE_TWO])
  {
    BugFiles();
    var input := [NEW_ONE, OLD_ONE, GONE_TWO];
    forall e ensures e in input <==> e in InputEntries([UPPER], [LOWER]) {
      assert e in FileEntries([UPPER]) <==> e in UPPER.table;
      assert e in FileEntries([LOWER]) <==> e in LOWER.table;
    }
  }

  lemma BugKept()
    ensures Kept([NEW_ONE, OLD_ONE, GONE_TWO], 3, 4, BEFORE_BUG, 2) == [NEW_ONE]
  {
    var input := [NEW_ONE, OLD_ONE, GONE_TWO];
    assert BaseLevel(BEFORE_BUG, 2, 2.0);
    assert Kept(input, 0, 4, BEFORE_BUG, 2) == [];
    assert Kept(input, 1, 4, BEFORE_BUG, 2) == [NEW_ONE];
    assert Kept(input, 2, 4, BEFORE_BUG, 2) == [NEW_ONE];
    assert Kept(input, 3, 4, BEFORE_BUG, 2) == [NEW_ONE];
  }

  lemma FlattenOne(f: File)
    ensures Flatten([f]) == f.table
  {
    assert FlattenUpTo([f], 0) == [];
    assert FlattenUpTo([f], 1) == [] + f.table;
  }

  lemma BugOutputs()
    ensures CompactionOutputs(BEFORE_BUG, 2, [UPPER], [LOWER], [NEW_ONE, OLD_ONE, GONE_TWO], 4, [OUTPUT])
  {
    BugFiles();
    BugInput();
    BugKept();
    FlattenOne(OUTPUT);
  }

  lemma BugEdit()
    ensures OutputNumbers(BEFORE_BUG, 2, [UPPER], [OUTPUT])
    ensures Edited(BEFORE_BUG, ReplaceEdit(2, [UPPER], [LOWER], [OUTPUT]), AFTER_BUG)
  {
    var edit := ReplaceEdit(2, [UPPER], [LOWER], [OUTPUT]);
    assert UPPER in [UPPER] && LOWER in [LOWER];
    assert edit.deleted == {(2, 9), (3, 6)};
    assert edit.added == [(3, OUTPUT)];
    forall i, f | 0 <= i < NUM_LEVELS ensures f in BEFORE_BUG[i] <==> (i == 2 && f == UPPER) || (i == 3 && (f == LOWER || f == BOUNDARY)) {
    }
    forall i, f | 0 <= i < NUM_LEVELS ensures f in AFTER_BUG[i] <==> (i == 3 && (f == OUTPUT || f == BOUNDARY)) {
    }
    forall i | 0 <= i < NUM_LEVELS ensures Ordered(AFTER_BUG[i]) {
      assert i != 3 ==> AFTER_BUG[i] == [];
    }
  }

  lemma BugEntries(e: Entry)
    ensures e in VersionEntries(BEFORE_BUG) <==> e == NEW_ONE || e == OLD_ONE || e == GONE_TWO || e == OLD_TWO
  {
    BugFiles();
    if e in VersionEntries(BEFORE_BUG) {
      var i, f :| 0 <= i < NUM_LEVELS && f in BEFORE_BUG[i] && e in f.table;
      BugLevels(i, f);
    }
    InVersion(BEFORE_BUG, 2, UPPER, NEW_ONE);
    InVersion(BEFORE_BUG, 3, LOWER, OLD_ONE);
    InVersion(BEFORE_BUG, 3, LOWER, GONE_TWO);
    InVersion(BEFORE_BUG, 3, BOUNDARY, OLD_TWO);
  }

  lemma InVersion(v: Version, i: nat, f: File, e: Entry)
    requires i < NUM_LEVELS && f in v[i] && e in f.table
    ensures e in VersionEntries(v)
  {
  }

  lemma BugEntriesAfter(e: Entry)
    ensures e in VersionEntries(AFTER_BUG) <==> e == NEW_ONE || e == OLD_TWO
  {
    BugFiles();
    assert forall i, f :: 0 <= i < NUM_LEVELS ==> (f in AFTER_BUG[i] <==> i == 3 && (f == OUTPUT || f == BOUNDARY));
    assert OUTPUT in AFTER_BUG[3] && BOUNDARY in AFTER_BUG[3];
    InVersion(AFTER_BUG, 3, OUTPUT, NEW_ONE);
    InVersion(AFTER_BUG, 3, BOUNDARY, OLD_TWO);
  }

  lemma BugReads()
    ensures Read(VersionEntries(BEFORE_BUG), 2.0, 4) == NotFound
    ensures Read(VersionEntries(AFTER_BUG), 2.0, 4) == Found([5])
  {
    var before, after := VersionEntries(BEFORE_BUG), VersionEntries(AFTER_BUG);
    forall e ensures e in before <==> e in {NEW_ONE, OLD_ONE, GONE_TWO, OLD_TWO} {
      BugEntries(e);
    }
    forall e ensures e in after <==> e in {NEW_ONE, OLD_TWO} {
      BugEntriesAfter(e);
    }
    assert Newest(before, 2.0, 4, GONE_TWO);
    ReadNewest(before, 2.0, 4, GONE_TWO);
    assert Newest(after, 2.0, 4, OLD_TWO);
    ReadNewest(after, 2.0, 4, OLD_TWO);
  }

  lemma BugUnsealed()
    ensures !ParentsSealed(BEFORE_BUG[3], [LOWER])
  {
    assert LOWER in [LOWER] && BOUNDARY in BEFORE_BUG[3] && IsBoundary(BOUNDARY, LOWER.largest);
  }

  /** The code's own choice of inputs, on a version that meets every invariant, turns a key that
      reads as deleted into a key that reads as present. */
  lemma UnsealedParentCanResurface()
    ensures Installed(BEFORE_BUG) && Planned(BEFORE_BUG, 2, [UPPER], [LOWER])
    ensures CompactionOutputs(BEFORE_BUG, 2, [UPPER], [LOWER], [NEW_ONE, OLD_ONE, GONE_TWO], 4, [OUTPUT])
    ensures OutputNumbers(BEFORE_BUG, 2, [UPPER], [OUTPUT])
    ensures Edited(BEFORE_BUG, ReplaceEdit(2, [UPPER], [LOWER], [OUTPUT]), AFTER_BUG)
    ensures Read(VersionEntries(BEFORE_BUG), 2.0, 4) == NotFound
    ensures Read(VersionEntries(AFTER_BUG), 2.0, 4) == Found([5])
    ensures !ParentsSealed(BEFORE_BUG[3], [LOWER])
  {
    BugInstalled();
    BugPlan();
    BugOutputs();
    BugEdit();
    BugReads();
    BugUnsealed();
  }
}
