/** The compaction loop and what it does to reads (db/db_impl.cc: DoCompactionWork; db/version_set.cc: IsBaseLevelForKey). */
module CompactionWork {
  import opened InternalKeys
  import opened VersionSearch

  /** No file two or more levels down has u in its range. */
  ghost predicate BaseLevel(v: Version, level: nat, u: UserKey) {
    forall lvl, f :: level + 2 <= lvl < NUM_LEVELS && f in v[lvl] ==> !Covers(f, u)
  }

  /** The part of a Compaction that answers IsBaseLevelForKey: one pointer per level, only ever
      advanced, because the keys are asked in ascending order. */
  class BaseLevelCursor {
    const version: Version
    const level: nat
    const levelPtrs: array<nat>
    ghost var lastAsked: Option<UserKey>

    ghost predicate Valid()
      reads this, levelPtrs
    {
      && levelPtrs.Length == NUM_LEVELS
      && (forall i :: 1 <= i < NUM_LEVELS ==> ValidFiles(version[i]) && Disjoint(version[i]))
      && (forall lvl :: 0 <= lvl < NUM_LEVELS ==> levelPtrs[lvl] <= |version[lvl]|)
      && (forall lvl, k :: 0 <= lvl < NUM_LEVELS && 0 <= k < levelPtrs[lvl] ==>
            lastAsked.Some? && version[lvl][k].largest.user < lastAsked.value)
    }

    constructor (version: Version, level: nat)
      requires forall i :: 1 <= i < NUM_LEVELS ==> ValidFiles(version[i]) && Disjoint(version[i])
      ensures Valid() && fresh(levelPtrs) && this.version == version && this.level == level && lastAsked == None
    {
      this.version, this.level, this.lastAsked := version, level, None;
      this.levelPtrs := new nat[NUM_LEVELS](_ => 0);
    }

    /** The monotone pointers give the answer a full scan would give. */
    method IsBaseLevelForKey(u: UserKey) returns (base: bool)
      requires Valid()
      requires lastAsked.Some? ==> lastAsked.value <= u
      modifies this`lastAsked, levelPtrs
      ensures Valid() && lastAsked == Some(u)
      ensures base <==> BaseLevel(version, level, u)
    {
      lastAsked := Some(u);
      var lvl := level + 2;
      while lvl < NUM_LEVELS
        invariant level + 2 <= lvl
        invariant Valid() && lastAsked == Some(u)
        invariant forall l, f :: level + 2 <= l < lvl && l < NUM_LEVELS && f in version[l] ==> !Covers(f, u)
      {
        var files := version[lvl];
        while levelPtrs[lvl] < |files| && u > files[levelPtrs[lvl]].largest.user
          invariant Valid() && lastAsked == Some(u)
          decreases |files| - levelPtrs[lvl]
        {
          levelPtrs[lvl] := levelPtrs[lvl] + 1;
        }
        if levelPtrs[lvl] < |files| {
          var f := files[levelPtrs[lvl]];
          if u >= f.smallest.user {
            assert f in version[lvl] && Covers(f, u);
            return false;
          }
          PastPointer(files, levelPtrs[lvl], u);
        }
        lvl := lvl + 1;
      }
      return true;
    }
  }

  lemma PastPointer(files: seq<File>, p: nat, u: UserKey)
    requires ValidFiles(files) && Disjoint(files)
    requires p < |files| && u < files[p].smallest.user
    ensures forall k :: p <= k < |files| ==> !Covers(files[k], u)
  {
    forall k | p < k < |files| ensures u < files[k].smallest.user {
      assert files[p] in files;
    }
  }

  // ----- The drop rules -----

  /** Rule (A): an entry for the same user key just before it is already visible to the oldest snapshot. */
  predicate Hidden(input: seq<Entry>, i: nat, snapshot: SequenceNumber)
    requires i < |input|
  {
    i > 0 && input[i - 1].key.user == input[i].key.user && input[i - 1].key.sequence <= snapshot
  }

  ghost predicate Obsolete(e: Entry, snapshot: SequenceNumber, v: Version, level: nat) {
    e.key.typ == Deletion && e.key.sequence <= snapshot && BaseLevel(v, level, e.key.user)
  }

  ghost predicate Dropped(input: seq<Entry>, i: nat, snapshot: SequenceNumber, v: Version, level: nat)
    requires i < |input|
  {
    Hidden(input, i, snapshot) || Obsolete(input[i], snapshot, v, level)
  }

  /** What survives of the first n input entries. */
  ghost function Kept(input: seq<Entry>, n: nat, snapshot: SequenceNumber, v: Version, level: nat): seq<Entry>
    requires n <= |input|
  {
    if n == 0 then []
    else Kept(input, n - 1, snapshot, v, level) + if Dropped(input, n - 1, snapshot, v, level) then [] else [input[n - 1]]
  }

  lemma {:induction false} KeptMembers(input: seq<Entry>, n: nat, snapshot: SequenceNumber, v: Version, level: nat)
    requires n <= |input|
    ensures forall e :: e in Kept(input, n, snapshot, v, level) <==>
      exists i :: 0 <= i < n && input[i] == e && !Dropped(input, i, snapshot, v, level)
  {
    if n > 0 {
      KeptMembers(input, n - 1, snapshot, v, level);
    }
  }

  lemma {:induction false} KeptSorted(input: seq<Entry>, n: nat, snapshot: SequenceNumber, v: Version, level: nat)
    requires n <= |input| && Sorted(input)
    ensures Sorted(Kept(input, n, snapshot, v, level))
  {
    if n > 0 {
      KeptSorted(input, n - 1, snapshot, v, level);
      KeptMembers(input, n - 1, snapshot, v, level);
      var k := Kept(input, n - 1, snapshot, v, level);
      forall i | 0 <= i < |k| ensures Before(k[i].key, input[n - 1].key) {
        assert k[i] in k;
      }
    }
  }

  // ----- The loop -----

  function FlattenUpTo(fs: seq<File>, n: nat): seq<Entry>
    requires n <= |fs|
  {
    if n == 0 then [] else FlattenUpTo(fs, n - 1) + fs[n - 1].table
  }

  /** The entries of consecutive files, in order. */
  function Flatten(fs: seq<File>): seq<Entry> {
    FlattenUpTo(fs, |fs|)
  }

  lemma {:induction false} FlattenSame(fs: seq<File>, gs: seq<File>, n: nat)
    requires n <= |fs| && n <= |gs| && forall i :: 0 <= i < n ==> fs[i] == gs[i]
    ensures FlattenUpTo(fs, n) == FlattenUpTo(gs, n)
  {
    if n > 0 {
      FlattenSame(fs, gs, n - 1);
    }
  }

  lemma {:induction false} FlattenMembers(fs: seq<File>, n: nat)
    requires n <= |fs|
    ensures forall e :: e in FlattenUpTo(fs, n) <==> exists k :: 0 <= k < n && e in fs[k].table
  {
    if n > 0 {
      FlattenMembers(fs, n - 1);
    }
  }

  /** Cutting a sorted run into consecutive tables gives a sorted, disjoint level. */
  lemma {:induction false} CutsAreDisjoint(fs: seq<File>, n: nat)
    requires n <= |fs| && ValidFiles(fs) && Sorted(FlattenUpTo(fs, n))
    ensures forall i, j :: 0 <= i < j < n ==> Before(fs[i].largest, fs[j].smallest)
  {
    if n > 0 {
      var front, last := FlattenUpTo(fs, n - 1), fs[n - 1];
      assert last in fs;
      SortedPrefix(front, last.table);
      CutsAreDisjoint(fs, n - 1);
      FlattenMembers(fs, n - 1);
      forall i | 0 <= i < n - 1 ensures Before(fs[i].largest, last.smallest) {
        assert fs[i] in fs;
        assert fs[i].table[|fs[i].table| - 1] in front;
      }
    }
  }

  lemma SortedPrefix(a: seq<Entry>, b: seq<Entry>)
    requires Sorted(a + b)
    ensures Sorted(a) && Sorted(b)
    ensures forall x, y :: x in a && y in b ==> Before(x.key, y.key)
  {
    forall i, j | 0 <= i < j < |b| ensures Before(b[i].key, b[j].key) {
      assert (a + b)[|a| + i] == b[i] && (a + b)[|a| + j] == b[j];
    }
    forall i, j | 0 <= i < j < |a| ensures Before(a[i].key, a[j].key) {
      assert (a + b)[i] == a[i] && (a + b)[j] == a[j];
    }
    forall x, y | x in a && y in b ensures Before(x.key, y.key) {
      var i :| 0 <= i < |a| && a[i] == x;
      var j :| 0 <= j < |b| && b[j] == y;
      assert (a + b)[i] == x && (a + b)[|a| + j] == y;
    }
  }

  ghost predicate ConsecutiveNumbers(fs: seq<File>, first: nat) {
    forall i :: 0 <= i < |fs| ==> fs[i].number == first + i
  }

  /** Finished outputs and an open builder account for `kept`, with file numbers handed out in order. */
  ghost predicate Writing(outputs: seq<File>, builder: seq<Entry>, number: nat, next: nat, first: nat, kept: seq<Entry>) {
    && ValidFiles(outputs) && ConsecutiveNumbers(outputs, first)
    && Flatten(outputs) + builder == kept
    && (builder != [] ==> number == first + |outputs|)
    && next == first + |outputs| + if builder == [] then 0 else 1
  }

  /** What the loop writes.  It takes the greatest sequence number for "no entry of this user key so far",
      so with that number as the oldest snapshot every entry counts as hidden. */
  ghost function WrittenOut(input: seq<Entry>, n: nat, snapshot: SequenceNumber, v: Version, level: nat): seq<Entry>
    requires n <= |input|
  {
    if snapshot == MAX_SEQUENCE then [] else Kept(input, n, snapshot, v, level)
  }

  lemma WrittenOutSorted(input: seq<Entry>, n: nat, snapshot: SequenceNumber, v: Version, level: nat)
    requires n <= |input| && Sorted(input)
    ensures Sorted(WrittenOut(input, n, snapshot, v, level))
  {
    KeptSorted(input, n, snapshot, v, level);
  }

  /** The loop over the merged input.  However the output is cut into tables (`stopBefore` for
      ShouldStopBefore, `sizeOf` and `maxOutputFileSize` for the size limit), the tables hold
      exactly the entries the drop rules keep; none at all if the oldest snapshot is the greatest possible
      sequence number. */
  method DoCompactionWork(compaction: BaseLevelCursor, input: seq<Entry>, smallestSnapshot: SequenceNumber,
                          stopBefore: seq<bool>, sizeOf: seq<Entry> -> nat, maxOutputFileSize: nat, firstNumber: nat)
    returns (outputs: seq<File>, nextFileNumber: nat)
    requires compaction.Valid() && compaction.lastAsked == None
    requires Sorted(input) && |stopBefore| == |input|
    modifies compaction`lastAsked, compaction.levelPtrs
    ensures Flatten(outputs) == WrittenOut(input, |input|, smallestSnapshot, compaction.version, compaction.level)
    ensures ValidFiles(outputs) && Disjoint(outputs)
    ensures ConsecutiveNumbers(outputs, firstNumber) && nextFileNumber == firstNumber + |outputs|
  {
    outputs, nextFileNumber := [], firstNumber;
    var builder: seq<Entry> := [];
    var number := 0;
    var currentUserKey: Option<UserKey> := None;
    var lastSequenceForKey: SequenceNumber := MAX_SEQUENCE;
    ghost var v, level := compaction.version, compaction.level;
    ghost var kept := [];
    for i := 0 to |input|
      invariant compaction.Valid()
      invariant kept == WrittenOut(input, i, smallestSnapshot, v, level)
      invariant Writing(outputs, builder, number, nextFileNumber, firstNumber, kept)
      invariant i == 0 ==> currentUserKey == None
      invariant i > 0 ==> currentUserKey == Some(input[i - 1].key.user) && lastSequenceForKey == input[i - 1].key.sequence
      invariant compaction.lastAsked.Some? ==> i > 0 && compaction.lastAsked.value <= input[i - 1].key.user
    {
      var key := input[i].key;
      if stopBefore[i] && builder != [] {
        WrittenOutSorted(input, i, smallestSnapshot, v, level);
        outputs := FinishOutput(outputs, number, builder, sizeOf, nextFileNumber, firstNumber, kept);
        builder := [];
      }
      if currentUserKey != Some(key.user) {
        currentUserKey := Some(key.user);
        lastSequenceForKey := MAX_SEQUENCE;
      }
      var drop := ShouldDrop(compaction, input, i, lastSequenceForKey, smallestSnapshot);
      lastSequenceForKey := key.sequence;
      if !drop {
        WrittenOutSorted(input, i + 1, smallestSnapshot, v, level);
        outputs, builder, number, nextFileNumber :=
          AddEntry(outputs, builder, number, nextFileNumber, input[i], sizeOf, maxOutputFileSize, firstNumber, kept);
        kept := kept + [input[i]];
      }
    }
    WrittenOutSorted(input, |input|, smallestSnapshot, v, level);
    if builder != [] {
      outputs := FinishOutput(outputs, number, builder, sizeOf, nextFileNumber, firstNumber, kept);
      builder := [];
    }
    assert Flatten(outputs) + [] == Flatten(outputs);
    CutsAreDisjoint(outputs, |outputs|);
  }

  /** Open an output if none is open, add the entry, close the output when it is big enough. */
  method AddEntry(outputs: seq<File>, builder: seq<Entry>, number: nat, next: nat, e: Entry,
                  sizeOf: seq<Entry> -> nat, maxOutputFileSize: nat, ghost first: nat, ghost kept: seq<Entry>)
    returns (outputs': seq<File>, builder': seq<Entry>, number': nat, next': nat)
    requires Writing(outputs, builder, number, next, first, kept) && Sorted(kept + [e])
    ensures Writing(outputs', builder', number', next', first, kept + [e])
  {
    outputs', number', next' := outputs, number, next;
    if builder == [] {
      number', next' := next, next + 1;
    }
    builder' := builder + [e];
    assert Flatten(outputs) + builder' == kept + [e];
    if sizeOf(builder') >= maxOutputFileSize {
      outputs' := FinishOutput(outputs, number', builder', sizeOf, next', first, kept + [e]);
      builder' := [];
    }
  }

  /** Rules (A) and (B) for one entry, from the state the loop carries. */
  method ShouldDrop(compaction: BaseLevelCursor, input: seq<Entry>, i: nat, lastSequenceForKey: SequenceNumber,
                    smallestSnapshot: SequenceNumber) returns (drop: bool)
    requires compaction.Valid() && Sorted(input) && i < |input|
    requires lastSequenceForKey == if i > 0 && input[i - 1].key.user == input[i].key.user then input[i - 1].key.sequence else MAX_SEQUENCE
    requires compaction.lastAsked.Some? ==> i > 0 && compaction.lastAsked.value <= input[i - 1].key.user
    modifies compaction`lastAsked, compaction.levelPtrs
    ensures compaction.Valid()
    ensures compaction.lastAsked.Some? ==> compaction.lastAsked.value <= input[i].key.user
    ensures drop <==> smallestSnapshot == MAX_SEQUENCE || Dropped(input, i, smallestSnapshot, compaction.version, compaction.level)
  {
    assert i > 0 ==> Before(input[i - 1].key, input[i].key);
    var key := input[i].key;
    drop := false;
    if lastSequenceForKey <= smallestSnapshot {
      drop := true;
    } else if key.typ == Deletion && key.sequence <= smallestSnapshot {
      drop := compaction.IsBaseLevelForKey(key.user);
    }
  }

  /** FinishCompactionOutputFile: the metadata spans the first and the last key written. */
  method FinishOutput(outputs: seq<File>, number: nat, builder: seq<Entry>, sizeOf: seq<Entry> -> nat,
                      ghost next: nat, ghost first: nat, ghost kept: seq<Entry>) returns (r: seq<File>)
    requires builder != [] && Writing(outputs, builder, number, next, first, kept) && Sorted(kept)
    ensures Writing(r, [], number, next, first, kept)
  {
    SortedPrefix(Flatten(outputs), builder);
    var f := File(number, sizeOf(builder), builder[0].key, builder[|builder| - 1].key, builder);
    r := outputs + [f];
    FlattenSame(outputs, r, |outputs|);
    assert Flatten(r) + [] == Flatten(outputs) + builder;
  }

  // ----- What the drop rules do to reads -----

  ghost function Inputs(input: seq<Entry>): set<Entry> {
    set e | e in input
  }

  ghost function Outputs(input: seq<Entry>, snapshot: SequenceNumber, v: Version, level: nat): set<Entry> {
    set e | e in Kept(input, |input|, snapshot, v, level)
  }

  /** The compaction changes no read at or above the snapshot. */
  ghost predicate KeepsReads(rest: set<Entry>, input: seq<Entry>, snapshot: SequenceNumber, v: Version, level: nat) {
    forall u: UserKey, s: SequenceNumber :: snapshot <= s ==>
      Read(rest + Outputs(input, snapshot, v, level), u, s) == Read(rest + Inputs(input), u, s)
  }

  /** Rule (B) is about to drop a deletion that is what readers at the snapshot see of u. */
  ghost predicate DropsVisibleDeletion(rest: set<Entry>, input: seq<Entry>, snapshot: SequenceNumber, v: Version, level: nat, u: UserKey) {
    exists e :: Newest(rest + Inputs(input), u, snapshot, e) && e in input && Obsolete(e, snapshot, v, level)
  }

  /** The exact condition: below every such deletion nothing readable is left behind. */
  ghost predicate NothingResurfaces(rest: set<Entry>, input: seq<Entry>, snapshot: SequenceNumber, v: Version, level: nat) {
    forall u :: DropsVisibleDeletion(rest, input, snapshot, v, level, u) ==> Read(rest, u, snapshot) == NotFound
  }

  /** Once an entry at or below the snapshot is dropped, so are all older entries for its user key. */
  lemma OlderAreHidden(input: seq<Entry>, i: nat, j: nat, snapshot: SequenceNumber)
    requires Sorted(input) && i < j < |input|
    requires input[i].key.user == input[j].key.user && input[i].key.sequence <= snapshot
    ensures Hidden(input, j, snapshot)
  {
    if i < j - 1 {
      assert Before(input[i].key, input[j - 1].key) && Before(input[j - 1].key, input[j].key);
    }
  }

  lemma OutputsAreInputs(input: seq<Entry>, snapshot: SequenceNumber, v: Version, level: nat)
    ensures Outputs(input, snapshot, v, level) <= Inputs(input)
  {
    KeptMembers(input, |input|, snapshot, v, level);
  }

  /** A newest entry that is not dropped stays the newest. */
  lemma NewestSurvives(rest: set<Entry>, input: seq<Entry>, snapshot: SequenceNumber, v: Version, level: nat,
                       u: UserKey, s: SequenceNumber, e: Entry)
    requires Sorted(input) && snapshot <= s
    requires Unambiguous(rest + Inputs(input))
    requires Newest(rest + Inputs(input), u, s, e)
    requires e in rest || !Obsolete(e, snapshot, v, level)
    ensures Read(rest + Outputs(input, snapshot, v, level), u, s) == AnswerOf(e)
  {
    var after := rest + Outputs(input, snapshot, v, level);
    OutputsAreInputs(input, snapshot, v, level);
    KeptMembers(input, |input|, snapshot, v, level);
    if e !in rest {
      var i :| 0 <= i < |input| && input[i] == e;
      if Hidden(input, i, snapshot) {
        assert input[i - 1] in Inputs(input) && Visible(input[i - 1], u, s) && Before(input[i - 1].key, input[i].key);
      }
    }
    assert Newest(after, u, s, e);
    ReadNewest(after, u, s, e);
  }

  /** Below a dropped deletion nothing of the input survives. */
  lemma NothingSurvivesBelow(input: seq<Entry>, snapshot: SequenceNumber, v: Version, level: nat, e: Entry, x: Entry)
    requires Sorted(input) && e in input && Obsolete(e, snapshot, v, level)
    requires x in Outputs(input, snapshot, v, level) && x.key.user == e.key.user
    ensures x.key.sequence > e.key.sequence
  {
    KeptMembers(input, |input|, snapshot, v, level);
    var i :| 0 <= i < |input| && input[i] == e;
    var j :| 0 <= j < |input| && input[j] == x && !Dropped(input, j, snapshot, v, level);
    if i < j {
      OlderAreHidden(input, i, j, snapshot);
    }
  }

  /** When the newest entry is a dropped deletion, readers fall through to what is left behind. */
  lemma DroppedDeletionExposes(rest: set<Entry>, input: seq<Entry>, snapshot: SequenceNumber, v: Version, level: nat,
                               u: UserKey, s: SequenceNumber, e: Entry)
    requires Sorted(input) && snapshot <= s
    requires Unambiguous(rest + Inputs(input))
    requires Newest(rest + Inputs(input), u, s, e) && e in input && e !in rest && Obsolete(e, snapshot, v, level)
    ensures Read(rest + Outputs(input, snapshot, v, level), u, s) == Read(rest, u, snapshot)
    ensures Newest(rest + Inputs(input), u, snapshot, e)
  {
    var before, after := rest + Inputs(input), rest + Outputs(input, snapshot, v, level);
    OutputsAreInputs(input, snapshot, v, level);
    assert Unambiguous(after) && Unambiguous(rest);
    forall x | x in after && Visible(x, u, s) ensures x in rest && Visible(x, u, snapshot) {
      assert x in before;
      if x !in rest {
        NothingSurvivesBelow(input, snapshot, v, level, e, x);
      }
    }
    if x :| Newest(rest, u, snapshot, x) {
      ReadNewest(rest, u, snapshot, x);
      assert Newest(after, u, s, x);
      ReadNewest(after, u, s, x);
    } else {
      assert !exists x :: Newest(after, u, s, x) by {
        if x :| Newest(after, u, s, x) {
          assert Newest(rest, u, snapshot, x);
        }
      }
    }
  }

  /** The drop rules keep every read at or above the oldest snapshot if and only if no dropped
      deletion hides something that stays behind. */
  lemma CompactionKeepsReadsIff(rest: set<Entry>, input: seq<Entry>, snapshot: SequenceNumber, v: Version, level: nat)
    requires Sorted(input) && rest !! Inputs(input)
    requires Unambiguous(rest + Inputs(input))
    ensures KeepsReads(rest, input, snapshot, v, level) <==> NothingResurfaces(rest, input, snapshot, v, level)
  {
    var before, after := rest + Inputs(input), rest + Outputs(input, snapshot, v, level);
    forall u, s: SequenceNumber | snapshot <= s && NothingResurfaces(rest, input, snapshot, v, level)
      ensures Read(after, u, s) == Read(before, u, s)
    {
      if e :| Newest(before, u, s, e) {
        ReadNewest(before, u, s, e);
        if e in rest || !Obsolete(e, snapshot, v, level) {
          NewestSurvives(rest, input, snapshot, v, level, u, s, e);
        } else {
          DroppedDeletionExposes(rest, input, snapshot, v, level, u, s, e);
          assert DropsVisibleDeletion(rest, input, snapshot, v, level, u);
        }
      } else {
        OutputsAreInputs(input, snapshot, v, level);
        if e :| Newest(after, u, s, e) {
          var x := NewestExists(before, u, s, e);
        }
      }
    }
    forall u | KeepsReads(rest, input, snapshot, v, level) && DropsVisibleDeletion(rest, input, snapshot, v, level, u)
      ensures Read(rest, u, snapshot) == NotFound
    {
      var e :| Newest(before, u, snapshot, e) && e in input && Obsolete(e, snapshot, v, level);
      assert e in Inputs(input);
      ReadNewest(before, u, snapshot, e);
      DroppedDeletionExposes(rest, input, snapshot, v, level, u, snapshot, e);
    }
  }
}
