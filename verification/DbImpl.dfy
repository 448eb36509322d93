/** The database object: each method performs its steps of the state machine (db/db_impl.cc). */
module DbImpl {
  import opened InternalKeys
  import opened VersionSearch
  import opened CompactionInputs
  import opened CompactionWork
  import opened VersionBuilder
  import opened VersionEdits
  import opened SortedRuns
  import opened CompactionReads
  import opened Engine
  import opened EngineProofs
  import opened Recovery
  import VS = VersionSearch

  const MAX_MEM_COMPACT_LEVEL := 2

  // ----- Flush level -----

  /** The table would overlap more than `maxOverlap` bytes of the level after the next. */
  predicate TooMuchBelow(v: Version, level: nat, f: File, maxOverlap: nat) {
    level + 2 < NUM_LEVELS && TotalFileSize(MeetingFiles(v[level + 2], Some(f.smallest.user), Some(f.largest.user))) > maxOverlap
  }

  /** The table may not go down from this level. */
  ghost predicate StuckAt(v: Version, level: nat, f: File, maxOverlap: nat)
    requires level + 1 < NUM_LEVELS
  {
    !NoOverlap(v[level + 1], f) || TooMuchBelow(v, level, f, maxOverlap)
  }

  /** PickLevelForMemTableOutput: the level is the first one where the table is stuck, at most the last
      one for flushes, and level 0 when it overlaps anything there. */
  method PickLevelForMemTableOutput(v: Version, f: File, maxOverlap: nat) returns (level: nat)
    requires ValidVersion(v) && ValidFile(f)
    ensures level <= MAX_MEM_COMPACT_LEVEL && FlushLevelAllowed(v, level, f)
    ensures forall i :: 0 <= i < level ==> !StuckAt(v, i, f, maxOverlap)
    ensures level < MAX_MEM_COMPACT_LEVEL ==> StuckAt(v, level, f, maxOverlap) || (level == 0 && !NoOverlap(v[0], f))
  {
    level := 0;
    var overlap := OverlapInLevel(v, 0, f);
    if !overlap {
      while level < MAX_MEM_COMPACT_LEVEL
        invariant level <= MAX_MEM_COMPACT_LEVEL
        invariant forall i :: 0 <= i <= level ==> NoOverlap(v[i], f)
        invariant forall i :: 0 <= i < level ==> !StuckAt(v, i, f, maxOverlap)
      {
        var stuck := IsStuck(v, level, f, maxOverlap);
        if stuck {
          break;
        }
        level := level + 1;
      }
    }
  }

  method OverlapInLevel(v: Version, level: nat, f: File) returns (overlap: bool)
    requires ValidVersion(v) && ValidFile(f) && level < NUM_LEVELS
    ensures overlap <==> !NoOverlap(v[level], f)
  {
    overlap := SomeFileOverlapsRange(level > 0, v[level], Some(f.smallest.user), Some(f.largest.user));
    MeetingIsOverlap(v[level], f);
  }

  /** The two tests of the loop. */
  method IsStuck(v: Version, level: nat, f: File, maxOverlap: nat) returns (stuck: bool)
    requires ValidVersion(v) && ValidFile(f) && level + 1 < NUM_LEVELS
    ensures stuck <==> StuckAt(v, level, f, maxOverlap)
  {
    stuck := OverlapInLevel(v, level + 1, f);
    if !stuck && level + 2 < NUM_LEVELS {
      var overlaps, _, _ := GetOverlappingInputs(v[level + 2], level + 2, Some(f.smallest.user), Some(f.largest.user));
      stuck := TotalFileSize(overlaps) > maxOverlap;
    }
  }

  lemma MeetingIsOverlap(fs: seq<File>, f: File)
    ensures NoOverlap(fs, f) <==> !exists g :: g in fs && Meets(g, Some(f.smallest.user), Some(f.largest.user))
  {
  }

  /** WriteLevel0Table with a base version, and the next version with its file. */
  method WriteMemTable(v: Version, t: seq<Entry>, number: nat, maxOverlap: nat, sizeOf: seq<Entry> -> nat)
    returns (level: nat, file: Option<File>, next: Version)
    requires Installed(v) && NumbersBelow(v, number) && Sorted(t)
    ensures Flushes(v, t, number, level, file, next)
  {
    level, file, next := 0, None, v;
    if t != [] {
      var f := BuildTable(number, t, sizeOf);
      level := PickLevelForMemTableOutput(v, f, maxOverlap);
      FlushIsFresh(v, level, f);
      next := ApplyOneEdit(v, FlushEdit(level, f));
      file := Some(f);
    }
  }

  // ----- Compaction input -----

  method PlanInputs(v: Version, level: nat, candidate: seq<File>, limit: nat) returns (in0: seq<File>, in1: seq<File>)
    requires ValidVersion(v) && level + 1 < NUM_LEVELS && Candidate(level, v[level], candidate)
    ensures Planned(v, level, in0, in1)
    ensures forall f :: f in candidate ==> f in in0
  {
    ghost var start0;
    var pointer, grown;
    in0, in1, pointer, start0, grown := SetupOtherInputs(level, v[level], v[level + 1], candidate, limit);
  }

  /** AddLiveFiles: the numbers of the tables of a version. */
  function LiveNumbers(v: Version): set<nat> {
    set i, f | 0 <= i < NUM_LEVELS && f in v[i] :: f.number
  }

  function Tables(fs: seq<File>): (r: seq<seq<Entry>>)
    ensures |r| == |fs| && forall i :: 0 <= i < |fs| ==> r[i] == fs[i].table
  {
    seq(|fs|, i requires 0 <= i < |fs| => fs[i].table)
  }

  lemma {:induction false} MeetingOrdered(fs: seq<File>, n: nat, begin: Option<UserKey>, end: Option<UserKey>)
    requires n <= |fs| && Ordered(fs)
    ensures Ordered(MeetingUpTo(fs, n, begin, end))
  {
    if n > 0 {
      MeetingOrdered(fs, n - 1, begin, end);
      MeetingUpToMembers(fs, n - 1, begin, end);
      var r := MeetingUpTo(fs, n - 1, begin, end);
      forall k | 0 <= k < |r| ensures BySmallest(r[k], fs[n - 1]) {
        assert r[k] in r;
      }
    }
  }

  /** The inputs keep the order of the levels they come from. */
  lemma PlannedOrdered(v: Version, level: nat, in0: seq<File>, in1: seq<File>)
    requires Installed(v) && Planned(v, level, in0, in1)
    ensures Ordered(in0) && Ordered(in1)
  {
    var lo, hi :| CoveringRange(v[level + 1], in0, in1, lo, hi);
    MeetingOrdered(v[level + 1], |v[level + 1]|, Some(lo.user), Some(hi.user));
    if level == 0 {
      var b, e :| FillsRange(v[0], b, e, in0);
      MeetingOrdered(v[0], |v[0]|, b, e);
    } else {
      var i, j :| IsSealedRun(v[level], i, j, in0);
    }
  }

  lemma InputAt(v: Version, level: nat, in0: seq<File>, in1: seq<File>, i: nat) returns (home: nat)
    requires GoodInputs(v, level, in0, in1) && i < |in0 + in1|
    ensures home < NUM_LEVELS && (in0 + in1)[i] in v[home]
    ensures home == if i < |in0| then level else level + 1
  {
    home := if i < |in0| then level else level + 1;
    assert (in0 + in1)[i] in if i < |in0| then in0 else in1;
  }

  lemma InputRunsDistinct(v: Version, level: nat, in0: seq<File>, in1: seq<File>, i: nat, j: nat)
    requires Installed(v) && GoodInputs(v, level, in0, in1) && Ordered(in0) && Ordered(in1)
    requires i < j < |in0 + in1|
    ensures DistinctRuns((in0 + in1)[i].table, (in0 + in1)[j].table)
  {
    var f, g := (in0 + in1)[i], (in0 + in1)[j];
    var a := InputAt(v, level, in0, in1, i);
    var b := InputAt(v, level, in0, in1, j);
    forall x, y | x in f.table && y in g.table ensures x.key.user != y.key.user || x.key.sequence != y.key.sequence {
      if x.key.user == y.key.user && x.key.sequence == y.key.sequence {
        OneHome(v, a, f, x, b, g, y);
      }
    }
  }

  /** The merge of all input tables is the merged input of the compaction. */
  lemma MergedInputs(v: Version, level: nat, in0: seq<File>, in1: seq<File>)
    requires Installed(v) && Planned(v, level, in0, in1)
    ensures MergedInput(in0, in1, MergeAll(Tables(in0 + in1)))
  {
    PlannedIsGood(v, level, in0, in1);
    PlannedOrdered(v, level, in0, in1);
    var all := in0 + in1;
    forall i | 0 <= i < |all| ensures Sorted(all[i].table) {
      var home := InputAt(v, level, in0, in1, i);
    }
    forall i, j | 0 <= i < j < |all| ensures DistinctRuns(all[i].table, all[j].table) {
      InputRunsDistinct(v, level, in0, in1, i, j);
    }
    MergeAllMeaning(Tables(all));
    forall e ensures e in MergeAll(Tables(all)) <==> e in InputEntries(in0, in1) {
      InputEntryIndex(in0, in1, e);
    }
  }

  lemma InputEntryIndex(in0: seq<File>, in1: seq<File>, e: Entry)
    ensures e in InputEntries(in0, in1) <==> exists i :: 0 <= i < |in0 + in1| && e in (in0 + in1)[i].table
  {
    var all := in0 + in1;
    if e in FileEntries(in0) {
      var f :| f in in0 && e in f.table;
      var i :| 0 <= i < |in0| && in0[i] == f;
      assert all[i] == f;
    }
    if e in FileEntries(in1) {
      var f :| f in in1 && e in f.table;
      var i :| 0 <= i < |in1| && in1[i] == f;
      assert all[|in0| + i] == f;
    }
    if i :| 0 <= i < |all| && e in all[i].table {
      assert all[i] in in0 || all[i] in in1;
    }
  }

  // ----- Fresh numbers -----

  lemma FlushIsFresh(v: Version, level: nat, f: File)
    requires NumbersBelow(v, f.number) && level < NUM_LEVELS
    ensures forall i :: 0 <= i < NUM_LEVELS ==>
      FreshNumbers(v[i], LevelState({}, []), FlushEdit(level, f).added, |FlushEdit(level, f).added|, i)
  {
  }

  lemma OutputsAreFresh(v: Version, level: nat, in0: seq<File>, in1: seq<File>, outputs: seq<File>, first: nat)
    requires NumbersBelow(v, first) && ConsecutiveNumbers(outputs, first) && level + 1 < NUM_LEVELS
    ensures var added := ReplaceEdit(level, in0, in1, outputs).added;
      forall i :: 0 <= i < NUM_LEVELS ==> FreshNumbers(v[i], LevelState({}, []), added, |added|, i)
  {
  }

  /** A moved file keeps its number, which no file of the next level has. */
  lemma MoveIsFresh(v: Version, level: nat, f: File)
    requires UniqueNumbers(v) && level + 1 < NUM_LEVELS && f in v[level]
    ensures var added := ReplaceEdit(level, [f], [], [f]).added;
      forall i :: 0 <= i < NUM_LEVELS ==> FreshNumbers(v[i], LevelState({}, []), added, |added|, i)
  {
  }

  lemma RecoveredAreFresh(v: Version, files: seq<File>, first: nat, beyond: nat)
    requires NumbersBelow(v, first) && Written(files, first, beyond)
    ensures var added := AddAtZero(files).added;
      forall i :: 0 <= i < NUM_LEVELS ==> FreshNumbers(v[i], LevelState({}, []), added, |added|, i)
  {
  }

  // ----- The object -----

  /** What a step of background work takes from its level. */
  ghost function Taken(step: Step): seq<File>
    requires step.Move? || step.Compact?
  {
    if step.Move? then [step.moved] else step.in0
  }

  /** Snapshots in order of creation, none past the last sequence number. */
  predicate InOrder(list: seq<SequenceNumber>, last: nat) {
    && (forall i, j :: 0 <= i < j < |list| ==> list[i] <= list[j])
    && (forall i :: 0 <= i < |list| ==> list[i] <= last)
  }

  lemma InOrderAppend(list: seq<SequenceNumber>, last: SequenceNumber)
    requires InOrder(list, last)
    ensures InOrder(list + [last], last)
  {
  }

  lemma InOrderRemove(list: seq<SequenceNumber>, last: nat, i: nat)
    requires InOrder(list, last) && i < |list|
    ensures InOrder(list[..i] + list[i + 1..], last)
  {
  }

  class DBImpl {
    var mem: seq<Entry>
    var imm: Option<seq<Entry>>
    var version: Version
    var lastSequence: nat
    var snapshots: seq<SequenceNumber>
    var nextFile: nat
    var logFileNumber: nat
    // disk
    var logs: map<nat, seq<LogRecord>>
    var tables: set<nat>
    var manifest: Manifest
    // specification: the engine's state, which the fields above carry the real part of
    ghost var state: State

    ghost predicate Represents()
      reads this
    {
      && state.mem == mem && state.imm == imm && state.version == version && state.lastSequence == lastSequence
      && state.snapshots == multiset(snapshots) && state.nextFile == nextFile && state.logFileNumber == logFileNumber
      && state.logs == logs && state.tables == tables && state.manifest == manifest
    }

    /** The snapshot list is in order of creation. */
    predicate SnapshotsOrdered()
      reads this
    {
      InOrder(snapshots, lastSequence)
    }

    ghost predicate Valid()
      reads this
    {
      Represents() && Inv(state) && SnapshotsOrdered()
    }

    /** Every valid object meets what the methods below ask of the parts they use. */
    lemma ValidParts()
      requires Valid()
      ensures Installed(version) && NumbersBelow(version, nextFile) && lastSequence < MAX_SEQUENCE && Sorted(mem) && Sorted(Frozen(state))
      ensures forall x :: x in mem ==> x.key.sequence <= lastSequence
      ensures Logs(state) && LastRecorded(state) && NothingMissing(state)
      ensures Installed(manifest.version) && NumbersBelow(manifest.version, manifest.nextFile)
    {
      forall x | x in mem ensures x.key.sequence <= lastSequence {
        assert x in TableEntries(mem);
      }
    }

    /** A new, empty store. */
    constructor ()
      ensures Represents() && Initial(state) && snapshots == []
    {
      mem, imm, version, lastSequence, snapshots := [], None, [[], [], [], [], [], [], []], 0, [];
      logFileNumber, nextFile, tables := 2, 3, {};
      logs := map[2 := []];
      manifest := Manifest([[], [], [], [], [], [], []], 2, 0, 3);
      state := State([], None, [[], [], [], [], [], [], []], 0, multiset{}, 3, 2, None, Idle, map[2 := []], {},
                     Manifest([[], [], [], [], [], [], []], 2, 0, 3), {}, 0, 0, 0, 0, 0);
    }

    /** DBImpl::Get: memtable, immutable memtable, then the version, stopping at the first hit. */
    method Get(u: UserKey, snapshot: SequenceNumber) returns (a: Answer)
      requires Valid()
      ensures a == Read(MemoryView(state), u, snapshot)
      ensures Reads(state) && state.floor <= snapshot ==> a == Read(state.history, u, snapshot)
    {
      SubsetUnambiguous(MemoryView(state), state.history);
      TableGetIsNewest(mem, u, snapshot);
      var hit := TableGet(mem, u, snapshot);
      if hit.None? && imm.Some? {
        TableGetIsNewest(imm.value, u, snapshot);
        hit := TableGet(imm.value, u, snapshot);
      }
      if hit.None? {
        hit := VS.Get(version, u, snapshot);
      }
      HitIsNewest(state, u, snapshot, hit);
      a := if hit.Some? then AnswerOf(hit.value) else NotFound;
    }

    // ----- Writing -----

    /** MakeRoomForWrite, one turn of its loop: `hasRoom` for the memtable below write_buffer_size,
        `tooManyZero` for a full level 0.  The writer must wait, or may go on. */
    method MakeRoomForWrite(force: bool, hasRoom: bool, tooManyZero: bool) returns (waits: bool, switched: bool)
      requires Represents()
      requires state.inflight.None?
      modifies this
      ensures Represents()
      ensures waits <==> (force || !hasRoom) && (old(imm).Some? || tooManyZero)
      ensures switched <==> (force || !hasRoom) && !waits
      ensures if switched then NextSwitch(old(state), state) else state == old(state)
      ensures snapshots == old(snapshots)
    {
      waits, switched := false, false;
      if !force && hasRoom {
      } else if imm.Some? || tooManyZero {
        waits := true;
      } else {
        SwitchMemTable();
        switched := true;
      }
    }

    method SwitchMemTable()
      requires Represents()
      requires state.inflight.None? && imm.None?
      modifies this
      ensures Represents()
      ensures NextSwitch(old(state), state) && snapshots == old(snapshots)
    {
      var newLogNumber := nextFile;
      nextFile := nextFile + 1;
      logs := logs[newLogNumber := []];
      state := state.(mem := [], imm := Some(mem), logFileNumber := newLogNumber, nextFile := nextFile, logs := logs,
                      immLog := logFileNumber, frozen := lastSequence);
      logFileNumber := newLogNumber;
      imm, mem := Some(mem), [];
    }

    /** The group's record reaches the log. */
    method AppendRecord(ops: seq<Op>)
      requires Represents()
      requires state.inflight.None? && logFileNumber in logs && lastSequence + 1 + |ops| <= MAX_SEQUENCE
      modifies this
      ensures Represents()
      ensures NextAppend(old(state), ops, state) && snapshots == old(snapshots)
    {
      var r := LogRecord(lastSequence + 1, ops);
      logs := logs[logFileNumber := logs[logFileNumber] + [r]];
      state := state.(logs := logs, inflight := Some(r));
    }

    /** ... then the memtable, and LastSequence moves once, past the whole group. */
    method ApplyRecord(r: LogRecord)
      requires Represents()
      requires state.inflight == Some(r) && Fits(r) && r.sequence == lastSequence + 1 && Sorted(mem)
      requires forall x :: x in mem ==> x.key.sequence <= lastSequence
      modifies this
      ensures Represents()
      ensures NextApply(old(state), state) && snapshots == old(snapshots)
    {
      mem := InsertInto(mem, r);
      lastSequence := lastSequence + |r.ops|;
      state := state.(mem := mem, lastSequence := lastSequence, history := state.history + RecordEntries(r), inflight := None,
                      recorded := RecordedAfter(state));
    }

    /** The log write failed: LastSequence moves all the same. */
    method SkipNumbers(count: nat)
      requires Valid() && state.inflight.None? && lastSequence + count < MAX_SEQUENCE
      modifies this
      ensures Valid() && NextSkip(old(state), count, state) && snapshots == old(snapshots)
    {
      ghost var was := state;
      lastSequence := lastSequence + count;
      state := state.(lastSequence := lastSequence);
      StaysValid(was, Skip(count));
    }

    /** DBImpl::Write for one group whose log write succeeds or fails: an append, then an apply, with a
        crash possible between them; or nothing but the numbers used up. */
    method Write(ops: seq<Op>, logged: bool) returns (ok: bool, ghost mid: State)
      requires Valid() && state.inflight.None? && lastSequence + 1 + |ops| < MAX_SEQUENCE
      modifies this
      ensures Valid() && snapshots == old(snapshots) && ok == logged
      ensures ok ==> NextAppend(old(state), ops, mid) && NextApply(mid, state) && Acknowledged(old(state), ops, state)
      ensures !ok ==> NextSkip(old(state), |ops|, state)
    {
      ok, mid := logged, state;
      if logged {
        mid := WriteRecord(ops);
      } else {
        SkipNumbers(|ops|);
      }
    }

    method WriteRecord(ops: seq<Op>) returns (ghost mid: State)
      requires Valid() && state.inflight.None? && lastSequence + 1 + |ops| < MAX_SEQUENCE
      modifies this
      ensures NextAppend(old(state), ops, mid) && NextApply(mid, state) && Valid() && snapshots == old(snapshots)
      ensures Acknowledged(old(state), ops, state)
    {
      ValidParts();
      ghost var was := state;
      AppendRecord(ops);
      mid := state;
      ApplyRecord(LogRecord(lastSequence + 1, ops));
      WriteKeeps(was, ops, mid, state);
    }

    // ----- Snapshots -----

    method GetSnapshot() returns (at: SequenceNumber)
      requires Represents()
      requires lastSequence <= MAX_SEQUENCE
      modifies this
      ensures Represents()
      ensures NextTakeSnapshot(old(state), state) && at == lastSequence && snapshots == old(snapshots) + [at]
      ensures old(SnapshotsOrdered()) ==> SnapshotsOrdered()
    {
      if SnapshotsOrdered() {
        InOrderAppend(snapshots, lastSequence);
      }
      at := lastSequence;
      snapshots := snapshots + [at];
      state := state.(snapshots := multiset(snapshots));
    }

    method ReleaseSnapshot(i: nat)
      requires Represents()
      requires i < |snapshots|
      modifies this
      ensures Represents()
      ensures NextReleaseSnapshot(old(state), old(snapshots[i]), state)
      ensures snapshots == old(snapshots[..i] + snapshots[i + 1..])
      ensures old(SnapshotsOrdered()) ==> SnapshotsOrdered()
    {
      if SnapshotsOrdered() {
        InOrderRemove(snapshots, lastSequence, i);
      }
      assert snapshots == snapshots[..i] + [snapshots[i]] + snapshots[i + 1..];
      snapshots := snapshots[..i] + snapshots[i + 1..];
      state := state.(snapshots := multiset(snapshots));
    }

    /** The oldest snapshot, or the last sequence number when there is none. */
    method SmallestSnapshot() returns (snapshot: SequenceNumber)
      requires SnapshotsOrdered() && lastSequence < MAX_SEQUENCE
      ensures forall x :: x in multiset(snapshots) ==> snapshot <= x
      ensures snapshot <= lastSequence && snapshot < MAX_SEQUENCE
      ensures snapshot == lastSequence || snapshot in snapshots
    {
      if snapshots == [] {
        snapshot := lastSequence;
      } else {
        snapshot := snapshots[0];
        assert snapshot in snapshots;
        forall x | x in multiset(snapshots) ensures snapshot <= x {
          assert x in snapshots;
        }
      }
    }

    // ----- Flush, compaction, clean-up -----

    /** CompactMemTable up to the manifest write. */
    method FlushMemTable(maxOverlap: nat, sizeOf: seq<Entry> -> nat) returns (ghost level: nat, ghost file: Option<File>)
      requires Represents()
      requires Installed(version) && state.install == Idle && imm.Some? && Sorted(imm.value)
      requires NumbersBelow(version, nextFile)
      modifies this
      ensures Represents()
      ensures NextFlush(old(state), level, file, manifest.version, state) && snapshots == old(snapshots)
    {
      var number := nextFile;
      nextFile := nextFile + 1;
      var l, f, next := WriteMemTable(version, imm.value, number, maxOverlap, sizeOf);
      level, file := l, f;
      tables := tables + if f.Some? then {number} else {};
      manifest := Manifest(next, logFileNumber, lastSequence, nextFile);
      state := state.(install := InstallFlush, nextFile := nextFile, tables := tables, manifest := manifest);
    }

    /** The end of LogAndApply: the version the manifest now names becomes current. */
    method InstallVersion(flush: bool)
      requires Represents()
      requires state.install == (if flush then InstallFlush else InstallFiles)
      modifies this
      ensures Represents()
      ensures NextInstall(old(state), state) && snapshots == old(snapshots)
    {
      version := manifest.version;
      state := state.(version := version, install := Idle);
      if flush {
        imm := None;
        state := state.(imm := None, flushed := state.frozen);
      }
    }

    /** BackgroundCompaction up to the manifest write, for any candidate PickCompaction or
        CompactRange may choose.  A single file without parents moves; otherwise inputs are merged
        and rewritten. */
    method BackgroundCompaction(level: nat, candidate: seq<File>, limit: nat, manual: bool, grandparentsSmall: bool,
                                stops: nat -> bool, sizeOf: seq<Entry> -> nat, maxOutputFileSize: nat)
      returns (ghost step: Step, moved: bool)
      requires Represents()
      requires Installed(version) && NumbersBelow(version, nextFile) && SnapshotsOrdered() && lastSequence < MAX_SEQUENCE && state.install == Idle
      requires level + 1 < NUM_LEVELS && Candidate(level, version[level], candidate)
      modifies this
      ensures Represents()
      ensures (if moved then step.Move? else step.Compact?) && Next(old(state), step, state) && snapshots == old(snapshots)
      ensures step.level == level && forall f :: f in candidate ==> f in Taken(step)
      ensures step.Move? ==> !manual && grandparentsSmall
      ensures step.Compact? ==> manual || !grandparentsSmall || |step.in0| != 1 || step.in1 != []
      ensures step.Compact? ==> step.snapshot == old(state).lastSequence || step.snapshot in old(state).snapshots
      ensures History(old(state)) ==> ForPromised(old(state), step)
    {
      ghost var was := state;
      var in0, in1 := PlanInputs(version, level, candidate, limit);
      moved := !manual && |in0| == 1 && in1 == [] && grandparentsSmall;
      if moved {
        assert in0 == [in0[0]];
        TrivialMove(level, in0[0]);
        step := MoveIsNext(was, level, in0[0], manifest.version, state);
      } else {
        ghost var input, snapshot, outputs := MergeInputs(level, in0, in1, stops, sizeOf, maxOutputFileSize);
        step := CompactIsNext(was, level, in0, in1, input, snapshot, outputs, manifest.version, state);
        if History(was) {
          OldestIsPromised(was, step);
        }
      }
    }

    method TrivialMove(level: nat, f: File)
      requires Represents()
      requires Installed(version) && state.install == Idle && Planned(version, level, [f], [])
      modifies this
      ensures Represents()
      ensures NextMove(old(state), level, f, manifest.version, state) && snapshots == old(snapshots)
    {
      var next := MovedVersion(version, level, f);
      manifest := Manifest(next, manifest.logNumber, lastSequence, nextFile);
      state := state.(install := InstallFiles, manifest := manifest);
    }

    method MergeInputs(level: nat, in0: seq<File>, in1: seq<File>, stops: nat -> bool, sizeOf: seq<Entry> -> nat,
                       maxOutputFileSize: nat)
      returns (ghost input: seq<Entry>, ghost snapshot: SequenceNumber, ghost outputs: seq<File>)
      requires Represents()
      requires Installed(version) && NumbersBelow(version, nextFile) && SnapshotsOrdered() && lastSequence < MAX_SEQUENCE
      requires state.install == Idle && Planned(version, level, in0, in1)
      modifies this
      ensures Represents()
      ensures NextCompact(old(state), level, in0, in1, input, snapshot, outputs, manifest.version, state) && snapshots == old(snapshots)
      ensures snapshot == old(state).lastSequence || snapshot in old(state).snapshots
    {
      var oldest := SmallestSnapshot();
      ghost var was := state;
      var files, merged, after := CompactionManifest(version, nextFile, manifest.logNumber, lastSequence, level, in0, in1, oldest,
                                                     stops, sizeOf, maxOutputFileSize, was);
      InstallCompactionResults(oldest, files, after);
      input, snapshot, outputs := merged, oldest, files;
    }

    method InstallCompactionResults(ghost oldest: SequenceNumber, files: seq<File>, after: Manifest)
      requires Represents()
      modifies this
      ensures Represents() && state == Compacted(old(state), oldest, files, after) && snapshots == old(snapshots)
      ensures manifest == after
    {
      tables := tables + Numbers(files);
      nextFile := after.nextFile;
      manifest := after;
      state := Compacted(state, oldest, files, after);
    }

    /** DeleteObsoleteFiles: what stays is the tables of the version and the live logs, and no more. */
    method DeleteObsoleteFiles() returns (ghost keep: set<nat>)
      requires Represents()
      requires state.install == Idle
      modifies this
      ensures Represents()
      ensures NextClean(old(state), keep, state) && snapshots == old(snapshots)
      ensures keep == LiveNumbers(old(version))
    {
      var live := LiveNumbers(version);
      keep := live;
      logs := map n | n in logs && manifest.logNumber <= n :: logs[n];
      tables := tables * live;
      state := state.(logs := logs, tables := tables);
    }

    // ----- Background work -----

    /** A step of the engine leaves a valid object valid. */
    lemma StaysValid(was: State, step: Step)
      requires Inv(was) && Next(was, step, state) && Represents() && SnapshotsOrdered()
      ensures Valid()
    {
      StepKeeps(was, step, state);
    }

    /** CompactMemTable: the flush, its installation, and the removal of what is no longer needed. */
    method CompactMemTable(maxOverlap: nat, sizeOf: seq<Entry> -> nat)
      returns (ghost flush: Step, ghost flushed: State, ghost installed: State, ghost keep: set<nat>)
      requires Valid() && state.install == Idle && imm.Some?
      modifies this
      ensures Valid() && imm == None && snapshots == old(snapshots)
      ensures flush.Flush? && Next(old(state), flush, flushed) && NextInstall(flushed, installed) && NextClean(installed, keep, state)
    {
      ValidParts();
      ghost var was := state;
      ghost var level, file := FlushMemTable(maxOverlap, sizeOf);
      flush, flushed := Flush(level, file, manifest.version), state;
      StaysValid(was, flush);
      FinishInstall(true);
      installed := state;
      keep := CleanUp();
    }

    /** The next version is installed. */
    method FinishInstall(flush: bool)
      requires Valid() && state.install == (if flush then InstallFlush else InstallFiles)
      modifies this
      ensures Valid() && NextInstall(old(state), state) && snapshots == old(snapshots) && (flush ==> imm == None)
    {
      ghost var was := state;
      InstallVersion(flush);
      StaysValid(was, Install);
    }

    /** Files that only older versions needed go. */
    method CleanUp() returns (ghost keep: set<nat>)
      requires Valid() && state.install == Idle
      modifies this
      ensures Valid() && NextClean(old(state), keep, state) && snapshots == old(snapshots) && imm == old(imm)
    {
      ghost var was := state;
      keep := DeleteObsoleteFiles();
      StaysValid(was, Clean(keep));
    }

    /** A whole compaction or move: the step and its installation, and, after a compaction, the removal of
        its inputs. */
    method CompactAndInstall(level: nat, candidate: seq<File>, limit: nat, manual: bool, grandparentsSmall: bool,
                             stops: nat -> bool, sizeOf: seq<Entry> -> nat, maxOutputFileSize: nat)
      returns (moved: bool, ghost step: Step, ghost done: State, ghost installed: State, ghost keep: set<nat>)
      requires Valid() && state.install == Idle && lastSequence < MAX_SEQUENCE
      requires level + 1 < NUM_LEVELS && Candidate(level, version[level], candidate)
      modifies this
      ensures Valid() && snapshots == old(snapshots)
      ensures (if moved then step.Move? else step.Compact?) && step.level == level && ForPromised(old(state), step)
      ensures Next(old(state), step, done) && NextInstall(done, installed)
      ensures if moved then state == installed else NextClean(installed, keep, state)
    {
      step, moved := CompactValid(level, candidate, limit, manual, grandparentsSmall, stops, sizeOf, maxOutputFileSize);
      done := state;
      FinishInstall(false);
      installed, keep := state, {};
      if !moved {
        keep := CleanUp();
      }
    }

    method CompactValid(level: nat, candidate: seq<File>, limit: nat, manual: bool, grandparentsSmall: bool,
                        stops: nat -> bool, sizeOf: seq<Entry> -> nat, maxOutputFileSize: nat)
      returns (ghost step: Step, moved: bool)
      requires Valid() && state.install == Idle && lastSequence < MAX_SEQUENCE
      requires level + 1 < NUM_LEVELS && Candidate(level, version[level], candidate)
      modifies this
      ensures Valid() && snapshots == old(snapshots) && state.install == InstallFiles
      ensures (if moved then step.Move? else step.Compact?) && step.level == level && ForPromised(old(state), step)
      ensures Next(old(state), step, state)
    {
      ValidParts();
      ghost var was := state;
      step, moved := BackgroundCompaction(level, candidate, limit, manual, grandparentsSmall, stops, sizeOf, maxOutputFileSize);
      InstallAfter(was, step, state);
      StaysValid(was, step);
    }

    // ----- Recovery -----

    /** DB::Open on what a crash left.  Versions shows that the check for missing tables passes. */
    method Recover(full: seq<Entry> -> bool, sizeOf: seq<Entry> -> nat) returns (ghost step: Step)
      requires Represents()
      requires Logs(state) && LastRecorded(state) && NothingMissing(state)
      requires Installed(manifest.version) && NumbersBelow(manifest.version, manifest.nextFile)
      requires lastSequence + InflightCount(state) < MAX_SEQUENCE
      modifies this
      ensures Represents()
      ensures step.Recover? && Next(old(state), step, state) && snapshots == []
    {
      ghost var was := state;
      var files, next, newLog, last := ReplayDisk(logs, manifest, full, sizeOf, was);
      step := Step.Recover(files, newLog, next, last, newLog + 1);
      RecoverIsNext(was, files, newLog, next, last);
      Reopen(was, files, newLog, next, last);
    }

    /** Opening what a crash of any valid object left gives a valid object. */
    method Open(full: seq<Entry> -> bool, sizeOf: seq<Entry> -> nat) returns (ghost step: Step)
      requires Valid() && lastSequence + InflightCount(state) < MAX_SEQUENCE
      modifies this
      ensures Valid() && step.Recover? && Next(old(state), step, state)
    {
      ValidParts();
      ghost var was := state;
      step := Recover(full, sizeOf);
      StaysValid(was, step);
    }

    method Reopen(ghost s: State, files: seq<File>, newLog: nat, next: Version, last: nat)
      requires s.logs == logs && s.tables == tables && (s.inflight.Some? ==> Fits(s.inflight.value))
      modifies this
      ensures Represents() && state == Recovered(s, files, newLog, next, last) && snapshots == []
    {
      state := Recovered(s, files, newLog, next, last);
      mem, imm := [], None;
      version, lastSequence, snapshots := next, last, [];
      nextFile, logFileNumber := newLog + 1, newLog;
      logs := logs[newLog := []];
      tables := tables + Numbers(files);
      manifest := Manifest(next, newLog, last, newLog + 1);
    }
  }

  /** The acknowledged writes have grown by these operations, numbered from the last sequence on. */
  ghost predicate Acknowledged(s: State, ops: seq<Op>, s': State)
    requires Fits(LogRecord(s.lastSequence + 1, ops))
  {
    s'.history == s.history + RecordEntries(LogRecord(s.lastSequence + 1, ops))
  }

  lemma WriteKeeps(s: State, ops: seq<Op>, mid: State, s': State)
    requires Inv(s) && NextAppend(s, ops, mid) && NextApply(mid, s')
    ensures Inv(s')
    ensures Acknowledged(s, ops, s')
  {
    StepKeeps(s, Step.Append(ops), mid);
    StepKeeps(mid, Step.Apply, s');
  }

  lemma InstallAfter(s: State, step: Step, s': State)
    requires Next(s, step, s') && (step.Move? || step.Compact?)
    ensures s'.install == InstallFiles && s'.lastSequence == s.lastSequence
  {
  }

  lemma MoveIsNext(s: State, level: nat, f: File, next: Version, s': State) returns (step: Step)
    requires NextMove(s, level, f, next, s')
    ensures step == Move(level, f, next) && Next(s, step, s')
  {
    step := Step.Move(level, f, next);
  }

  lemma CompactIsNext(s: State, level: nat, in0: seq<File>, in1: seq<File>, input: seq<Entry>, snapshot: SequenceNumber,
                      outputs: seq<File>, next: Version, s': State) returns (step: Step)
    requires NextCompact(s, level, in0, in1, input, snapshot, outputs, next, s')
    ensures step == Compact(level, in0, in1, input, snapshot, outputs, next) && Next(s, step, s')
  {
    step := Step.Compact(level, in0, in1, input, snapshot, outputs, next);
  }

  ghost function Recovered(s: State, files: seq<File>, newLog: nat, next: Version, last: nat): State
    requires s.inflight.Some? ==> Fits(s.inflight.value)
  {
    State([], None, next, last, multiset{}, newLog + 1, newLog, None, Idle, s.logs[newLog := []], s.tables + Numbers(files),
          Manifest(next, newLog, last, newLog + 1), s.history + InflightEntries(s), last, Lower(s.floor, last), last, last, s.immLog)
  }

  lemma RecoverIsNext(s: State, files: seq<File>, newLog: nat, next: Version, last: nat)
    requires NothingMissing(s) && (s.inflight.Some? ==> Fits(s.inflight.value))
    requires ReplayTables(files, ReplayedEntries(s), s.manifest.nextFile, newLog + 1) && RecoveredLast(s, last)
    requires (forall n :: n in s.logs ==> n < newLog) && s.manifest.nextFile <= newLog
    requires Edited(s.manifest.version, AddAtZero(files), next)
    ensures Next(s, Step.Recover(files, newLog, next, last, newLog + 1), Recovered(s, files, newLog, next, last))
  {
  }

  /** All of recovery that reads the disk: the replayed tables and the version that names them. */
  method ReplayDisk(logs: Disk, manifest: Manifest, full: seq<Entry> -> bool, sizeOf: seq<Entry> -> nat, ghost s: State)
    returns (files: seq<File>, next: Version, newLog: nat, last: nat)
    requires s.logs == logs && s.manifest == manifest
    requires Logs(s) && LastRecorded(s) && s.lastSequence + InflightCount(s) < MAX_SEQUENCE
    requires Installed(manifest.version) && NumbersBelow(manifest.version, manifest.nextFile)
    ensures ReplayTables(files, ReplayedEntries(s), manifest.nextFile, newLog + 1) && RecoveredLast(s, last)
    ensures (forall n :: n in logs ==> n < newLog) && manifest.nextFile <= newLog
    ensures Edited(manifest.version, AddAtZero(files), next)
  {
    var numbers := LiveLogs(logs, manifest.logNumber, 0);
    LiveLogsAscend(s, numbers);
    var first := MarkFileNumberUsed(manifest.nextFile + 1, manifest.logNumber);
    files, newLog, last := ReplayLogs(logs, numbers, first, manifest.lastSequence, full, sizeOf);
    RecoveredAreFresh(manifest.version, files, first, newLog);
    next := ApplyOneEdit(manifest.version, AddAtZero(files));
    ReplayIsRecovery(s, numbers, files, first, newLog, newLog + 1, last);
    NewLogIsLast(s, numbers, newLog);
  }

  lemma NewLogIsLast(s: State, numbers: seq<nat>, newLog: nat)
    requires forall n :: n in numbers <==> n in s.logs && s.manifest.logNumber <= n
    requires forall n :: n in numbers ==> n < newLog
    requires s.manifest.logNumber < newLog
    ensures forall n :: n in s.logs ==> n < newLog
  {
  }

  ghost function Compacted(s: State, snapshot: SequenceNumber, outputs: seq<File>, after: Manifest): State {
    s.(install := InstallFiles, nextFile := after.nextFile, tables := s.tables + Numbers(outputs), manifest := after,
       floor := if s.floor < snapshot then snapshot else s.floor)
  }

  /** Merging, dropping, cutting into tables, and building the next version. */
  method RewriteInputs(v: Version, nextFile: nat, level: nat, in0: seq<File>, in1: seq<File>, snapshot: SequenceNumber,
                       stops: nat -> bool, sizeOf: seq<Entry> -> nat, maxOutputFileSize: nat)
    returns (outputs: seq<File>, next: Version, ghost input: seq<Entry>)
    requires Installed(v) && NumbersBelow(v, nextFile) && Planned(v, level, in0, in1) && snapshot < MAX_SEQUENCE
    ensures CompactionOutputs(v, level, in0, in1, input, snapshot, outputs)
    ensures ConsecutiveNumbers(outputs, nextFile)
    ensures Edited(v, ReplaceEdit(level, in0, in1, outputs), next)
  {
    var merged := MergeAll(Tables(in0 + in1));
    MergedInputs(v, level, in0, in1);
    var compaction := new BaseLevelCursor(v, level);
    var afterFile;
    outputs, afterFile := DoCompactionWork(compaction, merged, snapshot, seq(|merged|, i requires i >= 0 => stops(i)), sizeOf, maxOutputFileSize, nextFile);
    input := merged;
    OutputsAreFresh(v, level, in0, in1, outputs, nextFile);
    next := ApplyOneEdit(v, ReplaceEdit(level, in0, in1, outputs));
  }

  /** ... and the manifest that names it. */
  method CompactionManifest(v: Version, nextFile: nat, logNumber: nat, lastSequence: nat, level: nat, in0: seq<File>, in1: seq<File>,
                            snapshot: SequenceNumber, stops: nat -> bool, sizeOf: seq<Entry> -> nat, maxOutputFileSize: nat, ghost s: State)
    returns (outputs: seq<File>, ghost input: seq<Entry>, after: Manifest)
    requires s.version == v && s.nextFile == nextFile && s.manifest.logNumber == logNumber && s.lastSequence == lastSequence
    requires Installed(v) && NumbersBelow(v, nextFile) && Planned(v, level, in0, in1)
    requires s.install == Idle && AllowedSnapshot(s, snapshot) && snapshot < MAX_SEQUENCE
    ensures NextCompact(s, level, in0, in1, input, snapshot, outputs, after.version, Compacted(s, snapshot, outputs, after))
  {
    var next;
    outputs, next, input := RewriteInputs(v, nextFile, level, in0, in1, snapshot, stops, sizeOf, maxOutputFileSize);
    after := Manifest(next, logNumber, lastSequence, nextFile + |outputs|);
  }

  /** The next version after a trivial move. */
  method MovedVersion(v: Version, level: nat, f: File) returns (next: Version)
    requires Installed(v) && Planned(v, level, [f], [])
    ensures Edited(v, ReplaceEdit(level, [f], [], [f]), next)
  {
    PlannedInputs(v, level, [f], []);
    assert f in [f];
    MoveIsFresh(v, level, f);
    next := ApplyOneEdit(v, ReplaceEdit(level, [f], [], [f]));
  }

  /** Because the layers hold ascending ranges, the first layer that answers has the newest entry. */
  lemma HitIsNewest(s: State, u: UserKey, q: SequenceNumber, hit: Option<Entry>)
    requires Layers(s) && Unambiguous(MemoryView(s))
    requires hit.Some? ==>
      || Newest(TableEntries(s.mem), u, q, hit.value)
      || (NothingVisible(TableEntries(s.mem), u, q) && Newest(TableEntries(Frozen(s)), u, q, hit.value))
      || (NothingVisible(Memtables(s), u, q) && Newest(VersionEntries(s.version), u, q, hit.value))
    requires hit.None? ==> NothingVisible(Memtables(s), u, q) && NothingVisible(VersionEntries(s.version), u, q)
    ensures Read(MemoryView(s), u, q) == if hit.Some? then AnswerOf(hit.value) else NotFound
  {
    if hit.Some? {
      assert Newest(MemoryView(s), u, q, hit.value);
      ReadNewest(MemoryView(s), u, q, hit.value);
    }
  }
}
