/** A run of the store, from empty, in which a deleted key reads as present again: the compaction takes
    the inputs that SetupOtherInputs chooses, and leaves a boundary file on the next level
    (db/version_set.cc: SetupOtherInputs; db/db_impl.cc: DoCompactionWork). */
module ResurfacingRun {
  import opened InternalKeys
  import opened VersionSearch
  import opened CompactionInputs
  import opened CompactionWork
  import opened VersionBuilder
  import opened VersionEdits
  import opened SortedRuns
  import opened CompactionReads
  import opened Engine
  import opened EngineProofs

  // ----- Building a run -----

  datatype Story = Story(trace: seq<State>, steps: seq<Step>)

  ghost predicate Happens(h: Story) {
    Run(h.trace, h.steps)
  }

  ghost function Now(h: Story): State
    requires |h.trace| > 0
  {
    h.trace[|h.trace| - 1]
  }

  lemma Extend(h: Story, step: Step, s': State) returns (h': Story)
    requires Happens(h) && Next(Now(h), step, s')
    ensures Happens(h') && Now(h') == s'
  {
    h' := Story(h.trace + [s'], h.steps + [step]);
    forall i | 0 <= i < |h'.steps| ensures Next(h'.trace[i], h'.steps[i], h'.trace[i + 1]) {
      if i < |h.steps| {
        assert Next(h.trace[i], h.steps[i], h.trace[i + 1]);
      }
    }
  }

  /** What the story keeps track of between background work. */
  ghost predicate Quiet(s: State, mem: seq<Entry>, v: Version, last: nat, next: nat, history: set<Entry>) {
    && s.mem == mem && s.imm == None && s.inflight == None && s.install == Idle && s.version == v
    && s.lastSequence == last && s.nextFile == next && s.history == history && s.logFileNumber in s.logs
  }

  /** A write: the record is appended, then applied. */
  lemma Write(h: Story, ops: seq<Op>, mem: seq<Entry>, v: Version, last: nat, next: nat, history: set<Entry>, mem': seq<Entry>, more: set<Entry>)
    returns (h': Story)
    requires Happens(h) && Quiet(Now(h), mem, v, last, next, history) && Fits(LogRecord(last + 1, ops))
    requires RecordEntries(LogRecord(last + 1, ops)) == more && Sorted(mem') && TableEntries(mem') == TableEntries(mem) + more
    ensures Happens(h') && Quiet(Now(h'), mem', v, last + |ops|, next, history + more)
    ensures Now(h').snapshots == Now(h).snapshots && Now(h').floor == Now(h).floor
  {
    var s, r := Now(h), LogRecord(last + 1, ops);
    var s1 := s.(logs := s.logs[s.logFileNumber := s.logs[s.logFileNumber] + [r]], inflight := Some(r));
    var h1 := Extend(h, Append(ops), s1);
    var s2 := s1.(mem := mem', inflight := None, lastSequence := s1.lastSequence + InflightCount(s1), history := s1.history + RecordEntries(r),
                  recorded := RecordedAfter(s1));
    h' := Extend(h1, Apply, s2);
  }

  /** The memtable becomes a file of the level, with the next file number but one. */
  lemma FlushTo(h: Story, level: nat, f: File, v: Version, last: nat, next: nat, history: set<Entry>, v': Version) returns (h': Story)
    requires Happens(h) && Quiet(Now(h), f.table, v, last, next, history)
    requires f.table != [] && ValidFile(f) && f.number == next + 1 && FlushLevelAllowed(v, level, f) && Edited(v, FlushEdit(level, f), v')
    ensures Happens(h') && Quiet(Now(h'), [], v', last, next + 2, history)
    ensures Now(h').snapshots == Now(h).snapshots && Now(h').floor == Now(h).floor
  {
    var s := Now(h);
    var s1 := s.(mem := [], imm := Some(s.mem), logFileNumber := s.nextFile, nextFile := s.nextFile + 1,
                 logs := s.logs[s.nextFile := []], immLog := s.logFileNumber, frozen := s.lastSequence);
    var h1 := Extend(h, Switch, s1);
    var s2 := s1.(install := InstallFlush, nextFile := s1.nextFile + 1, tables := s1.tables + {s1.nextFile},
                  manifest := Manifest(v', s1.logFileNumber, s1.lastSequence, s1.nextFile + 1));
    var h2 := Extend(h1, Flush(level, Some(f), v'), s2);
    h' := Extend(h2, Install, s2.(install := Idle, version := v', imm := None, flushed := s2.frozen));
  }

  lemma MoveDown(h: Story, level: nat, f: File, v: Version, last: nat, next: nat, history: set<Entry>, v': Version) returns (h': Story)
    requires Happens(h) && Quiet(Now(h), [], v, last, next, history)
    requires Planned(v, level, [f], []) && Edited(v, ReplaceEdit(level, [f], [], [f]), v')
    ensures Happens(h') && Quiet(Now(h'), [], v', last, next, history)
    ensures Now(h').snapshots == Now(h).snapshots && Now(h').floor == Now(h).floor
  {
    var s := Now(h);
    var s1 := s.(install := InstallFiles, manifest := Manifest(v', s.manifest.logNumber, s.lastSequence, s.nextFile));
    var h1 := Extend(h, Move(level, f, v'), s1);
    h' := Extend(h1, Install, s1.(install := Idle, version := v'));
  }

  lemma CompactDown(h: Story, level: nat, in0: seq<File>, in1: seq<File>, input: seq<Entry>, snapshot: SequenceNumber, outputs: seq<File>,
                    v: Version, last: nat, next: nat, history: set<Entry>, v': Version) returns (h': Story)
    requires Happens(h) && Quiet(Now(h), [], v, last, next, history) && AllowedSnapshot(Now(h), snapshot) && Now(h).floor <= snapshot
    requires Compactable(v, level, in0, in1, input, snapshot, outputs, next, v')
    ensures Happens(h') && Quiet(Now(h'), [], v', last, next + |outputs|, history)
    ensures Now(h').snapshots == Now(h).snapshots && Now(h').floor == snapshot
  {
    var s := Now(h);
    var s1 := s.(install := InstallFiles, nextFile := s.nextFile + |outputs|, tables := s.tables + Numbers(outputs),
                 manifest := Manifest(v', s.manifest.logNumber, s.lastSequence, s.nextFile + |outputs|),
                 floor := if s.floor < snapshot then snapshot else s.floor);
    var h1 := Extend(h, Compact(level, in0, in1, input, snapshot, outputs, v'), s1);
    h' := Extend(h1, Install, s1.(install := Idle, version := v'));
  }

  ghost predicate Flushable(v: Version, level: nat, f: File, v': Version) {
    f.table != [] && ValidFile(f) && FlushLevelAllowed(v, level, f) && Edited(v, FlushEdit(level, f), v')
  }

  /** A write into an empty memtable, and its flush. */
  lemma WriteAndFlush(h: Story, ops: seq<Op>, more: set<Entry>, level: nat, f: File, v: Version, last: nat, next: nat, history: set<Entry>,
                      v': Version, history': set<Entry>) returns (h': Story)
    requires Happens(h) && Quiet(Now(h), [], v, last, next, history) && Fits(LogRecord(last + 1, ops))
    requires RecordEntries(LogRecord(last + 1, ops)) == more == TableEntries(f.table) && history' == history + more
    requires f.number == next + 1 && Flushable(v, level, f, v')
    ensures Happens(h') && Quiet(Now(h'), [], v', last + |ops|, next + 2, history')
    ensures Now(h').snapshots == Now(h).snapshots && Now(h').floor == Now(h).floor
  {
    assert TableEntries(f.table) == TableEntries([]) + more;
    var h1 := Write(h, ops, [], v, last, next, history, f.table, more);
    h' := FlushTo(h1, level, f, v, last + |ops|, next, history', v');
  }

  /** A compaction that may be done, with what comes of it. */
  ghost predicate Compactable(v: Version, level: nat, in0: seq<File>, in1: seq<File>, input: seq<Entry>, snapshot: SequenceNumber,
                              outputs: seq<File>, next: nat, v': Version) {
    && Planned(v, level, in0, in1) && CompactionOutputs(v, level, in0, in1, input, snapshot, outputs)
    && ConsecutiveNumbers(outputs, next) && Edited(v, ReplaceEdit(level, in0, in1, outputs), v')
  }

  // ----- The files of the story -----

  const EMPTY: Version := [[], [], [], [], [], [], []]
  /** The first file, with both values, and the second, with the deletion. */
  const FIRST := File(3, 2, OLD_ONE.key, OLD_TWO.key, [OLD_ONE, OLD_TWO])
  const SECOND := OneEntryFile(5, GONE_TWO)
  const FLUSHED: Version := [[], [], [FIRST], [], [], [], []]
  const MOVED: Version := [[], [], [], [FIRST], [], [], []]
  const TWO_FILES: Version := [[], [], [SECOND], [FIRST], [], [], []]
  const CUT: Version := [[], [], [], [LOWER, BOUNDARY], [], [], []]

  /** Each level of each version, as a condition on files. */
  lemma Levels(i: nat, f: File)
    requires i < NUM_LEVELS
    ensures EMPTY[i] == []
    ensures f in FLUSHED[i] <==> i == 2 && f == FIRST
    ensures f in MOVED[i] <==> i == 3 && f == FIRST
    ensures f in TWO_FILES[i] <==> (i == 2 && f == SECOND) || (i == 3 && f == FIRST)
    ensures f in CUT[i] <==> i == 3 && (f == LOWER || f == BOUNDARY)
    ensures f in BEFORE_BUG[i] <==> (i == 2 && f == UPPER) || (i == 3 && (f == LOWER || f == BOUNDARY))
  {
  }

  lemma AtMostOneIsOrdered(fs: seq<File>)
    ensures |fs| <= 1 ==> Ordered(fs)
  {
  }

  lemma OrderedStory(i: nat)
    requires i < NUM_LEVELS
    ensures Ordered(FLUSHED[i]) && Ordered(MOVED[i]) && Ordered(TWO_FILES[i]) && Ordered(CUT[i]) && Ordered(BEFORE_BUG[i])
  {
    AtMostOneIsOrdered(FLUSHED[i]);
    AtMostOneIsOrdered(MOVED[i]);
    AtMostOneIsOrdered(TWO_FILES[i]);
    BugLevelOrder(i);
    if i == 3 {
      assert CUT[3] == [LOWER, BOUNDARY];
    } else {
      AtMostOneIsOrdered(CUT[i]);
    }
  }

  lemma StoryFiles()
    ensures ValidFile(FIRST) && ValidFile(SECOND)
  {
  }

  lemma FlushEdited(v: Version, level: nat, f: File, v': Version)
    requires level < NUM_LEVELS && forall i, g :: 0 <= i < NUM_LEVELS ==> (g in v'[i] <==> g in v[i] || (i == level && g == f))
    requires forall i :: 0 <= i < NUM_LEVELS ==> Ordered(v'[i])
    ensures Edited(v, FlushEdit(level, f), v')
  {
  }

  lemma FirstEdits()
    ensures Flushable(EMPTY, 2, FIRST, FLUSHED) && Flushable(MOVED, 2, SECOND, TWO_FILES) && Flushable(CUT, 2, UPPER, BEFORE_BUG)
  {
    StoryFiles();
    BugFiles();
    forall i, g | 0 <= i < NUM_LEVELS
      ensures g in FLUSHED[i] <==> g in EMPTY[i] || (i == 2 && g == FIRST)
      ensures g in TWO_FILES[i] <==> g in MOVED[i] || (i == 2 && g == SECOND)
      ensures g in BEFORE_BUG[i] <==> g in CUT[i] || (i == 2 && g == UPPER)
    {
      Levels(i, g);
    }
    forall i | 0 <= i < NUM_LEVELS ensures Ordered(FLUSHED[i]) && Ordered(TWO_FILES[i]) && Ordered(BEFORE_BUG[i]) {
      OrderedStory(i);
    }
    FlushEdited(EMPTY, 2, FIRST, FLUSHED);
    FlushEdited(MOVED, 2, SECOND, TWO_FILES);
    FlushEdited(CUT, 2, UPPER, BEFORE_BUG);
    forall i, g | 0 <= i <= 2 ensures g !in EMPTY[i] && g !in MOVED[i] && g !in CUT[i] {
      Levels(i, g);
    }
  }

  lemma MoveFacts()
    ensures Planned(FLUSHED, 2, [FIRST], []) && Edited(FLUSHED, ReplaceEdit(2, [FIRST], [], [FIRST]), MOVED)
  {
    assert IsSealedRun(FLUSHED[2], 0, 1, [FIRST]);
    assert FIRST in [FIRST] && FLUSHED[3] == [];
    assert MeetingFiles([], Some(1.0), Some(2.0)) == [];
    assert CoveringRange(FLUSHED[3], [FIRST], [], OLD_ONE.key, OLD_TWO.key);
    var edit := ReplaceEdit(2, [FIRST], [], [FIRST]);
    assert edit.deleted == {(2, 3)} && edit.added == [(3, FIRST)];
    forall i | 0 <= i < NUM_LEVELS
      ensures Ordered(MOVED[i]) && forall f :: f in MOVED[i] <==> (f in FLUSHED[i] && (i, f.number) !in edit.deleted) || (i, f) in edit.added
    {
      OrderedStory(i);
      forall f ensures f in MOVED[i] <==> (f in FLUSHED[i] && (i, f.number) !in edit.deleted) || (i, f) in edit.added {
        Levels(i, f);
      }
    }
  }

  // ----- The first compaction: the deletion and the deleted value end up in different files -----

  lemma CutPlan()
    ensures Planned(TWO_FILES, 2, [SECOND], [FIRST])
  {
    var parents := TWO_FILES[3];
    assert IsSealedRun(TWO_FILES[2], 0, 1, [SECOND]);
    assert MeetingUpTo(parents, 0, Some(2.0), Some(2.0)) == [];
    assert MeetingUpTo(parents, 1, Some(2.0), Some(2.0)) == [FIRST];
    assert SECOND in [SECOND];
    assert CoveringRange(parents, [SECOND], [FIRST], GONE_TWO.key, GONE_TWO.key);
  }

  lemma CutInput()
    ensures MergedInput([SECOND], [FIRST], [OLD_ONE, GONE_TWO, OLD_TWO])
  {
    var input := [OLD_ONE, GONE_TWO, OLD_TWO];
    forall e ensures e in input <==> e in InputEntries([SECOND], [FIRST]) {
      assert e in FileEntries([SECOND]) <==> e in SECOND.table;
      assert e in FileEntries([FIRST]) <==> e in FIRST.table;
    }
  }

  lemma CutKept()
    ensures Kept([OLD_ONE, GONE_TWO, OLD_TWO], 3, 2, TWO_FILES, 2) == [OLD_ONE, GONE_TWO, OLD_TWO]
  {
    var input := [OLD_ONE, GONE_TWO, OLD_TWO];
    assert Kept(input, 0, 2, TWO_FILES, 2) == [];
    assert Kept(input, 1, 2, TWO_FILES, 2) == [OLD_ONE];
    assert Kept(input, 2, 2, TWO_FILES, 2) == [OLD_ONE, GONE_TWO];
  }

  lemma FlattenTwo(f: File, g: File)
    ensures Flatten([f, g]) == f.table + g.table
  {
    assert FlattenUpTo([f, g], 0) == [];
    assert FlattenUpTo([f, g], 1) == [] + f.table;
    assert FlattenUpTo([f, g], 2) == [] + f.table + g.table;
  }

  lemma CutOutputs()
    ensures CompactionOutputs(TWO_FILES, 2, [SECOND], [FIRST], [OLD_ONE, GONE_TWO, OLD_TWO], 2, [LOWER, BOUNDARY])
    ensures ConsecutiveNumbers([LOWER, BOUNDARY], 6)
  {
    CutInput();
    CutKept();
    FlattenTwo(LOWER, BOUNDARY);
    BugFiles();
  }

  lemma CutEdit()
    ensures Edited(TWO_FILES, ReplaceEdit(2, [SECOND], [FIRST], [LOWER, BOUNDARY]), CUT)
  {
    var edit := ReplaceEdit(2, [SECOND], [FIRST], [LOWER, BOUNDARY]);
    assert SECOND in [SECOND] && FIRST in [FIRST];
    assert edit.deleted == {(2, 5), (3, 3)} && edit.added == [(3, LOWER), (3, BOUNDARY)];
    forall i | 0 <= i < NUM_LEVELS
      ensures Ordered(CUT[i]) && forall f :: f in CUT[i] <==> (f in TWO_FILES[i] && (i, f.number) !in edit.deleted) || (i, f) in edit.added
    {
      OrderedStory(i);
      forall f ensures f in CUT[i] <==> (f in TWO_FILES[i] && (i, f.number) !in edit.deleted) || (i, f) in edit.added {
        Levels(i, f);
      }
    }
  }

  // ----- The story -----

  const PUT_BOTH := [Op(1.0, Value, [3]), Op(2.0, Value, [5])]
  const DELETE_TWO := [Op(2.0, Deletion, [])]
  const PUT_ONE := [Op(1.0, Value, [9])]

  lemma Records()
    ensures Fits(LogRecord(1, PUT_BOTH)) && RecordEntries(LogRecord(1, PUT_BOTH)) == {OLD_ONE, OLD_TWO}
    ensures Fits(LogRecord(3, DELETE_TWO)) && RecordEntries(LogRecord(3, DELETE_TWO)) == {GONE_TWO}
    ensures Fits(LogRecord(4, PUT_ONE)) && RecordEntries(LogRecord(4, PUT_ONE)) == {NEW_ONE}
  {
    assert EntryAt(LogRecord(1, PUT_BOTH), 0) == OLD_ONE && EntryAt(LogRecord(1, PUT_BOTH), 1) == OLD_TWO;
    assert EntryAt(LogRecord(3, DELETE_TWO), 0) == GONE_TWO;
    assert EntryAt(LogRecord(4, PUT_ONE), 0) == NEW_ONE;
    forall e ensures e in RecordEntries(LogRecord(1, PUT_BOTH)) <==> e == OLD_ONE || e == OLD_TWO {
    }
  }

  /** An empty store. */
  lemma Beginning() returns (h: Story)
    ensures Happens(h) && Quiet(Now(h), [], EMPTY, 0, 2, {}) && Now(h).snapshots == multiset{} && Now(h).floor == 0
  {
    var s := State([], None, EMPTY, 0, multiset{}, 2, 1, None, Idle, map[1 := []], {}, Manifest(EMPTY, 1, 0, 2), {}, 0, 0, 0, 0, 0);
    h := Story([s], []);
  }

  lemma Tables()
    ensures TableEntries(FIRST.table) == {OLD_ONE, OLD_TWO} && TableEntries(SECOND.table) == {GONE_TWO} && TableEntries(UPPER.table) == {NEW_ONE}
  {
  }

  /** Both values are written, flushed, and moved to level 3. */
  lemma ValuesSettle() returns (h: Story)
    ensures Happens(h) && Quiet(Now(h), [], MOVED, 2, 4, {OLD_ONE, OLD_TWO})
    ensures Now(h).snapshots == multiset{} && Now(h).floor == 0
  {
    Records();
    Tables();
    FirstEdits();
    MoveFacts();
    var both := {OLD_ONE, OLD_TWO};
    var h0 := Beginning();
    var h1 := WriteAndFlush(h0, PUT_BOTH, both, 2, FIRST, EMPTY, 0, 2, {}, FLUSHED, both);
    h := MoveDown(h1, 2, FIRST, FLUSHED, 2, 4, both, MOVED);
  }

  /** A reader takes a snapshot, and one value is deleted. */
  lemma DeletionIsFlushed() returns (h: Story)
    ensures Happens(h) && Quiet(Now(h), [], TWO_FILES, 3, 6, {OLD_ONE, OLD_TWO, GONE_TWO})
    ensures Now(h).snapshots == multiset{2} && Now(h).floor == 0
  {
    Records();
    Tables();
    FirstEdits();
    var h0 := ValuesSettle();
    var h1 := Snap(h0, [], MOVED, 2, 4, {OLD_ONE, OLD_TWO});
    h := WriteAndFlush(h1, DELETE_TWO, {GONE_TWO}, 2, SECOND, MOVED, 2, 4, {OLD_ONE, OLD_TWO}, TWO_FILES, {OLD_ONE, OLD_TWO, GONE_TWO});
  }

  lemma Snap(h: Story, mem: seq<Entry>, v: Version, last: SequenceNumber, next: nat, history: set<Entry>) returns (h': Story)
    requires Happens(h) && Quiet(Now(h), mem, v, last, next, history)
    ensures Happens(h') && Quiet(Now(h'), mem, v, last, next, history)
    ensures Now(h').snapshots == Now(h).snapshots + multiset{last} && Now(h').floor == Now(h).floor
  {
    var s := Now(h);
    h' := Extend(h, TakeSnapshot, s.(snapshots := s.snapshots + multiset{s.lastSequence}));
  }

  lemma Unsnap(h: Story, mem: seq<Entry>, v: Version, last: nat, next: nat, history: set<Entry>, at: SequenceNumber) returns (h': Story)
    requires Happens(h) && Quiet(Now(h), mem, v, last, next, history) && at in Now(h).snapshots
    ensures Happens(h') && Quiet(Now(h'), mem, v, last, next, history)
    ensures Now(h').snapshots == Now(h).snapshots - multiset{at} && Now(h').floor == Now(h).floor
  {
    var s := Now(h);
    h' := Extend(h, ReleaseSnapshot(at), s.(snapshots := s.snapshots - multiset{at}));
  }

  lemma CutIsCompaction()
    ensures Compactable(TWO_FILES, 2, [SECOND], [FIRST], [OLD_ONE, GONE_TWO, OLD_TWO], 2, [LOWER, BOUNDARY], 6, CUT)
  {
    CutPlan();
    CutOutputs();
    CutEdit();
  }

  /** The compaction keeps both for the reader's sake, and its output is cut between them.  Then the
      snapshot goes. */
  lemma DeletionIsCutOff() returns (h: Story)
    ensures Happens(h) && Quiet(Now(h), [], CUT, 3, 8, {OLD_ONE, OLD_TWO, GONE_TWO})
    ensures Now(h).snapshots == multiset{} && Now(h).floor == 2
  {
    CutIsCompaction();
    var all := {OLD_ONE, OLD_TWO, GONE_TWO};
    var h0 := DeletionIsFlushed();
    var h1 := CompactDown(h0, 2, [SECOND], [FIRST], [OLD_ONE, GONE_TWO, OLD_TWO], 2, [LOWER, BOUNDARY], TWO_FILES, 3, 6, all, CUT);
    h := Unsnap(h1, [], CUT, 3, 8, all, 2);
  }

  /** The other key is written again and flushed: every invariant holds, and key 2 reads as deleted. */
  lemma BeforeTheCompaction() returns (h: Story)
    ensures Happens(h) && Quiet(Now(h), [], BEFORE_BUG, 4, 10, {OLD_ONE, OLD_TWO, GONE_TWO, NEW_ONE})
    ensures Now(h).snapshots == multiset{} && Now(h).floor == 2
  {
    Records();
    Tables();
    FirstEdits();
    var h0 := DeletionIsCutOff();
    h := WriteAndFlush(h0, PUT_ONE, {NEW_ONE}, 2, UPPER, CUT, 3, 8, {OLD_ONE, OLD_TWO, GONE_TWO}, BEFORE_BUG, {OLD_ONE, OLD_TWO, GONE_TWO, NEW_ONE});
  }

  lemma BugIsCompaction()
    ensures Compactable(BEFORE_BUG, 2, [UPPER], [LOWER], [NEW_ONE, OLD_ONE, GONE_TWO], 4, [OUTPUT], 10, AFTER_BUG)
  {
    BugPlan();
    BugOutputs();
    BugEdit();
    assert ConsecutiveNumbers([OUTPUT], 10);
  }

  /** The next compaction drops the deletion and leaves the boundary file with the deleted value. */
  lemma AfterTheCompaction() returns (h: Story)
    ensures Happens(h) && Quiet(Now(h), [], AFTER_BUG, 4, 11, {OLD_ONE, OLD_TWO, GONE_TWO, NEW_ONE}) && Now(h).floor == 4
  {
    BugIsCompaction();
    var h0 := BeforeTheCompaction();
    var all := {OLD_ONE, OLD_TWO, GONE_TWO, NEW_ONE};
    h := CompactDown(h0, 2, [UPPER], [LOWER], [NEW_ONE, OLD_ONE, GONE_TWO], 4, [OUTPUT], BEFORE_BUG, 4, 10, all, AFTER_BUG);
  }

  lemma OnlyTheVersion(s: State, v: Version, last: nat, next: nat, history: set<Entry>)
    requires Quiet(s, [], v, last, next, history)
    ensures MemoryView(s) == VersionEntries(v)
  {
    assert TableEntries([]) == {};
  }

  lemma DeletedInHistory()
    ensures Read({OLD_ONE, OLD_TWO, GONE_TWO, NEW_ONE}, 2.0, 4) == NotFound
  {
    var all := {OLD_ONE, OLD_TWO, GONE_TWO, NEW_ONE};
    assert Newest(all, 2.0, 4, GONE_TWO);
    ReadNewest(all, 2.0, 4, GONE_TWO);
  }

  /** There is a run, of steps the code takes, after which a key deleted by an acknowledged write reads
      as present at the last sequence number; so the promised reads do not hold in every run. */
  lemma DeletedKeyComesBack() returns (trace: seq<State>, steps: seq<Step>, n: nat)
    ensures Run(trace, steps) && n < |trace| && Inv(trace[n])
    ensures trace[n].floor <= 4 == trace[n].lastSequence
    ensures Read(trace[n].history, 2.0, 4) == NotFound
    ensures Read(MemoryView(trace[n]), 2.0, 4) == Found([5])
    ensures !Reads(trace[n]) && !SafeRun(trace, steps)
  {
    var h := AfterTheCompaction();
    trace, steps, n := h.trace, h.steps, |h.trace| - 1;
    EveryRun(trace, steps, n);
    OnlyTheVersion(trace[n], AFTER_BUG, 4, 11, {OLD_ONE, OLD_TWO, GONE_TWO, NEW_ONE});
    BugReads();
    DeletedInHistory();
  }
}
