/** Every run of the store keeps its invariants and its promised reads. */
module EngineProofs {
  import opened InternalKeys
  import opened VersionSearch
  import opened CompactionInputs
  import opened CompactionWork
  import opened VersionBuilder
  import opened VersionEdits
  import opened CompactionReads
  import opened Engine

  // ----- Sets of entries -----

  lemma SubsetUnambiguous(S: set<Entry>, T: set<Entry>)
    requires UniqueSequences(T) && S <= T
    ensures Unambiguous(S) && UniqueSequences(S)
  {
  }

  /** Writes newer than everything on both sides keep the two sides reading alike. */
  lemma NewWritesKeepSameReads(A: set<Entry>, B: set<Entry>, N: set<Entry>, low: nat, floor: nat)
    requires SameReads(A, B, floor)
    requires Unambiguous(A + N) && Unambiguous(B + N)
    requires (forall x :: x in A || x in B ==> x.key.sequence <= low) && (forall n :: n in N ==> n.key.sequence > low)
    ensures SameReads(A + N, B + N, floor)
  {
    forall u: UserKey, s: SequenceNumber | floor <= s ensures Read(B + N, u, s) == Read(A + N, u, s) {
      if w :| w in N && Visible(w, u, s) {
        NewestWriteWins(A, N, low, u, s, w);
        NewestWriteWins(B, N, low, u, s, w);
      } else {
        InvisibleWrites(A, N, u, s);
        InvisibleWrites(B, N, u, s);
        assert Read(B, u, s) == Read(A, u, s);
      }
    }
  }

  lemma NewestWriteWins(A: set<Entry>, N: set<Entry>, low: nat, u: UserKey, s: SequenceNumber, w: Entry)
    requires Unambiguous(A + N) && w in N && Visible(w, u, s)
    requires (forall x :: x in A ==> x.key.sequence <= low) && (forall n :: n in N ==> n.key.sequence > low)
    ensures Read(A + N, u, s) == Read(N, u, s)
  {
    var e := NewestExists(N, u, s, w);
    assert Unambiguous(N);
    ReadNewest(N, u, s, e);
    assert Newest(A + N, u, s, e);
    ReadNewest(A + N, u, s, e);
  }

  lemma InvisibleWrites(A: set<Entry>, N: set<Entry>, u: UserKey, s: SequenceNumber)
    requires Unambiguous(A + N)
    requires forall w :: w in N ==> !Visible(w, u, s)
    ensures Read(A + N, u, s) == Read(A, u, s)
  {
    assert Unambiguous(A);
    forall e ensures Newest(A + N, u, s, e) <==> Newest(A, u, s, e) {
      if Newest(A, u, s, e) {
        assert forall x :: x in A + N && Visible(x, u, s) ==> x in A;
      }
    }
    SameNewestSameRead(A + N, A, u, s);
  }

  lemma SameReadsTransitive(A: set<Entry>, B: set<Entry>, C: set<Entry>, floor: nat, floor': nat)
    requires SameReads(A, B, floor) && SameReads(B, C, floor') && floor <= floor'
    ensures SameReads(A, C, floor')
  {
  }

  // ----- Logs -----

  lemma EmptyLog(low: nat, high: nat)
    ensures LogHolds([], low, high, {})
  {
  }

  lemma LogAppend(log: seq<LogRecord>, low: nat, high: nat, S: set<Entry>, r: LogRecord)
    requires LogHolds(log, low, high, S) && Fits(r) && low <= high < r.sequence
    ensures LastOf(r) >= 0 && LogHolds(log + [r], low, LastOf(r), S + RecordEntries(r))
  {
    var log' := log + [r];
    forall e ensures e in LogEntries(log') <==> e in S + RecordEntries(r) {
      if e in LogEntries(log') {
        var i :| 0 <= i < |log'| && e in RecordEntries(log'[i]);
        assert i < |log| ==> log'[i] == log[i];
      }
      if e in S {
        var i :| 0 <= i < |log| && e in RecordEntries(log[i]);
        assert log'[i] == log[i];
      }
      if e in RecordEntries(r) {
        assert log'[|log|] == r;
      }
    }
    forall i | 0 <= i < |log'| ensures Fits(log'[i]) && low < log'[i].sequence && (i < |log| ==> LastOf(log'[i]) <= high) {
    }
  }

  lemma RecordRange(r: LogRecord)
    requires Fits(r)
    ensures Between(RecordEntries(r), r.sequence - 1, r.sequence + |r.ops| - 1)
    ensures UniqueSequences(RecordEntries(r))
  {
  }

  // ----- One lemma per step -----

  lemma AppendKeeps(s: State, ops: seq<Op>, s': State)
    requires Inv(s) && NextAppend(s, ops, s')
    ensures Inv(s') && (Reads(s) ==> Reads(s'))
  {
    AppendLogs(s, ops, s');
    AppendLast(s, ops, s');
    SameViews(s, s');
  }

  lemma AppendLogs(s: State, ops: seq<Op>, s': State)
    requires Logs(s) && s.frozen <= s.lastSequence && NextAppend(s, ops, s')
    ensures Logs(s')
  {
    LogAppend(s.logs[s.logFileNumber], s.frozen, s.lastSequence, TableEntries(s.mem), LogRecord(s.lastSequence + 1, ops));
    assert TableEntries(s.mem) + InflightEntries(s) == TableEntries(s.mem);
  }

  lemma AppendLast(s: State, ops: seq<Op>, s': State)
    requires LastRecorded(s) && NextAppend(s, ops, s')
    ensures LastRecorded(s')
  {
    if s.manifest.lastSequence < s.recorded {
      var n, i :| EndsAt(s, n, i, s.recorded);
      assert EndsAt(s', n, i, s.recorded);
    }
  }

  /** The group just applied is the last record of the log, so it ends at the new last sequence number. */
  lemma ApplyLast(s: State, s': State)
    requires Inv(s) && NextApply(s, s')
    ensures LastRecorded(s')
  {
    var log := s.logs[s.logFileNumber];
    if s.inflight.value.ops != [] {
      assert EndsAt(s', s.logFileNumber, |log| - 1, s'.recorded);
    } else if s.manifest.lastSequence < s.recorded {
      var n, i :| EndsAt(s, n, i, s.recorded);
      assert EndsAt(s', n, i, s'.recorded);
    }
  }

  lemma HistoryGrows(s: State, s': State, N: set<Entry>)
    requires History(s) && s'.history == s.history + N
    requires Between(N, s.lastSequence, s'.recorded) && UniqueSequences(N) && s.recorded <= s'.recorded <= s'.lastSequence
    requires MemoryView(s') <= s.history + N && DiskView(s') <= s.history + N
    requires s'.floor <= s'.lastSequence && forall x :: x in s'.snapshots ==> s'.floor <= x <= s'.lastSequence
    ensures History(s')
  {
  }

  lemma ApplyViews(s: State, s': State)
    requires NextApply(s, s')
    ensures MemoryView(s') == MemoryView(s) + RecordEntries(s.inflight.value)
    ensures DiskView(s') == DiskView(s) + RecordEntries(s.inflight.value)
    ensures TableEntries(s'.mem) + InflightEntries(s') == TableEntries(s.mem) + InflightEntries(s)
    ensures Frozen(s') == Frozen(s)
  {
  }

  lemma ApplyInv(s: State, s': State)
    requires Inv(s) && NextApply(s, s')
    ensures Inv(s')
  {
    RecordRange(s.inflight.value);
    ApplyViews(s, s');
    ApplyLast(s, s');
    HistoryGrows(s, s', RecordEntries(s.inflight.value));
  }

  lemma ApplyKeeps(s: State, s': State)
    requires Inv(s) && NextApply(s, s')
    ensures Inv(s') && (Reads(s) ==> Reads(s'))
  {
    var N := RecordEntries(s.inflight.value);
    RecordRange(s.inflight.value);
    ApplyInv(s, s');
    ApplyViews(s, s');
    SubsetUnambiguous(s'.history, s'.history);
    SubsetUnambiguous(MemoryView(s'), s'.history);
    SubsetUnambiguous(DiskView(s'), s'.history);
    if Reads(s) {
      NewWritesKeepSameReads(s.history, MemoryView(s), N, s.lastSequence, s.floor);
      NewWritesKeepSameReads(s.history, DiskView(s), N, s.lastSequence, s.floor);
    }
  }

  /** Numbers lost to a failed write change nothing that is read. */
  lemma SkipKeeps(s: State, count: nat, s': State)
    requires Inv(s) && NextSkip(s, count, s')
    ensures Inv(s') && (Reads(s) ==> Reads(s'))
  {
    SameViews(s, s');
    LastRecordedStays(s, s');
    assert TableEntries(s'.mem) + InflightEntries(s') == TableEntries(s.mem) + InflightEntries(s);
    assert Logs(s') && Layers(s') && History(s');
  }

  lemma SwitchKeeps(s: State, s': State)
    requires Inv(s) && NextSwitch(s, s')
    ensures Inv(s') && (Reads(s) ==> Reads(s'))
  {
    EmptyLog(s'.frozen, s'.lastSequence);
    assert TableEntries(s.mem) + InflightEntries(s) == TableEntries(s.mem);
    assert TableEntries(s'.mem) == {} && TableEntries(Frozen(s)) == {};
    if s.manifest.lastSequence < s.recorded {
      var n, i :| EndsAt(s, n, i, s.recorded);
      assert EndsAt(s', n, i, s.recorded);
    }
    assert MemoryView(s') == MemoryView(s) && DiskView(s') == DiskView(s);
  }

  // ----- Flush, move, compaction, install -----

  lemma VersionStepKeepsLogs(s: State, s': State)
    requires Inv(s) && s.install == Idle
    requires s' == s.(install := s'.install, nextFile := s'.nextFile, tables := s'.tables, manifest := s'.manifest, floor := s'.floor)
    requires s.nextFile <= s'.nextFile && s'.manifest.lastSequence == s.lastSequence
    requires s'.manifest.logNumber == if s'.install == InstallFlush then s.logFileNumber else s.manifest.logNumber
    requires s'.install == InstallFlush ==> s.imm.Some?
    ensures Logs(s') && LastRecorded(s') && Layers(s')
  {
  }

  lemma FlushIsNewer(s: State, f: File)
    requires Layers(s) && s.imm.Some? && f.table == s.imm.value
    ensures NewerThanVersion(f, s.version)
  {
    forall i, g, x, y | 0 <= i < NUM_LEVELS && g in s.version[i] && x in f.table && y in g.table ensures x.key.sequence > y.key.sequence {
      assert x in TableEntries(Frozen(s)) && y in VersionEntries(s.version);
    }
  }

  lemma SameMemory(s: State, s': State)
    requires s'.mem == s.mem && s'.imm == s.imm && s'.version == s.version
    ensures MemoryView(s') == MemoryView(s) && Memtables(s') == Memtables(s) && Frozen(s') == Frozen(s)
  {
  }

  /** From an idle state, writing the manifest leaves the memtables and the new version to be found. */
  lemma DiskAfter(s: State, s': State)
    requires s.install == Idle && s'.mem == s.mem && s'.imm == s.imm
    requires s'.install == InstallFlush ==> VersionEntries(s'.manifest.version) == VersionEntries(s.version) + TableEntries(Frozen(s))
    ensures s'.install == InstallFlush ==> DiskView(s') == Memtables(s) + VersionEntries(s.version)
    ensures s'.install == InstallFiles ==> DiskView(s') == Memtables(s) + VersionEntries(s'.manifest.version)
  {
  }

  lemma IdleViews(s: State)
    requires Versions(s) && s.install == Idle
    ensures DiskView(s) == MemoryView(s)
  {
  }

  /** A step that only writes the manifest keeps the history if what is on disk only shrinks. */
  lemma ManifestStepKeepsHistory(s: State, s': State)
    requires History(s) && MemoryView(s') == MemoryView(s) && DiskView(s') <= MemoryView(s)
    requires s'.history == s.history && s'.recorded == s.recorded && s'.lastSequence == s.lastSequence && s'.snapshots == s.snapshots
    requires s'.floor <= s'.lastSequence && forall x :: x in s'.snapshots ==> s'.floor <= x
    ensures History(s')
  {
  }

  lemma FlushNumbers(v: Version, first: nat, tables: set<nat>, level: nat, f: File, next: Version)
    requires NumbersBelow(v, first) && f.number == first && Edited(v, FlushEdit(level, f), next)
    requires forall i, g :: 0 <= i < NUM_LEVELS && g in v[i] ==> g.number in tables
    ensures NumbersBelow(next, first + 1)
    ensures forall i, g :: 0 <= i < NUM_LEVELS && g in next[i] ==> g.number in tables + {first}
  {
    FlushedFiles(v, level, f, next);
  }

  /** The version a flush writes, once its parts are known to be right. */
  lemma AssembleFlushed(s: State, next: Version, s': State)
    requires Versions(s) && s.install == Idle
    requires s'.install == InstallFlush && s'.imm.Some? && s'.version == s.version && s'.manifest.version == next
    requires Installed(next) && NumbersBelow(next, s'.manifest.nextFile)
    requires s.nextFile <= s'.manifest.nextFile <= s'.nextFile && s.tables <= s'.tables
    requires forall i, f :: 0 <= i < NUM_LEVELS && f in next[i] ==> f.number in s'.tables
    requires VersionEntries(s'.manifest.version) == VersionEntries(s'.version) + TableEntries(Frozen(s'))
    ensures Versions(s')
  {
  }

  lemma FlushVersions(s: State, level: nat, file: Option<File>, next: Version, s': State)
    requires Layers(s) && Versions(s) && NextFlush(s, level, file, next, s')
    ensures Versions(s')
    ensures VersionEntries(next) == VersionEntries(s.version) + TableEntries(Frozen(s))
  {
    FlushedVersion(s, level, file, next);
    SameMemory(s, s');
    AssembleFlushed(s, next, s');
  }

  lemma FlushedVersion(s: State, level: nat, file: Option<File>, next: Version)
    requires Layers(s) && Versions(s) && s.install == Idle && s.imm.Some? && Flushes(s.version, s.imm.value, s.nextFile, level, file, next)
    ensures Installed(next) && NumbersBelow(next, s.nextFile + 1)
    ensures forall i, f :: 0 <= i < NUM_LEVELS && f in next[i] ==> f.number in s.tables + if file.Some? then {s.nextFile} else {}
    ensures VersionEntries(next) == VersionEntries(s.version) + TableEntries(Frozen(s))
  {
    if file.Some? {
      FlushIsNewer(s, file.value);
      FlushKeepsInstalled(s.version, level, file.value, next);
      FlushNumbers(s.version, s.nextFile, s.tables, level, file.value, next);
    } else {
      assert TableEntries(Frozen(s)) == {};
    }
  }

  lemma FlushKeeps(s: State, level: nat, file: Option<File>, next: Version, s': State)
    requires Inv(s) && NextFlush(s, level, file, next, s')
    ensures Inv(s') && (Reads(s) ==> Reads(s'))
  {
    VersionStepKeepsLogs(s, s');
    FlushVersions(s, level, file, next, s');
    SameMemory(s, s');
    DiskAfter(s, s');
    IdleViews(s);
    ManifestStepKeepsHistory(s, s');
  }

  lemma MoveNumbers(v: Version, level: nat, f: File, next: Version)
    requires Installed(v) && GoodInputs(v, level, [f], [])
    requires Edited(v, ReplaceEdit(level, [f], [], [f]), next)
    ensures forall i, g :: 0 <= i < NUM_LEVELS && g in next[i] ==> exists j :: 0 <= j < NUM_LEVELS && g in v[j]
  {
    forall i, g | 0 <= i < NUM_LEVELS && g in next[i] ensures exists j :: 0 <= j < NUM_LEVELS && g in v[j] {
      ReplacedFiles(v, level, [f], [], [f], next, i, g);
      assert g in [f] ==> g in v[level];
    }
  }

  lemma MoveVersions(s: State, level: nat, f: File, next: Version, s': State)
    requires Versions(s) && NextMove(s, level, f, next, s')
    ensures Versions(s') && VersionEntries(next) == VersionEntries(s.version)
  {
    MoveMeaning(s.version, level, f, next);
    PlannedIsGood(s.version, level, [f], []);
    MoveNumbers(s.version, level, f, next);
    AssembleVersions(s, next, s');
  }

  lemma MoveKeeps(s: State, level: nat, f: File, next: Version, s': State)
    requires Inv(s) && NextMove(s, level, f, next, s')
    ensures Inv(s') && (Reads(s) ==> Reads(s'))
  {
    VersionStepKeepsLogs(s, s');
    MoveVersions(s, level, f, next, s');
    SameMemory(s, s');
    DiskAfter(s, s');
    IdleViews(s);
    ManifestStepKeepsHistory(s, s');
  }

  lemma FreshOutputNumbers(v: Version, level: nat, in0: seq<File>, outputs: seq<File>, first: nat)
    requires NumbersBelow(v, first) && ConsecutiveNumbers(outputs, first)
    ensures OutputNumbers(v, level, in0, outputs)
  {
    forall o, p | o in outputs && p in outputs && o.number == p.number ensures o == p {
      var i :| 0 <= i < |outputs| && outputs[i] == o;
      var j :| 0 <= j < |outputs| && outputs[j] == p;
    }
    forall o | o in outputs ensures o.number >= first {
    }
  }

  lemma CompactNumbers(v: Version, first: nat, tables: set<nat>, level: nat, in0: seq<File>, in1: seq<File>, outputs: seq<File>, next: Version)
    requires Installed(v) && NumbersBelow(v, first) && GoodInputs(v, level, in0, in1) && ConsecutiveNumbers(outputs, first)
    requires forall i, f :: 0 <= i < NUM_LEVELS && f in v[i] ==> f.number in tables
    requires Edited(v, ReplaceEdit(level, in0, in1, outputs), next)
    ensures NumbersBelow(next, first + |outputs|)
    ensures forall i, f :: 0 <= i < NUM_LEVELS && f in next[i] ==> f.number in tables + Numbers(outputs)
  {
    forall i, f | 0 <= i < NUM_LEVELS && f in next[i] ensures f.number < first + |outputs| && f.number in tables + Numbers(outputs) {
      ReplacedFiles(v, level, in0, in1, outputs, next, i, f);
      if f in outputs {
        var k :| 0 <= k < |outputs| && outputs[k] == f;
        assert f.number in Numbers(outputs);
      }
    }
  }

  lemma MemtablesApart(s: State)
    requires Layers(s)
    ensures Memtables(s) !! VersionEntries(s.version)
  {
  }

  /** The next version, once its parts are known to be right. */
  lemma AssembleVersions(s: State, next: Version, s': State)
    requires Versions(s) && s.install == Idle
    requires s'.install == InstallFiles && s'.version == s.version && s'.manifest.version == next
    requires Installed(next) && NumbersBelow(next, s'.manifest.nextFile)
    requires s.nextFile <= s'.manifest.nextFile <= s'.nextFile && s.tables <= s'.tables
    requires forall i, f :: 0 <= i < NUM_LEVELS && f in next[i] ==> f.number in s'.tables
    requires VersionEntries(next) <= VersionEntries(s.version)
    ensures Versions(s')
  {
  }

  lemma CompactVersions(s: State, level: nat, in0: seq<File>, in1: seq<File>, input: seq<Entry>, snapshot: SequenceNumber,
                        outputs: seq<File>, next: Version, s': State)
    requires Layers(s) && Versions(s) && NextCompact(s, level, in0, in1, input, snapshot, outputs, next, s')
    requires Unambiguous(Memtables(s) + VersionEntries(s.version))
    ensures Versions(s')
    ensures SameReads(Memtables(s) + VersionEntries(s.version), Memtables(s) + VersionEntries(next), snapshot)
      <==> NothingResurfaces(Rest(s.version, level, in0, in1, Memtables(s)), input, snapshot, s.version, level)
  {
    MemtablesApart(s);
    FreshOutputNumbers(s.version, level, in0, outputs, s.nextFile);
    CompactionMeaning(s.version, level, in0, in1, input, snapshot, outputs, next, Memtables(s));
    PlannedIsGood(s.version, level, in0, in1);
    CompactNumbers(s.version, s.nextFile, s.tables, level, in0, in1, outputs, next);
    AssembleVersions(s, next, s');
  }

  /** A compaction keeps the structure whatever it drops; it keeps the reads if nothing resurfaces. */
  lemma CompactKeeps(s: State, level: nat, in0: seq<File>, in1: seq<File>, input: seq<Entry>, snapshot: SequenceNumber,
                     outputs: seq<File>, next: Version, s': State)
    requires Inv(s) && NextCompact(s, level, in0, in1, input, snapshot, outputs, next, s')
    ensures Inv(s')
    ensures Reads(s) && Safe(s, Compact(level, in0, in1, input, snapshot, outputs, next)) ==> Reads(s')
  {
    VersionStepKeepsLogs(s, s');
    SubsetUnambiguous(MemoryView(s), s.history);
    CompactVersions(s, level, in0, in1, input, snapshot, outputs, next, s');
    SameMemory(s, s');
    DiskAfter(s, s');
    IdleViews(s);
    ManifestStepKeepsHistory(s, s');
    if Reads(s) && Safe(s, Compact(level, in0, in1, input, snapshot, outputs, next)) {
      SameReadsTransitive(s.history, DiskView(s), DiskView(s'), s.floor, s'.floor);
    }
  }

  lemma InstallKeeps(s: State, s': State)
    requires Inv(s) && NextInstall(s, s')
    ensures Inv(s') && (Reads(s) ==> Reads(s'))
  {
    assert MemoryView(s') == DiskView(s) && DiskView(s') == DiskView(s);
    assert Layers(s');
    assert Logs(s');
    if s.manifest.lastSequence < s.recorded {
      var n, i :| EndsAt(s, n, i, s.recorded);
      assert EndsAt(s', n, i, s.recorded);
    }
  }

  // ----- Snapshots and clean-up -----

  lemma LastRecordedStays(s: State, s': State)
    requires LastRecorded(s)
    requires s'.manifest.lastSequence == s.manifest.lastSequence && s'.recorded == s.recorded && s.lastSequence <= s'.lastSequence
    requires forall n :: n in s.logs && LiveLog(s, n) ==> LiveLog(s', n) && n in s'.logs && s'.logs[n] == s.logs[n]
    ensures LastRecorded(s')
  {
    if s.manifest.lastSequence < s.recorded {
      var n, i :| EndsAt(s, n, i, s.recorded);
      assert EndsAt(s', n, i, s.recorded);
    }
  }

  /** A step that touches neither the memtables nor the versions keeps both views. */
  lemma SameViews(s: State, s': State)
    requires s'.mem == s.mem && s'.imm == s.imm && s'.version == s.version && s'.manifest == s.manifest && s'.install == s.install
    ensures MemoryView(s') == MemoryView(s) && DiskView(s') == DiskView(s) && FrozenLogLive(s') == FrozenLogLive(s)
  {
    SameMemory(s, s');
  }

  lemma TakeSnapshotKeeps(s: State, s': State)
    requires Inv(s) && NextTakeSnapshot(s, s')
    ensures Inv(s') && (Reads(s) ==> Reads(s'))
  {
    SameViews(s, s');
    LastRecordedStays(s, s');
    assert History(s');
  }

  lemma ReleaseSnapshotKeeps(s: State, at: SequenceNumber, s': State)
    requires Inv(s) && NextReleaseSnapshot(s, at, s')
    ensures Inv(s') && (Reads(s) ==> Reads(s'))
  {
    SameViews(s, s');
    LastRecordedStays(s, s');
    assert History(s');
  }

  lemma CleanKeeps(s: State, keep: set<nat>, s': State)
    requires Inv(s) && NextClean(s, keep, s')
    ensures Inv(s') && (Reads(s) ==> Reads(s'))
  {
    SameViews(s, s');
    LastRecordedStays(s, s');
    assert History(s');
  }

  // ----- Crash and recovery -----

  lemma LogEntriesAt(log: seq<LogRecord>, i: nat, e: Entry)
    requires forall k :: 0 <= k < |log| ==> Fits(log[k])
    requires i < |log| && e in RecordEntries(log[i])
    ensures e in LogEntries(log)
  {
  }

  /** The live logs replay to the memtables and the group in flight, nothing else. */
  lemma ReplayedMeaning(s: State)
    requires Logs(s)
    ensures ReplayedEntries(s) == TableEntries(s.mem) + InflightEntries(s) + if FrozenLogLive(s) then TableEntries(Frozen(s)) else {}
  {
    var all := TableEntries(s.mem) + InflightEntries(s) + if FrozenLogLive(s) then TableEntries(Frozen(s)) else {};
    forall e ensures e in ReplayedEntries(s) <==> e in all {
      if e in ReplayedEntries(s) {
        var n, i :| n in s.logs && s.manifest.logNumber <= n && 0 <= i < |s.logs[n]| && Fits(s.logs[n][i]) && e in RecordEntries(s.logs[n][i]);
        assert LiveLog(s, n);
        LogEntriesAt(s.logs[n], i, e);
      }
      if e in TableEntries(s.mem) + InflightEntries(s) {
        assert e in LogEntries(s.logs[s.logFileNumber]);
        var i :| 0 <= i < |s.logs[s.logFileNumber]| && e in RecordEntries(s.logs[s.logFileNumber][i]);
      }
      if FrozenLogLive(s) && e in TableEntries(Frozen(s)) {
        assert e in LogEntries(s.logs[s.immLog]);
        var i :| 0 <= i < |s.logs[s.immLog]| && e in RecordEntries(s.logs[s.immLog][i]);
      }
    }
  }

  lemma AddedAtZero(v: Version, files: seq<File>, next: Version)
    requires Edited(v, AddAtZero(files), next)
    ensures forall i, f :: 0 <= i < NUM_LEVELS ==> (f in next[i] <==> f in v[i] || (i == 0 && f in files))
  {
    var edit := AddAtZero(files);
    forall f ensures (0, f) in edit.added <==> f in files {
      if f in files {
        var k :| 0 <= k < |files| && files[k] == f;
        assert edit.added[k] == (0, f);
      }
    }
  }

  lemma ReplayedIsNewer(v: Version, files: seq<File>, S: set<Entry>, first: nat, beyond: nat, f: File)
    requires ReplayTables(files, S, first, beyond) && f in files
    requires forall x, y :: x in S && y in VersionEntries(v) ==> x.key.sequence > y.key.sequence
    ensures NewerThanVersion(f, v)
  {
    forall i, g, x, y | 0 <= i < NUM_LEVELS && g in v[i] && x in f.table && y in g.table ensures x.key.sequence > y.key.sequence {
      assert x in FileEntries(files) && y in VersionEntries(v);
    }
  }

  lemma ReplayedNumbers(v: Version, files: seq<File>, S: set<Entry>, first: nat, beyond: nat, next: Version)
    requires UniqueNumbers(v) && NumbersBelow(v, first) && ReplayTables(files, S, first, beyond)
    requires Edited(v, AddAtZero(files), next)
    ensures UniqueNumbers(next)
  {
    AddedAtZero(v, files, next);
    forall f, g | f in files && g in files && f.number == g.number ensures f == g {
      var i :| 0 <= i < |files| && files[i] == f;
      var j :| 0 <= j < |files| && files[j] == g;
    }
    assert forall f :: f in files ==> f.number >= first;
  }

  lemma ReplayedOrder(files: seq<File>, S: set<Entry>, first: nat, beyond: nat, f: File, g: File)
    requires ReplayTables(files, S, first, beyond) && f in files && g in files && f.number > g.number
    ensures NewerThan(f.table, g.table)
  {
    var i :| 0 <= i < |files| && files[i] == f;
    var j :| 0 <= j < |files| && files[j] == g;
  }

  lemma ReplayedPair(v: Version, files: seq<File>, S: set<Entry>, first: nat, beyond: nat, f: File, g: File)
    requires ZeroOrdered(v[0]) && NumbersBelow(v, first) && ReplayTables(files, S, first, beyond)
    requires forall x, y :: x in S && y in VersionEntries(v) ==> x.key.sequence > y.key.sequence
    requires (f in v[0] || f in files) && (g in v[0] || g in files) && f.number > g.number
    ensures NewerThan(f.table, g.table)
  {
    if f in files && g in files {
      ReplayedOrder(files, S, first, beyond, f, g);
    } else if f in files {
      ReplayedIsNewer(v, files, S, first, beyond, f);
      assert g in v[0];
    }
  }

  lemma ReplayedZeroOrdered(v: Version, files: seq<File>, S: set<Entry>, first: nat, beyond: nat, next: Version)
    requires Installed(v) && NumbersBelow(v, first) && ReplayTables(files, S, first, beyond)
    requires forall x, y :: x in S && y in VersionEntries(v) ==> x.key.sequence > y.key.sequence
    requires Edited(v, AddAtZero(files), next)
    ensures UniqueNumbers(next) && ZeroOrdered(next[0]) && ValidFiles(next[0])
  {
    AddedAtZero(v, files, next);
    ReplayedNumbers(v, files, S, first, beyond, next);
    OrderedDistinct(next[0]);
    forall f, g | f in next[0] && g in next[0] && f.number > g.number ensures NewerThan(f.table, g.table) {
      ReplayedPair(v, files, S, first, beyond, f, g);
    }
  }

  /** Tables replayed into level 0 keep the version's structure. */
  lemma ReplayKeepsInstalled(v: Version, files: seq<File>, S: set<Entry>, first: nat, beyond: nat, next: Version)
    requires Installed(v) && NumbersBelow(v, first) && ReplayTables(files, S, first, beyond)
    requires forall x, y :: x in S && y in VersionEntries(v) ==> x.key.sequence > y.key.sequence
    requires Edited(v, AddAtZero(files), next)
    ensures Installed(next)
  {
    ReplayedZeroOrdered(v, files, S, first, beyond, next);
    AddedAtZero(v, files, next);
    forall i | 1 <= i < NUM_LEVELS ensures ValidFiles(next[i]) && Disjoint(next[i]) {
      OrderedUnique(next[i], v[i]);
    }
    forall i, j, g, h | 0 <= i < j < NUM_LEVELS && g in next[i] && h in next[j] ensures NewerThan(g.table, h.table) {
      if g in v[i] {
        assert LevelNewer(v[i], v[j]);
      } else {
        ReplayedIsNewer(v, files, S, first, beyond, g);
      }
    }
  }

  lemma ReplayedContents(v: Version, files: seq<File>, next: Version)
    requires Edited(v, AddAtZero(files), next)
    ensures VersionEntries(next) == VersionEntries(v) + FileEntries(files)
  {
    AddedAtZero(v, files, next);
    forall e ensures e in VersionEntries(next) <==> e in VersionEntries(v) + FileEntries(files) {
      if e in VersionEntries(v) {
        var i, f :| 0 <= i < NUM_LEVELS && f in v[i] && e in f.table;
        assert f in next[i];
      }
      if e in FileEntries(files) {
        var f :| f in files && e in f.table;
        assert f in next[0];
      }
    }
  }

  lemma RecoveredContents(s: State, files: seq<File>, newLog: nat, next: Version, last: nat, nextFile: nat, s': State)
    requires Inv(s) && NextRecover(s, files, newLog, next, last, nextFile, s')
    ensures Installed(next) && VersionEntries(next) == DiskView(s) + InflightEntries(s)
  {
    ReplayedMeaning(s);
    ReplayedAboveVersion(s);
    ReplayKeepsInstalled(s.manifest.version, files, ReplayedEntries(s), s.manifest.nextFile, nextFile, next);
    ReplayedContents(s.manifest.version, files, next);
  }

  lemma RecoveredNumbers(s: State, files: seq<File>, next: Version, nextFile: nat)
    requires Versions(s) && ReplayTables(files, ReplayedEntries(s), s.manifest.nextFile, nextFile) && s.manifest.nextFile <= nextFile
    requires Edited(s.manifest.version, AddAtZero(files), next)
    ensures NumbersBelow(next, nextFile)
    ensures forall i, f :: 0 <= i < NUM_LEVELS && f in next[i] ==> f.number in s.tables + Numbers(files)
  {
    AddedAtZero(s.manifest.version, files, next);
    forall f | f in files ensures f.number < nextFile && f.number in Numbers(files) {
    }
  }

  lemma RecoveredVersions(s: State, files: seq<File>, newLog: nat, next: Version, last: nat, nextFile: nat, s': State)
    requires Inv(s) && NextRecover(s, files, newLog, next, last, nextFile, s')
    ensures Versions(s')
    ensures VersionEntries(next) == DiskView(s) + InflightEntries(s)
  {
    RecoveredContents(s, files, newLog, next, last, nextFile, s');
    RecoveredNumbers(s, files, next, nextFile);
  }

  /** What is replayed is newer than every table of the manifest's version. */
  lemma ReplayedAboveVersion(s: State)
    requires Layers(s) && Versions(s) && Logs(s)
    ensures forall x, y :: x in ReplayedEntries(s) && y in VersionEntries(s.manifest.version) ==> x.key.sequence > y.key.sequence
  {
    ReplayedMeaning(s);
    if s.inflight.Some? {
      RecordRange(s.inflight.value);
    }
    var top := if s.install == InstallFlush then s.frozen else s.flushed;
    assert Between(VersionEntries(s.manifest.version), 0, top);
    assert forall x :: x in ReplayedEntries(s) ==> x.key.sequence > top;
  }

  /** Recovery's last sequence number covers every acknowledged write and the group in flight. */
  lemma RecoveredLastCovers(s: State, last: nat)
    requires Logs(s) && LastRecorded(s) && RecoveredLast(s, last)
    ensures s.recorded <= last
    ensures s.inflight.Some? ==> s.lastSequence + |s.inflight.value.ops| <= last
  {
    if s.manifest.lastSequence < s.recorded {
      var n, i :| EndsAt(s, n, i, s.recorded);
    }
    if s.inflight.Some? {
      var log := s.logs[s.logFileNumber];
      assert LastOf(log[|log| - 1]) <= last;
    }
  }

  lemma RecoverLogs(s: State, files: seq<File>, newLog: nat, next: Version, last: nat, nextFile: nat, s': State)
    requires Logs(s) && NextRecover(s, files, newLog, next, last, nextFile, s')
    ensures Logs(s') && LastRecorded(s')
  {
    EmptyLog(last, last);
    assert TableEntries(s'.mem) + InflightEntries(s') == {};
  }

  lemma RecoverViews(s: State, files: seq<File>, newLog: nat, next: Version, last: nat, nextFile: nat, s': State)
    requires NextRecover(s, files, newLog, next, last, nextFile, s')
    ensures MemoryView(s') == VersionEntries(next) && DiskView(s') == VersionEntries(next)
    ensures TableEntries(s'.mem) == {} && TableEntries(Frozen(s')) == {}
  {
  }

  lemma RecoverInv(s: State, files: seq<File>, newLog: nat, next: Version, last: nat, nextFile: nat, s': State)
    requires Inv(s) && NextRecover(s, files, newLog, next, last, nextFile, s')
    ensures Inv(s') && MemoryView(s') == DiskView(s') == DiskView(s) + InflightEntries(s)
  {
    RecoveredVersions(s, files, newLog, next, last, nextFile, s');
    RecoveredLastCovers(s, last);
    RecoverViews(s, files, newLog, next, last, nextFile, s');
    RecoverLogs(s, files, newLog, next, last, nextFile, s');
    if s.inflight.Some? {
      RecordRange(s.inflight.value);
    }
    HistoryGrows(s, s', InflightEntries(s));
    assert Layers(s');
  }

  /** Past the last entry, every snapshot reads alike. */
  lemma ReadFromTop(S: set<Entry>, top: nat, u: UserKey, s: SequenceNumber, t: SequenceNumber)
    requires Unambiguous(S) && Between(S, 0, top) && top <= s && top <= t
    ensures Read(S, u, s) == Read(S, u, t)
  {
    forall e ensures Newest(S, u, s, e) <==> Newest(S, u, t, e) {
    }
    NewestAtBoth(S, u, s, t);
  }

  lemma NewestAtBoth(S: set<Entry>, u: UserKey, s: SequenceNumber, t: SequenceNumber)
    requires Unambiguous(S) && forall e :: Newest(S, u, s, e) <==> Newest(S, u, t, e)
    ensures Read(S, u, s) == Read(S, u, t)
  {
    if e :| Newest(S, u, s, e) {
      ReadNewest(S, u, s, e);
      ReadNewest(S, u, t, e);
    }
  }

  /** So sets without entries past `top` that read alike from some number on do so from `top` on. */
  lemma SameReadsFromTop(A: set<Entry>, B: set<Entry>, top: nat, low: nat, floor: nat)
    requires SameReads(A, B, floor) && Unambiguous(A) && Unambiguous(B) && Between(A, 0, top) && Between(B, 0, top)
    requires low == Lower(floor, top) && floor <= MAX_SEQUENCE
    ensures SameReads(A, B, low)
  {
    forall u: UserKey, s: SequenceNumber | low <= s ensures Read(B, u, s) == Read(A, u, s) {
      if s < floor {
        ReadFromTop(A, top, u, s, floor);
        ReadFromTop(B, top, u, s, floor);
        assert Read(B, u, floor) == Read(A, u, floor);
      }
    }
  }

  lemma RecoverKeeps(s: State, files: seq<File>, newLog: nat, next: Version, last: nat, nextFile: nat, s': State)
    requires Inv(s) && NextRecover(s, files, newLog, next, last, nextFile, s')
    ensures Inv(s') && (Reads(s) ==> Reads(s'))
  {
    RecoverInv(s, files, newLog, next, last, nextFile, s');
    var N := InflightEntries(s);
    SubsetUnambiguous(s'.history, s'.history);
    SubsetUnambiguous(DiskView(s'), s'.history);
    if s.inflight.Some? {
      RecordRange(s.inflight.value);
    }
    if Reads(s) {
      NewWritesKeepSameReads(s.history, DiskView(s), N, s.lastSequence, s.floor);
      SameReadsFromTop(s'.history, DiskView(s'), s'.recorded, s'.floor, s.floor);
    }
  }

  lemma ShorterHolds(log: seq<LogRecord>, low: nat, high: nat, S: set<Entry>, r: LogRecord)
    requires GoodLog(log, low) && EndsWith(log, r) && LogEntries(log) == S + RecordEntries(r)
    requires r.sequence == high + 1 && forall e :: e in S ==> e.key.sequence <= high
    ensures LogHolds(Shorter(log), low, high, S)
  {
    var short := Shorter(log);
    forall e ensures e in LogEntries(short) <==> e in S {
      if e in LogEntries(short) {
        var i :| 0 <= i < |short| && e in RecordEntries(short[i]);
        assert LastOf(log[i]) < log[|log| - 1].sequence;
        LogEntriesAt(log, i, e);
      }
      if e in S {
        assert e in LogEntries(log);
        var i :| 0 <= i < |log| && e in RecordEntries(log[i]);
        assert short[i] == log[i];
      }
    }
    forall i | 0 <= i < |short| ensures LastOf(short[i]) <= high {
      assert LastOf(log[i]) < log[|log| - 1].sequence;
    }
  }

  lemma LoseLast(s: State)
    requires Logs(s) && LastRecorded(s) && s.inflight.Some?
    ensures LastRecorded(Unrecorded(s))
  {
    if s.manifest.lastSequence < s.recorded {
      var n, i :| EndsAt(s, n, i, s.recorded);
      assert EndsAt(Unrecorded(s), n, i, s.recorded);
    }
  }

  lemma LoseLogs(s: State)
    requires Layers(s) && Logs(s) && s.inflight.Some?
    ensures Logs(Unrecorded(s))
  {
    ShorterHolds(s.logs[s.logFileNumber], s.frozen, s.lastSequence, TableEntries(s.mem), s.inflight.value);
    assert TableEntries(s.mem) + InflightEntries(Unrecorded(s)) == TableEntries(s.mem);
  }

  /** Without the record in flight the store is as good, and reads the same. */
  lemma LoseKeeps(s: State)
    requires Inv(s) && s.inflight.Some?
    ensures Inv(Unrecorded(s)) && (Reads(s) ==> Reads(Unrecorded(s)))
    ensures DiskView(Unrecorded(s)) == DiskView(s)
  {
    LoseLast(s);
    LoseLogs(s);
    SameViews(s, Unrecorded(s));
  }

  // ----- Every run -----

  predicate ManifestStep(step: Step) {
    step.Flush? || step.Move? || step.Compact?
  }

  lemma FlushStepKeeps(s: State, step: Step, s': State)
    requires Inv(s) && Next(s, step, s') && step.Flush?
    ensures Inv(s') && (Reads(s) ==> Reads(s'))
  {
    FlushKeeps(s, step.level, step.file, step.next, s');
  }

  lemma MoveStepKeeps(s: State, step: Step, s': State)
    requires Inv(s) && Next(s, step, s') && step.Move?
    ensures Inv(s') && (Reads(s) ==> Reads(s'))
  {
    MoveKeeps(s, step.level, step.moved, step.next, s');
  }

  lemma CompactStepKeeps(s: State, step: Step, s': State)
    requires Inv(s) && Next(s, step, s') && step.Compact?
    ensures Inv(s') && (Reads(s) && Safe(s, step) ==> Reads(s'))
  {
    CompactKeeps(s, step.level, step.in0, step.in1, step.input, step.snapshot, step.outputs, step.next, s');
  }

  lemma ManifestStepKeeps(s: State, step: Step, s': State)
    requires Inv(s) && Next(s, step, s') && ManifestStep(step)
    ensures Inv(s')
    ensures Reads(s) && Safe(s, step) ==> Reads(s')
  {
    if step.Flush? {
      FlushStepKeeps(s, step, s');
    } else if step.Move? {
      MoveStepKeeps(s, step, s');
    } else {
      CompactStepKeeps(s, step, s');
    }
  }

  lemma MemoryStepKeeps(s: State, step: Step, s': State)
    requires Inv(s) && Next(s, step, s') && !ManifestStep(step)
    ensures Inv(s')
    ensures Reads(s) ==> Reads(s')
  {
    match step
    case Append(ops) => AppendKeeps(s, ops, s');
    case Apply => ApplyKeeps(s, s');
    case Skip(count) => SkipKeeps(s, count, s');
    case Lose => LoseKeeps(s);
    case Switch => SwitchKeeps(s, s');
    case Install => InstallKeeps(s, s');
    case TakeSnapshot => TakeSnapshotKeeps(s, s');
    case ReleaseSnapshot(at) => ReleaseSnapshotKeeps(s, at, s');
    case Clean(keep) => CleanKeeps(s, keep, s');
    case Recover(files, newLog, next, last, nextFile) => RecoverKeeps(s, files, newLog, next, last, nextFile, s');
  }

  /** Each step keeps the invariants, and each safe step keeps the promised reads. */
  lemma StepKeeps(s: State, step: Step, s': State)
    requires Inv(s) && Next(s, step, s')
    ensures Inv(s')
    ensures Reads(s) && Safe(s, step) ==> Reads(s')
  {
    if ManifestStep(step) {
      ManifestStepKeeps(s, step, s');
    } else {
      MemoryStepKeeps(s, step, s');
    }
  }

  lemma InitialViews(s: State)
    requires Initial(s)
    ensures VersionEntries(s.version) == {} && TableEntries(s.mem) == {} && TableEntries(Frozen(s)) == {}
    ensures MemoryView(s) == {} && DiskView(s) == {} && InflightEntries(s) == {}
  {
  }

  lemma EmptyVersion(v: Version, n: nat)
    requires forall i :: 0 <= i < NUM_LEVELS ==> v[i] == []
    ensures Installed(v) && NumbersBelow(v, n)
    ensures forall i, f :: 0 <= i < NUM_LEVELS ==> f !in v[i]
  {
    assert v[0] == [];
  }

  lemma InitialVersions(s: State)
    requires Initial(s)
    ensures Versions(s)
  {
    EmptyVersion(s.version, s.nextFile);
  }

  lemma InitialIsGood(s: State)
    requires Initial(s)
    ensures Inv(s) && Reads(s)
  {
    InitialViews(s);
    InitialVersions(s);
    EmptyLog(0, 0);
    assert Logs(s);
  }

  /** No step takes an acknowledged write back. */
  lemma HistoryOnlyGrows(s: State, step: Step, s': State)
    requires Next(s, step, s')
    ensures s.history <= s'.history
  {
    if step.Recover? {
      RecoveredHistory(s, step.files, step.newLog, step.next, step.last, step.nextFile, s');
    } else if step.Apply? {
      AppliedHistory(s, s');
    } else {
      assert s'.history == s.history;
    }
  }

  lemma AppliedHistory(s: State, s': State)
    requires NextApply(s, s')
    ensures s.history <= s'.history
  {
  }

  lemma RecoveredHistory(s: State, files: seq<File>, newLog: nat, next: Version, last: nat, nextFile: nat, s': State)
    requires NextRecover(s, files, newLog, next, last, nextFile, s')
    ensures s.history <= s'.history
  {
  }

  /** trace[0] is an empty store and each state follows from the one before by one step. */
  ghost predicate Run(trace: seq<State>, steps: seq<Step>) {
    && |trace| == |steps| + 1 && Initial(trace[0])
    && forall i :: 0 <= i < |steps| ==> Next(trace[i], steps[i], trace[i + 1])
  }

  ghost predicate SafeRun(trace: seq<State>, steps: seq<Step>)
    requires |trace| == |steps| + 1
  {
    forall i :: 0 <= i < |steps| ==> Safe(trace[i], steps[i])
  }

  lemma RunStepKeeps(trace: seq<State>, steps: seq<Step>, i: nat)
    requires Run(trace, steps) && i < |steps| && Inv(trace[i])
    ensures Inv(trace[i + 1])
    ensures SafeRun(trace, steps) && Reads(trace[i]) ==> Reads(trace[i + 1])
  {
    StepKeeps(trace[i], steps[i], trace[i + 1]);
    if SafeRun(trace, steps) {
      assert Safe(trace[i], steps[i]);
    }
  }

  /** Every reachable state keeps the structural invariants, and if no compaction resurfaced
      anything, every promised snapshot reads the acknowledged history, in memory and on disk. */
  lemma {:induction false} EveryRun(trace: seq<State>, steps: seq<Step>, n: nat)
    requires Run(trace, steps) && n < |trace|
    ensures Inv(trace[n])
    ensures SafeRun(trace, steps) ==> Reads(trace[n])
  {
    if n == 0 {
      InitialIsGood(trace[0]);
    } else {
      EveryRun(trace, steps, n - 1);
      RunStepKeeps(trace, steps, n - 1);
    }
  }

  // ----- What is lost when a compaction is not safe -----

  /** The code compacts for its oldest snapshot, or for the last sequence number; neither is below what
      an earlier compaction left promised. */
  ghost predicate ForPromised(s: State, step: Step) {
    step.Compact? ==> s.floor <= step.snapshot
  }

  lemma OldestIsPromised(s: State, step: Step)
    requires History(s)
    requires step.Compact? ==> step.snapshot == s.lastSequence || step.snapshot in s.snapshots
    ensures ForPromised(s, step)
  {
  }

  lemma SameReadsBack(H: set<Entry>, A: set<Entry>, B: set<Entry>, low: nat, floor: nat)
    requires SameReads(H, A, low) && SameReads(H, B, floor) && low <= floor
    ensures SameReads(A, B, floor)
  {
  }

  /** After an unsafe compaction, some promised read of what is on disk is wrong. */
  lemma UnsafeCompactionShows(s: State, level: nat, in0: seq<File>, in1: seq<File>, input: seq<Entry>, snapshot: SequenceNumber,
                              outputs: seq<File>, next: Version, s': State)
    requires Inv(s) && Reads(s) && s.floor <= snapshot && NextCompact(s, level, in0, in1, input, snapshot, outputs, next, s')
    requires Reads(s')
    ensures Safe(s, Compact(level, in0, in1, input, snapshot, outputs, next))
  {
    SubsetUnambiguous(MemoryView(s), s.history);
    CompactVersions(s, level, in0, in1, input, snapshot, outputs, next, s');
    DiskAfter(s, s');
    IdleViews(s);
    SameReadsBack(s.history, MemoryView(s), DiskView(s'), s.floor, snapshot);
  }

  /** So a step keeps the promised reads if and only if it is safe... */
  lemma ReadsKeptIffSafe(s: State, step: Step, s': State)
    requires Inv(s) && Reads(s) && Next(s, step, s') && ForPromised(s, step)
    ensures Reads(s') <==> Safe(s, step)
  {
    StepKeeps(s, step, s');
    if step.Compact? && Reads(s') {
      UnsafeCompactionShows(s, step.level, step.in0, step.in1, step.input, step.snapshot, step.outputs, step.next, s');
    }
  }

  /** ... and a run keeps them in all its states if and only if all its steps are. */
  lemma ReadsInRunIffSafe(trace: seq<State>, steps: seq<Step>)
    requires Run(trace, steps) && forall i :: 0 <= i < |steps| ==> ForPromised(trace[i], steps[i])
    ensures (forall n :: 0 <= n < |trace| ==> Reads(trace[n])) <==> SafeRun(trace, steps)
  {
    forall n | 0 <= n < |trace| ensures Inv(trace[n]) && (SafeRun(trace, steps) ==> Reads(trace[n])) {
      EveryRun(trace, steps, n);
    }
    if forall n :: 0 <= n < |trace| ==> Reads(trace[n]) {
      forall i | 0 <= i < |steps| ensures Safe(trace[i], steps[i]) {
        ReadsKeptIffSafe(trace[i], steps[i], trace[i + 1]);
      }
    }
  }

  /** After a crash in any reachable state, the recovered store reads, at its last sequence number
      and at every promised one, exactly the acknowledged writes plus at most the group in flight. */
  lemma CrashLosesNothing(trace: seq<State>, steps: seq<Step>, n: nat, files: seq<File>, newLog: nat, next: Version, last: nat, nextFile: nat, s': State,
                          u: UserKey, q: SequenceNumber)
    requires Run(trace, steps) && SafeRun(trace, steps) && n < |trace|
    requires NextRecover(trace[n], files, newLog, next, last, nextFile, s')
    requires s'.floor <= q
    ensures Inv(trace[n]) && trace[n].recorded <= s'.lastSequence
    ensures Read(MemoryView(s'), u, q) == Read(trace[n].history + InflightEntries(trace[n]), u, q)
    ensures forall e :: e in trace[n].history + InflightEntries(trace[n]) ==> e.key.sequence <= s'.lastSequence
  {
    EveryRun(trace, steps, n);
    RecoverKeeps(trace[n], files, newLog, next, last, nextFile, s');
    RecoveredLastCovers(trace[n], last);
  }

  // ----- Runs in which every compaction is sealed -----

  /** A compaction is sealed when no file left on the next level starts with the user key an input of
      that level ends with: a condition on the key ranges of files, which the code could check. */
  ghost predicate SealedStep(s: State, step: Step) {
    step.Compact? ==> step.level + 1 < NUM_LEVELS && ParentsSealed(s.version[step.level + 1], step.in1)
  }

  ghost predicate SealedRun(trace: seq<State>, steps: seq<Step>)
    requires |trace| == |steps| + 1
  {
    forall i :: 0 <= i < |steps| ==> SealedStep(trace[i], steps[i])
  }

  lemma MemtablesAreNewer(s: State)
    requires Layers(s)
    ensures NewerThanFiles(Memtables(s), s.version)
  {
  }

  lemma SealedStepIsSafe(s: State, step: Step, s': State)
    requires Inv(s) && Next(s, step, s') && SealedStep(s, step)
    ensures Safe(s, step)
  {
    if step.Compact? {
      MemtablesAreNewer(s);
      SealedCompactionIsSafe(s, step, s');
    }
  }

  lemma SealedCompactionIsSafe(s: State, step: Step, s': State)
    requires Versions(s) && Next(s, step, s') && step.Compact? && NewerThanFiles(Memtables(s), s.version)
    requires step.level + 1 < NUM_LEVELS && ParentsSealed(s.version[step.level + 1], step.in1)
    ensures Safe(s, step)
  {
    SealedParentsAreSafe(s.version, step.level, step.in0, step.in1, step.input, step.snapshot, Memtables(s));
  }

  /** A compaction is safe if and only if no boundary file it leaves on the next level shows a value
      below a deletion that it drops. */
  lemma SafeIffBoundariesShowNothing(s: State, step: Step, s': State)
    requires Inv(s) && Next(s, step, s') && step.Compact?
    ensures step.level + 1 < NUM_LEVELS
    ensures Safe(s, step) <==>
      BoundariesShowNothing(s.version, step.level, step.in0, step.in1, step.input, step.snapshot, Memtables(s))
  {
    MemtablesAreNewer(s);
    SubsetUnambiguous(MemoryView(s), s.history);
    ResurfacingIsInBoundaries(s.version, step.level, step.in0, step.in1, step.input, step.snapshot, Memtables(s));
  }

  ghost predicate BoundaryStep(s: State, step: Step) {
    step.Compact? && step.level + 1 < NUM_LEVELS ==>
      BoundariesShowNothing(s.version, step.level, step.in0, step.in1, step.input, step.snapshot, Memtables(s))
  }

  /** Every promised read is right in every state of a run if and only if no compaction of the run
      leaves a boundary file on the next level that shows a value below a deletion it drops. */
  lemma ReadsInRunIffBoundariesShowNothing(trace: seq<State>, steps: seq<Step>)
    requires Run(trace, steps) && forall i :: 0 <= i < |steps| ==> ForPromised(trace[i], steps[i])
    ensures (forall n :: 0 <= n < |trace| ==> Reads(trace[n])) <==> forall i :: 0 <= i < |steps| ==> BoundaryStep(trace[i], steps[i])
  {
    ReadsInRunIffSafe(trace, steps);
    forall i | 0 <= i < |steps| ensures Safe(trace[i], steps[i]) <==> BoundaryStep(trace[i], steps[i]) {
      EveryRun(trace, steps, i);
      if steps[i].Compact? {
        SafeIffBoundariesShowNothing(trace[i], steps[i], trace[i + 1]);
      }
    }
  }

  lemma SealedRunIsSafe(trace: seq<State>, steps: seq<Step>)
    requires Run(trace, steps) && SealedRun(trace, steps)
    ensures SafeRun(trace, steps)
  {
    forall i | 0 <= i < |steps| ensures Safe(trace[i], steps[i]) {
      EveryRun(trace, steps, i);
      SealedStepIsSafe(trace[i], steps[i], trace[i + 1]);
    }
  }

  /** If every compaction of a run is sealed, then at every moment each promised snapshot reads the
      acknowledged history, in memory and on disk, and a crash loses none of it. */
  lemma SealedRunsKeepHistory(trace: seq<State>, steps: seq<Step>, n: nat)
    requires Run(trace, steps) && SealedRun(trace, steps) && n < |trace|
    ensures Inv(trace[n]) && Reads(trace[n])
  {
    SealedRunIsSafe(trace, steps);
    EveryRun(trace, steps, n);
  }

  lemma SealedCrashLosesNothing(trace: seq<State>, steps: seq<Step>, n: nat, files: seq<File>, newLog: nat, next: Version, last: nat, nextFile: nat,
                                s': State, u: UserKey, q: SequenceNumber)
    requires Run(trace, steps) && SealedRun(trace, steps) && n < |trace|
    requires NextRecover(trace[n], files, newLog, next, last, nextFile, s')
    requires s'.floor <= q
    ensures trace[n].recorded <= s'.lastSequence
    ensures Read(MemoryView(s'), u, q) == Read(trace[n].history + InflightEntries(trace[n]), u, q)
  {
    SealedRunIsSafe(trace, steps);
    CrashLosesNothing(trace, steps, n, files, newLog, next, last, nextFile, s', u, q);
  }
}
