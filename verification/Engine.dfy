/** The store as a state machine: writes, memtable switch, flush, move, compaction, install, clean-up,
    crash and recovery (db/db_impl.cc, db/version_set.cc). */
module Engine {
  import opened InternalKeys
  import opened VersionSearch
  import opened CompactionInputs
  import opened CompactionWork
  import opened VersionBuilder
  import opened VersionEdits
  import opened SortedRuns
  import opened CompactionReads

  // ----- Log records -----

  datatype Op = Op(user: UserKey, typ: ValueType, value: Bytes)

  /** A write group as the log holds it: operation i has sequence number `sequence + i`. */
  datatype LogRecord = LogRecord(sequence: nat, ops: seq<Op>)

  predicate Fits(r: LogRecord) {
    0 < r.sequence && r.sequence + |r.ops| <= MAX_SEQUENCE
  }

  function LastOf(r: LogRecord): int {
    r.sequence + |r.ops| - 1
  }

  function EntryAt(r: LogRecord, i: nat): Entry
    requires Fits(r) && i < |r.ops|
  {
    Entry(InternalKey(r.ops[i].user, r.sequence + i, r.ops[i].typ), r.ops[i].value)
  }

  ghost function RecordEntries(r: LogRecord): set<Entry>
    requires Fits(r)
  {
    set i | 0 <= i < |r.ops| :: EntryAt(r, i)
  }

  /** The records of one log: valid, and with ascending, separate sequence ranges above `low`. */
  ghost predicate GoodLog(log: seq<LogRecord>, low: nat) {
    && (forall i :: 0 <= i < |log| ==> Fits(log[i]) && low < log[i].sequence)
    && (forall i, j :: 0 <= i < j < |log| ==> LastOf(log[i]) < log[j].sequence)
  }

  ghost function LogEntries(log: seq<LogRecord>): set<Entry>
    requires forall i :: 0 <= i < |log| ==> Fits(log[i])
  {
    set i, e | 0 <= i < |log| && e in RecordEntries(log[i]) :: e
  }

  // ----- State -----

  datatype Manifest = Manifest(version: Version, logNumber: nat, lastSequence: nat, nextFile: nat)

  datatype Install = Idle | InstallFlush | InstallFiles

  datatype State = State(
    // memory
    mem: seq<Entry>,
    imm: Option<seq<Entry>>,
    version: Version,
    lastSequence: nat,
    snapshots: multiset<SequenceNumber>,
    nextFile: nat,
    logFileNumber: nat,
    inflight: Option<LogRecord>,
    install: Install,
    // disk
    logs: map<nat, seq<LogRecord>>,
    tables: set<nat>,
    manifest: Manifest,
    // specification: the acknowledged writes, and the last sequence number they reach; the oldest
    // snapshot still promised; the last sequence number in the version, and in the immutable memtable;
    // the log of the immutable memtable
    history: set<Entry>,
    recorded: nat,
    floor: nat,
    flushed: nat,
    frozen: nat,
    immLog: nat)

  function Frozen(s: State): seq<Entry> {
    if s.imm.Some? then s.imm.value else []
  }

  ghost function Memtables(s: State): set<Entry> {
    TableEntries(s.mem) + TableEntries(Frozen(s))
  }

  /** What a reader of memory sees. */
  ghost function MemoryView(s: State): set<Entry> {
    Memtables(s) + VersionEntries(s.version)
  }

  /** The frozen memtable's log still counts for recovery. */
  predicate FrozenLogLive(s: State) {
    s.imm.Some? && s.install != InstallFlush
  }

  /** What recovery would find, leaving out a group that is not acknowledged. */
  ghost function DiskView(s: State): set<Entry> {
    TableEntries(s.mem) + (if FrozenLogLive(s) then TableEntries(Frozen(s)) else {}) + VersionEntries(s.manifest.version)
  }

  ghost function InflightEntries(s: State): set<Entry>
    requires s.inflight.Some? ==> Fits(s.inflight.value)
  {
    if s.inflight.Some? then RecordEntries(s.inflight.value) else {}
  }

  // ----- Invariants -----

  ghost predicate Between(S: set<Entry>, low: nat, high: nat) {
    forall e :: e in S ==> low < e.key.sequence <= high
  }

  /** Every sequence number was given to one write. */
  ghost predicate UniqueSequences(S: set<Entry>) {
    forall a, b :: a in S && b in S && a.key.sequence == b.key.sequence ==> a == b
  }

  /** The layers hold separate, ascending ranges of sequence numbers. */
  ghost predicate Layers(s: State) {
    && Sorted(s.mem) && Sorted(Frozen(s))
    && s.flushed <= s.frozen <= s.lastSequence < MAX_SEQUENCE
    && (s.imm.None? ==> s.flushed == s.frozen)
    && Between(TableEntries(s.mem), s.frozen, s.lastSequence)
    && Between(TableEntries(Frozen(s)), s.flushed, s.frozen)
    && Between(VersionEntries(s.version), 0, s.flushed)
  }

  ghost predicate Versions(s: State) {
    && Installed(s.version) && Installed(s.manifest.version)
    && NumbersBelow(s.version, s.nextFile) && NumbersBelow(s.manifest.version, s.manifest.nextFile)
    && s.manifest.nextFile <= s.nextFile
    && (forall i, f :: 0 <= i < NUM_LEVELS && f in s.manifest.version[i] ==> f.number in s.tables)
    && (forall i, f :: 0 <= i < NUM_LEVELS && f in s.version[i] ==> f.number in s.tables)
    && match s.install
       case Idle => s.manifest.version == s.version
       case InstallFlush => s.imm.Some? && VersionEntries(s.manifest.version) == VersionEntries(s.version) + TableEntries(Frozen(s))
       case InstallFiles => VersionEntries(s.manifest.version) <= VersionEntries(s.version)
  }

  /** A log holds exactly the entries S, above `low` and, but for what is in flight, up to `high`. */
  ghost predicate LogHolds(log: seq<LogRecord>, low: nat, high: nat, S: set<Entry>) {
    && GoodLog(log, low) && LogEntries(log) == S
    && forall i :: 0 <= i < |log| ==> LastOf(log[i]) <= high
  }

  function InflightCount(s: State): nat {
    if s.inflight.Some? then |s.inflight.value.ops| else 0
  }

  predicate LiveLog(s: State, n: nat) {
    n == s.logFileNumber || (FrozenLogLive(s) && n == s.immLog)
  }

  predicate EndsWith(log: seq<LogRecord>, r: LogRecord) {
    log != [] && log[|log| - 1] == r
  }

  /** The live logs hold the memtables, and the group in flight. */
  ghost predicate Logs(s: State) {
    && s.logFileNumber in s.logs && s.logFileNumber < s.nextFile
    && (forall n :: n in s.logs ==> 0 < n <= s.logFileNumber)
    && s.manifest.logNumber == (if FrozenLogLive(s) then s.immLog else s.logFileNumber)
    && (forall n :: n in s.logs && s.manifest.logNumber <= n ==> LiveLog(s, n))
    && (s.inflight.Some? ==> Fits(s.inflight.value) && s.inflight.value.sequence == s.lastSequence + 1)
    && (s.inflight.Some? ==> EndsWith(s.logs[s.logFileNumber], s.inflight.value))
    && LogHolds(s.logs[s.logFileNumber], s.frozen, s.lastSequence + InflightCount(s), TableEntries(s.mem) + InflightEntries(s))
    && (FrozenLogLive(s) ==>
          && s.immLog in s.logs && s.immLog < s.logFileNumber
          && LogHolds(s.logs[s.immLog], s.flushed, s.frozen, TableEntries(Frozen(s))))
  }

  ghost predicate EndsAt(s: State, n: nat, i: int, last: nat) {
    n in s.logs && LiveLog(s, n) && 0 <= i < |s.logs[n]| && s.logs[n][i].ops != [] && LastOf(s.logs[n][i]) == last
  }

  /** The last acknowledged sequence number is not past the manifest's, or ends a record of a live log. */
  ghost predicate LastRecorded(s: State) {
    && s.manifest.lastSequence <= s.lastSequence && s.recorded <= s.lastSequence
    && (s.recorded <= s.manifest.lastSequence || exists n, i :: EndsAt(s, n, i, s.recorded))
  }

  ghost predicate History(s: State) {
    && UniqueSequences(s.history) && Between(s.history, 0, s.recorded) && s.recorded <= s.lastSequence
    && MemoryView(s) <= s.history && DiskView(s) <= s.history
    && s.floor <= s.lastSequence
    && forall x :: x in s.snapshots ==> s.floor <= x <= s.lastSequence
  }

  ghost predicate Inv(s: State) {
    Layers(s) && Versions(s) && Logs(s) && LastRecorded(s) && History(s)
  }

  /** Every promised snapshot reads the acknowledged history, from memory and from disk alike. */
  ghost predicate Reads(s: State) {
    SameReads(s.history, MemoryView(s), s.floor) && SameReads(s.history, DiskView(s), s.floor)
  }

  ghost predicate Initial(s: State) {
    && s.mem == [] && s.imm == None && s.inflight == None && s.install == Idle
    && (forall i :: 0 <= i < NUM_LEVELS ==> s.version[i] == [])
    && s.lastSequence == 0 && s.snapshots == multiset{} && s.history == {} && s.recorded == 0 && s.floor == 0 && s.flushed == 0 && s.frozen == 0
    && s.logs == map[s.logFileNumber := []] && 0 < s.logFileNumber < s.nextFile
    && s.manifest == Manifest(s.version, s.logFileNumber, 0, s.nextFile)
  }

  // ----- Steps -----

  datatype Step =
    | Append(ops: seq<Op>)
    | Apply
    | Skip(count: nat)
    | Lose
    | Switch
    | Flush(level: nat, file: Option<File>, next: Version)
    | Move(level: nat, moved: File, next: Version)
    | Compact(level: nat, in0: seq<File>, in1: seq<File>, input: seq<Entry>, snapshot: SequenceNumber, outputs: seq<File>, next: Version)
    | Install
    | TakeSnapshot
    | ReleaseSnapshot(at: SequenceNumber)
    | Clean(keep: set<nat>)
    | Recover(files: seq<File>, newLog: nat, next: Version, last: nat, nextFile: nat)

  /** DBImpl::Write: the group's record goes to the log first. */
  ghost predicate NextAppend(s: State, ops: seq<Op>, s': State) {
    var r := LogRecord(s.lastSequence + 1, ops);
    && s.inflight.None? && Fits(r)
    && s.logFileNumber in s.logs
    && s' == s.(logs := s.logs[s.logFileNumber := s.logs[s.logFileNumber] + [r]], inflight := Some(r))
  }

  /** The last acknowledged number once the group in flight is applied; a group may be empty. */
  function RecordedAfter(s: State): nat {
    if InflightCount(s) == 0 then s.recorded else s.lastSequence + InflightCount(s)
  }

  function Shorter(log: seq<LogRecord>): seq<LogRecord> {
    if log == [] then [] else log[..|log| - 1]
  }

  /** The store without its record in flight: the crash came before all of it was in the file. */
  function Unrecorded(s: State): State
    requires s.logFileNumber in s.logs
  {
    s.(inflight := None, logs := s.logs[s.logFileNumber := Shorter(s.logs[s.logFileNumber])])
  }

  /** A crash came before all of the record was in the file. */
  ghost predicate NextLose(s: State, s': State) {
    s.inflight.Some? && s.logFileNumber in s.logs && s' == Unrecorded(s)
  }

  /** ... then to the memtable, and only then does LastSequence move, by the whole group. */
  ghost predicate NextApply(s: State, s': State) {
    && s.inflight.Some? && Fits(s.inflight.value)
    && Sorted(s'.mem) && TableEntries(s'.mem) == TableEntries(s.mem) + RecordEntries(s.inflight.value)
    && s' == s.(mem := s'.mem, inflight := None, lastSequence := s.lastSequence + InflightCount(s),
                history := s.history + RecordEntries(s.inflight.value), recorded := RecordedAfter(s))
  }

  /** A group whose log write failed, leaving no record: nothing is stored, but LastSequence moves. */
  ghost predicate NextSkip(s: State, count: nat, s': State) {
    && s.inflight.None? && s.lastSequence + count < MAX_SEQUENCE
    && s' == s.(lastSequence := s.lastSequence + count)
  }

  /** MakeRoomForWrite: a fresh log, and the memtable becomes immutable. */
  ghost predicate NextSwitch(s: State, s': State) {
    && s.inflight.None? && s.imm.None?
    && s' == s.(mem := [], imm := Some(s.mem), logFileNumber := s.nextFile, nextFile := s.nextFile + 1,
                logs := s.logs[s.nextFile := []], immLog := s.logFileNumber, frozen := s.lastSequence)
  }

  /** The memtable t becomes one file of an allowed level; an empty one leaves the version as it is. */
  ghost predicate Flushes(v: Version, t: seq<Entry>, number: nat, level: nat, file: Option<File>, next: Version) {
    if t == [] then file == None && next == v
    else
      && file.Some? && ValidFile(file.value) && file.value.table == t && file.value.number == number
      && FlushLevelAllowed(v, level, file.value) && Edited(v, FlushEdit(level, file.value), next)
  }

  /** CompactMemTable up to the manifest write: the new log number makes the frozen log obsolete. */
  ghost predicate NextFlush(s: State, level: nat, file: Option<File>, next: Version, s': State) {
    && s.install == Idle && s.imm.Some? && Flushes(s.version, s.imm.value, s.nextFile, level, file, next)
    && s' == s.(install := InstallFlush, nextFile := s.nextFile + 1,
                tables := s.tables + if file.Some? then {s.nextFile} else {},
                manifest := Manifest(next, s.logFileNumber, s.lastSequence, s.nextFile + 1))
  }

  ghost predicate NextMove(s: State, level: nat, file: File, next: Version, s': State) {
    && s.install == Idle
    && Planned(s.version, level, [file], [])
    && Edited(s.version, ReplaceEdit(level, [file], [], [file]), next)
    && s' == s.(install := InstallFiles, manifest := Manifest(next, s.manifest.logNumber, s.lastSequence, s.nextFile))
  }

  /** The snapshot may be no newer than any reader's. */
  ghost predicate AllowedSnapshot(s: State, snapshot: SequenceNumber) {
    snapshot <= s.lastSequence && forall x :: x in s.snapshots ==> snapshot <= x
  }

  function Numbers(fs: seq<File>): set<nat> {
    set f | f in fs :: f.number
  }

  ghost predicate NextCompact(s: State, level: nat, in0: seq<File>, in1: seq<File>, input: seq<Entry>, snapshot: SequenceNumber,
                              outputs: seq<File>, next: Version, s': State) {
    && s.install == Idle && AllowedSnapshot(s, snapshot)
    && Planned(s.version, level, in0, in1)
    && CompactionOutputs(s.version, level, in0, in1, input, snapshot, outputs)
    && ConsecutiveNumbers(outputs, s.nextFile)
    && Edited(s.version, ReplaceEdit(level, in0, in1, outputs), next)
    && s' == s.(install := InstallFiles, nextFile := s.nextFile + |outputs|, tables := s.tables + Numbers(outputs),
                manifest := Manifest(next, s.manifest.logNumber, s.lastSequence, s.nextFile + |outputs|),
                floor := if s.floor < snapshot then snapshot else s.floor)
  }

  /** The new version becomes current; after a flush the immutable memtable goes. */
  ghost predicate NextInstall(s: State, s': State) {
    && s.install != Idle
    && s' == s.(install := Idle, version := s.manifest.version,
                imm := if s.install == InstallFlush then None else s.imm,
                flushed := if s.install == InstallFlush then s.frozen else s.flushed)
  }

  ghost predicate NextTakeSnapshot(s: State, s': State) {
    s.lastSequence <= MAX_SEQUENCE && s' == s.(snapshots := s.snapshots + multiset{s.lastSequence})
  }

  ghost predicate NextReleaseSnapshot(s: State, at: SequenceNumber, s': State) {
    at in s.snapshots && s' == s.(snapshots := s.snapshots - multiset{at})
  }

  ghost predicate LiveTables(s: State, keep: set<nat>) {
    forall i, f :: 0 <= i < NUM_LEVELS && f in s.version[i] ==> f.number in keep
  }

  /** DeleteObsoleteFiles: logs below LogNumber, and tables no version needs. */
  ghost predicate NextClean(s: State, keep: set<nat>, s': State) {
    && s.install == Idle && LiveTables(s, keep)
    && s' == s.(logs := map n | n in s.logs && s.manifest.logNumber <= n :: s.logs[n], tables := s.tables * keep)
  }

  /** The entries of the logs numbered at least the manifest's log number. */
  ghost function ReplayedEntries(s: State): set<Entry> {
    set n, i, e | n in s.logs && s.manifest.logNumber <= n && 0 <= i < |s.logs[n]| && Fits(s.logs[n][i]) && e in RecordEntries(s.logs[n][i]) :: e
  }

  /** The tables recovery writes: in replay order, so ascending in number and in sequence. */
  ghost predicate ReplayTables(files: seq<File>, S: set<Entry>, first: nat, beyond: nat) {
    && ValidFiles(files) && FileEntries(files) == S
    && (forall i :: 0 <= i < |files| ==> first <= files[i].number < beyond)
    && (forall i, j :: 0 <= i < j < |files| ==> files[i].number < files[j].number && NewerThan(files[j].table, files[i].table))
  }

  function AddAtZero(files: seq<File>): VersionEdit {
    VersionEdit({}, seq(|files|, i requires 0 <= i < |files| => (0, files[i])))
  }

  /** The greatest sequence number in the manifest and in the replayed records. */
  ghost predicate RecoveredLast(s: State, last: nat) {
    && last < MAX_SEQUENCE && s.manifest.lastSequence <= last
    && (forall n, i :: n in s.logs && s.manifest.logNumber <= n && 0 <= i < |s.logs[n]| ==> LastOf(s.logs[n][i]) <= last)
    && (last == s.manifest.lastSequence
        || exists n, i :: n in s.logs && s.manifest.logNumber <= n && 0 <= i < |s.logs[n]| && LastOf(s.logs[n][i]) == last)
  }

  /** Every table the manifest names is still on disk; recovery refuses to go on otherwise. */
  ghost predicate NothingMissing(s: State) {
    forall i, f :: 0 <= i < NUM_LEVELS && f in s.manifest.version[i] ==> f.number in s.tables
  }

  function Lower(a: nat, b: nat): nat {
    if a < b then a else b
  }

  /** A crash loses memory; opening the store again replays the live logs into level 0.  Numbers that
      only failed writes took may be given out again. */
  ghost predicate NextRecover(s: State, files: seq<File>, newLog: nat, next: Version, last: nat, nextFile: nat, s': State) {
    && NothingMissing(s)
    && (s.inflight.Some? ==> Fits(s.inflight.value))
    && ReplayTables(files, ReplayedEntries(s), s.manifest.nextFile, nextFile)
    && RecoveredLast(s, last)
    && (forall n :: n in s.logs ==> n < newLog) && s.manifest.nextFile <= newLog < nextFile
    && Edited(s.manifest.version, AddAtZero(files), next)
    && s' == State([], None, next, last, multiset{}, nextFile, newLog, None, Idle,
                   s.logs[newLog := []], s.tables + Numbers(files), Manifest(next, newLog, last, nextFile),
                   s.history + InflightEntries(s), last, Lower(s.floor, last), last, last, s.immLog)
  }

  ghost predicate Next(s: State, step: Step, s': State) {
    match step
    case Append(ops) => NextAppend(s, ops, s')
    case Apply => NextApply(s, s')
    case Skip(count) => NextSkip(s, count, s')
    case Lose => NextLose(s, s')
    case Switch => NextSwitch(s, s')
    case Flush(level, file, next) => NextFlush(s, level, file, next, s')
    case Move(level, file, next) => NextMove(s, level, file, next, s')
    case Compact(level, in0, in1, input, snapshot, outputs, next) => NextCompact(s, level, in0, in1, input, snapshot, outputs, next, s')
    case Install => NextInstall(s, s')
    case TakeSnapshot => NextTakeSnapshot(s, s')
    case ReleaseSnapshot(at) => NextReleaseSnapshot(s, at, s')
    case Clean(keep) => NextClean(s, keep, s')
    case Recover(files, newLog, next, last, nextFile) => NextRecover(s, files, newLog, next, last, nextFile, s')
  }

  /** The only step that can change an answer: a compaction below which something resurfaces. */
  ghost predicate Safe(s: State, step: Step) {
    step.Compact? ==>
      NothingResurfaces(Rest(s.version, step.level, step.in0, step.in1, Memtables(s)),
                        step.input, step.snapshot, s.version, step.level)
  }
}
