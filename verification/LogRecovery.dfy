/** From the bytes of the log files, cut off by a crash, to the recovered store (db/db_impl.cc,
    db/log_reader.cc, db/write_batch.cc). */
module LogRecovery {
  import opened InternalKeys
  import opened Coding
  import opened VersionSearch
  import opened VersionBuilder
  import opened VersionEdits
  import opened CompactionReads
  import opened WriteBatch
  import opened Engine
  import opened EngineProofs
  import Group = GroupRefinement
  import LogReader
  import LogProofs
  import Recovery
  import Db = DbImpl
  import Manifests = ManifestRuns
  import Records = EditCodec
  import opened VersionSets

  // ----- What the log files hold -----

  /** The engine's record for the bytes of a batch. */
  function RecordFor(b: Batch): LogRecord {
    LogRecord(b.sequence, Group.OpsFor(b.ops))
  }

  ghost predicate HoldsAt(batches: seq<Batch>, log: seq<LogRecord>, i: nat)
    requires i < |batches| && i < |log|
  {
    SmallBatch(batches[i]) && log[i] == RecordFor(batches[i])
  }

  ghost predicate Holds(batches: seq<Batch>, log: seq<LogRecord>) {
    |batches| == |log| && forall i: nat :: i < |log| ==> HoldsAt(batches, log, i)
  }

  ghost predicate AllSmall(batches: seq<Batch>) {
    forall i :: 0 <= i < |batches| ==> SmallBatch(batches[i])
  }

  /** The records of a log, as bytes. */
  ghost function Encoded(batches: seq<Batch>): (r: seq<Bytes>)
    requires AllSmall(batches)
    ensures |r| == |batches| && forall i :: 0 <= i < |r| ==> r[i] == Contents(batches[i])
  {
    seq(|batches|, i requires 0 <= i < |batches| => Contents(batches[i]))
  }

  /** The file is what the writer wrote, cut off anywhere after the first `kept` records. */
  ghost predicate CutLog(crc: Crc, file: Bytes, batches: seq<Batch>, kept: nat) {
    && AllSmall(batches) && kept <= |batches|
    && file <= LogProofs.Log(crc, 0, Encoded(batches))
    && |LogProofs.Log(crc, 0, Encoded(batches)[..kept])| <= |file|
  }

  /** How many records of log n are acknowledged: all but the one in flight. */
  ghost function Kept(s: State, n: nat): nat
    requires Logs(s) && n in s.logs
  {
    if s.inflight.Some? && n == s.logFileNumber then |s.logs[n]| - 1 else |s.logs[n]|
  }

  ghost predicate LogOnDisk(s: State, crc: Crc, n: nat, file: Bytes, batches: seq<Batch>)
    requires Logs(s) && n in s.logs
  {
    Holds(batches, s.logs[n]) && CutLog(crc, file, batches, Kept(s, n))
  }

  /** The files of the live logs hold every acknowledged record, and of the record in flight whatever
      part of it reached the disk. */
  ghost predicate OnDisk(s: State, crc: Crc, files: map<nat, Bytes>, batches: map<nat, seq<Batch>>)
    requires Logs(s)
  {
    && (forall n :: n in files && (s.manifest.logNumber <= n || n == 0) ==> n in s.logs)
    && (forall n :: n in s.logs && s.manifest.logNumber <= n ==> n in files && n in batches && LogOnDisk(s, crc, n, files[n], batches[n]))
  }

  // ----- Reading one file -----

  lemma {:induction false} CompleteAtLeast(crc: Crc, p: nat, records: seq<Bytes>, k: nat, n: nat)
    requires k <= |records| && p + |LogProofs.Log(crc, p, records[..k])| <= n
    ensures k <= LogProofs.Complete(p, records, n)
    decreases k
  {
    if k > 0 {
      var q := LogProofs.RecordEnd(p, records[0], true);
      assert records[..k][0] == records[0] && records[..k][1..] == records[1..][..k - 1];
      LogProofs.RecordLength(crc, p, records[0]);
      CompleteAtLeast(crc, q, records[1..], k - 1, n);
    }
  }

  /** Reading a log cut off by a crash gives the acknowledged records, and after them what else is whole. */
  lemma CutLogReads(check: LogReader.Check, crc: Crc, file: Bytes, batches: seq<Batch>, kept: nat) returns (c: nat)
    requires LogProofs.Checks(check, crc) && CutLog(crc, file, batches, kept)
    ensures kept <= c <= |batches| && LogProofs.ReadAll(check, file, 0) == LogProofs.Session(Encoded(batches)[..c], [])
  {
    var records := Encoded(batches);
    assert file == LogProofs.Log(crc, 0, records)[..|file|];
    LogProofs.TruncatedLog(check, crc, records, |file|);
    c := LogProofs.Complete(0, records, |file|);
    CompleteAtLeast(crc, 0, records, kept, |file|);
  }

  /** The records from i on, behind those already read; none if one of them is not a batch. */
  function RecordsFrom(records: seq<Bytes>, i: nat, log: seq<LogRecord>): Option<seq<LogRecord>>
    requires i <= |records|
    decreases |records| - i
  {
    if i == |records| then Some(log)
    else match DecodeContents(records[i])
         case None => None
         case Some(b) => RecordsFrom(records, i + 1, log + [RecordFor(b)])
  }

  ghost predicate DecodesAt(records: seq<Bytes>, log: seq<LogRecord>, i: nat)
    requires i < |records| && i < |log|
  {
    DecodeContents(records[i]).Some? && RecordFor(DecodeContents(records[i]).value) == log[i]
  }

  lemma EncodedDecodes(batches: seq<Batch>, log: seq<LogRecord>, records: seq<Bytes>, i: nat)
    requires i < |log| && |batches| == |log| && HoldsAt(batches, log, i) && i < |records| && records[i] == Contents(batches[i])
    ensures DecodesAt(records, log, i)
  {
    ContentsRoundTrip(batches[i]);
  }

  lemma {:induction false} DecodesRecords(records: seq<Bytes>, log: seq<LogRecord>, i: nat)
    requires i <= |records| <= |log| && forall k: nat :: k < |records| ==> DecodesAt(records, log, k)
    ensures RecordsFrom(records, i, log[..i]) == Some(log[..|records|])
    decreases |records| - i
  {
    if i < |records| {
      assert DecodesAt(records, log, i);
      assert log[..i + 1] == log[..i] + [log[i]];
      DecodesRecords(records, log, i + 1);
    }
  }

  /** One record: SetContents, then Iterate. */
  method DecodeRecord(record: Bytes) returns (b: Option<Batch>)
    ensures b == DecodeContents(record)
  {
    var batch := new WriteBatch();
    batch.SetContents(record);
    var ops, status := batch.Iterate();
    b := if status == Ok then Some(Batch(batch.Sequence(), ops)) else None;
  }

  function LogIn(check: LogReader.Check, file: Bytes): Option<seq<LogRecord>> {
    var all := LogProofs.ReadAll(check, file, 0);
    if all.reports == [] then RecordsFrom(all.records, 0, []) else None
  }

  /** RecoverLogFile's reading: the records of the file, unless the reader reports something or a record
      is not a batch. */
  method ReadLogFile(check: LogReader.Check, file: Bytes) returns (log: Option<seq<LogRecord>>)
    ensures log == LogIn(check, file)
  {
    var records, clean := LogProofs.ReadLog(check, file);
    if !clean {
      return None;
    }
    log := DecodeLog(records);
  }

  method DecodeLog(records: seq<Bytes>) returns (log: Option<seq<LogRecord>>)
    ensures log == RecordsFrom(records, 0, [])
  {
    var done: seq<LogRecord> := [];
    for i := 0 to |records|
      invariant RecordsFrom(records, i, done) == RecordsFrom(records, 0, [])
    {
      var b := DecodeRecord(records[i]);
      if b.None? {
        return None;
      }
      done := done + [RecordFor(b.value)];
    }
    log := Some(done);
  }

  // ----- The state a crash leaves -----

  /** The live logs alone. */
  function Live(s: State): State {
    s.(logs := map n | n in s.logs && s.manifest.logNumber <= n :: s.logs[n])
  }

  lemma LiveStands(s: State)
    requires Logs(s) && LastRecorded(s)
    ensures Logs(Live(s)) && LastRecorded(Live(s)) && ReplayedEntries(Live(s)) == ReplayedEntries(s)
    ensures forall last :: RecoveredLast(Live(s), last) ==> RecoveredLast(s, last)
  {
    LastRecordedStays(s, Live(s));
    ReplayedMeaning(s);
    ReplayedMeaning(Live(s));
    forall last | RecoveredLast(Live(s), last) ensures RecoveredLast(s, last) {
      LiveLast(s, last);
    }
  }

  lemma LiveLast(s: State, last: nat)
    requires RecoveredLast(Live(s), last)
    ensures RecoveredLast(s, last)
  {
    var t := Live(s);
    forall n, i | n in s.logs && s.manifest.logNumber <= n && 0 <= i < |s.logs[n]| ensures LastOf(s.logs[n][i]) <= last {
      assert n in t.logs && t.logs[n] == s.logs[n];
    }
    if last != s.manifest.lastSequence {
      var n, i :| n in t.logs && t.manifest.logNumber <= n && 0 <= i < |t.logs[n]| && LastOf(t.logs[n][i]) == last;
      assert n in s.logs && s.logs[n][i] == t.logs[n][i];
    }
  }

  // ----- Reading all of them -----

  /** What was read of a log: all of it, or all but the record in flight. */
  ghost predicate ReadBack(s: State, n: nat, log: seq<LogRecord>) {
    n in s.logs && (log == s.logs[n] || (s.inflight.Some? && n == s.logFileNumber && log == Shorter(s.logs[n])))
  }

  lemma FileReads(s: State, check: LogReader.Check, crc: Crc, n: nat, file: Bytes, batches: seq<Batch>)
    requires Logs(s) && n in s.logs && LogProofs.Checks(check, crc) && LogOnDisk(s, crc, n, file, batches)
    ensures LogIn(check, file).Some? && ReadBack(s, n, LogIn(check, file).value)
  {
    var c := CutLogReads(check, crc, file, batches, Kept(s, n));
    var records := Encoded(batches)[..c];
    forall i: nat | i < c ensures DecodesAt(records, s.logs[n], i) {
      assert HoldsAt(batches, s.logs[n], i);
      EncodedDecodes(batches, s.logs[n], records, i);
    }
    DecodesRecords(records, s.logs[n], 0);
    assert s.logs[n][..0] == [];
    if c == |s.logs[n]| {
      assert s.logs[n][..c] == s.logs[n];
    }
  }

  ghost predicate AllReadBack(s: State, logs: Recovery.Disk) {
    forall n :: n in logs ==> ReadBack(s, n, logs[n])
  }

  ghost predicate ReadsAs(check: LogReader.Check, files: map<nat, Bytes>, n: nat, log: seq<LogRecord>) {
    n in files && LogIn(check, files[n]) == Some(log)
  }

  ghost predicate Readable(check: LogReader.Check, files: map<nat, Bytes>, n: nat)
    requires n in files
  {
    LogIn(check, files[n]).Some?
  }

  /** DBImpl::Recover's loop over the live logs, as far as it reads them: for any files. */
  method ReadLiveLogs(check: LogReader.Check, files: map<nat, Bytes>, minLog: nat, prevLog: nat) returns (ok: bool, logs: Recovery.Disk)
    ensures ok <==> forall n :: n in files && (minLog <= n || n == prevLog) ==> Readable(check, files, n)
    ensures ok ==> forall n :: n in logs <==> n in files && (minLog <= n || n == prevLog)
    ensures forall n :: n in logs ==> ReadsAs(check, files, n, logs[n])
  {
    var numbers := Recovery.LiveLogs(files, minLog, prevLog);
    ok, logs := ReadLogs(check, files, numbers);
  }

  method ReadLogs(check: LogReader.Check, files: map<nat, Bytes>, numbers: seq<nat>) returns (ok: bool, logs: Recovery.Disk)
    requires forall n :: n in numbers ==> n in files
    ensures ok <==> forall n :: n in numbers ==> Readable(check, files, n)
    ensures ok ==> forall n :: n in logs <==> n in numbers
    ensures forall n :: n in logs ==> ReadsAs(check, files, n, logs[n])
  {
    ok, logs := true, map[];
    for i := 0 to |numbers|
      invariant ok && forall j :: 0 <= j < i ==> numbers[j] in logs
      invariant forall n :: n in logs ==> n in numbers && ReadsAs(check, files, n, logs[n])
    {
      var log := ReadLogFile(check, files[numbers[i]]);
      if log.None? {
        assert !Readable(check, files, numbers[i]);
        return false, logs;
      }
      logs := logs[numbers[i] := log.value];
    }
    forall n | n in numbers ensures Readable(check, files, n) {
      assert ReadsAs(check, files, n, logs[n]);
    }
  }

  lemma DiskReads(s: State, check: LogReader.Check, crc: Crc, files: map<nat, Bytes>, batches: map<nat, seq<Batch>>, n: nat)
    requires Logs(s) && LogProofs.Checks(check, crc) && OnDisk(s, crc, files, batches) && n in files && s.manifest.logNumber <= n
    ensures Readable(check, files, n) && ReadBack(s, n, LogIn(check, files[n]).value)
  {
    FileReads(s, check, crc, n, files[n], batches[n]);
  }

  /** The store a crash leaves to be found: with the record in flight, or without it. */
  ghost predicate MayFind(s: State, from: State) {
    (from == s || NextLose(s, from)) && (from.inflight.Some? ==> Fits(from.inflight.value))
  }

  /** The logs read are its live logs. */
  ghost predicate Finds(s: State, logs: Recovery.Disk, from: State) {
    MayFind(s, from) && logs == Live(from).logs
  }

  lemma FoundState(s: State, logs: Recovery.Disk) returns (from: State)
    requires Logs(s) && AllReadBack(s, logs) && forall n :: n in logs <==> n in s.logs && s.manifest.logNumber <= n
    ensures Finds(s, logs, from)
  {
    var cur := s.logFileNumber;
    assert cur in logs && ReadBack(s, cur, logs[cur]);
    from := if logs[cur] == s.logs[cur] then s else Unrecorded(s);
    forall n | n in logs ensures n in from.logs && logs[n] == from.logs[n] {
      assert ReadBack(s, n, logs[n]);
    }
  }

  lemma FoundLogs(check: LogReader.Check, files: map<nat, Bytes>, s: State, crc: Crc, batches: map<nat, seq<Batch>>, ok: bool, logs: Recovery.Disk)
    returns (from: State)
    requires Logs(s) && LogProofs.Checks(check, crc) && OnDisk(s, crc, files, batches)
    requires ok <==> forall n :: n in files && (s.manifest.logNumber <= n || n == 0) ==> Readable(check, files, n)
    requires ok ==> forall n :: n in logs <==> n in files && (s.manifest.logNumber <= n || n == 0)
    requires forall n :: n in logs ==> ReadsAs(check, files, n, logs[n])
    ensures ok && Finds(s, logs, from)
  {
    forall n | n in files && s.manifest.logNumber <= n ensures Readable(check, files, n) {
      DiskReads(s, check, crc, files, batches, n);
    }
    forall n | n in logs ensures ReadBack(s, n, logs[n]) {
      DiskReads(s, check, crc, files, batches, n);
      assert ReadsAs(check, files, n, logs[n]);
    }
    from := FoundState(s, logs);
  }

  /** Recovery from the bytes of the log files: a recovery step of the store the crash left, with or
      without the group in flight, and never less than the acknowledged writes. */
  method RecoverLogs(check: LogReader.Check, files: map<nat, Bytes>, manifest: Manifest, full: seq<Entry> -> bool, sizeOf: seq<Entry> -> nat,
                     ghost s: State, ghost crc: Crc, ghost batches: map<nat, seq<Batch>>)
    returns (ok: bool, tables: seq<File>, next: Version, newLog: nat, last: nat, ghost from: State)
    requires Inv(s) && s.manifest == manifest && s.lastSequence + InflightCount(s) < MAX_SEQUENCE
    requires LogProofs.Checks(check, crc) && OnDisk(s, crc, files, batches)
    ensures ok && MayFind(s, from)
    ensures NextRecover(from, tables, newLog, next, last, newLog + 1, Db.Recovered(from, tables, newLog, next, last))
  {
    var logs: Recovery.Disk;
    ok, logs := ReadLiveLogs(check, files, manifest.logNumber, 0);
    from := FoundLogs(check, files, s, crc, batches, ok, logs);
    FoundStands(s, from);
    LiveStands(from);
    tables, next, newLog, last := Db.ReplayDisk(logs, manifest, full, sizeOf, Live(from));
    RecoversAll(from, tables, newLog, next, last);
  }

  lemma FoundStands(s: State, from: State)
    requires Inv(s) && MayFind(s, from)
    ensures Inv(from) && from.manifest == s.manifest && from.lastSequence == s.lastSequence && InflightCount(from) <= InflightCount(s)
  {
    if s.inflight.Some? {
      LoseKeeps(s);
    }
  }

  lemma RecoversAll(from: State, tables: seq<File>, newLog: nat, next: Version, last: nat)
    requires Inv(from)
    requires ReplayTables(tables, ReplayedEntries(from), from.manifest.nextFile, newLog + 1) && RecoveredLast(from, last)
    requires (forall n :: n in Live(from).logs ==> n < newLog) && from.manifest.nextFile <= newLog
    requires Edited(from.manifest.version, AddAtZero(tables), next)
    ensures NextRecover(from, tables, newLog, next, last, newLog + 1, Db.Recovered(from, tables, newLog, next, last))
  {
    assert from.logFileNumber in Live(from).logs;
    Db.RecoverIsNext(from, tables, newLog, next, last);
  }

  /** So what is read after opening the store again is, at every promised snapshot, the acknowledged
      writes, with all of the group in flight or nothing of it. */
  lemma CrashKeepsAcknowledged(s: State, from: State, tables: seq<File>, newLog: nat, next: Version, last: nat, nextFile: nat, s': State,
                               u: UserKey, q: SequenceNumber)
    requires Inv(s) && Reads(s) && MayFind(s, from)
    requires NextRecover(from, tables, newLog, next, last, nextFile, s') && s'.floor <= q
    ensures Inv(s') && Reads(s') && s.recorded <= s'.lastSequence
    ensures s'.history == s.history || s'.history == s.history + InflightEntries(s)
    ensures Read(MemoryView(s'), u, q) == Read(s'.history, u, q)
  {
    FoundReads(s, from);
    RecoverKeeps(from, tables, newLog, next, last, nextFile, s');
    RecoveredLastCovers(from, last);
    RecoveredStore(from, tables, newLog, next, last, nextFile, s');
    ReadsAt(s', u, q);
  }

  lemma FoundReads(s: State, from: State)
    requires Inv(s) && Reads(s) && MayFind(s, from)
    ensures Inv(from) && Reads(from) && from.floor == s.floor && from.recorded == s.recorded
    ensures from.history + InflightEntries(from) == s.history || from.history + InflightEntries(from) == s.history + InflightEntries(s)
  {
    if s.inflight.Some? && from == Unrecorded(s) {
      LoseKeeps(s);
      NothingInFlight(from);
    }
  }

  lemma NothingInFlight(s: State)
    requires s.inflight.None?
    ensures s.history + InflightEntries(s) == s.history
  {
  }

  lemma RecoveredStore(from: State, tables: seq<File>, newLog: nat, next: Version, last: nat, nextFile: nat, s': State)
    requires NextRecover(from, tables, newLog, next, last, nextFile, s')
    ensures s'.history == from.history + InflightEntries(from) && s'.lastSequence == last && s'.floor <= from.floor
  {
  }

  lemma ReadsAt(s: State, u: UserKey, q: SequenceNumber)
    requires Reads(s) && s.floor <= q
    ensures Read(MemoryView(s), u, q) == Read(s.history, u, q)
  {
  }

  // ----- The files of a running store -----

  /** What the log files hold, as bytes and as the batches these are. */
  datatype LogFiles = LogFiles(bytes: map<nat, Bytes>, batches: map<nat, seq<Batch>>)

  ghost predicate WholeLog(crc: Crc, file: Bytes, batches: seq<Batch>, log: seq<LogRecord>) {
    Holds(batches, log) && AllSmall(batches) && file == LogProofs.Log(crc, 0, Encoded(batches))
  }

  ghost predicate WholeAt(s: State, crc: Crc, d: LogFiles, n: nat)
    requires n in s.logs
  {
    n in d.bytes && n in d.batches && WholeLog(crc, d.bytes[n], d.batches[n], s.logs[n])
  }

  /** While the store runs, the file of every live log holds all of its records. */
  ghost predicate Whole(s: State, crc: Crc, d: LogFiles) {
    && (forall n :: n in s.logs && s.manifest.logNumber <= n ==> WholeAt(s, crc, d, n))
    && (forall n :: n in d.bytes && s.manifest.logNumber <= n ==> n in s.logs)
  }

  /** AddRecord, with the contents of a batch. */
  ghost predicate Adds(s: State, ops: seq<Op>, crc: Crc, d: LogFiles, b: Batch, d': LogFiles) {
    var n := s.logFileNumber;
    && SmallBatch(b) && RecordFor(b) == LogRecord(s.lastSequence + 1, ops) && n in d.bytes && n in d.batches
    && d' == LogFiles(d.bytes[n := d.bytes[n] + LogProofs.Bytes1(crc, |d.bytes[n]|, Contents(b), true)],
                      d.batches[n := d.batches[n] + [b]])
  }

  function NewLog(d: LogFiles, n: nat): LogFiles {
    LogFiles(d.bytes[n := []], d.batches[n := []])
  }

  /** The log that was being written as recovery will read it: its complete records. */
  ghost predicate Loses(s: State, crc: Crc, d: LogFiles, d': LogFiles) {
    var n := s.logFileNumber;
    && n in d.bytes && n in d.batches && d.batches[n] != []
    && var left := d.batches[n][..|d.batches[n]| - 1];
       AllSmall(left) && d' == LogFiles(d.bytes[n := LogProofs.Log(crc, 0, Encoded(left))], d.batches[n := left])
  }

  /** What each step of the store does to the log files. */
  ghost predicate FileStep(s: State, step: Step, s': State, crc: Crc, d: LogFiles, d': LogFiles) {
    match step
    case Append(ops) => exists b :: Adds(s, ops, crc, d, b, d')
    case Switch => d' == NewLog(d, s.nextFile)
    case Lose => Loses(s, crc, d, d')
    case Recover(files, newLog, next, last, nextFile) => d' == NewLog(d, newLog)
    case Clean(keep) => d' == LogFiles(map n | n in d.bytes && s.manifest.logNumber <= n :: d.bytes[n], d.batches)
    case _ => d' == d
  }

  lemma EncodedGrows(batches: seq<Batch>, b: Batch)
    requires AllSmall(batches) && SmallBatch(b)
    ensures AllSmall(batches + [b]) && Encoded(batches + [b]) == Encoded(batches) + [Contents(b)]
  {
  }

  lemma HoldsGrows(batches: seq<Batch>, log: seq<LogRecord>, b: Batch)
    requires Holds(batches, log) && SmallBatch(b)
    ensures Holds(batches + [b], log + [RecordFor(b)])
  {
    forall i: nat | i < |batches| + 1 ensures HoldsAt(batches + [b], log + [RecordFor(b)], i) {
      if i < |batches| {
        assert HoldsAt(batches, log, i);
      }
    }
  }

  lemma WholeGrows(crc: Crc, file: Bytes, batches: seq<Batch>, log: seq<LogRecord>, b: Batch)
    requires WholeLog(crc, file, batches, log) && SmallBatch(b)
    ensures WholeLog(crc, file + LogProofs.Bytes1(crc, |file|, Contents(b), true), batches + [b], log + [RecordFor(b)])
  {
    EncodedGrows(batches, b);
    LogProofs.LogAppend(crc, 0, Encoded(batches), Contents(b));
    HoldsGrows(batches, log, b);
  }

  lemma NothingWritten(crc: Crc)
    ensures WholeLog(crc, [], [], [])
  {
  }

  lemma AppendWhole(s: State, ops: seq<Op>, s': State, crc: Crc, d: LogFiles, d': LogFiles)
    requires Logs(s) && Whole(s, crc, d) && NextAppend(s, ops, s') && exists b :: Adds(s, ops, crc, d, b, d')
    ensures Whole(s', crc, d')
  {
    var b :| Adds(s, ops, crc, d, b, d');
    var cur := s.logFileNumber;
    assert WholeAt(s, crc, d, cur);
    WholeGrows(crc, d.bytes[cur], d.batches[cur], s.logs[cur], b);
    forall n | n in s'.logs && s'.manifest.logNumber <= n ensures WholeAt(s', crc, d', n) {
      assert n != cur ==> WholeAt(s, crc, d, n);
    }
  }

  lemma LoseWhole(s: State, s': State, crc: Crc, d: LogFiles, d': LogFiles)
    requires Logs(s) && Whole(s, crc, d) && NextLose(s, s') && Loses(s, crc, d, d')
    ensures Whole(s', crc, d')
  {
    var cur := s.logFileNumber;
    assert WholeAt(s, crc, d, cur);
    forall i: nat | i < |s'.logs[cur]| ensures HoldsAt(d'.batches[cur], s'.logs[cur], i) {
      assert HoldsAt(d.batches[cur], s.logs[cur], i);
    }
    forall n | n in s'.logs && s'.manifest.logNumber <= n ensures WholeAt(s', crc, d', n) {
      assert n != cur ==> WholeAt(s, crc, d, n);
    }
  }

  lemma NewLogWhole(s: State, number: nat, s': State, crc: Crc, d: LogFiles)
    requires Whole(s, crc, d) && s'.logs == s.logs[number := []] && s.manifest.logNumber <= s'.manifest.logNumber
    ensures Whole(s', crc, NewLog(d, number))
  {
    NothingWritten(crc);
    forall n | n in s'.logs && s'.manifest.logNumber <= n ensures WholeAt(s', crc, NewLog(d, number), n) {
      assert n != number ==> WholeAt(s, crc, d, n);
    }
  }

  lemma CleanWhole(s: State, keep: set<nat>, s': State, crc: Crc, d: LogFiles, d': LogFiles)
    requires Whole(s, crc, d) && NextClean(s, keep, s')
    requires d' == LogFiles(map n | n in d.bytes && s.manifest.logNumber <= n :: d.bytes[n], d.batches)
    ensures Whole(s', crc, d')
  {
    forall n | n in s'.logs && s'.manifest.logNumber <= n ensures WholeAt(s', crc, d', n) {
      assert WholeAt(s, crc, d, n);
    }
  }

  lemma SameLogsWhole(s: State, s': State, crc: Crc, d: LogFiles)
    requires Whole(s, crc, d) && s'.logs == s.logs && s.manifest.logNumber <= s'.manifest.logNumber
    ensures Whole(s', crc, d)
  {
    forall n | n in s'.logs && s'.manifest.logNumber <= n ensures WholeAt(s', crc, d, n) {
      assert WholeAt(s, crc, d, n);
    }
  }

  lemma NewFileKeeps(s: State, step: Step, s': State, crc: Crc, d: LogFiles, d': LogFiles)
    requires Logs(s) && Next(s, step, s') && Whole(s, crc, d) && FileStep(s, step, s', crc, d, d') && (step.Switch? || step.Recover?)
    ensures Whole(s', crc, d')
  {
    if step.Switch? {
      NewLogWhole(s, s.nextFile, s', crc, d);
    } else {
      NewLogWhole(s, step.newLog, s', crc, d);
    }
  }

  lemma FlushedLogNumber(s: State, step: Step, s': State)
    requires Logs(s) && Next(s, step, s') && !step.Append? && !step.Lose? && !step.Switch? && !step.Recover? && !step.Clean?
    ensures s'.logs == s.logs && s.manifest.logNumber <= s'.manifest.logNumber
  {
  }

  lemma FileStepKeeps(s: State, step: Step, s': State, crc: Crc, d: LogFiles, d': LogFiles)
    requires Logs(s) && Next(s, step, s') && Whole(s, crc, d) && FileStep(s, step, s', crc, d, d')
    ensures Whole(s', crc, d')
  {
    if step.Append? {
      AppendWhole(s, step.ops, s', crc, d, d');
    } else if step.Switch? || step.Recover? {
      NewFileKeeps(s, step, s', crc, d, d');
    } else if step.Lose? {
      LoseWhole(s, s', crc, d, d');
    } else if step.Clean? {
      CleanWhole(s, step.keep, s', crc, d, d');
    } else {
      FlushedLogNumber(s, step, s');
      SameLogsWhole(s, s', crc, d);
    }
  }

  // ----- Runs with their files -----

  ghost predicate FileRun(trace: seq<State>, steps: seq<Step>, crc: Crc, disks: seq<LogFiles>) {
    && Run(trace, steps) && |disks| == |trace| && disks[0] == NewLog(LogFiles(map[], map[]), trace[0].logFileNumber)
    && forall i :: 0 <= i < |steps| ==> FileStep(trace[i], steps[i], trace[i + 1], crc, disks[i], disks[i + 1])
  }

  lemma {:induction false} EveryFile(trace: seq<State>, steps: seq<Step>, crc: Crc, disks: seq<LogFiles>, n: nat)
    requires FileRun(trace, steps, crc, disks) && n < |trace|
    ensures Whole(trace[n], crc, disks[n])
  {
    if n == 0 {
      NothingWritten(crc);
    } else {
      EveryFile(trace, steps, crc, disks, n - 1);
      EveryRun(trace, steps, n - 1);
      FileStepKeeps(trace[n - 1], steps[n - 1], trace[n], crc, disks[n - 1], disks[n]);
    }
  }

  ghost predicate CutAt(s: State, crc: Crc, d: LogFiles, files: map<nat, Bytes>, n: nat)
    requires Logs(s) && n in s.logs && WholeAt(s, crc, d, n)
  {
    && n in files && files[n] <= d.bytes[n]
    && |LogProofs.Log(crc, 0, Encoded(d.batches[n])[..Kept(s, n)])| <= |files[n]|
  }

  /** A crash: every live log is cut off somewhere, but behind its acknowledged records. */
  ghost predicate Crashed(s: State, crc: Crc, d: LogFiles, files: map<nat, Bytes>)
  {
    && Logs(s) && Whole(s, crc, d)
    && (forall n :: n in s.logs && s.manifest.logNumber <= n ==> WholeAt(s, crc, d, n) && CutAt(s, crc, d, files, n))
    && (forall n :: n in files && (s.manifest.logNumber <= n || n == 0) ==> n in s.logs)
  }

  lemma CrashedOnDisk(s: State, crc: Crc, d: LogFiles, files: map<nat, Bytes>)
    requires Crashed(s, crc, d, files)
    ensures Logs(s) && OnDisk(s, crc, files, d.batches)
  {
    forall n | n in s.logs && s.manifest.logNumber <= n
      ensures n in files && n in d.batches && LogOnDisk(s, crc, n, files[n], d.batches[n])
    {
      assert WholeAt(s, crc, d, n) && CutAt(s, crc, d, files, n);
    }
  }

  /** DB::Open after a crash at any moment of any run: from the bytes of the manifest and of the log
      files, wherever these were cut off behind the acknowledged records, the store recovers, and its
      step is one of the engine's. */
  method OpenStore(name: Bytes, dir: Directory, check: LogReader.Check, manifestFile: Bytes, logFiles: map<nat, Bytes>,
                   full: seq<Entry> -> bool, sizeOf: seq<Entry> -> nat,
                   ghost crc: Crc, ghost written: seq<Bytes>, ghost es: seq<Records.Fields>,
                   ghost trace: seq<State>, ghost steps: seq<Step>, ghost disks: seq<LogFiles>, ghost n: nat)
    returns (ok: bool, tables: seq<File>, next: Version, newLog: nat, last: nat, ghost from: State)
    requires FileRun(trace, steps, crc, disks) && n < |trace| && trace[n].lastSequence + InflightCount(trace[n]) < MAX_SEQUENCE
    requires LogProofs.Checks(check, crc) && Fits32(|name|)
    requires manifestFile == LogProofs.Log(crc, 0, written)
    requires Records.AreRecords(written, es, name) && Manifests.SayAll(dir, es, Manifests.Journal(trace, steps, n))
    requires Crashed(trace[n], crc, disks[n], logFiles)
    ensures ok && MayFind(trace[n], from)
    ensures NextRecover(from, tables, newLog, next, last, newLog + 1, Db.Recovered(from, tables, newLog, next, last))
  {
    EveryRun(trace, steps, n);
    CrashedOnDisk(trace[n], crc, disks[n], logFiles);
    var manifest;
    ok, manifest := Manifests.RecoverManifest(name, dir, check, manifestFile, crc, written, es, trace, steps, n);
    var read;
    read, tables, next, newLog, last, from := RecoverLogs(check, logFiles, manifest, full, sizeOf, trace[n], crc, disks[n].batches);
    ok := ok && read;
  }

  /** What that store then reads at any promised snapshot, if the run's compactions were sealed: the
      acknowledged writes, with all of the group in flight or nothing of it. */
  lemma OpenedStoreReads(trace: seq<State>, steps: seq<Step>, n: nat, from: State, tables: seq<File>, newLog: nat, next: Version, last: nat,
                         nextFile: nat, s': State, u: UserKey, q: SequenceNumber)
    requires Run(trace, steps) && SealedRun(trace, steps) && n < |trace| && MayFind(trace[n], from)
    requires NextRecover(from, tables, newLog, next, last, nextFile, s') && s'.floor <= q
    ensures Inv(trace[n]) && Inv(s') && Reads(s') && trace[n].recorded <= s'.lastSequence
    ensures s'.history == trace[n].history || s'.history == trace[n].history + InflightEntries(trace[n])
    ensures Read(MemoryView(s'), u, q) == Read(s'.history, u, q)
  {
    SealedRunsKeepHistory(trace, steps, n);
    CrashKeepsAcknowledged(trace[n], from, tables, newLog, next, last, nextFile, s', u, q);
  }
}
