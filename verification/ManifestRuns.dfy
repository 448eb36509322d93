/** In every run the records of the manifest rebuild the manifest that the engine goes by
    (db/version_set.cc: LogAndApply, WriteSnapshot, Recover). */
module ManifestRuns {
  import opened InternalKeys
  import opened VersionSearch
  import opened CompactionInputs
  import opened CompactionWork
  import opened VersionBuilder
  import opened VersionEdits
  import opened CompactionReads
  import opened Engine
  import opened EngineProofs
  import opened Manifests
  import opened VersionSets
  import Records = EditCodec
  import opened Coding
  import LogWriter
  import LogReader
  import LogProofs

  // ----- The records a run writes -----

  /** What one record says: an edit, and the numbers it sets. */
  datatype Logged = Logged(edit: VersionEdit, logNumber: Option<nat>, nextFile: Option<nat>, lastSequence: Option<nat>)

  function EditsOf(journal: seq<Logged>): (r: seq<VersionEdit>)
    ensures |r| == |journal| && forall k :: 0 <= k < |r| ==> r[k] == journal[k].edit
  {
    seq(|journal|, k requires 0 <= k < |journal| => journal[k].edit)
  }

  const NO_CHANGE := VersionEdit({}, [])

  /** LogAndApply completes an edit with the numbers of the moment. */
  function WithNumbers(edit: VersionEdit, m: Manifest): Logged {
    Logged(edit, Some(m.logNumber), Some(m.nextFile), Some(m.lastSequence))
  }

  /** The first LogAndApply after opening starts a new file with a snapshot. */
  function NewManifest(v: Version, edit: VersionEdit, m: Manifest): seq<Logged> {
    [Logged(SnapshotEdit(v), None, None, None), WithNumbers(edit, m)]
  }

  /** The edit a step hands to LogAndApply. */
  function EditOf(step: Step): VersionEdit
    requires ManifestStep(step)
  {
    match step
    case Flush(level, file, _) => if file.Some? then FlushEdit(level, file.value) else NO_CHANGE
    case Move(level, f, _) => ReplaceEdit(level, [f], [], [f])
    case Compact(level, in0, in1, _, _, outputs, _) => ReplaceEdit(level, in0, in1, outputs)
  }

  ghost function NextJournal(journal: seq<Logged>, s: State, step: Step, s': State): seq<Logged> {
    if ManifestStep(step) then journal + [WithNumbers(EditOf(step), s'.manifest)]
    else if step.Recover? then NewManifest(s.manifest.version, AddAtZero(step.files), s'.manifest)
    else journal
  }

  /** The records in the live manifest of the n-th state of a run. */
  ghost function Journal(trace: seq<State>, steps: seq<Step>, n: nat): seq<Logged>
    requires |trace| == |steps| + 1 && n < |trace|
  {
    if n == 0 then NewManifest(trace[0].manifest.version, NO_CHANGE, trace[0].manifest)
    else NextJournal(Journal(trace, steps, n - 1), trace[n - 1], steps[n - 1], trace[n])
  }

  // ----- The invariant -----

  ghost predicate UsedBelow(edits: seq<VersionEdit>, next: nat) {
    forall k: nat, level: nat, f :: AddsAt(edits, k, level, f) ==> f.number < next
  }

  /** The last record sets the numbers of the manifest. */
  predicate Closes(journal: seq<Logged>, m: Manifest) {
    |journal| > 0 && var r := journal[|journal| - 1];
      r.logNumber == Some(m.logNumber) && r.nextFile == Some(m.nextFile) && r.lastSequence == Some(m.lastSequence)
  }

  /** The records rebuild the manifest. */
  ghost predicate Written(journal: seq<Logged>, m: Manifest) {
    Grown(EditsOf(journal), m.version) && UsedBelow(EditsOf(journal), m.nextFile) && Closes(journal, m)
  }

  lemma EditsAppend(journal: seq<Logged>, r: Logged)
    ensures EditsOf(journal + [r]) == EditsOf(journal) + [r.edit]
  {
  }

  lemma StillBelow(edits: seq<VersionEdit>, edit: VersionEdit, next: nat, next': nat)
    requires UsedBelow(edits, next) && next <= next'
    requires forall level: nat, f :: (level, f) in edit.added ==> f.number < next'
    ensures UsedBelow(edits + [edit], next')
  {
    forall k: nat, level: nat, f | AddsAt(edits + [edit], k, level, f) ensures f.number < next' {
      AddsMore(edits, edit, k, level, f);
    }
  }

  /** One more record. */
  lemma OneMoreRecord(journal: seq<Logged>, m: Manifest, edit: VersionEdit, m': Manifest)
    requires Written(journal, m) && Allowed(EditsOf(journal), m.version, edit) && Edited(m.version, edit, m'.version)
    requires m.nextFile <= m'.nextFile && forall level: nat, f :: (level, f) in edit.added ==> f.number < m'.nextFile
    ensures Written(journal + [WithNumbers(edit, m')], m')
  {
    EditsAppend(journal, WithNumbers(edit, m'));
    Grows(EditsOf(journal), m.version, edit, m'.version);
    StillBelow(EditsOf(journal), edit, m.nextFile, m'.nextFile);
  }

  lemma BelowIsNew(edits: seq<VersionEdit>, next: nat, number: nat)
    requires UsedBelow(edits, next) && next <= number
    ensures NewNumber(edits, number)
  {
  }

  // ----- Every edit of the engine is allowed -----

  lemma NothingEdited(edits: seq<VersionEdit>, v: Version)
    requires Installed(v)
    ensures Allowed(edits, v, NO_CHANGE) && Edited(v, NO_CHANGE, v)
  {
  }

  lemma FlushIsAllowed(edits: seq<VersionEdit>, v: Version, next: nat, level: nat, f: File)
    requires UsedBelow(edits, next) && next <= f.number && level < NUM_LEVELS
    ensures Allowed(edits, v, FlushEdit(level, f))
  {
    BelowIsNew(edits, next, f.number);
  }

  lemma MoveIsAllowed(edits: seq<VersionEdit>, v: Version, level: nat, f: File)
    requires level + 1 < NUM_LEVELS && f in v[level]
    ensures Allowed(edits, v, ReplaceEdit(level, [f], [], [f]))
  {
    var edit := ReplaceEdit(level, [f], [], [f]);
    assert edit.added == [(level + 1, f)];
    assert f in [f] && (level, f.number) in edit.deleted;
    assert OnLevel(v, level, f);
  }

  /** Outputs have new numbers, each its own. */
  lemma OutputsAreAllowed(edits: seq<VersionEdit>, v: Version, next: nat, level: nat, in0: seq<File>, in1: seq<File>, outputs: seq<File>)
    requires UsedBelow(edits, next) && level + 1 < NUM_LEVELS
    requires forall o :: o in outputs ==> next <= o.number
    requires forall o, p :: o in outputs && p in outputs && o.number == p.number ==> o == p
    ensures Allowed(edits, v, ReplaceEdit(level, in0, in1, outputs))
  {
    var edit := ReplaceEdit(level, in0, in1, outputs);
    forall l, f | (l, f) in edit.added ensures l == level + 1 && f in outputs && NewNumber(edits, f.number) {
      BelowIsNew(edits, next, f.number);
    }
  }

  lemma RecoveredIsAllowed(edits: seq<VersionEdit>, v: Version, next: nat, files: seq<File>)
    requires UsedBelow(edits, next) && forall i :: 0 <= i < |files| ==> next <= files[i].number
    requires forall i, j :: 0 <= i < j < |files| ==> files[i].number < files[j].number
    ensures Allowed(edits, v, AddAtZero(files))
  {
    var edit := AddAtZero(files);
    forall l, f | (l, f) in edit.added ensures l == 0 && NewNumber(edits, f.number) {
      BelowIsNew(edits, next, f.number);
    }
  }

  // ----- Each step -----

  lemma FlushWrites(s: State, level: nat, file: Option<File>, next: Version, s': State, journal: seq<Logged>)
    requires Inv(s) && NextFlush(s, level, file, next, s') && Written(journal, s.manifest)
    ensures Written(journal + [WithNumbers(EditOf(Flush(level, file, next)), s'.manifest)], s'.manifest)
  {
    if file.Some? {
      FlushIsAllowed(EditsOf(journal), s.manifest.version, s.manifest.nextFile, level, file.value);
    } else {
      NothingEdited(EditsOf(journal), s.manifest.version);
    }
    OneMoreRecord(journal, s.manifest, EditOf(Flush(level, file, next)), s'.manifest);
  }

  lemma MoveWrites(s: State, level: nat, f: File, next: Version, s': State, journal: seq<Logged>)
    requires Inv(s) && NextMove(s, level, f, next, s') && Written(journal, s.manifest)
    ensures Written(journal + [WithNumbers(ReplaceEdit(level, [f], [], [f]), s'.manifest)], s'.manifest)
  {
    PlannedInputs(s.version, level, [f], []);
    assert f in [f];
    MoveIsAllowed(EditsOf(journal), s.version, level, f);
    forall l: nat, g | (l, g) in ReplaceEdit(level, [f], [], [f]).added ensures g.number < s'.manifest.nextFile {
      assert g in [f] && g in s.version[level];
    }
    OneMoreRecord(journal, s.manifest, ReplaceEdit(level, [f], [], [f]), s'.manifest);
  }

  lemma OutputsAreWritten(journal: seq<Logged>, m: Manifest, level: nat, in0: seq<File>, in1: seq<File>, outputs: seq<File>, first: nat, m': Manifest)
    requires Written(journal, m) && level + 1 < NUM_LEVELS && Edited(m.version, ReplaceEdit(level, in0, in1, outputs), m'.version)
    requires ConsecutiveNumbers(outputs, first) && m.nextFile <= first && m'.nextFile == first + |outputs|
    ensures Written(journal + [WithNumbers(ReplaceEdit(level, in0, in1, outputs), m')], m')
  {
    OutputsAreAllowed(EditsOf(journal), m.version, m.nextFile, level, in0, in1, outputs);
    forall l: nat, g | (l, g) in ReplaceEdit(level, in0, in1, outputs).added ensures g.number < m'.nextFile {
      assert g in outputs;
    }
    OneMoreRecord(journal, m, ReplaceEdit(level, in0, in1, outputs), m');
  }

  lemma CompactFacts(s: State, level: nat, in0: seq<File>, in1: seq<File>, input: seq<Entry>, snapshot: SequenceNumber,
                     outputs: seq<File>, next: Version, s': State)
    requires Versions(s) && NextCompact(s, level, in0, in1, input, snapshot, outputs, next, s')
    ensures level + 1 < NUM_LEVELS && Edited(s.manifest.version, ReplaceEdit(level, in0, in1, outputs), s'.manifest.version)
    ensures ConsecutiveNumbers(outputs, s.nextFile) && s.manifest.nextFile <= s.nextFile && s'.manifest.nextFile == s.nextFile + |outputs|
  {
  }

  lemma CompactWrites(s: State, level: nat, in0: seq<File>, in1: seq<File>, input: seq<Entry>, snapshot: SequenceNumber,
                      outputs: seq<File>, next: Version, s': State, journal: seq<Logged>)
    requires Versions(s) && NextCompact(s, level, in0, in1, input, snapshot, outputs, next, s') && Written(journal, s.manifest)
    ensures Written(journal + [WithNumbers(ReplaceEdit(level, in0, in1, outputs), s'.manifest)], s'.manifest)
  {
    CompactFacts(s, level, in0, in1, input, snapshot, outputs, next, s');
    OutputsAreWritten(journal, s.manifest, level, in0, in1, outputs, s.nextFile, s'.manifest);
  }

  /** A new manifest: a snapshot of what was recovered, then the edit that adds the replayed tables. */
  lemma NewManifestWrites(v: Version, first: nat, edit: VersionEdit, m: Manifest)
    requires Installed(v) && NumbersBelow(v, first) && first <= m.nextFile
    requires Edited(v, edit, m.version) && Allowed([SnapshotEdit(v)], v, edit)
    requires forall level: nat, f :: (level, f) in edit.added ==> f.number < m.nextFile
    ensures Written(NewManifest(v, edit, m), m)
  {
    var snapshot := SnapshotEdit(v);
    SnapshotGrows(v);
    SnapshotBelow(v, first);
    Grows([snapshot], v, edit, m.version);
    StillBelow([snapshot], edit, first, m.nextFile);
    assert EditsOf(NewManifest(v, edit, m)) == [snapshot] + [edit];
  }

  lemma SnapshotBelow(v: Version, first: nat)
    requires Installed(v) && NumbersBelow(v, first)
    ensures UsedBelow([SnapshotEdit(v)], first)
  {
    SnapshotGrows(v);
    forall k: nat, level: nat, f | AddsAt([SnapshotEdit(v)], k, level, f) ensures f.number < first {
      assert OnLevel(v, level, f);
    }
  }

  lemma RecoverWrites(s: State, files: seq<File>, newLog: nat, next: Version, last: nat, nextFile: nat, s': State)
    requires Inv(s) && NextRecover(s, files, newLog, next, last, nextFile, s')
    ensures Written(NewManifest(s.manifest.version, AddAtZero(files), s'.manifest), s'.manifest)
  {
    var v, first := s.manifest.version, s.manifest.nextFile;
    SnapshotBelow(v, first);
    RecoveredIsAllowed([SnapshotEdit(v)], v, first, files);
    forall l: nat, g | (l, g) in AddAtZero(files).added ensures g.number < nextFile {
      assert g in files;
    }
    NewManifestWrites(v, first, AddAtZero(files), s'.manifest);
  }

  lemma MemoryStepKeepsManifest(s: State, step: Step, s': State)
    requires Next(s, step, s') && !ManifestStep(step) && !step.Recover?
    ensures s'.manifest == s.manifest
  {
  }

  lemma ManifestStepWrites(s: State, step: Step, s': State, journal: seq<Logged>)
    requires Inv(s) && Next(s, step, s') && ManifestStep(step) && Written(journal, s.manifest)
    ensures Written(journal + [WithNumbers(EditOf(step), s'.manifest)], s'.manifest)
  {
    match step
    case Flush(level, file, next) => FlushWrites(s, level, file, next, s', journal);
    case Move(level, f, next) => MoveWrites(s, level, f, next, s', journal);
    case Compact(level, in0, in1, input, snapshot, outputs, next) =>
      CompactWrites(s, level, in0, in1, input, snapshot, outputs, next, s', journal);
  }

  lemma StepWrites(s: State, step: Step, s': State, journal: seq<Logged>)
    requires Inv(s) && Next(s, step, s') && Written(journal, s.manifest)
    ensures Written(NextJournal(journal, s, step, s'), s'.manifest)
  {
    if ManifestStep(step) {
      ManifestStepWrites(s, step, s', journal);
    } else if step.Recover? {
      RecoverWrites(s, step.files, step.newLog, step.next, step.last, step.nextFile, s');
    } else {
      MemoryStepKeepsManifest(s, step, s');
    }
  }

  lemma FirstManifest(s: State)
    requires Initial(s)
    ensures Written(NewManifest(s.manifest.version, NO_CHANGE, s.manifest), s.manifest)
  {
    InitialVersions(s);
    SnapshotBelow(s.version, 0);
    NothingEdited([SnapshotEdit(s.version)], s.version);
    NewManifestWrites(s.version, 0, NO_CHANGE, s.manifest);
  }

  /** In every reachable state the records written since the manifest was started rebuild its version,
      and the last of them sets its numbers. */
  lemma {:induction false} EveryManifest(trace: seq<State>, steps: seq<Step>, n: nat)
    requires Run(trace, steps) && n < |trace|
    ensures Written(Journal(trace, steps, n), trace[n].manifest)
  {
    if n == 0 {
      FirstManifest(trace[0]);
    } else {
      EveryManifest(trace, steps, n - 1);
      EveryRun(trace, steps, n - 1);
      StepWrites(trace[n - 1], steps[n - 1], trace[n], Journal(trace, steps, n - 1));
    }
  }

  // ----- From the bytes of the manifest file -----

  /** What the record's fields say is what was logged. */
  ghost predicate Says(d: Directory, f: Records.Fields, r: Logged) {
    EditIn(d, f) == r.edit && f.logNumber == r.logNumber && f.nextFileNumber == r.nextFile && f.lastSequence == r.lastSequence
  }

  ghost predicate SayAll(d: Directory, es: seq<Records.Fields>, journal: seq<Logged>) {
    |es| == |journal| && forall k :: 0 <= k < |es| ==> Says(d, es[k], journal[k])
  }

  predicate NumbersAre(n: Records.Numbers, m: Manifest) {
    n.logNumber == Some(m.logNumber) && n.nextFile == Some(m.nextFile) && n.lastSequence == Some(m.lastSequence)
  }

  /** Records that say what was logged make the version and the numbers of the manifest. */
  lemma RecordsMake(d: Directory, es: seq<Records.Fields>, journal: seq<Logged>, m: Manifest)
    requires SayAll(d, es, journal) && Written(journal, m)
    ensures Grown(EditsIn(d, es), m.version) && NumbersAre(Records.NumbersAfter(es, |es|), m)
  {
    SameEdits(d, es, journal);
    assert Says(d, es[|es| - 1], journal[|journal| - 1]);
  }

  lemma SameEdits(d: Directory, es: seq<Records.Fields>, journal: seq<Logged>)
    requires SayAll(d, es, journal)
    ensures EditsIn(d, es) == EditsOf(journal)
  {
    forall k | 0 <= k < |es| ensures EditsIn(d, es)[k] == EditsOf(journal)[k] {
      assert Says(d, es[k], journal[k]);
    }
  }

  /** For every reachable state: the builder, applied to the edits of the records and saved once, gives
      the version of the live manifest, and the latest records give its numbers. */
  lemma ManifestIsReplayed(trace: seq<State>, steps: seq<Step>, n: nat, d: Directory, es: seq<Records.Fields>)
    requires Run(trace, steps) && n < |trace| && SayAll(d, es, Journal(trace, steps, n))
    ensures NumbersAre(Records.NumbersAfter(es, |es|), trace[n].manifest)
    ensures forall level :: 0 <= level < NUM_LEVELS ==>
      SaveLevel([], ApplyAll(LevelState({}, []), EditsIn(d, es), |es|, level)) == trace[n].manifest.version[level]
  {
    EveryManifest(trace, steps, n);
    RecordsMake(d, es, Journal(trace, steps, n), trace[n].manifest);
    forall level | 0 <= level < NUM_LEVELS
      ensures SaveLevel([], ApplyAll(LevelState({}, []), EditsIn(d, es), |es|, level)) == trace[n].manifest.version[level]
    {
      SavedOnce(EditsIn(d, es), trace[n].manifest.version, level);
    }
  }

  /** DB::Open on the manifest of any reachable state: from the bytes of the file alone, recovery finds
      the manifest that the engine goes by. */
  method RecoverManifest(name: Bytes, dir: Directory, check: LogReader.Check, file: Bytes, ghost crc: Crc,
                         ghost written: seq<Bytes>, ghost es: seq<Records.Fields>, ghost trace: seq<State>, ghost steps: seq<Step>, ghost n: nat)
    returns (ok: bool, m: Manifest)
    requires Run(trace, steps) && n < |trace| && Fits32(|name|)
    requires LogProofs.Checks(check, crc) && file == LogProofs.Log(crc, 0, written)
    requires Records.AreRecords(written, es, name) && SayAll(dir, es, Journal(trace, steps, n))
    ensures ok && m == trace[n].manifest
  {
    LogProofs.LogRoundTrip(check, crc, written);
    var records, clean := LogProofs.ReadLog(check, file);
    EveryManifest(trace, steps, n);
    RecordsMake(dir, es, Journal(trace, steps, n), trace[n].manifest);
    var set_;
    set_, ok := RecoverFrom(name, dir, records, es, trace[n].manifest.version);
    ok := ok && clean;
    m := Manifest(set_.current, set_.logNumber, set_.lastSequence, set_.manifestFileNumber);
  }
}
