/** Opening the store after a crash: the live logs are replayed, oldest first, into level-0 tables
    (db/db_impl.cc). */
module Recovery {
  import opened InternalKeys
  import opened VersionSearch
  import opened VersionBuilder
  import opened VersionEdits
  import opened SortedRuns
  import opened Engine

  // ----- Memtable -----

  lemma InsertedEntry(t: seq<Entry>, e: Entry)
    requires Sorted(t) && forall x :: x in t ==> x.key.sequence < e.key.sequence
    ensures Sorted(Merge2([e], t)) && TableEntries(Merge2([e], t)) == TableEntries(t) + {e}
  {
    Merge2Sorted([e], t);
    Merge2Members([e], t);
  }

  ghost function FirstEntries(r: LogRecord, n: nat): set<Entry>
    requires Fits(r) && n <= |r.ops|
  {
    set i | 0 <= i < n :: EntryAt(r, i)
  }

  lemma FirstEntriesStep(r: LogRecord, i: nat, e: Entry)
    requires Fits(r) && i < |r.ops| && e == EntryAt(r, i)
    ensures FirstEntries(r, i + 1) == FirstEntries(r, i) + {e}
  {
    forall x ensures x in FirstEntries(r, i + 1) <==> x in FirstEntries(r, i) + {e} {
      if x in FirstEntries(r, i + 1) {
        var k :| 0 <= k < i + 1 && x == EntryAt(r, k);
      }
    }
  }

  /** WriteBatchInternal::InsertInto: operation i goes in under sequence number `sequence + i`. */
  method InsertInto(mem: seq<Entry>, r: LogRecord) returns (mem': seq<Entry>)
    requires Fits(r) && Sorted(mem)
    requires forall x :: x in mem ==> x.key.sequence < r.sequence
    ensures Sorted(mem') && TableEntries(mem') == TableEntries(mem) + RecordEntries(r)
  {
    mem' := mem;
    var sequence := r.sequence;
    for i := 0 to |r.ops|
      invariant sequence == r.sequence + i
      invariant Sorted(mem') && TableEntries(mem') == TableEntries(mem) + FirstEntries(r, i)
    {
      var e := Entry(InternalKey(r.ops[i].user, sequence, r.ops[i].typ), r.ops[i].value);
      forall x | x in mem' ensures x.key.sequence < sequence {
        assert x in TableEntries(mem');
      }
      InsertedEntry(mem', e);
      FirstEntriesStep(r, i, e);
      mem' := Merge2([e], mem');
      sequence := sequence + 1;
    }
  }

  /** BuildTable: the memtable's entries become one table. */
  function BuildTable(number: nat, t: seq<Entry>, sizeOf: seq<Entry> -> nat): (f: File)
    requires t != [] && Sorted(t)
    ensures ValidFile(f) && f.table == t && f.number == number
  {
    File(number, sizeOf(t), t[0].key, t[|t| - 1].key, t)
  }

  // ----- Replay order -----

  type Disk = map<nat, seq<LogRecord>>

  ghost predicate ListsLogs(logs: Disk, numbers: seq<nat>) {
    forall k :: 0 <= k < |numbers| ==> numbers[k] in logs
  }

  ghost predicate Earlier(j: int, m: int, k: int, i: int) {
    j < k || (j == k && m < i)
  }

  ghost predicate RecordAt(logs: Disk, numbers: seq<nat>, j: int, m: int, r: LogRecord)
    requires ListsLogs(logs, numbers)
  {
    0 <= j < |numbers| && 0 <= m < |logs[numbers[j]]| && logs[numbers[j]][m] == r
  }

  /** In replay order every record starts above the last sequence number of the one before. */
  ghost predicate Ascending(logs: Disk, numbers: seq<nat>)
    requires ListsLogs(logs, numbers)
  {
    && (forall j, m, r :: RecordAt(logs, numbers, j, m, r) ==> Fits(r))
    && (forall j, m, r, k, i, q :: RecordAt(logs, numbers, j, m, r) && RecordAt(logs, numbers, k, i, q) && Earlier(j, m, k, i)
          ==> LastOf(r) < q.sequence)
  }

  /** The entries of the records before position (k, i). */
  ghost predicate ReplayedBefore(logs: Disk, numbers: seq<nat>, k: int, i: int, S: set<Entry>)
    requires ListsLogs(logs, numbers)
  {
    forall e :: e in S <==> exists j, m, r :: RecordAt(logs, numbers, j, m, r) && Earlier(j, m, k, i) && Fits(r) && e in RecordEntries(r)
  }

  lemma ReplayedStep(logs: Disk, numbers: seq<nat>, k: int, i: int, S: set<Entry>, r: LogRecord)
    requires ListsLogs(logs, numbers) && RecordAt(logs, numbers, k, i, r) && Fits(r)
    requires ReplayedBefore(logs, numbers, k, i, S)
    ensures ReplayedBefore(logs, numbers, k, i + 1, S + RecordEntries(r))
  {
    forall e ensures e in S + RecordEntries(r) <==>
      exists j, m, q :: RecordAt(logs, numbers, j, m, q) && Earlier(j, m, k, i + 1) && Fits(q) && e in RecordEntries(q)
    {
      if e in S {
        var j, m, q :| RecordAt(logs, numbers, j, m, q) && Earlier(j, m, k, i) && Fits(q) && e in RecordEntries(q);
        assert Earlier(j, m, k, i + 1);
      } else if e in RecordEntries(r) {
        assert Earlier(k, i, k, i + 1);
      } else if j, m, q :| RecordAt(logs, numbers, j, m, q) && Earlier(j, m, k, i + 1) && Fits(q) && e in RecordEntries(q) {
        assert Earlier(j, m, k, i);
      }
    }
  }

  lemma ReplayedLog(logs: Disk, numbers: seq<nat>, k: nat, S: set<Entry>)
    requires ListsLogs(logs, numbers) && k < |numbers|
    requires ReplayedBefore(logs, numbers, k, |logs[numbers[k]]|, S)
    ensures ReplayedBefore(logs, numbers, k + 1, 0, S)
  {
    forall e ensures e in S <==>
      exists j, m, r :: RecordAt(logs, numbers, j, m, r) && Earlier(j, m, k + 1, 0) && Fits(r) && e in RecordEntries(r)
    {
      if e in S {
        var j, m, r :| RecordAt(logs, numbers, j, m, r) && Earlier(j, m, k, |logs[numbers[k]]|) && Fits(r) && e in RecordEntries(r);
        assert Earlier(j, m, k + 1, 0);
      } else if j, m, r :| RecordAt(logs, numbers, j, m, r) && Earlier(j, m, k + 1, 0) && Fits(r) && e in RecordEntries(r) {
        assert Earlier(j, m, k, |logs[numbers[k]]|);
      }
    }
  }

  // ----- Replay -----

  /** Tables written so far, in ascending order of number and of sequence. */
  ghost predicate Written(files: seq<File>, first: nat, beyond: nat) {
    && ValidFiles(files) && first <= beyond
    && (forall i :: 0 <= i < |files| ==> first <= files[i].number < beyond)
    && (forall i, j :: 0 <= i < j < |files| ==> files[i].number < files[j].number && NewerThan(files[j].table, files[i].table))
  }

  ghost predicate AllBelow(S: set<Entry>, t: seq<Entry>) {
    forall x, y :: x in S && y in t ==> x.key.sequence < y.key.sequence
  }

  lemma WrittenTable(files: seq<File>, f: File, first: nat, next: nat)
    requires Written(files, first, next) && ValidFile(f) && f.number == next && AllBelow(FileEntries(files), f.table)
    ensures Written(files + [f], first, next + 1)
    ensures FileEntries(files + [f]) == FileEntries(files) + TableEntries(f.table)
  {
    var fs := files + [f];
    forall i, j | 0 <= i < j < |fs| ensures fs[i].number < fs[j].number && NewerThan(fs[j].table, fs[i].table) {
      if j == |files| {
        assert fs[i] in files;
        forall x, y | x in f.table && y in fs[i].table ensures y.key.sequence < x.key.sequence {
          assert y in FileEntries(files);
        }
      }
    }
    forall e ensures e in FileEntries(fs) <==> e in FileEntries(files) + TableEntries(f.table) {
      if e in FileEntries(files) {
        var g :| g in files && e in g.table;
        assert g in fs;
      } else if e in f.table {
        assert f in fs;
      }
    }
  }

  /** WriteLevel0Table: a file number is taken in any case; an empty memtable leaves no table. */
  method WriteLevel0Table(mem: seq<Entry>, files: seq<File>, next: nat, sizeOf: seq<Entry> -> nat, ghost first: nat)
    returns (files': seq<File>, next': nat)
    requires Sorted(mem) && Written(files, first, next) && AllBelow(FileEntries(files), mem)
    ensures Written(files', first, next') && next < next'
    ensures FileEntries(files') == FileEntries(files) + TableEntries(mem)
  {
    files', next' := files, next + 1;
    if mem != [] {
      var f := BuildTable(next, mem, sizeOf);
      WrittenTable(files, f, first, next);
      files' := files + [f];
    }
  }

  /** What one log's replay has done before its record i. */
  ghost predicate Replaying(logs: Disk, numbers: seq<nat>, k: int, i: int, files: seq<File>, mem: seq<Entry>, first: nat, next: nat)
    requires ListsLogs(logs, numbers)
  {
    && Sorted(mem) && Written(files, first, next) && AllBelow(FileEntries(files), mem)
    && ReplayedBefore(logs, numbers, k, i, FileEntries(files) + TableEntries(mem))
  }

  /** max_sequence: an upper bound of every record before (k, i), and one of them, or the start. */
  ghost predicate MaxSequence(logs: Disk, numbers: seq<nat>, k: int, i: int, start: nat, last: nat)
    requires ListsLogs(logs, numbers)
  {
    && start <= last
    && (forall j, m, r :: RecordAt(logs, numbers, j, m, r) && Earlier(j, m, k, i) ==> LastOf(r) <= last)
    && (last == start || exists j, m, r :: RecordAt(logs, numbers, j, m, r) && Earlier(j, m, k, i) && LastOf(r) == last)
  }

  lemma NextRecordAbove(logs: Disk, numbers: seq<nat>, k: int, i: int, S: set<Entry>, r: LogRecord)
    requires ListsLogs(logs, numbers) && Ascending(logs, numbers) && RecordAt(logs, numbers, k, i, r)
    requires ReplayedBefore(logs, numbers, k, i, S)
    ensures forall x :: x in S ==> x.key.sequence < r.sequence
  {
    forall x | x in S ensures x.key.sequence < r.sequence {
      var j, m, q :| RecordAt(logs, numbers, j, m, q) && Earlier(j, m, k, i) && Fits(q) && x in RecordEntries(q);
    }
  }

  lemma MaxSequenceStep(logs: Disk, numbers: seq<nat>, k: int, i: int, start: nat, last: nat, r: LogRecord)
    requires ListsLogs(logs, numbers) && RecordAt(logs, numbers, k, i, r)
    requires MaxSequence(logs, numbers, k, i, start, last) && LastOf(r) >= 0
    ensures MaxSequence(logs, numbers, k, i + 1, start, if LastOf(r) > last then LastOf(r) else last)
  {
    var last' := if LastOf(r) > last then LastOf(r) else last;
    forall j, m, q | RecordAt(logs, numbers, j, m, q) && Earlier(j, m, k, i + 1) ensures LastOf(q) <= last' {
      if !Earlier(j, m, k, i) {
        assert q == r;
      }
    }
    if last' == last {
      if last != start {
        var j, m, q :| RecordAt(logs, numbers, j, m, q) && Earlier(j, m, k, i) && LastOf(q) == last;
        assert Earlier(j, m, k, i + 1);
      }
    } else {
      assert Earlier(k, i, k, i + 1);
    }
  }

  lemma MaxSequenceLog(logs: Disk, numbers: seq<nat>, k: nat, start: nat, last: nat)
    requires ListsLogs(logs, numbers) && k < |numbers|
    requires MaxSequence(logs, numbers, k, |logs[numbers[k]]|, start, last)
    ensures MaxSequence(logs, numbers, k + 1, 0, start, last)
  {
    forall j, m, r | RecordAt(logs, numbers, j, m, r) && Earlier(j, m, k + 1, 0) ensures LastOf(r) <= last {
      assert Earlier(j, m, k, |logs[numbers[k]]|);
    }
    if last != start {
      var j, m, r :| RecordAt(logs, numbers, j, m, r) && Earlier(j, m, k, |logs[numbers[k]]|) && LastOf(r) == last;
      assert Earlier(j, m, k + 1, 0);
    }
  }

  lemma LogStart(logs: Disk, numbers: seq<nat>, k: nat, files: seq<File>, first: nat, next: nat)
    requires ListsLogs(logs, numbers)
    requires Written(files, first, next) && ReplayedBefore(logs, numbers, k, 0, FileEntries(files))
    ensures Replaying(logs, numbers, k, 0, files, [], first, next)
  {
    assert FileEntries(files) + TableEntries([]) == FileEntries(files);
  }

  /** RecoverLogFile for log k of the list: `full` says when the memtable is over write_buffer_size. */
  method RecoverLogFile(logs: Disk, numbers: seq<nat>, k: nat, files: seq<File>, next: nat, last: nat,
                        full: seq<Entry> -> bool, sizeOf: seq<Entry> -> nat, ghost first: nat, ghost start: nat)
    returns (files': seq<File>, next': nat, last': nat)
    requires ListsLogs(logs, numbers) && Ascending(logs, numbers) && k < |numbers|
    requires Written(files, first, next) && ReplayedBefore(logs, numbers, k, 0, FileEntries(files))
    requires MaxSequence(logs, numbers, k, 0, start, last)
    ensures Written(files', first, next') && next <= next' && ReplayedBefore(logs, numbers, k + 1, 0, FileEntries(files'))
    ensures MaxSequence(logs, numbers, k + 1, 0, start, last')
  {
    var log := logs[numbers[k]];
    var mem: seq<Entry> := [];
    files', next', last' := files, next, last;
    LogStart(logs, numbers, k, files, first, next);
    for i := 0 to |log|
      invariant Replaying(logs, numbers, k, i, files', mem, first, next') && next <= next'
      invariant MaxSequence(logs, numbers, k, i, start, last')
    {
      files', mem, next', last' := ReplayRecord(logs, numbers, k, i, log[i], files', mem, next', last', full, sizeOf, first, start);
    }
    ReplayedLog(logs, numbers, k, FileEntries(files') + TableEntries(mem));
    MaxSequenceLog(logs, numbers, k, start, last');
    files', next' := WriteLevel0Table(mem, files', next', sizeOf, first);
  }

  lemma MemBelow(S: set<Entry>, mem: seq<Entry>, mem': seq<Entry>, r: LogRecord)
    requires Fits(r) && AllBelow(S, mem) && forall x :: x in S ==> x.key.sequence < r.sequence
    requires TableEntries(mem') == TableEntries(mem) + RecordEntries(r)
    ensures AllBelow(S, mem')
  {
    forall x, y | x in S && y in mem' ensures x.key.sequence < y.key.sequence {
      assert y in TableEntries(mem');
    }
  }

  method ReplayRecord(logs: Disk, numbers: seq<nat>, ghost k: nat, ghost i: nat, r: LogRecord, files: seq<File>, mem: seq<Entry>,
                      next: nat, last: nat, full: seq<Entry> -> bool, sizeOf: seq<Entry> -> nat, ghost first: nat, ghost start: nat)
    returns (files': seq<File>, mem': seq<Entry>, next': nat, last': nat)
    requires ListsLogs(logs, numbers) && Ascending(logs, numbers) && RecordAt(logs, numbers, k, i, r)
    requires Replaying(logs, numbers, k, i, files, mem, first, next) && MaxSequence(logs, numbers, k, i, start, last)
    ensures Replaying(logs, numbers, k, i + 1, files', mem', first, next') && next <= next'
    ensures MaxSequence(logs, numbers, k, i + 1, start, last')
  {
    assert Fits(r);
    MaxSequenceStep(logs, numbers, k, i, start, last, r);
    last' := if LastOf(r) > last then LastOf(r) else last;
    files', mem', next' := ReplayInto(logs, numbers, k, i, r, files, mem, next, full, sizeOf, first);
  }

  method ReplayInto(logs: Disk, numbers: seq<nat>, ghost k: nat, ghost i: nat, r: LogRecord, files: seq<File>, mem: seq<Entry>, next: nat,
                    full: seq<Entry> -> bool, sizeOf: seq<Entry> -> nat, ghost first: nat)
    returns (files': seq<File>, mem': seq<Entry>, next': nat)
    requires ListsLogs(logs, numbers) && Ascending(logs, numbers) && RecordAt(logs, numbers, k, i, r)
    requires Replaying(logs, numbers, k, i, files, mem, first, next)
    ensures Replaying(logs, numbers, k, i + 1, files', mem', first, next') && next <= next'
  {
    files', next' := files, next;
    ghost var S := FileEntries(files) + TableEntries(mem);
    NextRecordAbove(logs, numbers, k, i, S, r);
    forall x | x in mem ensures x.key.sequence < r.sequence {
      assert x in S;
    }
    mem' := InsertInto(mem, r);
    MemBelow(FileEntries(files), mem, mem', r);
    ReplayedStep(logs, numbers, k, i, S, r);
    assert FileEntries(files) + TableEntries(mem') == S + RecordEntries(r);
    if full(mem') {
      files', next' := WriteLevel0Table(mem', files', next', sizeOf, first);
      assert FileEntries(files') + TableEntries([]) == S + RecordEntries(r);
      mem' := [];
    }
  }

  /** The live logs, sorted: every log numbered at least `minLog`, and the previous one, which older
      versions of the store may have left. */
  method LiveLogs<T>(logs: map<nat, T>, minLog: nat, prevLog: nat) returns (numbers: seq<nat>)
    ensures forall n :: n in numbers <==> n in logs && (minLog <= n || n == prevLog)
    ensures forall i, j :: 0 <= i < j < |numbers| ==> numbers[i] < numbers[j]
  {
    numbers := [];
    var left := set n | n in logs && (minLog <= n || n == prevLog);
    while left != {}
      invariant forall n :: n in logs && (minLog <= n || n == prevLog) <==> n in numbers || n in left
      invariant forall i, j :: 0 <= i < j < |numbers| ==> numbers[i] < numbers[j]
      invariant forall m, n :: m in numbers && n in left ==> m < n
      decreases |left|
    {
      var least := Least(left);
      forall i | 0 <= i < |numbers| ensures numbers[i] < least {
        assert numbers[i] in numbers;
      }
      numbers := numbers + [least];
      left := left - {least};
    }
  }

  method Least(s: set<nat>) returns (m: nat)
    requires s != {}
    ensures m in s && forall n :: n in s ==> m <= n
  {
    m :| m in s;
    var rest := s - {m};
    while rest != {}
      invariant m in s && rest <= s && forall n :: n in s && n !in rest ==> m <= n
      decreases |rest|
    {
      var n :| n in rest;
      if n < m {
        m := n;
      }
      rest := rest - {n};
    }
  }

  /** The replay of all live logs: level-0 tables holding exactly the replayed records' entries, and
      the greatest sequence number seen. */
  method ReplayLogs(logs: Disk, numbers: seq<nat>, firstFile: nat, start: nat, full: seq<Entry> -> bool, sizeOf: seq<Entry> -> nat)
    returns (files: seq<File>, next: nat, last: nat)
    requires ListsLogs(logs, numbers) && Ascending(logs, numbers)
    ensures Written(files, firstFile, next) && ReplayedBefore(logs, numbers, |numbers|, 0, FileEntries(files))
    ensures MaxSequence(logs, numbers, |numbers|, 0, start, last)
    ensures forall n :: n in numbers ==> n < next
  {
    files, next, last := [], firstFile, start;
    for k := 0 to |numbers|
      invariant Written(files, firstFile, next) && ReplayedBefore(logs, numbers, k, 0, FileEntries(files))
      invariant MaxSequence(logs, numbers, k, 0, start, last)
      invariant forall j :: 0 <= j < k ==> numbers[j] < next
    {
      files, next, last := RecoverLogFile(logs, numbers, k, files, next, last, full, sizeOf, firstFile, start);
      next := MarkFileNumberUsed(next, numbers[k]);
    }
  }

  function MarkFileNumberUsed(next: nat, number: nat): (r: nat)
    ensures next <= r && number < r
  {
    if next <= number then number + 1 else next
  }

  // ----- The live logs of the engine -----

  /** The live logs of any reachable store are in ascending order of sequence numbers. */
  lemma LiveLogsAscend(s: State, numbers: seq<nat>)
    requires Logs(s)
    requires forall n :: n in numbers <==> n in s.logs && s.manifest.logNumber <= n
    requires forall i, j :: 0 <= i < j < |numbers| ==> numbers[i] < numbers[j]
    ensures ListsLogs(s.logs, numbers) && Ascending(s.logs, numbers)
  {
    forall k | 0 <= k < |numbers| ensures numbers[k] in s.logs && LiveLog(s, numbers[k]) {
      assert numbers[k] in numbers;
    }
    forall j, m, r, k, i, q | RecordAt(s.logs, numbers, j, m, r) && RecordAt(s.logs, numbers, k, i, q) && Earlier(j, m, k, i)
      ensures LastOf(r) < q.sequence
    {
      if j < k {
        assert numbers[j] == s.immLog && numbers[k] == s.logFileNumber;
      }
    }
  }

  lemma ReplayedIsComplete(s: State, numbers: seq<nat>, S: set<Entry>)
    requires forall n :: n in numbers <==> n in s.logs && s.manifest.logNumber <= n
    requires ListsLogs(s.logs, numbers) && ReplayedBefore(s.logs, numbers, |numbers|, 0, S)
    ensures S == ReplayedEntries(s)
  {
    forall e ensures e in S <==> e in ReplayedEntries(s) {
      if e in S {
        var j, m, r :| RecordAt(s.logs, numbers, j, m, r) && Earlier(j, m, |numbers|, 0) && Fits(r) && e in RecordEntries(r);
        assert numbers[j] in numbers;
      } else if e in ReplayedEntries(s) {
        var n, i :| n in s.logs && s.manifest.logNumber <= n && 0 <= i < |s.logs[n]| && Fits(s.logs[n][i]) && e in RecordEntries(s.logs[n][i]);
        var j := LogIndex(numbers, n);
        assert RecordAt(s.logs, numbers, j, i, s.logs[n][i]) && Earlier(j, i, |numbers|, 0);
      }
    }
  }

  /** What was replayed is what the state machine's recovery step asks for. */
  lemma ReplayIsRecovery(s: State, numbers: seq<nat>, files: seq<File>, first: nat, next: nat, beyond: nat, last: nat)
    requires Logs(s) && LastRecorded(s) && s.lastSequence + InflightCount(s) < MAX_SEQUENCE
    requires forall n :: n in numbers <==> n in s.logs && s.manifest.logNumber <= n
    requires ListsLogs(s.logs, numbers) && s.manifest.nextFile <= first && next <= beyond
    requires Written(files, first, next) && ReplayedBefore(s.logs, numbers, |numbers|, 0, FileEntries(files))
    requires MaxSequence(s.logs, numbers, |numbers|, 0, s.manifest.lastSequence, last)
    ensures ReplayTables(files, ReplayedEntries(s), s.manifest.nextFile, beyond)
    ensures RecoveredLast(s, last)
  {
    ReplayedIsComplete(s, numbers, FileEntries(files));
    MaxIsRecoveredLast(s, numbers, last);
  }

  lemma LogIndex(numbers: seq<nat>, n: nat) returns (j: nat)
    requires n in numbers
    ensures j < |numbers| && numbers[j] == n
  {
    j :| 0 <= j < |numbers| && numbers[j] == n;
  }

  lemma MaxIsRecoveredLast(s: State, numbers: seq<nat>, last: nat)
    requires Logs(s) && LastRecorded(s) && s.lastSequence + InflightCount(s) < MAX_SEQUENCE
    requires forall n :: n in numbers <==> n in s.logs && s.manifest.logNumber <= n
    requires ListsLogs(s.logs, numbers)
    requires MaxSequence(s.logs, numbers, |numbers|, 0, s.manifest.lastSequence, last)
    ensures RecoveredLast(s, last)
  {
    forall n, i | n in s.logs && s.manifest.logNumber <= n && 0 <= i < |s.logs[n]| ensures LastOf(s.logs[n][i]) <= last {
      var j := LogIndex(numbers, n);
      assert RecordAt(s.logs, numbers, j, i, s.logs[n][i]) && Earlier(j, i, |numbers|, 0);
    }
    if last != s.manifest.lastSequence {
      var j, m, r :| RecordAt(s.logs, numbers, j, m, r) && Earlier(j, m, |numbers|, 0) && LastOf(r) == last;
      assert numbers[j] in numbers;
      assert LiveLog(s, numbers[j]);
      assert LastOf(s.logs[numbers[j]][m]) == last;
    }
  }
}
