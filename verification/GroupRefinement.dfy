/** Group commit on top of the engine: a group's log write is the engine's append, and its end, when
    LastSequence moves, is the engine's apply (db/db_impl.cc, DBImpl::Write). */
module GroupRefinement {
  import opened InternalKeys
  import opened VersionSearch
  import opened SortedRuns
  import opened WriteBatch
  import opened Engine
  import opened EngineProofs
  import Comparators
  import Recovery
  import Group = GroupCommit

  function OpFor(op: BatchOp): Op {
    match op
    case Put(key, value) => Op(Comparators.Embed(key), Value, value)
    case Delete(key) => Op(Comparators.Embed(key), Deletion, [])
  }

  function OpsFor(ops: seq<BatchOp>): (r: seq<Op>)
    ensures |r| == |ops| && forall i :: 0 <= i < |r| ==> r[i] == OpFor(ops[i])
  {
    seq(|ops|, i requires 0 <= i < |ops| => OpFor(ops[i]))
  }

  /** The entry an update becomes under sequence number n. */
  function EntryFor(n: SequenceNumber, op: BatchOp): Entry {
    Entry(InternalKey(OpFor(op).user, n, OpFor(op).typ), OpFor(op).value)
  }

  /** A reader at LastSequence sees the update. */
  ghost predicate Seen(g: Group.State, n: nat, op: BatchOp) {
    n in g.mem && g.mem[n] == op && 0 < n <= g.lastSequence
  }

  ghost predicate IsSeen(g: Group.State, x: Entry) {
    exists n: nat, op :: Seen(g, n, op) && n <= MAX_SEQUENCE && x == EntryFor(n, op)
  }

  /** The acknowledged writes of the engine are those of before the last crash and the updates a reader
      at LastSequence sees. */
  ghost predicate SameHistory(g: Group.State, past: set<Entry>, e: State) {
    forall x :: x in e.history <==> x in past || IsSeen(g, x)
  }

  predicate SameFlight(g: Group.State, e: State) {
    e.inflight == if g.phase.Writing? && g.phase.log == Group.Logged then Some(LogRecord(g.phase.first, OpsFor(g.phase.ops))) else None
  }

  ghost predicate Refines(g: Group.State, past: set<Entry>, e: State) {
    && e.lastSequence == g.lastSequence && SameFlight(g, e) && SameHistory(g, past, e)
    && (g.phase.Writing? ==> g.phase.first + |g.phase.ops| < MAX_SEQUENCE)
  }

  // ----- One move of both -----

  /** The writers' queue, the store, and the writes acknowledged before the store was last opened. */
  datatype Both = Both(g: Group.State, e: State, past: set<Entry>)

  datatype Event = OfGroup(step: Group.Step) | Background(bg: Step) | Restart(lost: bool, recovery: Step)

  /** What the engine does for a step of the group protocol. */
  ghost predicate EngineMoves(g: Group.State, step: Group.Step, e: State, e': State) {
    match step
    case Log(ok) => if ok then g.phase.Writing? && NextAppend(e, OpsFor(g.phase.ops), e') else e' == e
    case Finish => if g.phase.Writing? && g.phase.log == Group.Failed then NextSkip(e, |g.phase.ops|, e') else NextApply(e, e')
    case _ => e' == e
  }

  /** Writes go through the group; everything else but a crash may happen at any time. */
  predicate IsBackground(step: Step) {
    !step.Append? && !step.Apply? && !step.Skip? && !step.Lose? && !step.Recover?
  }

  /** The sequence numbers do not run out. */
  predicate NumbersLeft(g: Group.State) {
    g.phase.Writing? ==> g.phase.first + |g.phase.ops| < MAX_SEQUENCE
  }

  /** What a crash leaves to be recovered: with the record in flight, or without it. */
  ghost predicate Leaves(e: State, lost: bool, left: State) {
    if lost then NextLose(e, left) else left == e
  }

  /** A crash: the writers waiting are gone, and the store is opened again. */
  ghost predicate Restarts(b: Both, lost: bool, recovery: Step, b': Both) {
    && recovery.Recover? && (exists left :: Leaves(b.e, lost, left) && Next(left, recovery, b'.e))
    && Group.Initial(b'.g) && b'.g.start == b'.e.lastSequence && b'.past == b'.e.history
  }

  ghost predicate Moves(b: Both, event: Event, b': Both) {
    match event
    case OfGroup(step) => b'.past == b.past && Group.Next(b.g, step, b'.g) && NumbersLeft(b'.g) && EngineMoves(b.g, step, b.e, b'.e)
    case Background(step) => b'.past == b.past && b'.g == b.g && IsBackground(step) && Next(b.e, step, b'.e)
    case Restart(lost, recovery) => Restarts(b, lost, recovery, b')
  }

  lemma QuietStepRefines(g: Group.State, step: Group.Step, g': Group.State, past: set<Entry>, e: State)
    requires Group.Inv(g) && Refines(g, past, e) && Group.Next(g, step, g') && NumbersLeft(g')
    requires step.Enqueue? || step.Lead? || step.LeadNothing?
    ensures Refines(g', past, e)
  {
    assert g'.mem == g.mem && g'.lastSequence == g.lastSequence;
    SameSeen(g, g', past, e);
  }

  lemma SameSeen(g: Group.State, g': Group.State, past: set<Entry>, e: State)
    requires SameHistory(g, past, e)
    requires forall n: nat, op :: Seen(g, n, op) <==> Seen(g', n, op)
    ensures SameHistory(g', past, e)
  {
    forall x ensures x in e.history <==> x in past || IsSeen(g', x) {
      assert IsSeen(g, x) <==> IsSeen(g', x);
    }
  }

  lemma InsertRefines(g: Group.State, g': Group.State, past: set<Entry>, e: State)
    requires Group.Inv(g) && Refines(g, past, e) && Group.NextInsert(g, g')
    ensures Refines(g', past, e)
  {
    forall n: nat, op ensures Seen(g, n, op) <==> Seen(g', n, op) {
    }
    SameSeen(g, g', past, e);
  }

  lemma LogRefines(g: Group.State, ok: bool, g': Group.State, past: set<Entry>, e: State, e': State)
    requires Group.Inv(g) && Refines(g, past, e) && Group.NextLog(g, ok, g')
    requires if ok then NextAppend(e, OpsFor(g.phase.ops), e') else e' == e
    ensures Refines(g', past, e')
  {
    SameSeen(g, g', past, e);
    assert e'.history == e.history;
    forall x ensures x in e'.history <==> x in past || IsSeen(g', x) {
    }
  }

  /** What the group wrote is what its record holds. */
  lemma GroupEntry(g: Group.State, n: nat, op: BatchOp)
    requires Group.Inv(g) && g.phase.Writing? && g.phase.log == Group.Logged && g.phase.inserted == |g.phase.ops|
    requires n > g.lastSequence
    ensures n in g.mem && g.mem[n] == op <==> g.phase.first <= n < g.phase.first + |g.phase.ops| && g.phase.ops[n - g.phase.first] == op
  {
    assert n in g.mem && g.mem[n] == op <==> Group.Stored(g, n, op);
    if i :| 0 <= i < |g.commits| && Group.InCommit(g.commits[i], n, op) {
      Group.CommittedBelow(g, i, n, op);
    }
  }

  lemma FinishSeen(g: Group.State, g': Group.State, x: Entry)
    requires Group.Inv(g) && Group.NextFinish(g, g') && g.phase.log == Group.Logged && g.phase.first + |g.phase.ops| < MAX_SEQUENCE
    requires Fits(LogRecord(g.phase.first, OpsFor(g.phase.ops)))
    ensures IsSeen(g', x) <==> IsSeen(g, x) || x in RecordEntries(LogRecord(g.phase.first, OpsFor(g.phase.ops)))
  {
    var r := LogRecord(g.phase.first, OpsFor(g.phase.ops));
    if IsSeen(g', x) {
      var n: nat, op :| Seen(g', n, op) && n <= MAX_SEQUENCE && x == EntryFor(n, op);
      if n <= g.lastSequence {
        assert Seen(g, n, op);
      } else {
        GroupEntry(g, n, op);
        assert x == EntryAt(r, n - r.sequence);
      }
    }
    if IsSeen(g, x) {
      var n: nat, op :| Seen(g, n, op) && n <= MAX_SEQUENCE && x == EntryFor(n, op);
      assert Seen(g', n, op);
    }
    if x in RecordEntries(r) {
      var i :| 0 <= i < |r.ops| && x == EntryAt(r, i);
      GroupEntry(g, r.sequence + i, g.phase.ops[i]);
      assert Seen(g', r.sequence + i, g.phase.ops[i]) && x == EntryFor(r.sequence + i, g.phase.ops[i]);
    }
  }

  lemma FinishRefines(g: Group.State, g': Group.State, past: set<Entry>, e: State, e': State)
    requires Group.Inv(g) && Refines(g, past, e) && Group.NextFinish(g, g') && g.phase.log == Group.Logged && NextApply(e, e')
    ensures Refines(g', past, e')
  {
    var r := LogRecord(g.phase.first, OpsFor(g.phase.ops));
    assert e.inflight == Some(r) && e'.history == e.history + RecordEntries(r);
    forall x ensures x in e'.history <==> x in past || IsSeen(g', x) {
      FinishSeen(g, g', x);
      assert x in e.history <==> x in past || IsSeen(g, x);
    }
  }

  /** A group whose log write failed leaves nothing to see under the numbers it used up. */
  lemma NothingOfFailed(g: Group.State, n: nat)
    requires Group.Inv(g) && g.phase.Writing? && g.phase.log == Group.Failed && n in g.mem
    ensures n <= g.lastSequence
  {
    assert Group.Stored(g, n, g.mem[n]);
    var i :| 0 <= i < |g.commits| && Group.InCommit(g.commits[i], n, g.mem[n]);
    Group.CommittedBelow(g, i, n, g.mem[n]);
  }

  lemma FailRefines(g: Group.State, g': Group.State, past: set<Entry>, e: State, e': State)
    requires Group.Inv(g) && Refines(g, past, e) && Group.NextFinish(g, g') && g.phase.log == Group.Failed && NextSkip(e, |g.phase.ops|, e')
    ensures Refines(g', past, e')
  {
    forall n: nat, op ensures Seen(g, n, op) <==> Seen(g', n, op) {
      if n in g.mem {
        NothingOfFailed(g, n);
      }
    }
    SameSeen(g, g', past, e);
    assert e'.history == e.history;
    forall x ensures x in e'.history <==> x in past || IsSeen(g', x) {
    }
  }

  lemma GroupStepRefines(g: Group.State, step: Group.Step, g': Group.State, past: set<Entry>, e: State, e': State)
    requires Group.Inv(g) && Refines(g, past, e) && Group.Next(g, step, g') && NumbersLeft(g') && EngineMoves(g, step, e, e')
    ensures Refines(g', past, e')
  {
    match step
    case Log(ok) => LogRefines(g, ok, g', past, e, e');
    case Insert => InsertRefines(g, g', past, e);
    case Finish =>
      if g.phase.log == Group.Failed {
        FailRefines(g, g', past, e, e');
      } else {
        FinishRefines(g, g', past, e, e');
      }
    case _ => QuietStepRefines(g, step, g', past, e);
  }

  lemma BackgroundRefines(g: Group.State, past: set<Entry>, e: State, step: Step, e': State)
    requires Refines(g, past, e) && Next(e, step, e') && IsBackground(step)
    ensures Refines(g, past, e')
  {
    assert e'.history == e.history && e'.lastSequence == e.lastSequence && e'.inflight == e.inflight;
    forall x ensures x in e'.history <==> x in past || IsSeen(g, x) {
      assert x in e.history <==> x in past || IsSeen(g, x);
    }
  }

  lemma RestartRefines(b: Both, lost: bool, recovery: Step, b': Both)
    requires Restarts(b, lost, recovery, b')
    ensures Group.Inv(b'.g) && Refines(b'.g, b'.past, b'.e)
  {
    forall n: nat, op ensures !Seen(b'.g, n, op) {
    }
  }

  // ----- The engine can always follow -----

  lemma MergedRecord(mem: seq<Entry>, r: LogRecord, n: nat) returns (merged: seq<Entry>)
    requires Fits(r) && n <= |r.ops| && Sorted(mem) && forall x :: x in mem ==> x.key.sequence < r.sequence
    ensures Sorted(merged) && TableEntries(merged) == TableEntries(mem) + Recovery.FirstEntries(r, n)
    ensures forall x :: x in merged ==> x.key.sequence < r.sequence + n
  {
    if n == 0 {
      merged := mem;
    } else {
      var before := MergedRecord(mem, r, n - 1);
      var x := EntryAt(r, n - 1);
      Recovery.InsertedEntry(before, x);
      Recovery.FirstEntriesStep(r, n - 1, x);
      merged := Merge2([x], before);
      Merge2Members([x], before);
    }
  }

  /** Whatever the group protocol does next, the engine has a step for it, or stays as it is. */
  lemma EngineFollows(g: Group.State, step: Group.Step, g': Group.State, past: set<Entry>, e: State) returns (e': State)
    requires Group.Inv(g) && Inv(e) && Refines(g, past, e) && Group.Next(g, step, g') && NumbersLeft(g')
    ensures EngineMoves(g, step, e, e')
    ensures e' == e || exists engineStep :: Next(e, engineStep, e')
  {
    e' := e;
    if step.Log? && step.ok {
      e' := Appended(e, OpsFor(g.phase.ops));
      assert Next(e, Append(OpsFor(g.phase.ops)), e');
    } else if step.Finish? && g.phase.log == Group.Failed {
      e' := Skipped(e, |g.phase.ops|);
      assert Next(e, Skip(|g.phase.ops|), e');
    } else if step.Finish? {
      e' := Applied(e);
      assert Next(e, Apply, e');
    }
  }

  lemma Appended(e: State, ops: seq<Op>) returns (e': State)
    requires Inv(e) && e.inflight.None? && e.lastSequence + 1 + |ops| <= MAX_SEQUENCE
    ensures NextAppend(e, ops, e')
  {
    var r := LogRecord(e.lastSequence + 1, ops);
    e' := e.(logs := e.logs[e.logFileNumber := e.logs[e.logFileNumber] + [r]], inflight := Some(r));
  }

  lemma Skipped(e: State, count: nat) returns (e': State)
    requires e.inflight.None? && e.lastSequence + count < MAX_SEQUENCE
    ensures NextSkip(e, count, e')
  {
    e' := e.(lastSequence := e.lastSequence + count);
  }

  lemma Applied(e: State) returns (e': State)
    requires Inv(e) && e.inflight.Some?
    ensures NextApply(e, e')
  {
    var r := e.inflight.value;
    var merged := MergedRecord(e.mem, r, |r.ops|);
    assert Recovery.FirstEntries(r, |r.ops|) == RecordEntries(r);
    e' := e.(mem := merged, inflight := None, lastSequence := e.lastSequence + InflightCount(e), history := e.history + RecordEntries(r),
             recorded := RecordedAfter(e));
  }

  // ----- Runs of both -----

  ghost predicate BothRun(trace: seq<Both>, events: seq<Event>) {
    && |trace| == |events| + 1
    && Group.Initial(trace[0].g) && trace[0].g.start == 0 && Initial(trace[0].e) && trace[0].past == {}
    && forall i :: 0 <= i < |events| ==> Moves(trace[i], events[i], trace[i + 1])
  }

  /** Every compaction among the background steps is sealed. */
  ghost predicate SealedEvents(trace: seq<Both>, events: seq<Event>)
    requires |trace| == |events| + 1
  {
    forall i :: 0 <= i < |events| ==> SealedEvent(trace[i], events[i])
  }

  ghost predicate Joined(b: Both) {
    Group.Inv(b.g) && Inv(b.e) && Refines(b.g, b.past, b.e)
  }

  ghost predicate SealedEvent(b: Both, event: Event) {
    event.Background? ==> SealedStep(b.e, event.bg)
  }

  lemma GroupMoveKeeps(b: Both, step: Group.Step, b': Both)
    requires Joined(b) && Moves(b, OfGroup(step), b')
    ensures Joined(b') && (Reads(b.e) ==> Reads(b'.e))
  {
    Group.StepKeeps(b.g, step, b'.g);
    GroupStepRefines(b.g, step, b'.g, b.past, b.e, b'.e);
    if step.Log? && step.ok {
      AppendKeeps(b.e, OpsFor(b.g.phase.ops), b'.e);
    } else if step.Finish? && b.g.phase.log == Group.Failed {
      SkipKeeps(b.e, |b.g.phase.ops|, b'.e);
    } else if step.Finish? {
      ApplyKeeps(b.e, b'.e);
    }
  }

  lemma MoveKeeps(b: Both, event: Event, b': Both)
    requires Joined(b) && Moves(b, event, b')
    ensures Joined(b') && (Reads(b.e) && SealedEvent(b, event) ==> Reads(b'.e))
  {
    match event
    case OfGroup(step) => GroupMoveKeeps(b, step, b');
    case Background(step) =>
      BackgroundRefines(b.g, b.past, b.e, step, b'.e);
      StepKeeps(b.e, step, b'.e);
      if SealedStep(b.e, step) {
        SealedStepIsSafe(b.e, step, b'.e);
      }
    case Restart(lost, recovery) =>
      RestartKeeps(b.e, lost, recovery, b'.e);
      RestartRefines(b, lost, recovery, b');
  }

  lemma RestartKeeps(e: State, lost: bool, recovery: Step, e': State)
    requires Inv(e) && recovery.Recover? && exists left :: Leaves(e, lost, left) && Next(left, recovery, e')
    ensures Inv(e') && (Reads(e) ==> Reads(e')) && e.history <= e'.history
  {
    var left :| Leaves(e, lost, left) && Next(left, recovery, e');
    if lost {
      LoseKeeps(e);
    }
    StepKeeps(left, recovery, e');
    HistoryOnlyGrows(left, recovery, e');
  }

  /** Writers in groups, log writes that fail, flushes, moves, compactions and snapshots in between, and
      crashes: the engine's acknowledged writes are at every moment those of before the last crash and
      the updates visible at LastSequence. */
  lemma {:induction false} EveryBothRun(trace: seq<Both>, events: seq<Event>, n: nat)
    requires BothRun(trace, events) && n < |trace|
    ensures Joined(trace[n])
    ensures SealedEvents(trace, events) ==> Reads(trace[n].e)
  {
    if n == 0 {
      FirstRefines(trace[0]);
    } else {
      EveryBothRun(trace, events, n - 1);
      MoveKeeps(trace[n - 1], events[n - 1], trace[n]);
    }
  }

  lemma FirstRefines(b: Both)
    requires Group.Initial(b.g) && b.g.start == 0 && Initial(b.e) && b.past == {}
    ensures Joined(b) && Reads(b.e)
  {
    InitialIsGood(b.e);
  }

  // ----- What was answered with success stays -----

  lemma NumbersArePositive(g: Group.State, i: nat)
    requires Group.Inv(g) && i < |g.commits|
    ensures g.commits[i].first > 0
  {
    assert Group.Follows(g.commits, g.start, 0);
    if i > 0 {
      Group.EarlierBelow(g.commits, g.start, g.lastSequence, 0, i);
    }
  }

  lemma CommittedIsSeen(g: Group.State, i: nat, q: nat, op: BatchOp)
    requires Group.Inv(g) && i < |g.commits| && Group.InCommit(g.commits[i], q, op) && 0 < q <= g.lastSequence
    ensures Seen(g, q, op)
  {
    assert Group.Stored(g, q, op);
  }

  lemma SuccessIsAcknowledged(b: Both, i: nat, q: nat, op: BatchOp)
    requires Joined(b) && i < |b.g.commits| && Group.InCommit(b.g.commits[i], q, op)
    ensures 0 < q <= MAX_SEQUENCE && EntryFor(q, op) in b.e.history
  {
    Group.CommittedBelow(b.g, i, q, op);
    NumbersArePositive(b.g, i);
    CommittedIsSeen(b.g, i, q, op);
    assert IsSeen(b.g, EntryFor(q, op));
  }

  lemma MoveKeepsHistory(b: Both, event: Event, b': Both)
    requires Inv(b.e) && Moves(b, event, b')
    ensures b.e.history <= b'.e.history
  {
    match event
    case OfGroup(step) => GroupMoveKeepsHistory(b.g, step, b.e, b'.e);
    case Background(step) => HistoryOnlyGrows(b.e, step, b'.e);
    case Restart(lost, recovery) => RestartKeeps(b.e, lost, recovery, b'.e);
  }

  lemma GroupMoveKeepsHistory(g: Group.State, step: Group.Step, e: State, e': State)
    requires EngineMoves(g, step, e, e')
    ensures e.history <= e'.history
  {
  }

  ghost predicate GrowsAt(trace: seq<Both>, i: nat)
    requires i + 1 < |trace|
  {
    trace[i].e.history <= trace[i + 1].e.history
  }

  lemma {:induction false} HistoryStays(trace: seq<Both>, n: nat, m: nat)
    requires n <= m < |trace| && forall i: nat :: i + 1 < |trace| ==> GrowsAt(trace, i)
    ensures trace[n].e.history <= trace[m].e.history
    decreases m
  {
    if n < m {
      HistoryStays(trace, n, m - 1);
      assert GrowsAt(trace, m - 1);
    }
  }

  lemma RunGrows(trace: seq<Both>, events: seq<Event>, i: nat)
    requires BothRun(trace, events) && i < |events|
    ensures GrowsAt(trace, i)
  {
    EveryBothRun(trace, events, i);
    MoveKeepsHistory(trace[i], events[i], trace[i + 1]);
  }

  /** An acknowledged write stays one, through any number of crashes. */
  lemma HistoryIsKept(trace: seq<Both>, events: seq<Event>, n: nat, m: nat)
    requires BothRun(trace, events) && n <= m < |trace|
    ensures trace[n].e.history <= trace[m].e.history
  {
    forall i: nat | i + 1 < |trace| ensures GrowsAt(trace, i) {
      RunGrows(trace, events, i);
    }
    HistoryStays(trace, n, m);
  }

  /** An update answered with success is an acknowledged write from then on, through any number of
      crashes, and at every later moment the store reads by all acknowledged writes. */
  lemma SuccessIsForever(trace: seq<Both>, events: seq<Event>, n: nat, m: nat, i: nat, q: nat, op: BatchOp)
    requires BothRun(trace, events) && n <= m < |trace| && SealedEvents(trace, events)
    requires i < |trace[n].g.commits| && Group.InCommit(trace[n].g.commits[i], q, op)
    ensures 0 < q <= MAX_SEQUENCE && EntryFor(q, op) in trace[m].e.history && q <= trace[m].e.lastSequence
    ensures Inv(trace[m].e) && Reads(trace[m].e)
  {
    EveryBothRun(trace, events, n);
    EveryBothRun(trace, events, m);
    SuccessIsAcknowledged(trace[n], i, q, op);
    HistoryIsKept(trace, events, n, m);
  }

  /** ... so also after a crash at any later moment. */
  lemma SuccessSurvivesCrash(trace: seq<Both>, events: seq<Event>, n: nat, m: nat, i: nat, q: nat, op: BatchOp,
                             files: seq<File>, newLog: nat, next: Version, last: nat, nextFile: nat, e': State)
    requires BothRun(trace, events) && n <= m < |trace| && SealedEvents(trace, events)
    requires i < |trace[n].g.commits| && Group.InCommit(trace[n].g.commits[i], q, op)
    requires NextRecover(trace[m].e, files, newLog, next, last, nextFile, e')
    ensures 0 < q <= MAX_SEQUENCE && EntryFor(q, op) in trace[m].e.history && EntryFor(q, op) in e'.history
    ensures Inv(e') && Reads(e') && q <= e'.lastSequence
  {
    SuccessIsForever(trace, events, n, m, i, q, op);
    RecoverKeeps(trace[m].e, files, newLog, next, last, nextFile, e');
  }
}
