/** Group commit: writers queue, the front one writes a whole group, and readers see batches whole
    (db/db_impl.cc). */
module GroupCommit {
  import opened InternalKeys
  import opened WriteBatch

  /** A queued Write call, with its batch and the batch's size in bytes; a null batch only forces a
      memtable switch. */
  datatype Writer = Writer(id: nat, batch: Option<seq<BatchOp>>, byteSize: nat, sync: bool)

  function OpsOf(w: Writer): seq<BatchOp> {
    if w.batch.Some? then w.batch.value else []
  }

  /** The updates of the first n writers, in queue order. */
  function GroupOps(ws: seq<Writer>, n: nat): seq<BatchOp>
    requires n <= |ws|
  {
    if n == 0 then [] else GroupOps(ws, n - 1) + OpsOf(ws[n - 1])
  }

  function GroupSize(ws: seq<Writer>, n: nat): nat
    requires n <= |ws|
  {
    if n == 0 then 0 else GroupSize(ws, n - 1) + if ws[n - 1].batch.Some? then ws[n - 1].byteSize else 0
  }

  /** 1 MB, or 128 KB more than a small first batch. */
  function MaxSize(first: nat): nat {
    if first <= 0x2_0000 then first + 0x2_0000 else 0x10_0000
  }

  /** Writer i may not join a group the front writer leads. */
  predicate Stops(ws: seq<Writer>, i: nat)
    requires 0 < i < |ws|
  {
    || (ws[i].sync && !ws[0].sync)
    || (ws[i].batch.Some? && GroupSize(ws, i + 1) > MaxSize(GroupSize(ws, 1)))
  }

  /** n is where the front writer's group ends: before the first writer that may not join. */
  ghost predicate IsGroup(ws: seq<Writer>, n: nat) {
    && 0 < n <= |ws| && ws[0].batch.Some?
    && (forall i :: 0 < i < n ==> !Stops(ws, i))
    && (n < |ws| ==> Stops(ws, n))
  }

  /** BuildBatchGroup: the longest admissible prefix of the queue, and its updates in queue order. */
  method BuildBatchGroup(writers: seq<Writer>) returns (n: nat, result: seq<BatchOp>)
    requires writers != [] && writers[0].batch.Some?
    ensures IsGroup(writers, n) && result == GroupOps(writers, n)
  {
    var first := writers[0];
    var size := first.byteSize;
    var maxSize := 0x10_0000;
    if size <= 0x2_0000 {
      maxSize := size + 0x2_0000;
    }
    result := first.batch.value;
    n := 1;
    assert GroupOps(writers, 0) == [] && GroupSize(writers, 0) == 0;
    assert [] + result == result;
    var growing := true;
    while growing && n < |writers|
      invariant 0 < n <= |writers| && size == GroupSize(writers, n) && result == GroupOps(writers, n)
      invariant forall i :: 0 < i < n ==> !Stops(writers, i)
      invariant !growing ==> n < |writers| && Stops(writers, n)
      decreases growing, |writers| - n
    {
      var w := writers[n];
      if w.sync && !first.sync {
        growing := false;
      } else if w.batch.Some? && size + w.byteSize > maxSize {
        growing := false;
      } else {
        if w.batch.Some? {
          size := size + w.byteSize;
          result := result + w.batch.value;
        } else {
          assert result + [] == result;
        }
        n := n + 1;
      }
    }
  }

  /** No sync write hides in a group that is not synced, and groups of several batches are bounded. */
  lemma {:induction false} GroupMeaning(ws: seq<Writer>, n: nat, i: nat)
    requires IsGroup(ws, n) && i < n
    ensures ws[i].sync ==> ws[0].sync
    ensures i > 0 && ws[i].batch.Some? ==> GroupSize(ws, i + 1) <= MaxSize(GroupSize(ws, 1))
  {
    if i > 0 {
      assert !Stops(ws, i);
    }
  }

  lemma {:induction false} GroupOpsPrefix(ws: seq<Writer>, vs: seq<Writer>, n: nat)
    requires n <= |ws| && n <= |vs| && forall i :: 0 <= i < n ==> ws[i] == vs[i]
    ensures GroupOps(ws, n) == GroupOps(vs, n)
  {
    if n > 0 {
      GroupOpsPrefix(ws, vs, n - 1);
    }
  }

  /** The batch of writer k is a contiguous stretch of its group's updates. */
  lemma {:induction false} BatchInGroup(ws: seq<Writer>, n: nat, k: nat, j: nat)
    requires k < n <= |ws| && j < |OpsOf(ws[k])|
    ensures |GroupOps(ws, k)| + j < |GroupOps(ws, n)|
    ensures GroupOps(ws, n)[|GroupOps(ws, k)| + j] == OpsOf(ws[k])[j]
    decreases n
  {
    assert GroupOps(ws, n) == GroupOps(ws, n - 1) + OpsOf(ws[n - 1]);
    if k < n - 1 {
      BatchInGroup(ws, n - 1, k, j);
    }
  }

  // ----- The protocol -----

  datatype LogStatus = Pending | Logged | Failed

  /** What the leader does outside the lock, for the first `group` writers of the queue. */
  datatype Phase = Idle | Writing(group: nat, first: nat, ops: seq<BatchOp>, log: LogStatus, inserted: nat)

  /** A finished group: its writers, the sequence numbers its updates took, and the status they got. */
  datatype Commit = Commit(writers: seq<Writer>, first: nat, ops: seq<BatchOp>, ok: bool)

  datatype State = State(queue: seq<Writer>, phase: Phase, lastSequence: nat, mem: map<nat, BatchOp>,
                         commits: seq<Commit>, enqueued: seq<Writer>, start: nat)

  datatype Step = Enqueue(w: Writer) | Lead | LeadNothing(ok: bool) | Log(ok: bool) | Insert | Finish

  /** A thread joins the queue; this may happen while the leader has released the lock. */
  ghost predicate NextEnqueue(s: State, w: Writer, s': State) {
    s' == s.(queue := s.queue + [w], enqueued := s.enqueued + [w])
  }

  ghost predicate NextLead(s: State, s': State) {
    && s.phase == Idle && s.queue != [] && s.queue[0].batch.Some?
    && exists n :: IsGroup(s.queue, n) && s' == s.(phase := Writing(n, s.lastSequence + 1, GroupOps(s.queue, n), Pending, 0))
  }

  /** The front writer has no batch, or MakeRoomForWrite failed: it is answered alone. */
  ghost predicate NextLeadNothing(s: State, ok: bool, s': State) {
    && s.phase == Idle && s.queue != [] && (ok ==> s.queue[0].batch == None)
    && s' == s.(queue := s.queue[1..], commits := s.commits + [Commit([s.queue[0]], s.lastSequence + 1, [], ok)])
  }

  ghost predicate NextLog(s: State, ok: bool, s': State) {
    && s.phase.Writing? && s.phase.log == Pending
    && s' == s.(phase := s.phase.(log := if ok then Logged else Failed))
  }

  /** MemTableInserter: one update, under the next sequence number. */
  ghost predicate NextInsert(s: State, s': State) {
    && s.phase.Writing? && s.phase.log == Logged && s.phase.inserted < |s.phase.ops|
    && s' == s.(mem := s.mem[s.phase.first + s.phase.inserted := s.phase.ops[s.phase.inserted]],
                phase := s.phase.(inserted := s.phase.inserted + 1))
  }

  /** Back under the lock: LastSequence moves past the group, whatever the status, and the group's
      writers leave the queue with it. */
  ghost predicate NextFinish(s: State, s': State) {
    && s.phase.Writing? && s.phase.group <= |s.queue|
    && (s.phase.log == Failed || (s.phase.log == Logged && s.phase.inserted == |s.phase.ops|))
    && s' == s.(queue := s.queue[s.phase.group..], phase := Idle, lastSequence := s.lastSequence + |s.phase.ops|,
                commits := s.commits + [Commit(s.queue[..s.phase.group], s.phase.first, s.phase.ops, s.phase.log == Logged)])
  }

  ghost predicate Next(s: State, step: Step, s': State) {
    match step
    case Enqueue(w) => NextEnqueue(s, w, s')
    case Lead => NextLead(s, s')
    case LeadNothing(ok) => NextLeadNothing(s, ok, s')
    case Log(ok) => NextLog(s, ok, s')
    case Insert => NextInsert(s, s')
    case Finish => NextFinish(s, s')
  }

  /** A store just opened: numbers are given out from what recovery found on. */
  ghost predicate Initial(s: State) {
    s == State([], Idle, s.start, map[], [], [], s.start)
  }

  // ----- Invariants -----

  /** The writers answered so far, in order. */
  function Answered(commits: seq<Commit>, n: nat): seq<Writer>
    requires n <= |commits|
  {
    if n == 0 then [] else Answered(commits, n - 1) + commits[n - 1].writers
  }

  function After(c: Commit): nat {
    c.first + |c.ops|
  }

  /** Group i took the numbers right after the one before. */
  ghost predicate Follows(commits: seq<Commit>, start: nat, i: int) {
    0 <= i < |commits| ==> commits[i].first == if i == 0 then start + 1 else After(commits[i - 1])
  }

  /** ... and LastSequence is the last number taken. */
  ghost predicate Contiguous(commits: seq<Commit>, start: nat, last: nat) {
    && (forall i :: Follows(commits, start, i))
    && last + 1 == if |commits| == 0 then start + 1 else After(commits[|commits| - 1])
  }

  /** A group answered with success wrote exactly its writers' updates. */
  ghost predicate WholeGroups(commits: seq<Commit>) {
    forall i :: 0 <= i < |commits| && commits[i].ok ==> commits[i].ops == GroupOps(commits[i].writers, |commits[i].writers|)
  }

  /** Sequence number n belongs to update n - first of a group that succeeded. */
  ghost predicate InCommit(c: Commit, n: nat, op: BatchOp) {
    c.ok && c.first <= n < After(c) && c.ops[n - c.first] == op
  }

  ghost predicate InProgress(p: Phase, n: nat, op: BatchOp) {
    p.Writing? && p.first <= n < p.first + p.inserted && p.inserted <= |p.ops| && p.ops[n - p.first] == op
  }

  ghost predicate Stored(s: State, n: nat, op: BatchOp) {
    InProgress(s.phase, n, op) || exists i :: 0 <= i < |s.commits| && InCommit(s.commits[i], n, op)
  }

  /** The memtable holds the updates of successful groups, and the ones the leader has inserted. */
  ghost predicate MemIs(s: State) {
    forall n: nat, op :: n in s.mem && s.mem[n] == op <==> Stored(s, n, op)
  }

  ghost predicate PhaseIs(s: State) {
    s.phase.Writing? ==>
      && 0 < s.phase.group <= |s.queue| && s.phase.first == s.lastSequence + 1 && s.phase.inserted <= |s.phase.ops|
      && s.phase.ops == GroupOps(s.queue, s.phase.group) && (s.phase.log != Logged ==> s.phase.inserted == 0)
  }

  ghost predicate Inv(s: State) {
    && PhaseIs(s) && Contiguous(s.commits, s.start, s.lastSequence) && WholeGroups(s.commits) && MemIs(s)
    && Answered(s.commits, |s.commits|) + s.queue == s.enqueued
  }

  lemma {:induction false} AnsweredPrefix(a: seq<Commit>, b: seq<Commit>, n: nat)
    requires n <= |a| && n <= |b| && forall i :: 0 <= i < n ==> a[i] == b[i]
    ensures Answered(a, n) == Answered(b, n)
  {
    if n > 0 {
      AnsweredPrefix(a, b, n - 1);
    }
  }

  lemma {:induction false} EarlierBelow(commits: seq<Commit>, start: nat, last: nat, i: nat, j: nat)
    requires Contiguous(commits, start, last) && i < j < |commits|
    ensures After(commits[i]) <= commits[j].first
    decreases j
  {
    assert Follows(commits, start, j);
    if i < j - 1 {
      EarlierBelow(commits, start, last, i, j - 1);
    }
  }

  /** Sequence numbers are never used twice, and none is past LastSequence. */
  lemma NumbersApart(commits: seq<Commit>, start: nat, last: nat, i: nat, j: nat)
    requires Contiguous(commits, start, last) && i <= j < |commits|
    ensures i < j ==> After(commits[i]) <= commits[j].first
    ensures After(commits[j]) <= last + 1
  {
    if i < j {
      EarlierBelow(commits, start, last, i, j);
    }
    if j < |commits| - 1 {
      EarlierBelow(commits, start, last, j, |commits| - 1);
    }
  }

  lemma EnqueueKeeps(s: State, w: Writer, s': State)
    requires Inv(s) && NextEnqueue(s, w, s')
    ensures Inv(s')
  {
    if s.phase.Writing? {
      GroupOpsPrefix(s.queue, s'.queue, s.phase.group);
    }
    forall n: nat, op ensures Stored(s', n, op) <==> Stored(s, n, op) {
    }
  }

  lemma LeadKeeps(s: State, s': State)
    requires Inv(s) && NextLead(s, s')
    ensures Inv(s')
  {
    forall n: nat, op ensures Stored(s', n, op) <==> Stored(s, n, op) {
    }
  }

  lemma CommitsGrow(s: State, c: Commit, s': State)
    requires s'.commits == s.commits + [c]
    ensures Answered(s'.commits, |s'.commits|) == Answered(s.commits, |s.commits|) + c.writers
  {
    AnsweredPrefix(s.commits, s'.commits, |s.commits|);
  }

  lemma ContiguousGrows(commits: seq<Commit>, start: nat, last: nat, c: Commit)
    requires Contiguous(commits, start, last) && c.first == last + 1
    ensures Contiguous(commits + [c], start, last + |c.ops|)
  {
    var more := commits + [c];
    forall i ensures Follows(more, start, i) {
      assert Follows(commits, start, i);
    }
  }

  lemma LeadNothingKeeps(s: State, ok: bool, s': State)
    requires Inv(s) && NextLeadNothing(s, ok, s')
    ensures Inv(s')
  {
    var c := Commit([s.queue[0]], s.lastSequence + 1, [], ok);
    CommitsGrow(s, c, s');
    ContiguousGrows(s.commits, s.start, s.lastSequence, c);
    assert GroupOps(c.writers, 0) == [];
    assert ok ==> GroupOps(c.writers, 1) == [];
    forall n: nat, op ensures Stored(s', n, op) <==> Stored(s, n, op) {
      if i :| 0 <= i < |s.commits| && InCommit(s.commits[i], n, op) {
        assert InCommit(s'.commits[i], n, op);
      }
    }
  }

  lemma LogKeeps(s: State, ok: bool, s': State)
    requires Inv(s) && NextLog(s, ok, s')
    ensures Inv(s')
  {
    forall n: nat, op ensures Stored(s', n, op) <==> Stored(s, n, op) {
    }
  }

  /** Committed updates have numbers the leader does not touch. */
  lemma CommittedBelow(s: State, i: nat, n: nat, op: BatchOp)
    requires Contiguous(s.commits, s.start, s.lastSequence) && i < |s.commits| && InCommit(s.commits[i], n, op)
    ensures n <= s.lastSequence
  {
    NumbersApart(s.commits, s.start, s.lastSequence, i, i);
  }

  lemma InsertKeeps(s: State, s': State)
    requires Inv(s) && NextInsert(s, s')
    ensures Inv(s')
  {
    var m, newOp := s.phase.first + s.phase.inserted, s.phase.ops[s.phase.inserted];
    forall n: nat, op ensures n in s'.mem && s'.mem[n] == op <==> Stored(s', n, op) {
      assert n in s.mem && s.mem[n] == op <==> Stored(s, n, op);
      if i :| 0 <= i < |s.commits| && InCommit(s.commits[i], n, op) {
        CommittedBelow(s, i, n, op);
      }
    }
  }

  lemma FinishKeeps(s: State, s': State)
    requires Inv(s) && NextFinish(s, s')
    ensures Inv(s')
  {
    var g := s.phase.group;
    var c := Commit(s.queue[..g], s.phase.first, s.phase.ops, s.phase.log == Logged);
    CommitsGrow(s, c, s');
    ContiguousGrows(s.commits, s.start, s.lastSequence, c);
    GroupOpsPrefix(s.queue, c.writers, g);
    assert s.queue == s.queue[..g] + s.queue[g..];
    forall n: nat, op ensures Stored(s', n, op) <==> Stored(s, n, op) {
      if InProgress(s.phase, n, op) {
        assert InCommit(s'.commits[|s.commits|], n, op);
      } else if i :| 0 <= i < |s.commits| && InCommit(s.commits[i], n, op) {
        assert InCommit(s'.commits[i], n, op);
      }
    }
  }

  lemma StepKeeps(s: State, step: Step, s': State)
    requires Inv(s) && Next(s, step, s')
    ensures Inv(s')
  {
    match step
    case Enqueue(w) => EnqueueKeeps(s, w, s');
    case Lead => LeadKeeps(s, s');
    case LeadNothing(ok) => LeadNothingKeeps(s, ok, s');
    case Log(ok) => LogKeeps(s, ok, s');
    case Insert => InsertKeeps(s, s');
    case Finish => FinishKeeps(s, s');
  }

  ghost predicate Run(trace: seq<State>, steps: seq<Step>) {
    && |trace| == |steps| + 1 && Initial(trace[0])
    && forall i :: 0 <= i < |steps| ==> Next(trace[i], steps[i], trace[i + 1])
  }

  /** Whatever the interleaving of writers, every reachable state keeps the invariants: writers are
      answered once each, in queue order, with contiguous sequence numbers. */
  lemma {:induction false} EveryGroupRun(trace: seq<State>, steps: seq<Step>, n: nat)
    requires Run(trace, steps) && n < |trace|
    ensures Inv(trace[n])
  {
    if n > 0 {
      EveryGroupRun(trace, steps, n - 1);
      StepKeeps(trace[n - 1], steps[n - 1], trace[n]);
    }
  }

  /** A reader at LastSequence sees all of the batch, in order, from number `base` on. */
  ghost predicate Shows(s: State, base: nat, batch: seq<BatchOp>) {
    forall j :: 0 <= j < |batch| ==> ShowsAt(s, base + j, batch[j])
  }

  ghost predicate ShowsAt(s: State, n: nat, op: BatchOp) {
    n in s.mem && s.mem[n] == op && n <= s.lastSequence
  }

  /** The numbers of writer k's updates begin where those of the writers before it in the group end. */
  ghost function FirstNumber(c: Commit, k: nat): nat
    requires k <= |c.writers|
  {
    c.first + |GroupOps(c.writers, k)|
  }

  /** At every moment, a reader at LastSequence sees every update of a writer answered with success,
      in order under consecutive numbers, right after those of the writers before it in its group... */
  lemma SuccessIsVisible(trace: seq<State>, steps: seq<Step>, n: nat, i: nat, k: nat)
    requires Run(trace, steps) && n < |trace| && i < |trace[n].commits| && trace[n].commits[i].ok
    requires k < |trace[n].commits[i].writers|
    ensures Shows(trace[n], FirstNumber(trace[n].commits[i], k), OpsOf(trace[n].commits[i].writers[k]))
  {
    EveryGroupRun(trace, steps, n);
    var s := trace[n];
    var c := s.commits[i];
    var base := FirstNumber(c, k);
    var batch := OpsOf(c.writers[k]);
    forall j | 0 <= j < |batch| ensures ShowsAt(s, base + j, batch[j]) {
      BatchInGroup(c.writers, |c.writers|, k, j);
      assert InCommit(c, base + j, batch[j]);
      CommittedBelow(s, i, base + j, batch[j]);
      assert Stored(s, base + j, batch[j]);
    }
  }

  /** ... and sees nothing else: each visible update belongs to exactly one group, and that group was
      answered with success, so none of a batch in flight is seen. */
  lemma VisibleIsWhole(trace: seq<State>, steps: seq<Step>, n: nat, q: nat) returns (i: nat)
    requires Run(trace, steps) && n < |trace| && q in trace[n].mem && q <= trace[n].lastSequence
    ensures i < |trace[n].commits| && trace[n].commits[i].ok && InCommit(trace[n].commits[i], q, trace[n].mem[q])
    ensures forall j :: 0 <= j < |trace[n].commits| && j != i ==> !(trace[n].commits[j].first <= q < After(trace[n].commits[j]))
  {
    EveryGroupRun(trace, steps, n);
    var s := trace[n];
    assert Stored(s, q, s.mem[q]);
    i :| 0 <= i < |s.commits| && InCommit(s.commits[i], q, s.mem[q]);
    forall j | 0 <= j < |s.commits| && j != i ensures !(s.commits[j].first <= q < After(s.commits[j])) {
      if i < j {
        NumbersApart(s.commits, s.start, s.lastSequence, i, j);
      } else {
        NumbersApart(s.commits, s.start, s.lastSequence, j, i);
      }
    }
  }
}
