/** Reading the log back, whole or cut off at any byte by a crash (db/log_reader.cc). */
module LogReader {
  import opened InternalKeys
  import opened Coding
  import opened LogWriter

  /** The checksum test on the bytes of one physical record. */
  type Check = Bytes -> bool

  /** The stored checksum, unmasked, is that of the type byte and the payload. */
  predicate Matches(crc: Crc, b: Bytes) {
    |b| >= HEADER_SIZE && Unmask(DecodeFixed32(b)) == crc(b[6..])
  }

  // ----- The parser on positions -----

  /** What the bytes at a position hold: nothing more, something to drop, or a fragment. */
  datatype PhysicalRecord = Eof | Bad(report: Option<nat>, next: nat) | Piece(fragment: Fragment, next: nat)

  function BlockEnd(p: nat): nat {
    p + Left(p)
  }

  /** What the unread bytes b of a block say; b starts at position p, and `last` says that the file
      ends inside this block.  There a cut-off record is silently the end; elsewhere it is corruption. */
  function ParseBuffer(check: Check, b: Bytes, p: nat, last: bool): (r: PhysicalRecord)
    requires |b| >= HEADER_SIZE
    ensures r.Bad? || r.Piece? ==> p < r.next <= p + |b|
  {
    var length := b[4] as nat + 256 * b[5] as nat;
    if HEADER_SIZE + length > |b| then
      if last then Eof else Bad(Some(|b|), p + |b|)
    else if b[6] == ZERO_TYPE && length == 0 then
      Bad(None, p + |b|)
    else if !check(b[..HEADER_SIZE + length]) then
      Bad(Some(|b|), p + |b|)
    else
      Piece(Fragment(b[6], b[HEADER_SIZE..HEADER_SIZE + length]), p + HEADER_SIZE + length)
  }

  /** The physical record at position p of any file. */
  function ReadAt(check: Check, file: Bytes, p: nat): (r: PhysicalRecord)
    requires p <= |file|
    ensures r.Bad? || r.Piece? ==> p < r.next <= |file|
    decreases |file| - p
  {
    var last := BlockEnd(p) > |file|;
    var stop := if last then |file| else BlockEnd(p);
    if stop - p < HEADER_SIZE then
      if last then Eof else ReadAt(check, file, stop)
    else
      ParseBuffer(check, file[p..stop], p, last)
  }

  /** The next record, or the end, with the sizes of the corruptions reported on the way. */
  datatype Logical = End(reports: seq<nat>) | Got(record: Bytes, next: nat, reports: seq<nat>)

  function Reported(reports: seq<nat>, r: Logical): Logical {
    match r
    case End(more) => End(reports + more)
    case Got(record, next, more) => Got(record, next, reports + more)
  }

  function ReportOf(report: Option<nat>): seq<nat> {
    if report.Some? then [report.value] else []
  }

  datatype Taken = More(pending: Option<Bytes>, reports: seq<nat>) | Whole(record: Bytes, reports: seq<nat>)

  /** One fragment, with the record begun so far, if any. */
  function Take(f: Fragment, pending: Option<Bytes>): Taken {
    var unfinished := if pending.Some? && pending.value != [] then [|pending.value|] else [];
    if f.typ == FULL_TYPE then Whole(f.payload, unfinished)
    else if f.typ == FIRST_TYPE then More(Some(f.payload), unfinished)
    else if f.typ == MIDDLE_TYPE then
      if pending.None? then More(None, [|f.payload|]) else More(Some(pending.value + f.payload), [])
    else if f.typ == LAST_TYPE then
      if pending.None? then More(None, [|f.payload|]) else Whole(pending.value + f.payload, [])
    else More(None, [|f.payload| + if pending.Some? then |pending.value| else 0])
  }

  /** The fragment state machine of ReadRecord on positions. */
  function ReadFrom(check: Check, file: Bytes, p: nat, pending: Option<Bytes>): (r: Logical)
    requires p <= |file|
    ensures r.Got? ==> p < r.next <= |file|
    decreases |file| - p
  {
    match ReadAt(check, file, p)
    case Eof => End([])
    case Bad(report, next) =>
      Reported(ReportOf(report) + (if pending.Some? then [|pending.value|] else []), ReadFrom(check, file, next, None))
    case Piece(f, next) =>
      match Take(f, pending)
      case More(pending', reports) => Reported(reports, ReadFrom(check, file, next, pending'))
      case Whole(record, reports) => Got(record, next, reports)
  }

  lemma BlockEndIs(p: nat, k: nat)
    requires BLOCK_SIZE * k <= p < BLOCK_SIZE * (k + 1)
    ensures BlockEnd(p) == BLOCK_SIZE * (k + 1)
  {
  }

  lemma TrailerSkipped(check: Check, file: Bytes, p: nat, e: nat, k: nat)
    requires p <= e <= |file| && e == BLOCK_SIZE * k && e - p < HEADER_SIZE
    ensures ReadAt(check, file, p) == ReadAt(check, file, e)
  {
    if p < e {
      BlockEndIs(p, k - 1);
    }
  }

  // ----- The reader -----

  datatype RecordType = EofRecord | BadRecord | Record(fragment: Fragment)

  datatype Outcome = Continue | Done(record: Bytes) | AtEnd

  function Pending(inFragmentedRecord: bool, scratch: Bytes): Option<Bytes> {
    if inFragmentedRecord then Some(scratch) else None
  }

  /** From position p with `pending` begun, the reader got as far as `outcome` at position q, with
      `after` begun and the sizes `sent` reported. */
  ghost predicate Reached(check: Check, file: Bytes, p: nat, pending: Option<Bytes>, outcome: Outcome, q: nat, after: Option<Bytes>, sent: seq<nat>)
    requires p <= |file|
  {
    q <= |file| &&
    match outcome
    case Continue => ReadFrom(check, file, p, pending) == Reported(sent, ReadFrom(check, file, q, after))
    case Done(record) => ReadFrom(check, file, p, pending) == Got(record, q, sent)
    case AtEnd => ReadFrom(check, file, p, pending) == End(sent) && q == |file|
  }

  lemma ReachedStart(check: Check, file: Bytes, p: nat, pending: Option<Bytes>)
    requires p <= |file|
    ensures Reached(check, file, p, pending, Continue, p, pending, [])
  {
    match ReadFrom(check, file, p, pending)
    case End(more) => assert [] + more == more;
    case Got(_, _, more) => assert [] + more == more;
  }

  lemma ReachedFurther(check: Check, file: Bytes, p: nat, pending: Option<Bytes>, q: nat, after: Option<Bytes>, sent: seq<nat>,
                       outcome: Outcome, q': nat, after': Option<Bytes>, sent': seq<nat>)
    requires p <= |file| && Reached(check, file, p, pending, Continue, q, after, sent)
    requires Reached(check, file, q, after, outcome, q', after', sent')
    ensures Reached(check, file, p, pending, outcome, q', after', sent + sent')
  {
    if outcome.Continue? {
      match ReadFrom(check, file, q', after')
      case End(more) => assert sent + (sent' + more) == sent + sent' + more;
      case Got(_, _, more) => assert sent + (sent' + more) == sent + sent' + more;
    }
  }

  lemma ReachedByEof(check: Check, file: Bytes, p: nat, pending: Option<Bytes>)
    requires p <= |file| && ReadAt(check, file, p) == Eof
    ensures Reached(check, file, p, pending, AtEnd, |file|, pending, [])
  {
  }

  lemma ReachedByBad(check: Check, file: Bytes, p: nat, pending: Option<Bytes>, report: Option<nat>, q: nat)
    requires p <= |file| && ReadAt(check, file, p) == Bad(report, q)
    ensures Reached(check, file, p, pending, Continue, q, None, ReportOf(report) + if pending.Some? then [|pending.value|] else [])
  {
  }

  lemma ReachedByPiece(check: Check, file: Bytes, p: nat, pending: Option<Bytes>, f: Fragment, q: nat, after: Option<Bytes>)
    requires p <= |file| && ReadAt(check, file, p) == Piece(f, q)
    requires Take(f, pending).More? ==> after == Take(f, pending).pending
    ensures Reached(check, file, p, pending, if Take(f, pending).More? then Continue else Done(Take(f, pending).record), q, after, Take(f, pending).reports)
  {
  }

  /** What a physical record read at a position means to the caller and the reporter. */
  predicate Delivers(at: PhysicalRecord, r: RecordType, pos: nat, size: nat, before: seq<nat>, after: seq<nat>) {
    match at
    case Eof => r == EofRecord && pos == size && after == before
    case Bad(report, next) => r == BadRecord && pos == next && after == before + ReportOf(report)
    case Piece(f, next) => r == Record(f) && pos == next && after == before
  }

  /** ... and a logical one. */
  predicate Answers(l: Logical, ok: bool, record: Bytes, pos: nat, size: nat, before: seq<nat>, after: seq<nat>) {
    match l
    case End(more) => !ok && pos == size && after == before + more
    case Got(data, next, more) => ok && record == data && pos == next && after == before + more
  }

  /** Reader::Reporter: keeps the sizes it is told about. */
  class Reporter {
    var reports: seq<nat>

    constructor ()
      ensures reports == []
    {
      reports := [];
    }

    method Corruption(bytes: nat)
      modifies this
      ensures reports == old(reports) + [bytes]
    {
      reports := reports + [bytes];
    }
  }

  class Reader {
    const check: Check
    const file: Bytes
    var filePos: nat
    var buffer: Bytes
    var eof: bool
    /** Full blocks read so far. */
    ghost var blocks: nat
    const reporter: Reporter

    constructor (check: Check, file: Bytes, reporter: Reporter)
      ensures this.check == check && this.file == file && this.reporter == reporter && Valid() && Pos() == 0
    {
      this.check, this.file, this.reporter, filePos, buffer, eof, blocks := check, file, reporter, 0, [], false, 0;
    }

    /** The buffer holds the unread rest of one block; a short read means the end of the file. */
    ghost predicate Valid()
      reads this
    {
      && |buffer| <= filePos <= |file| && buffer == file[filePos - |buffer|..filePos]
      && (!eof ==> filePos == BLOCK_SIZE * blocks && |buffer| <= BLOCK_SIZE)
      && (eof ==> filePos == |file| && BLOCK_SIZE * blocks <= Pos() && |file| < BLOCK_SIZE * (blocks + 1))
    }

    /** The position of the first unread byte. */
    ghost function Pos(): nat
      requires |buffer| <= filePos
      reads this
    {
      filePos - |buffer|
    }

    /** Works block by block, and agrees with the parser on positions for every file. */
    method ReadPhysicalRecord() returns (r: RecordType)
      requires Valid()
      modifies this, reporter
      ensures Valid()
      ensures Delivers(ReadAt(check, file, old(Pos())), r, Pos(), |file|, old(reporter.reports), reporter.reports)
    {
      ghost var at := ReadAt(check, file, Pos());
      while |buffer| < HEADER_SIZE
        invariant Valid() && reporter.reports == old(reporter.reports) && ReadAt(check, file, Pos()) == at
        decreases !eof, |file| - filePos
      {
        if eof {
          AtEof();
          ClearBuffer();
          return EofRecord;
        }
        ReadBlock();
      }
      BufferIsBlock();
      r := ParseHeader(at);
    }

    /** Skips a trailer and reads the next block. */
    method ReadBlock()
      requires Valid() && |buffer| < HEADER_SIZE && !eof
      modifies this
      ensures Valid() && reporter.reports == old(reporter.reports)
      ensures ReadAt(check, file, Pos()) == ReadAt(check, file, old(Pos()))
      ensures eof || filePos > old(filePos)
    {
      TrailerSkipped(check, file, Pos(), filePos, blocks);
      FetchBlock();
    }

    method FetchBlock()
      requires Valid() && !eof
      modifies this`buffer, this`filePos, this`eof, this`blocks
      ensures Valid() && Pos() == old(filePos)
      ensures eof || filePos > old(filePos)
    {
      var n := if |file| - filePos < BLOCK_SIZE then |file| - filePos else BLOCK_SIZE;
      buffer := file[filePos..filePos + n];
      filePos := filePos + n;
      if n < BLOCK_SIZE {
        eof := true;
      } else {
        blocks := blocks + 1;
      }
    }

    method ParseHeader(ghost at: PhysicalRecord) returns (r: RecordType)
      requires Valid() && |buffer| >= HEADER_SIZE && at == ParseBuffer(check, buffer, Pos(), eof)
      modifies this, reporter
      ensures Valid()
      ensures Delivers(at, r, Pos(), |file|, old(reporter.reports), reporter.reports)
    {
      var length := buffer[4] as nat + 256 * buffer[5] as nat;
      var typ := buffer[6];
      r := BadRecord;
      if HEADER_SIZE + length > |buffer| {
        if !eof {
          DropBuffer();
        } else {
          ClearBuffer();
          r := EofRecord;
        }
      } else if typ == ZERO_TYPE && length == 0 {
        ClearBuffer();
      } else if !check(buffer[..HEADER_SIZE + length]) {
        DropBuffer();
      } else {
        r := Record(Fragment(typ, buffer[HEADER_SIZE..HEADER_SIZE + length]));
        RemovePrefix(HEADER_SIZE + length);
      }
    }

    /** The rest of the block is dropped, and reported. */
    method DropBuffer()
      requires Valid()
      modifies this`buffer, reporter
      ensures Valid() && Pos() == filePos && reporter.reports == old(reporter.reports) + [|old(buffer)|]
    {
      var dropSize := |buffer|;
      ClearBuffer();
      reporter.Corruption(dropSize);
    }

    method ClearBuffer()
      requires Valid()
      modifies this`buffer
      ensures Valid() && Pos() == filePos
    {
      buffer := [];
    }

    method RemovePrefix(n: nat)
      requires Valid() && n <= |buffer|
      modifies this`buffer
      ensures Valid() && Pos() == old(Pos()) + n
    {
      buffer := buffer[n..];
    }

    /** Less than a header before the end of the file is the end. */
    lemma AtEof()
      requires Valid() && |buffer| < HEADER_SIZE && eof
      ensures ReadAt(check, file, Pos()) == Eof
    {
      BlockEndIs(Pos(), blocks);
    }

    lemma BufferIsBlock()
      requires Valid() && |buffer| >= HEADER_SIZE
      ensures ReadAt(check, file, Pos()) == ParseBuffer(check, buffer, Pos(), eof)
    {
      BlockEndIs(Pos(), if eof then blocks else blocks - 1);
    }

    /** One turn of ReadRecord's loop: takes one physical record into account.  `sent` is what it
        passed to the reporter. */
    method TakeFragment(inFragmentedRecord: bool, scratch: Bytes)
      returns (outcome: Outcome, inFragmentedRecord': bool, scratch': Bytes, ghost sent: seq<nat>)
      requires Valid()
      modifies this, reporter
      ensures Valid() && reporter.reports == old(reporter.reports) + sent
      ensures Reached(check, file, old(Pos()), Pending(inFragmentedRecord, scratch), outcome, Pos(), Pending(inFragmentedRecord', scratch'), sent)
      ensures outcome == Continue ==> Pos() > old(Pos())
    {
      ghost var p, pending := Pos(), Pending(inFragmentedRecord, scratch);
      var r := ReadPhysicalRecord();
      match r
      case EofRecord =>
        outcome, inFragmentedRecord', scratch', sent := AtEnd, inFragmentedRecord, scratch, [];
        ReachedByEof(check, file, p, pending);
      case BadRecord =>
        ghost var at := ReadAt(check, file, p);
        sent := ReportOf(at.report) + if inFragmentedRecord then [|scratch|] else [];
        if inFragmentedRecord {
          reporter.Corruption(|scratch|);
        }
        outcome, inFragmentedRecord', scratch' := Continue, false, [];
        ReachedByBad(check, file, p, pending, at.report, at.next);
      case Record(fragment) =>
        sent := Take(fragment, pending).reports;
        outcome, inFragmentedRecord', scratch' := SwitchType(fragment, inFragmentedRecord, scratch);
        ReachedByPiece(check, file, p, pending, fragment, Pos(), Pending(inFragmentedRecord', scratch'));
    }

    /** The switch on the fragment's type. */
    method SwitchType(fragment: Fragment, inFragmentedRecord: bool, scratch: Bytes)
      returns (outcome: Outcome, inFragmentedRecord': bool, scratch': Bytes)
      modifies reporter
      ensures match Take(fragment, Pending(inFragmentedRecord, scratch))
              case More(pending, sent) =>
                outcome == Continue && Pending(inFragmentedRecord', scratch') == pending && reporter.reports == old(reporter.reports) + sent
              case Whole(record, sent) => outcome == Done(record) && reporter.reports == old(reporter.reports) + sent
    {
      outcome, inFragmentedRecord', scratch' := Continue, inFragmentedRecord, scratch;
      if fragment.typ == FULL_TYPE {
        if inFragmentedRecord && scratch != [] {
          reporter.Corruption(|scratch|);
        }
        outcome := Done(fragment.payload);
      } else if fragment.typ == FIRST_TYPE {
        if inFragmentedRecord && scratch != [] {
          reporter.Corruption(|scratch|);
        }
        inFragmentedRecord', scratch' := true, fragment.payload;
      } else if fragment.typ == MIDDLE_TYPE {
        if !inFragmentedRecord {
          reporter.Corruption(|fragment.payload|);
        } else {
          scratch' := scratch + fragment.payload;
        }
      } else if fragment.typ == LAST_TYPE {
        if !inFragmentedRecord {
          reporter.Corruption(|fragment.payload|);
        } else {
          outcome := Done(scratch + fragment.payload);
        }
      } else {
        reporter.Corruption(|fragment.payload| + if inFragmentedRecord then |scratch| else 0);
        inFragmentedRecord', scratch' := false, [];
      }
    }

    method GoOn(inFragmentedRecord: bool, scratch: Bytes, ghost p: nat, ghost before: seq<nat>, ghost total: seq<nat>)
      returns (outcome: Outcome, inFragmentedRecord': bool, scratch': Bytes, ghost total': seq<nat>)
      requires Valid() && p <= |file| && reporter.reports == before + total
      requires Reached(check, file, p, None, Continue, Pos(), Pending(inFragmentedRecord, scratch), total)
      modifies this, reporter
      ensures Valid() && reporter.reports == before + total'
      ensures Reached(check, file, p, None, outcome, Pos(), Pending(inFragmentedRecord', scratch'), total')
      ensures outcome == Continue ==> Pos() > old(Pos())
    {
      ghost var q, pending := Pos(), Pending(inFragmentedRecord, scratch);
      ghost var sent: seq<nat>;
      outcome, inFragmentedRecord', scratch', sent := TakeFragment(inFragmentedRecord, scratch);
      ReachedFurther(check, file, p, None, q, pending, total, outcome, Pos(), Pending(inFragmentedRecord', scratch'), sent);
      total' := total + sent;
    }

    /** Assembles the next record from its fragments; false at the end.  Whatever the file holds,
        the result and the reports are those of the parser on positions. */
    method ReadRecord() returns (ok: bool, record: Bytes)
      requires Valid()
      modifies this, reporter
      ensures Valid()
      ensures Answers(ReadFrom(check, file, old(Pos()), None), ok, record, Pos(), |file|, old(reporter.reports), reporter.reports)
    {
      ghost var p := Pos();
      ghost var total: seq<nat> := [];
      ReachedStart(check, file, p, None);
      var scratch: Bytes := [];
      var inFragmentedRecord := false;
      var outcome := Continue;
      while outcome == Continue
        invariant Valid() && reporter.reports == old(reporter.reports) + total
        invariant Reached(check, file, p, None, outcome, Pos(), Pending(inFragmentedRecord, scratch), total)
        decreases outcome == Continue, |file| - Pos()
      {
        outcome, inFragmentedRecord, scratch, total := GoOn(inFragmentedRecord, scratch, p, old(reporter.reports), total);
      }
      ok := outcome.Done?;
      record := if outcome.Done? then outcome.record else [];
    }
  }
}
