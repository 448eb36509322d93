/** What is written to the log is read back; a log cut off at any byte gives exactly its complete
    records (db/log_writer.cc, db/log_reader.cc). */
module LogProofs {
  import opened InternalKeys
  import opened Coding
  import opened LogWriter
  import opened LogReader

  /** The reader's test is that of the writer's checksum. */
  ghost predicate Checks(check: Check, crc: Crc) {
    forall b :: check(b) <==> Matches(crc, b)
  }

  /** The rest of the file from p on is `whole`, or a prefix of it. */
  ghost predicate CutOff(file: Bytes, p: nat, whole: Bytes) {
    p <= |file| && |file| - p <= |whole| && forall i :: 0 <= i < |file| - p ==> file[p + i] == whole[i]
  }

  lemma CutOffTail(file: Bytes, p: nat, a: Bytes, b: Bytes)
    requires CutOff(file, p, a + b) && p + |a| <= |file|
    ensures CutOff(file, p + |a|, b)
  {
    forall i | 0 <= i < |file| - p - |a| ensures file[p + |a| + i] == b[i] {
      assert file[p + (|a| + i)] == (a + b)[|a| + i];
    }
  }

  lemma PhysicalBytes(crc: Crc, f: Fragment)
    requires |f.payload| < 65536
    ensures var b := Physical(crc, f);
      && b[4] as nat + 256 * b[5] as nat == |f.payload| && b[6] == f.typ
      && b[HEADER_SIZE..] == f.payload && b[6..] == [f.typ] + f.payload && Matches(crc, b)
  {
    var b := Physical(crc, f);
    var c := Fixed32(Mask(crc([f.typ] + f.payload)));
    var l := [(|f.payload| % 256) as byte, (|f.payload| / 256) as byte, f.typ];
    assert b == c + (l + f.payload);
    Fixed32RoundTrip(Mask(crc([f.typ] + f.payload)), l + f.payload);
    MaskRoundTrip(crc([f.typ] + f.payload));
    assert b[4] == l[0] && b[5] == l[1] && b[6] == l[2];
    assert b[6..] == [f.typ] + f.payload;
  }

  lemma ParsePhysical(check: Check, crc: Crc, b: Bytes, f: Fragment, p: nat, last: bool)
    requires Checks(check, crc) && |f.payload| < 65536 && f.typ != ZERO_TYPE
    requires HEADER_SIZE <= |b|
    requires forall i :: 0 <= i < |b| && i < HEADER_SIZE + |f.payload| ==> b[i] == Physical(crc, f)[i]
    ensures |b| >= HEADER_SIZE + |f.payload| ==> ParseBuffer(check, b, p, last) == Piece(f, p + HEADER_SIZE + |f.payload|)
    ensures |b| < HEADER_SIZE + |f.payload| && last ==> ParseBuffer(check, b, p, last) == Eof
  {
    PhysicalBytes(crc, f);
    var n := HEADER_SIZE + |f.payload|;
    if |b| >= n {
      assert b[..n] == Physical(crc, f);
      assert b[HEADER_SIZE..n] == b[..n][HEADER_SIZE..];
    }
  }

  /** After any trailer: a fragment that fits its block is read if it is all there, and is the end of
      the file if not. */
  lemma ReadAligned(check: Check, crc: Crc, file: Bytes, p: nat, f: Fragment, tail: Bytes)
    requires Checks(check, crc) && |f.payload| < 65536 && f.typ != ZERO_TYPE
    requires HEADER_SIZE + |f.payload| <= Left(p)
    requires CutOff(file, p, Physical(crc, f) + tail)
    ensures ReadAt(check, file, p) ==
      if |file| >= p + HEADER_SIZE + |f.payload| then Piece(f, p + HEADER_SIZE + |f.payload|) else Eof
  {
    var last := BlockEnd(p) > |file|;
    var stop := if last then |file| else BlockEnd(p);
    if stop - p >= HEADER_SIZE {
      var b := file[p..stop];
      forall i | 0 <= i < |b| && i < HEADER_SIZE + |f.payload| ensures b[i] == Physical(crc, f)[i] {
        assert b[i] == file[p + i] == (Physical(crc, f) + tail)[i];
      }
      ParsePhysical(check, crc, b, f, p, last);
    }
  }

  lemma SkipPad(check: Check, file: Bytes, p: nat)
    requires p <= |file| && Pad(p) > 0
    ensures |file| < p + Pad(p) ==> ReadAt(check, file, p) == Eof
    ensures |file| >= p + Pad(p) ==> ReadAt(check, file, p) == ReadAt(check, file, p + Pad(p))
  {
  }

  lemma ReadFragment(check: Check, crc: Crc, file: Bytes, p: nat, f: Fragment, tail: Bytes)
    requires Checks(check, crc) && f.typ != ZERO_TYPE && FitsAt(p, f)
    requires CutOff(file, p, Zeros(Pad(p)) + Physical(crc, f) + tail)
    ensures ReadAt(check, file, p) == if |file| >= After(p, f) then Piece(f, After(p, f)) else Eof
  {
    Associates(Zeros(Pad(p)), Physical(crc, f), tail);
    if Pad(p) > 0 {
      SkipPad(check, file, p);
    }
    if p + Pad(p) <= |file| {
      ReadBehindPad(check, crc, file, p, f, tail);
    }
  }

  lemma ReadBehindPad(check: Check, crc: Crc, file: Bytes, p: nat, f: Fragment, tail: Bytes)
    requires Checks(check, crc) && f.typ != ZERO_TYPE && FitsAt(p, f) && p + Pad(p) <= |file|
    requires CutOff(file, p, Zeros(Pad(p)) + (Physical(crc, f) + tail))
    ensures ReadAt(check, file, p + Pad(p)) == if |file| >= After(p, f) then Piece(f, After(p, f)) else Eof
  {
    CutOffTail(file, p, Zeros(Pad(p)), Physical(crc, f) + tail);
    ReadAligned(check, crc, file, p + Pad(p), f, tail);
  }

  lemma NothingLeft(check: Check, file: Bytes)
    ensures ReadAt(check, file, |file|) == Eof
  {
  }

  // ----- One record -----

  ghost function Bytes1(crc: Crc, p: nat, data: Bytes, begin: bool): Bytes {
    FragmentsFit(p, data, begin);
    Layout(crc, p, Fragments(p, data, begin))
  }

  function RecordEnd(p: nat, data: Bytes, begin: bool): nat {
    EndOf(p, Fragments(p, data, begin))
  }

  /** The bytes of a record begin with its next fragment. */
  lemma RecordUnfolds(crc: Crc, p: nat, data: Bytes, begin: bool, tail: Bytes)
    ensures var f := NextFragment(p, data, begin);
      && FitsAt(p, f) && f.typ != ZERO_TYPE && |f.payload| <= |data|
      && (|f.payload| == |data| ==>
            Bytes1(crc, p, data, begin) + tail == Zeros(Pad(p)) + Physical(crc, f) + tail && RecordEnd(p, data, begin) == After(p, f))
      && (|f.payload| < |data| ==>
            && Bytes1(crc, p, data, begin) + tail == Zeros(Pad(p)) + Physical(crc, f) + (Bytes1(crc, After(p, f), data[|f.payload|..], false) + tail)
            && RecordEnd(p, data, begin) == RecordEnd(After(p, f), data[|f.payload|..], false))
  {
    var f := NextFragment(p, data, begin);
    PadMeaning(p);
    RestStep(crc, p, data, begin, f);
    if |f.payload| < |data| {
      Associates(Zeros(Pad(p)) + Physical(crc, f), Bytes1(crc, After(p, f), data[|f.payload|..], false), tail);
      LayoutCons(crc, p, f, Fragments(After(p, f), data[|f.payload|..], false));
    } else {
      LayoutCons(crc, p, f, []);
      assert [f] + [] == [f];
    }
  }

  function Begun(pending: Option<Bytes>): Bytes {
    if pending.Some? then pending.value else []
  }

  /** The last fragment of a record. */
  lemma ReadFinalFragment(check: Check, crc: Crc, file: Bytes, p: nat, data: Bytes, pending: Option<Bytes>, tail: Bytes)
    requires Checks(check, crc) && CutOff(file, p, Bytes1(crc, p, data, pending.None?) + tail)
    requires |NextFragment(p, data, pending.None?).payload| == |data|
    ensures ReadFrom(check, file, p, pending) ==
      if |file| >= RecordEnd(p, data, pending.None?) then Got(Begun(pending) + data, RecordEnd(p, data, pending.None?), []) else End([])
  {
    var f := NextFragment(p, data, pending.None?);
    RecordUnfolds(crc, p, data, pending.None?, tail);
    ReadFragment(check, crc, file, p, f, tail);
    assert data[..|data|] == data && [] + data == data;
  }

  /** A fragment with more to come. */
  lemma ReadEarlyFragment(check: Check, crc: Crc, file: Bytes, p: nat, data: Bytes, pending: Option<Bytes>, tail: Bytes)
    requires Checks(check, crc) && CutOff(file, p, Bytes1(crc, p, data, pending.None?) + tail)
    requires |NextFragment(p, data, pending.None?).payload| < |data|
    ensures var f := NextFragment(p, data, pending.None?);
      && (|file| < After(p, f) ==> ReadFrom(check, file, p, pending) == End([]))
      && (|file| >= After(p, f) ==>
            && ReadFrom(check, file, p, pending) == ReadFrom(check, file, After(p, f), Some(Begun(pending) + f.payload))
            && CutOff(file, After(p, f), Bytes1(crc, After(p, f), data[|f.payload|..], false) + tail))
  {
    var f := NextFragment(p, data, pending.None?);
    var rest := Bytes1(crc, After(p, f), data[|f.payload|..], false) + tail;
    RecordUnfolds(crc, p, data, pending.None?, tail);
    ReadFragment(check, crc, file, p, f, rest);
    if |file| >= After(p, f) {
      CutOffTail(file, p, Zeros(Pad(p)) + Physical(crc, f), rest);
      assert [] + f.payload == f.payload;
      ReachedStart(check, file, After(p, f), Some(Begun(pending) + f.payload));
    }
  }

  /** From the start of a record, or from the middle with `pending` read, the reader returns the
      record if all of it is in the file, and otherwise finds the end; it reports nothing. */
  lemma {:induction false} ReadOneRecord(check: Check, crc: Crc, file: Bytes, p: nat, data: Bytes, pending: Option<Bytes>, tail: Bytes)
    requires Checks(check, crc) && CutOff(file, p, Bytes1(crc, p, data, pending.None?) + tail)
    ensures ReadFrom(check, file, p, pending) ==
      if |file| >= RecordEnd(p, data, pending.None?) then Got(Begun(pending) + data, RecordEnd(p, data, pending.None?), []) else End([])
    decreases |data|, Avail(p) == 0
  {
    var f := NextFragment(p, data, pending.None?);
    if |f.payload| == |data| {
      ReadFinalFragment(check, crc, file, p, data, pending, tail);
    } else {
      FreshBlock(p, f);
      RecordUnfolds(crc, p, data, pending.None?, tail);
      ReadEarlyFragment(check, crc, file, p, data, pending, tail);
      if |file| >= After(p, f) {
        ReadOneRecord(check, crc, file, After(p, f), data[|f.payload|..], Some(Begun(pending) + f.payload), tail);
        assert Begun(pending) + f.payload + data[|f.payload|..] == Begun(pending) + data;
      }
    }
  }

  // ----- The whole log -----

  /** The file after writing the records from position p on. */
  ghost function Log(crc: Crc, p: nat, records: seq<Bytes>): Bytes
    decreases |records|
  {
    if records == [] then []
    else Bytes1(crc, p, records[0], true) + Log(crc, RecordEnd(p, records[0], true), records[1..])
  }

  lemma RecordLength(crc: Crc, p: nat, data: Bytes)
    ensures p + |Bytes1(crc, p, data, true)| == RecordEnd(p, data, true)
  {
    FragmentsFit(p, data, true);
    LayoutLength(crc, p, Fragments(p, data, true));
  }

  /** AddRecord after AddRecord produces the log of all the records. */
  lemma {:induction false} LogAppend(crc: Crc, p: nat, records: seq<Bytes>, data: Bytes)
    ensures Log(crc, p, records + [data]) == Log(crc, p, records) + Bytes1(crc, p + |Log(crc, p, records)|, data, true)
    decreases |records|
  {
    if records == [] {
      assert records + [data] == [data];
      assert Log(crc, RecordEnd(p, data, true), []) == [];
    } else {
      var q := RecordEnd(p, records[0], true);
      RecordLength(crc, p, records[0]);
      LogAppend(crc, q, records[1..], data);
      assert (records + [data])[1..] == records[1..] + [data];
    }
  }

  /** How many records are complete in a file of n bytes. */
  function Complete(p: nat, records: seq<Bytes>, n: nat): (k: nat)
    ensures k <= |records|
    decreases |records|
  {
    if records == [] || n < RecordEnd(p, records[0], true) then 0
    else 1 + Complete(RecordEnd(p, records[0], true), records[1..], n)
  }

  datatype Session = Session(records: seq<Bytes>, reports: seq<nat>)

  /** Calling ReadRecord until it returns false. */
  function ReadAll(check: Check, file: Bytes, p: nat): Session
    requires p <= |file|
    decreases |file| - p
  {
    match ReadFrom(check, file, p, None)
    case End(reports) => Session([], reports)
    case Got(record, next, reports) =>
      var later := ReadAll(check, file, next);
      Session([record] + later.records, reports + later.reports)
  }

  /** The first record is read if it is all there, and the rest of the file is a log of the others. */
  lemma FirstRecord(check: Check, crc: Crc, file: Bytes, p: nat, records: seq<Bytes>)
    requires Checks(check, crc) && records != [] && CutOff(file, p, Log(crc, p, records))
    ensures var q := RecordEnd(p, records[0], true);
      if |file| >= q then ReadFrom(check, file, p, None) == Got(records[0], q, []) && CutOff(file, q, Log(crc, q, records[1..]))
      else ReadFrom(check, file, p, None) == End([])
  {
    ReadWhole(check, crc, file, p, records[0], Log(crc, RecordEnd(p, records[0], true), records[1..]));
  }

  lemma ReadWhole(check: Check, crc: Crc, file: Bytes, p: nat, r: Bytes, rest: Bytes)
    requires Checks(check, crc) && CutOff(file, p, Bytes1(crc, p, r, true) + rest)
    ensures var q := RecordEnd(p, r, true);
      if |file| >= q then ReadFrom(check, file, p, None) == Got(r, q, []) && CutOff(file, q, rest)
      else ReadFrom(check, file, p, None) == End([])
  {
    ReadOneRecord(check, crc, file, p, r, None, rest);
    assert Begun(None) + r == r;
    BehindRecord(crc, file, p, r, Bytes1(crc, p, r, true), rest);
  }

  lemma BehindRecord(crc: Crc, file: Bytes, p: nat, r: Bytes, b: Bytes, rest: Bytes)
    requires b == Bytes1(crc, p, r, true) && CutOff(file, p, b + rest)
    ensures |file| >= RecordEnd(p, r, true) ==> CutOff(file, RecordEnd(p, r, true), rest)
  {
    RecordLength(crc, p, r);
    if |file| >= RecordEnd(p, r, true) {
      CutOffTail(file, p, b, rest);
    }
  }

  lemma ReadAllStep(check: Check, file: Bytes, p: nat, r: Bytes, q: nat, later: seq<Bytes>, all: seq<Bytes>)
    requires p < q <= |file| && ReadFrom(check, file, p, None) == Got(r, q, []) && all == [r] + later
    requires ReadAll(check, file, q) == Session(later, [])
    ensures ReadAll(check, file, p) == Session(all, [])
  {
  }

  lemma FirstOf(records: seq<Bytes>, k: nat)
    requires k < |records|
    ensures [records[0]] + records[1..][..k] == records[..k + 1]
  {
  }

  lemma {:induction false} ReadsCompleteRecords(check: Check, crc: Crc, file: Bytes, p: nat, records: seq<Bytes>)
    requires Checks(check, crc) && CutOff(file, p, Log(crc, p, records))
    ensures ReadAll(check, file, p) == Session(records[..Complete(p, records, |file|)], [])
    decreases |records|
  {
    if records == [] {
      NothingLeft(check, file);
    } else {
      var q := RecordEnd(p, records[0], true);
      FirstRecord(check, crc, file, p, records);
      if |file| >= q {
        var k := Complete(q, records[1..], |file|);
        ReadsCompleteRecords(check, crc, file, q, records[1..]);
        FirstOf(records, k);
        ReadAllStep(check, file, p, records[0], q, records[1..][..k], records[..k + 1]);
      }
    }
  }

  /** Cutting the log at any byte: the reader returns exactly the records that end by then, in order,
      and reports no corruption. */
  lemma TruncatedLog(check: Check, crc: Crc, records: seq<Bytes>, n: nat)
    requires Checks(check, crc) && n <= |Log(crc, 0, records)|
    ensures ReadAll(check, Log(crc, 0, records)[..n], 0) == Session(records[..Complete(0, records, n)], [])
  {
    ReadsCompleteRecords(check, crc, Log(crc, 0, records)[..n], 0, records);
  }

  lemma {:induction false} AllComplete(crc: Crc, p: nat, records: seq<Bytes>, n: nat)
    requires n >= p + |Log(crc, p, records)|
    ensures Complete(p, records, n) == |records|
    decreases |records|
  {
    if records != [] {
      RecordLength(crc, p, records[0]);
      AllComplete(crc, RecordEnd(p, records[0], true), records[1..], n);
    }
  }

  /** Reading back the whole log gives the records written, and reports nothing. */
  lemma LogRoundTrip(check: Check, crc: Crc, records: seq<Bytes>)
    requires Checks(check, crc)
    ensures ReadAll(check, Log(crc, 0, records), 0) == Session(records, [])
  {
    var file := Log(crc, 0, records);
    assert file[..|file|] == file;
    TruncatedLog(check, crc, records, |file|);
    AllComplete(crc, 0, records, |file|);
    assert records[..|records|] == records;
  }

  // ----- Reading a whole file -----

  /** Reads a whole file as a log: its records, and whether nothing was reported. */
  method ReadLog(check: Check, file: Bytes) returns (records: seq<Bytes>, clean: bool)
    ensures records == ReadAll(check, file, 0).records
    ensures clean <==> ReadAll(check, file, 0).reports == []
  {
    var reporter := new Reporter();
    var reader := new Reader(check, file, reporter);
    records := [];
    var more := true;
    ghost var pos := 0;
    while more
      invariant reader.Valid() && reader.check == check && reader.file == file && reader.reporter == reporter
      invariant fresh(reader) && fresh(reporter)
      invariant more ==> pos == reader.Pos() <= |file|
      invariant ReadSoFar(check, file, records, reporter.reports, more, pos)
      decreases more, |file| - pos
    {
      var record: Bytes;
      ghost var before, sent, at := records, reporter.reports, pos;
      more, record := reader.ReadRecord();
      if more {
        records := records + [record];
        pos := reader.Pos();
      }
      ReadOneMore(check, file, before, sent, at, more, record, records, reporter.reports, pos);
    }
    clean := |reporter.reports| == 0;
  }

  /** The records and reports so far, with what is still to be read, are those of the whole file. */
  ghost predicate ReadSoFar(check: Check, file: Bytes, records: seq<Bytes>, reports: seq<nat>, more: bool, pos: nat) {
    var all := ReadAll(check, file, 0);
    if more then
      && pos <= |file|
      && all.records == records + ReadAll(check, file, pos).records
      && all.reports == reports + ReadAll(check, file, pos).reports
    else all.records == records && all.reports == reports
  }

  lemma Joined<T>(a: seq<T>, b: seq<T>, c: seq<T>)
    ensures a + (b + c) == a + b + c
  {
  }

  lemma ReadEnd(check: Check, file: Bytes, records: seq<Bytes>, sent: seq<nat>, at: nat, sizes: seq<nat>)
    requires ReadSoFar(check, file, records, sent, true, at) && ReadFrom(check, file, at, None) == End(sizes)
    ensures ReadSoFar(check, file, records, sent + sizes, false, at)
  {
    assert ReadAll(check, file, at) == Session([], sizes);
  }

  lemma ReadRecord(check: Check, file: Bytes, records: seq<Bytes>, sent: seq<nat>, at: nat, data: Bytes, next: nat, sizes: seq<nat>)
    requires ReadSoFar(check, file, records, sent, true, at) && ReadFrom(check, file, at, None) == Got(data, next, sizes)
    ensures ReadSoFar(check, file, records + [data], sent + sizes, true, next)
  {
    var later := ReadAll(check, file, next);
    assert ReadAll(check, file, at) == Session([data] + later.records, sizes + later.reports);
    Joined(records, [data], later.records);
    Joined(sent, sizes, later.reports);
  }

  lemma ReadOneMore(check: Check, file: Bytes, before: seq<Bytes>, sent: seq<nat>, at: nat, more: bool, record: Bytes,
                    records: seq<Bytes>, reports: seq<nat>, pos: nat)
    requires ReadSoFar(check, file, before, sent, true, at)
    requires records == if more then before + [record] else before
    requires match ReadFrom(check, file, at, None)
             case End(sizes) => !more && reports == sent + sizes
             case Got(data, next, sizes) => more && record == data && pos == next && reports == sent + sizes
    ensures ReadSoFar(check, file, records, reports, more, pos)
  {
    match ReadFrom(check, file, at, None)
    case End(sizes) => ReadEnd(check, file, before, sent, at, sizes);
    case Got(data, next, sizes) => ReadRecord(check, file, before, sent, at, data, next, sizes);
  }
}
