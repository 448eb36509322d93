/** Write batches: updates as bytes with a sequence number and a count in front (db/write_batch.cc). */
module WriteBatch {
  import opened InternalKeys
  import opened Coding

  datatype BatchOp = Put(key: Bytes, value: Bytes) | Delete(key: Bytes)

  const HEADER: nat := 12
  const DELETION_TAG: byte := 0
  const VALUE_TAG: byte := 1

  predicate SmallOp(op: BatchOp) {
    |op.key| < TWO_32 && (op.Put? ==> |op.value| < TWO_32)
  }

  function EncodeOp(op: BatchOp): (r: Bytes)
    ensures |r| > 0
  {
    match op
    case Put(key, value) => [VALUE_TAG] + LengthPrefixed(key) + LengthPrefixed(value)
    case Delete(key) => [DELETION_TAG] + LengthPrefixed(key)
  }

  function EncodeFrom(ops: seq<BatchOp>, i: nat): Bytes
    requires i <= |ops|
    decreases |ops| - i
  {
    if i == |ops| then [] else EncodeOp(ops[i]) + EncodeFrom(ops, i + 1)
  }

  function EncodeOps(ops: seq<BatchOp>): Bytes {
    EncodeFrom(ops, 0)
  }

  lemma {:induction false} EncodeSuffix(a: seq<BatchOp>, b: seq<BatchOp>, k: nat)
    requires k <= |b|
    ensures EncodeFrom(a + b, |a| + k) == EncodeFrom(b, k)
    decreases |b| - k
  {
    if k < |b| {
      EncodeSuffix(a, b, k + 1);
      assert (a + b)[|a| + k] == b[k];
      assert |a| + (k + 1) == |a| + k + 1;
    }
  }

  lemma {:induction false} EncodeAppendFrom(a: seq<BatchOp>, b: seq<BatchOp>, i: nat)
    requires i <= |a|
    ensures EncodeFrom(a + b, i) == EncodeFrom(a, i) + EncodeOps(b)
    decreases |a| - i
  {
    if i == |a| {
      EncodeSuffix(a, b, 0);
    } else {
      EncodeAppendFrom(a, b, i + 1);
      assert (a + b)[i] == a[i];
    }
  }

  lemma EncodeAppend(a: seq<BatchOp>, b: seq<BatchOp>)
    ensures EncodeOps(a + b) == EncodeOps(a) + EncodeOps(b)
  {
    EncodeAppendFrom(a, b, 0);
  }

  lemma EncodeOne(ops: seq<BatchOp>, op: BatchOp)
    ensures EncodeOps(ops + [op]) == EncodeOps(ops) + EncodeOp(op)
  {
    EncodeAppend(ops, [op]);
    assert EncodeFrom([op], 1) == [];
  }

  // ----- Decoding -----

  /** The update at the front, and what follows it. */
  function DecodeOp(input: Bytes): (r: Option<(BatchOp, Bytes)>)
    ensures r.Some? ==> |r.value.1| < |input|
  {
    if input == [] then None
    else if input[0] == VALUE_TAG then
      match GetLengthPrefixed(input[1..])
      case None => None
      case Some((key, rest)) =>
        match GetLengthPrefixed(rest)
        case None => None
        case Some((value, rest')) => Some((Put(key, value), rest'))
    else if input[0] == DELETION_TAG then
      match GetLengthPrefixed(input[1..])
      case None => None
      case Some((key, rest)) => Some((Delete(key), rest))
    else None
  }

  /** The updates handed to the handler before the input ends or turns out malformed. */
  datatype Walk = Walk(ops: seq<BatchOp>, complete: bool)

  function WalkOps(input: Bytes): Walk
    decreases |input|
  {
    if input == [] then Walk([], true)
    else match DecodeOp(input)
         case None => Walk([], false)
         case Some((op, rest)) => var w := WalkOps(rest); Walk([op] + w.ops, w.complete)
  }

  /** Whatever follows b, the string s decodes from it and takes all of it. */
  ghost predicate DecodesTo(b: Bytes, s: Bytes) {
    forall rest: Bytes :: GetLengthPrefixed(b + rest) == Some((s, rest))
  }

  lemma PrefixedDecodes(s: Bytes)
    requires |s| < TWO_32
    ensures DecodesTo(LengthPrefixed(s), s)
  {
    forall rest: Bytes ensures GetLengthPrefixed(LengthPrefixed(s) + rest) == Some((s, rest)) {
      LengthPrefixedRoundTrip(s, rest);
    }
  }

  lemma DecodesPut(k: Bytes, key: Bytes, v: Bytes, value: Bytes, rest: Bytes)
    requires DecodesTo(k, key) && DecodesTo(v, value)
    ensures DecodeOp([VALUE_TAG] + k + v + rest) == Some((Put(key, value), rest))
  {
    var input := [VALUE_TAG] + k + v + rest;
    assert input[1..] == k + (v + rest);
    assert GetLengthPrefixed(k + (v + rest)) == Some((key, v + rest));
    assert GetLengthPrefixed(v + rest) == Some((value, rest));
  }

  lemma DecodesDelete(k: Bytes, key: Bytes, rest: Bytes)
    requires DecodesTo(k, key)
    ensures DecodeOp([DELETION_TAG] + k + rest) == Some((Delete(key), rest))
  {
    var input := [DELETION_TAG] + k + rest;
    assert input[1..] == k + rest;
    assert GetLengthPrefixed(k + rest) == Some((key, rest));
  }

  lemma DecodesOp(op: BatchOp, rest: Bytes)
    requires SmallOp(op)
    ensures DecodeOp(EncodeOp(op) + rest) == Some((op, rest))
  {
    PrefixedDecodes(op.key);
    match op
    case Put(key, value) =>
      PrefixedDecodes(value);
      DecodesPut(LengthPrefixed(key), key, LengthPrefixed(value), value, rest);
    case Delete(key) =>
      DecodesDelete(LengthPrefixed(key), key, rest);
  }

  lemma {:induction false} WalksFrom(ops: seq<BatchOp>, i: nat)
    requires i <= |ops| && forall op :: op in ops ==> SmallOp(op)
    ensures WalkOps(EncodeFrom(ops, i)) == Walk(ops[i..], true)
    decreases |ops| - i
  {
    if i < |ops| {
      DecodesOp(ops[i], EncodeFrom(ops, i + 1));
      WalksFrom(ops, i + 1);
      assert ops[i..] == [ops[i]] + ops[i + 1..];
    }
  }

  /** Walking encoded updates hands over exactly them, in order. */
  lemma WalkRoundTrip(ops: seq<BatchOp>)
    requires forall op :: op in ops ==> SmallOp(op)
    ensures WalkOps(EncodeOps(ops)) == Walk(ops, true)
  {
    WalksFrom(ops, 0);
    assert ops[0..] == ops;
  }

  // ----- Whole batches -----

  datatype Batch = Batch(sequence: nat, ops: seq<BatchOp>)

  ghost predicate SmallBatch(b: Batch) {
    b.sequence < TWO_64 && |b.ops| < TWO_32 && forall op :: op in b.ops ==> SmallOp(op)
  }

  /** The bytes of a batch, which are a record of the log. */
  function Contents(b: Batch): Bytes
    requires b.sequence < TWO_64 && |b.ops| < TWO_32
  {
    Fixed64(b.sequence) + Fixed32(|b.ops| as uint32) + EncodeOps(b.ops)
  }

  /** The batch some bytes stand for; none if they are too short, malformed, or miscounted. */
  function DecodeContents(rep: Bytes): Option<Batch> {
    if |rep| < HEADER then None
    else
      var w := WalkOps(rep[HEADER..]);
      if w.complete && |w.ops| == DecodeFixed32(rep[8..]) as nat then Some(Batch(DecodeFixed64(rep), w.ops)) else None
  }

  lemma ContentsRoundTrip(b: Batch)
    requires SmallBatch(b)
    ensures DecodeContents(Contents(b)) == Some(b)
  {
    var rep, count, ops := Contents(b), Fixed32(|b.ops| as uint32), EncodeOps(b.ops);
    assert rep == Fixed64(b.sequence) + (count + ops);
    Fixed64RoundTrip(b.sequence, count + ops);
    assert rep[8..] == count + ops && rep[HEADER..] == ops;
    Fixed32RoundTrip(|b.ops| as uint32, ops);
    WalkRoundTrip(b.ops);
  }

  datatype Status = Ok | Corruption

  class WriteBatch {
    var rep: Bytes
    ghost var ops: seq<BatchOp>

    constructor ()
      ensures Valid() && ops == []
    {
      rep := seq(HEADER, _ => 0);
      ops := [];
      new;
      assert rep[HEADER..] == [];
      ZeroCount(rep);
    }

    static lemma ZeroCount(rep: Bytes)
      requires |rep| == HEADER && forall i :: 0 <= i < HEADER ==> rep[i] == 0
      ensures DecodeFixed32(rep[8..]) == 0
    {
    }

    ghost predicate Valid()
      reads this
    {
      && |rep| >= HEADER && rep[HEADER..] == EncodeOps(ops) && |ops| < TWO_32 && Count() == |ops|
      && forall op :: op in ops ==> SmallOp(op)
    }

    function Count(): nat
      requires |rep| >= HEADER
      reads this
    {
      DecodeFixed32(rep[8..]) as nat
    }

    function Sequence(): nat
      requires |rep| >= HEADER
      reads this
    {
      DecodeFixed64(rep)
    }

    /** SetContents: any bytes may come from a log. */
    method SetContents(contents: Bytes)
      modifies this`rep
      ensures rep == contents
    {
      rep := contents;
    }

    method SetCount(n: nat)
      requires |rep| >= HEADER && n < TWO_32
      modifies this`rep
      ensures |rep| == |old(rep)| && Count() == n && rep[HEADER..] == old(rep[HEADER..])
    {
      var front, tail := rep[..8], rep[HEADER..];
      rep := front + Fixed32(n as uint32) + tail;
      assert rep[8..] == Fixed32(n as uint32) + tail;
      Fixed32RoundTrip(n as uint32, tail);
      assert rep[HEADER..] == tail;
    }

    method SetSequence(s: nat)
      requires Valid() && s < TWO_64
      modifies this`rep
      ensures Valid() && Sequence() == s
    {
      var tail := rep[8..];
      rep := Fixed64(s) + tail;
      Fixed64RoundTrip(s, tail);
      assert rep[8..] == tail && rep[HEADER..] == tail[4..];
      assert old(rep)[8..][4..] == old(rep)[HEADER..];
    }

    /** Bytes at the end leave the header alone. */
    method AppendBytes(more: Bytes)
      requires |rep| >= HEADER
      modifies this`rep
      ensures |rep| >= HEADER && rep[HEADER..] == old(rep[HEADER..]) + more && Count() == old(Count())
    {
      ghost var x, y := rep[8..], (rep + more)[8..];
      assert x[0] == y[0] && x[1] == y[1] && x[2] == y[2] && x[3] == y[3];
      rep := rep + more;
    }

    /** Put or Delete. */
    method Add(op: BatchOp)
      requires Valid() && SmallOp(op) && |ops| + 1 < TWO_32
      modifies this
      ensures Valid() && ops == old(ops) + [op]
    {
      SetCount(Count() + 1);
      EncodeOne(ops, op);
      AppendBytes(EncodeOp(op));
      ops := ops + [op];
    }

    /** WriteBatchInternal::Append: the other batch's updates follow this one's. */
    method Append(source: WriteBatch)
      requires Valid() && source.Valid() && source != this && |ops| + |source.ops| < TWO_32
      modifies this
      ensures Valid() && ops == old(ops) + source.ops
    {
      SetCount(Count() + source.Count());
      EncodeAppend(ops, source.ops);
      AppendBytes(source.rep[HEADER..]);
      ops := ops + source.ops;
    }

    /** Hands the updates over one by one; the status says whether all of them were, and whether
        there were as many as the count says.  For any bytes, this is WalkOps. */
    method Iterate() returns (handled: seq<BatchOp>, status: Status)
      ensures |rep| < HEADER ==> handled == [] && status == Corruption
      ensures |rep| >= HEADER ==>
        var w := WalkOps(rep[HEADER..]);
        handled == w.ops && (status == Ok <==> w.complete && |w.ops| == Count())
    {
      handled := [];
      if |rep| < HEADER {
        return [], Corruption;
      }
      var input := rep[HEADER..];
      while input != []
        invariant WalkOps(rep[HEADER..]) == Walk(handled + WalkOps(input).ops, WalkOps(input).complete)
        decreases |input|
      {
        var next := DecodeOp(input);
        if next.None? {
          return handled, Corruption;
        }
        var (op, rest) := next.value;
        assert handled + ([op] + WalkOps(rest).ops) == (handled + [op]) + WalkOps(rest).ops;
        handled := handled + [op];
        input := rest;
      }
      status := if |handled| == Count() then Ok else Corruption;
    }
  }

  /** What a batch built by its own operations holds is the encoding of its updates under its number. */
  lemma RepIsContents(b: WriteBatch)
    requires b.Valid()
    ensures b.Sequence() < TWO_64 && b.rep == Contents(Batch(b.Sequence(), b.ops))
  {
    Fixed64Inverse(b.rep);
    Fixed32Inverse(b.rep[8..]);
    assert b.rep == b.rep[..8] + b.rep[8..][..4] + b.rep[HEADER..];
  }

  /** Such a batch is walked whole and in order. */
  lemma BatchRoundTrip(b: WriteBatch)
    requires b.Valid()
    ensures WalkOps(b.rep[HEADER..]) == Walk(b.ops, true) && b.Count() == |b.ops|
  {
    WalkRoundTrip(b.ops);
  }
}
