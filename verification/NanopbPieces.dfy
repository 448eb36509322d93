/** The encoding of a message as a list of pieces, and what holds while they are decoded one by one. */
module NanopbPieces {
  import opened InternalKeys
  import opened Coding
  import opened Nanopb

  ghost predicate GoodPiece(fields: seq<Field>, e: Piece) {
    && e.field < |fields|
    && match e
       case One(i, x) => GoodItem(fields[i].ltype, x)
       case Packed(i, xs) => fields[i].htype.Repeated? && Packable(fields[i].ltype) && xs != [] && AllGood(fields[i].ltype, xs)
  }

  ghost predicate GoodPieces(fields: seq<Field>, es: seq<Piece>) {
    forall k :: 0 <= k < |es| ==> GoodPiece(fields, es[k])
  }

  /** The wire type a piece is sent with. */
  function WireTypeOf(fields: seq<Field>, e: Piece): nat
    requires e.field < |fields|
  {
    if e.Packed? then WT_STRING else WireType(fields[e.field].ltype)
  }

  /** A piece without its tag. */
  ghost function EncBody(fields: seq<Field>, e: Piece): Bytes
    requires GoodPiece(fields, e)
  {
    match e
    case One(i, x) => EncItem(fields[i].ltype, x)
    case Packed(i, xs) => Prefixed(EncItems(fields[i].ltype, xs, 0))
  }

  ghost function EncPiece(fields: seq<Field>, e: Piece): Bytes
    requires GoodPiece(fields, e)
  {
    EncTag(fields[e.field].tag, WireTypeOf(fields, e)) + EncBody(fields, e)
  }

  /** Parts k and on, one after the other. */
  function Concat(bs: seq<Bytes>, k: nat): Bytes
    requires k <= |bs|
    decreases |bs| - k
  {
    if k == |bs| then [] else bs[k] + Concat(bs, k + 1)
  }

  lemma {:induction false} ConcatSuffix(a: seq<Bytes>, b: seq<Bytes>, k: nat)
    requires k <= |b|
    ensures Concat(a + b, |a| + k) == Concat(b, k)
    decreases |b| - k
  {
    if k < |b| {
      assert (a + b)[|a| + k] == b[k] && |a| + k + 1 == |a| + (k + 1);
      ConcatSuffix(a, b, k + 1);
    }
  }

  lemma {:induction false} ConcatAppend(a: seq<Bytes>, b: seq<Bytes>, k: nat)
    requires k <= |a|
    ensures Concat(a + b, k) == Concat(a, k) + Concat(b, 0)
    decreases |a| - k
  {
    if k < |a| {
      assert (a + b)[k] == a[k];
      ConcatAppend(a, b, k + 1);
      assert a[k] + (Concat(a, k + 1) + Concat(b, 0)) == (a[k] + Concat(a, k + 1)) + Concat(b, 0);
    } else {
      ConcatSuffix(a, b, 0);
      assert [] + Concat(b, 0) == Concat(b, 0);
    }
  }

  ghost function PieceBytes(fields: seq<Field>, es: seq<Piece>): (bs: seq<Bytes>)
    requires GoodPieces(fields, es)
    ensures |bs| == |es| && forall k :: 0 <= k < |es| ==> bs[k] == EncPiece(fields, es[k])
  {
    seq(|es|, k requires 0 <= k < |es| => EncPiece(fields, es[k]))
  }

  ghost function EncPieces(fields: seq<Field>, es: seq<Piece>): Bytes
    requires GoodPieces(fields, es)
  {
    Concat(PieceBytes(fields, es), 0)
  }

  lemma GoodAppend(fields: seq<Field>, a: seq<Piece>, b: seq<Piece>)
    requires GoodPieces(fields, a) && GoodPieces(fields, b)
    ensures GoodPieces(fields, a + b)
  {
    forall k | 0 <= k < |a + b| ensures GoodPiece(fields, (a + b)[k]) {
      assert (a + b)[k] == if k < |a| then a[k] else b[k - |a|];
    }
  }

  lemma BytesAppend(fields: seq<Field>, a: seq<Piece>, b: seq<Piece>)
    requires GoodPieces(fields, a) && GoodPieces(fields, b)
    ensures GoodPieces(fields, a + b)
    ensures PieceBytes(fields, a + b) == PieceBytes(fields, a) + PieceBytes(fields, b)
  {
    GoodAppend(fields, a, b);
    assert forall k :: 0 <= k < |a + b| ==> (a + b)[k] == if k < |a| then a[k] else b[k - |a|];
  }

  lemma EncAppend(fields: seq<Field>, a: seq<Piece>, b: seq<Piece>)
    requires GoodPieces(fields, a) && GoodPieces(fields, b)
    ensures GoodPieces(fields, a + b) && EncPieces(fields, a + b) == EncPieces(fields, a) + EncPieces(fields, b)
  {
    BytesAppend(fields, a, b);
    ConcatAppend(PieceBytes(fields, a), PieceBytes(fields, b), 0);
  }

  lemma EncJoin(fields: seq<Field>, a: seq<Piece>, b: seq<Piece>, x: Bytes, y: Bytes)
    requires GoodPieces(fields, a) && GoodPieces(fields, b) && EncPieces(fields, a) == x && EncPieces(fields, b) == y
    ensures GoodPieces(fields, a + b) && EncPieces(fields, a + b) == x + y
  {
    EncAppend(fields, a, b);
  }

  ghost predicate IsOne(f: Field, xs: seq<Item>, bs: seq<Bytes>, k: nat)
    requires AllGood(f.ltype, xs) && k < |xs| && k < |bs|
  {
    bs[k] == EncOne(f, xs[k])
  }

  lemma {:induction false} OnesConcat(f: Field, xs: seq<Item>, bs: seq<Bytes>, j: nat)
    requires AllGood(f.ltype, xs) && j <= |xs| == |bs| && forall k: nat :: k < |xs| ==> IsOne(f, xs, bs, k)
    ensures Concat(bs, j) == EncOnes(f, xs, j)
    decreases |xs| - j
  {
    if j < |xs| {
      assert IsOne(f, xs, bs, j);
      OnesConcat(f, xs, bs, j + 1);
    }
  }

  lemma OnesArePieces(fields: seq<Field>, i: nat, xs: seq<Item>)
    requires i < |fields| && AllGood(fields[i].ltype, xs)
    ensures GoodPieces(fields, OnePieces(i, xs))
    ensures Concat(PieceBytes(fields, OnePieces(i, xs)), 0) == EncOnes(fields[i], xs, 0)
  {
    var es := OnePieces(i, xs);
    assert GoodPieces(fields, es);
    var bs := PieceBytes(fields, es);
    forall k: nat | k < |xs| ensures IsOne(fields[i], xs, bs, k) {
      assert es[k] == One(i, xs[k]);
    }
    OnesConcat(fields[i], xs, bs, 0);
  }

  lemma FieldIsPieces(fields: seq<Field>, i: nat, xs: seq<Item>)
    requires i < |fields| && GoodValues(fields[i], xs)
    ensures GoodPieces(fields, FieldPieces(fields[i], i, xs))
    ensures EncPieces(fields, FieldPieces(fields[i], i, xs)) == EncField(fields[i], xs)
  {
    var f := fields[i];
    if f.htype.Repeated? && Packable(f.ltype) {
      if xs != [] {
        var e := Packed(i, xs);
        assert GoodPiece(fields, e);
        var bs := PieceBytes(fields, [e]);
        assert Concat(bs, 0) == bs[0] + Concat(bs, 1) && Concat(bs, 1) == [];
      }
    } else if f.htype.Singular? && IsDefault(f.ltype, xs[0]) {
    } else {
      OnesArePieces(fields, i, xs);
    }
  }

  /** A message is sent as the concatenation of its pieces. */
  lemma {:induction false} MessageIsPieces(fields: seq<Field>, m: Message, i: nat)
    requires GoodFields(fields, m) && i <= |fields|
    ensures GoodPieces(fields, PiecesFrom(fields, m, i))
    ensures EncFrom(fields, m, i) == EncPieces(fields, PiecesFrom(fields, m, i))
    decreases |fields| - i
  {
    if i < |fields| {
      MessageIsPieces(fields, m, i + 1);
      FieldThenPieces(fields, m, i, PiecesFrom(fields, m, i + 1), EncFrom(fields, m, i + 1), PiecesFrom(fields, m, i), EncFrom(fields, m, i));
    } else {
      NoPieces(fields, PiecesFrom(fields, m, i));
    }
  }

  lemma NoPieces(fields: seq<Field>, none: seq<Piece>)
    requires none == []
    ensures GoodPieces(fields, none) && EncPieces(fields, none) == []
  {
  }

  lemma FieldThenPieces(fields: seq<Field>, m: Message, i: nat, later: seq<Piece>, bytes: Bytes, all: seq<Piece>, allBytes: Bytes)
    requires GoodFields(fields, m) && i < |fields| && GoodPieces(fields, later) && EncPieces(fields, later) == bytes
    requires all == FieldPieces(fields[i], i, m[i]) + later && allBytes == EncField(fields[i], m[i]) + bytes
    ensures GoodPieces(fields, all) && EncPieces(fields, all) == allBytes
  {
    assert GoodValues(fields[i], m[i]);
    FieldIsPieces(fields, i, m[i]);
    EncJoin(fields, FieldPieces(fields[i], i, m[i]), later, EncField(fields[i], m[i]), bytes);
  }

  // ----- Which pieces are sent -----

  /** In whatever order fields come, only a repeated field comes more than once. */
  ghost predicate SentOnce(fields: seq<Field>, es: seq<Piece>)
    requires InRange(fields, es)
  {
    forall a, b {:trigger Apart(fields, es[a], es[b])} :: 0 <= a < b < |es| ==> Apart(fields, es[a], es[b])
  }

  predicate Apart(fields: seq<Field>, d: Piece, e: Piece)
    requires d.field < |fields|
  {
    d.field != e.field || fields[d.field].htype.Repeated?
  }

  ghost predicate Sent(es: seq<Piece>, i: nat) {
    exists k :: 0 <= k < |es| && es[k].field == i
  }

  lemma SentLater(a: seq<Piece>, b: seq<Piece>, r: nat)
    ensures Sent(a, r) || Sent(b, r) ==> Sent(a + b, r)
  {
    if Sent(a, r) {
      var k :| 0 <= k < |a| && a[k].field == r;
      assert (a + b)[k].field == r;
    } else if Sent(b, r) {
      var k :| 0 <= k < |b| && b[k].field == r;
      assert (a + b)[|a| + k].field == r;
    }
  }

  lemma {:induction false} PiecesSentOnce(fields: seq<Field>, m: Message, i: nat)
    requires GoodFields(fields, m) && i <= |fields|
    ensures InRange(fields, PiecesFrom(fields, m, i)) && SentOnce(fields, PiecesFrom(fields, m, i))
    ensures forall k :: 0 <= k < |PiecesFrom(fields, m, i)| ==> PiecesFrom(fields, m, i)[k].field >= i
    ensures forall r :: i <= r < |fields| && fields[r].htype.Required? ==> Sent(PiecesFrom(fields, m, i), r)
    decreases |fields| - i
  {
    if i < |fields| {
      assert GoodValues(fields[i], m[i]);
      PiecesSentOnce(fields, m, i + 1);
      var a, b := FieldPieces(fields[i], i, m[i]), PiecesFrom(fields, m, i + 1);
      assert forall k :: 0 <= k < |a| ==> a[k].field == i;
      forall r | i <= r < |fields| && fields[r].htype.Required? ensures Sent(a + b, r) {
        assert r == i ==> Sent(a, r) by {
          assert r == i ==> a[0].field == i;
        }
        SentLater(a, b, r);
      }
    }
  }

  // ----- Progress -----

  /** Fields of pieces still to come are at their defaults, unless repeated. */
  ghost predicate Fresh(fields: seq<Field>, dest: Message, es: seq<Piece>, k: nat)
    requires |dest| == |fields| && InRange(fields, es)
  {
    forall p :: k <= p < |es| && !fields[es[p].field].htype.Repeated? ==>
      dest[es[p].field] == DefaultValues(fields[es[p].field])
  }

  /** After k pieces of the encoding of m, dest is what the rest turns into m. */
  ghost predicate Progress(fields: seq<Field>, m: Message, dest: Message, es: seq<Piece>, k: nat) {
    && |dest| == |fields| && k <= |es| && InRange(fields, es) && SentOnce(fields, es) && GoodPieces(fields, es)
    && Fresh(fields, dest, es, k) && ApplyFrom(fields, dest, es, k) == m
  }

  ghost predicate AllSent(fields: seq<Field>, es: seq<Piece>) {
    forall r :: 0 <= r < |fields| && fields[r].htype.Required? ==> Sent(es, r)
  }

  lemma Start(fields: seq<Field>, m: Message) returns (es: seq<Piece>)
    requires GoodFields(fields, m)
    ensures Progress(fields, m, DefaultMessage(fields), es, 0) && AllSent(fields, es)
    ensures EncMessage(fields, m) == EncPieces(fields, es)
  {
    es := PiecesFrom(fields, m, 0);
    PiecesSentOnce(fields, m, 0);
    PiecesRestore(fields, m, 0);
    MessageIsPieces(fields, m, 0);
    assert PrefixOf(fields, m, 0) == DefaultMessage(fields);
  }

  lemma {:induction false} RepeatedGrow(fields: seq<Field>, dest: Message, es: seq<Piece>, k: nat, i: nat)
    requires |dest| == |fields| && k <= |es| && InRange(fields, es) && GoodPieces(fields, es)
    requires i < |fields| && fields[i].htype.Repeated?
    ensures |dest[i]| <= |ApplyFrom(fields, dest, es, k)[i]|
    decreases |es| - k
  {
    if k < |es| {
      assert GoodPiece(fields, es[k]);
      RepeatedGrow(fields, Apply(fields, dest, es[k]), es, k + 1, i);
    }
  }

  /** What the decoder of piece e may count on. */
  ghost predicate Ready(fields: seq<Field>, dest: Message, e: Piece) {
    && GoodPiece(fields, e) && |dest| == |fields|
    && var f := fields[e.field];
       if f.htype.Repeated? then |Apply(fields, dest, e)[e.field]| <= f.htype.max
       else dest[e.field] == DefaultValues(f)
  }

  lemma Step(fields: seq<Field>, m: Message, dest: Message, es: seq<Piece>, k: nat, next: Message)
    requires GoodFields(fields, m) && Progress(fields, m, dest, es, k) && k < |es|
    requires GoodPiece(fields, es[k]) && next == Apply(fields, dest, es[k])
    ensures Ready(fields, dest, es[k])
    ensures Progress(fields, m, next, es, k + 1)
  {
    var e := es[k];
    if fields[e.field].htype.Repeated? {
      RepeatedGrow(fields, next, es, k + 1, e.field);
      assert GoodValues(fields[e.field], m[e.field]);
    }
    forall p | k + 1 <= p < |es| && !fields[es[p].field].htype.Repeated?
      ensures next[es[p].field] == DefaultValues(fields[es[p].field])
    {
      assert Apart(fields, e, es[p]);
      assert dest[es[p].field] == DefaultValues(fields[es[p].field]);
    }
  }

  lemma Finish(fields: seq<Field>, m: Message, dest: Message, es: seq<Piece>)
    requires Progress(fields, m, dest, es, |es|)
    ensures dest == m
  {
  }
}
