/** Protocol Buffers messages as field-indexed values, and their wire format (nanopb pb.h, pb_encode.c;
    Protocol Buffers encoding, "Base 128 Varints" and "Length-Delimited Records"). */
module Nanopb {
  import opened InternalKeys
  import opened Coding

  /** PB_LTYPE, with the data_size of the field where it limits values. */
  datatype LType =
    | Bool
    | Varint_(width: nat)
    | UVarint(width: nat)
    | SVarint(width: nat)
    | Fixed32_
    | Fixed64_
    | ByteArray(max: nat)
    | String(max: nat)
    | FixedBytes(length: nat)
    | Sub(fields: seq<Field>)

  /** PB_HTYPE; Singular is an optional field without a has_ flag, and Oneof names its union. */
  datatype HType = Required | Optional | Singular | Repeated(max: nat) | Oneof(union: nat)

  /** A field number; zero marks the end of a field table. */
  type Tag = n: int | 0 < n < 0x2000_0000 witness 1

  datatype Field = Field(tag: Tag, htype: HType, ltype: LType)

  /** One value, or a submessage: the values of each of its fields. */
  datatype Item = Num(n: int) | Raw(bytes: Bytes) | Msg(values: seq<seq<Item>>)

  type Message = seq<seq<Item>>

  const WT_VARINT := 0
  const WT_64BIT := 1
  const WT_STRING := 2
  const WT_32BIT := 5

  predicate Packable(t: LType) {
    t.Bool? || t.Varint_? || t.UVarint? || t.SVarint? || t.Fixed32_? || t.Fixed64_?
  }

  // ----- Well-formed messages -----

  predicate GoodWidth(w: nat) {
    w == 8 || w == 16 || w == 32 || w == 64
  }

  function Limit(w: nat): nat
    requires GoodWidth(w)
  {
    if w == 8 then 0x100 else if w == 16 then 0x1_0000 else if w == 32 then TWO_32 else TWO_64
  }

  /** The C type of the field can hold the value, and the declared sizes suffice. */
  ghost predicate GoodItem(t: LType, x: Item)
    decreases t
  {
    match t
    case Bool => x.Num? && 0 <= x.n <= 1
    case Varint_(w) => GoodWidth(w) && x.Num? && -(Limit(w) / 2) <= x.n < Limit(w) / 2
    case UVarint(w) => GoodWidth(w) && x.Num? && 0 <= x.n < Limit(w)
    case SVarint(w) => GoodWidth(w) && x.Num? && -(Limit(w) / 2) <= x.n < Limit(w) / 2
    case Fixed32_ => x.Num? && 0 <= x.n < TWO_32
    case Fixed64_ => x.Num? && 0 <= x.n < TWO_64
    case ByteArray(max) => x.Raw? && |x.bytes| <= max
    case String(max) => x.Raw? && |x.bytes| < max && 0 !in x.bytes
    case FixedBytes(length) => x.Raw? && |x.bytes| == length
    case Sub(fields) => x.Msg? && GoodFields(fields, x.values)
  }

  /** How many values a field may have. */
  predicate GoodCount(h: HType, n: nat) {
    match h
    case Required => n == 1
    case Singular => n == 1
    case Optional => n <= 1
    case Oneof(_) => n <= 1
    case Repeated(max) => n <= max
  }

  ghost predicate GoodFields(fields: seq<Field>, m: Message)
    decreases fields
  {
    && |m| == |fields|
    && (forall i :: 0 <= i < |fields| ==> GoodValues(fields[i], m[i]))
    && forall i, j {:trigger SameUnion(fields[i], fields[j])} :: 0 <= i < j < |fields| && SameUnion(fields[i], fields[j]) ==> m[i] == [] || m[j] == []
  }

  /** Two members of one union: at most one of them is set. */
  predicate SameUnion(f: Field, g: Field) {
    f.htype.Oneof? && f.htype == g.htype
  }

  /** The values of one field: an allowed number of them, each allowed. */
  ghost predicate GoodValues(f: Field, xs: seq<Item>)
    decreases f
  {
    GoodCount(f.htype, |xs|) && forall j :: 0 <= j < |xs| ==> GoodItem(f.ltype, xs[j])
  }

  ghost predicate AllGood(t: LType, xs: seq<Item>) {
    forall j :: 0 <= j < |xs| ==> GoodItem(t, xs[j])
  }

  // ----- The wire format -----

  /** The number a value is sent as. */
  ghost function Wire(t: LType, n: int): nat
    requires Packable(t) && GoodItem(t, Num(n))
  {
    match t
    case Varint_(_) => if n < 0 then n + TWO_64 else n
    case SVarint(_) => if n < 0 then -2 * n - 1 else 2 * n
    case _ => n
  }

  lemma WireFits(t: LType, n: int)
    requires Packable(t) && GoodItem(t, Num(n))
    ensures Wire(t, n) < TWO_64
    ensures t.Fixed32_? ==> Wire(t, n) < TWO_32
  {
  }

  ghost function EncNumber(t: LType, n: int): Bytes
    requires Packable(t) && GoodItem(t, Num(n))
  {
    WireFits(t, n);
    if t.Fixed32_? then Fixed32(Wire(t, n) as uint32)
    else if t.Fixed64_? then Fixed64(Wire(t, n))
    else Varint(Wire(t, n))
  }

  function WireType(t: LType): nat {
    if t.Fixed32_? then WT_32BIT else if t.Fixed64_? then WT_64BIT else if Packable(t) then WT_VARINT else WT_STRING
  }

  function EncTag(tag: nat, wireType: nat): Bytes {
    Varint(tag * 8 + wireType)
  }

  function Prefixed(b: Bytes): Bytes {
    Varint(|b|) + b
  }

  ghost function EncItem(t: LType, x: Item): Bytes
    requires GoodItem(t, x)
    decreases t, 0
  {
    if Packable(t) then EncNumber(t, x.n)
    else if t.Sub? then Prefixed(EncMessage(t.fields, x.values))
    else Prefixed(x.bytes)
  }

  /** Values j and on, one after the other, without tags. */
  ghost function EncItems(t: LType, xs: seq<Item>, j: nat): Bytes
    requires j <= |xs| && AllGood(t, xs)
    decreases t, |xs| - j + 1
  {
    if j == |xs| then [] else EncItem(t, xs[j]) + EncItems(t, xs, j + 1)
  }

  /** A field is sent in pieces: a packed array is one, and so is every other value. */
  datatype Piece = Packed(field: nat, items: seq<Item>) | One(field: nat, item: Item)

  /** The value every byte of which is zero. */
  predicate IsDefault(t: LType, x: Item)
    decreases t
  {
    if Packable(t) then x.Num? && x.n == 0
    else if t.Sub? then x.Msg? && |x.values| == |t.fields| && IsDefaultMessage(t.fields, x.values)
    else if t.FixedBytes? then t.length == 0
    else x.Raw? && (x.bytes == [] || (t.String? && x.bytes[0] == 0))
  }

  /** pb_check_proto3_default_value on every field: a required field always counts as set. */
  predicate IsDefaultMessage(fields: seq<Field>, m: Message)
    requires |m| == |fields|
    decreases fields
  {
    forall i :: 0 <= i < |fields| ==> IsDefaultField(fields[i], m[i])
  }

  predicate IsDefaultField(f: Field, xs: seq<Item>)
    decreases f
  {
    match f.htype
    case Required => false
    case Singular => xs != [] && IsDefault(f.ltype, xs[0])
    case _ => xs == []
  }

  ghost function OnePieces(i: nat, xs: seq<Item>): (r: seq<Piece>)
    ensures |r| == |xs| && forall j :: 0 <= j < |xs| ==> r[j] == One(i, xs[j])
  {
    seq(|xs|, j requires 0 <= j < |xs| => One(i, xs[j]))
  }

  ghost function FieldPieces(f: Field, i: nat, xs: seq<Item>): seq<Piece>
    requires GoodValues(f, xs)
  {
    if f.htype.Repeated? && Packable(f.ltype) then if xs == [] then [] else [Packed(i, xs)]
    else if f.htype.Singular? && IsDefault(f.ltype, xs[0]) then []
    else OnePieces(i, xs)
  }

  /** The pieces of fields i and on. */
  ghost function PiecesFrom(fields: seq<Field>, m: Message, i: nat): seq<Piece>
    requires GoodFields(fields, m) && i <= |fields|
    decreases |fields| - i
  {
    if i == |fields| then []
    else
      assert GoodValues(fields[i], m[i]);
      FieldPieces(fields[i], i, m[i]) + PiecesFrom(fields, m, i + 1)
  }

  ghost function EncOne(f: Field, x: Item): Bytes
    requires GoodItem(f.ltype, x)
    decreases f, 0
  {
    EncTag(f.tag, WireType(f.ltype)) + EncItem(f.ltype, x)
  }

  ghost function EncPacked(f: Field, xs: seq<Item>): Bytes
    requires AllGood(f.ltype, xs)
    decreases f, 0
  {
    EncTag(f.tag, WT_STRING) + Prefixed(EncItems(f.ltype, xs, 0))
  }

  /** Values j and on, each with its tag. */
  ghost function EncOnes(f: Field, xs: seq<Item>, j: nat): Bytes
    requires j <= |xs| && AllGood(f.ltype, xs)
    decreases f, |xs| - j + 1
  {
    if j == |xs| then [] else EncOne(f, xs[j]) + EncOnes(f, xs, j + 1)
  }

  ghost function EncField(f: Field, xs: seq<Item>): Bytes
    requires GoodValues(f, xs)
    decreases f, |xs| + 2
  {
    if f.htype.Repeated? && Packable(f.ltype) then if xs == [] then [] else EncPacked(f, xs)
    else if f.htype.Singular? && IsDefault(f.ltype, xs[0]) then []
    else EncOnes(f, xs, 0)
  }

  ghost function EncFrom(fields: seq<Field>, m: Message, i: nat): Bytes
    requires GoodFields(fields, m) && i <= |fields|
    decreases fields, |fields| - i
  {
    if i == |fields| then []
    else
      assert GoodValues(fields[i], m[i]);
      EncField(fields[i], m[i]) + EncFrom(fields, m, i + 1)
  }

  ghost function EncMessage(fields: seq<Field>, m: Message): Bytes
    requires GoodFields(fields, m)
    decreases fields, |fields| + 1
  {
    EncFrom(fields, m, 0)
  }

  // ----- Defaults -----

  function Zeros(n: nat): Bytes {
    seq(n, _ => 0)
  }

  function DefaultItem(t: LType): Item
    decreases t, 1
  {
    if Packable(t) then Num(0)
    else if t.Sub? then Msg(DefaultMessage(t.fields))
    else if t.FixedBytes? then Raw(Zeros(t.length))
    else Raw([])
  }

  function DefaultValues(f: Field): seq<Item>
    decreases f, 1
  {
    if f.htype.Required? || f.htype.Singular? then [DefaultItem(f.ltype)] else []
  }

  /** pb_message_set_to_defaults, for fields without explicit default values. */
  function DefaultMessage(fields: seq<Field>): (m: Message)
    ensures |m| == |fields|
    decreases fields, 1
  {
    seq(|fields|, i requires 0 <= i < |fields| => DefaultValues(fields[i]))
  }

  /** What the encoder leaves out is what the decoder starts from. */
  lemma {:induction false} DefaultIsDefault(t: LType, x: Item)
    requires GoodItem(t, x) && IsDefault(t, x)
    ensures x == DefaultItem(t)
    decreases t, 1
  {
    if t.Sub? {
      DefaultMessageIsDefault(t.fields, x.values);
    }
  }

  lemma {:induction false} DefaultMessageIsDefault(fields: seq<Field>, m: Message)
    requires GoodFields(fields, m) && IsDefaultMessage(fields, m)
    ensures m == DefaultMessage(fields)
    decreases fields, 1
  {
    forall i | 0 <= i < |fields| ensures m[i] == DefaultMessage(fields)[i] {
      assert GoodValues(fields[i], m[i]) && IsDefaultField(fields[i], m[i]);
      DefaultFieldIsDefault(fields[i], m[i]);
    }
  }

  lemma {:induction false} DefaultFieldIsDefault(f: Field, xs: seq<Item>)
    requires GoodValues(f, xs) && IsDefaultField(f, xs)
    ensures xs == DefaultValues(f)
    decreases f, 1
  {
    if f.htype.Singular? {
      DefaultIsDefault(f.ltype, xs[0]);
    }
  }

  // ----- What the pieces restore -----

  /** The effect of decoding one piece on the message. */
  function Apply(fields: seq<Field>, dest: Message, p: Piece): (r: Message)
    requires |dest| == |fields| && p.field < |fields|
    ensures |r| == |fields|
  {
    match p
    case Packed(i, xs) => dest[i := dest[i] + xs]
    case One(i, x) =>
      if fields[i].htype.Repeated? then dest[i := dest[i] + [x]]
      else if fields[i].htype.Oneof? then ClearUnion(fields, dest, i)[i := [x]]
      else dest[i := [x]]
  }

  /** Setting one member of a union unsets the others. */
  function ClearUnion(fields: seq<Field>, dest: Message, i: nat): (r: Message)
    requires |dest| == |fields| && i < |fields|
    ensures |r| == |fields|
  {
    seq(|dest|, k requires 0 <= k < |dest| => if k != i && SameUnion(fields[k], fields[i]) then [] else dest[k])
  }

  ghost predicate InRange(fields: seq<Field>, es: seq<Piece>) {
    forall e :: e in es ==> e.field < |fields|
  }

  ghost function ApplyFrom(fields: seq<Field>, dest: Message, es: seq<Piece>, k: nat): (r: Message)
    requires |dest| == |fields| && k <= |es| && InRange(fields, es)
    ensures |r| == |fields|
    decreases |es| - k
  {
    if k == |es| then dest else ApplyFrom(fields, Apply(fields, dest, es[k]), es, k + 1)
  }

  /** Fields before i as in m, the others at their defaults. */
  ghost function PrefixOf(fields: seq<Field>, m: Message, i: nat): Message
    requires |m| == |fields| && i <= |fields|
  {
    m[..i] + DefaultMessage(fields)[i..]
  }

  lemma {:induction false} ApplyAppend(fields: seq<Field>, dest: Message, a: seq<Piece>, b: seq<Piece>, k: nat)
    requires |dest| == |fields| && k <= |a| && InRange(fields, a) && InRange(fields, b)
    ensures InRange(fields, a + b)
    ensures ApplyFrom(fields, dest, a + b, k) == ApplyFrom(fields, ApplyFrom(fields, dest, a, k), b, 0)
    decreases |a| - k
  {
    if k < |a| {
      assert (a + b)[k] == a[k];
      ApplyAppend(fields, Apply(fields, dest, a[k]), a, b, k + 1);
    } else {
      ApplySuffix(fields, dest, a, b, 0);
    }
  }

  lemma {:induction false} ApplySuffix(fields: seq<Field>, dest: Message, a: seq<Piece>, b: seq<Piece>, k: nat)
    requires |dest| == |fields| && k <= |b| && InRange(fields, a) && InRange(fields, b)
    ensures InRange(fields, a + b)
    ensures ApplyFrom(fields, dest, a + b, |a| + k) == ApplyFrom(fields, dest, b, k)
    decreases |b| - k
  {
    if k < |b| {
      assert (a + b)[|a| + k] == b[k];
      assert |a| + k + 1 == |a| + (k + 1);
      ApplySuffix(fields, Apply(fields, dest, b[k]), a, b, k + 1);
    }
  }

  /** Repeated values arrive one by one. */
  lemma {:induction false} ApplyRepeated(fields: seq<Field>, dest: Message, i: nat, xs: seq<Item>, j: nat)
    requires |dest| == |fields| && i < |fields| && fields[i].htype.Repeated? && j <= |xs| && dest[i] == xs[..j]
    ensures ApplyFrom(fields, dest, OnePieces(i, xs), j) == dest[i := xs]
    decreases |xs| - j
  {
    if j < |xs| {
      assert xs[..j] + [xs[j]] == xs[..j + 1];
      ApplyRepeated(fields, dest[i := xs[..j + 1]], i, xs, j + 1);
    } else {
      assert xs[..j] == xs;
    }
  }

  lemma PrefixAt(fields: seq<Field>, m: Message, i: nat, k: nat)
    requires |m| == |fields| && i <= |fields| && k < |fields|
    ensures PrefixOf(fields, m, i)[k] == if k < i then m[k] else DefaultValues(fields[k])
  {
  }

  lemma NextPrefix(fields: seq<Field>, m: Message, i: nat)
    requires |m| == |fields| && i < |fields|
    ensures PrefixOf(fields, m, i + 1) == PrefixOf(fields, m, i)[i := m[i]]
  {
  }

  ghost predicate OthersUnset(fields: seq<Field>, m: Message, i: nat)
    requires |m| == |fields| && i < |fields|
  {
    forall k {:trigger SameUnion(fields[k], fields[i])} :: 0 <= k < i && SameUnion(fields[k], fields[i]) ==> m[k] == []
  }

  lemma ClearsNothing(fields: seq<Field>, m: Message, i: nat)
    requires |m| == |fields| && i < |fields| && OthersUnset(fields, m, i)
    ensures ClearUnion(fields, PrefixOf(fields, m, i), i) == PrefixOf(fields, m, i)
  {
    var dest := PrefixOf(fields, m, i);
    forall k | 0 <= k < |fields| ensures ClearUnion(fields, dest, i)[k] == dest[k] {
      PrefixAt(fields, m, i, k);
    }
  }

  lemma ApplySingle(fields: seq<Field>, m: Message, i: nat)
    requires |m| == |fields| && i < |fields| && !fields[i].htype.Repeated? && |m[i]| == 1 && OthersUnset(fields, m, i)
    ensures Apply(fields, PrefixOf(fields, m, i), One(i, m[i][0])) == PrefixOf(fields, m, i + 1)
  {
    NextPrefix(fields, m, i);
    ClearsNothing(fields, m, i);
    assert m[i] == [m[i][0]];
  }

  /** The pieces of field i take the message from i restored fields to i + 1. */
  lemma ApplyField(fields: seq<Field>, m: Message, i: nat)
    requires GoodFields(fields, m) && i < |fields| && GoodValues(fields[i], m[i])
    ensures InRange(fields, FieldPieces(fields[i], i, m[i]))
    ensures ApplyFrom(fields, PrefixOf(fields, m, i), FieldPieces(fields[i], i, m[i]), 0) == PrefixOf(fields, m, i + 1)
  {
    assert m[i] != [] ==> OthersUnset(fields, m, i);
    ApplyValues(fields, m, i);
  }

  lemma ApplyValues(fields: seq<Field>, m: Message, i: nat)
    requires |m| == |fields| && i < |fields| && GoodValues(fields[i], m[i])
    requires m[i] != [] ==> OthersUnset(fields, m, i)
    ensures InRange(fields, FieldPieces(fields[i], i, m[i]))
    ensures ApplyFrom(fields, PrefixOf(fields, m, i), FieldPieces(fields[i], i, m[i]), 0) == PrefixOf(fields, m, i + 1)
  {
    var f, xs, dest := fields[i], m[i], PrefixOf(fields, m, i);
    var es := FieldPieces(f, i, xs);
    NextPrefix(fields, m, i);
    PrefixAt(fields, m, i, i);
    if f.htype.Repeated? && Packable(f.ltype) {
      assert [] + xs == xs;
      if xs != [] {
        assert ApplyFrom(fields, dest, es, 0) == ApplyFrom(fields, dest[i := xs], es, 1);
      }
    } else if f.htype.Singular? && IsDefault(f.ltype, xs[0]) {
      DefaultIsDefault(f.ltype, xs[0]);
      assert xs == [xs[0]];
    } else if f.htype.Repeated? {
      ApplyRepeated(fields, dest, i, xs, 0);
    } else if xs != [] {
      ApplySingle(fields, m, i);
      assert ApplyFrom(fields, dest, es, 0) == ApplyFrom(fields, Apply(fields, dest, One(i, xs[0])), es, 1);
    }
  }

  /** Decoding the pieces of a message into defaults restores the message. */
  lemma {:induction false} PiecesRestore(fields: seq<Field>, m: Message, i: nat)
    requires GoodFields(fields, m) && i <= |fields|
    ensures InRange(fields, PiecesFrom(fields, m, i))
    ensures ApplyFrom(fields, PrefixOf(fields, m, i), PiecesFrom(fields, m, i), 0) == m
    decreases |fields| - i
  {
    if i < |fields| {
      assert GoodValues(fields[i], m[i]);
      ApplyField(fields, m, i);
      PiecesRestore(fields, m, i + 1);
      ApplyAppend(fields, PrefixOf(fields, m, i), FieldPieces(fields[i], i, m[i]), PiecesFrom(fields, m, i + 1), 0);
    } else {
      assert PrefixOf(fields, m, i) == m;
    }
  }
}
