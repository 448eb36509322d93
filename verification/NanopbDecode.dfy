/** Reading messages (nanopb pb_decode.c, second half). */
module NanopbDecode {
  import opened InternalKeys
  import opened Coding
  import opened Nanopb
  import opened NanopbCommon
  import opened NanopbEncode
  import opened NanopbPieces
  import opened NanopbStream

  // ----- Field tables -----

  /** Tags are distinct, and the widths of integers are ones the field encoders know. */
  ghost predicate GoodTable(fields: seq<Field>)
    decreases fields
  {
    && (forall i, j :: 0 <= i < j < |fields| ==> TagsDiffer(fields, i, j))
    && forall i :: 0 <= i < |fields| ==> GoodFieldType(fields[i])
  }

  predicate TagsDiffer(fields: seq<Field>, i: nat, j: nat)
    requires i < |fields| && j < |fields|
  {
    fields[i].tag != fields[j].tag
  }

  ghost predicate GoodFieldType(f: Field)
    decreases f
  {
    GoodType(f.ltype)
  }

  ghost predicate GoodType(t: LType)
    decreases t
  {
    match t
    case Varint_(w) => GoodWidth(w)
    case UVarint(w) => GoodWidth(w)
    case SVarint(w) => GoodWidth(w)
    case String(max) => max > 0
    case Sub(fields) => GoodTable(fields)
    case _ => true
  }

  lemma {:induction false} DefaultIsGood(t: LType)
    requires GoodType(t)
    ensures GoodItem(t, DefaultItem(t))
    decreases t
  {
    if t.Sub? {
      DefaultsAreGood(t.fields);
    }
  }

  lemma {:induction false} DefaultsAreGood(fields: seq<Field>)
    requires GoodTable(fields)
    ensures GoodFields(fields, DefaultMessage(fields))
    decreases fields
  {
    forall i | 0 <= i < |fields| ensures GoodValues(fields[i], DefaultMessage(fields)[i]) {
      DefaultValuesAreGood(fields[i]);
    }
  }

  lemma {:induction false} DefaultValuesAreGood(f: Field)
    requires GoodFieldType(f)
    ensures GoodValues(f, DefaultValues(f))
    decreases f
  {
    DefaultIsGood(f.ltype);
  }

  /** pb_message_set_to_defaults. */
  method SetToDefaults(fields: seq<Field>) returns (m: Message)
    ensures m == DefaultMessage(fields)
    decreases fields
  {
    m := [];
    while |m| < |fields|
      invariant |m| <= |fields| && forall k :: 0 <= k < |m| ==> m[k] == DefaultValues(fields[k])
    {
      var values := SetFieldToDefault(fields[|m|]);
      m := m + [values];
    }
  }

  /** pb_field_set_to_default: has_ and count are cleared, and other data is zeroed. */
  method SetFieldToDefault(f: Field) returns (values: seq<Item>)
    ensures values == DefaultValues(f)
    decreases f
  {
    values := [];
    if f.htype.Required? || f.htype.Singular? {
      if f.ltype.Sub? {
        var inner := SetToDefaults(f.ltype.fields);
        values := [Msg(inner)];
      } else {
        values := [DefaultItem(f.ltype)];
      }
    }
  }

  // ----- Numbers -----

  /** The value of the low bits as a signed number. */
  function Signed(v: int, modulus: nat): int
    requires modulus > 0
  {
    var low := v % modulus;
    if low < modulus - low then low else low - modulus
  }

  /** A cast to a signed type of this width. */
  method CastSigned(width: nat, v: int) returns (r: int)
    requires GoodWidth(width)
    ensures -(Limit(width) / 2) <= r < Limit(width) / 2
    ensures -(Limit(width) / 2) <= v < Limit(width) / 2 ==> r == v
  {
    if width == 64 {
      r := Signed(v, TWO_64);
    } else if width == 32 {
      r := Signed(v, TWO_32);
    } else if width == 16 {
      r := Signed(v, 0x1_0000);
    } else {
      r := Signed(v, 0x100);
    }
  }

  method CastUnsigned(width: nat, v: nat) returns (r: nat)
    requires GoodWidth(width)
    ensures r < Limit(width)
    ensures v < Limit(width) ==> r == v
  {
    if width == 64 {
      r := v % TWO_64;
    } else if width == 32 {
      r := v % TWO_32;
    } else if width == 16 {
      r := v % 0x1_0000;
    } else {
      r := v % 0x100;
    }
  }

  /** Two's complement in 64 bits, cut to 32, is two's complement in 32. */
  lemma SignedWire(n: int)
    ensures -(TWO_64 / 2) <= n < 0 ==> Signed(n + TWO_64, TWO_64) == n
    ensures 0 <= n < TWO_64 / 2 ==> Signed(n, TWO_64) == n
    ensures -(TWO_32 / 2) <= n < 0 ==> Signed(n + TWO_64, TWO_32) == n
    ensures 0 <= n < TWO_32 / 2 ==> Signed(n, TWO_32) == n
  {
    if -(TWO_32 / 2) <= n < 0 {
      ModularMultiple(TWO_32 - 1, n + TWO_32, TWO_32);
      assert n + TWO_64 == TWO_32 * (TWO_32 - 1) + (n + TWO_32);
    }
  }

  lemma WidthsNest(width: nat, n: int)
    requires GoodWidth(width) && -(Limit(width) / 2) <= n < Limit(width) / 2
    ensures width != 64 ==> -(TWO_32 / 2) <= n < TWO_32 / 2
    ensures -(TWO_64 / 2) <= n < TWO_64 / 2
  {
  }

  /** pb_dec_varint: up to 32 bits the number is cut to 32 first, and must then fit. */
  method NarrowSigned(width: nat, value: nat, ghost n: int) returns (ok: bool, r: int)
    requires GoodWidth(width) && value < TWO_64
    ensures ok ==> GoodItem(Varint_(width), Num(r))
    ensures GoodItem(Varint_(width), Num(n)) && value == Wire(Varint_(width), n) ==> ok && r == n
  {
    if GoodItem(Varint_(width), Num(n)) {
      WidthsNest(width, n);
    }
    SignedWire(n);
    var svalue := Signed(value, if width == 64 then TWO_64 else TWO_32);
    r := CastSigned(width, svalue);
    ok := r == svalue;
  }

  method NarrowUnsigned(width: nat, value: nat, ghost n: int) returns (ok: bool, r: int)
    requires GoodWidth(width) && value < TWO_64
    ensures ok ==> GoodItem(UVarint(width), Num(r))
    ensures GoodItem(UVarint(width), Num(n)) && value == Wire(UVarint(width), n) ==> ok && r == n
  {
    r := CastUnsigned(width, value);
    ok := r == value;
  }

  function Zigzag(value: nat): int {
    if value % 2 == 1 then -(value / 2) - 1 else value / 2
  }

  /** pb_decode_svarint and pb_dec_svarint. */
  method NarrowZigzag(width: nat, value: nat, ghost n: int) returns (ok: bool, r: int)
    requires GoodWidth(width) && value < TWO_64
    ensures ok ==> GoodItem(SVarint(width), Num(r))
    ensures GoodItem(SVarint(width), Num(n)) && value == Wire(SVarint(width), n) ==> ok && r == n
  {
    var svalue := Zigzag(value);
    r := CastSigned(width, svalue);
    ok := r == svalue;
  }

  /** pb_decode_fixed32 and pb_decode_fixed64. */
  method DecodeFixed(s: IStream, t: LType, ghost n: int) returns (ok: bool, r: int)
    requires (t.Fixed32_? || t.Fixed64_?) && s.Valid()
    modifies s
    ensures s.Valid() && s.End() == old(s.End()) && s.bytesLeft <= old(s.bytesLeft)
    ensures ok ==> GoodItem(t, Num(r)) && s.bytesLeft < old(s.bytesLeft)
    ensures GoodItem(t, Num(n)) && old(s.Ahead(EncNumber(t, n))) ==>
      ok && r == n && s.state == old(s.state) + |EncNumber(t, n)| && s.bytesLeft == old(s.bytesLeft) - |EncNumber(t, n)|
  {
    ghost var before, good := s.state, GoodItem(t, Num(n)) && s.Ahead(EncNumber(t, n));
    var bytes: Bytes;
    r := 0;
    if t.Fixed32_? {
      ok, bytes := s.Read(4);
      if ok {
        r := DecodeFixed32(bytes) as int;
        if good {
          AtUnique(s.data, before, bytes, Fixed32(n as uint32));
          Fixed32RoundTrip(n as uint32, []);
          assert Fixed32(n as uint32) + [] == Fixed32(n as uint32);
        }
      }
    } else {
      ok, bytes := s.Read(8);
      if ok {
        r := DecodeFixed64(bytes);
        if good {
          AtUnique(s.data, before, bytes, Fixed64(n));
          Fixed64RoundTrip(n, []);
          assert Fixed64(n) + [] == Fixed64(n);
        }
      }
    }
  }

  method Narrow(t: LType, value: nat, ghost n: int) returns (ok: bool, r: int)
    requires (t.Varint_? || t.UVarint? || t.SVarint?) && GoodType(t) && value < TWO_64
    ensures ok ==> GoodItem(t, Num(r))
    ensures GoodItem(t, Num(n)) && value == Wire(t, n) ==> ok && r == n
  {
    if t.Varint_? {
      ok, r := NarrowSigned(t.width, value, n);
    } else if t.UVarint? {
      ok, r := NarrowUnsigned(t.width, value, n);
    } else {
      ok, r := NarrowZigzag(t.width, value, n);
    }
  }

  method DecodeNumber(s: IStream, t: LType, ghost n: int) returns (ok: bool, r: int)
    requires Packable(t) && GoodType(t) && s.Valid()
    modifies s
    ensures s.Valid() && s.End() == old(s.End()) && s.bytesLeft <= old(s.bytesLeft)
    ensures ok ==> GoodItem(t, Num(r)) && s.bytesLeft < old(s.bytesLeft)
    ensures GoodItem(t, Num(n)) && old(s.Ahead(EncNumber(t, n))) ==>
      ok && r == n && s.state == old(s.state) + |EncNumber(t, n)| && s.bytesLeft == old(s.bytesLeft) - |EncNumber(t, n)|
  {
    ghost var wire: nat := 0;
    if GoodItem(t, Num(n)) {
      WireFits(t, n);
      wire := Wire(t, n);
    }
    var value: nat, eof: bool;
    if t.Fixed32_? || t.Fixed64_? {
      ok, r := DecodeFixed(s, t, n);
    } else if t.Bool? {
      ok, value, eof := s.DecodeVarint32(wire);
      r := if value != 0 then 1 else 0;
    } else {
      ok, value := s.DecodeVarint(wire);
      r := 0;
      if ok {
        ok, r := Narrow(t, value, n);
      }
    }
  }

  // ----- Bytes and strings -----

  /** pb_dec_bytes, pb_dec_string and pb_dec_fixed_length_bytes: the value must fit its buffer, and
      a string with its terminator. */
  method DecodeBytes(s: IStream, t: LType, ghost x: Item) returns (ok: bool, r: Item)
    requires t.ByteArray? || t.String? || t.FixedBytes?
    requires GoodType(t) && s.Valid()
    modifies s
    ensures s.Valid() && s.End() == old(s.End()) && s.bytesLeft <= old(s.bytesLeft)
    ensures ok ==> GoodItem(t, r) && s.bytesLeft < old(s.bytesLeft)
    ensures x.Raw? && |x.bytes| < TWO_32 && old(s.Ahead(Prefixed(x.bytes))) && (t.FixedBytes? ==> |x.bytes| == t.length) ==>
      && (ok <==> (t.ByteArray? ==> |x.bytes| <= t.max) && (t.String? ==> |x.bytes| < t.max))
      && (ok && GoodItem(t, x) ==> r == x)
      && (ok ==> s.state == old(s.state) + |Prefixed(x.bytes)| && s.bytesLeft == old(s.bytesLeft) - |Prefixed(x.bytes)|)
  {
    r := Raw([]);
    ghost var b := if x.Raw? then x.bytes else [];
    ghost var good := x.Raw? && |b| < TWO_32 && s.Ahead(Prefixed(b));
    ghost var before := s.state;
    AtBoth(s.data, s.state, Varint(|b|), b);
    var size: nat, eof: bool, chars: Bytes;
    ok, size, eof := s.DecodeVarint32(|b|);
    if !ok {
      return;
    }
    ghost var at := s.state;
    assert good ==> At(s.data, at, b) && size == |b|;
    if t.FixedBytes? {
      if size == 0 {
        r := Raw(Zeros(t.length));
        return;
      }
      if size != t.length {
        return false, r;
      }
    } else if t.ByteArray? {
      if size > t.max {
        return false, r;
      }
    } else if size + 1 > t.max {
      return false, r;
    }
    ok, chars := s.Read(size);
    if !ok {
      return;
    }
    if good {
      AtUnique(s.data, at, chars, b);
    }
    if t.String? {
      var length := StringLength(t.max, chars);
      r := Raw(chars[..length]);
    } else {
      r := Raw(chars);
    }
  }

  // ----- Values -----

  /** A field decoder. Only a submessage that is not an array entry is merged into what is there. */
  method DecodeItem(s: IStream, t: LType, repeated: bool, dest: Item, ghost x: Item) returns (ok: bool, r: Item)
    requires GoodType(t) && s.Valid()
    requires t.Sub? && !repeated ==> GoodItem(t, dest)
    modifies s
    ensures s.Valid() && s.End() <= old(s.End()) && s.bytesLeft <= old(s.bytesLeft)
    ensures ok ==> GoodItem(t, r) && s.bytesLeft < old(s.bytesLeft)
    ensures Expected(t, repeated, dest, x) && old(s.bytesLeft) < TWO_32 && old(s.Ahead(EncItem(t, x))) ==>
      ok && r == x && s.state == old(s.state) + |EncItem(t, x)| && s.bytesLeft == old(s.bytesLeft) - |EncItem(t, x)|
    decreases t, 1
  {
    if Packable(t) {
      var n: int;
      ok, n := DecodeNumber(s, t, if x.Num? then x.n else 0);
      r := Num(n);
    } else if t.Sub? {
      var values: Message;
      ok, values := DecodeSubmessage(s, t.fields, repeated, if repeated then [] else dest.values, if x.Msg? then x.values else []);
      r := Msg(values);
    } else {
      ok, r := DecodeBytes(s, t, x);
    }
  }

  ghost predicate Expected(t: LType, repeated: bool, dest: Item, x: Item) {
    GoodItem(t, x) && (t.Sub? && !repeated ==> dest == DefaultItem(t))
  }

  ghost predicate ExpectedSub(s: IStream, fields: seq<Field>, repeated: bool, dest: Message, m: Message)
    reads s
  {
    && GoodFields(fields, m) && (!repeated ==> dest == DefaultMessage(fields))
    && s.bytesLeft < TWO_32 && s.Ahead(Prefixed(EncMessage(fields, m)))
  }

  /** pb_dec_submessage: array entries start from defaults. */
  method DecodeSubmessage(s: IStream, fields: seq<Field>, repeated: bool, dest: Message, ghost m: Message)
    returns (ok: bool, r: Message)
    requires GoodTable(fields) && s.Valid()
    requires !repeated ==> GoodFields(fields, dest)
    modifies s
    ensures s.Valid() && s.End() <= old(s.End()) && s.bytesLeft <= old(s.bytesLeft)
    ensures ok ==> GoodFields(fields, r) && s.bytesLeft < old(s.bytesLeft)
    ensures old(ExpectedSub(s, fields, repeated, dest, m)) ==>
      && ok && r == m
      && s.state == old(s.state) + |Prefixed(EncMessage(fields, m))| && s.bytesLeft == old(s.bytesLeft) - |Prefixed(EncMessage(fields, m))|
    decreases fields, 7
  {
    ghost var b := if GoodFields(fields, m) then EncMessage(fields, m) else [];
    var sub: IStream;
    ok, sub := s.MakeSubstream(b);
    if !ok {
      return false, dest;
    }
    var start := dest;
    if repeated {
      start := SetToDefaults(fields);
      DefaultsAreGood(fields);
    }
    ghost var es: seq<Piece> := [];
    if MessageAhead(sub, fields, m) {
      es := MessageIsAhead(sub, fields, m);
    }
    ok, r := DecodeNoInit(sub, fields, start, m, es);
    s.CloseSubstream(sub);
  }

  // ----- Fields -----

  /** All that is left of the stream is values j and on. */
  ghost predicate ItemsAt(data: Bytes, pos: nat, left: nat, t: LType, ys: seq<Item>, j: nat) {
    AllGood(t, ys) && j <= |ys| && left == |EncItems(t, ys, j)| && At(data, pos, EncItems(t, ys, j))
  }

  /** The values read so far are a prefix of ys, and the rest is still to come. */
  ghost predicate PackedMid(data: Bytes, pos: nat, left: nat, t: LType, ys: seq<Item>, xs: seq<Item>) {
    |xs| <= |ys| && xs == ys[..|xs|] && ItemsAt(data, pos, left, t, ys, |xs|)
  }

  lemma ItemsStep(t: LType, ys: seq<Item>, j: nat, n: int)
    requires Packable(t) && AllGood(t, ys) && j < |ys| && ys[j] == Num(n) && GoodItem(t, Num(n))
    ensures EncItems(t, ys, j) == EncNumber(t, n) + EncItems(t, ys, j + 1)
  {
    assert EncItem(t, ys[j]) == EncNumber(t, n);
  }

  lemma ThisItem(data: Bytes, pos: nat, left: nat, t: LType, ys: seq<Item>, xs: seq<Item>) returns (n: int)
    requires Packable(t) && PackedMid(data, pos, left, t, ys, xs)
    ensures left > 0 <==> |xs| < |ys|
    ensures left == 0 ==> xs == ys
    ensures left > 0 ==> ys[|xs|] == Num(n) && GoodItem(t, Num(n))
    ensures left > 0 ==> |EncNumber(t, n)| <= left && At(data, pos, EncNumber(t, n))
  {
    n := 0;
    var j := |xs|;
    if j < |ys| {
      n := ys[j].n;
      assert ys[j] == Num(n);
      ItemsStep(t, ys, j, n);
      AtSplit(data, pos, left, EncItems(t, ys, j), EncNumber(t, n), EncItems(t, ys, j + 1));
      assert |EncNumber(t, n)| > 0;
    }
  }

  lemma ItemsNext(data: Bytes, pos: nat, left: nat, at: nat, now: nat, t: LType, ys: seq<Item>, j: nat, n: int)
    requires Packable(t) && ItemsAt(data, pos, left, t, ys, j) && j < |ys| && ys[j] == Num(n) && GoodItem(t, Num(n))
    requires at == pos + |EncNumber(t, n)| && now == left - |EncNumber(t, n)|
    ensures ItemsAt(data, at, now, t, ys, j + 1)
  {
    ItemsStep(t, ys, j, n);
    AtSplit(data, pos, left, EncItems(t, ys, j), EncNumber(t, n), EncItems(t, ys, j + 1));
  }

  lemma NextPrefix(ys: seq<Item>, xs: seq<Item>, n: int, next: seq<Item>)
    requires |xs| < |ys| && xs == ys[..|xs|] && ys[|xs|] == Num(n) && next == xs + [Num(n)]
    ensures |next| == |xs| + 1 && next == ys[..|next|]
  {
  }

  lemma NextItem(data: Bytes, pos: nat, left: nat, at: nat, now: nat, t: LType, ys: seq<Item>, xs: seq<Item>, n: int, next: seq<Item>)
    requires Packable(t) && PackedMid(data, pos, left, t, ys, xs) && |xs| < |ys| && ys[|xs|] == Num(n) && GoodItem(t, Num(n))
    requires at == pos + |EncNumber(t, n)| && now == left - |EncNumber(t, n)| && next == xs + [Num(n)]
    ensures PackedMid(data, at, now, t, ys, next)
  {
    NextPrefix(ys, xs, n, next);
    ItemsNext(data, pos, left, at, now, t, ys, |xs|, n);
  }

  /** The values of a packed array, as long as there is room. */
  method DecodePackedItems(sub: IStream, t: LType, room: nat, ghost ys: seq<Item>) returns (status: bool, xs: seq<Item>)
    requires Packable(t) && GoodType(t) && sub.Valid()
    modifies sub
    ensures sub.Valid() && sub.End() == old(sub.End())
    ensures AllGood(t, xs) && |xs| <= room
    ensures ItemsAt(sub.data, old(sub.state), old(sub.bytesLeft), t, ys, 0) && |ys| <= room ==>
      status && xs == ys && sub.bytesLeft == 0
  {
    ghost var good := ItemsAt(sub.data, sub.state, sub.bytesLeft, t, ys, 0) && |ys| <= room;
    status, xs := true, [];
    while sub.bytesLeft > 0 && |xs| < room
      invariant sub.Valid() && sub.End() == old(sub.End())
      invariant AllGood(t, xs) && |xs| <= room && status
      invariant good ==> PackedMid(sub.data, sub.state, sub.bytesLeft, t, ys, xs)
      decreases sub.bytesLeft
    {
      ghost var n := 0;
      if good {
        n := ThisItem(sub.data, sub.state, sub.bytesLeft, t, ys, xs);
      }
      ghost var pos, left := sub.state, sub.bytesLeft;
      var ok: bool, v: int;
      ok, v := DecodeNumber(sub, t, n);
      if !ok {
        return false, xs;
      }
      if good {
        NextItem(sub.data, pos, left, sub.state, sub.bytesLeft, t, ys, xs, v, xs + [Num(v)]);
      }
      xs := xs + [Num(v)];
    }
    if good {
      var _ := ThisItem(sub.data, sub.state, sub.bytesLeft, t, ys, xs);
    }
  }

  method DecodePacked(s: IStream, f: Field, have: nat, ghost ys: seq<Item>) returns (ok: bool, xs: seq<Item>)
    requires f.htype.Repeated? && have <= f.htype.max && Packable(f.ltype) && GoodType(f.ltype) && s.Valid()
    modifies s
    ensures s.Valid() && s.End() <= old(s.End()) && s.bytesLeft <= old(s.bytesLeft)
    ensures ok ==> AllGood(f.ltype, xs) && have + |xs| <= f.htype.max
    ensures old(PackedAhead(s, f.ltype, ys)) && have + |ys| <= f.htype.max ==>
      && ok && xs == ys
      && s.state == old(s.state) + |Prefixed(EncItems(f.ltype, ys, 0))| && s.bytesLeft == old(s.bytesLeft) - |Prefixed(EncItems(f.ltype, ys, 0))|
  {
    ghost var good := PackedAhead(s, f.ltype, ys);
    ghost var b := if good then EncItems(f.ltype, ys, 0) else [];
    var sub: IStream;
    ok, sub := s.MakeSubstream(b);
    xs := [];
    if !ok {
      return;
    }
    assert good ==> ItemsAt(sub.data, sub.state, sub.bytesLeft, f.ltype, ys, 0);
    var status: bool;
    status, xs := DecodePackedItems(sub, f.ltype, f.htype.max - have, ys);
    if sub.bytesLeft != 0 {
      return false, xs;
    }
    s.CloseSubstream(sub);
    ok := status;
  }

  ghost predicate PackedAhead(s: IStream, t: LType, ys: seq<Item>)
    reads s
  {
    Packable(t) && AllGood(t, ys) && s.bytesLeft < TWO_32 && s.Ahead(Prefixed(EncItems(t, ys, 0)))
  }

  lemma OneIsGood(fields: seq<Field>, dest: Message, i: nat, x: Item)
    requires GoodFields(fields, dest) && i < |fields| && GoodItem(fields[i].ltype, x)
    requires fields[i].htype.Repeated? ==> |dest[i]| < fields[i].htype.max
    ensures GoodFields(fields, Apply(fields, dest, One(i, x)))
  {
    var r := Apply(fields, dest, One(i, x));
    forall k | 0 <= k < |fields| ensures GoodValues(fields[k], r[k]) {
      assert GoodValues(fields[k], dest[k]);
    }
  }

  lemma PackedIsGood(fields: seq<Field>, dest: Message, i: nat, xs: seq<Item>)
    requires GoodFields(fields, dest) && i < |fields| && AllGood(fields[i].ltype, xs)
    requires fields[i].htype.Repeated? && |dest[i]| + |xs| <= fields[i].htype.max
    ensures GoodFields(fields, Apply(fields, dest, Packed(i, xs)))
  {
    var r := Apply(fields, dest, Packed(i, xs));
    forall k | 0 <= k < |fields| ensures GoodValues(fields[k], r[k]) {
      assert GoodValues(fields[k], dest[k]);
    }
  }

  /** What a single value is decoded onto: for a union the submessage is set to defaults first. */
  method Target(f: Field, values: seq<Item>) returns (target: Item)
    requires GoodFieldType(f) && GoodValues(f, values) && !f.htype.Repeated?
    ensures GoodItem(f.ltype, target)
    ensures values == DefaultValues(f) ==> target == DefaultItem(f.ltype)
  {
    DefaultIsGood(f.ltype);
    if f.htype.Oneof? || values == [] {
      if f.ltype.Sub? {
        var inner := SetToDefaults(f.ltype.fields);
        target := Msg(inner);
      } else {
        target := DefaultItem(f.ltype);
      }
    } else {
      target := values[0];
    }
  }

  /** decode_static_field. */
  method DecodeField(s: IStream, wireType: nat, fields: seq<Field>, i: nat, dest: Message,
                     ghost good: bool, ghost e: Piece, ghost body: Bytes)
    returns (ok: bool, r: Message)
    requires GoodTable(fields) && s.Valid() && GoodFields(fields, dest) && i < |fields|
    requires good ==> Ready(fields, dest, e) && e.field == i && wireType == WireTypeOf(fields, e)
    requires good ==> body == EncBody(fields, e) && s.bytesLeft < TWO_32 && s.Ahead(body)
    modifies s
    ensures s.Valid() && s.End() <= old(s.End()) && s.bytesLeft <= old(s.bytesLeft)
    ensures ok ==> GoodFields(fields, r)
    ensures good ==> ok && r == Apply(fields, dest, e)
    ensures good ==> s.state == old(s.state) + |body| && s.bytesLeft == old(s.bytesLeft) - |body|
    decreases fields, 1
  {
    var f := fields[i];
    assert GoodFieldType(f) && GoodValues(f, dest[i]);
    r := dest;
    if f.htype.Repeated? {
      var xs: seq<Item>;
      ok, xs := DecodeRepeated(s, wireType, f, |dest[i]|, e);
      if ok {
        r := dest[i := dest[i] + xs];
        PackedIsGood(fields, dest, i, xs);
      }
    } else {
      ok, r := DecodeSingle(s, fields, i, dest, if e.One? then e.item else Num(0));
    }
  }

  /** A required, optional or union field. */
  method DecodeSingle(s: IStream, fields: seq<Field>, i: nat, dest: Message, ghost x: Item) returns (ok: bool, r: Message)
    requires GoodTable(fields) && s.Valid() && GoodFields(fields, dest) && i < |fields| && !fields[i].htype.Repeated?
    modifies s
    ensures s.Valid() && s.End() <= old(s.End()) && s.bytesLeft <= old(s.bytesLeft)
    ensures ok ==> GoodFields(fields, r)
    ensures dest[i] == DefaultValues(fields[i]) && old(ItemAhead(s, fields[i].ltype, x)) ==>
      && ok && r == Apply(fields, dest, One(i, x))
      && s.state == old(s.state) + |EncItem(fields[i].ltype, x)| && s.bytesLeft == old(s.bytesLeft) - |EncItem(fields[i].ltype, x)|
    decreases fields[i]
  {
    var f := fields[i];
    assert GoodFieldType(f) && GoodValues(f, dest[i]);
    var target := Target(f, dest[i]);
    var v: Item;
    ok, v := DecodeItem(s, f.ltype, false, target, x);
    r := dest;
    if ok {
      r := (if f.htype.Oneof? then ClearUnion(fields, dest, i) else dest)[i := [v]];
      OneIsGood(fields, dest, i, v);
    }
  }

  /** The values a piece adds to a repeated field. */
  ghost function Items(e: Piece): seq<Item> {
    if e.Packed? then e.items else [e.item]
  }

  method DecodeRepeated(s: IStream, wireType: nat, f: Field, have: nat, ghost e: Piece) returns (ok: bool, xs: seq<Item>)
    requires f.htype.Repeated? && GoodFieldType(f) && have <= f.htype.max && s.Valid()
    modifies s
    ensures s.Valid() && s.End() <= old(s.End()) && s.bytesLeft <= old(s.bytesLeft)
    ensures ok ==> AllGood(f.ltype, xs) && have + |xs| <= f.htype.max
    ensures e.One? && have < f.htype.max && wireType == WireType(f.ltype) && old(ItemAhead(s, f.ltype, e.item)) ==>
      && ok && xs == [e.item]
      && s.state == old(s.state) + |EncItem(f.ltype, e.item)| && s.bytesLeft == old(s.bytesLeft) - |EncItem(f.ltype, e.item)|
    ensures e.Packed? && wireType == WT_STRING && have + |e.items| <= f.htype.max && old(PackedAhead(s, f.ltype, e.items)) ==>
      && ok && xs == e.items
      && s.state == old(s.state) + |Prefixed(EncItems(f.ltype, e.items, 0))| && s.bytesLeft == old(s.bytesLeft) - |Prefixed(EncItems(f.ltype, e.items, 0))|
    decreases f
  {
    if wireType == WT_STRING && Packable(f.ltype) {
      ok, xs := DecodePacked(s, f, have, if e.Packed? then e.items else []);
    } else {
      if have >= f.htype.max {
        return false, [];
      }
      var v: Item;
      ok, v := DecodeItem(s, f.ltype, true, Num(0), if e.One? then e.item else Num(0));
      xs := [v];
    }
  }

  ghost predicate ItemAhead(s: IStream, t: LType, x: Item)
    reads s
  {
    GoodItem(t, x) && s.bytesLeft < TWO_32 && s.Ahead(EncItem(t, x))
  }

  // ----- Messages -----

  /** PB_MAX_REQUIRED_FIELDS. */
  const MAX_REQUIRED := 64

  function SeenWith(fields: seq<Field>, seen: set<nat>, i: nat): set<nat>
    requires i < |fields|
  {
    if fields[i].htype.Required? && Rank(fields, i) < MAX_REQUIRED then seen + {Rank(fields, i)} else seen
  }

  datatype Turn = Failed | EndOfMessage | Skipped | Decoded

  /** The value of the field the iterator has found. */
  method DecodeFound(s: IStream, iter: FieldIter, wireType: nat, dest: Message, seen: set<nat>,
                     ghost good: bool, ghost e: Piece, ghost body: Bytes)
    returns (turn: Turn, r: Message, nowSeen: set<nat>)
    requires GoodTable(iter.fields) && s.Valid() && iter.Valid() && GoodFields(iter.fields, dest) && iter.pos < |iter.fields|
    requires good ==> Ready(iter.fields, dest, e) && e.field == iter.pos && wireType == WireTypeOf(iter.fields, e)
    requires good ==> body == EncBody(iter.fields, e) && s.bytesLeft < TWO_32 && s.Ahead(body)
    modifies s
    ensures s.Valid() && s.End() <= old(s.End()) && s.bytesLeft <= old(s.bytesLeft)
    ensures turn == Failed || (turn == Decoded && GoodFields(iter.fields, r))
    ensures good ==> turn == Decoded && r == Apply(iter.fields, dest, e) && nowSeen == SeenWith(iter.fields, seen, e.field)
    ensures good ==> s.state == old(s.state) + |body| && s.bytesLeft == old(s.bytesLeft) - |body|
    decreases iter.fields, 2
  {
    nowSeen := seen;
    if iter.fields[iter.pos].htype.Required? && iter.requiredFieldIndex < MAX_REQUIRED {
      nowSeen := seen + {iter.requiredFieldIndex};
    }
    var ok: bool;
    ok, r := DecodeField(s, wireType, iter.fields, iter.pos, dest, good, e, body);
    turn := if ok then Decoded else Failed;
  }

  lemma SameTag(fields: seq<Field>, i: nat, j: nat)
    requires GoodTable(fields) && i < |fields| && j < |fields| && fields[i].tag == fields[j].tag
    ensures i == j
  {
    assert i < j ==> TagsDiffer(fields, i, j);
    assert j < i ==> TagsDiffer(fields, j, i);
  }

  /** Moves the iterator to the field with this tag. */
  method FindField(iter: FieldIter, tag: nat, ghost i: nat) returns (found: bool)
    requires GoodTable(iter.fields) && iter.Valid()
    modifies iter
    ensures iter.Valid()
    ensures i < |iter.fields| && iter.fields[i].tag == tag ==> found && iter.pos == i
  {
    found := iter.Find(tag);
    if i < |iter.fields| && iter.fields[i].tag == tag {
      assert HasTag(iter.fields, tag);
      SameTag(iter.fields, i, iter.pos);
    }
  }

  /** The encoding b of a piece starts with its tag. */
  lemma TagFirst(data: Bytes, pos: nat, left: nat, fields: seq<Field>, e: Piece, b: Bytes)
    requires GoodPiece(fields, e) && b == EncPiece(fields, e) && |b| <= left && At(data, pos, b)
    ensures var tag := EncTag(fields[e.field].tag, WireTypeOf(fields, e)); |tag| <= left && At(data, pos, tag)
  {
    AtBoth(data, pos, EncTag(fields[e.field].tag, WireTypeOf(fields, e)), EncBody(fields, e));
  }

  /** Behind the tag comes the rest of it. */
  lemma BodyNext(data: Bytes, pos: nat, left: nat, at: nat, now: nat, fields: seq<Field>, e: Piece, b: Bytes) returns (body: Bytes)
    requires GoodPiece(fields, e) && b == EncPiece(fields, e) && |b| <= left && At(data, pos, b)
    requires var tag := EncTag(fields[e.field].tag, WireTypeOf(fields, e)); at == pos + |tag| && now == left - |tag|
    ensures body == EncBody(fields, e) && |body| <= now && At(data, at, body)
    ensures at + |body| == pos + |b| && now - |body| == left - |b|
  {
    body := EncBody(fields, e);
    AtBoth(data, pos, EncTag(fields[e.field].tag, WireTypeOf(fields, e)), body);
  }

  /** The value that follows a tag: it is skipped when no field has the tag. */
  method DecodeTagged(s: IStream, iter: FieldIter, wireType: nat, tag: nat, dest: Message, seen: set<nat>,
                      ghost good: bool, ghost e: Piece, ghost body: Bytes)
    returns (turn: Turn, r: Message, nowSeen: set<nat>)
    requires GoodTable(iter.fields) && s.Valid() && iter.Valid() && GoodFields(iter.fields, dest)
    requires good ==> Ready(iter.fields, dest, e) && tag == iter.fields[e.field].tag && wireType == WireTypeOf(iter.fields, e)
    requires good ==> body == EncBody(iter.fields, e) && s.bytesLeft < TWO_32 && s.Ahead(body)
    modifies s, iter
    ensures s.Valid() && iter.Valid() && s.End() <= old(s.End()) && s.bytesLeft <= old(s.bytesLeft)
    ensures turn == Failed || ((turn == Skipped || turn == Decoded) && GoodFields(iter.fields, r))
    ensures good ==> turn == Decoded && r == Apply(iter.fields, dest, e) && nowSeen == SeenWith(iter.fields, seen, e.field)
    ensures good ==> s.state == old(s.state) + |body| && s.bytesLeft == old(s.bytesLeft) - |body|
    decreases iter.fields, 3
  {
    var ok: bool;
    r, nowSeen := dest, seen;
    var found := FindField(iter, tag, e.field);
    assert good ==> found && iter.pos == e.field;
    if !found {
      ok := s.SkipField(wireType, Bool, Num(0));
      turn := if ok then Skipped else Failed;
    } else if iter.pos == |iter.fields| {
      // The terminator of an empty table reads as a required bool.
      var value: nat, eof: bool;
      ok, value, eof := s.DecodeVarint32(0);
      turn := if ok then Skipped else Failed;
    } else {
      turn, r, nowSeen := DecodeFound(s, iter, wireType, dest, seen, good, e, body);
    }
  }

  /** One turn of the loop: a tag, the field it names, and its value. When `good`, the encoding b of
      piece e comes next. */
  method DecodeNext(s: IStream, iter: FieldIter, dest: Message, seen: set<nat>, ghost good: bool, ghost e: Piece, ghost b: Bytes)
    returns (turn: Turn, r: Message, nowSeen: set<nat>)
    requires GoodTable(iter.fields) && s.Valid() && iter.Valid() && GoodFields(iter.fields, dest)
    requires good ==> Ready(iter.fields, dest, e) && b == EncPiece(iter.fields, e) && s.bytesLeft < TWO_32 && s.Ahead(b)
    modifies s, iter
    ensures s.Valid() && iter.Valid() && s.End() <= old(s.End()) && s.bytesLeft <= old(s.bytesLeft)
    ensures turn != Failed ==> GoodFields(iter.fields, r)
    ensures turn == Skipped || turn == Decoded ==> s.bytesLeft < old(s.bytesLeft)
    ensures good ==> turn == Decoded && r == Apply(iter.fields, dest, e) && nowSeen == SeenWith(iter.fields, seen, e.field)
    ensures good ==> s.state == old(s.state) + |b| && s.bytesLeft == old(s.bytesLeft) - |b|
    decreases iter.fields, 4
  {
    ghost var tag0: nat, wire0: nat, body := 0, 0, [];
    ghost var pos, left := s.state, s.bytesLeft;
    if good {
      tag0, wire0 := iter.fields[e.field].tag, WireTypeOf(iter.fields, e);
      TagFirst(s.data, pos, left, iter.fields, e, b);
    }
    r, nowSeen := dest, seen;
    var ok: bool, wireType: nat, tag: nat, eof: bool;
    ok, wireType, tag, eof := s.DecodeTag(tag0, wire0);
    if !ok {
      turn := if eof then EndOfMessage else Failed;
      return;
    }
    assert good ==> tag == tag0 && wireType == wire0;
    if good {
      body := BodyNext(s.data, pos, left, s.state, s.bytesLeft, iter.fields, e, b);
    }
    turn, r, nowSeen := DecodeTagged(s, iter, wireType, tag, dest, seen, good, e, body);
  }

  /** Field i is a required field with number q, among those that are kept track of. */
  predicate Tracked(fields: seq<Field>, i: nat, q: nat)
    requires i < |fields|
  {
    fields[i].htype.Required? && Rank(fields, i) == q && q < MAX_REQUIRED
  }

  ghost predicate SeenIn(fields: seq<Field>, es: seq<Piece>, k: nat, q: nat)
    requires InRange(fields, es) && k <= |es|
  {
    exists p {:trigger es[p]} :: 0 <= p < k && Tracked(fields, es[p].field, q)
  }

  /** What was seen of the first k pieces. */
  ghost predicate SeenSoFar(fields: seq<Field>, seen: set<nat>, es: seq<Piece>, k: nat)
    requires InRange(fields, es) && k <= |es|
  {
    forall q :: q in seen <==> SeenIn(fields, es, k, q)
  }

  lemma SeenStep(fields: seq<Field>, seen: set<nat>, es: seq<Piece>, k: nat, nowSeen: set<nat>)
    requires InRange(fields, es) && k < |es| && SeenSoFar(fields, seen, es, k)
    requires es[k].field < |fields| && nowSeen == SeenWith(fields, seen, es[k].field)
    ensures SeenSoFar(fields, nowSeen, es, k + 1)
  {
    forall q ensures q in nowSeen <==> SeenIn(fields, es, k + 1, q) {
      assert SeenIn(fields, es, k + 1, q) <==> SeenIn(fields, es, k, q) || Tracked(fields, es[k].field, q);
    }
  }

  /** Every required field that is kept track of has been sent. */
  ghost predicate RequiredSent(fields: seq<Field>, es: seq<Piece>) {
    forall r :: 0 <= r < |fields| && fields[r].htype.Required? && Rank(fields, r) < MAX_REQUIRED ==> Sent(es, r)
  }

  /** All numbers are seen just when all required fields were sent. */
  lemma AllSeen(fields: seq<Field>, seen: set<nat>, es: seq<Piece>)
    requires InRange(fields, es) && SeenSoFar(fields, seen, es, |es|)
    ensures RequiredSent(fields, es) <==> forall q :: 0 <= q < Rank(fields, |fields|) && q < MAX_REQUIRED ==> q in seen
  {
    if RequiredSent(fields, es) {
      forall q | 0 <= q < Rank(fields, |fields|) && q < MAX_REQUIRED ensures q in seen {
        var i := RankedField(fields, |fields|, q);
        assert Sent(es, i);
        var p :| 0 <= p < |es| && es[p].field == i;
        assert SeenIn(fields, es, |es|, q);
      }
    }
    if forall q :: 0 <= q < Rank(fields, |fields|) && q < MAX_REQUIRED ==> q in seen {
      forall r | 0 <= r < |fields| && fields[r].htype.Required? && Rank(fields, r) < MAX_REQUIRED ensures Sent(es, r) {
        RankGrows(fields, r, |fields|);
        assert SeenIn(fields, es, |es|, Rank(fields, r));
        var p :| 0 <= p < |es| && Tracked(fields, es[p].field, Rank(fields, r));
        SameRank(fields, es[p].field, r);
      }
    }
  }

  lemma SameRank(fields: seq<Field>, i: nat, j: nat)
    requires i < |fields| && j < |fields| && fields[i].htype.Required? && fields[j].htype.Required?
    requires Rank(fields, i) == Rank(fields, j)
    ensures i == j
  {
    if i < j {
      RankGrows(fields, i, j);
    } else if j < i {
      RankGrows(fields, j, i);
    }
  }

  /** All that is left of the stream is parts k and on. */
  ghost predicate PartsAt(data: Bytes, pos: nat, left: nat, bs: seq<Bytes>, k: nat) {
    k <= |bs| && left == |Concat(bs, k)| && At(data, pos, Concat(bs, k))
  }

  lemma ThisPart(data: Bytes, pos: nat, left: nat, bs: seq<Bytes>, k: nat)
    requires PartsAt(data, pos, left, bs, k)
    ensures k == |bs| ==> left == 0
    ensures k < |bs| ==> |bs[k]| <= left && At(data, pos, bs[k])
  {
    if k < |bs| {
      AtSplit(data, pos, left, Concat(bs, k), bs[k], Concat(bs, k + 1));
    }
  }

  lemma NextPart(data: Bytes, pos: nat, left: nat, at: nat, now: nat, bs: seq<Bytes>, k: nat)
    requires PartsAt(data, pos, left, bs, k) && k < |bs| && at == pos + |bs[k]| && now == left - |bs[k]|
    ensures PartsAt(data, at, now, bs, k + 1)
  {
    AtSplit(data, pos, left, Concat(bs, k), bs[k], Concat(bs, k + 1));
  }

  lemma PieceNotEmpty(fields: seq<Field>, e: Piece)
    requires GoodPiece(fields, e)
    ensures |EncPiece(fields, e)| > 0
  {
    assert |EncTag(fields[e.field].tag, WireTypeOf(fields, e))| > 0;
  }

  /** The parts are the encodings of the pieces. */
  ghost predicate AreParts(fields: seq<Field>, es: seq<Piece>, bs: seq<Bytes>) {
    GoodPieces(fields, es) && |bs| == |es| && forall k :: 0 <= k < |bs| ==> bs[k] == EncPiece(fields, es[k])
  }

  /** The pieces es add up to m, and bs are their encodings. */
  ghost predicate Plan(fields: seq<Field>, m: Message, es: seq<Piece>, bs: seq<Bytes>) {
    GoodFields(fields, m) && AreParts(fields, es, bs)
  }

  /** The decoder has read k pieces. */
  ghost predicate Midway(data: Bytes, pos: nat, left: nat, fields: seq<Field>, m: Message, dest: Message, seen: set<nat>,
                         es: seq<Piece>, bs: seq<Bytes>, k: nat)
  {
    Progress(fields, m, dest, es, k) && SeenSoFar(fields, seen, es, k) && PartsAt(data, pos, left, bs, k)
  }

  lemma PartsLeft(data: Bytes, pos: nat, left: nat, fields: seq<Field>, es: seq<Piece>, bs: seq<Bytes>, k: nat)
    requires AreParts(fields, es, bs) && PartsAt(data, pos, left, bs, k)
    ensures left > 0 <==> k < |es|
  {
    ThisPart(data, pos, left, bs, k);
    if k < |es| {
      PieceNotEmpty(fields, es[k]);
    }
  }

  lemma MidwayNext(data: Bytes, pos: nat, left: nat, fields: seq<Field>, m: Message, dest: Message, seen: set<nat>,
                   es: seq<Piece>, bs: seq<Bytes>, k: nat)
    requires Plan(fields, m, es, bs) && Midway(data, pos, left, fields, m, dest, seen, es, bs, k) && left > 0
    ensures k < |es| && Ready(fields, dest, es[k])
    ensures bs[k] == EncPiece(fields, es[k]) && |bs[k]| <= left && At(data, pos, bs[k])
  {
    PartsLeft(data, pos, left, fields, es, bs, k);
    ThisPart(data, pos, left, bs, k);
    Step(fields, m, dest, es, k, Apply(fields, dest, es[k]));
  }

  lemma MidwayStep(data: Bytes, pos: nat, left: nat, at: nat, now: nat, fields: seq<Field>, m: Message,
                   dest: Message, next: Message, seen: set<nat>, nowSeen: set<nat>, es: seq<Piece>, bs: seq<Bytes>, k: nat)
    requires Plan(fields, m, es, bs) && Midway(data, pos, left, fields, m, dest, seen, es, bs, k) && k < |es|
    requires |bs| == |es| && at == pos + |bs[k]| && now == left - |bs[k]|
    requires GoodPiece(fields, es[k]) && next == Apply(fields, dest, es[k]) && nowSeen == SeenWith(fields, seen, es[k].field)
    ensures Midway(data, at, now, fields, m, next, nowSeen, es, bs, k + 1)
  {
    NextPart(data, pos, left, at, now, bs, k);
    Step(fields, m, dest, es, k, next);
    SeenStep(fields, seen, es, k, nowSeen);
  }

  lemma MidwayEnd(data: Bytes, pos: nat, fields: seq<Field>, m: Message, dest: Message, seen: set<nat>,
                  es: seq<Piece>, bs: seq<Bytes>, k: nat)
    requires Plan(fields, m, es, bs) && Midway(data, pos, 0, fields, m, dest, seen, es, bs, k)
    ensures dest == m
    ensures RequiredSent(fields, es) <==> forall q :: 0 <= q < Rank(fields, |fields|) && q < MAX_REQUIRED ==> q in seen
  {
    PartsLeft(data, pos, 0, fields, es, bs, k);
    Finish(fields, m, dest, es);
    AllSeen(fields, seen, es);
  }

  lemma MidwayStart(data: Bytes, pos: nat, left: nat, fields: seq<Field>, m: Message, es: seq<Piece>) returns (bs: seq<Bytes>)
    requires GoodFields(fields, m) && Progress(fields, m, DefaultMessage(fields), es, 0)
    requires left == |EncPieces(fields, es)| && At(data, pos, EncPieces(fields, es))
    ensures Plan(fields, m, es, bs) && Midway(data, pos, left, fields, m, DefaultMessage(fields), {}, es, bs, 0)
  {
    bs := PieceBytes(fields, es);
  }

  /** One turn of the loop; when `good`, in the middle of the encoding of m. */
  method DecodePiece(s: IStream, iter: FieldIter, dest: Message, seen: set<nat>, ghost good: bool, ghost m: Message,
                     ghost es: seq<Piece>, ghost bs: seq<Bytes>, ghost k: nat)
    returns (turn: Turn, r: Message, nowSeen: set<nat>)
    requires GoodTable(iter.fields) && s.Valid() && iter.Valid() && GoodFields(iter.fields, dest) && s.bytesLeft > 0
    requires good ==> s.bytesLeft < TWO_32 && Plan(iter.fields, m, es, bs)
    requires good ==> Midway(s.data, s.state, s.bytesLeft, iter.fields, m, dest, seen, es, bs, k)
    modifies s, iter
    ensures s.Valid() && iter.Valid() && s.End() <= old(s.End()) && s.bytesLeft <= old(s.bytesLeft)
    ensures turn != Failed ==> GoodFields(iter.fields, r)
    ensures turn == Skipped || turn == Decoded ==> s.bytesLeft < old(s.bytesLeft)
    ensures good ==> turn == Decoded && s.End() == old(s.End())
    ensures good ==> Midway(s.data, s.state, s.bytesLeft, iter.fields, m, r, nowSeen, es, bs, k + 1)
    decreases iter.fields, 5
  {
    ghost var e, b := Packed(0, []), [];
    if good {
      MidwayNext(s.data, s.state, s.bytesLeft, iter.fields, m, dest, seen, es, bs, k);
      e, b := es[k], bs[k];
    }
    ghost var pos, left := s.state, s.bytesLeft;
    turn, r, nowSeen := DecodeNext(s, iter, dest, seen, good, e, b);
    if good {
      MidwayStep(s.data, pos, left, s.state, s.bytesLeft, iter.fields, m, dest, r, seen, nowSeen, es, bs, k);
    }
  }

  /** All that is left of the stream is the encoding of m. */
  ghost predicate MessageAhead(s: IStream, fields: seq<Field>, m: Message)
    reads s
  {
    && GoodFields(fields, m)
    && s.bytesLeft < TWO_32 && s.bytesLeft == |EncMessage(fields, m)| && s.Ahead(EncMessage(fields, m))
  }

  /** All that is left of the stream is pieces, in any order, that turn defaults into m. */
  ghost predicate PiecesAhead(s: IStream, fields: seq<Field>, m: Message, es: seq<Piece>)
    reads s
  {
    && GoodFields(fields, m) && Progress(fields, m, DefaultMessage(fields), es, 0)
    && s.bytesLeft < TWO_32 && s.bytesLeft == |EncPieces(fields, es)| && s.Ahead(EncPieces(fields, es))
  }

  lemma MessageIsAhead(s: IStream, fields: seq<Field>, m: Message) returns (es: seq<Piece>)
    requires MessageAhead(s, fields, m)
    ensures PiecesAhead(s, fields, m, es) && RequiredSent(fields, es)
  {
    es := Start(fields, m);
  }

  /** pb_decode_noinit: any input leaves a message within its declared limits.  Pieces that add up to
      a message restore it, whatever their order, and are accepted just when no required field is
      missing. */
  method DecodeNoInit(s: IStream, fields: seq<Field>, dest: Message, ghost m: Message, ghost es: seq<Piece>) returns (ok: bool, r: Message)
    requires GoodTable(fields) && s.Valid() && GoodFields(fields, dest)
    modifies s
    ensures s.Valid() && s.End() <= old(s.End()) && s.bytesLeft <= old(s.bytesLeft)
    ensures ok ==> GoodFields(fields, r)
    ensures dest == DefaultMessage(fields) && old(PiecesAhead(s, fields, m, es)) ==>
      (ok <==> RequiredSent(fields, es)) && r == m && s.bytesLeft == 0 && s.End() == old(s.End())
    decreases fields, 6
  {
    ghost var good := dest == DefaultMessage(fields) && PiecesAhead(s, fields, m, es);
    ghost var bs: seq<Bytes>, k: nat := [], 0;
    if good {
      bs := MidwayStart(s.data, s.state, s.bytesLeft, fields, m, es);
    }
    var seen: set<nat> := {};
    var iter := new FieldIter(fields);
    r := dest;
    while s.bytesLeft > 0
      invariant s.Valid() && iter.Valid() && s.End() <= old(s.End()) && s.bytesLeft <= old(s.bytesLeft)
      invariant iter.fields == fields && GoodFields(fields, r)
      invariant good ==> s.End() == old(s.End()) && Plan(fields, m, es, bs)
      invariant good ==> Midway(s.data, s.state, s.bytesLeft, fields, m, r, seen, es, bs, k)
      decreases s.bytesLeft
    {
      var turn: Turn;
      turn, r, seen := DecodePiece(s, iter, r, seen, good, m, es, bs, k);
      if turn == Failed {
        return false, r;
      }
      if turn == EndOfMessage {
        break;
      }
      k := k + 1;
    }
    if good {
      MidwayEnd(s.data, s.state, fields, m, r, seen, es, bs, k);
    }
    ok := NoneMissing(iter, seen);
  }

  /** The check of the required fields, at most 64 of them. */
  method NoneMissing(iter: FieldIter, seen: set<nat>) returns (ok: bool)
    requires iter.Valid()
    modifies iter
    ensures ok <==> forall q :: 0 <= q < Rank(iter.fields, |iter.fields|) && q < MAX_REQUIRED ==> q in seen
  {
    var count := iter.CountRequired();
    if count > MAX_REQUIRED {
      count := MAX_REQUIRED;
    }
    ok := forall q :: 0 <= q < count ==> q in seen;
  }

  /** pb_decode. */
  method Decode(s: IStream, fields: seq<Field>, ghost m: Message, ghost es: seq<Piece>) returns (ok: bool, r: Message)
    requires GoodTable(fields) && s.Valid()
    modifies s
    ensures s.Valid()
    ensures ok ==> GoodFields(fields, r)
    ensures old(PiecesAhead(s, fields, m, es)) ==> (ok <==> RequiredSent(fields, es)) && r == m && s.bytesLeft == 0
  {
    var dest := SetToDefaults(fields);
    DefaultsAreGood(fields);
    ok, r := DecodeNoInit(s, fields, dest, m, es);
  }

  /** A message encoded into a buffer that is long enough is decoded to itself. */
  method RoundTrip(fields: seq<Field>, m: Message, bufferSize: nat) returns (encoded: bool, decoded: bool, r: Message)
    requires GoodTable(fields) && GoodFields(fields, m) && bufferSize < TWO_32
    ensures encoded <==> |EncMessage(fields, m)| <= bufferSize
    ensures encoded ==> decoded && r == m
  {
    GoodIsShaped(fields, m);
    var out := new OStream(false, bufferSize, []);
    encoded := Encode(out, fields, m);
    decoded, r := false, [];
    if encoded {
      assert [] + EncMessage(fields, m) == EncMessage(fields, m);
      var s := new IStream(out.out, 0, out.bytesWritten);
      assert out.out[0..0 + |out.out|] == out.out;
      AtIsSlice(out.out, 0, out.out);
      ghost var es := MessageIsAhead(s, fields, m);
      decoded, r := Decode(s, fields, m, es);
    }
  }
}
