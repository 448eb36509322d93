/** Writing messages, with a counting pass before every length (nanopb pb_encode.c). */
module NanopbEncode {
  import opened InternalKeys
  import opened Coding
  import opened Nanopb

  // ----- Values a C structure can hold -----

  predicate ShapedItem(t: LType, x: Item)
    decreases t
  {
    match t
    case Bool => x.Num? && 0 <= x.n <= 1
    case Varint_(_) => x.Num? && -(TWO_64 / 2) <= x.n < TWO_64 / 2
    case UVarint(_) => x.Num? && 0 <= x.n < TWO_64
    case SVarint(_) => x.Num? && -(TWO_64 / 2) <= x.n < TWO_64 / 2
    case Fixed32_ => x.Num? && 0 <= x.n < TWO_32
    case Fixed64_ => x.Num? && 0 <= x.n < TWO_64
    case ByteArray(_) => x.Raw?
    case String(_) => x.Raw?
    case FixedBytes(length) => x.Raw? && |x.bytes| == length
    case Sub(fields) => x.Msg? && Shaped(fields, x.values)
  }

  predicate ShapedValues(f: Field, xs: seq<Item>)
    decreases f
  {
    && (f.htype.Required? || f.htype.Singular? ==> |xs| == 1)
    && (!f.htype.Repeated? ==> |xs| <= 1)
    && forall j :: 0 <= j < |xs| ==> ShapedItem(f.ltype, xs[j])
  }

  predicate Shaped(fields: seq<Field>, m: Message)
    decreases fields
  {
    |m| == |fields| && forall i :: 0 <= i < |fields| ==> ShapedValues(fields[i], m[i])
  }

  predicate AllShaped(t: LType, xs: seq<Item>) {
    forall j :: 0 <= j < |xs| ==> ShapedItem(t, xs[j])
  }

  /** A message within its declared limits is one a structure can hold. */
  lemma {:induction false} GoodIsShaped(fields: seq<Field>, m: Message)
    requires GoodFields(fields, m)
    ensures Shaped(fields, m)
    decreases fields
  {
    forall i | 0 <= i < |fields| ensures ShapedValues(fields[i], m[i]) {
      assert GoodValues(fields[i], m[i]);
      GoodIsShapedValues(fields[i], m[i]);
    }
  }

  lemma {:induction false} GoodIsShapedValues(f: Field, xs: seq<Item>)
    requires GoodValues(f, xs)
    ensures ShapedValues(f, xs)
    decreases f
  {
    forall j | 0 <= j < |xs| ensures ShapedItem(f.ltype, xs[j]) {
      if f.ltype.Sub? {
        GoodIsShaped(f.ltype.fields, xs[j].values);
      }
    }
  }

  // ----- Output streams -----

  /** Writing the bytes e succeeds exactly when there is room, and then adds just them. */
  ghost predicate Wrote(ok: bool, sizing: bool, max: nat, before: (nat, Bytes), after: (nat, Bytes), e: Bytes) {
    && (ok <==> sizing || before.0 + |e| <= max)
    && (ok ==> after == (before.0 + |e|, if sizing then before.1 else before.1 + e))
  }

  lemma WroteBoth(sizing: bool, max: nat, a: (nat, Bytes), ok1: bool, b: (nat, Bytes), ok2: bool, c: (nat, Bytes),
                  e1: Bytes, e2: Bytes)
    requires Wrote(ok1, sizing, max, a, b, e1)
    requires ok1 ==> Wrote(ok2, sizing, max, b, c, e2)
    ensures Wrote(ok1 && ok2, sizing, max, a, c, e1 + e2)
  {
    assert a.1 + (e1 + e2) == a.1 + e1 + e2;
  }

  lemma WroteNothing(sizing: bool, max: nat, a: (nat, Bytes))
    requires sizing || a.0 <= max
    ensures Wrote(true, sizing, max, a, a, [])
  {
    assert a.1 + [] == a.1;
  }

  /** One more part of a sequence written part by part. */
  lemma WroteMore(sizing: bool, max: nat, start: (nat, Bytes), mid: (nat, Bytes), ok: bool, now: (nat, Bytes),
                  done: Bytes, e: Bytes, rest: Bytes, total: Bytes)
    requires Wrote(true, sizing, max, start, mid, done) && Wrote(ok, sizing, max, mid, now, e)
    requires done + (e + rest) == total
    ensures Wrote(ok, sizing, max, start, now, done + e) && (done + e) + rest == total
    ensures !ok ==> Wrote(false, sizing, max, start, now, total)
  {
    WroteBoth(sizing, max, start, true, mid, ok, now, done, e);
    assert done + (e + rest) == (done + e) + rest;
  }

  /** A stream without a callback only counts. */
  class OStream {
    const sizing: bool
    const maxSize: nat
    var bytesWritten: nat
    var out: Bytes

    ghost predicate Valid()
      reads this
    {
      !sizing ==> bytesWritten <= maxSize
    }

    ghost function At(): (nat, Bytes)
      reads this
    {
      (bytesWritten, out)
    }

    constructor (sizing: bool, maxSize: nat, out: Bytes)
      ensures Valid() && At() == (0, out) && this.sizing == sizing && this.maxSize == maxSize
    {
      this.sizing, this.maxSize, this.bytesWritten, this.out := sizing, maxSize, 0, out;
    }

    /** pb_write. */
    method Write(buf: Bytes) returns (ok: bool)
      requires Valid()
      modifies this
      ensures Valid() && Wrote(ok, sizing, maxSize, old(At()), At(), buf)
    {
      if |buf| > 0 && !sizing {
        if bytesWritten + |buf| > maxSize {
          return false;
        }
        out := out + buf;
      }
      bytesWritten := bytesWritten + |buf|;
      ok := true;
      assert sizing || buf != [] || out + buf == out;
    }

    /** pb_write without a buffer, on a stream that only counts. */
    method Count(count: nat)
      requires Valid() && sizing
      modifies this
      ensures Valid() && At() == (old(bytesWritten) + count, old(out))
    {
      bytesWritten := bytesWritten + count;
    }

    method EncodeVarint(value: nat) returns (ok: bool)
      requires Valid()
      modifies this
      ensures Valid() && Wrote(ok, sizing, maxSize, old(At()), At(), Varint(value))
    {
      if value < 128 {
        ok := Write([value as byte]);
        return;
      }
      var buffer: Bytes, v := [], value;
      while v >= 128
        invariant buffer + Varint(v) == Varint(value)
      {
        assert buffer + ([(v % 128 + 128) as byte] + Varint(v / 128)) == (buffer + [(v % 128 + 128) as byte]) + Varint(v / 128);
        buffer := buffer + [(v % 128 + 128) as byte];
        v := v / 128;
      }
      ok := Write(buffer + [v as byte]);
    }

    method EncodeTag(tag: nat, wireType: nat) returns (ok: bool)
      requires Valid()
      modifies this
      ensures Valid() && Wrote(ok, sizing, maxSize, old(At()), At(), EncTag(tag, wireType))
    {
      ok := EncodeVarint(tag * 8 + wireType);
    }

    method EncodeString(b: Bytes) returns (ok: bool)
      requires Valid()
      modifies this
      ensures Valid() && Wrote(ok, sizing, maxSize, old(At()), At(), Prefixed(b))
    {
      ghost var start := At();
      ok := EncodeVarint(|b|);
      if ok {
        ghost var mid := At();
        ok := Write(b);
        WroteBoth(sizing, maxSize, start, true, mid, ok, At(), Varint(|b|), b);
      }
    }

    /** Taking over what a substream wrote. */
    method Adopt(sub: OStream)
      requires Valid() && sub.Valid() && sub != this
      requires !sizing && !sub.sizing && bytesWritten + sub.maxSize <= maxSize
      modifies this
      ensures Valid() && At() == (old(bytesWritten) + sub.bytesWritten, sub.out)
    {
      bytesWritten := bytesWritten + sub.bytesWritten;
      out := sub.out;
    }
  }

  // ----- Default values -----

  method CheckDefault(t: LType, x: Item) returns (r: bool)
    requires ShapedItem(t, x)
    ensures r == IsDefault(t, x)
    decreases t
  {
    if t.ByteArray? || t.String? {
      r := x.bytes == [] || (t.String? && x.bytes[0] == 0);
    } else if t.FixedBytes? {
      r := t.length == 0;
    } else if t.Sub? {
      var i := 0;
      while i < |t.fields|
        invariant i <= |t.fields|
        invariant forall k :: 0 <= k < i ==> IsDefaultField(t.fields[k], x.values[k])
      {
        var unset := CheckDefaultField(t.fields[i], x.values[i]);
        if !unset {
          return false;
        }
        i := i + 1;
      }
      r := true;
    } else {
      r := x.n == 0;
    }
  }

  method CheckDefaultField(f: Field, xs: seq<Item>) returns (r: bool)
    requires ShapedValues(f, xs)
    ensures r == IsDefaultField(f, xs)
    decreases f
  {
    if f.htype.Required? {
      r := false;
    } else if f.htype.Singular? {
      r := CheckDefault(f.ltype, xs[0]);
    } else {
      r := xs == [];
    }
  }

  // ----- Values -----

  /** The bytes of a character array up to its terminator, or all it has room for. */
  method StringLength(max: nat, chars: Bytes) returns (size: nat)
    ensures size <= |chars| && size <= max && 0 !in chars[..size]
    ensures size == max || size == |chars| || chars[size] == 0
    ensures |chars| < max && 0 !in chars ==> chars[..size] == chars
  {
    size := 0;
    while size < max && size < |chars| && chars[size] != 0
      invariant size <= |chars| && size <= max && 0 !in chars[..size]
    {
      size := size + 1;
    }
  }

  predicate KnownWidth(t: LType) {
    t.Varint_? || t.UVarint? || t.SVarint? ==> GoodWidth(t.width)
  }

  /** The number a value is sent as: two's complement in 64 bits, or zigzag. */
  method WireNumber(t: LType, n: int) returns (v: nat)
    requires Packable(t) && ShapedItem(t, Num(n))
    ensures GoodItem(t, Num(n)) ==> v == Wire(t, n)
    ensures v < TWO_64 && (t.Fixed32_? ==> v < TWO_32)
  {
    if t.SVarint? {
      if n < 0 {
        v := TWO_64 - 1 - (n + TWO_64) * 2 % TWO_64;
        assert (n + TWO_64) * 2 % TWO_64 == 2 * n + TWO_64;
      } else {
        v := n * 2;
      }
    } else if t.Varint_? {
      v := if n < 0 then n + TWO_64 else n;
    } else {
      v := n;
    }
  }

  method EncodeNumber(s: OStream, t: LType, n: int) returns (ok: bool)
    requires Packable(t) && ShapedItem(t, Num(n)) && s.Valid()
    modifies s
    ensures s.Valid()
    ensures GoodItem(t, Num(n)) ==> Wrote(ok, s.sizing, s.maxSize, old(s.At()), s.At(), EncNumber(t, n))
  {
    if !KnownWidth(t) {
      return false;
    }
    var v := WireNumber(t, n);
    if t.Fixed32_? {
      ok := s.Write(Fixed32(v as uint32));
    } else if t.Fixed64_? {
      ok := s.Write(Fixed64(v));
    } else {
      ok := s.EncodeVarint(v);
    }
  }

  /** A field encoder: bool, the number types, bytes, string, fixed_length_bytes, submessage. */
  method EncodeItem(s: OStream, t: LType, x: Item) returns (ok: bool)
    requires ShapedItem(t, x) && s.Valid()
    modifies s
    ensures s.Valid()
    ensures GoodItem(t, x) ==> Wrote(ok, s.sizing, s.maxSize, old(s.At()), s.At(), EncItem(t, x))
    decreases t, 1
  {
    if Packable(t) {
      assert x == Num(x.n);
      ok := EncodeNumber(s, t, x.n);
    } else if t.ByteArray? {
      if |x.bytes| > t.max {
        return false;
      }
      ok := s.EncodeString(x.bytes);
    } else if t.String? {
      var size := StringLength(t.max, x.bytes);
      ok := s.EncodeString(x.bytes[..size]);
    } else if t.FixedBytes? {
      ok := s.EncodeString(x.bytes);
    } else {
      ok := EncodeSubmessage(s, t.fields, x.values);
    }
  }

  /** Count first, write the length, then write through a substream with just that much room. */
  method EncodeSubmessage(s: OStream, fields: seq<Field>, m: Message) returns (ok: bool)
    requires Shaped(fields, m) && s.Valid()
    modifies s
    ensures s.Valid()
    ensures GoodFields(fields, m) ==> Wrote(ok, s.sizing, s.maxSize, old(s.At()), s.At(), Prefixed(EncMessage(fields, m)))
    decreases fields, 1
  {
    ghost var start := s.At();
    var counter := new OStream(true, 0, []);
    ok := Encode(counter, fields, m);
    if !ok {
      return;
    }
    var size := counter.bytesWritten;
    ok := s.EncodeVarint(size);
    if !ok {
      return;
    }
    ghost var mid := s.At();
    if s.sizing {
      s.Count(size);
    } else {
      if s.bytesWritten + size > s.maxSize {
        return false;
      }
      var sub := new OStream(false, size, s.out);
      ok := Encode(sub, fields, m);
      s.Adopt(sub);
      if sub.bytesWritten != size {
        return false;
      }
    }
    if GoodFields(fields, m) {
      WroteBoth(s.sizing, s.maxSize, start, true, mid, ok, s.At(), Varint(size), EncMessage(fields, m));
    }
  }

  // ----- Fields -----

  /** The values of a packed array, one after the other. */
  method EncodeItems(s: OStream, t: LType, xs: seq<Item>) returns (ok: bool)
    requires Packable(t) && s.Valid() && AllShaped(t, xs)
    modifies s
    ensures s.Valid()
    ensures AllGood(t, xs) ==>
      Wrote(ok, s.sizing, s.maxSize, old(s.At()), s.At(), EncItems(t, xs, 0))
    decreases t, 3
  {
    ghost var start := s.At();
    ghost var good := AllGood(t, xs);
    ghost var done: Bytes := [];
    WroteNothing(s.sizing, s.maxSize, start);
    var i := 0;
    while i < |xs|
      invariant i <= |xs| && s.Valid()
      invariant good ==> Wrote(true, s.sizing, s.maxSize, start, s.At(), done) && done + EncItems(t, xs, i) == EncItems(t, xs, 0)
    {
      ghost var rest := if good then EncItems(t, xs, i + 1) else [];
      ghost var total := if good then EncItems(t, xs, 0) else [];
      ok, done := EncodeNext(s, t, xs[i], good, start, done, rest, total);
      if !ok {
        return;
      }
      i := i + 1;
    }
    ok := true;
    assert good ==> done == EncItems(t, xs, 0);
  }

  /** One value more of a packed array. */
  method EncodeNext(s: OStream, t: LType, x: Item, ghost good: bool, ghost start: (nat, Bytes), ghost done: Bytes, ghost rest: Bytes, ghost total: Bytes)
    returns (ok: bool, ghost done': Bytes)
    requires Packable(t) && s.Valid() && ShapedItem(t, x)
    requires good ==> GoodItem(t, x) && Wrote(true, s.sizing, s.maxSize, start, s.At(), done) && done + (EncItem(t, x) + rest) == total
    modifies s
    ensures s.Valid()
    ensures good ==> Wrote(ok, s.sizing, s.maxSize, start, s.At(), done') && done' + rest == total
    ensures good && !ok ==> Wrote(false, s.sizing, s.maxSize, start, s.At(), total)
    decreases t, 2
  {
    ghost var mid := s.At();
    ok := EncodeItem(s, t, x);
    done' := done;
    if good {
      WroteMore(s.sizing, s.maxSize, start, mid, ok, s.At(), done, EncItem(t, x), rest, total);
      done' := done + EncItem(t, x);
    }
  }

  lemma {:induction false} FixedItems(t: LType, xs: seq<Item>, j: nat)
    requires (t.Fixed32_? || t.Fixed64_?) && j <= |xs| && AllGood(t, xs)
    ensures |EncItems(t, xs, j)| == (if t.Fixed32_? then 4 else 8) * (|xs| - j)
    decreases |xs| - j
  {
    if j < |xs| {
      FixedItems(t, xs, j + 1);
    }
  }

  /** The length of a packed array: known for fixed-size values, counted for the others. */
  method PackedSize(t: LType, xs: seq<Item>) returns (ok: bool, size: nat)
    requires Packable(t) && AllShaped(t, xs)
    ensures AllGood(t, xs) ==> ok && size == |EncItems(t, xs, 0)|
    decreases t, 4
  {
    ok := true;
    if t.Fixed32_? {
      size := 4 * |xs|;
    } else if t.Fixed64_? {
      size := 8 * |xs|;
    } else {
      var counter := new OStream(true, 0, []);
      ok := EncodeItems(counter, t, xs);
      size := counter.bytesWritten;
    }
    if (t.Fixed32_? || t.Fixed64_?) && AllGood(t, xs) {
      FixedItems(t, xs, 0);
    }
  }

  method EncodePacked(s: OStream, f: Field, xs: seq<Item>) returns (ok: bool)
    requires Packable(f.ltype) && s.Valid() && AllShaped(f.ltype, xs)
    modifies s
    ensures s.Valid()
    ensures AllGood(f.ltype, xs) ==>
      Wrote(ok, s.sizing, s.maxSize, old(s.At()), s.At(), EncPacked(f, xs))
    decreases f, 2
  {
    ghost var start := s.At();
    ghost var good := AllGood(f.ltype, xs);
    ok := s.EncodeTag(f.tag, WT_STRING);
    if !ok {
      return;
    }
    ghost var tagged := s.At();
    var size: nat;
    ok, size := PackedSize(f.ltype, xs);
    if !ok {
      return;
    }
    ok := s.EncodeVarint(size);
    if good {
      WroteBoth(s.sizing, s.maxSize, start, true, tagged, ok, s.At(), EncTag(f.tag, WT_STRING), Varint(size));
    }
    if !ok {
      return;
    }
    ghost var mid := s.At();
    if s.sizing {
      s.Count(size);
    } else {
      ok := EncodeItems(s, f.ltype, xs);
    }
    if good {
      var items := EncItems(f.ltype, xs, 0);
      WroteBoth(s.sizing, s.maxSize, start, true, mid, ok, s.At(), EncTag(f.tag, WT_STRING) + Varint(size), items);
      assert EncTag(f.tag, WT_STRING) + Varint(size) + items == EncTag(f.tag, WT_STRING) + (Varint(size) + items);
    }
  }

  method EncodeOne(s: OStream, f: Field, x: Item) returns (ok: bool)
    requires s.Valid() && ShapedItem(f.ltype, x)
    modifies s
    ensures s.Valid()
    ensures GoodItem(f.ltype, x) ==> Wrote(ok, s.sizing, s.maxSize, old(s.At()), s.At(), EncOne(f, x))
    decreases f, 0
  {
    ghost var start := s.At();
    ok := s.EncodeTag(f.tag, WireType(f.ltype));
    if ok {
      ghost var mid := s.At();
      ok := EncodeItem(s, f.ltype, x);
      if GoodItem(f.ltype, x) {
        WroteBoth(s.sizing, s.maxSize, start, true, mid, ok, s.At(), EncTag(f.tag, WireType(f.ltype)), EncItem(f.ltype, x));
      }
    }
  }

  method EncodeArray(s: OStream, f: Field, xs: seq<Item>) returns (ok: bool)
    requires f.htype.Repeated? && ShapedValues(f, xs) && s.Valid()
    modifies s
    ensures s.Valid()
    ensures |xs| > f.htype.max ==> !ok
    ensures GoodValues(f, xs) ==> Wrote(ok, s.sizing, s.maxSize, old(s.At()), s.At(), EncField(f, xs))
    decreases f, 3
  {
    WroteNothing(s.sizing, s.maxSize, s.At());
    if |xs| == 0 {
      return true;
    }
    if |xs| > f.htype.max {
      return false;
    }
    if Packable(f.ltype) {
      ok := EncodePacked(s, f, xs);
    } else {
      ghost var start := s.At();
      ghost var done: Bytes := [];
      WroteNothing(s.sizing, s.maxSize, start);
      var i := 0;
      while i < |xs|
        invariant i <= |xs| && s.Valid()
        invariant GoodValues(f, xs) ==>
            && Wrote(true, s.sizing, s.maxSize, start, s.At(), done)
            && done + EncOnes(f, xs, i) == EncOnes(f, xs, 0)
      {
        ghost var mid := s.At();
        ok := EncodeOne(s, f, xs[i]);
        if GoodValues(f, xs) {
          ghost var e := EncOne(f, xs[i]);
          WroteMore(s.sizing, s.maxSize, start, mid, ok, s.At(), done, e, EncOnes(f, xs, i + 1), EncOnes(f, xs, 0));
          done := done + e;
        }
        if !ok {
          return;
        }
        i := i + 1;
      }
      ok := true;
      assert GoodValues(f, xs) ==> done == EncOnes(f, xs, 0);
    }
  }

  lemma EncOnesOfOne(f: Field, xs: seq<Item>)
    requires |xs| == 1 && GoodItem(f.ltype, xs[0])
    ensures EncOnes(f, xs, 0) == EncOne(f, xs[0])
  {
    assert EncOnes(f, xs, 1) == [];
  }

  /** encode_basic_field. */
  method EncodeField(s: OStream, f: Field, xs: seq<Item>) returns (ok: bool)
    requires ShapedValues(f, xs) && s.Valid()
    modifies s
    ensures s.Valid()
    ensures GoodValues(f, xs) ==> Wrote(ok, s.sizing, s.maxSize, old(s.At()), s.At(), EncField(f, xs))
    decreases f, 4
  {
    WroteNothing(s.sizing, s.maxSize, s.At());
    ok := true;
    if f.htype.Repeated? {
      ok := EncodeArray(s, f, xs);
    } else {
      var present := xs != [];
      if f.htype.Singular? {
        var zero := CheckDefault(f.ltype, xs[0]);
        present := !zero;
      }
      if present {
        ok := EncodeOne(s, f, xs[0]);
        if GoodItem(f.ltype, xs[0]) {
          EncOnesOfOne(f, xs);
        }
      }
    }
  }

  /** pb_encode: with enough room it writes exactly the encoding, and a stream that only counts counts it. */
  method Encode(s: OStream, fields: seq<Field>, m: Message) returns (ok: bool)
    requires Shaped(fields, m) && s.Valid()
    modifies s
    ensures s.Valid()
    ensures GoodFields(fields, m) ==> Wrote(ok, s.sizing, s.maxSize, old(s.At()), s.At(), EncMessage(fields, m))
    decreases fields, 0
  {
    ghost var start := s.At();
    ghost var done: Bytes := [];
    WroteNothing(s.sizing, s.maxSize, start);
    var i := 0;
    while i < |fields|
      invariant i <= |fields| && s.Valid()
      invariant GoodFields(fields, m) ==>
          && Wrote(true, s.sizing, s.maxSize, start, s.At(), done)
          && done + EncFrom(fields, m, i) == EncMessage(fields, m)
    {
      ghost var mid := s.At();
      ok := EncodeField(s, fields[i], m[i]);
      if GoodFields(fields, m) {
        assert GoodValues(fields[i], m[i]);
        ghost var e := EncField(fields[i], m[i]);
        WroteMore(s.sizing, s.maxSize, start, mid, ok, s.At(), done, e, EncFrom(fields, m, i + 1), EncMessage(fields, m));
        done := done + e;
      }
      if !ok {
        return;
      }
      i := i + 1;
    }
    ok := true;
    assert GoodFields(fields, m) ==> done == EncMessage(fields, m);
  }

  /** pb_get_encoded_size. */
  method GetEncodedSize(fields: seq<Field>, m: Message) returns (ok: bool, size: nat)
    requires Shaped(fields, m)
    ensures GoodFields(fields, m) ==> ok && size == |EncMessage(fields, m)|
  {
    var counter := new OStream(true, 0, []);
    ok := Encode(counter, fields, m);
    size := counter.bytesWritten;
  }
}
