/** Input streams: numbers, tags, strings, substreams and skipping (nanopb pb_decode.c, first half). */
module NanopbStream {
  import opened InternalKeys
  import opened Coding
  import opened Nanopb

  /** The first n bytes of b are found at pos. */
  ghost predicate Matches(data: Bytes, pos: nat, b: Bytes, n: nat)
    requires pos + |b| <= |data| && n <= |b|
    decreases n
  {
    n == 0 || (data[pos + n - 1] == b[n - 1] && Matches(data, pos, b, n - 1))
  }

  ghost predicate At(data: Bytes, pos: nat, b: Bytes) {
    pos + |b| <= |data| && Matches(data, pos, b, |b|)
  }

  lemma {:induction false} MatchesSlice(data: Bytes, pos: nat, b: Bytes, n: nat)
    requires pos + |b| <= |data| && n <= |b|
    ensures Matches(data, pos, b, n) <==> forall k :: 0 <= k < n ==> data[pos + k] == b[k]
    decreases n
  {
    if n > 0 {
      MatchesSlice(data, pos, b, n - 1);
    }
  }

  lemma AtIsSlice(data: Bytes, pos: nat, b: Bytes)
    ensures At(data, pos, b) <==> pos + |b| <= |data| && data[pos..pos + |b|] == b
  {
    if pos + |b| <= |data| {
      MatchesSlice(data, pos, b, |b|);
      var s := data[pos..pos + |b|];
      assert forall k :: 0 <= k < |b| ==> s[k] == data[pos + k];
    }
  }

  lemma AtBoth(data: Bytes, pos: nat, a: Bytes, b: Bytes)
    ensures At(data, pos, a + b) <==> At(data, pos, a) && At(data, pos + |a|, b)
  {
    AtIsSlice(data, pos, a);
    AtIsSlice(data, pos + |a|, b);
    AtIsSlice(data, pos, a + b);
    if pos + |a + b| <= |data| {
      var s := data[pos..pos + |a + b|];
      assert s[..|a|] == data[pos..pos + |a|] && s[|a|..] == data[pos + |a|..pos + |a| + |b|];
      assert s == s[..|a|] + s[|a|..];
      assert (a + b)[..|a|] == a && (a + b)[|a|..] == b;
    }
  }

  lemma AtUnique(data: Bytes, pos: nat, a: Bytes, b: Bytes)
    requires At(data, pos, a) && At(data, pos, b) && |a| == |b|
    ensures a == b
  {
    AtIsSlice(data, pos, a);
    AtIsSlice(data, pos, b);
  }

  lemma AtSplit(data: Bytes, pos: nat, left: nat, total: Bytes, e: Bytes, rest: Bytes)
    requires total == e + rest && left == |total| && At(data, pos, total)
    ensures |e| <= left && At(data, pos, e)
    ensures left - |e| == |rest| && At(data, pos + |e|, rest)
  {
    AtBoth(data, pos, e, rest);
  }

  /** The first byte of a varint, and the varint that follows it. */
  lemma VarintByte(data: Bytes, pos: nat, v: nat)
    requires At(data, pos, Varint(v))
    ensures pos < |data|
    ensures v < 128 ==> data[pos] == v as byte && |Varint(v)| == 1
    ensures v >= 128 ==> data[pos] == (v % 128 + 128) as byte && |Varint(v)| == 1 + |Varint(v / 128)|
    ensures v >= 128 ==> At(data, pos + 1, Varint(v / 128))
  {
    AtIsSlice(data, pos, Varint(v));
    assert data[pos] == data[pos..pos + |Varint(v)|][0];
    if v >= 128 {
      AtBoth(data, pos, [(v % 128 + 128) as byte], Varint(v / 128));
    }
  }

  lemma {:induction false} ShiftGrows(a: nat, b: nat)
    requires a <= b
    ensures Pow128(a) <= Pow128(b)
  {
    if a < b {
      ShiftGrows(a, b - 1);
    }
  }

  lemma Shifts()
    ensures Pow128(1) == 128 && Pow128(4) == 0x1000_0000 && Pow128(5) == 0x8_0000_0000 && Pow128(10) > TWO_64
  {
    assert Pow128(4) == 128 * (128 * (128 * (128 * Pow128(0))));
    assert Pow128(10) == 128 * (128 * (128 * (128 * (128 * Pow128(5)))));
  }

  /** With the low groups of v in `result`, the rest of it is u, still to be read at pos; behind it
      the stream goes on at `end`. */
  ghost predicate Reading(data: Bytes, where: (int, int), v: nat, result: nat, groups: nat, u: nat, end: (int, int)) {
    && where.0 >= 0 && At(data, where.0, Varint(u)) && |Varint(u)| <= where.1
    && end == (where.0 + |Varint(u)|, where.1 - |Varint(u)|)
    && v == result + Pow128(groups) * u
    && (groups > 0 ==> u > 0)
  }

  lemma OneGroup(data: Bytes, where: (int, int), v: nat, result: nat, groups: nat, u: nat, end: (int, int), shift: nat, b: nat)
    requires Reading(data, where, v, result, groups, u, end) && shift == Pow128(groups)
    requires 0 <= where.0 < |data| ==> b == data[where.0] as nat
    ensures 0 <= where.0 < |data| && where.1 > 0
    ensures b < 128 ==> v == result + shift * b && end == (where.0 + 1, where.1 - 1)
    ensures b >= 128 ==> result + shift * (b - 128) <= v
    ensures b >= 128 ==> Reading(data, (where.0 + 1, where.1 - 1), v, result + shift * (b - 128), groups + 1, u / 128, end)
    ensures groups > 0 ==> shift <= v
  {
    VarintByte(data, where.0, u);
    if u >= 128 {
      Distributes(result, shift, u % 128, u / 128);
      assert u == u % 128 + 128 * (u / 128);
    }
    AtLeast(shift, u);
  }

  lemma AtLeast(m: nat, n: nat)
    ensures n > 0 ==> m * n >= m
  {
  }

  /** Where the groups of a number this small end. */
  lemma FewGroups(groups: nat, v: nat)
    requires Pow128(groups) <= v
    ensures v < TWO_32 ==> groups < 5
    ensures v < TWO_64 ==> groups < 10
  {
    Shifts();
    if groups >= 5 {
      ShiftGrows(5, groups);
    }
    if groups >= 10 {
      ShiftGrows(10, groups);
    }
  }

  lemma TopGroup(shift: nat, b: nat, r: nat, v: nat)
    requires shift == Pow128(4) && v == r + shift * b && v < TWO_32
    ensures b < 16
  {
    Shifts();
  }

  lemma FirstByte(data: Bytes, pos: nat, b: Bytes)
    requires At(data, pos, b) && |b| == 1
    ensures pos < |data| && b[0] == data[pos]
  {
    AtIsSlice(data, pos, b);
    assert data[pos..pos + 1][0] == data[pos];
  }

  /** The payload of a varint byte. */
  function Low(b: byte): nat {
    if b < 128 then b as nat else b as nat - 128
  }

  /** Adds one more byte to a 32-bit result: past 32 bits only the extension of a sign fits. */
  method AddGroup32(result: nat, bitpos: nat, shift: nat, b: byte) returns (ok: bool, r: nat)
    requires result < TWO_32
    ensures r < TWO_32
    ensures bitpos < 32 && result + shift * Low(b) < TWO_32 ==> ok && r == result + shift * Low(b)
  {
    ok, r := true, result;
    if bitpos >= 32 {
      var signExtension: byte := if bitpos < 63 then 0xFF else 0x01;
      ok := Low(b) == 0 || (result >= 0x8000_0000 && b == signExtension);
    } else {
      r := (result + shift * Low(b)) % TWO_32;
    }
  }

  method AddGroup64(result: nat, shift: nat, b: byte) returns (r: nat)
    ensures r < TWO_64
    ensures result + shift * Low(b) < TWO_64 ==> r == result + shift * Low(b)
  {
    r := (result + shift * Low(b)) % TWO_64;
  }

  class IStream {
    const data: Bytes
    var state: nat
    var bytesLeft: nat

    ghost predicate Valid()
      reads this
    {
      state + bytesLeft <= |data|
    }

    /** The end of what the stream may read. */
    ghost function End(): nat
      reads this
    {
      state + bytesLeft
    }

    ghost predicate Ahead(b: Bytes)
      reads this
    {
      |b| <= bytesLeft && At(data, state, b)
    }

    ghost function Where(): (int, int)
      reads this
    {
      (state, bytesLeft)
    }

    constructor (data: Bytes, state: nat, bytesLeft: nat)
      requires state + bytesLeft <= |data|
      ensures Valid() && this.data == data && this.state == state && this.bytesLeft == bytesLeft
    {
      this.data, this.state, this.bytesLeft := data, state, bytesLeft;
    }

    /** pb_read: all of the bytes, or none. */
    method Read(count: nat) returns (ok: bool, buf: Bytes)
      requires Valid()
      modifies this
      ensures Valid() && End() == old(End())
      ensures ok <==> count <= old(bytesLeft)
      ensures !ok ==> Where() == old(Where())
      ensures ok ==> At(data, old(state), buf) && |buf| == count && state == old(state) + count && bytesLeft == old(bytesLeft) - count
    {
      if bytesLeft < count {
        return false, [];
      }
      buf := data[state..state + count];
      AtIsSlice(data, state, buf);
      state, bytesLeft := state + count, bytesLeft - count;
      ok := true;
    }

    method ReadByte() returns (ok: bool, b: byte)
      requires Valid()
      modifies this
      ensures Valid() && End() == old(End())
      ensures ok <==> 0 < old(bytesLeft)
      ensures !ok ==> Where() == old(Where())
      ensures ok ==> b == data[old(state)] && state == old(state) + 1 && bytesLeft == old(bytesLeft) - 1
    {
      if bytesLeft == 0 {
        return false, 0;
      }
      b := data[state];
      state, bytesLeft := state + 1, bytesLeft - 1;
      ok := true;
    }

    /** pb_decode_varint32_eof: more than 32 bits are an overflow, unless they extend a sign. */
    method DecodeVarint32(ghost v: nat) returns (ok: bool, r: nat, eof: bool)
      requires Valid()
      modifies this
      ensures Valid() && End() == old(End()) && r < TWO_32
      ensures bytesLeft <= old(bytesLeft) && (ok ==> bytesLeft < old(bytesLeft))
      ensures eof ==> !ok
      ensures v < TWO_32 && old(Ahead(Varint(v))) ==>
        ok && r == v && state == old(state) + |Varint(v)| && bytesLeft == old(bytesLeft) - |Varint(v)|
    {
      r, eof := 0, false;
      ghost var good := v < TWO_32 && Ahead(Varint(v));
      ghost var start, end := Where(), (state + |Varint(v)|, bytesLeft - |Varint(v)|);
      var b: byte;
      ok, b := ReadByte();
      if !ok {
        eof := bytesLeft == 0;
        return;
      }
      if good {
        assert Reading(data, start, v, 0, 0, v, end);
        OneGroup(data, start, v, 0, 0, v, end, 1, b as nat);
      }
      if b < 128 {
        r := b as nat;
      } else {
        assert Pow128(1) == 128 * Pow128(0);
        ok, r := DecodeMultibyte32(b, v, good, end);
      }
    }

    /** The bytes after a first one with its top bit set. */
    method DecodeMultibyte32(first: byte, ghost v: nat, ghost good: bool, ghost end: (int, int)) returns (ok: bool, r: nat)
      requires Valid() && first >= 128
      requires good ==> v < TWO_32 && Reading(data, Where(), v, Low(first), 1, v / 128, end)
      modifies this
      ensures Valid() && End() == old(End()) && r < TWO_32 && bytesLeft <= old(bytesLeft)
      ensures good ==> ok && r == v && Where() == end
    {
      var b, bitpos, shift := first, 7, 128;
      r := Low(b);
      ghost var groups: nat, u: nat := 1, v / 128;
      while b >= 128
        invariant Valid() && End() == old(End()) && bytesLeft <= old(bytesLeft) && r < TWO_32
        invariant bitpos == 7 * groups && groups >= 1 && shift == Pow128(groups)
        invariant good && b >= 128 ==> Reading(data, Where(), v, r, groups, u, end)
        invariant good && b < 128 ==> r == v && Where() == end && (groups == 5 ==> b < 16)
        decreases bytesLeft, b
      {
        ghost var at := Where();
        ok, b := ReadByte();
        if good {
          OneGroup(data, at, v, r, groups, u, end, shift, b as nat);
          FewGroups(groups, v);
          if b < 128 && groups == 4 {
            TopGroup(shift, b as nat, r, v);
          }
        }
        if !ok {
          return;
        }
        ok, r := AddGroup32(r, bitpos, shift, b);
        if !ok {
          return;
        }
        groups, u := groups + 1, u / 128;
        bitpos, shift := bitpos + 7, 128 * shift;
      }
      ok := !(bitpos == 35 && b / 16 != 0);
    }

    /** pb_decode_varint: at most ten bytes. */
    method DecodeVarint(ghost v: nat) returns (ok: bool, r: nat)
      requires Valid()
      modifies this
      ensures Valid() && End() == old(End()) && r < TWO_64
      ensures bytesLeft <= old(bytesLeft) && (ok ==> bytesLeft < old(bytesLeft))
      ensures v < TWO_64 && old(Ahead(Varint(v))) ==>
        ok && r == v && state == old(state) + |Varint(v)| && bytesLeft == old(bytesLeft) - |Varint(v)|
    {
      ghost var good := v < TWO_64 && Ahead(Varint(v));
      ghost var end := (state + |Varint(v)|, bytesLeft - |Varint(v)|);
      var b: byte, bitpos, shift := 128, 0, 1;
      r := 0;
      ghost var groups: nat, u: nat := 0, v;
      while b >= 128
        invariant Valid() && End() == old(End()) && bytesLeft <= old(bytesLeft) && r < TWO_64
        invariant b < 128 ==> bytesLeft < old(bytesLeft)
        invariant bitpos == 7 * groups && shift == Pow128(groups)
        invariant good && b >= 128 ==> Reading(data, Where(), v, r, groups, u, end)
        invariant good && b < 128 ==> r == v && Where() == end
        decreases bytesLeft, b
      {
        ghost var at := Where();
        if good {
          OneGroup(data, at, v, r, groups, u, end, shift, if state < |data| then data[state] as nat else 0);
          if groups > 0 {
            FewGroups(groups, v);
          }
        }
        if bitpos >= 64 {
          return false, r;
        }
        ok, b := ReadByte();
        if !ok {
          return;
        }
        r := AddGroup64(r, shift, b);
        groups, u := groups + 1, u / 128;
        bitpos, shift := bitpos + 7, 128 * shift;
      }
      ok := true;
    }

    /** pb_decode_tag: a zero tag ends the message. */
    method DecodeTag(ghost expected: nat, ghost wire: nat) returns (ok: bool, wireType: nat, tag: nat, eof: bool)
      requires Valid()
      modifies this
      ensures Valid() && End() == old(End())
      ensures bytesLeft <= old(bytesLeft) && (ok ==> bytesLeft < old(bytesLeft))
      ensures 0 < expected < 0x2000_0000 && wire < 8 && old(Ahead(EncTag(expected, wire))) ==>
        ok && tag == expected && wireType == wire &&
        state == old(state) + |EncTag(expected, wire)| && bytesLeft == old(bytesLeft) - |EncTag(expected, wire)|
    {
      var temp: nat;
      ok, temp, eof := DecodeVarint32(expected * 8 + wire);
      wireType, tag := temp % 8, temp / 8;
      if ok && temp == 0 {
        ok, eof := false, true;
      }
    }

    // ----- Strings -----

    /** A substream over the bytes of a length-delimited value; this stream gives them up. */
    method MakeSubstream(ghost b: Bytes) returns (ok: bool, sub: IStream)
      requires Valid()
      modifies this
      ensures Valid() && bytesLeft <= old(bytesLeft) && fresh(sub)
      ensures ok ==> sub.Valid() && sub.data == data && End() + sub.bytesLeft <= old(End())
      ensures ok ==> sub.state == state && bytesLeft + sub.bytesLeft < old(bytesLeft)
      ensures !ok ==> End() <= old(End())
      ensures |b| < TWO_32 && old(Ahead(Prefixed(b))) ==>
        && ok && sub.bytesLeft == |b| && At(data, sub.state, b)
        && sub.End() == old(state) + |Prefixed(b)| && bytesLeft == old(bytesLeft) - |Prefixed(b)|
    {
      AtBoth(data, state, Varint(|b|), b);
      var size: nat, eof: bool;
      ok, size, eof := DecodeVarint32(|b|);
      if ok && size <= bytesLeft {
        sub := new IStream(data, state, size);
        bytesLeft := bytesLeft - size;
      } else {
        sub := new IStream(data, state, 0);
        ok := false;
      }
    }

    /** Reads what is left of the substream, and goes on behind it. */
    method CloseSubstream(sub: IStream)
      requires sub != this && sub.Valid() && sub.data == data && sub.End() + bytesLeft <= |data|
      modifies this, sub
      ensures Valid() && state == old(sub.End()) && bytesLeft == old(bytesLeft)
    {
      if sub.bytesLeft != 0 {
        var _, _ := sub.Read(sub.bytesLeft);
      }
      state := sub.state;
    }

    // ----- Skipping -----

    method SkipVarint(ghost v: nat) returns (ok: bool)
      requires Valid()
      modifies this
      ensures Valid() && End() == old(End()) && bytesLeft <= old(bytesLeft)
      ensures old(Ahead(Varint(v))) ==> ok && state == old(state) + |Varint(v)| && bytesLeft == old(bytesLeft) - |Varint(v)|
    {
      ghost var good := Ahead(Varint(v));
      ghost var end := Where();
      ghost var u: nat := v;
      var more := true;
      while more
        invariant Valid() && End() == old(End()) && bytesLeft <= old(bytesLeft)
        invariant good && more ==> At(data, state, Varint(u)) && |Varint(u)| <= bytesLeft
        invariant good && more ==> (state + |Varint(u)|, bytesLeft - |Varint(u)|) == (end.0 + |Varint(v)|, end.1 - |Varint(v)|)
        invariant good && !more ==> state == end.0 + |Varint(v)| && bytesLeft == end.1 - |Varint(v)|
        decreases bytesLeft, more
      {
        if good {
          VarintByte(data, state, u);
        }
        var b: Bytes;
        ok, b := Read(1);
        if !ok {
          return;
        }
        if good {
          FirstByte(data, state - 1, b);
        }
        more := b[0] >= 128;
        u := u / 128;
      }
      ok := true;
    }

    method SkipString(ghost b: Bytes) returns (ok: bool)
      requires Valid()
      modifies this
      ensures Valid() && End() == old(End()) && bytesLeft <= old(bytesLeft)
      ensures |b| < TWO_32 && old(Ahead(Prefixed(b))) ==>
        ok && state == old(state) + |Prefixed(b)| && bytesLeft == old(bytesLeft) - |Prefixed(b)|
    {
      AtBoth(data, state, Varint(|b|), b);
      var length: nat, eof: bool;
      ok, length, eof := DecodeVarint32(|b|);
      if ok {
        var buf: Bytes;
        ok, buf := Read(length);
      }
    }

    /** pb_skip_field: steps over exactly the value x of type t that was sent with this wire type. */
    method SkipField(wireType: nat, ghost t: LType, ghost x: Item) returns (ok: bool)
      requires Valid()
      modifies this
      ensures Valid() && End() == old(End()) && bytesLeft <= old(bytesLeft)
      ensures ok ==> wireType in {WT_VARINT, WT_64BIT, WT_STRING, WT_32BIT}
      ensures GoodItem(t, x) && |EncItem(t, x)| < TWO_32 && wireType == WireType(t) && old(Ahead(EncItem(t, x))) ==>
        ok && state == old(state) + |EncItem(t, x)| && bytesLeft == old(bytesLeft) - |EncItem(t, x)|
    {
      var buf: Bytes;
      if wireType == WT_VARINT {
        ok := SkipVarint(if Packable(t) && GoodItem(t, x) then Wire(t, x.n) else 0);
      } else if wireType == WT_64BIT {
        ok, buf := Read(8);
      } else if wireType == WT_STRING {
        ok := SkipString(if Packable(t) || !GoodItem(t, x) then [] else if t.Sub? then EncMessage(t.fields, x.values) else x.bytes);
      } else if wireType == WT_32BIT {
        ok, buf := Read(4);
      } else {
        ok := false;
      }
    }
  }
}
