/** The log: records cut into fragments that never cross a block boundary (db/log_format.h, db/log_writer.cc). */
module LogWriter {
  import opened InternalKeys
  import opened Coding

  const BLOCK_SIZE: nat := 32768
  const HEADER_SIZE: nat := 7

  const ZERO_TYPE: byte := 0
  const FULL_TYPE: byte := 1
  const FIRST_TYPE: byte := 2
  const MIDDLE_TYPE: byte := 3
  const LAST_TYPE: byte := 4

  datatype Fragment = Fragment(typ: byte, payload: Bytes)

  // ----- Layout -----

  function Zeros(n: nat): (r: Bytes)
    ensures |r| == n
  {
    seq(n, _ => 0)
  }

  /** Bytes left in the block of position p. */
  function Left(p: nat): nat {
    BLOCK_SIZE - p % BLOCK_SIZE
  }

  /** The trailer before a fragment written at position p. */
  function Pad(p: nat): nat {
    if Left(p) < HEADER_SIZE then Left(p) else 0
  }

  /** Payload bytes that fit after the header of a fragment written at position p. */
  function Avail(p: nat): nat {
    Left(p + Pad(p)) - HEADER_SIZE
  }

  lemma PadMeaning(p: nat)
    ensures Left(p + Pad(p)) >= HEADER_SIZE
    ensures Pad(p) > 0 ==> (p + Pad(p)) % BLOCK_SIZE == 0
  {
  }

  function Header(crc: Crc, f: Fragment): (r: Bytes)
    requires |f.payload| < 65536
    ensures |r| == HEADER_SIZE
  {
    Fixed32(Mask(crc([f.typ] + f.payload))) + [(|f.payload| % 256) as byte, (|f.payload| / 256) as byte, f.typ]
  }

  /** A fragment as the file holds it. */
  function Physical(crc: Crc, f: Fragment): (r: Bytes)
    requires |f.payload| < 65536
    ensures |r| == HEADER_SIZE + |f.payload|
  {
    Header(crc, f) + f.payload
  }

  predicate FitsAt(p: nat, f: Fragment) {
    Left(p + Pad(p)) >= HEADER_SIZE + |f.payload|
  }

  function After(p: nat, f: Fragment): nat {
    p + Pad(p) + HEADER_SIZE + |f.payload|
  }

  ghost predicate AllFit(p: nat, fs: seq<Fragment>)
    decreases |fs|
  {
    fs == [] || (FitsAt(p, fs[0]) && AllFit(After(p, fs[0]), fs[1..]))
  }

  /** The file bytes of consecutive fragments from position p on. */
  function Layout(crc: Crc, p: nat, fs: seq<Fragment>): Bytes
    requires AllFit(p, fs)
    decreases |fs|
  {
    if fs == [] then []
    else Zeros(Pad(p)) + Physical(crc, fs[0]) + Layout(crc, After(p, fs[0]), fs[1..])
  }

  function EndOf(p: nat, fs: seq<Fragment>): (r: nat)
    ensures r >= p
    decreases |fs|
  {
    if fs == [] then p else EndOf(After(p, fs[0]), fs[1..])
  }

  lemma {:induction false} LayoutLength(crc: Crc, p: nat, fs: seq<Fragment>)
    requires AllFit(p, fs)
    ensures p + |Layout(crc, p, fs)| == EndOf(p, fs)
    decreases |fs|
  {
    if fs != [] {
      LayoutLength(crc, After(p, fs[0]), fs[1..]);
    }
  }

  lemma LayoutCons(crc: Crc, p: nat, f: Fragment, fs: seq<Fragment>)
    requires FitsAt(p, f) && AllFit(After(p, f), fs)
    ensures AllFit(p, [f] + fs) && EndOf(p, [f] + fs) == EndOf(After(p, f), fs)
    ensures Layout(crc, p, [f] + fs) == Zeros(Pad(p)) + Physical(crc, f) + Layout(crc, After(p, f), fs)
  {
    assert ([f] + fs)[1..] == fs;
  }

  lemma Associates(a: Bytes, b: Bytes, c: Bytes)
    ensures (a + b) + c == a + (b + c)
  {
  }

  lemma {:induction false} LayoutAppend(crc: Crc, p: nat, fs: seq<Fragment>, gs: seq<Fragment>)
    requires AllFit(p, fs) && AllFit(EndOf(p, fs), gs)
    ensures AllFit(p, fs + gs) && EndOf(p, fs + gs) == EndOf(EndOf(p, fs), gs)
    ensures Layout(crc, p, fs + gs) == Layout(crc, p, fs) + Layout(crc, EndOf(p, fs), gs)
    decreases |fs|
  {
    if fs == [] {
      assert fs + gs == gs;
    } else {
      var f, rest := fs[0], fs[1..];
      LayoutAppend(crc, After(p, f), rest, gs);
      assert fs + gs == [f] + (rest + gs);
      LayoutCons(crc, p, f, rest + gs);
      Associates(Zeros(Pad(p)) + Physical(crc, f), Layout(crc, After(p, f), rest), Layout(crc, EndOf(p, fs), gs));
    }
  }

  // ----- Fragmentation -----

  function TypeOf(begin: bool, end: bool): byte {
    if begin && end then FULL_TYPE else if begin then FIRST_TYPE else if end then LAST_TYPE else MIDDLE_TYPE
  }

  function FirstLength(p: nat, data: Bytes): nat {
    if |data| < Avail(p) then |data| else Avail(p)
  }

  /** The fragment AddRecord emits next, with `data` left of the record. */
  function NextFragment(p: nat, data: Bytes, begin: bool): Fragment {
    var n := FirstLength(p, data);
    Fragment(TypeOf(begin, n == |data|), data[..n])
  }

  function Fragments(p: nat, data: Bytes, begin: bool): seq<Fragment>
    decreases |data|, Avail(p) == 0
  {
    var f := NextFragment(p, data, begin);
    if |f.payload| == |data| then [f]
    else
      FreshBlock(p, f);
      [f] + Fragments(After(p, f), data[|f.payload|..], false)
  }

  /** A fragment that fills its block is followed by one with room. */
  lemma FreshBlock(p: nat, f: Fragment)
    requires |f.payload| == Avail(p)
    ensures Avail(After(p, f)) == BLOCK_SIZE - HEADER_SIZE
  {
    PadMeaning(p);
    var s := p + Pad(p);
    assert After(p, f) == s + Left(s);
    assert (s + Left(s)) % BLOCK_SIZE == 0;
  }

  lemma {:induction false} FragmentsFit(p: nat, data: Bytes, begin: bool)
    ensures AllFit(p, Fragments(p, data, begin))
    decreases |data|, Avail(p) == 0
  {
    PadMeaning(p);
    var f := NextFragment(p, data, begin);
    if |f.payload| < |data| {
      FreshBlock(p, f);
      FragmentsFit(After(p, f), data[|f.payload|..], false);
      assert Fragments(p, data, begin)[1..] == Fragments(After(p, f), data[|f.payload|..], false);
    }
  }

  lemma RestStep(crc: Crc, p: nat, left: Bytes, begin: bool, f: Fragment)
    requires f == NextFragment(p, left, begin)
    ensures AllFit(p, Fragments(p, left, begin))
    ensures |f.payload| == |left| ==> Layout(crc, p, Fragments(p, left, begin)) == Zeros(Pad(p)) + Physical(crc, f)
    ensures |f.payload| < |left| ==>
      && AllFit(After(p, f), Fragments(After(p, f), left[|f.payload|..], false))
      && Layout(crc, p, Fragments(p, left, begin))
         == Zeros(Pad(p)) + Physical(crc, f) + Layout(crc, After(p, f), Fragments(After(p, f), left[|f.payload|..], false))
  {
    PadMeaning(p);
    FragmentsFit(p, left, begin);
    if |f.payload| == |left| {
      LayoutCons(crc, p, f, []);
      assert [f] + [] == [f];
    } else {
      FragmentsFit(After(p, f), left[|f.payload|..], false);
      LayoutCons(crc, p, f, Fragments(After(p, f), left[|f.payload|..], false));
    }
  }

  // ----- The writer -----

  class Writer {
    const crc: Crc
    /** The file. */
    var dest: Bytes
    var blockOffset: nat

    constructor (crc: Crc, dest: Bytes)
      ensures this.crc == crc && this.dest == dest && Valid()
    {
      this.crc, this.dest, blockOffset := crc, dest, |dest| % BLOCK_SIZE;
    }

    /** The offset in the current block; a block just filled counts as full, not as the next one. */
    ghost predicate Valid()
      reads this
    {
      blockOffset == |dest| % BLOCK_SIZE || (blockOffset == BLOCK_SIZE && |dest| % BLOCK_SIZE == 0)
    }

    /** Appends a record as fragments; an empty record still gets one. */
    method AddRecord(slice: Bytes)
      requires Valid()
      modifies this
      ensures Valid()
      ensures AllFit(|old(dest)|, Fragments(|old(dest)|, slice, true))
      ensures dest == old(dest) + Layout(crc, |old(dest)|, Fragments(|old(dest)|, slice, true))
    {
      ghost var all := old(dest) + Rest(slice, true);
      FragmentsFit(|dest|, slice, true);
      var left := slice;
      var begin := true;
      var more := true;
      while more
        invariant Valid()
        invariant if more then dest + Rest(left, begin) == all else dest == all
        decreases more, |left|, Avail(|dest|) == 0
      {
        left, more := AddFragment(left, begin);
        begin := false;
      }
    }

    /** What is still to be written. */
    ghost function Rest(left: Bytes, begin: bool): Bytes
      reads this
    {
      FragmentsFit(|dest|, left, begin);
      Layout(crc, |dest|, Fragments(|dest|, left, begin))
    }

    /** Fills the trailer when not even a header fits. */
    method SwitchBlock()
      requires Valid()
      modifies this
      ensures dest == old(dest) + Zeros(Pad(|old(dest)|))
      ensures BLOCK_SIZE - blockOffset == Left(|dest|) >= HEADER_SIZE
    {
      PadMeaning(|dest|);
      var leftover := BLOCK_SIZE - blockOffset;
      if leftover < HEADER_SIZE {
        dest := dest + Zeros(leftover);
        blockOffset := 0;
      }
    }

    /** One turn of the loop. */
    method AddFragment(left: Bytes, begin: bool) returns (left': Bytes, more: bool)
      requires Valid()
      modifies this
      ensures Valid()
      ensures old(dest + Rest(left, begin)) == if more then dest + Rest(left', false) else dest
      ensures more ==> |left'| < |left| || (|left'| == |left| && Avail(|old(dest)|) == 0 && Avail(|dest|) > 0)
    {
      ghost var p, was := |dest|, dest;
      SwitchBlock();
      var avail := BLOCK_SIZE - blockOffset - HEADER_SIZE;
      var n := if |left| < avail then |left| else avail;
      var end := |left| == n;
      var f := Fragment(TypeOf(begin, end), left[..n]);
      assert f == NextFragment(p, left, begin);
      EmitPhysicalRecord(f);
      Associates(was, Zeros(Pad(p)), Physical(crc, f));
      left', more := left[n..], |left| > n;
      RestStep(crc, p, left, begin, f);
      if more {
        FreshBlock(p, f);
        Associates(was, Zeros(Pad(p)) + Physical(crc, f), Rest(left', false));
      }
    }

    method EmitPhysicalRecord(f: Fragment)
      requires Valid() && blockOffset + HEADER_SIZE + |f.payload| <= BLOCK_SIZE
      modifies this
      ensures Valid() && dest == old(dest) + Physical(crc, f)
    {
      Associates(dest, Header(crc, f), f.payload);
      dest := dest + Header(crc, f);
      dest := dest + f.payload;
      blockOffset := blockOffset + HEADER_SIZE + |f.payload|;
    }
  }
}
