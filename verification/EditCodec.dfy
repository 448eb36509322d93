/** The records of the manifest (db/version_edit.cc). */
module EditCodec {
  import opened InternalKeys
  import opened Coding
  import opened VersionSearch

  datatype FileMetaData = FileMetaData(number: nat, fileSize: nat, smallest: Bytes, largest: Bytes)

  /** What an edit says; a number that is None has its has_ flag unset. */
  datatype Fields = Fields(
    comparator: Option<Bytes>,
    logNumber: Option<nat>,
    prevLogNumber: Option<nat>,
    nextFileNumber: Option<nat>,
    lastSequence: Option<nat>,
    compactPointers: seq<(nat, Bytes)>,
    deletedFiles: set<(nat, nat)>,
    newFiles: seq<(nat, FileMetaData)>)

  /** One tagged entry of a record. */
  datatype Item =
    | Comparator(name: Bytes)
    | LogNumber(n: nat)
    | PrevLogNumber(n: nat)
    | NextFileNumber(n: nat)
    | LastSequence(n: nat)
    | CompactPointer(level: nat, key: Bytes)
    | DeletedFile(level: nat, n: nat)
    | NewFile(level: nat, file: FileMetaData)

  function Tag(i: Item): uint32 {
    match i
    case Comparator(_) => 1
    case LogNumber(_) => 2
    case NextFileNumber(_) => 3
    case LastSequence(_) => 4
    case CompactPointer(_, _) => 5
    case DeletedFile(_, _) => 6
    case NewFile(_, _) => 7
    case PrevLogNumber(_) => 9
  }

  /** The sizes of the C++ types. */
  predicate GoodItem(i: Item) {
    match i
    case Comparator(name) => Fits32(|name|)
    case CompactPointer(level, key) => level < NUM_LEVELS && Fits32(|key|)
    case DeletedFile(level, n) => level < NUM_LEVELS && n < TWO_64
    case NewFile(level, f) =>
      level < NUM_LEVELS && f.number < TWO_64 && f.fileSize < TWO_64 && Fits32(|f.smallest|) && Fits32(|f.largest|)
    case _ => i.n < TWO_64
  }

  /** The body of an entry, and what follows it. */
  function EncBody(i: Item, rest: Bytes): Bytes {
    match i
    case Comparator(name) => LengthPrefixed(name) + rest
    case CompactPointer(level, key) => Varint(level) + (LengthPrefixed(key) + rest)
    case DeletedFile(level, n) => Varint(level) + (Varint(n) + rest)
    case NewFile(level, f) => Varint(level) + EncFile(f, rest)
    case _ => Varint(i.n) + rest
  }

  function EncFile(f: FileMetaData, rest: Bytes): Bytes {
    Varint(f.number) + (Varint(f.fileSize) + (LengthPrefixed(f.smallest) + (LengthPrefixed(f.largest) + rest)))
  }

  /** Entries k and on. */
  function EncItems(items: seq<Item>, k: nat): Bytes
    requires k <= |items|
    decreases |items| - k
  {
    if k == |items| then [] else Varint(Tag(items[k]) as nat) + EncBody(items[k], EncItems(items, k + 1))
  }

  // ----- Reading one entry -----

  /** What is left after reading, or None. */
  datatype Read<T> = Bad | Got(value: T, rest: Bytes)

  function ReadVarint64(s: Bytes): (r: Read<nat>)
    ensures r.Got? ==> |r.rest| < |s|
  {
    match GetVarint64(s)
    case NoVarint => Bad
    case Parsed(v, n) => if n <= |s| then Got(v, s[n..]) else Bad
  }

  function ReadString(s: Bytes): (r: Read<Bytes>)
    ensures r.Got? ==> |r.rest| < |s|
  {
    match GetLengthPrefixed(s)
    case None => Bad
    case Some((v, rest)) => Got(v, rest)
  }

  /** GetLevel: levels past the last one are refused. */
  function ReadLevel(s: Bytes): (r: Read<nat>)
    ensures r.Got? ==> |r.rest| < |s|
  {
    match GetVarint32(s)
    case NoVarint => Bad
    case Parsed(v, n) => if v < NUM_LEVELS && n <= |s| then Got(v, s[n..]) else Bad
  }

  function ReadFile(level: nat, s: Bytes): (r: Read<Item>)
    ensures r.Got? ==> |r.rest| < |s|
  {
    match ReadVarint64(s)
    case Bad => Bad
    case Got(number, s1) =>
      match ReadVarint64(s1)
      case Bad => Bad
      case Got(size, s2) =>
        match ReadString(s2)
        case Bad => Bad
        case Got(smallest, s3) =>
          match ReadString(s3)
          case Bad => Bad
          case Got(largest, s4) => Got(NewFile(level, FileMetaData(number, size, smallest, largest)), s4)
  }

  function ReadNumber(tag: nat, s: Bytes): (r: Read<Item>)
    ensures r.Got? ==> |r.rest| < |s|
  {
    match ReadVarint64(s)
    case Bad => Bad
    case Got(n, rest) =>
      if tag == 2 then Got(LogNumber(n), rest)
      else if tag == 3 then Got(NextFileNumber(n), rest)
      else if tag == 4 then Got(LastSequence(n), rest)
      else Got(PrevLogNumber(n), rest)
  }

  /** The body of an entry with this tag; an unknown tag is an error. */
  function ReadBody(tag: nat, s: Bytes): (r: Read<Item>)
    ensures r.Got? ==> |r.rest| < |s|
  {
    if tag == 1 then
      (match ReadString(s) case Bad => Bad case Got(name, rest) => Got(Comparator(name), rest))
    else if tag == 2 || tag == 3 || tag == 4 || tag == 9 then ReadNumber(tag, s)
    else if tag == 5 || tag == 6 || tag == 7 then
      match ReadLevel(s)
      case Bad => Bad
      case Got(level, s1) =>
        if tag == 5 then
          (match ReadString(s1) case Bad => Bad case Got(key, rest) => Got(CompactPointer(level, key), rest))
        else if tag == 6 then
          (match ReadVarint64(s1) case Bad => Bad case Got(n, rest) => Got(DeletedFile(level, n), rest))
        else ReadFile(level, s1)
    else Bad
  }

  lemma VarintThen(v: nat, rest: Bytes, s: Bytes)
    requires v < TWO_64 && s == Varint(v) + rest
    ensures ReadVarint64(s) == Got(v, rest)
  {
    Varint64RoundTrip(v, rest);
    assert s[|Varint(v)|..] == rest;
  }

  lemma LevelThen(level: nat, rest: Bytes, s: Bytes)
    requires level < NUM_LEVELS && s == Varint(level) + rest
    ensures ReadLevel(s) == Got(level, rest)
  {
    Varint32RoundTrip(level as uint32, rest);
    assert s[|Varint(level)|..] == rest;
  }

  lemma StringThen(b: Bytes, rest: Bytes, s: Bytes)
    requires Fits32(|b|) && s == LengthPrefixed(b) + rest
    ensures ReadString(s) == Got(b, rest)
  {
    LengthPrefixedRoundTrip(b, rest);
  }

  lemma FileThen(level: nat, f: FileMetaData, rest: Bytes, s0: Bytes, s1: Bytes, s2: Bytes, s3: Bytes)
    requires GoodItem(NewFile(level, f))
    requires s3 == LengthPrefixed(f.largest) + rest && s2 == LengthPrefixed(f.smallest) + s3
    requires s1 == Varint(f.fileSize) + s2 && s0 == Varint(f.number) + s1
    ensures ReadFile(level, s0) == Got(NewFile(level, f), rest)
  {
    VarintThen(f.number, s1, s0);
    VarintThen(f.fileSize, s2, s1);
    StringThen(f.smallest, s3, s2);
    StringThen(f.largest, rest, s3);
  }

  lemma EncFileThen(level: nat, f: FileMetaData, rest: Bytes, s: Bytes)
    requires GoodItem(NewFile(level, f)) && s == EncFile(f, rest)
    ensures ReadFile(level, s) == Got(NewFile(level, f), rest)
  {
    var s3 := LengthPrefixed(f.largest) + rest;
    var s2 := LengthPrefixed(f.smallest) + s3;
    var s1 := Varint(f.fileSize) + s2;
    FileThen(level, f, rest, s, s1, s2, s3);
  }

  lemma NewFileThen(level: nat, s: Bytes, s1: Bytes)
    requires level < NUM_LEVELS && s == Varint(level) + s1
    ensures ReadBody(7, s) == ReadFile(level, s1)
  {
    LevelThen(level, s1, s);
    assert ReadLevel(s).Got? && ReadLevel(s).rest == s1;
  }

  lemma NameThen(name: Bytes, rest: Bytes, s: Bytes)
    requires Fits32(|name|) && s == LengthPrefixed(name) + rest
    ensures ReadBody(1, s) == Got(Comparator(name), rest)
  {
    StringThen(name, rest, s);
  }

  predicate IsNumber(i: Item) {
    i.LogNumber? || i.PrevLogNumber? || i.NextFileNumber? || i.LastSequence?
  }

  lemma NumberThen(i: Item, rest: Bytes, s: Bytes)
    requires IsNumber(i) && GoodItem(i) && s == Varint(i.n) + rest
    ensures ReadBody(Tag(i) as nat, s) == Got(i, rest)
  {
    VarintThen(i.n, rest, s);
  }

  lemma PointerThen(level: nat, key: Bytes, rest: Bytes, s: Bytes, s1: Bytes)
    requires level < NUM_LEVELS && Fits32(|key|) && s == Varint(level) + s1 && s1 == LengthPrefixed(key) + rest
    ensures ReadBody(5, s) == Got(CompactPointer(level, key), rest)
  {
    LevelThen(level, s1, s);
    StringThen(key, rest, s1);
  }

  lemma DeletedThen(level: nat, n: nat, rest: Bytes, s: Bytes, s1: Bytes)
    requires level < NUM_LEVELS && n < TWO_64 && s == Varint(level) + s1 && s1 == Varint(n) + rest
    ensures ReadBody(6, s) == Got(DeletedFile(level, n), rest)
  {
    LevelThen(level, s1, s);
    VarintThen(n, rest, s1);
  }

  /** An entry is read back, and what follows it is left. */
  lemma BodyRoundTrip(i: Item, rest: Bytes)
    requires GoodItem(i)
    ensures ReadBody(Tag(i) as nat, EncBody(i, rest)) == Got(i, rest)
  {
    var s := EncBody(i, rest);
    if IsNumber(i) {
      NumberThen(i, rest, s);
    } else {
      match i
      case Comparator(name) => NameThen(name, rest, s);
      case CompactPointer(level, key) => PointerThen(level, key, rest, s, LengthPrefixed(key) + rest);
      case DeletedFile(level, n) => DeletedThen(level, n, rest, s, Varint(n) + rest);
      case NewFile(level, f) =>
        EncFileThen(level, f, rest, EncFile(f, rest));
        NewFileThen(level, s, EncFile(f, rest));
    }
  }

  // ----- Records -----

  function Apply(f: Fields, i: Item): Fields {
    match i
    case Comparator(name) => f.(comparator := Some(name))
    case LogNumber(n) => f.(logNumber := Some(n))
    case PrevLogNumber(n) => f.(prevLogNumber := Some(n))
    case NextFileNumber(n) => f.(nextFileNumber := Some(n))
    case LastSequence(n) => f.(lastSequence := Some(n))
    case CompactPointer(level, key) => f.(compactPointers := f.compactPointers + [(level, key)])
    case DeletedFile(level, n) => f.(deletedFiles := f.deletedFiles + {(level, n)})
    case NewFile(level, file) => f.(newFiles := f.newFiles + [(level, file)])
  }

  function ApplyItems(f: Fields, items: seq<Item>, k: nat): Fields
    requires k <= |items|
    decreases |items| - k
  {
    if k == |items| then f else ApplyItems(Apply(f, items[k]), items, k + 1)
  }

  /** Whether a whole record was understood, and the edit it leaves. */
  function Replay(f: Fields, input: Bytes): (bool, Fields)
    decreases |input|
  {
    match GetVarint32(input)
    case NoVarint => (input == [], f)
    case Parsed(tag, n) =>
      if n > |input| then (false, f)
      else match ReadBody(tag, input[n..])
           case Bad => (false, f)
           case Got(i, rest) => Replay(Apply(f, i), rest)
  }

  lemma ReplayOne(f: Fields, i: Item, rest: Bytes, body: Bytes, input: Bytes)
    requires GoodItem(i) && body == EncBody(i, rest) && input == Varint(Tag(i) as nat) + body && |rest| < |input|
    ensures Replay(f, input) == Replay(Apply(f, i), rest)
  {
    Varint32RoundTrip(Tag(i), body);
    BodyRoundTrip(i, rest);
    assert input[|Varint(Tag(i) as nat)|..] == body;
  }

  lemma BodyIsLonger(i: Item, rest: Bytes)
    ensures |EncBody(i, rest)| >= |rest|
  {
  }

  lemma ReplayNothing(f: Fields)
    ensures Replay(f, []) == (true, f)
  {
    assert GetVarint32([]) == NoVarint;
  }

  lemma ReplayStep(f: Fields, i: Item, rest: Bytes, input: Bytes)
    requires GoodItem(i) && input == Varint(Tag(i) as nat) + EncBody(i, rest)
    ensures Replay(f, input) == Replay(Apply(f, i), rest)
  {
    BodyIsLonger(i, rest);
    ReplayOne(f, i, rest, EncBody(i, rest), input);
  }

  /** Replaying written entries applies them in turn. */
  lemma {:induction false} ReplayItems(f: Fields, items: seq<Item>, k: nat)
    requires k <= |items| && forall j :: 0 <= j < |items| ==> GoodItem(items[j])
    ensures Replay(f, EncItems(items, k)) == Replay(ApplyItems(f, items, k), [])
    decreases |items| - k
  {
    if k < |items| {
      ReplayStep(f, items[k], EncItems(items, k + 1), EncItems(items, k));
      ReplayItems(Apply(f, items[k]), items, k + 1);
    }
  }

  // ----- Edits -----

  function OptionItem(o: Option<nat>, i: Item): seq<Item> {
    if o.None? then [] else [i]
  }

  function NumberOf(o: Option<nat>): nat {
    if o.None? then 0 else o.value
  }

  function NameItem(o: Option<Bytes>): seq<Item> {
    if o.None? then [] else [Comparator(o.value)]
  }

  function Header(f: Fields): seq<Item> {
    NameItem(f.comparator)
    + OptionItem(f.logNumber, LogNumber(NumberOf(f.logNumber)))
    + OptionItem(f.prevLogNumber, PrevLogNumber(NumberOf(f.prevLogNumber)))
    + OptionItem(f.nextFileNumber, NextFileNumber(NumberOf(f.nextFileNumber)))
    + OptionItem(f.lastSequence, LastSequence(NumberOf(f.lastSequence)))
  }

  function PointerItems(ps: seq<(nat, Bytes)>): (r: seq<Item>)
    ensures |r| == |ps| && forall k :: 0 <= k < |ps| ==> r[k] == CompactPointer(ps[k].0, ps[k].1)
  {
    seq(|ps|, k requires 0 <= k < |ps| => CompactPointer(ps[k].0, ps[k].1))
  }

  function DeletedItems(ds: seq<(nat, nat)>): (r: seq<Item>)
    ensures |r| == |ds| && forall k :: 0 <= k < |ds| ==> r[k] == DeletedFile(ds[k].0, ds[k].1)
  {
    seq(|ds|, k requires 0 <= k < |ds| => DeletedFile(ds[k].0, ds[k].1))
  }

  function FileItems(fs: seq<(nat, FileMetaData)>): (r: seq<Item>)
    ensures |r| == |fs| && forall k :: 0 <= k < |fs| ==> r[k] == NewFile(fs[k].0, fs[k].1)
  {
    seq(|fs|, k requires 0 <= k < |fs| => NewFile(fs[k].0, fs[k].1))
  }

  /** The entries of an edit; `order` is the order of its deleted files. */
  function Items(f: Fields, order: seq<(nat, nat)>): seq<Item> {
    Header(f) + PointerItems(f.compactPointers) + DeletedItems(order) + FileItems(f.newFiles)
  }

  function SetOf(ds: seq<(nat, nat)>): set<(nat, nat)> {
    set d | d in ds
  }

  /** The order of pairs of a level and a number in a set of the source. */
  predicate PairLess(a: (nat, nat), b: (nat, nat)) {
    a.0 < b.0 || (a.0 == b.0 && a.1 < b.1)
  }

  /** The pairs of the set, in ascending order. */
  ghost predicate Lists(order: seq<(nat, nat)>, deleted: set<(nat, nat)>) {
    SetOf(order) == deleted && forall i, j :: 0 <= i < j < |order| ==> PairLess(order[i], order[j])
  }

  ghost predicate GoodFields(f: Fields) {
    && (f.comparator.Some? ==> Fits32(|f.comparator.value|))
    && NumberOf(f.logNumber) < TWO_64 && NumberOf(f.prevLogNumber) < TWO_64
    && NumberOf(f.nextFileNumber) < TWO_64 && NumberOf(f.lastSequence) < TWO_64
    && (forall p :: p in f.compactPointers ==> GoodItem(CompactPointer(p.0, p.1)))
    && (forall d :: d in f.deletedFiles ==> GoodItem(DeletedFile(d.0, d.1)))
    && (forall n :: n in f.newFiles ==> GoodItem(NewFile(n.0, n.1)))
  }

  lemma ItemsAreGood(f: Fields, order: seq<(nat, nat)>)
    requires GoodFields(f) && SetOf(order) == f.deletedFiles
    ensures forall j :: 0 <= j < |Items(f, order)| ==> GoodItem(Items(f, order)[j])
  {
    var h, p, d, n := Header(f), PointerItems(f.compactPointers), DeletedItems(order), FileItems(f.newFiles);
    forall i | i in h ensures GoodItem(i) {
    }
    forall j | 0 <= j < |p| ensures GoodItem(p[j]) {
      assert f.compactPointers[j] in f.compactPointers;
    }
    forall j | 0 <= j < |d| ensures GoodItem(d[j]) {
      assert order[j] in order;
    }
    forall j | 0 <= j < |n| ensures GoodItem(n[j]) {
      assert f.newFiles[j] in f.newFiles;
    }
  }

  lemma {:induction false} ApplySuffix(f: Fields, a: seq<Item>, b: seq<Item>, k: nat)
    requires k <= |b|
    ensures ApplyItems(f, a + b, |a| + k) == ApplyItems(f, b, k)
    decreases |b| - k
  {
    if k < |b| {
      assert (a + b)[|a| + k] == b[k] && |a| + k + 1 == |a| + (k + 1);
      ApplySuffix(Apply(f, b[k]), a, b, k + 1);
    }
  }

  lemma {:induction false} ApplyAppend(f: Fields, a: seq<Item>, b: seq<Item>, k: nat)
    requires k <= |a|
    ensures ApplyItems(f, a + b, k) == ApplyItems(ApplyItems(f, a, k), b, 0)
    decreases |a| - k
  {
    if k < |a| {
      assert (a + b)[k] == a[k];
      ApplyAppend(Apply(f, a[k]), a, b, k + 1);
    } else {
      ApplySuffix(f, a, b, 0);
    }
  }

  lemma ApplyThen(f: Fields, a: seq<Item>, b: seq<Item>, x: Fields, y: Fields)
    requires ApplyItems(f, a, 0) == x && ApplyItems(x, b, 0) == y
    ensures ApplyItems(f, a + b, 0) == y
  {
    ApplyAppend(f, a, b, 0);
  }

  lemma ApplyName(f: Fields, o: Option<Bytes>)
    requires f.comparator == None
    ensures ApplyItems(f, NameItem(o), 0) == f.(comparator := o)
  {
    if o.Some? {
      assert ApplyItems(Apply(f, Comparator(o.value)), NameItem(o), 1) == f.(comparator := o);
    }
  }

  lemma ApplyOption(f: Fields, o: Option<nat>, i: Item)
    ensures ApplyItems(f, OptionItem(o, i), 0) == if o.None? then f else Apply(f, i)
  {
    if o.Some? {
      assert ApplyItems(Apply(f, i), [i], 1) == Apply(f, i);
    }
  }

  lemma ApplyLogNumber(g: Fields, o: Option<nat>)
    requires g.logNumber == None
    ensures ApplyItems(g, OptionItem(o, LogNumber(NumberOf(o))), 0) == g.(logNumber := o)
  {
    ApplyOption(g, o, LogNumber(NumberOf(o)));
  }

  lemma ApplyPrevLogNumber(g: Fields, o: Option<nat>)
    requires g.prevLogNumber == None
    ensures ApplyItems(g, OptionItem(o, PrevLogNumber(NumberOf(o))), 0) == g.(prevLogNumber := o)
  {
    ApplyOption(g, o, PrevLogNumber(NumberOf(o)));
  }

  lemma ApplyNextFileNumber(g: Fields, o: Option<nat>)
    requires g.nextFileNumber == None
    ensures ApplyItems(g, OptionItem(o, NextFileNumber(NumberOf(o))), 0) == g.(nextFileNumber := o)
  {
    ApplyOption(g, o, NextFileNumber(NumberOf(o)));
  }

  lemma ApplyLastSequence(g: Fields, o: Option<nat>)
    requires g.lastSequence == None
    ensures ApplyItems(g, OptionItem(o, LastSequence(NumberOf(o))), 0) == g.(lastSequence := o)
  {
    ApplyOption(g, o, LastSequence(NumberOf(o)));
  }

  /** An edit without a has_ flag set. */
  function Cleared(f: Fields): Fields {
    Fields(None, None, None, None, None, f.compactPointers, {}, [])
  }

  lemma ApplyHeader(g: Fields, f: Fields)
    requires g == Cleared(g)
    ensures ApplyItems(g, Header(f), 0) == f.(compactPointers := g.compactPointers, deletedFiles := {}, newFiles := [])
  {
    var a := NameItem(f.comparator);
    var b := OptionItem(f.logNumber, LogNumber(NumberOf(f.logNumber)));
    var c := OptionItem(f.prevLogNumber, PrevLogNumber(NumberOf(f.prevLogNumber)));
    var d := OptionItem(f.nextFileNumber, NextFileNumber(NumberOf(f.nextFileNumber)));
    var e := OptionItem(f.lastSequence, LastSequence(NumberOf(f.lastSequence)));
    var g1 := g.(comparator := f.comparator);
    var g2 := g1.(logNumber := f.logNumber);
    var g3 := g2.(prevLogNumber := f.prevLogNumber);
    var g4 := g3.(nextFileNumber := f.nextFileNumber);
    var g5 := g4.(lastSequence := f.lastSequence);
    ApplyName(g, f.comparator);
    ApplyLogNumber(g1, f.logNumber);
    ApplyThen(g, a, b, g1, g2);
    ApplyPrevLogNumber(g2, f.prevLogNumber);
    ApplyThen(g, a + b, c, g2, g3);
    ApplyNextFileNumber(g3, f.nextFileNumber);
    ApplyThen(g, a + b + c, d, g3, g4);
    ApplyLastSequence(g4, f.lastSequence);
    ApplyThen(g, a + b + c + d, e, g4, g5);
  }

  lemma {:induction false} ApplyPointers(g: Fields, ps: seq<(nat, Bytes)>, k: nat)
    requires k <= |ps|
    ensures ApplyItems(g, PointerItems(ps), k) == g.(compactPointers := g.compactPointers + ps[k..])
    decreases |ps| - k
  {
    if k < |ps| {
      ApplyPointers(Apply(g, PointerItems(ps)[k]), ps, k + 1);
      assert g.compactPointers + ps[k..] == g.compactPointers + [(ps[k].0, ps[k].1)] + ps[k + 1..];
    } else {
      assert g.compactPointers + ps[k..] == g.compactPointers;
    }
  }

  lemma {:induction false} ApplyDeleted(g: Fields, ds: seq<(nat, nat)>, k: nat)
    requires k <= |ds|
    ensures ApplyItems(g, DeletedItems(ds), k) == g.(deletedFiles := g.deletedFiles + SetOf(ds[k..]))
    decreases |ds| - k
  {
    if k < |ds| {
      ApplyDeleted(Apply(g, DeletedItems(ds)[k]), ds, k + 1);
      assert ds[k..] == [ds[k]] + ds[k + 1..];
      assert g.deletedFiles + SetOf(ds[k..]) == g.deletedFiles + {(ds[k].0, ds[k].1)} + SetOf(ds[k + 1..]);
    } else {
      assert g.deletedFiles + SetOf(ds[k..]) == g.deletedFiles;
    }
  }

  lemma {:induction false} ApplyFiles(g: Fields, fs: seq<(nat, FileMetaData)>, k: nat)
    requires k <= |fs|
    ensures ApplyItems(g, FileItems(fs), k) == g.(newFiles := g.newFiles + fs[k..])
    decreases |fs| - k
  {
    if k < |fs| {
      ApplyFiles(Apply(g, FileItems(fs)[k]), fs, k + 1);
      assert g.newFiles + fs[k..] == g.newFiles + [(fs[k].0, fs[k].1)] + fs[k + 1..];
    } else {
      assert g.newFiles + fs[k..] == g.newFiles;
    }
  }

  /** Decoding what was encoded restores the edit, in whatever order the deleted files were written;
      compaction pointers already there are kept in front, since Clear does not remove them. */
  lemma EditRoundTrip(f: Fields, order: seq<(nat, nat)>, was: Fields)
    requires GoodFields(f) && SetOf(order) == f.deletedFiles
    ensures Replay(Cleared(was), EncItems(Items(f, order), 0))
      == (true, f.(compactPointers := was.compactPointers + f.compactPointers))
  {
    var g := Cleared(was);
    ItemsAreGood(f, order);
    ReplayItems(g, Items(f, order), 0);
    ApplyAll(f, order, g);
    ReplayNothing(f.(compactPointers := was.compactPointers + f.compactPointers));
  }

  lemma ApplyAll(f: Fields, order: seq<(nat, nat)>, g: Fields)
    requires SetOf(order) == f.deletedFiles && g == Cleared(g)
    ensures ApplyItems(g, Items(f, order), 0) == f.(compactPointers := g.compactPointers + f.compactPointers)
  {
    var h, p, d, n := Header(f), PointerItems(f.compactPointers), DeletedItems(order), FileItems(f.newFiles);
    var g1 := f.(compactPointers := g.compactPointers, deletedFiles := {}, newFiles := []);
    var g2 := g1.(compactPointers := g.compactPointers + f.compactPointers);
    var g3 := g2.(deletedFiles := f.deletedFiles);
    ApplyHeader(g, f);
    assert order[0..] == order && f.compactPointers[0..] == f.compactPointers && f.newFiles[0..] == f.newFiles;
    ApplyPointers(g1, f.compactPointers, 0);
    ApplyThen(g, h, p, g1, g2);
    ApplyDeleted(g2, order, 0);
    assert {} + SetOf(order) == f.deletedFiles;
    ApplyThen(g, h + p, d, g2, g3);
    ApplyFiles(g3, f.newFiles, 0);
    assert [] + f.newFiles == f.newFiles;
    ApplyThen(g, h + p + d, n, g3, g3.(newFiles := f.newFiles));
  }

  // ----- The object -----

  function EncOne(i: Item): Bytes {
    Varint(Tag(i) as nat) + EncBody(i, [])
  }

  lemma BodyThen(i: Item, rest: Bytes)
    ensures EncBody(i, []) + rest == EncBody(i, rest)
  {
    match i
    case Comparator(name) => NothingMore(LengthPrefixed(name));
    case CompactPointer(level, key) => TwoThen(Varint(level), LengthPrefixed(key), rest);
    case DeletedFile(level, n) => TwoThen(Varint(level), Varint(n), rest);
    case NewFile(level, f) =>
      FileBytesThen(f, rest);
      assert Varint(level) + EncFile(f, []) + rest == Varint(level) + (EncFile(f, []) + rest);
    case _ => NothingMore(Varint(i.n));
  }

  lemma TwoThen(a: Bytes, b: Bytes, rest: Bytes)
    ensures a + (b + []) + rest == a + (b + rest)
  {
  }

  lemma FileBytesThen(f: FileMetaData, rest: Bytes)
    ensures EncFile(f, []) + rest == EncFile(f, rest)
  {
    var a, b, c, d := Varint(f.number), Varint(f.fileSize), LengthPrefixed(f.smallest), LengthPrefixed(f.largest);
    assert a + (b + (c + (d + []))) + rest == a + (b + (c + (d + rest)));
  }

  /** Writing one more entry. */
  lemma {:induction false} EncSnoc(items: seq<Item>, i: Item, k: nat)
    requires k <= |items|
    ensures EncItems(items + [i], k) == EncItems(items, k) + EncOne(i)
    decreases |items| - k
  {
    if k < |items| {
      EncSnoc(items, i, k + 1);
      SnocStep(items[k], EncItems(items, k + 1), EncOne(i));
    } else {
      assert EncItems(items + [i], k + 1) == [];
      assert [] + EncOne(i) == EncOne(i);
    }
  }

  lemma SnocStep(i: Item, x: Bytes, y: Bytes)
    ensures Varint(Tag(i) as nat) + EncBody(i, x + y) == Varint(Tag(i) as nat) + EncBody(i, x) + y
  {
    BodyThen(i, x);
    BodyThen(i, x + y);
    var t, b := Varint(Tag(i) as nat), EncBody(i, []);
    assert t + (b + (x + y)) == t + (b + x) + y;
  }

  method PutLengthPrefixedSlice(dst: Bytes, b: Bytes) returns (r: Bytes)
    requires Fits32(|b|)
    ensures r == dst + LengthPrefixed(b)
  {
    var size := EncodeVarint32(|b| as uint32);
    r := dst + size + b;
    assert dst + (size + b) == dst + size + b;
  }

  method PutVarint(dst: Bytes, v: nat) returns (r: Bytes)
    requires v < TWO_64
    ensures r == dst + Varint(v)
  {
    var b := EncodeVarint64(v);
    r := dst + b;
  }

  /** Appending b to what is dst and a makes dst and c, where c is both of them. */
  lemma AppendMore(dst: Bytes, a: Bytes, b: Bytes, c: Bytes, was: Bytes, now: Bytes)
    requires was == dst + a && now == was + b && c == a + b
    ensures now == dst + c
  {
    assert dst + (a + b) == dst + a + b;
  }

  method PutPointer(dst: Bytes, level: nat, key: Bytes) returns (r: Bytes)
    requires GoodItem(CompactPointer(level, key))
    ensures r == dst + EncBody(CompactPointer(level, key), [])
  {
    var was := PutVarint(dst, level);
    r := PutLengthPrefixedSlice(was, key);
    assert LengthPrefixed(key) + [] == LengthPrefixed(key);
    AppendMore(dst, Varint(level), LengthPrefixed(key), EncBody(CompactPointer(level, key), []), was, r);
  }

  method PutDeleted(dst: Bytes, level: nat, n: nat) returns (r: Bytes)
    requires GoodItem(DeletedFile(level, n))
    ensures r == dst + EncBody(DeletedFile(level, n), [])
  {
    var was := PutVarint(dst, level);
    r := PutVarint(was, n);
    assert Varint(n) + [] == Varint(n);
    AppendMore(dst, Varint(level), Varint(n), EncBody(DeletedFile(level, n), []), was, r);
  }

  method PutFile(dst: Bytes, level: nat, f: FileMetaData) returns (r: Bytes)
    requires GoodItem(NewFile(level, f))
    ensures r == dst + EncBody(NewFile(level, f), [])
  {
    var v, a, b, c, d := Varint(level), Varint(f.number), Varint(f.fileSize), LengthPrefixed(f.smallest), LengthPrefixed(f.largest);
    var r1 := PutVarint(dst, level);
    var r2 := PutVarint(r1, f.number);
    AppendMore(dst, v, a, v + a, r1, r2);
    var r3 := PutVarint(r2, f.fileSize);
    AppendMore(dst, v + a, b, v + a + b, r2, r3);
    var r4 := PutLengthPrefixedSlice(r3, f.smallest);
    AppendMore(dst, v + a + b, c, v + a + b + c, r3, r4);
    r := PutLengthPrefixedSlice(r4, f.largest);
    Regroup(v, a, b, c, d);
    AppendMore(dst, v + a + b + c, d, EncBody(NewFile(level, f), []), r4, r);
  }

  lemma Regroup(v: Bytes, a: Bytes, b: Bytes, c: Bytes, d: Bytes)
    ensures v + a + b + c + d == v + (a + (b + (c + (d + []))))
  {
  }

  lemma NothingMore(b: Bytes)
    ensures b + [] == b
  {
  }

  method PutBody(dst: Bytes, i: Item) returns (r: Bytes)
    requires GoodItem(i)
    ensures r == dst + EncBody(i, [])
  {
    match i
    case Comparator(name) =>
      r := PutLengthPrefixedSlice(dst, name);
      NothingMore(LengthPrefixed(name));
    case CompactPointer(level, key) => r := PutPointer(dst, level, key);
    case DeletedFile(level, n) => r := PutDeleted(dst, level, n);
    case NewFile(level, f) => r := PutFile(dst, level, f);
    case _ =>
      r := PutVarint(dst, i.n);
      NothingMore(Varint(i.n));
  }

  /** Appends one tagged entry. */
  method PutItem(dst: Bytes, i: Item) returns (r: Bytes)
    requires GoodItem(i)
    ensures r == dst + EncOne(i)
  {
    var was := PutVarint(dst, Tag(i) as nat);
    r := PutBody(was, i);
    AppendMore(dst, Varint(Tag(i) as nat), EncBody(i, []), EncOne(i), was, r);
  }

  lemma TakeNext(before: seq<Item>, xs: seq<Item>, i: nat, done: seq<Item>, now: seq<Item>)
    requires i < |xs| && done == before + xs[..i] && now == done + [xs[i]]
    ensures now == before + xs[..i + 1]
  {
  }

  lemma TakeAll(before: seq<Item>, xs: seq<Item>)
    ensures before + xs[..0] == before && before + xs[..|xs|] == before + xs
  {
  }

  method LeastPair(s: set<(nat, nat)>) returns (m: (nat, nat))
    requires s != {}
    ensures m in s && forall d :: d in s && d != m ==> PairLess(m, d)
  {
    m :| m in s;
    var rest := s - {m};
    while rest != {}
      invariant m in s && rest <= s && forall d :: d in s && d !in rest && d != m ==> PairLess(m, d)
      decreases |rest|
    {
      var d :| d in rest;
      if PairLess(d, m) {
        m := d;
      }
      rest := rest - {d};
    }
  }

  lemma PairNext(order: seq<(nat, nat)>, d: (nat, nat), rest: set<(nat, nat)>, all: set<(nat, nat)>)
    requires Lists(order, all - rest) && d in rest && rest <= all && forall a :: a in order ==> PairLess(a, d)
    ensures Lists(order + [d], all - (rest - {d}))
  {
    assert SetOf(order + [d]) == SetOf(order) + {d};
  }

  /** What iterating over a set of pairs gives. */
  method InOrder(s: set<(nat, nat)>) returns (order: seq<(nat, nat)>)
    ensures Lists(order, s)
  {
    order := [];
    var rest := s;
    while rest != {}
      invariant rest <= s && Lists(order, s - rest)
      invariant forall a, d :: a in order && d in rest ==> PairLess(a, d)
      decreases |rest|
    {
      var d := LeastPair(rest);
      PairNext(order, d, rest, s);
      rest, order := rest - {d}, order + [d];
    }
  }

  class VersionEdit {
    var comparator: Option<Bytes>
    var logNumber: Option<nat>
    var prevLogNumber: Option<nat>
    var nextFileNumber: Option<nat>
    var lastSequence: Option<nat>
    var compactPointers: seq<(nat, Bytes)>
    var deletedFiles: set<(nat, nat)>
    var newFiles: seq<(nat, FileMetaData)>

    function State(): Fields
      reads this
    {
      Fields(comparator, logNumber, prevLogNumber, nextFileNumber, lastSequence, compactPointers, deletedFiles, newFiles)
    }

    constructor ()
      ensures State() == Fields(None, None, None, None, None, [], {}, [])
    {
      comparator, logNumber, prevLogNumber, nextFileNumber, lastSequence := None, None, None, None, None;
      compactPointers, deletedFiles, newFiles := [], {}, [];
    }

    /** Compaction pointers are not cleared. */
    method Clear()
      modifies this
      ensures State() == Cleared(old(State()))
    {
      comparator, logNumber, prevLogNumber, nextFileNumber, lastSequence := None, None, None, None, None;
      deletedFiles, newFiles := {}, [];
    }

    /** Appends the entries of the edit, with the deleted files in ascending order. */
    method EncodeTo(dst: Bytes) returns (r: Bytes, ghost order: seq<(nat, nat)>)
      requires GoodFields(State())
      ensures Lists(order, deletedFiles) && Written(dst, r, Items(State(), order))
      ensures Encodes(dst, r, State())
    {
      r := EncodeHeader(dst);
      ghost var header := Header(State());
      ghost var pointers := PointerItems(compactPointers);
      r := EncodePointers(dst, r, header);
      r, order := EncodeDeleted(dst, r, header + pointers);
      r := EncodeFiles(dst, r, header + pointers + DeletedItems(order));
    }

    method EncodeHeader(dst: Bytes) returns (r: Bytes)
      requires GoodFields(State())
      ensures Written(dst, r, Header(State()))
    {
      ghost var done: seq<Item> := [];
      NothingWritten(dst);
      r := dst;
      if comparator.Some? {
        r, done := PutNext(dst, r, Comparator(comparator.value), done);
      }
      r, done := PutOption(dst, r, logNumber, LogNumber(NumberOf(logNumber)), done);
      r, done := PutOption(dst, r, prevLogNumber, PrevLogNumber(NumberOf(prevLogNumber)), done);
      r, done := PutOption(dst, r, nextFileNumber, NextFileNumber(NumberOf(nextFileNumber)), done);
      r, done := PutOption(dst, r, lastSequence, LastSequence(NumberOf(lastSequence)), done);
      assert done == Header(State());
    }

    method EncodePointers(dst: Bytes, was: Bytes, ghost before: seq<Item>) returns (r: Bytes)
      requires GoodFields(State()) && Written(dst, was, before)
      ensures Written(dst, r, before + PointerItems(compactPointers))
    {
      r := was;
      ghost var items := PointerItems(compactPointers);
      ghost var done := before;
      TakeAll(before, items);
      var i := 0;
      while i < |compactPointers|
        invariant i <= |compactPointers| && done == before + items[..i] && Written(dst, r, done)
      {
        assert compactPointers[i] in compactPointers;
        ghost var now: seq<Item>;
        r, now := PutNext(dst, r, CompactPointer(compactPointers[i].0, compactPointers[i].1), done);
        TakeNext(before, items, i, done, now);
        done := now;
        i := i + 1;
      }
    }

    method EncodeDeleted(dst: Bytes, was: Bytes, ghost before: seq<Item>) returns (r: Bytes, ghost order: seq<(nat, nat)>)
      requires GoodFields(State()) && Written(dst, was, before)
      ensures Lists(order, deletedFiles) && Written(dst, r, before + DeletedItems(order))
    {
      r := was;
      var pairs := InOrder(deletedFiles);
      order := pairs;
      ghost var items := DeletedItems(order);
      ghost var done := before;
      TakeAll(before, items);
      var i := 0;
      while i < |pairs|
        invariant i <= |pairs| && done == before + items[..i] && Written(dst, r, done)
      {
        assert pairs[i] in SetOf(order);
        ghost var now: seq<Item>;
        r, now := PutNext(dst, r, DeletedFile(pairs[i].0, pairs[i].1), done);
        TakeNext(before, items, i, done, now);
        done := now;
        i := i + 1;
      }
    }

    method EncodeFiles(dst: Bytes, was: Bytes, ghost before: seq<Item>) returns (r: Bytes)
      requires GoodFields(State()) && Written(dst, was, before)
      ensures Written(dst, r, before + FileItems(newFiles))
    {
      r := was;
      ghost var items := FileItems(newFiles);
      ghost var done := before;
      TakeAll(before, items);
      var i := 0;
      while i < |newFiles|
        invariant i <= |newFiles| && done == before + items[..i] && Written(dst, r, done)
      {
        assert newFiles[i] in newFiles;
        ghost var now: seq<Item>;
        r, now := PutNext(dst, r, NewFile(newFiles[i].0, newFiles[i].1), done);
        TakeNext(before, items, i, done, now);
        done := now;
        i := i + 1;
      }
    }

    /** Reads a record into the edit; it fails when an entry or what follows the last one makes no sense. */
    method DecodeFrom(src: Bytes) returns (ok: bool)
      modifies this
      ensures (ok, State()) == Replay(Cleared(old(State())), src)
    {
      Clear();
      ok := true;
      var input, more := src, true;
      while ok && more
        invariant ok && more ==> Replay(State(), input) == Replay(Cleared(old(State())), src)
        invariant !(ok && more) ==> (ok, State()) == Replay(Cleared(old(State())), src)
        decreases ok && more, |input|
      {
        var p := GetVarint32(input);
        if p.NoVarint? {
          more := false;
          ok := input == [];
        } else if p.length > |input| {
          ok := false;
        } else {
          var body := ReadBody(p.value, input[p.length..]);
          if body.Bad? {
            ok := false;
          } else {
            Take(body.value);
            input := body.rest;
          }
        }
      }
    }

    method Take(i: Item)
      modifies this
      ensures State() == Apply(old(State()), i)
    {
      match i
      case Comparator(name) => comparator := Some(name);
      case LogNumber(n) => logNumber := Some(n);
      case PrevLogNumber(n) => prevLogNumber := Some(n);
      case NextFileNumber(n) => nextFileNumber := Some(n);
      case LastSequence(n) => lastSequence := Some(n);
      case CompactPointer(level, key) => compactPointers := compactPointers + [(level, key)];
      case DeletedFile(level, n) => deletedFiles := deletedFiles + {(level, n)};
      case NewFile(level, file) => newFiles := newFiles + [(level, file)];
    }
  }

  /** r is dst with these entries appended. */
  ghost predicate Written(dst: Bytes, r: Bytes, items: seq<Item>) {
    r == dst + EncItems(items, 0)
  }

  ghost predicate Encodes(dst: Bytes, r: Bytes, f: Fields) {
    exists order :: Lists(order, f.deletedFiles) && Written(dst, r, Items(f, order))
  }

  lemma NothingWritten(dst: Bytes)
    ensures Written(dst, dst, [])
  {
    assert dst + [] == dst;
  }

  method PutNext(dst: Bytes, was: Bytes, i: Item, ghost done: seq<Item>) returns (r: Bytes, ghost now: seq<Item>)
    requires GoodItem(i) && Written(dst, was, done)
    ensures now == done + [i] && Written(dst, r, now)
  {
    r := PutItem(was, i);
    now := done + [i];
    EncSnoc(done, i, 0);
    AppendMore(dst, EncItems(done, 0), EncOne(i), EncItems(now, 0), was, r);
  }

  method PutOption(dst: Bytes, was: Bytes, o: Option<nat>, i: Item, ghost done: seq<Item>) returns (r: Bytes, ghost now: seq<Item>)
    requires GoodItem(i) && Written(dst, was, done)
    ensures now == done + OptionItem(o, i) && Written(dst, r, now)
  {
    r, now := was, done;
    if o.Some? {
      r, now := PutNext(dst, was, i, done);
    }
  }

  // ----- Replaying a manifest -----

  /** The numbers a replay ends with: the latest record that sets each of them decides. */
  datatype Numbers = Numbers(logNumber: Option<nat>, prevLogNumber: Option<nat>, nextFile: Option<nat>, lastSequence: Option<nat>)

  function Later(a: Option<nat>, b: Option<nat>): Option<nat> {
    if b.Some? then b else a
  }

  function Updated(n: Numbers, f: Fields): Numbers {
    Numbers(Later(n.logNumber, f.logNumber), Later(n.prevLogNumber, f.prevLogNumber),
            Later(n.nextFile, f.nextFileNumber), Later(n.lastSequence, f.lastSequence))
  }

  function NumbersAfter(es: seq<Fields>, n: nat): Numbers
    requires n <= |es|
  {
    if n == 0 then Numbers(None, None, None, None) else Updated(NumbersAfter(es, n - 1), es[n - 1])
  }

  /** The record is the edit as EncodeTo writes it. */
  ghost predicate IsRecord(record: Bytes, f: Fields) {
    GoodFields(f) && exists order :: Lists(order, f.deletedFiles) && record == EncItems(Items(f, order), 0)
  }

  ghost predicate AreRecords(records: seq<Bytes>, es: seq<Fields>, name: Bytes) {
    |records| == |es| && forall k :: 0 <= k < |es| ==> IsRecord(records[k], es[k]) && SameComparator(es[k], name)
  }

  /** The first i edits have been read. */
  predicate ReadSoFar(edits: seq<Fields>, es: seq<Fields>, i: nat) {
    |edits| == i <= |es| && forall k :: 0 <= k < i ==> edits[k] == es[k]
  }

  lemma NoPointersInFront(f: Fields)
    ensures f.(compactPointers := [] + f.compactPointers) == f
  {
    assert [] + f.compactPointers == f.compactPointers;
  }

  lemma RecordRoundTrip(record: Bytes, f: Fields, fresh_: Fields)
    requires IsRecord(record, f) && fresh_ == Cleared(fresh_) && fresh_.compactPointers == []
    ensures Replay(Cleared(fresh_), record) == (true, f)
  {
    var order :| Lists(order, f.deletedFiles) && record == EncItems(Items(f, order), 0);
    EditRoundTrip(f, order, fresh_);
    NoPointersInFront(f);
  }

  /** An edit names no comparator but this one. */
  predicate SameComparator(f: Fields, name: Bytes) {
    f.comparator == None || f.comparator == Some(name)
  }

  /** Every new file of an edit is on a level there is. */
  ghost predicate LevelsFit(f: Fields) {
    forall n :: n in f.newFiles ==> n.0 < NUM_LEVELS
  }

  lemma ReadLevelFits(tag: nat, s: Bytes)
    ensures ReadBody(tag, s).Got? && ReadBody(tag, s).value.NewFile? ==> ReadBody(tag, s).value.level < NUM_LEVELS
  {
  }

  /** A record that names another level is refused before the file is added. */
  lemma {:induction false} ReplayLevelsFit(f: Fields, input: Bytes)
    requires LevelsFit(f)
    ensures LevelsFit(Replay(f, input).1)
    decreases |input|
  {
    var t := GetVarint32(input);
    if t.Parsed? && t.length <= |input| {
      var b := ReadBody(t.value, input[t.length..]);
      ReadLevelFits(t.value, input[t.length..]);
      if b.Got? {
        ReplayLevelsFit(Apply(f, b.value), b.rest);
      }
    }
  }

  /** i records have been read: their edits, and the numbers they set. */
  ghost predicate HaveRead(edits: seq<Fields>, n: Numbers, es: seq<Fields>, i: nat) {
    ReadSoFar(edits, es, i) && n == NumbersAfter(es, i)
  }

  lemma ReadOneMore(edits: seq<Fields>, n: Numbers, es: seq<Fields>, i: nat, f: Fields)
    requires HaveRead(edits, n, es, i) && i < |es| && f == es[i]
    ensures HaveRead(edits + [f], Updated(n, f), es, i + 1)
  {
  }

  lemma AllRead(edits: seq<Fields>, n: Numbers, es: seq<Fields>)
    requires HaveRead(edits, n, es, |es|)
    ensures edits == es
  {
  }

  predicate Complete(n: Numbers) {
    n.logNumber.Some? && n.nextFile.Some? && n.lastSequence.Some?
  }

  method ReadEdit(record: Bytes, name: Bytes, ghost good: bool, ghost f: Fields) returns (ok: bool, g: Fields)
    requires good ==> IsRecord(record, f) && SameComparator(f, name)
    ensures ok ==> SameComparator(g, name) && LevelsFit(g)
    ensures good ==> ok && g == f
  {
    var edit := new VersionEdit();
    if good {
      RecordRoundTrip(record, f, edit.State());
    }
    ReplayLevelsFit(Cleared(edit.State()), record);
    ok := edit.DecodeFrom(record);
    g := edit.State();
    ok := ok && SameComparator(g, name);
  }

  ghost predicate Acceptable(edits: seq<Fields>, name: Bytes) {
    forall k :: 0 <= k < |edits| ==> SameComparator(edits[k], name) && LevelsFit(edits[k])
  }

  /** The loop of VersionSet::Recover. From the records of edits it hands just these edits to the
      builder, in order, and finds the numbers of the latest ones; it fails for another comparator
      or when the log number, the next file number or the last sequence number was never set. */
  method Recover(records: seq<Bytes>, name: Bytes, ghost es: seq<Fields>) returns (ok: bool, edits: seq<Fields>, n: Numbers)
    ensures ok ==> Complete(n) && |edits| == |records| && Acceptable(edits, name)
    ensures AreRecords(records, es, name) ==> edits == es && n == NumbersAfter(es, |es|) && (ok <==> Complete(n))
  {
    ghost var good := AreRecords(records, es, name);
    ok, edits, n := true, [], Numbers(None, None, None, None);
    var i := 0;
    while i < |records| && ok
      invariant i <= |records|
      invariant ok ==> |edits| == i && Acceptable(edits, name)
      invariant good ==> ok && HaveRead(edits, n, es, i)
    {
      ok, edits, n := ReadNext(records, i, name, edits, n, good, es);
      i := i + 1;
    }
    if good {
      AllRead(edits, n, es);
    }
    ok := ok && Complete(n);
  }

  /** One turn of the loop. */
  method ReadNext(records: seq<Bytes>, i: nat, name: Bytes, edits: seq<Fields>, n: Numbers, ghost good: bool, ghost es: seq<Fields>)
    returns (ok: bool, edits': seq<Fields>, n': Numbers)
    requires i < |records| && Acceptable(edits, name)
    requires good ==> AreRecords(records, es, name) && HaveRead(edits, n, es, i)
    ensures ok ==> |edits'| == |edits| + 1 && Acceptable(edits', name)
    ensures good ==> ok && HaveRead(edits', n', es, i + 1)
  {
    ghost var expected := if good then es[i] else Fields(None, None, None, None, None, [], {}, []);
    var f: Fields;
    ok, f := ReadEdit(records[i], name, good, expected);
    edits', n' := if ok then edits + [f] else edits, Updated(n, f);
    if good {
      ReadOneMore(edits, n, es, i, f);
    }
  }
}
