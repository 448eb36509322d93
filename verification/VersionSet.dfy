/** The version set and its manifest: the records written so far rebuild the installed version
    (db/version_set.cc: LogAndApply, WriteSnapshot, Recover). */
module VersionSets {
  import opened InternalKeys
  import opened Coding
  import opened VersionSearch
  import opened VersionBuilder
  import opened VersionEdits
  import opened Manifests
  import Records = EditCodec

  // ----- What a record says about files -----

  /** Internal keys as bytes, and the contents of each numbered table file. */
  datatype Directory = Directory(bytesOf: InternalKey -> Bytes, keyOf: Bytes -> InternalKey, tableOf: nat -> seq<Entry>)

  function Describe(d: Directory, f: File): Records.FileMetaData {
    Records.FileMetaData(f.number, f.size, d.bytesOf(f.smallest), d.bytesOf(f.largest))
  }

  function FileOf(d: Directory, m: Records.FileMetaData): File {
    File(m.number, m.fileSize, d.keyOf(m.smallest), d.keyOf(m.largest), d.tableOf(m.number))
  }

  /** The file's description fits a record and stands for the file. */
  predicate Describes(d: Directory, level: nat, f: File) {
    Records.GoodItem(Records.NewFile(level, Describe(d, f))) && FileOf(d, Describe(d, f)) == f
  }

  function FilesOf(d: Directory, ms: seq<(nat, Records.FileMetaData)>): (r: seq<(nat, File)>)
    ensures |r| == |ms| && forall k :: 0 <= k < |ms| ==> r[k] == (ms[k].0, FileOf(d, ms[k].1))
  {
    seq(|ms|, k requires 0 <= k < |ms| => (ms[k].0, FileOf(d, ms[k].1)))
  }

  function EditIn(d: Directory, f: Records.Fields): VersionEdit {
    VersionEdit(f.deletedFiles, FilesOf(d, f.newFiles))
  }

  function EditsIn(d: Directory, es: seq<Records.Fields>): (r: seq<VersionEdit>)
    ensures |r| == |es| && forall k :: 0 <= k < |es| ==> r[k] == EditIn(d, es[k])
  {
    seq(|es|, k requires 0 <= k < |es| => EditIn(d, es[k]))
  }

  lemma EditsInAppend(d: Directory, es: seq<Records.Fields>, f: Records.Fields)
    ensures EditsIn(d, es + [f]) == EditsIn(d, es) + [EditIn(d, f)]
  {
  }

  ghost predicate AllDescribed(d: Directory, v: Version) {
    forall level: nat, f :: OnLevel(v, level, f) ==> Describes(d, level, f)
  }

  ghost predicate OrderedLevels(v: Version) {
    forall level :: 0 <= level < NUM_LEVELS ==> Ordered(v[level])
  }

  // ----- The numbers of a record -----

  /** What LogAndApply adds to an edit. */
  function Completed(f: Records.Fields, logNumber: nat, prevLogNumber: nat, nextFile: nat, lastSequence: nat): Records.Fields {
    f.(logNumber := Some(if f.logNumber.Some? then f.logNumber.value else logNumber),
       prevLogNumber := Some(if f.prevLogNumber.Some? then f.prevLogNumber.value else prevLogNumber),
       nextFileNumber := Some(nextFile), lastSequence := Some(lastSequence))
  }

  function AllNumbers(f: Records.Fields): Records.Numbers {
    Records.Numbers(f.logNumber, f.prevLogNumber, f.nextFileNumber, f.lastSequence)
  }

  predicate SetsAll(f: Records.Fields) {
    f.logNumber.Some? && f.prevLogNumber.Some? && f.nextFileNumber.Some? && f.lastSequence.Some?
  }

  /** A record that sets all the numbers decides them. */
  lemma LastRecordDecides(es: seq<Records.Fields>, f: Records.Fields)
    requires SetsAll(f)
    ensures Records.NumbersAfter(es + [f], |es| + 1) == AllNumbers(f)
  {
    assert (es + [f])[|es|] == f;
  }

  lemma RecordAppend(records: seq<Bytes>, es: seq<Records.Fields>, name: Bytes, record: Bytes, f: Records.Fields)
    requires Records.AreRecords(records, es, name) && Records.IsRecord(record, f) && Records.SameComparator(f, name)
    ensures Records.AreRecords(records + [record], es + [f], name)
  {
  }

  // ----- Compaction pointers -----

  /** For each level the key up to which it was compacted last, or nothing. */
  type Pointers = ps: seq<Bytes> | |ps| == NUM_LEVELS witness [[], [], [], [], [], [], []]

  const NO_POINTERS: Pointers := [[], [], [], [], [], [], []]

  /** The pointers after the first n of an edit's have been set. */
  function Pointed(ps: Pointers, keys: seq<(nat, Bytes)>, n: nat): Pointers
    requires n <= |keys|
  {
    if n == 0 then ps else PointTo(Pointed(ps, keys, n - 1), keys[n - 1].0, keys[n - 1].1)
  }

  function PointTo(ps: Pointers, level: nat, key: Bytes): Pointers {
    if level < NUM_LEVELS then ps[level := key] else ps
  }

  function PointedBy(ps: Pointers, f: Records.Fields): Pointers {
    Pointed(ps, f.compactPointers, |f.compactPointers|)
  }

  /** The pointers that the first n records set. */
  function PointersAfter(es: seq<Records.Fields>, n: nat): Pointers
    requires n <= |es|
  {
    if n == 0 then NO_POINTERS else PointedBy(PointersAfter(es, n - 1), es[n - 1])
  }

  predicate Names(keys: seq<(nat, Bytes)>, n: nat, level: nat)
    requires n <= |keys|
  {
    exists i :: 0 <= i < n && keys[i].0 == level
  }

  /** A level that is named gets the same pointer whatever it had; another one keeps its own. */
  lemma {:induction false} PointedLevel(ps: Pointers, qs: Pointers, keys: seq<(nat, Bytes)>, n: nat, level: nat)
    requires n <= |keys| && level < NUM_LEVELS
    ensures Names(keys, n, level) ==> Pointed(ps, keys, n)[level] == Pointed(qs, keys, n)[level]
    ensures !Names(keys, n, level) ==> Pointed(ps, keys, n)[level] == ps[level]
  {
    if n > 0 {
      PointedLevel(ps, qs, keys, n - 1, level);
      assert Names(keys, n, level) <==> Names(keys, n - 1, level) || keys[n - 1].0 == level;
    }
  }

  lemma PointedTwice(ps: Pointers, f: Records.Fields)
    ensures PointedBy(PointedBy(ps, f), f) == PointedBy(ps, f)
  {
    var keys, qs := f.compactPointers, PointedBy(ps, f);
    forall level | 0 <= level < NUM_LEVELS ensures PointedBy(qs, f)[level] == qs[level] {
      PointedLevel(ps, qs, keys, |keys|, level);
      PointedLevel(qs, ps, keys, |keys|, level);
    }
  }

  lemma {:induction false} PointersPrefix(es: seq<Records.Fields>, f: Records.Fields, n: nat)
    requires n <= |es|
    ensures PointersAfter(es + [f], n) == PointersAfter(es, n)
  {
    if n > 0 {
      PointersPrefix(es, f, n - 1);
      assert (es + [f])[n - 1] == es[n - 1];
    }
  }

  lemma PointersAppend(es: seq<Records.Fields>, f: Records.Fields)
    ensures PointersAfter(es + [f], |es| + 1) == PointedBy(PointersAfter(es, |es|), f)
  {
    PointersPrefix(es, f, |es|);
    assert (es + [f])[|es|] == f;
  }

  lemma {:induction false} PointedPrefix(ps: Pointers, keys: seq<(nat, Bytes)>, more: seq<(nat, Bytes)>, n: nat)
    requires n <= |keys|
    ensures Pointed(ps, keys + more, n) == Pointed(ps, keys, n)
  {
    if n > 0 {
      PointedPrefix(ps, keys, more, n - 1);
      assert (keys + more)[n - 1] == keys[n - 1];
    }
  }

  predicate KeysFit(ps: Pointers) {
    forall level :: 0 <= level < NUM_LEVELS ==> Fits32(|ps[level]|)
  }

  predicate GoodPointers(keys: seq<(nat, Bytes)>) {
    forall p :: p in keys ==> Records.GoodItem(Records.CompactPointer(p.0, p.1))
  }

  lemma {:induction false} PointedFits(ps: Pointers, keys: seq<(nat, Bytes)>, n: nat)
    requires KeysFit(ps) && GoodPointers(keys) && n <= |keys|
    ensures KeysFit(Pointed(ps, keys, n))
  {
    if n > 0 {
      PointedFits(ps, keys, n - 1);
      assert keys[n - 1] in keys;
    }
  }

  /** The pointers that are set, level by level, as WriteSnapshot lists them. */
  method ListPointers(ps: Pointers) returns (keys: seq<(nat, Bytes)>)
    requires KeysFit(ps)
    ensures GoodPointers(keys) && Pointed(NO_POINTERS, keys, |keys|) == ps
  {
    keys := [];
    for level := 0 to NUM_LEVELS
      invariant GoodPointers(keys)
      invariant forall l :: 0 <= l < NUM_LEVELS ==> Pointed(NO_POINTERS, keys, |keys|)[l] == if l < level then ps[l] else []
    {
      if ps[level] != [] {
        PointedPrefix(NO_POINTERS, keys, [(level, ps[level])], |keys|);
        keys := keys + [(level, ps[level])];
      }
    }
  }

  // ----- The snapshot record -----

  ghost predicate GoodFiles(ms: seq<(nat, Records.FileMetaData)>) {
    forall n :: n in ms ==> Records.GoodItem(Records.NewFile(n.0, n.1))
  }

  /** The descriptions stand for the files. */
  ghost predicate Stand(d: Directory, ms: seq<(nat, Records.FileMetaData)>, files: seq<(nat, File)>) {
    GoodFiles(ms) && FilesOf(d, ms) == files
  }

  lemma StandAppend(d: Directory, ms: seq<(nat, Records.FileMetaData)>, files: seq<(nat, File)>, level: nat, f: File, more: seq<(nat, File)>)
    requires Stand(d, ms, files) && Describes(d, level, f) && more == files + [(level, f)]
    ensures Stand(d, ms + [(level, Describe(d, f))], more)
  {
  }

  lemma TakeLevel(before: seq<(nat, File)>, fs: seq<File>, level: nat, i: nat)
    requires i < |fs|
    ensures before + AddLevel(fs, level)[..i + 1] == (before + AddLevel(fs, level)[..i]) + [(level, fs[i])]
  {
  }

  method DescribeLevel(d: Directory, fs: seq<File>, level: nat, ms: seq<(nat, Records.FileMetaData)>, ghost before: seq<(nat, File)>)
    returns (r: seq<(nat, Records.FileMetaData)>)
    requires Stand(d, ms, before) && forall f :: f in fs ==> Describes(d, level, f)
    ensures Stand(d, r, before + AddLevel(fs, level))
  {
    r := ms;
    assert before + AddLevel(fs, level)[..0] == before;
    for i := 0 to |fs|
      invariant Stand(d, r, before + AddLevel(fs, level)[..i])
    {
      TakeLevel(before, fs, level, i);
      StandAppend(d, r, before + AddLevel(fs, level)[..i], level, fs[i], before + AddLevel(fs, level)[..i + 1]);
      r := r + [(level, Describe(d, fs[i]))];
    }
    assert AddLevel(fs, level)[..|fs|] == AddLevel(fs, level);
  }

  /** The files of a version, level by level. */
  method DescribeVersion(d: Directory, v: Version) returns (r: seq<(nat, Records.FileMetaData)>)
    requires AllDescribed(d, v)
    ensures Stand(d, r, SnapshotEdit(v).added)
  {
    r := [];
    for level := 0 to NUM_LEVELS
      invariant Stand(d, r, AddLevels(v, level))
    {
      assert forall f :: f in v[level] ==> OnLevel(v, level, f);
      r := DescribeLevel(d, v[level], level, r, AddLevels(v, level));
    }
  }

  /** The record of an edit without anything before it. */
  method EncodeRecord(edit: Records.VersionEdit) returns (record: Bytes)
    requires Records.GoodFields(edit.State())
    ensures Records.IsRecord(record, edit.State())
  {
    ghost var order;
    record, order := edit.EncodeTo([]);
    assert [] + Records.EncItems(Records.Items(edit.State(), order), 0) == Records.EncItems(Records.Items(edit.State(), order), 0);
  }

  ghost predicate SnapshotIn(d: Directory, name: Bytes, v: Version, ps: Pointers, record: Bytes, f: Records.Fields) {
    Records.IsRecord(record, f) && Records.SameComparator(f, name) && EditIn(d, f) == SnapshotEdit(v) && PointedBy(NO_POINTERS, f) == ps
  }

  /** The record adds exactly the files of the version, and sets exactly the pointers. */
  ghost predicate IsSnapshotRecord(d: Directory, name: Bytes, v: Version, ps: Pointers, record: Bytes) {
    exists f :: SnapshotIn(d, name, v, ps, record, f)
  }

  method SnapshotRecord(d: Directory, name: Bytes, v: Version, ps: Pointers) returns (record: Bytes, ghost f: Records.Fields)
    requires AllDescribed(d, v) && Fits32(|name|) && KeysFit(ps)
    ensures SnapshotIn(d, name, v, ps, record, f)
    ensures IsSnapshotRecord(d, name, v, ps, record)
  {
    var pointers := ListPointers(ps);
    var files := DescribeVersion(d, v);
    var edit := new Records.VersionEdit();
    edit.comparator, edit.compactPointers, edit.newFiles := Some(name), pointers, files;
    f := edit.State();
    record := EncodeRecord(edit);
    assert SnapshotIn(d, name, v, ps, record, f);
  }

  // ----- Saving -----

  /** Builder::Apply for every edit, and one SaveTo. */
  method SaveAll(base: Version, d: Directory, es: seq<Records.Fields>) returns (v: Version)
    requires forall level :: 0 <= level < NUM_LEVELS ==> base[level] == []
    requires forall k :: 0 <= k < |es| ==> Records.LevelsFit(es[k])
    ensures forall level :: 0 <= level < NUM_LEVELS ==>
      v[level] == SaveLevel([], ApplyAll(LevelState({}, []), EditsIn(d, es), |es|, level))
  {
    var builder := new Builder(base);
    for k := 0 to |es|
      invariant builder.Valid() && fresh(builder.levels) && builder.base == base
      invariant forall level :: 0 <= level < NUM_LEVELS ==> builder.levels[level] == ApplyAll(LevelState({}, []), EditsIn(d, es), k, level)
    {
      assert forall n :: n in es[k].newFiles ==> n.0 < NUM_LEVELS;
      builder.Apply(EditIn(d, es[k]));
    }
    v := builder.SaveTo();
  }

  lemma SavedIs(edits: seq<VersionEdit>, v: Version, r: Version)
    requires Rebuilds(edits, v)
    requires forall level :: 0 <= level < NUM_LEVELS ==> r[level] == SaveLevel([], ApplyAll(LevelState({}, []), edits, |edits|, level))
    ensures r == v
  {
    forall level | 0 <= level < NUM_LEVELS ensures r[level] == v[level] {
      SavedOnce(edits, v, level);
    }
    assert |r| == |v| && forall level :: 0 <= level < |r| ==> r[level] == v[level];
  }

  lemma EmptyIsGood(d: Directory, v: Version)
    requires forall level :: 0 <= level < NUM_LEVELS ==> v[level] == []
    ensures OrderedLevels(v) && UniqueNumbers(v) && AllDescribed(d, v)
  {
  }

  /** The records es make version v and the numbers n. */
  ghost predicate Makes(d: Directory, es: seq<Records.Fields>, v: Version, n: Records.Numbers) {
    Grown(EditsIn(d, es), v) && n == Records.NumbersAfter(es, |es|)
  }

  ghost predicate GoodSet(name: Bytes, d: Directory, v: Version) {
    Fits32(|name|) && OrderedLevels(v) && UniqueNumbers(v) && AllDescribed(d, v)
  }

  /** The records make the version, and the last of them sets the log numbers and the rest. */
  ghost predicate GoodManifest(name: Bytes, d: Directory, v: Version, records: seq<Bytes>, es: seq<Records.Fields>,
                               logNumber: nat, prevLogNumber: nat) {
    && Records.AreRecords(records, es, name) && |es| > 0 && SetsAll(es[|es| - 1])
    && Makes(d, es, v, AllNumbers(es[|es| - 1]))
    && es[|es| - 1].logNumber == Some(logNumber) && es[|es| - 1].prevLogNumber == Some(prevLogNumber)
  }

  lemma ManifestExtended(name: Bytes, d: Directory, records: seq<Bytes>, es: seq<Records.Fields>, record: Bytes, f: Records.Fields,
                         v: Version, logNumber: nat, prevLogNumber: nat)
    requires Records.AreRecords(records, es, name) && Records.IsRecord(record, f) && Records.SameComparator(f, name)
    requires SetsAll(f) && f.logNumber == Some(logNumber) && f.prevLogNumber == Some(prevLogNumber)
    requires Grown(EditsIn(d, es) + [EditIn(d, f)], v)
    ensures GoodManifest(name, d, v, records + [record], es + [f], logNumber, prevLogNumber)
  {
    RecordAppend(records, es, name, record, f);
    EditsInAppend(d, es, f);
    LastRecordDecides(es, f);
  }

  lemma ManifestGives(name: Bytes, d: Directory, v: Version, records: seq<Bytes>, es: seq<Records.Fields>, logNumber: nat, prevLogNumber: nat)
    requires GoodManifest(name, d, v, records, es, logNumber, prevLogNumber)
    ensures Records.AreRecords(records, es, name) && Grown(EditsIn(d, es), v)
    ensures Records.NumbersAfter(es, |es|) == AllNumbers(es[|es| - 1]) && Records.Complete(Records.NumbersAfter(es, |es|))
  {
  }

  lemma DropLast(records: seq<Bytes>, record: Bytes)
    ensures (records + [record])[..|records + [record]| - 1] == records
  {
  }

  /** An open manifest holds records that make the version, the log numbers, and the pointers. */
  ghost predicate Stands(name: Bytes, d: Directory, v: Version, manifest: Option<seq<Bytes>>, es: seq<Records.Fields>,
                         logNumber: nat, prevLogNumber: nat, ps: Pointers) {
    && GoodSet(name, d, v) && KeysFit(ps)
    && (manifest.Some? ==> GoodManifest(name, d, v, manifest.value, es, logNumber, prevLogNumber) && ps == PointersAfter(es, |es|))
  }

  class VersionSet {
    const name: Bytes
    const dir: Directory
    var current: Version
    var nextFileNumber: nat
    var manifestFileNumber: nat
    var lastSequence: nat
    var logNumber: nat
    var prevLogNumber: nat
    var compactPointers: Pointers
    /** The records of the manifest that is open for appending, if there is one. */
    var manifest: Option<seq<Bytes>>
    ghost var edits: seq<Records.Fields>

    constructor (name: Bytes, dir: Directory)
      requires Fits32(|name|)
      ensures this.name == name && this.dir == dir && Valid() && manifest == None
      ensures compactPointers == NO_POINTERS && forall level :: 0 <= level < NUM_LEVELS ==> current[level] == []
    {
      this.name, this.dir := name, dir;
      current := [[], [], [], [], [], [], []];
      nextFileNumber, manifestFileNumber, lastSequence, logNumber, prevLogNumber := 2, 0, 0, 0, 0;
      compactPointers, manifest, edits := NO_POINTERS, None, [];
      new;
      EmptyIsGood(dir, current);
    }

    ghost predicate Valid()
      reads this
    {
      Stands(name, dir, current, manifest, edits, logNumber, prevLogNumber, compactPointers)
    }

    /** The edits that lead to the current version, the snapshot included that a new manifest starts with. */
    ghost function History(): seq<VersionEdit>
      reads this
    {
      if manifest.Some? then EditsIn(dir, edits) else [SnapshotEdit(current)]
    }

    /** The edit is complete, writes its record, and makes the next version; the first one opens a
        new manifest with a snapshot in front. */
    method LogAndApply(edit: Records.VersionEdit)
      requires Valid() && Records.GoodFields(edit.State()) && Records.SameComparator(edit.State(), name)
      requires logNumber < TWO_64 && prevLogNumber < TWO_64 && nextFileNumber < TWO_64 && lastSequence < TWO_64
      requires edit.logNumber.Some? ==> logNumber <= edit.logNumber.value < nextFileNumber
      requires Allowed(History(), current, EditIn(dir, edit.State()))
      requires forall level, f :: (level, f) in EditIn(dir, edit.State()).added ==> Describes(dir, level, f)
      modifies this, edit
      ensures Valid() && manifest.Some?
      ensures edit.State() == Completed(old(edit.State()), old(logNumber), old(prevLogNumber), nextFileNumber, lastSequence)
      ensures Edited(old(current), EditIn(dir, old(edit.State())), current)
      ensures compactPointers == PointedBy(old(compactPointers), old(edit.State()))
      ensures edits == (if old(manifest).Some? then old(edits) else edits[..1]) + [edit.State()]
      ensures old(manifest).Some? ==> old(manifest).value == manifest.value[..|manifest.value| - 1]
      ensures old(manifest).None? ==> |manifest.value| == 2 && |edits| == 2 && EditIn(dir, edits[0]) == SnapshotEdit(old(current))
      ensures Some(logNumber) == edit.logNumber && Some(prevLogNumber) == edit.prevLogNumber
      ensures nextFileNumber == old(nextFileNumber) && lastSequence == old(lastSequence)
    {
      var v := Prepare(edit);
      AppendRecord(edit, v);
    }

    /** The edit is complete, the version it makes is built, and its pointers are set. */
    method Prepare(edit: Records.VersionEdit) returns (v: Version)
      requires Valid() && Records.GoodFields(edit.State()) && Records.SameComparator(edit.State(), name)
      requires logNumber < TWO_64 && prevLogNumber < TWO_64 && nextFileNumber < TWO_64 && lastSequence < TWO_64
      requires Allowed(History(), current, EditIn(dir, edit.State()))
      requires forall level, f :: (level, f) in EditIn(dir, edit.State()).added ==> Describes(dir, level, f)
      modifies this`compactPointers, edit
      ensures edit.State() == Completed(old(edit.State()), logNumber, prevLogNumber, nextFileNumber, lastSequence)
      ensures Records.GoodFields(edit.State())
      ensures Edited(current, EditIn(dir, old(edit.State())), v) && GoodSet(name, dir, v)
      ensures Grown(History() + [EditIn(dir, edit.State())], v)
      ensures compactPointers == PointedBy(old(compactPointers), old(edit.State())) && KeysFit(compactPointers)
      ensures compactPointers == PointedBy(if manifest.Some? then PointersAfter(edits, |edits|) else compactPointers, edit.State())
    {
      CompleteEdit(edit);
      HistoryGrows();
      var e := EditIn(dir, edit.State());
      v := NextVersion(e);
      NextIsGood(name, dir, History(), current, e, v);
      PointedTwice(compactPointers, edit.State());
      SetPointers(edit.compactPointers);
    }

    /** Builder::Apply's part for the pointers. */
    method SetPointers(keys: seq<(nat, Bytes)>)
      modifies this`compactPointers
      ensures compactPointers == Pointed(old(compactPointers), keys, |keys|)
      ensures old(KeysFit(compactPointers)) && GoodPointers(keys) ==> KeysFit(compactPointers)
    {
      for i := 0 to |keys|
        invariant compactPointers == Pointed(old(compactPointers), keys, i)
      {
        compactPointers := PointTo(compactPointers, keys[i].0, keys[i].1);
      }
      if KeysFit(old(compactPointers)) && GoodPointers(keys) {
        PointedFits(old(compactPointers), keys, |keys|);
      }
    }

    /** Writes the completed edit to the manifest, and installs the version it makes. */
    method AppendRecord(edit: Records.VersionEdit, v: Version)
      requires Fits32(|name|) && AllDescribed(dir, current) && (manifest.Some? ==> Records.AreRecords(manifest.value, edits, name))
      requires Records.GoodFields(edit.State()) && Records.SameComparator(edit.State(), name) && SetsAll(edit.State())
      requires Grown(History() + [EditIn(dir, edit.State())], v) && GoodSet(name, dir, v) && KeysFit(compactPointers)
      requires compactPointers == PointedBy(if manifest.Some? then PointersAfter(edits, |edits|) else compactPointers, edit.State())
      modifies this`manifest, this`edits, this`current, this`logNumber, this`prevLogNumber
      ensures Valid() && manifest.Some? && current == v
      ensures edits == (if old(manifest).Some? then old(edits) else edits[..1]) + [edit.State()]
      ensures old(manifest).Some? ==> old(manifest).value == manifest.value[..|manifest.value| - 1]
      ensures old(manifest).None? ==> |manifest.value| == 2 && |edits| == 2 && EditIn(dir, edits[0]) == SnapshotEdit(old(current))
      ensures Some(logNumber) == edit.logNumber && Some(prevLogNumber) == edit.prevLogNumber
    {
      OpenManifest();
      var record := EncodeRecord(edit);
      ghost var f := edit.State();
      ExtendedManifest(record, v, f);
      DropLast(manifest.value, record);
      Install(manifest.value + [record], v, edit.logNumber.value, edit.prevLogNumber.value, edits + [f]);
    }

    /** One more record, and the pointers it sets. */
    lemma ExtendedManifest(record: Bytes, v: Version, f: Records.Fields)
      requires manifest.Some? && Records.AreRecords(manifest.value, edits, name)
      requires Records.IsRecord(record, f) && Records.SameComparator(f, name) && SetsAll(f)
      requires Grown(EditsIn(dir, edits) + [EditIn(dir, f)], v)
      ensures GoodManifest(name, dir, v, manifest.value + [record], edits + [f], f.logNumber.value, f.prevLogNumber.value)
      ensures PointersAfter(edits + [f], |edits + [f]|) == PointedBy(PointersAfter(edits, |edits|), f)
    {
      ManifestExtended(name, dir, manifest.value, edits, record, f, v, f.logNumber.value, f.prevLogNumber.value);
      PointersAppend(edits, f);
    }

    method CompleteEdit(edit: Records.VersionEdit)
      requires Records.GoodFields(edit.State())
      requires logNumber < TWO_64 && prevLogNumber < TWO_64 && nextFileNumber < TWO_64 && lastSequence < TWO_64
      modifies edit
      ensures edit.State() == Completed(old(edit.State()), logNumber, prevLogNumber, nextFileNumber, lastSequence)
      ensures Records.GoodFields(edit.State()) && EditIn(dir, edit.State()) == EditIn(dir, old(edit.State()))
    {
      if edit.logNumber == None {
        edit.logNumber := Some(logNumber);
      }
      if edit.prevLogNumber == None {
        edit.prevLogNumber := Some(prevLogNumber);
      }
      edit.nextFileNumber := Some(nextFileNumber);
      edit.lastSequence := Some(lastSequence);
    }

    lemma HistoryGrows()
      requires Valid()
      ensures Grown(History(), current)
    {
      if manifest == None {
        SnapshotGrows(current);
      }
    }

    method NextVersion(e: VersionEdit) returns (v: Version)
      requires OrderedLevels(current) && Grown(History(), current) && Allowed(History(), current, e)
      ensures Edited(current, e, v)
    {
      forall level | 0 <= level < NUM_LEVELS ensures FreshNumbers(current[level], LevelState({}, []), e.added, |e.added|, level) {
        AllowedIsFresh(History(), current, e, level);
      }
      forall k | 0 <= k < |e.added| ensures e.added[k].0 < NUM_LEVELS {
        assert (e.added[k].0, e.added[k].1) in e.added;
      }
      v := ApplyOneEdit(current, e);
    }

    /** Without an open manifest: a new one, with the snapshot of the current version. */
    method OpenManifest()
      requires Fits32(|name|) && AllDescribed(dir, current) && KeysFit(compactPointers)
      requires manifest.Some? ==> Records.AreRecords(manifest.value, edits, name)
      modifies this`manifest, this`edits
      ensures manifest.Some? && Records.AreRecords(manifest.value, edits, name) && EditsIn(dir, edits) == old(History())
      ensures old(manifest).Some? ==> manifest == old(manifest) && edits == old(edits)
      ensures old(manifest).None? ==> |edits| == 1 && EditIn(dir, edits[0]) == SnapshotEdit(current)
      ensures old(manifest).None? ==> PointersAfter(edits, |edits|) == compactPointers
    {
      if manifest == None {
        ghost var f;
        var record;
        record, f := SnapshotRecord(dir, name, current, compactPointers);
        manifest, edits := Some([record]), [f];
        assert PointersAfter([f], 1) == PointedBy(PointersAfter([f], 0), f);
      }
    }

    /** The records are those of the manifest, and the version is the current one. */
    method Install(records: seq<Bytes>, v: Version, newLog: nat, newPrevLog: nat, ghost es: seq<Records.Fields>)
      requires Stands(name, dir, v, Some(records), es, newLog, newPrevLog, compactPointers)
      modifies this`manifest, this`edits, this`current, this`logNumber, this`prevLogNumber
      ensures Valid() && manifest == Some(records) && edits == es
      ensures current == v && logNumber == newLog && prevLogNumber == newPrevLog
    {
      manifest, edits := Some(records), es;
      current, logNumber, prevLogNumber := v, newLog, newPrevLog;
    }

    /** Recover, on a set that has just been made: records that make some version make it the current
        one again, with the numbers of the latest records.  Records that do not set all the numbers, or
        name another comparator, change nothing. */
    method Recover(records: seq<Bytes>, ghost es: seq<Records.Fields>, ghost v: Version) returns (ok: bool)
      requires Valid() && manifest == None && compactPointers == NO_POINTERS && forall level :: 0 <= level < NUM_LEVELS ==> current[level] == []
      modifies this
      ensures manifest == None
      ensures Records.AreRecords(records, es, name) && ok ==> compactPointers == PointersAfter(es, |es|)
      ensures !ok ==> current == old(current) && logNumber == old(logNumber) && lastSequence == old(lastSequence)
      ensures Records.AreRecords(records, es, name) ==> (ok <==> Records.Complete(Records.NumbersAfter(es, |es|)))
      ensures Records.AreRecords(records, es, name) && ok && Grown(EditsIn(dir, es), v) ==>
        && current == v && Recovered(Records.NumbersAfter(es, |es|))
        && (AllDescribed(dir, v) ==> Valid())
    {
      var found: seq<Records.Fields>, n: Records.Numbers;
      ok, found, n := Records.Recover(records, name, es);
      if ok {
        var saved := SaveAll(current, dir, found);
        if Records.AreRecords(records, es, name) && Grown(EditsIn(dir, es), v) {
          SavedIs(EditsIn(dir, es), v, saved);
        }
        Adopt(saved, n);
        RecoverPointers(found);
      }
    }

    /** The pointers of all the edits, the later ones last. */
    method RecoverPointers(es: seq<Records.Fields>)
      requires compactPointers == NO_POINTERS
      modifies this`compactPointers
      ensures compactPointers == PointersAfter(es, |es|) && ((forall f :: f in es ==> GoodPointers(f.compactPointers)) ==> KeysFit(compactPointers))
    {
      ghost var good := forall f :: f in es ==> GoodPointers(f.compactPointers);
      for i := 0 to |es|
        invariant compactPointers == PointersAfter(es, i) && (good ==> KeysFit(compactPointers))
      {
        assert es[i] in es;
        SetPointers(es[i].compactPointers);
      }
    }

    method Adopt(v: Version, n: Records.Numbers)
      requires Records.Complete(n)
      modifies this`current, this`manifestFileNumber, this`nextFileNumber, this`lastSequence, this`logNumber, this`prevLogNumber
      ensures current == v && Recovered(n)
    {
      current := v;
      manifestFileNumber := n.nextFile.value;
      nextFileNumber := n.nextFile.value + 1;
      lastSequence := n.lastSequence.value;
      logNumber := n.logNumber.value;
      prevLogNumber := if n.prevLogNumber.Some? then n.prevLogNumber.value else 0;
    }

    /** The fields that recovery sets from the numbers. */
    ghost predicate Recovered(n: Records.Numbers)
      reads this
    {
      && n.nextFile == Some(manifestFileNumber) && nextFileNumber == manifestFileNumber + 1
      && n.lastSequence == Some(lastSequence) && n.logNumber == Some(logNumber)
      && prevLogNumber == if n.prevLogNumber.Some? then n.prevLogNumber.value else 0
    }
  }

  lemma NextIsGood(name: Bytes, d: Directory, history: seq<VersionEdit>, v: Version, e: VersionEdit, v': Version)
    requires GoodSet(name, d, v) && Grown(history, v) && Allowed(history, v, e) && Edited(v, e, v')
    requires forall level, f :: (level, f) in e.added ==> Describes(d, level, f)
    ensures Grown(history + [e], v') && GoodSet(name, d, v')
  {
    Grows(history, v, e, v');
    NextDescribed(d, v, e, v');
  }

  lemma NextDescribed(d: Directory, v: Version, e: VersionEdit, v': Version)
    requires AllDescribed(d, v) && Edited(v, e, v')
    requires forall level, f :: (level, f) in e.added ==> Describes(d, level, f)
    ensures AllDescribed(d, v') && OrderedLevels(v')
  {
    forall level: nat, f | OnLevel(v', level, f) ensures Describes(d, level, f) {
      assert OnLevel(v, level, f) || (level, f) in e.added;
    }
  }

  /** Closing a version set and recovering from its manifest gives back the current version, both log
      numbers, and the next file number and last sequence number of the last LogAndApply. */
  method Reopen(old_: VersionSet) returns (set_: VersionSet, ok: bool)
    requires old_.Valid() && old_.manifest.Some?
    ensures ok && set_.Valid() && set_.current == old_.current
    ensures |old_.edits| > 0 && set_.Recovered(AllNumbers(old_.edits[|old_.edits| - 1]))
    ensures set_.logNumber == old_.logNumber && set_.prevLogNumber == old_.prevLogNumber && set_.compactPointers == old_.compactPointers
  {
    ManifestGives(old_.name, old_.dir, old_.current, old_.manifest.value, old_.edits, old_.logNumber, old_.prevLogNumber);
    set_, ok := RecoverFrom(old_.name, old_.dir, old_.manifest.value, old_.edits, old_.current);
  }

  method RecoverFrom(name: Bytes, dir: Directory, records: seq<Bytes>, ghost es: seq<Records.Fields>, ghost v: Version)
    returns (set_: VersionSet, ok: bool)
    requires Fits32(|name|) && Records.AreRecords(records, es, name) && Grown(EditsIn(dir, es), v)
    ensures fresh(set_) && set_.dir == dir && set_.name == name && set_.manifest == None
    ensures ok <==> Records.Complete(Records.NumbersAfter(es, |es|))
    ensures ok ==> set_.current == v && set_.Recovered(Records.NumbersAfter(es, |es|)) && set_.compactPointers == PointersAfter(es, |es|)
    ensures ok && AllDescribed(dir, v) ==> set_.Valid()
  {
    set_ := new VersionSet(name, dir);
    ok := set_.Recover(records, es, v);
  }
}
