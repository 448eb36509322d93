/** What the edits of flushes, moves and compactions do to a version's invariants and contents. */
module VersionEdits {
  import opened InternalKeys
  import opened VersionSearch
  import opened CompactionInputs
  import opened VersionBuilder

  /** A file number names one file on one level. */
  ghost predicate UniqueNumbers(v: Version) {
    forall i, j, f, g :: 0 <= i < NUM_LEVELS && 0 <= j < NUM_LEVELS && f in v[i] && g in v[j] && f.number == g.number ==> i == j && f == g
  }

  ghost predicate NumbersBelow(v: Version, n: nat) {
    forall i, f :: 0 <= i < NUM_LEVELS && f in v[i] ==> f.number < n
  }

  /** The invariants of an installed version, with the order the builder keeps on every level. */
  ghost predicate Installed(v: Version) {
    && ValidVersion(v) && UniqueNumbers(v)
    && forall i :: 0 <= i < NUM_LEVELS ==> Ordered(v[i])
  }

  /** v' is what the builder saves for one edit of v: ordered levels with exactly the edited files. */
  ghost predicate Edited(v: Version, edit: VersionEdit, v': Version) {
    forall i :: 0 <= i < NUM_LEVELS ==>
      && Ordered(v'[i])
      && forall f :: f in v'[i] <==> (f in v[i] && (i, f.number) !in edit.deleted) || (i, f) in edit.added
  }

  /** Builder::Apply and SaveTo on one edit with fresh file numbers. */
  method ApplyOneEdit(v: Version, edit: VersionEdit) returns (v': Version)
    requires forall i :: 0 <= i < NUM_LEVELS ==> Ordered(v[i])
    requires forall k :: 0 <= k < |edit.added| ==> edit.added[k].0 < NUM_LEVELS
    requires forall i :: 0 <= i < NUM_LEVELS ==> FreshNumbers(v[i], LevelState({}, []), edit.added, |edit.added|, i)
    ensures Edited(v, edit, v')
  {
    var builder := new Builder(v);
    builder.Apply(edit);
    v' := builder.SaveTo();
    forall i | 0 <= i < NUM_LEVELS
      ensures Ordered(v'[i])
      ensures forall f :: f in v'[i] <==> (f in v[i] && (i, f.number) !in edit.deleted) || (i, f) in edit.added
    {
      SavedOneEdit(v[i], edit, i);
    }
  }

  lemma SavedOneEdit(base: seq<File>, edit: VersionEdit, level: nat)
    requires Ordered(base)
    requires FreshNumbers(base, LevelState({}, []), edit.added, |edit.added|, level)
    ensures var r := SaveLevel(base, ApplyEdit(LevelState({}, []), edit, level));
      Ordered(r) && forall f :: f in r <==> (f in base && (level, f.number) !in edit.deleted) || (level, f) in edit.added
  {
    var empty := LevelState({}, []);
    var st := ApplyEdit(empty, edit, level);
    ApplyEditMeaning(base, empty, edit, level);
    AddedSource(base, empty, edit, level);
    forall i, j | 0 <= i < |base| && 0 <= j < |st.added| ensures base[i].number != st.added[j].number {
      assert st.added[j] in st.added && base[i] in base;
    }
    SaveLevelMeaning(base, st);
    var r := SaveLevel(base, st);
    forall f ensures f in r <==> (f in base && (level, f.number) !in edit.deleted) || (level, f) in edit.added {
      assert f in r <==> f in LiveFiles(base, st);
      assert f in LiveFiles(base, empty) <==> f in base;
    }
  }

  // ----- Entries -----

  /** Two entries of a version with the same user key and sequence number are the same entry of the same file. */
  lemma OneHome(v: Version, i: nat, f: File, x: Entry, j: nat, g: File, y: Entry)
    requires ValidVersion(v) && i < NUM_LEVELS && j < NUM_LEVELS
    requires f in v[i] && x in f.table && g in v[j] && y in g.table
    requires x.key.user == y.key.user && x.key.sequence == y.key.sequence
    ensures i == j && f == g && x == y
  {
    if i == j && f != g {
      var m :| 0 <= m < |v[i]| && v[i][m] == f;
      var n :| 0 <= n < |v[i]| && v[i][n] == g;
      if i > 0 {
        SortedBounds(f, x);
        SortedBounds(g, y);
      }
    }
  }

  /** Files on one level that never interleave, in the builder's order, are a disjoint level. */
  lemma OrderedApartIsDisjoint(fs: seq<File>)
    requires ValidFiles(fs) && Ordered(fs)
    requires forall f, g :: f in fs && g in fs && f != g ==> Before(f.largest, g.smallest) || Before(g.largest, f.smallest)
    ensures Disjoint(fs)
  {
    forall i, j | 0 <= i < j < |fs| ensures Before(fs[i].largest, fs[j].smallest) {
      assert fs[i] in fs && fs[j] in fs && BySmallest(fs[i], fs[j]);
      SortedBounds(fs[i], fs[i].table[0]);
      SortedBounds(fs[j], fs[j].table[0]);
    }
  }

  lemma DisjointApart(fs: seq<File>, f: File, g: File)
    requires Disjoint(fs) && f in fs && g in fs && f != g
    ensures Before(f.largest, g.smallest) || Before(g.largest, f.smallest)
  {
    var i :| 0 <= i < |fs| && fs[i] == f;
    var j :| 0 <= j < |fs| && fs[j] == g;
  }

  // ----- A flush -----

  function FlushEdit(level: nat, f: File): VersionEdit {
    VersionEdit({}, [(level, f)])
  }

  ghost predicate NoOverlap(fs: seq<File>, f: File) {
    forall g :: g in fs ==> g.largest.user < f.smallest.user || f.largest.user < g.smallest.user
  }

  /** PickLevelForMemTableOutput: past level 0 only while no file at the level or above it overlaps. */
  ghost predicate FlushLevelAllowed(v: Version, level: nat, f: File) {
    level < NUM_LEVELS && (level > 0 ==> forall i :: 0 <= i <= level ==> NoOverlap(v[i], f))
  }

  lemma NoOverlapIsNewer(f: File, g: File)
    requires ValidFile(f) && ValidFile(g)
    requires g.largest.user < f.smallest.user || f.largest.user < g.smallest.user
    ensures NewerThan(f.table, g.table) && NewerThan(g.table, f.table)
  {
    forall x, y | x in f.table && y in g.table ensures x.key.user != y.key.user {
      SortedBounds(f, x);
      SortedBounds(g, y);
    }
  }

  /** f is newer than every file of v. */
  ghost predicate NewerThanVersion(f: File, v: Version) {
    forall i, g :: 0 <= i < NUM_LEVELS && g in v[i] ==> NewerThan(f.table, g.table)
  }

  lemma FlushedFiles(v: Version, level: nat, f: File, v': Version)
    requires Edited(v, FlushEdit(level, f), v')
    ensures forall i, g :: 0 <= i < NUM_LEVELS ==> (g in v'[i] <==> g in v[i] || (i == level && g == f))
  {
  }

  lemma FlushLevelNewer(v: Version, level: nat, f: File, v': Version, i: nat, j: nat, g: File, h: File)
    requires Installed(v) && ValidFile(f) && NewerThanVersion(f, v)
    requires FlushLevelAllowed(v, level, f) && Edited(v, FlushEdit(level, f), v')
    requires i < j < NUM_LEVELS && g in v'[i] && h in v'[j]
    ensures NewerThan(g.table, h.table)
  {
    FlushedFiles(v, level, f, v');
    if g in v[i] && h in v[j] {
      assert LevelNewer(v[i], v[j]);
    } else if h == f && j == level {
      assert g in v[i] && NoOverlap(v[i], f);
      NoOverlapIsNewer(f, g);
    }
  }

  lemma FlushDisjoint(v: Version, level: nat, f: File, v': Version, i: nat)
    requires Installed(v) && ValidFile(f)
    requires FlushLevelAllowed(v, level, f) && Edited(v, FlushEdit(level, f), v')
    requires 1 <= i < NUM_LEVELS
    ensures ValidFiles(v'[i]) && Disjoint(v'[i])
  {
    FlushedFiles(v, level, f, v');
    forall g, h | g in v'[i] && h in v'[i] && g != h ensures Before(g.largest, h.smallest) || Before(h.largest, g.smallest) {
      if g in v[i] && h in v[i] {
        DisjointApart(v[i], g, h);
      } else {
        assert NoOverlap(v[i], f);
      }
    }
    OrderedApartIsDisjoint(v'[i]);
  }

  lemma OrderedDistinct(fs: seq<File>)
    requires Ordered(fs) && forall f, g :: f in fs && g in fs && f.number == g.number ==> f == g
    ensures DistinctNumbers(fs)
  {
    forall m, n | 0 <= m < n < |fs| ensures fs[m].number != fs[n].number {
      assert fs[m] in fs && fs[n] in fs && BySmallest(fs[m], fs[n]);
    }
  }

  lemma FlushZeroOrdered(v: Version, level: nat, f: File, v': Version)
    requires Installed(v) && ValidFile(f) && NewerThanVersion(f, v) && NumbersBelow(v, f.number)
    requires Edited(v, FlushEdit(level, f), v')
    ensures UniqueNumbers(v') && ZeroOrdered(v'[0]) && ValidFiles(v'[0])
  {
    FlushedFiles(v, level, f, v');
    OrderedDistinct(v'[0]);
  }

  /** Adding a flushed memtable, newer than everything in the version, at an allowed level. */
  lemma FlushKeepsInstalled(v: Version, level: nat, f: File, v': Version)
    requires Installed(v) && ValidFile(f) && NumbersBelow(v, f.number) && NewerThanVersion(f, v)
    requires FlushLevelAllowed(v, level, f) && Edited(v, FlushEdit(level, f), v')
    ensures Installed(v')
    ensures VersionEntries(v') == VersionEntries(v) + TableEntries(f.table)
  {
    FlushZeroOrdered(v, level, f, v');
    forall i | 1 <= i < NUM_LEVELS ensures ValidFiles(v'[i]) && Disjoint(v'[i]) {
      FlushDisjoint(v, level, f, v', i);
    }
    forall i, j, g, h | 0 <= i < j < NUM_LEVELS && g in v'[i] && h in v'[j] ensures NewerThan(g.table, h.table) {
      FlushLevelNewer(v, level, f, v', i, j, g, h);
    }
    FlushedEntries(v, level, f, v');
  }

  lemma FlushedEntries(v: Version, level: nat, f: File, v': Version)
    requires level < NUM_LEVELS && Edited(v, FlushEdit(level, f), v')
    ensures VersionEntries(v') == VersionEntries(v) + TableEntries(f.table)
  {
    FlushedFiles(v, level, f, v');
    forall e ensures e in VersionEntries(v') <==> e in VersionEntries(v) + TableEntries(f.table) {
      if e in TableEntries(f.table) {
        assert f in v'[level] && e in f.table;
      }
      if e in VersionEntries(v) {
        var i, g :| 0 <= i < NUM_LEVELS && g in v[i] && e in g.table;
        assert g in v'[i];
      }
    }
  }

  // ----- A compaction, or a trivial move -----

  function ReplaceEdit(level: nat, in0: seq<File>, in1: seq<File>, outputs: seq<File>): VersionEdit {
    VersionEdit((set f | f in in0 :: (level, f.number)) + (set f | f in in1 :: (level + 1, f.number)),
                seq(|outputs|, i requires 0 <= i < |outputs| => (level + 1, outputs[i])))
  }

  /** What SetupOtherInputs guarantees about the inputs of a compaction of `level`. */
  ghost predicate Planned(v: Version, level: nat, in0: seq<File>, in1: seq<File>) {
    level + 1 < NUM_LEVELS && Sealed(level, v[level], in0) && Covering(v[level + 1], in0, in1)
  }

  ghost predicate IsInput(in0: seq<File>, in1: seq<File>, f: File) {
    f in in0 || f in in1
  }

  /** Sorted, disjoint files holding nothing but input entries. */
  ghost predicate CutFrom(in0: seq<File>, in1: seq<File>, outputs: seq<File>) {
    && ValidFiles(outputs) && Disjoint(outputs)
    && forall o, e :: o in outputs && e in o.table ==> exists f :: IsInput(in0, in1, f) && e in f.table
  }

  /** Output numbers are new, except that a moved file keeps its own. */
  ghost predicate OutputNumbers(v: Version, level: nat, in0: seq<File>, outputs: seq<File>) {
    && (forall o, i, g :: o in outputs && 0 <= i < NUM_LEVELS && g in v[i] && g.number == o.number ==> i == level && g == o && g in in0)
    && (forall o, p :: o in outputs && p in outputs && o.number == p.number ==> o == p)
  }

  lemma PlannedInputs(v: Version, level: nat, in0: seq<File>, in1: seq<File>)
    requires Planned(v, level, in0, in1)
    ensures forall f :: f in in0 ==> f in v[level]
    ensures forall f :: f in in1 ==> f in v[level + 1]
  {
    SealedInLevel(level, v[level], in0);
    var lo, hi :| CoveringRange(v[level + 1], in0, in1, lo, hi);
    MeetingMembers(v[level + 1], Some(lo.user), Some(hi.user));
  }

  ghost predicate AllAfter(in0: seq<File>, in1: seq<File>, k: InternalKey) {
    forall f :: IsInput(in0, in1, f) ==> Before(k, f.smallest)
  }

  ghost predicate AllBefore(in0: seq<File>, in1: seq<File>, k: InternalKey) {
    forall f :: IsInput(in0, in1, f) ==> Before(f.largest, k)
  }

  lemma LeftParentSide(parents: seq<File>, in0: seq<File>, in1: seq<File>, lo: InternalKey, hi: InternalKey, g: File, f: File)
    requires ValidFiles(parents) && Disjoint(parents) && CoveringRange(parents, in0, in1, lo, hi)
    requires g in parents && g !in in1 && IsInput(in0, in1, f)
    ensures g.largest.user < lo.user || hi.user < g.smallest.user
    ensures g.largest.user < lo.user ==> Before(g.largest, f.smallest)
    ensures hi.user < g.smallest.user ==> Before(f.largest, g.smallest)
  {
    MeetingMembers(parents, Some(lo.user), Some(hi.user));
    if f in in0 {
      assert !Less(f.smallest, lo) && !Less(hi, f.largest);
    } else {
      assert f in parents && f != g && Meets(f, Some(lo.user), Some(hi.user));
      DisjointApart(parents, f, g);
      SortedBounds(g, g.table[0]);
      SortedBounds(f, f.table[0]);
    }
  }

  lemma LeftParentBefore(parents: seq<File>, in0: seq<File>, in1: seq<File>, lo: InternalKey, hi: InternalKey, g: File)
    requires ValidFiles(parents) && Disjoint(parents) && CoveringRange(parents, in0, in1, lo, hi)
    requires g in parents && g !in in1 && g.largest.user < lo.user
    ensures AllAfter(in0, in1, g.largest)
  {
    forall f | IsInput(in0, in1, f) ensures Before(g.largest, f.smallest) {
      LeftParentSide(parents, in0, in1, lo, hi, g, f);
    }
  }

  lemma LeftParentAfter(parents: seq<File>, in0: seq<File>, in1: seq<File>, lo: InternalKey, hi: InternalKey, g: File)
    requires ValidFiles(parents) && Disjoint(parents) && CoveringRange(parents, in0, in1, lo, hi)
    requires g in parents && g !in in1 && hi.user < g.smallest.user
    ensures AllBefore(in0, in1, g.smallest)
  {
    forall f | IsInput(in0, in1, f) ensures Before(f.largest, g.smallest) {
      LeftParentSide(parents, in0, in1, lo, hi, g, f);
    }
  }

  ghost predicate ApartFromInputs(in0: seq<File>, in1: seq<File>, g: File) {
    AllAfter(in0, in1, g.largest) || AllBefore(in0, in1, g.smallest)
  }

  /** A file left on the next level lies entirely before or entirely after all the inputs. */
  lemma LeftParentIsApart(parents: seq<File>, in0: seq<File>, in1: seq<File>, lo: InternalKey, hi: InternalKey, g: File)
    requires ValidFiles(parents) && Disjoint(parents) && CoveringRange(parents, in0, in1, lo, hi)
    requires g in parents && g !in in1
    ensures ApartFromInputs(in0, in1, g)
  {
    MeetingMembers(parents, Some(lo.user), Some(hi.user));
    if g.largest.user < lo.user {
      LeftParentBefore(parents, in0, in1, lo, hi, g);
    } else {
      LeftParentAfter(parents, in0, in1, lo, hi, g);
    }
  }

  /** What the rest of the proof needs of a compaction's inputs. */
  ghost predicate GoodInputs(v: Version, level: nat, in0: seq<File>, in1: seq<File>) {
    && level + 1 < NUM_LEVELS
    && (forall f :: f in in0 ==> f in v[level])
    && (forall f :: f in in1 ==> f in v[level + 1])
    && (forall f, g :: f in in0 && g in v[level] && g !in in0 ==> NewerThan(g.table, f.table))
    && (forall g :: g in v[level + 1] && g !in in1 ==> ApartFromInputs(in0, in1, g))
  }

  lemma PlannedIsGood(v: Version, level: nat, in0: seq<File>, in1: seq<File>)
    requires ValidVersion(v) && Planned(v, level, in0, in1)
    ensures GoodInputs(v, level, in0, in1)
  {
    PlannedInputs(v, level, in0, in1);
    forall f, g | f in in0 && g in v[level] && g !in in0 ensures NewerThan(g.table, f.table) {
      SealedLeavesNewer(level, v[level], in0, f, g);
    }
    LeftParentsAreApart(v[level + 1], in0, in1);
  }

  lemma LeftParentsAreApart(parents: seq<File>, in0: seq<File>, in1: seq<File>)
    requires ValidFiles(parents) && Disjoint(parents) && Covering(parents, in0, in1)
    ensures forall g :: g in parents && g !in in1 ==> ApartFromInputs(in0, in1, g)
  {
    var lo, hi :| CoveringRange(parents, in0, in1, lo, hi);
    forall g | g in parents && g !in in1 ensures ApartFromInputs(in0, in1, g) {
      LeftParentIsApart(parents, in0, in1, lo, hi, g);
    }
  }

  ghost predicate InReplaced(v: Version, level: nat, in0: seq<File>, in1: seq<File>, outputs: seq<File>, i: nat, f: File)
    requires i < NUM_LEVELS
  {
    if i == level then f in v[i] && f !in in0
    else if i == level + 1 then (f in v[i] && f !in in1) || f in outputs
    else f in v[i]
  }

  lemma ReplacedFiles(v: Version, level: nat, in0: seq<File>, in1: seq<File>, outputs: seq<File>, v': Version, i: nat, f: File)
    requires UniqueNumbers(v) && GoodInputs(v, level, in0, in1) && i < NUM_LEVELS
    requires Edited(v, ReplaceEdit(level, in0, in1, outputs), v')
    ensures f in v'[i] <==> InReplaced(v, level, in0, in1, outputs, i, f)
  {
    var edit := ReplaceEdit(level, in0, in1, outputs);
    assert (i, f) in edit.added <==> i == level + 1 && f in outputs by {
      if f in outputs {
        var k :| 0 <= k < |outputs| && outputs[k] == f;
        assert edit.added[k] == (level + 1, f);
      }
    }
    if f in v[i] {
      assert (i, f.number) in edit.deleted <==> (i == level && f in in0) || (i == level + 1 && f in in1);
    }
  }

  lemma OutputWithinInputs(in0: seq<File>, in1: seq<File>, outputs: seq<File>, o: File, e: Entry) returns (f: File)
    requires CutFrom(in0, in1, outputs) && o in outputs && e in o.table
    requires forall f :: IsInput(in0, in1, f) ==> ValidFile(f)
    ensures IsInput(in0, in1, f) && e in f.table
    ensures e.key == f.smallest || Before(f.smallest, e.key)
    ensures e.key == f.largest || Before(e.key, f.largest)
  {
    f :| IsInput(in0, in1, f) && e in f.table;
    SortedBounds(f, e);
  }

  /** So an output never interleaves with a file left on the next level. */
  lemma OutputApartFromLeft(in0: seq<File>, in1: seq<File>, outputs: seq<File>, o: File, g: File)
    requires CutFrom(in0, in1, outputs) && o in outputs
    requires forall f :: IsInput(in0, in1, f) ==> ValidFile(f)
    requires ApartFromInputs(in0, in1, g)
    ensures Before(o.largest, g.smallest) || Before(g.largest, o.smallest)
  {
    assert ValidFile(o);
    var f := OutputWithinInputs(in0, in1, outputs, o, o.table[0]);
    var f' := OutputWithinInputs(in0, in1, outputs, o, o.table[|o.table| - 1]);
  }

  /** The level-order invariant survives: what stays behind on `level` is newer than what leaves it. */
  lemma ReplacedLevelNewer(v: Version, level: nat, in0: seq<File>, in1: seq<File>, outputs: seq<File>, i: nat, j: nat, g: File, h: File)
    requires ValidVersion(v) && GoodInputs(v, level, in0, in1) && CutFrom(in0, in1, outputs)
    requires i < j < NUM_LEVELS
    requires InReplaced(v, level, in0, in1, outputs, i, g) && InReplaced(v, level, in0, in1, outputs, j, h)
    ensures NewerThan(g.table, h.table)
  {
    forall x, y | x in g.table && y in h.table && x.key.user == y.key.user ensures x.key.sequence > y.key.sequence {
      var i', g' := i, g;
      var j', h' := j, h;
      if i == level + 1 && g in outputs {
        g' := OutputWithinInputs(in0, in1, outputs, g, x);
        i' := if g' in in0 then level else level + 1;
      }
      if j == level + 1 && h in outputs {
        h' := OutputWithinInputs(in0, in1, outputs, h, y);
        j' := if h' in in0 then level else level + 1;
      }
      if i' == j' {
        assert h' in in0 && g' in v[level] && g' !in in0;
      } else {
        assert LevelNewer(v[i'], v[j']);
      }
      assert NewerThan(g'.table, h'.table);
    }
  }

  lemma ReplacedDisjoint(v: Version, level: nat, in0: seq<File>, in1: seq<File>, outputs: seq<File>, v': Version, i: nat)
    requires Installed(v) && GoodInputs(v, level, in0, in1) && CutFrom(in0, in1, outputs)
    requires Edited(v, ReplaceEdit(level, in0, in1, outputs), v')
    requires 1 <= i < NUM_LEVELS
    ensures ValidFiles(v'[i]) && Disjoint(v'[i])
  {
    forall f ensures f in v'[i] <==> InReplaced(v, level, in0, in1, outputs, i, f) {
      ReplacedFiles(v, level, in0, in1, outputs, v', i, f);
    }
    forall g, h | g in v'[i] && h in v'[i] && g != h ensures Before(g.largest, h.smallest) || Before(h.largest, g.smallest) {
      ReplacedApart(v, level, in0, in1, outputs, i, g, h);
    }
    OrderedApartIsDisjoint(v'[i]);
  }

  lemma ReplacedApart(v: Version, level: nat, in0: seq<File>, in1: seq<File>, outputs: seq<File>, i: nat, g: File, h: File)
    requires Installed(v) && GoodInputs(v, level, in0, in1) && CutFrom(in0, in1, outputs)
    requires 1 <= i < NUM_LEVELS && g != h
    requires InReplaced(v, level, in0, in1, outputs, i, g) && InReplaced(v, level, in0, in1, outputs, i, h)
    ensures Before(g.largest, h.smallest) || Before(h.largest, g.smallest)
  {
    if i == level + 1 && g in outputs && h in outputs {
      DisjointApart(outputs, g, h);
    } else if i == level + 1 && g in outputs {
      OutputApartFromLeft(in0, in1, outputs, g, h);
    } else if i == level + 1 && h in outputs {
      OutputApartFromLeft(in0, in1, outputs, h, g);
    } else {
      DisjointApart(v[i], g, h);
    }
  }

  lemma ReplacedSameNumber(v: Version, level: nat, in0: seq<File>, in1: seq<File>, outputs: seq<File>, i: nat, j: nat, f: File, g: File)
    requires UniqueNumbers(v) && OutputNumbers(v, level, in0, outputs)
    requires i < NUM_LEVELS && j < NUM_LEVELS && f.number == g.number
    requires InReplaced(v, level, in0, in1, outputs, i, f) && InReplaced(v, level, in0, in1, outputs, j, g)
    ensures i == j && f == g
  {
  }

  lemma ReplacedUnique(v: Version, level: nat, in0: seq<File>, in1: seq<File>, outputs: seq<File>, v': Version)
    requires Installed(v) && GoodInputs(v, level, in0, in1) && OutputNumbers(v, level, in0, outputs)
    requires Edited(v, ReplaceEdit(level, in0, in1, outputs), v')
    ensures UniqueNumbers(v')
  {
    forall i, j, f, g | 0 <= i < NUM_LEVELS && 0 <= j < NUM_LEVELS && f in v'[i] && g in v'[j] && f.number == g.number
      ensures i == j && f == g
    {
      ReplacedFiles(v, level, in0, in1, outputs, v', i, f);
      ReplacedFiles(v, level, in0, in1, outputs, v', j, g);
      ReplacedSameNumber(v, level, in0, in1, outputs, i, j, f, g);
    }
  }

  lemma ReplacedZero(v: Version, level: nat, in0: seq<File>, in1: seq<File>, outputs: seq<File>, v': Version)
    requires Installed(v) && GoodInputs(v, level, in0, in1) && UniqueNumbers(v')
    requires Edited(v, ReplaceEdit(level, in0, in1, outputs), v')
    ensures ZeroOrdered(v'[0]) && ValidFiles(v'[0])
  {
    forall f | f in v'[0] ensures f in v[0] {
      ReplacedFiles(v, level, in0, in1, outputs, v', 0, f);
    }
    OrderedDistinct(v'[0]);
  }

  /** A compaction or trivial move keeps both structural invariants. */
  lemma ReplaceKeepsInstalled(v: Version, level: nat, in0: seq<File>, in1: seq<File>, outputs: seq<File>, v': Version)
    requires Installed(v) && GoodInputs(v, level, in0, in1)
    requires CutFrom(in0, in1, outputs) && OutputNumbers(v, level, in0, outputs)
    requires Edited(v, ReplaceEdit(level, in0, in1, outputs), v')
    ensures Installed(v')
  {
    ReplacedUnique(v, level, in0, in1, outputs, v');
    ReplacedZero(v, level, in0, in1, outputs, v');
    forall i | 1 <= i < NUM_LEVELS ensures ValidFiles(v'[i]) && Disjoint(v'[i]) {
      ReplacedDisjoint(v, level, in0, in1, outputs, v', i);
    }
    forall i, j, g, h | 0 <= i < j < NUM_LEVELS && g in v'[i] && h in v'[j] ensures NewerThan(g.table, h.table) {
      ReplacedFiles(v, level, in0, in1, outputs, v', i, g);
      ReplacedFiles(v, level, in0, in1, outputs, v', j, h);
      ReplacedLevelNewer(v, level, in0, in1, outputs, i, j, g, h);
    }
  }

  // ----- Contents -----

  ghost function InputEntries(in0: seq<File>, in1: seq<File>): set<Entry> {
    FileEntries(in0) + FileEntries(in1)
  }

  predicate Untouched(level: nat, in0: seq<File>, in1: seq<File>, i: int, f: File) {
    !(i == level && f in in0) && !(i == level + 1 && f in in1)
  }

  /** The entries of the files a compaction does not touch. */
  ghost function LeftEntries(v: Version, level: nat, in0: seq<File>, in1: seq<File>): set<Entry> {
    set i, f, e | 0 <= i < NUM_LEVELS && f in v[i] && Untouched(level, in0, in1, i, f) && e in f.table :: e
  }

  lemma EntriesSplit(v: Version, level: nat, in0: seq<File>, in1: seq<File>)
    requires GoodInputs(v, level, in0, in1)
    ensures VersionEntries(v) == LeftEntries(v, level, in0, in1) + InputEntries(in0, in1)
  {
    forall e ensures e in VersionEntries(v) <==> e in LeftEntries(v, level, in0, in1) + InputEntries(in0, in1) {
      if e in VersionEntries(v) {
        var i, f :| 0 <= i < NUM_LEVELS && f in v[i] && e in f.table;
      }
      if e in FileEntries(in0) {
        var f :| f in in0 && e in f.table;
        assert f in v[level];
      }
      if e in FileEntries(in1) {
        var f :| f in in1 && e in f.table;
        assert f in v[level + 1];
      }
    }
  }

  lemma EntriesApart(v: Version, level: nat, in0: seq<File>, in1: seq<File>, i: nat, f: File, j: nat, g: File, e: Entry)
    requires ValidVersion(v)
    requires i < NUM_LEVELS && f in v[i] && Untouched(level, in0, in1, i, f) && e in f.table
    requires j < NUM_LEVELS && g in v[j] && !Untouched(level, in0, in1, j, g)
    ensures e !in g.table
  {
    if e in g.table {
      OneHome(v, i, f, e, j, g, e);
    }
  }

  lemma LeftIsApart(v: Version, level: nat, in0: seq<File>, in1: seq<File>)
    requires ValidVersion(v) && GoodInputs(v, level, in0, in1)
    ensures LeftEntries(v, level, in0, in1) !! InputEntries(in0, in1)
  {
    forall e | e in LeftEntries(v, level, in0, in1) ensures e !in InputEntries(in0, in1) {
      var i, f :| 0 <= i < NUM_LEVELS && f in v[i] && Untouched(level, in0, in1, i, f) && e in f.table;
      if e in FileEntries(in0) {
        var g :| g in in0 && e in g.table;
        EntriesApart(v, level, in0, in1, i, f, level, g, e);
      }
      if e in FileEntries(in1) {
        var g :| g in in1 && e in g.table;
        EntriesApart(v, level, in0, in1, i, f, level + 1, g, e);
      }
    }
  }

  ghost predicate Replaced(v: Version, level: nat, in0: seq<File>, in1: seq<File>, outputs: seq<File>, v': Version) {
    forall i, f :: 0 <= i < NUM_LEVELS ==> (f in v'[i] <==> InReplaced(v, level, in0, in1, outputs, i, f))
  }

  lemma ReplacedEntry(v: Version, level: nat, in0: seq<File>, in1: seq<File>, outputs: seq<File>, v': Version, e: Entry)
    requires level + 1 < NUM_LEVELS && Replaced(v, level, in0, in1, outputs, v')
    ensures e in VersionEntries(v') ==> e in LeftEntries(v, level, in0, in1) || e in FileEntries(outputs)
    ensures e in LeftEntries(v, level, in0, in1) ==> e in VersionEntries(v')
    ensures e in FileEntries(outputs) ==> e in VersionEntries(v')
  {
    if e in VersionEntries(v') {
      var i, f :| 0 <= i < NUM_LEVELS && f in v'[i] && e in f.table;
      assert InReplaced(v, level, in0, in1, outputs, i, f);
    }
    if e in LeftEntries(v, level, in0, in1) {
      var i, f :| 0 <= i < NUM_LEVELS && f in v[i] && Untouched(level, in0, in1, i, f) && e in f.table;
      assert InReplaced(v, level, in0, in1, outputs, i, f);
    }
    if e in FileEntries(outputs) {
      var f :| f in outputs && e in f.table;
      assert InReplaced(v, level, in0, in1, outputs, level + 1, f);
    }
  }

  lemma ReplacedEntries(v: Version, level: nat, in0: seq<File>, in1: seq<File>, outputs: seq<File>, v': Version)
    requires Installed(v) && GoodInputs(v, level, in0, in1)
    requires Edited(v, ReplaceEdit(level, in0, in1, outputs), v')
    ensures VersionEntries(v') == LeftEntries(v, level, in0, in1) + FileEntries(outputs)
  {
    forall i, f | 0 <= i < NUM_LEVELS ensures f in v'[i] <==> InReplaced(v, level, in0, in1, outputs, i, f) {
      ReplacedFiles(v, level, in0, in1, outputs, v', i, f);
    }
    forall e ensures e in VersionEntries(v') <==> e in LeftEntries(v, level, in0, in1) || e in FileEntries(outputs) {
      ReplacedEntry(v, level, in0, in1, outputs, v', e);
    }
  }
}
