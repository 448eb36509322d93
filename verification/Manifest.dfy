/** The manifest: its records always rebuild the installed version (db/version_set.cc: LogAndApply,
    WriteSnapshot, Recover). */
module Manifests {
  import opened InternalKeys
  import opened Coding
  import opened VersionSearch
  import opened VersionBuilder
  import opened VersionEdits
  import Records = EditCodec

  // ----- A list of edits, from an empty version on -----

  ghost predicate OnLevel(v: Version, level: nat, f: File) {
    level < NUM_LEVELS && f in v[level]
  }

  /** The level lists exactly what the edits leave on it. */
  ghost predicate Lists(edits: seq<VersionEdit>, fs: seq<File>, level: nat) {
    Ordered(fs) && forall f :: f in fs <==> f in EditAll([], edits, |edits|, level)
  }

  /** The edits, applied in turn to an empty version, make v. */
  ghost predicate Rebuilds(edits: seq<VersionEdit>, v: Version) {
    && (forall level :: 0 <= level < NUM_LEVELS ==> AddedOnce([], edits, level))
    && (forall level :: 0 <= level < NUM_LEVELS ==> Lists(edits, v[level], level))
  }

  /** A file has only ever been added on the level where it is, or on levels above it. */
  ghost predicate Downward(edits: seq<VersionEdit>, v: Version) {
    forall k: nat, level: nat, f, j: nat, g :: AddsAt(edits, k, level, f) && OnLevel(v, j, g) && g.number == f.number ==> level <= j
  }

  /** Everything the proof keeps about a version and the edits it comes from. */
  ghost predicate Grown(edits: seq<VersionEdit>, v: Version) {
    Rebuilds(edits, v) && Downward(edits, v) && UniqueNumbers(v)
  }

  /** No edit has added a file with this number. */
  ghost predicate NewNumber(edits: seq<VersionEdit>, number: nat) {
    forall k: nat, level: nat, f :: AddsAt(edits, k, level, f) ==> f.number != number
  }

  /** The edit takes f off some level above. */
  ghost predicate MovedDown(v: Version, edit: VersionEdit, level: nat, f: File) {
    exists j: nat :: j < level && OnLevel(v, j, f) && (j, f.number) in edit.deleted
  }

  /** An added file is a new one, or moves down; and no two have the same number. */
  ghost predicate Allowed(edits: seq<VersionEdit>, v: Version, edit: VersionEdit) {
    && (forall level, f :: (level, f) in edit.added ==> level < NUM_LEVELS && (NewNumber(edits, f.number) || MovedDown(v, edit, level, f)))
    && (forall i, f, j, g :: (i, f) in edit.added && (j, g) in edit.added && f.number == g.number ==> i == j && f == g)
  }

  lemma {:induction false} EditAllPrefix(edits: seq<VersionEdit>, edit: VersionEdit, n: nat, level: nat)
    requires n <= |edits|
    ensures EditAll([], edits + [edit], n, level) == EditAll([], edits, n, level)
  {
    if n > 0 {
      EditAllPrefix(edits, edit, n - 1, level);
      assert (edits + [edit])[n - 1] == edits[n - 1];
    }
  }

  /** The file was added by one of the edits. */
  lemma SourceOf(edits: seq<VersionEdit>, v: Version, level: nat, f: File) returns (k: nat)
    requires Rebuilds(edits, v) && OnLevel(v, level, f)
    ensures AddsAt(edits, k, level, f)
  {
    assert Lists(edits, v[level], level);
    EditAllSource([], edits, |edits|, level, f);
    k :| 0 <= k < |edits| && AddsAt(edits, k, level, f);
  }

  /** No file of a level carries the number of a file added to it. */
  lemma AddedApart(edits: seq<VersionEdit>, v: Version, edit: VersionEdit, level: nat, f: File, j: nat, g: File)
    requires Grown(edits, v) && Allowed(edits, v, edit)
    requires (level, f) in edit.added && OnLevel(v, j, g) && g.number == f.number
    ensures j < level && g == f && (j, g.number) in edit.deleted
  {
    var k := SourceOf(edits, v, j, g);
    var i: nat :| i < level && OnLevel(v, i, f) && (i, f.number) in edit.deleted;
  }

  lemma AddsMore(edits: seq<VersionEdit>, edit: VersionEdit, k: nat, level: nat, f: File)
    requires AddsAt(edits + [edit], k, level, f)
    ensures k < |edits| ==> AddsAt(edits, k, level, f)
    ensures k >= |edits| ==> k == |edits| && (level, f) in edit.added
  {
  }

  lemma StillFresh(edits: seq<VersionEdit>, v: Version, edit: VersionEdit, level: nat)
    requires Grown(edits, v) && Allowed(edits, v, edit) && level < NUM_LEVELS
    ensures AddedOnce([], edits + [edit], level)
  {
    assert AddedOnce([], edits, level);
    forall k: nat, l: nat, f, g | AddsAt(edits + [edit], k, level, f) && AddsAt(edits + [edit], l, level, g) && f.number == g.number
      ensures k == l && f == g
    {
      AddsMore(edits, edit, k, level, f);
      AddsMore(edits, edit, l, level, g);
      if k < |edits| && l == |edits| {
        NotAddedAgain(edits, v, edit, k, level, f, g);
      } else if l < |edits| && k == |edits| {
        NotAddedAgain(edits, v, edit, l, level, g, f);
      }
    }
  }

  lemma NotAddedAgain(edits: seq<VersionEdit>, v: Version, edit: VersionEdit, k: nat, level: nat, f: File, g: File)
    requires Grown(edits, v) && Allowed(edits, v, edit)
    requires AddsAt(edits, k, level, f) && (level, g) in edit.added
    ensures f.number != g.number
  {
    if MovedDown(v, edit, level, g) {
      var i: nat :| i < level && OnLevel(v, i, g) && (i, g.number) in edit.deleted;
    }
  }

  /** What a level holds after one more edit. */
  ghost predicate Becomes(v: Version, edit: VersionEdit, level: nat, f: File) {
    (OnLevel(v, level, f) && (level, f.number) !in edit.deleted) || (level, f) in edit.added
  }

  lemma NextLists(edits: seq<VersionEdit>, v: Version, edit: VersionEdit, v': Version, level: nat)
    requires Rebuilds(edits, v) && Edited(v, edit, v') && level < NUM_LEVELS
    ensures Lists(edits + [edit], v'[level], level)
  {
    EditAllPrefix(edits, edit, |edits|, level);
    assert Lists(edits, v[level], level);
    assert (edits + [edit])[|edits|] == edit;
  }

  lemma NextUnique(edits: seq<VersionEdit>, v: Version, edit: VersionEdit, v': Version)
    requires Grown(edits, v) && Allowed(edits, v, edit) && Edited(v, edit, v')
    ensures UniqueNumbers(v')
  {
    forall i, j, f, g | 0 <= i < NUM_LEVELS && 0 <= j < NUM_LEVELS && f in v'[i] && g in v'[j] && f.number == g.number
      ensures i == j && f == g
    {
      assert Becomes(v, edit, i, f) && Becomes(v, edit, j, g);
      if (i, f) in edit.added && (j, g) !in edit.added {
        AddedApart(edits, v, edit, i, f, j, g);
      } else if (i, f) !in edit.added && (j, g) in edit.added {
        AddedApart(edits, v, edit, j, g, i, f);
      }
    }
  }

  lemma NextDownward(edits: seq<VersionEdit>, v: Version, edit: VersionEdit, v': Version)
    requires Grown(edits, v) && Allowed(edits, v, edit) && Edited(v, edit, v')
    ensures Downward(edits + [edit], v')
  {
    forall k: nat, level: nat, f, j: nat, g | AddsAt(edits + [edit], k, level, f) && OnLevel(v', j, g) && g.number == f.number
      ensures level <= j
    {
      AddsMore(edits, edit, k, level, f);
      assert Becomes(v, edit, j, g);
      if k < |edits| {
        if (j, g) in edit.added {
          AddedBelow(edits, v, edit, k, level, f, j, g);
        }
      } else if (j, g) !in edit.added {
        AddedApart(edits, v, edit, level, f, j, g);
      }
    }
  }

  lemma AddedBelow(edits: seq<VersionEdit>, v: Version, edit: VersionEdit, k: nat, level: nat, f: File, j: nat, g: File)
    requires Grown(edits, v) && Allowed(edits, v, edit)
    requires AddsAt(edits, k, level, f) && (j, g) in edit.added && g.number == f.number
    ensures level <= j
  {
    var i: nat :| i < j && OnLevel(v, i, g) && (i, g.number) in edit.deleted;
  }

  /** One more allowed edit, and the version it makes. */
  lemma Grows(edits: seq<VersionEdit>, v: Version, edit: VersionEdit, v': Version)
    requires Grown(edits, v) && Allowed(edits, v, edit) && Edited(v, edit, v')
    ensures Grown(edits + [edit], v')
  {
    forall level | 0 <= level < NUM_LEVELS ensures AddedOnce([], edits + [edit], level) && Lists(edits + [edit], v'[level], level) {
      StillFresh(edits, v, edit, level);
      NextLists(edits, v, edit, v', level);
    }
    NextUnique(edits, v, edit, v');
    NextDownward(edits, v, edit, v');
  }

  lemma AllowedIsFresh(edits: seq<VersionEdit>, v: Version, edit: VersionEdit, level: nat)
    requires Grown(edits, v) && Allowed(edits, v, edit) && level < NUM_LEVELS
    ensures FreshNumbers(v[level], LevelState({}, []), edit.added, |edit.added|, level)
  {
    forall k, g | 0 <= k < |edit.added| && edit.added[k].0 == level && g in v[level] ensures g.number != edit.added[k].1.number {
      assert (level, edit.added[k].1) in edit.added && OnLevel(v, level, g);
      if g.number == edit.added[k].1.number {
        AddedApart(edits, v, edit, level, edit.added[k].1, level, g);
      }
    }
    forall k, l | 0 <= k < |edit.added| && 0 <= l < |edit.added| && edit.added[k].0 == level && edit.added[l].0 == level
        && edit.added[k].1.number == edit.added[l].1.number
      ensures edit.added[k].1 == edit.added[l].1
    {
      assert (level, edit.added[k].1) in edit.added && (level, edit.added[l].1) in edit.added;
    }
  }

  /** Applying the edits to a builder and saving once gives the version. */
  lemma SavedOnce(edits: seq<VersionEdit>, v: Version, level: nat)
    requires Rebuilds(edits, v) && level < NUM_LEVELS
    ensures SaveLevel([], ApplyAll(LevelState({}, []), edits, |edits|, level)) == v[level]
  {
    assert AddedOnce([], edits, level) && Lists(edits, v[level], level);
    OnceIsFresh([], edits, level);
    BuilderRefinesSequentialEdits([], edits, level);
    SaveEachMeaning([], edits, |edits|, level);
    var each := SaveEach([], edits, |edits|, level);
    forall f ensures f in each <==> f in v[level] {
      assert f in each <==> f in (iset g | g in each);
    }
    OrderedUnique(each, v[level]);
  }

  // ----- The snapshot -----

  function AddLevel(fs: seq<File>, level: nat): (r: seq<(nat, File)>)
    ensures |r| == |fs| && forall i :: 0 <= i < |fs| ==> r[i] == (level, fs[i])
  {
    seq(|fs|, i requires 0 <= i < |fs| => (level, fs[i]))
  }

  function AddLevels(v: Version, n: nat): seq<(nat, File)>
    requires n <= NUM_LEVELS
  {
    if n == 0 then [] else AddLevels(v, n - 1) + AddLevel(v[n - 1], n - 1)
  }

  /** WriteSnapshot's edit: it adds all files of a version, level by level. */
  function SnapshotEdit(v: Version): VersionEdit {
    VersionEdit({}, AddLevels(v, NUM_LEVELS))
  }

  lemma AddLevelMembers(fs: seq<File>, n: nat, level: nat, f: File)
    ensures (level, f) in AddLevel(fs, n) <==> level == n && f in fs
  {
    if f in fs {
      var i :| 0 <= i < |fs| && fs[i] == f;
      assert AddLevel(fs, n)[i] == (n, f);
    }
  }

  lemma {:induction false} AddLevelsMembers(v: Version, n: nat, level: nat, f: File)
    requires n <= NUM_LEVELS
    ensures (level, f) in AddLevels(v, n) <==> level < n && f in v[level]
  {
    if n > 0 {
      AddLevelsMembers(v, n - 1, level, f);
      AddLevelMembers(v[n - 1], n - 1, level, f);
    }
  }

  /** It rebuilds the version by itself. */
  lemma SnapshotGrows(v: Version)
    requires UniqueNumbers(v) && forall level :: 0 <= level < NUM_LEVELS ==> Ordered(v[level])
    ensures Grown([SnapshotEdit(v)], v)
    ensures forall level: nat, f :: (level, f) in SnapshotEdit(v).added <==> OnLevel(v, level, f)
  {
    var edit := SnapshotEdit(v);
    forall level: nat, f ensures (level, f) in edit.added <==> OnLevel(v, level, f) {
      AddLevelsMembers(v, NUM_LEVELS, level, f);
    }
    forall level | 0 <= level < NUM_LEVELS ensures AddedOnce([], [edit], level) && Lists([edit], v[level], level) {
      forall f ensures f in v[level] <==> f in EditAll([], [edit], 1, level) {
        assert f !in EditAll([], [edit], 0, level);
        assert f in EditAll([], [edit], 1, level) <==> (level, f) in edit.added;
      }
    }
  }
}
