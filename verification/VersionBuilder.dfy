/** VersionSet::Builder: a list of edits applied to a base version and saved once (db/version_set.cc). */
module VersionBuilder {
  import opened InternalKeys
  import opened VersionSearch

  datatype VersionEdit = VersionEdit(deleted: set<(nat, nat)>, added: seq<(nat, File)>)

  /** BySmallestKey, with file numbers breaking ties. */
  predicate BySmallest(f: File, g: File) {
    Less(f.smallest, g.smallest) || (f.smallest == g.smallest && f.number < g.number)
  }

  ghost predicate Ordered(fs: seq<File>) {
    forall i, j :: 0 <= i < j < |fs| ==> BySmallest(fs[i], fs[j])
  }

  /** What one level of the builder remembers. */
  datatype LevelState = LevelState(deleted: set<nat>, added: seq<File>)

  /** std::set insertion: in order, and a second equal element is ignored. */
  function InsertFile(fs: seq<File>, f: File): seq<File> {
    if fs == [] || BySmallest(f, fs[0]) then [f] + fs
    else if !BySmallest(fs[0], f) then fs
    else [fs[0]] + InsertFile(fs[1..], f)
  }

  /** f can join fs without meeting a different file of the same smallest key and number. */
  ghost predicate Joins(fs: seq<File>, f: File) {
    forall g :: g in fs && g.number == f.number ==> g == f
  }

  lemma {:induction false} InsertFileMembers(fs: seq<File>, f: File)
    requires Joins(fs, f)
    ensures forall g :: g in InsertFile(fs, f) <==> g == f || g in fs
  {
    if fs == [] || BySmallest(f, fs[0]) {
    } else if !BySmallest(fs[0], f) {
      assert fs[0] in fs;
    } else {
      InsertFileMembers(fs[1..], f);
    }
  }

  lemma {:induction false} InsertFileOrdered(fs: seq<File>, f: File)
    requires Ordered(fs) && Joins(fs, f)
    ensures Ordered(InsertFile(fs, f))
  {
    if fs == [] || BySmallest(f, fs[0]) || !BySmallest(fs[0], f) {
    } else {
      InsertFileOrdered(fs[1..], f);
      InsertFileMembers(fs[1..], f);
      var r := InsertFile(fs[1..], f);
      forall k | 0 <= k < |r| ensures BySmallest(fs[0], r[k]) {
        assert r[k] in r;
      }
    }
  }

  // ----- Apply -----

  function ApplyDeletes(st: LevelState, edit: VersionEdit, level: nat): LevelState {
    st.(deleted := st.deleted + set d | d in edit.deleted && d.0 == level :: d.1)
  }

  function ApplyAdds(st: LevelState, added: seq<(nat, File)>, n: nat, level: nat): LevelState
    requires n <= |added|
  {
    if n == 0 then st
    else
      var before := ApplyAdds(st, added, n - 1, level);
      var (lvl, f) := added[n - 1];
      if lvl != level then before
      else LevelState(before.deleted - {f.number}, InsertFile(before.added, f))
  }

  function ApplyEdit(st: LevelState, edit: VersionEdit, level: nat): LevelState {
    ApplyAdds(ApplyDeletes(st, edit, level), edit.added, |edit.added|, level)
  }

  ghost predicate Live(base: seq<File>, st: LevelState, f: File) {
    (f in base || f in st.added) && f.number !in st.deleted
  }

  /** The files a level would hold if it were saved now. */
  ghost function LiveFiles(base: seq<File>, st: LevelState): iset<File> {
    iset f | Live(base, st, f)
  }

  /** One edit's meaning, with no builder in between: remove the named files, then add the new ones. */
  ghost function EditFiles(before: iset<File>, edit: VersionEdit, level: nat): iset<File> {
    iset f | (f in before && (level, f.number) !in edit.deleted) || (level, f) in edit.added
  }

  /** The first n added files carry numbers new to the base, and a number names one file. */
  ghost predicate FreshNumbers(base: seq<File>, st: LevelState, added: seq<(nat, File)>, n: nat, level: nat)
    requires n <= |added|
  {
    && (forall k, g :: 0 <= k < n && added[k].0 == level && g in base ==> g.number != added[k].1.number)
    && (forall k, g :: 0 <= k < n && added[k].0 == level && g in st.added && g.number == added[k].1.number ==> g == added[k].1)
    && (forall k, l :: 0 <= k < n && 0 <= l < n && added[k].0 == level && added[l].0 == level && added[k].1.number == added[l].1.number
          ==> added[k].1 == added[l].1)
  }

  lemma {:induction false} ApplyAddsMeaning(base: seq<File>, st: LevelState, added: seq<(nat, File)>, n: nat, level: nat)
    requires n <= |added| && FreshNumbers(base, st, added, n, level)
    requires Ordered(st.added)
    ensures var r := ApplyAdds(st, added, n, level);
      && Ordered(r.added)
      && (forall f :: f in r.added <==> f in st.added || exists k :: 0 <= k < n && added[k] == (level, f))
      && (forall m :: m in r.deleted <==> m in st.deleted && !exists k :: 0 <= k < n && added[k].0 == level && added[k].1.number == m)
  {
    if n > 0 {
      ApplyAddsMeaning(base, st, added, n - 1, level);
      var before := ApplyAdds(st, added, n - 1, level);
      if added[n - 1].0 == level {
        assert Joins(before.added, added[n - 1].1);
        InsertFileMembers(before.added, added[n - 1].1);
        InsertFileOrdered(before.added, added[n - 1].1);
      }
    }
  }

  /** Applying an edit to the builder has exactly the effect of the edit on the level's files. */
  lemma ApplyEditMeaning(base: seq<File>, st: LevelState, edit: VersionEdit, level: nat)
    requires Ordered(st.added)
    requires FreshNumbers(base, st, edit.added, |edit.added|, level)
    ensures Ordered(ApplyEdit(st, edit, level).added)
    ensures LiveFiles(base, ApplyEdit(st, edit, level)) == EditFiles(LiveFiles(base, st), edit, level)
  {
    var st' := ApplyDeletes(st, edit, level);
    ApplyAddsMeaning(base, st', edit.added, |edit.added|, level);
    var r := ApplyEdit(st, edit, level);
    forall f ensures f in LiveFiles(base, r) <==> f in EditFiles(LiveFiles(base, st), edit, level) {
      assert f.number in st'.deleted <==> f.number in st.deleted || (level, f.number) in edit.deleted;
      if (level, f) in edit.added {
        var k :| 0 <= k < |edit.added| && edit.added[k] == (level, f);
      } else if k :| 0 <= k < |edit.added| && edit.added[k].0 == level && edit.added[k].1.number == f.number {
        assert f !in base;
      }
    }
  }

  // ----- SaveTo -----

  /** The merge of base files from i on with added files from j on, dropping the deleted ones. */
  function SaveFrom(base: seq<File>, i: nat, st: LevelState, j: nat): seq<File>
    requires i <= |base| && j <= |st.added|
    decreases |base| - i + |st.added| - j
  {
    if i < |base| && (j == |st.added| || !BySmallest(st.added[j], base[i])) then
      (if base[i].number in st.deleted then [] else [base[i]]) + SaveFrom(base, i + 1, st, j)
    else if j < |st.added| then
      (if st.added[j].number in st.deleted then [] else [st.added[j]]) + SaveFrom(base, i, st, j + 1)
    else []
  }

  function SaveLevel(base: seq<File>, st: LevelState): seq<File> {
    SaveFrom(base, 0, st, 0)
  }

  lemma {:induction false} SaveFromMembers(base: seq<File>, i: nat, st: LevelState, j: nat)
    requires i <= |base| && j <= |st.added|
    ensures forall f :: f in SaveFrom(base, i, st, j) <==>
      f.number !in st.deleted && ((exists k :: i <= k < |base| && base[k] == f) || exists k :: j <= k < |st.added| && st.added[k] == f)
    decreases |base| - i + |st.added| - j
  {
    if i < |base| && (j == |st.added| || !BySmallest(st.added[j], base[i])) {
      SaveFromMembers(base, i + 1, st, j);
    } else if j < |st.added| {
      SaveFromMembers(base, i, st, j + 1);
    }
  }

  /** Base and added files are ordered, and no number is in both. */
  ghost predicate Mergeable(base: seq<File>, st: LevelState) {
    && Ordered(base) && Ordered(st.added)
    && forall i, j :: 0 <= i < |base| && 0 <= j < |st.added| ==> base[i].number != st.added[j].number
  }

  lemma PrependOrdered(f: File, fs: seq<File>)
    requires Ordered(fs) && forall g :: g in fs ==> BySmallest(f, g)
    ensures Ordered([f] + fs)
  {
    forall k | 0 <= k < |fs| ensures BySmallest(f, fs[k]) {
      assert fs[k] in fs;
    }
  }

  lemma BySmallestIsOrder(f: File, g: File, h: File)
    ensures f.number != g.number ==> BySmallest(f, g) || BySmallest(g, f)
    ensures BySmallest(f, g) && BySmallest(g, h) ==> BySmallest(f, h)
    ensures !BySmallest(f, f)
  {
  }

  lemma BaseHeadFirst(base: seq<File>, i: nat, st: LevelState, j: nat, g: File)
    requires Mergeable(base, st) && i < |base| && j <= |st.added|
    requires j == |st.added| || !BySmallest(st.added[j], base[i])
    requires g in SaveFrom(base, i + 1, st, j)
    ensures BySmallest(base[i], g)
  {
    SaveFromMembers(base, i + 1, st, j);
    if k :| j <= k < |st.added| && st.added[k] == g {
      AddedAfterHead(base, i, st, j, k);
    }
  }

  lemma AddedAfterHead(base: seq<File>, i: nat, st: LevelState, j: nat, k: nat)
    requires Mergeable(base, st) && i < |base| && j <= k < |st.added|
    requires !BySmallest(st.added[j], base[i])
    ensures BySmallest(base[i], st.added[k])
  {
    BySmallestIsOrder(base[i], st.added[j], st.added[k]);
  }

  lemma AddedHeadFirst(base: seq<File>, i: nat, st: LevelState, j: nat, g: File)
    requires Mergeable(base, st) && i <= |base| && j < |st.added|
    requires i == |base| || BySmallest(st.added[j], base[i])
    requires g in SaveFrom(base, i, st, j + 1)
    ensures BySmallest(st.added[j], g)
  {
    SaveFromMembers(base, i, st, j + 1);
  }

  lemma {:induction false} SaveFromOrdered(base: seq<File>, i: nat, st: LevelState, j: nat)
    requires i <= |base| && j <= |st.added| && Mergeable(base, st)
    ensures Ordered(SaveFrom(base, i, st, j))
    decreases |base| - i + |st.added| - j
  {
    if i < |base| && (j == |st.added| || !BySmallest(st.added[j], base[i])) {
      SaveFromOrdered(base, i + 1, st, j);
      forall g | g in SaveFrom(base, i + 1, st, j) ensures BySmallest(base[i], g) {
        BaseHeadFirst(base, i, st, j, g);
      }
      PrependOrdered(base[i], SaveFrom(base, i + 1, st, j));
    } else if j < |st.added| {
      SaveFromOrdered(base, i, st, j + 1);
      forall g | g in SaveFrom(base, i, st, j + 1) ensures BySmallest(st.added[j], g) {
        AddedHeadFirst(base, i, st, j, g);
      }
      PrependOrdered(st.added[j], SaveFrom(base, i, st, j + 1));
    }
  }

  /** A saved level lists exactly its live files, in order and once each. */
  lemma SaveLevelMeaning(base: seq<File>, st: LevelState)
    requires Mergeable(base, st)
    ensures Ordered(SaveLevel(base, st))
    ensures forall f :: f in SaveLevel(base, st) <==> Live(base, st, f)
  {
    SaveFromOrdered(base, 0, st, 0);
    SaveFromMembers(base, 0, st, 0);
  }

  lemma HasMember(fs: seq<File>)
    requires fs != []
    ensures exists f :: f in fs
  {
    assert fs[0] in fs;
  }

  /** An ordered list is determined by its members. */
  lemma {:induction false} OrderedUnique(fs: seq<File>, gs: seq<File>)
    requires Ordered(fs) && Ordered(gs)
    requires forall f :: f in fs <==> f in gs
    ensures fs == gs
  {
    if fs == [] {
      if gs != [] {
        HasMember(gs);
      }
    } else {
      assert fs[0] in gs && gs != [] && gs[0] in fs;
      var i :| 0 <= i < |gs| && gs[i] == fs[0];
      var j :| 0 <= j < |fs| && fs[j] == gs[0];
      assert fs[0] == gs[0];
      forall f ensures f in fs[1..] <==> f in gs[1..] {
        assert f in fs[1..] ==> f != fs[0] && f in fs;
        assert f in gs[1..] ==> f != gs[0] && f in gs;
      }
      OrderedUnique(fs[1..], gs[1..]);
    }
  }

  // ----- The builder, and its refinement of edits applied one at a time -----

  class Builder {
    const base: Version
    const levels: array<LevelState>

    ghost predicate Valid()
      reads levels
    {
      levels.Length == NUM_LEVELS
    }

    constructor (base: Version)
      ensures Valid() && fresh(levels) && this.base == base
      ensures forall i :: 0 <= i < NUM_LEVELS ==> levels[i] == LevelState({}, [])
    {
      this.base := base;
      levels := new LevelState[NUM_LEVELS](_ => LevelState({}, []));
    }

    /** Deletions first, then additions; an addition takes its number off the deleted set. */
    method Apply(edit: VersionEdit)
      requires Valid()
      requires forall k :: 0 <= k < |edit.added| ==> edit.added[k].0 < NUM_LEVELS
      modifies levels
      ensures Valid()
      ensures forall i :: 0 <= i < NUM_LEVELS ==> levels[i] == ApplyEdit(old(levels[i]), edit, i)
    {
      for level := 0 to NUM_LEVELS
        invariant Valid()
        invariant forall i :: 0 <= i < level ==> levels[i] == ApplyDeletes(old(levels[i]), edit, i)
        invariant forall i :: level <= i < NUM_LEVELS ==> levels[i] == old(levels[i])
      {
        levels[level] := ApplyDeletes(levels[level], edit, level);
      }
      for n := 0 to |edit.added|
        invariant Valid()
        invariant forall i :: 0 <= i < NUM_LEVELS ==> levels[i] == ApplyAdds(ApplyDeletes(old(levels[i]), edit, i), edit.added, n, i)
      {
        var (level, f) := edit.added[n];
        var st := levels[level];
        levels[level] := LevelState(st.deleted - {f.number}, InsertFile(st.added, f));
      }
    }

    /** The merge of base and added files, level by level, through MaybeAddFile. */
    method SaveTo() returns (v: Version)
      requires Valid()
      ensures forall i :: 0 <= i < NUM_LEVELS ==> v[i] == SaveLevel(base[i], levels[i])
    {
      v := [[], [], [], [], [], [], []];
      for level := 0 to NUM_LEVELS
        invariant Valid()
        invariant forall i :: 0 <= i < level ==> v[i] == SaveLevel(base[i], levels[i])
      {
        var files := SaveOneLevel(base[level], levels[level]);
        v := v[level := files];
      }
    }
  }

  method SaveOneLevel(base: seq<File>, st: LevelState) returns (files: seq<File>)
    ensures files == SaveLevel(base, st)
  {
    files := [];
    var baseIter := 0;
    for addedIter := 0 to |st.added|
      invariant baseIter <= |base|
      invariant baseIter < |base| && addedIter > 0 ==> BySmallest(st.added[addedIter - 1], base[baseIter])
      invariant files + SaveFrom(base, baseIter, st, addedIter) == SaveLevel(base, st)
    {
      while baseIter < |base| && !BySmallest(st.added[addedIter], base[baseIter])
        invariant baseIter <= |base|
        invariant files + SaveFrom(base, baseIter, st, addedIter) == SaveLevel(base, st)
      {
        files := MaybeAddFile(files, st, base[baseIter]);
        baseIter := baseIter + 1;
      }
      files := MaybeAddFile(files, st, st.added[addedIter]);
    }
    while baseIter < |base|
      invariant baseIter <= |base|
      invariant files + SaveFrom(base, baseIter, st, |st.added|) == SaveLevel(base, st)
    {
      files := MaybeAddFile(files, st, base[baseIter]);
      baseIter := baseIter + 1;
    }
  }

  function MaybeAddFile(files: seq<File>, st: LevelState, f: File): (r: seq<File>)
    ensures forall rest :: r + rest == files + ((if f.number in st.deleted then [] else [f]) + rest)
  {
    if f.number in st.deleted then files else files + [f]
  }

  function ApplyAll(st: LevelState, edits: seq<VersionEdit>, n: nat, level: nat): LevelState
    requires n <= |edits|
  {
    if n == 0 then st else ApplyEdit(ApplyAll(st, edits, n - 1, level), edits[n - 1], level)
  }

  /** Build and save after every single edit. */
  function SaveEach(base: seq<File>, edits: seq<VersionEdit>, n: nat, level: nat): seq<File>
    requires n <= |edits|
  {
    if n == 0 then base
    else SaveLevel(SaveEach(base, edits, n - 1, level), ApplyEdit(LevelState({}, []), edits[n - 1], level))
  }

  /** The k-th edit adds the file f to the level. */
  ghost predicate AddsAt(edits: seq<VersionEdit>, k: nat, level: nat, f: File) {
    k < |edits| && (level, f) in edits[k].added
  }

  /** Every number added to the level is new to the base, and always names the same file. */
  ghost predicate NewToBase(base: seq<File>, edits: seq<VersionEdit>, level: nat) {
    && (forall k, f, g :: AddsAt(edits, k, level, f) && g in base ==> g.number != f.number)
    && (forall k, l, f, g :: AddsAt(edits, k, level, f) && AddsAt(edits, l, level, g) && f.number == g.number ==> f == g)
  }

  /** What the level holds after n edits, as a set: the meaning both ways of building share. */
  ghost function EditAll(base: seq<File>, edits: seq<VersionEdit>, n: nat, level: nat): iset<File>
    requires n <= |edits|
  {
    if n == 0 then iset f | f in base
    else EditFiles(EditAll(base, edits, n - 1, level), edits[n - 1], level)
  }

  /** A file is added only where it is not; it may be added again once it has been deleted. */
  ghost predicate NotThere(base: seq<File>, edits: seq<VersionEdit>, level: nat, n: nat)
    requires n <= |edits|
  {
    forall k: nat, f :: k < n && AddsAt(edits, k, level, f) ==> f !in EditAll(base, edits, k, level)
  }

  ghost predicate FreshEdits(base: seq<File>, edits: seq<VersionEdit>, level: nat) {
    NewToBase(base, edits, level) && NotThere(base, edits, level, |edits|)
  }

  /** No number is used twice at all. */
  ghost predicate AddedOnce(base: seq<File>, edits: seq<VersionEdit>, level: nat) {
    && (forall k, f, g :: AddsAt(edits, k, level, f) && g in base ==> g.number != f.number)
    && (forall k, l, f, g :: AddsAt(edits, k, level, f) && AddsAt(edits, l, level, g) && f.number == g.number ==> k == l && f == g)
  }

  lemma OnceIsFresh(base: seq<File>, edits: seq<VersionEdit>, level: nat)
    requires AddedOnce(base, edits, level)
    ensures FreshEdits(base, edits, level)
  {
    forall k: nat, f | k < |edits| && AddsAt(edits, k, level, f) ensures f !in EditAll(base, edits, k, level) {
      if f in EditAll(base, edits, k, level) {
        EditAllSource(base, edits, k, level, f);
      }
    }
  }

  /** After n edits, a file is live only if it was in the base or was added by one of them. */
  lemma {:induction false} EditAllSource(base: seq<File>, edits: seq<VersionEdit>, n: nat, level: nat, f: File)
    requires n <= |edits| && f in EditAll(base, edits, n, level)
    ensures f in base || exists k :: 0 <= k < n && AddsAt(edits, k, level, f)
  {
    if n > 0 {
      if (level, f) in edits[n - 1].added {
        assert AddsAt(edits, n - 1, level, f);
      } else {
        EditAllSource(base, edits, n - 1, level, f);
      }
    }
  }

  /** The builder after n edits: ordered, apart from the base, and live exactly on what the edits mean. */
  lemma {:induction false} ApplyAllMeaning(base: seq<File>, edits: seq<VersionEdit>, n: nat, level: nat)
    requires n <= |edits| && NewToBase(base, edits, level)
    ensures var st := ApplyAll(LevelState({}, []), edits, n, level);
      && Ordered(st.added)
      && (forall f :: f in st.added ==> exists k :: 0 <= k < n && AddsAt(edits, k, level, f))
      && LiveFiles(base, st) == EditAll(base, edits, n, level)
  {
    if n > 0 {
      ApplyAllMeaning(base, edits, n - 1, level);
      var st := ApplyAll(LevelState({}, []), edits, n - 1, level);
      var edit := edits[n - 1];
      forall k | 0 <= k < |edit.added| && edit.added[k].0 == level ensures AddsAt(edits, n - 1, level, edit.added[k].1) {
        assert edit.added[k] in edit.added;
      }
      assert FreshNumbers(base, st, edit.added, |edit.added|, level);
      ApplyEditMeaning(base, st, edit, level);
      AddedSource(base, st, edit, level);
    } else {
      assert LiveFiles(base, LevelState({}, [])) == iset f | f in base;
    }
  }

  lemma AddedSource(base: seq<File>, st: LevelState, edit: VersionEdit, level: nat)
    requires Ordered(st.added) && FreshNumbers(base, st, edit.added, |edit.added|, level)
    ensures forall f :: f in ApplyEdit(st, edit, level).added ==> f in st.added || (level, f) in edit.added
  {
    var st' := ApplyDeletes(st, edit, level);
    ApplyAddsMeaning(base, st', edit.added, |edit.added|, level);
  }

  /** Saving after each edit also lists exactly what the edits mean. */
  lemma {:induction false} SaveEachMeaning(base: seq<File>, edits: seq<VersionEdit>, n: nat, level: nat)
    requires n <= |edits| && Ordered(base) && NewToBase(base, edits, level) && NotThere(base, edits, level, n)
    ensures Ordered(SaveEach(base, edits, n, level))
    ensures (iset f | f in SaveEach(base, edits, n, level)) == EditAll(base, edits, n, level)
  {
    if n > 0 {
      SaveEachMeaning(base, edits, n - 1, level);
      var before, edit := SaveEach(base, edits, n - 1, level), edits[n - 1];
      forall k | 0 <= k < |edit.added| && edit.added[k].0 == level ensures AddsAt(edits, n - 1, level, edit.added[k].1) {
        assert edit.added[k] in edit.added;
      }
      forall k, g | 0 <= k < |edit.added| && edit.added[k].0 == level && g in before ensures g.number != edit.added[k].1.number {
        assert g in (iset f | f in before);
        EditAllSource(base, edits, n - 1, level, g);
        assert edit.added[k].1 !in EditAll(base, edits, n - 1, level);
      }
      var empty := LevelState({}, []);
      ApplyEditMeaning(before, empty, edit, level);
      AddedSource(before, empty, edit, level);
      var st := ApplyEdit(empty, edit, level);
      forall i, j | 0 <= i < |before| && 0 <= j < |st.added| ensures before[i].number != st.added[j].number {
        assert st.added[j] in st.added && before[i] in before;
      }
      SaveLevelMeaning(before, st);
      assert LiveFiles(before, empty) == iset f | f in before;
      assert (iset f | f in SaveLevel(before, st)) == LiveFiles(before, st);
    }
  }

  lemma AddedApartFromBase(base: seq<File>, edits: seq<VersionEdit>, n: nat, level: nat)
    requires n <= |edits| && Ordered(base) && NewToBase(base, edits, level)
    ensures Mergeable(base, ApplyAll(LevelState({}, []), edits, n, level))
  {
    ApplyAllMeaning(base, edits, n, level);
    var st := ApplyAll(LevelState({}, []), edits, n, level);
    forall i, j | 0 <= i < |base| && 0 <= j < |st.added| ensures base[i].number != st.added[j].number {
      assert st.added[j] in st.added && base[i] in base;
    }
  }

  /** After n edits, saving once and saving after each give the same. */
  lemma SavesAgree(base: seq<File>, edits: seq<VersionEdit>, n: nat, level: nat)
    requires n <= |edits| && Ordered(base) && NewToBase(base, edits, level) && NotThere(base, edits, level, n)
    ensures SaveLevel(base, ApplyAll(LevelState({}, []), edits, n, level)) == SaveEach(base, edits, n, level)
  {
    var st := ApplyAll(LevelState({}, []), edits, n, level);
    ApplyAllMeaning(base, edits, n, level);
    SaveEachMeaning(base, edits, n, level);
    AddedApartFromBase(base, edits, n, level);
    SaveLevelMeaning(base, st);
    var once, each := SaveLevel(base, st), SaveEach(base, edits, n, level);
    forall f ensures f in once <==> f in each {
      assert f in once <==> f in LiveFiles(base, st);
      assert f in each <==> f in (iset g | g in each);
    }
    OrderedUnique(once, each);
  }

  /** Applying a list of edits and saving once gives the same sorted files as saving after each. */
  lemma BuilderRefinesSequentialEdits(base: seq<File>, edits: seq<VersionEdit>, level: nat)
    requires Ordered(base) && FreshEdits(base, edits, level)
    ensures SaveLevel(base, ApplyAll(LevelState({}, []), edits, |edits|, level)) == SaveEach(base, edits, |edits|, level)
  {
    SavesAgree(base, edits, |edits|, level);
  }

  // ----- Exactly when the two agree -----

  /** How often f is listed from index i on. */
  function Times(fs: seq<File>, i: nat, f: File): nat
    requires i <= |fs|
    decreases |fs| - i
  {
    if i == |fs| then 0 else (if fs[i] == f then 1 else 0) + Times(fs, i + 1, f)
  }

  lemma {:induction false} TimesPrepend(g: File, fs: seq<File>, i: nat, f: File)
    requires i <= |fs|
    ensures Times([g] + fs, i + 1, f) == Times(fs, i, f)
    decreases |fs| - i
  {
    if i < |fs| {
      TimesPrepend(g, fs, i + 1, f);
    }
  }

  /** The merge lists a file as often as both of its sources do. */
  lemma {:induction false} SaveFromTimes(base: seq<File>, i: nat, st: LevelState, j: nat, f: File)
    requires i <= |base| && j <= |st.added| && f.number !in st.deleted
    ensures Times(SaveFrom(base, i, st, j), 0, f) == Times(base, i, f) + Times(st.added, j, f)
    decreases |base| - i + |st.added| - j
  {
    if i < |base| && (j == |st.added| || !BySmallest(st.added[j], base[i])) {
      SaveFromTimes(base, i + 1, st, j, f);
      HeadTimes(base[i], st, SaveFrom(base, i + 1, st, j), f);
    } else if j < |st.added| {
      SaveFromTimes(base, i, st, j + 1, f);
      HeadTimes(st.added[j], st, SaveFrom(base, i, st, j + 1), f);
    }
  }

  lemma HeadTimes(g: File, st: LevelState, rest: seq<File>, f: File)
    requires f.number !in st.deleted
    ensures Times((if g.number in st.deleted then [] else [g]) + rest, 0, f) == (if g == f then 1 else 0) + Times(rest, 0, f)
  {
    assert [] + rest == rest;
    TimesPrepend(g, rest, 0, f);
  }

  lemma {:induction false} Listed(fs: seq<File>, i: nat, k: nat)
    requires i <= k < |fs|
    ensures Times(fs, i, fs[k]) > 0
    decreases k - i
  {
    if i < k {
      Listed(fs, i + 1, k);
    }
  }

  lemma {:induction false} OrderedTimes(fs: seq<File>, i: nat, f: File)
    requires i <= |fs| && Ordered(fs)
    ensures Times(fs, i, f) <= 1
    ensures Times(fs, i, f) == 1 ==> exists k :: i <= k < |fs| && fs[k] == f
    decreases |fs| - i
  {
    if i < |fs| {
      OrderedTimes(fs, i + 1, f);
      BySmallestIsOrder(f, f, f);
    }
  }

  /** Adding a file where it already is makes the two ways differ: saving after each edit lists it twice. */
  lemma AddedTwiceDiffers(base: seq<File>, edits: seq<VersionEdit>, k: nat, level: nat, f: File)
    requires k < |edits| && Ordered(base) && NewToBase(base, edits, level) && NotThere(base, edits, level, k)
    requires AddsAt(edits, k, level, f) && f in EditAll(base, edits, k, level)
    ensures SaveLevel(base, ApplyAll(LevelState({}, []), edits, k + 1, level)) != SaveEach(base, edits, k + 1, level)
  {
    AddedApartFromBase(base, edits, k + 1, level);
    SaveLevelMeaning(base, ApplyAll(LevelState({}, []), edits, k + 1, level));
    OrderedTimes(SaveLevel(base, ApplyAll(LevelState({}, []), edits, k + 1, level)), 0, f);
    SaveEachMeaning(base, edits, k, level);
    var before := SaveEach(base, edits, k, level);
    assert f in (iset g | g in before);
    SavedTwice(before, edits, k, level, f);
  }

  lemma SavedTwice(before: seq<File>, edits: seq<VersionEdit>, k: nat, level: nat, f: File)
    requires k < |edits| && NewToBase([], edits, level) && AddsAt(edits, k, level, f) && f in before
    ensures Times(SaveLevel(before, ApplyEdit(LevelState({}, []), edits[k], level)), 0, f) >= 2
  {
    var edit, empty := edits[k], LevelState({}, []);
    var st := ApplyEdit(empty, edit, level);
    forall i | 0 <= i < |edit.added| && edit.added[i].0 == level ensures AddsAt(edits, k, level, edit.added[i].1) {
      assert edit.added[i] in edit.added;
    }
    ApplyAddsMeaning([], ApplyDeletes(empty, edit, level), edit.added, |edit.added|, level);
    var a :| 0 <= a < |edit.added| && edit.added[a] == (level, f);
    assert f in st.added && f.number !in st.deleted;
    var i :| 0 <= i < |before| && before[i] == f;
    var j :| 0 <= j < |st.added| && st.added[j] == f;
    Listed(before, 0, i);
    Listed(st.added, 0, j);
    SaveFromTimes(before, 0, st, 0, f);
  }

  /** For numbers that are new to the base and always name the same file: saving once agrees with saving
      after each edit, however many have been applied, if and only if no file is added where it is. */
  lemma SavesAgreeIff(base: seq<File>, edits: seq<VersionEdit>, level: nat)
    requires Ordered(base) && NewToBase(base, edits, level)
    ensures NotThere(base, edits, level, |edits|) <==> forall n: nat :: n <= |edits| ==>
      SaveLevel(base, ApplyAll(LevelState({}, []), edits, n, level)) == SaveEach(base, edits, n, level)
  {
    if NotThere(base, edits, level, |edits|) {
      forall n: nat | n <= |edits| ensures SaveLevel(base, ApplyAll(LevelState({}, []), edits, n, level)) == SaveEach(base, edits, n, level) {
        SavesAgree(base, edits, n, level);
      }
    } else {
      var k, f := FirstAddedTwice(base, edits, level, |edits|);
      AddedTwiceDiffers(base, edits, k, level, f);
    }
  }

  lemma {:induction false} FirstAddedTwice(base: seq<File>, edits: seq<VersionEdit>, level: nat, n: nat) returns (k: nat, f: File)
    requires n <= |edits| && !NotThere(base, edits, level, n)
    ensures k < n && NotThere(base, edits, level, k) && AddsAt(edits, k, level, f) && f in EditAll(base, edits, k, level)
  {
    k, f :| k < n && AddsAt(edits, k, level, f) && f in EditAll(base, edits, k, level);
    if !NotThere(base, edits, level, k) {
      k, f := FirstAddedTwice(base, edits, level, k);
    }
  }

  // ----- Inputs on which the two differ -----

  const KEY_ONE := InternalKey(1.0, 1, Value)
  const KEY_TWO := InternalKey(2.0, 2, Value)
  const SEVEN := File(7, 1, KEY_ONE, KEY_ONE, [Entry(KEY_ONE, [])])
  const OTHER_SEVEN := File(7, 1, KEY_TWO, KEY_TWO, [Entry(KEY_TWO, [])])
  const ADD_SEVEN := VersionEdit({}, [(1, SEVEN)])
  const ADD_OTHER := VersionEdit({}, [(1, OTHER_SEVEN)])
  const DELETE_SEVEN := VersionEdit({(1, 7)}, [])

  lemma DeletedSeven(st: LevelState)
    ensures ApplyEdit(st, DELETE_SEVEN, 1) == LevelState(st.deleted + {7}, st.added)
  {
    assert (set d | d in DELETE_SEVEN.deleted && d.0 == 1 :: d.1) == {7};
  }

  lemma AddedOne(st: LevelState, f: File)
    ensures ApplyEdit(st, VersionEdit({}, [(1, f)]), 1) == LevelState(st.deleted - {f.number}, InsertFile(st.added, f))
  {
    var edit := VersionEdit({}, [(1, f)]);
    assert ApplyDeletes(st, edit, 1) == st;
    assert ApplyAdds(st, edit.added, 0, 1) == st;
  }

  lemma SavedOneOne(f: File, deleted: set<nat>)
    ensures SaveLevel([f], LevelState(deleted, [])) == if f.number in deleted then [] else [f]
    ensures SaveLevel([], LevelState(deleted, [f])) == if f.number in deleted then [] else [f]
  {
    assert SaveFrom([f], 1, LevelState(deleted, []), 0) == [];
    assert SaveFrom([], 0, LevelState(deleted, [f]), 1) == [];
  }

  /** A file of the base, deleted and added again: one save lists it twice. */
  lemma BaseFileAddedAgain()
    ensures SaveLevel([SEVEN], ApplyAll(LevelState({}, []), [DELETE_SEVEN, ADD_SEVEN], 2, 1)) == [SEVEN, SEVEN]
    ensures SaveEach([SEVEN], [DELETE_SEVEN, ADD_SEVEN], 2, 1) == [SEVEN]
  {
    var edits, empty := [DELETE_SEVEN, ADD_SEVEN], LevelState({}, []);
    DeletedSeven(empty);
    AddedOne(LevelState({7}, []), SEVEN);
    AddedOne(empty, SEVEN);
    assert ApplyAll(empty, edits, 1, 1) == ApplyEdit(ApplyAll(empty, edits, 0, 1), DELETE_SEVEN, 1) == LevelState({7}, []);
    var st := LevelState({}, [SEVEN]);
    assert {7} - {7} == {};
    assert ApplyAll(empty, edits, 2, 1) == ApplyEdit(LevelState({7}, []), ADD_SEVEN, 1) == st;
    assert SaveFrom([SEVEN], 1, st, 1) == [];
    assert SaveFrom([SEVEN], 1, st, 0) == [SEVEN];
    SavedOneOne(SEVEN, {7});
    SavedOneOne(SEVEN, {});
    assert SaveEach([SEVEN], edits, 0, 1) == [SEVEN];
    assert SaveEach([SEVEN], edits, 1, 1) == SaveLevel([SEVEN], ApplyEdit(empty, DELETE_SEVEN, 1)) == [];
    assert {} - {7} == {} && ApplyEdit(empty, ADD_SEVEN, 1) == LevelState({}, [SEVEN]);
    assert SaveEach([SEVEN], edits, 2, 1) == SaveLevel([], ApplyEdit(empty, ADD_SEVEN, 1)) == [SEVEN];
  }

  /** A number used for another file after a deletion: one save brings the first file back. */
  lemma NumberUsedAgain()
    ensures SaveLevel([], ApplyAll(LevelState({}, []), [ADD_SEVEN, DELETE_SEVEN, ADD_OTHER], 3, 1)) == [SEVEN, OTHER_SEVEN]
    ensures SaveEach([], [ADD_SEVEN, DELETE_SEVEN, ADD_OTHER], 3, 1) == [OTHER_SEVEN]
  {
    var edits, empty := [ADD_SEVEN, DELETE_SEVEN, ADD_OTHER], LevelState({}, []);
    DeletedSeven(empty);
    DeletedSeven(LevelState({}, [SEVEN]));
    AddedOne(empty, SEVEN);
    AddedOne(empty, OTHER_SEVEN);
    AddedOne(LevelState({7}, [SEVEN]), OTHER_SEVEN);
    assert ApplyAll(empty, edits, 0, 1) == empty && {} - {7} == {} && {7} - {7} == {};
    assert ApplyAll(empty, edits, 1, 1) == ApplyEdit(empty, ADD_SEVEN, 1) == LevelState({}, [SEVEN]);
    assert ApplyAll(empty, edits, 2, 1) == ApplyEdit(LevelState({}, [SEVEN]), DELETE_SEVEN, 1) == LevelState({7}, [SEVEN]);
    assert InsertFile([SEVEN][1..], OTHER_SEVEN) == [OTHER_SEVEN];
    assert InsertFile([SEVEN], OTHER_SEVEN) == [SEVEN, OTHER_SEVEN];
    var st := LevelState({}, [SEVEN, OTHER_SEVEN]);
    assert ApplyAll(empty, edits, 3, 1) == ApplyEdit(LevelState({7}, [SEVEN]), ADD_OTHER, 1) == st;
    assert SaveFrom([], 0, st, 2) == [];
    assert SaveFrom([], 0, st, 1) == [OTHER_SEVEN];
    SavedOneOne(SEVEN, {});
    SavedOneOne(SEVEN, {7});
    SavedOneOne(OTHER_SEVEN, {});
    assert SaveEach([], edits, 0, 1) == [];
    assert SaveEach([], edits, 1, 1) == SaveLevel([], ApplyEdit(empty, ADD_SEVEN, 1)) == [SEVEN];
    assert SaveEach([], edits, 2, 1) == SaveLevel([SEVEN], ApplyEdit(empty, DELETE_SEVEN, 1)) == [];
    assert SaveEach([], edits, 3, 1) == SaveLevel([], ApplyEdit(empty, ADD_OTHER, 1)) == [OTHER_SEVEN];
  }
}
