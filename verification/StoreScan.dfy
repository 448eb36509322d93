/** A scan of the whole store: the merged children of an internal iterator, and what a user-level
    iterator over them walks (db/db_impl.cc, db/version_set.cc). */
module StoreScan {
  import opened InternalKeys
  import opened VersionSearch
  import opened CompactionWork
  import opened VersionEdits
  import opened SortedRuns
  import opened Engine
  import opened DbIter
  import TwoLevel

  // ----- One level as a two-level iterator -----

  /** LevelFileNumIterator: one index entry a file, keyed by its largest key. */
  ghost predicate IndexesLevel(fs: seq<File>, index: seq<Entry>, blocks: TwoLevel.Blocks) {
    && |index| == |fs|
    && forall i :: 0 <= i < |fs| ==> index[i].key == fs[i].largest && index[i].value in blocks && blocks[index[i].value] == fs[i].table
  }

  lemma {:induction false} ConcatIsFlatten(fs: seq<File>, index: seq<Entry>, blocks: TwoLevel.Blocks, n: nat)
    requires IndexesLevel(fs, index, blocks) && n <= |fs|
    ensures TwoLevel.Concat(index, blocks, n) == FlattenUpTo(fs, n)
  {
    if n > 0 {
      ConcatIsFlatten(fs, index, blocks, n - 1);
    }
  }

  /** NewConcatenatingIterator: for a sorted level, the two-level iterator runs over all its entries
      and its seeks are sound. */
  lemma LevelIterator(fs: seq<File>, index: seq<Entry>, blocks: TwoLevel.Blocks)
    requires ValidFiles(fs) && Disjoint(fs) && IndexesLevel(fs, index, blocks)
    ensures TwoLevel.Separates(index, blocks) && TwoLevel.Concat(index, blocks, |index|) == Flatten(fs)
  {
    ConcatIsFlatten(fs, index, blocks, |fs|);
    forall i, e | 0 <= i < |index| && e in TwoLevel.BlockAt(index, blocks, i) ensures !Less(index[i].key, e.key) {
      assert fs[i] in fs;
      SortedBounds(fs[i], e);
    }
    forall i, j, e | 0 <= i < j < |index| && e in TwoLevel.BlockAt(index, blocks, j) ensures Less(index[i].key, e.key) {
      assert fs[j] in fs;
      SortedBounds(fs[j], e);
    }
  }

  lemma {:induction false} FlattenSorted(fs: seq<File>, n: nat)
    requires ValidFiles(fs) && Disjoint(fs) && n <= |fs|
    ensures Sorted(FlattenUpTo(fs, n))
  {
    if n > 0 {
      FlattenSorted(fs, n - 1);
      FlattenMembers(fs, n - 1);
      var a, b := FlattenUpTo(fs, n - 1), fs[n - 1].table;
      assert fs[n - 1] in fs;
      forall x, y | x in a && y in b ensures Before(x.key, y.key) {
        var k :| 0 <= k < n - 1 && x in fs[k].table;
        assert fs[k] in fs;
        SortedBounds(fs[k], x);
        SortedBounds(fs[n - 1], y);
      }
      AppendSorted(a, b);
    }
  }

  lemma AppendSorted(a: seq<Entry>, b: seq<Entry>)
    requires Sorted(a) && Sorted(b) && forall x, y :: x in a && y in b ==> Before(x.key, y.key)
    ensures Sorted(a + b)
  {
    forall i, j | 0 <= i < j < |a + b| ensures Before((a + b)[i].key, (a + b)[j].key) {
      if i < |a| <= j {
        assert a[i] in a && b[j - |a|] in b;
      }
    }
  }

  // ----- The children of an internal iterator -----

  /** Child number i: the memtable, the immutable one, the level-0 tables, then one run a level. */
  function Children(s: State): seq<seq<Entry>> {
    [s.mem, Frozen(s)] + seq(|s.version[0]|, i requires 0 <= i < |s.version[0]| => s.version[0][i].table)
      + seq(NUM_LEVELS - 1, i requires 0 <= i < NUM_LEVELS - 1 => Flatten(s.version[i + 1]))
  }

  /** Where child i of the version part lives: a file of its level for each of its entries. */
  ghost predicate HomeIn(s: State, i: nat, level: nat, f: File, e: Entry) {
    && 2 <= i < |Children(s)| && level < NUM_LEVELS && f in s.version[level] && e in f.table
    && if i < 2 + |s.version[0]| then level == 0 && f == s.version[0][i - 2] else level == i - 1 - |s.version[0]|
  }

  lemma ChildHome(s: State, i: nat, e: Entry) returns (level: nat, f: File)
    requires 2 <= i < |Children(s)| && e in Children(s)[i]
    ensures HomeIn(s, i, level, f, e)
  {
    if i < 2 + |s.version[0]| {
      level, f := 0, s.version[0][i - 2];
    } else {
      level := i - 1 - |s.version[0]|;
      assert Children(s)[i] == Flatten(s.version[level]);
      FlattenMembers(s.version[level], |s.version[level]|);
      var k :| 0 <= k < |s.version[level]| && e in s.version[level][k].table;
      f := s.version[level][k];
    }
  }

  lemma HomeChild(s: State, level: nat, f: File, e: Entry) returns (i: nat)
    requires level < NUM_LEVELS && f in s.version[level] && e in f.table
    ensures 2 <= i < |Children(s)| && e in Children(s)[i]
  {
    var k :| 0 <= k < |s.version[level]| && s.version[level][k] == f;
    if level == 0 {
      i := 2 + k;
    } else {
      i := level + 1 + |s.version[0]|;
      assert Children(s)[i] == Flatten(s.version[level]);
      FlattenMembers(s.version[level], |s.version[level]|);
    }
  }

  lemma VersionChildrenDistinct(s: State, i: nat, j: nat, x: Entry, y: Entry)
    requires ValidVersion(s.version) && 2 <= i < j < |Children(s)| && x in Children(s)[i] && y in Children(s)[j]
    ensures x.key.user != y.key.user || x.key.sequence != y.key.sequence
  {
    var a, f := ChildHome(s, i, x);
    var b, g := ChildHome(s, j, y);
    if x.key.user == y.key.user && x.key.sequence == y.key.sequence {
      OneHome(s.version, a, f, x, b, g, y);
    }
  }

  lemma LayerOfChild(s: State, i: nat, e: Entry)
    requires Layers(s) && i < |Children(s)| && e in Children(s)[i]
    ensures i == 0 ==> s.frozen < e.key.sequence
    ensures i == 1 ==> s.flushed < e.key.sequence <= s.frozen
    ensures i >= 2 ==> e.key.sequence <= s.flushed
    ensures e in MemoryView(s)
  {
    if i == 0 {
      assert e in TableEntries(s.mem);
    } else if i == 1 {
      assert e in TableEntries(Frozen(s));
    } else {
      var level, f := ChildHome(s, i, e);
      assert e in VersionEntries(s.version);
    }
  }

  lemma ChildrenDistinct(s: State)
    requires Layers(s) && ValidVersion(s.version)
    ensures DistinctChildren(Children(s))
  {
    forall i, j, x, y | 0 <= i < j < |Children(s)| && x in Children(s)[i] && y in Children(s)[j]
      ensures x.key.user != y.key.user || x.key.sequence != y.key.sequence
    {
      LayerOfChild(s, i, x);
      LayerOfChild(s, j, y);
      if i >= 2 {
        VersionChildrenDistinct(s, i, j, x, y);
      }
    }
  }

  lemma ChildrenSorted(s: State)
    requires Layers(s) && ValidVersion(s.version)
    ensures SortedChildren(Children(s))
  {
    forall i | 0 <= i < |Children(s)| ensures Sorted(Children(s)[i]) {
      if i >= 2 {
        if i < 2 + |s.version[0]| {
          assert s.version[0][i - 2] in s.version[0] && Children(s)[i] == s.version[0][i - 2].table;
        } else {
          var level := i - 1 - |s.version[0]|;
          assert Children(s)[i] == Flatten(s.version[level]);
          FlattenSorted(s.version[level], |s.version[level]|);
        }
      } else {
        assert Children(s)[i] == if i == 0 then s.mem else Frozen(s);
      }
    }
  }

  lemma ViewChild(s: State, e: Entry) returns (i: nat)
    requires e in MemoryView(s)
    ensures i < |Children(s)| && e in Children(s)[i]
  {
    if e in s.mem {
      i := 0;
    } else if e in Frozen(s) {
      i := 1;
    } else {
      var level, f :| 0 <= level < NUM_LEVELS && f in s.version[level] && e in f.table;
      i := HomeChild(s, level, f, e);
    }
  }

  /** The merged scan holds exactly what a reader of memory sees, in internal-key order. */
  lemma ScanContents(s: State)
    requires Layers(s) && ValidVersion(s.version)
    ensures SortedChildren(Children(s)) && DistinctChildren(Children(s))
    ensures Sorted(MergeAll(Children(s))) && TableEntries(MergeAll(Children(s))) == MemoryView(s)
  {
    ChildrenDistinct(s);
    ChildrenSorted(s);
    MergeAllMeaning(Children(s));
    var m := MergeAll(Children(s));
    forall e ensures e in TableEntries(m) <==> e in MemoryView(s) {
      if e in MemoryView(s) {
        var i := ViewChild(s, e);
      }
      if e in m {
        var i :| 0 <= i < |Children(s)| && e in Children(s)[i];
        LayerOfChild(s, i, e);
      }
    }
  }

  /** In every state whose promised reads hold, an iterator at a promised snapshot walks, in
      ascending order, exactly the user keys of the acknowledged history that have a value there. */
  lemma IteratorWalksHistory(s: State, q: SequenceNumber)
    requires Inv(s) && Reads(s) && s.floor <= q
    ensures var L := LivePairs(MergeAll(Children(s)), q);
      && (forall i, j :: 0 <= i < j < |L| ==> L[i].user < L[j].user)
      && (forall u, v :: Pair(u, v) in L <==> Read(s.history, u, q) == Found(v))
  {
    ScanContents(s);
    LivePairsMeaning(MergeAll(Children(s)), q);
    var L := LivePairs(MergeAll(Children(s)), q);
    forall u, v ensures Pair(u, v) in L <==> Read(s.history, u, q) == Found(v) {
      assert Read(MemoryView(s), u, q) == Read(s.history, u, q);
    }
  }
}
