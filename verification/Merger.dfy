/** The merging iterator: a cursor over the sorted merge of its children, whichever way it turns
    (table/merger.cc). */
module Merger {
  import opened InternalKeys
  import opened VersionSearch
  import opened SortedRuns
  import opened Cursors

  // ----- Cuts of the merge -----

  /** e lies to the left of position c of the merge. */
  ghost predicate LeftOf(m: seq<Entry>, c: nat, e: Entry)
    requires c <= |m|
  {
    c == |m| || Before(e.key, m[c].key)
  }

  /** A forward child stands at its first entry not left of c. */
  ghost predicate AfterCut(t: seq<Entry>, p: nat, m: seq<Entry>, c: nat)
    requires c <= |m|
  {
    forall j :: 0 <= j < |t| ==> (j < p <==> LeftOf(m, c, t[j]))
  }

  /** A reverse child stands at its last entry left of c, or is invalid when there is none. */
  ghost predicate BeforeCut(t: seq<Entry>, p: nat, m: seq<Entry>, c: nat)
    requires c <= |m|
  {
    forall j :: 0 <= j < |t| ==> (j <= p < |t| <==> LeftOf(m, c, t[j]))
  }

  /** m is the sorted merge of the children. */
  ghost predicate Merges(children: seq<seq<Entry>>, m: seq<Entry>) {
    && SortedChildren(children) && DistinctChildren(children) && Sorted(m)
    && forall e :: e in m <==> exists i :: 0 <= i < |children| && e in children[i]
  }

  lemma HomeOf(children: seq<seq<Entry>>, m: seq<Entry>, c: nat) returns (i: nat, j: nat)
    requires Merges(children, m) && c < |m|
    ensures i < |children| && j < |children[i]| && children[i][j] == m[c]
  {
    assert m[c] in m;
    i :| 0 <= i < |children| && m[c] in children[i];
    j :| 0 <= j < |children[i]| && children[i][j] == m[c];
  }

  lemma IndexIn(children: seq<seq<Entry>>, m: seq<Entry>, i: nat, j: nat) returns (c: nat)
    requires Merges(children, m) && i < |children| && j < |children[i]|
    ensures c < |m| && m[c] == children[i][j]
  {
    var e := children[i][j];
    assert e in children[i] && e in m;
    c :| 0 <= c < |m| && m[c] == e;
  }

  /** In the merge, left of c means at an index below c. */
  lemma LeftIsBelow(m: seq<Entry>, c: nat, k: nat)
    requires Sorted(m) && c <= |m| && k < |m|
    ensures LeftOf(m, c, m[k]) <==> k < c
  {
  }

  lemma CutStep(children: seq<seq<Entry>>, m: seq<Entry>, c: nat, i: nat, j: nat)
    requires Merges(children, m) && c < |m| && i < |children| && j < |children[i]|
    ensures LeftOf(m, c + 1, children[i][j]) <==> LeftOf(m, c, children[i][j]) || children[i][j] == m[c]
  {
    var k := IndexIn(children, m, i, j);
    LeftIsBelow(m, c, k);
    LeftIsBelow(m, c + 1, k);
    if m[k] == m[c] && k != c {
      LeftIsBelow(m, c, k);
      LeftIsBelow(m, k, c);
    }
  }

  /** The smallest current entry of forward children at cut c is entry c of the merge. */
  lemma SmallestIsAt(children: seq<seq<Entry>>, m: seq<Entry>, pos: seq<nat>, c: nat, s: nat)
    requires Merges(children, m) && c <= |m| && |pos| == |children|
    requires forall i :: 0 <= i < |children| ==> AfterCut(children[i], pos[i], m, c)
    requires s < |children| && pos[s] < |children[s]|
    requires forall i :: 0 <= i < |children| && pos[i] < |children[i]| ==> !Less(children[i][pos[i]].key, children[s][pos[s]].key)
    ensures c < |m| && children[s][pos[s]] == m[c]
  {
    var k := IndexIn(children, m, s, pos[s]);
    LeftIsBelow(m, c, k);
    var i, j := HomeOf(children, m, c);
    LeftIsBelow(m, c, c);
    assert pos[i] <= j;
    assert !LeftOf(m, c, children[i][pos[i]]);
    var l := IndexIn(children, m, i, pos[i]);
    LeftIsBelow(m, c, l);
    assert m[l] == m[c];
  }

  lemma NoneLeftAfter(children: seq<seq<Entry>>, m: seq<Entry>, pos: seq<nat>, c: nat)
    requires Merges(children, m) && c <= |m| && |pos| == |children|
    requires forall i :: 0 <= i < |children| ==> AfterCut(children[i], pos[i], m, c)
    requires forall i :: 0 <= i < |children| ==> pos[i] >= |children[i]|
    ensures c == |m|
  {
    if c < |m| {
      var i, j := HomeOf(children, m, c);
    }
  }

  /** The largest current entry of reverse children at cut c is entry c - 1 of the merge. */
  lemma LargestIsAt(children: seq<seq<Entry>>, m: seq<Entry>, pos: seq<nat>, c: nat, s: nat)
    requires Merges(children, m) && c <= |m| && |pos| == |children|
    requires forall i :: 0 <= i < |children| ==> BeforeCut(children[i], pos[i], m, c)
    requires s < |children| && pos[s] < |children[s]|
    requires forall i :: 0 <= i < |children| && pos[i] < |children[i]| ==> !Less(children[s][pos[s]].key, children[i][pos[i]].key)
    ensures c > 0 && children[s][pos[s]] == m[c - 1]
  {
    var k := IndexIn(children, m, s, pos[s]);
    LeftIsBelow(m, c, k);
    var i, j := HomeOf(children, m, c - 1);
    LeftIsBelow(m, c, c - 1);
    assert LeftOf(m, c, children[i][j]);
    assert j <= pos[i] < |children[i]|;
    var l := IndexIn(children, m, i, pos[i]);
    LeftIsBelow(m, c, l);
    assert m[l] == m[c - 1];
  }

  lemma NoneLeftBefore(children: seq<seq<Entry>>, m: seq<Entry>, pos: seq<nat>, c: nat)
    requires Merges(children, m) && c <= |m| && |pos| == |children|
    requires forall i :: 0 <= i < |children| ==> BeforeCut(children[i], pos[i], m, c)
    requires forall i :: 0 <= i < |children| ==> pos[i] >= |children[i]|
    ensures c == 0
  {
    if c > 0 {
      var i, j := HomeOf(children, m, c - 1);
    }
  }

  lemma CutIndex(children: seq<seq<Entry>>, m: seq<Entry>, c: nat, i: nat, j: nat) returns (k: nat)
    requires Merges(children, m) && c <= |m| && i < |children| && j < |children[i]|
    ensures k < |m| && m[k] == children[i][j] && (LeftOf(m, c, children[i][j]) <==> k < c)
  {
    k := IndexIn(children, m, i, j);
    LeftIsBelow(m, c, k);
  }

  lemma StartIsCut(children: seq<seq<Entry>>, m: seq<Entry>, i: nat)
    requires Merges(children, m) && i < |children|
    ensures AfterCut(children[i], 0, m, 0)
    ensures BeforeCut(children[i], if children[i] == [] then 0 else |children[i]| - 1, m, |m|)
  {
    forall j | 0 <= j < |children[i]| ensures !LeftOf(m, 0, children[i][j]) {
      var k := CutIndex(children, m, 0, i, j);
    }
  }

  ghost predicate SoughtTo(t: seq<Entry>, p: nat, target: InternalKey) {
    && p <= |t| && (forall j :: 0 <= j < p ==> Less(t[j].key, target))
    && (p < |t| ==> !Less(t[p].key, target))
  }

  lemma SoughtSplits(t: seq<Entry>, p: nat, target: InternalKey)
    requires Sorted(t) && SoughtTo(t, p, target)
    ensures forall j :: 0 <= j < |t| ==> (j < p <==> Less(t[j].key, target))
  {
    forall j | p <= j < |t| ensures !Less(t[j].key, target) {
      if j > p {
        assert Before(t[p].key, t[j].key);
      }
    }
  }

  lemma SoughtIsCut(children: seq<seq<Entry>>, m: seq<Entry>, i: nat, p: nat, c: nat, target: InternalKey)
    requires Merges(children, m) && i < |children| && SoughtTo(children[i], p, target) && SoughtTo(m, c, target)
    ensures AfterCut(children[i], p, m, c)
  {
    SoughtSplits(children[i], p, target);
    SoughtSplits(m, c, target);
    forall j | 0 <= j < |children[i]| ensures j < p <==> LeftOf(m, c, children[i][j]) {
      var k := CutIndex(children, m, c, i, j);
    }
  }

  /** No other child holds the entry the current child stands at. */
  lemma OthersDiffer(children: seq<seq<Entry>>, a: nat, i: nat, e: Entry, j: nat)
    requires DistinctChildren(children) && a < |children| && i < |children| && a != i
    requires e in children[a] && j < |children[i]|
    ensures e.key.user != children[i][j].key.user || e.key.sequence != children[i][j].key.sequence
  {
    assert children[i][j] in children[i];
    assert a < i ==> DistinctRuns(children[a], children[i]);
    assert i < a ==> DistinctRuns(children[i], children[a]);
  }

  /** A child stands past the key of the current child: the forward cut at the current entry. */
  lemma PastKeyIsCut(children: seq<seq<Entry>>, m: seq<Entry>, a: nat, i: nat, p: nat, c: nat)
    requires Merges(children, m) && c < |m| && a < |children| && i < |children| && a != i && m[c] in children[a]
    requires forall j :: 0 <= j < |children[i]| ==> (j < p <==> !Less(m[c].key, children[i][j].key))
    ensures AfterCut(children[i], p, m, c)
  {
    forall j | 0 <= j < |children[i]| ensures j < p <==> LeftOf(m, c, children[i][j]) {
      OthersDiffer(children, a, i, m[c], j);
    }
  }

  lemma BeforeKeyIsCut(children: seq<seq<Entry>>, m: seq<Entry>, a: nat, i: nat, p: nat, c: nat)
    requires Merges(children, m) && c < |m| && a < |children| && i < |children| && a != i && m[c] in children[a]
    requires forall j :: 0 <= j < |children[i]| ==> (j <= p < |children[i]| <==> Less(children[i][j].key, m[c].key))
    ensures BeforeCut(children[i], p, m, c + 1)
  {
    forall j | 0 <= j < |children[i]| ensures j <= p < |children[i]| <==> LeftOf(m, c + 1, children[i][j]) {
      OthersDiffer(children, a, i, m[c], j);
      CutStep(children, m, c, i, j);
    }
  }

  lemma CurrentIsCut(children: seq<seq<Entry>>, m: seq<Entry>, a: nat, p: nat, c: nat)
    requires Merges(children, m) && c < |m| && a < |children| && p < |children[a]| && children[a][p] == m[c]
    ensures AfterCut(children[a], p, m, c) && BeforeCut(children[a], p, m, c + 1)
    ensures AfterCut(children[a], p + 1, m, c + 1)
    ensures BeforeCut(children[a], if p == 0 then |children[a]| else p - 1, m, c)
  {
    forall j | 0 <= j < |children[a]|
      ensures j < p <==> LeftOf(m, c, children[a][j])
      ensures j <= p <==> LeftOf(m, c + 1, children[a][j])
    {
      CutStep(children, m, c, a, j);
    }
  }

  /** When the current child has left entry c, the other children's cut moves past it too. */
  lemma OtherCutMoves(children: seq<seq<Entry>>, m: seq<Entry>, a: nat, i: nat, p: nat, c: nat)
    requires Merges(children, m) && c < |m| && a < |children| && i < |children| && a != i && m[c] in children[a]
    ensures AfterCut(children[i], p, m, c) <==> AfterCut(children[i], p, m, c + 1)
    ensures BeforeCut(children[i], p, m, c) <==> BeforeCut(children[i], p, m, c + 1)
  {
    forall j | 0 <= j < |children[i]| ensures LeftOf(m, c, children[i][j]) <==> LeftOf(m, c + 1, children[i][j]) {
      OthersDiffer(children, a, i, m[c], j);
      CutStep(children, m, c, i, j);
    }
  }

  /** Positions a child after `key`: the forward switch. */
  method PositionAfter(child: Cursor, key: InternalKey)
    requires Sorted(child.entries)
    modifies child
    ensures forall j :: 0 <= j < |child.entries| ==> (j < child.pos <==> !Less(key, child.entries[j].key))
  {
    ghost var t := child.entries;
    child.Seek(key);
    SoughtSplits(t, child.pos, key);
    forall i, j | 0 <= i < j < |t| && !Less(t[i].key, key) ensures Less(key, t[j].key) {
      assert Before(t[i].key, t[j].key);
    }
    if child.Valid() && Compare(key, child.Current().key) == 0 {
      child.Next();
    }
  }

  /** Positions a child before `key`: the reverse switch. */
  method PositionBefore(child: Cursor, key: InternalKey)
    requires Sorted(child.entries)
    modifies child
    ensures forall j :: 0 <= j < |child.entries| ==> (j <= child.pos < |child.entries| <==> Less(child.entries[j].key, key))
  {
    child.Seek(key);
    SoughtSplits(child.entries, child.pos, key);
    if child.Valid() {
      child.Prev();
    } else {
      child.SeekToLast();
    }
  }

  // ----- The iterator -----

  class MergingIterator {
    const children: seq<Cursor>
    var current: Option<nat>
    var direction: Direction
    /** The position in the merge. */
    ghost var at: nat

    constructor (children: seq<Cursor>)
      requires forall i, j :: 0 <= i < j < |children| ==> children[i] != children[j]
      requires SortedChildren(TablesOf(children)) && DistinctChildren(TablesOf(children))
      ensures this.children == children && Inv() && !Valid()
    {
      this.children := children;
      current, direction, at := None, Forward, 0;
      new;
      MergeAllMeaning(TablesOf(children));
    }

    static function TablesOf(cs: seq<Cursor>): (r: seq<seq<Entry>>)
      ensures |r| == |cs| && forall i :: 0 <= i < |cs| ==> r[i] == cs[i].entries
    {
      seq(|cs|, i requires 0 <= i < |cs| => cs[i].entries)
    }

    function Tables(): seq<seq<Entry>> {
      TablesOf(children)
    }

    /** What this iterator is a cursor over. */
    ghost function Entries(): seq<Entry> {
      MergeAll(Tables())
    }

    predicate Valid()
      reads this`current
    {
      current.Some?
    }

    ghost function Pos(): nat
      reads this`current, this`at
    {
      if Valid() then at else |Entries()|
    }

    ghost predicate ChildAfter(i: nat, c: nat)
      requires i < |children| && c <= |Entries()|
      reads children[i]
    {
      AfterCut(children[i].entries, children[i].pos, Entries(), c)
    }

    ghost predicate ChildBefore(i: nat, c: nat)
      requires i < |children| && c <= |Entries()|
      reads children[i]
    {
      BeforeCut(children[i].entries, children[i].pos, Entries(), c)
    }

    ghost predicate AllAfter(c: nat)
      requires c <= |Entries()|
      reads children
    {
      forall i :: 0 <= i < |children| ==> ChildAfter(i, c)
    }

    ghost predicate AllBefore(c: nat)
      requires c <= |Entries()|
      reads children
    {
      forall i :: 0 <= i < |children| ==> ChildBefore(i, c)
    }

    /** Distinct child objects over sorted runs with no internal key in common. */
    ghost predicate GoodChildren() {
      && (forall i, j :: 0 <= i < j < |children| ==> children[i] != children[j])
      && Merges(Tables(), Entries())
    }

    ghost predicate Inv()
      reads this, children
    {
      && GoodChildren()
      && (Valid() ==>
            && at < |Entries()| && current.value < |children| && children[current.value].Valid()
            && children[current.value].Current() == Entries()[at]
            && match direction
               case Forward => AllAfter(at)
               case Reverse => AllBefore(at + 1))
    }

    /** key() and value(), which read the current child. */
    function Current(): Entry
      requires Inv() && Valid()
      reads this, children
      ensures Pos() < |Entries()| && Current() == Entries()[Pos()]
    {
      children[current.value].Current()
    }

    ghost function Positions(): (r: seq<nat>)
      reads children
      ensures |r| == |children| && forall i :: 0 <= i < |children| ==> r[i] == children[i].pos
    {
      seq(|children|, i requires 0 <= i < |children| reads children => children[i].pos)
    }

    /** The valid child with the smallest current key, the first of equals. */
    method SmallestChild() returns (smallest: Option<nat>)
      ensures smallest.None? ==> forall j :: 0 <= j < |children| ==> !children[j].Valid()
      ensures smallest.Some? ==> smallest.value < |children| && children[smallest.value].Valid()
      ensures smallest.Some? ==>
        forall j :: 0 <= j < |children| && children[j].Valid() ==> !Less(children[j].Current().key, children[smallest.value].Current().key)
    {
      smallest := None;
      for i := 0 to |children|
        invariant smallest.None? ==> forall j :: 0 <= j < i ==> !children[j].Valid()
        invariant smallest.Some? ==> smallest.value < i && children[smallest.value].Valid()
        invariant smallest.Some? ==>
          forall j :: 0 <= j < i && children[j].Valid() ==> !Less(children[j].Current().key, children[smallest.value].Current().key)
      {
        if children[i].Valid() {
          if smallest.None? || Compare(children[i].Current().key, children[smallest.value].Current().key) < 0 {
            smallest := Some(i);
          }
        }
      }
    }

    /** The valid child with the largest current key, the last of equals. */
    method LargestChild() returns (largest: Option<nat>)
      ensures largest.None? ==> forall j :: 0 <= j < |children| ==> !children[j].Valid()
      ensures largest.Some? ==> largest.value < |children| && children[largest.value].Valid()
      ensures largest.Some? ==>
        forall j :: 0 <= j < |children| && children[j].Valid() ==> !Less(children[largest.value].Current().key, children[j].Current().key)
    {
      largest := None;
      var i := |children|;
      while i > 0
        invariant 0 <= i <= |children|
        invariant largest.None? ==> forall j :: i <= j < |children| ==> !children[j].Valid()
        invariant largest.Some? ==> i <= largest.value < |children| && children[largest.value].Valid()
        invariant largest.Some? ==>
          forall j :: i <= j < |children| && children[j].Valid() ==> !Less(children[largest.value].Current().key, children[j].Current().key)
      {
        i := i - 1;
        if children[i].Valid() {
          if largest.None? || Compare(children[i].Current().key, children[largest.value].Current().key) > 0 {
            largest := Some(i);
          }
        }
      }
    }

    method FindSmallest(ghost c: nat)
      requires GoodChildren() && c <= |Entries()| && direction == Forward && AllAfter(c)
      modifies this`current, this`at
      ensures Inv() && direction == Forward && Pos() == c
    {
      var smallest := SmallestChild();
      ghost var ps := Positions();
      AfterPositions(c);
      if smallest.None? {
        NoneLeftAfter(Tables(), Entries(), ps, c);
      } else {
        SmallestIsAt(Tables(), Entries(), ps, c, smallest.value);
      }
      current, at := smallest, c;
    }

    method FindLargest(ghost c: nat)
      requires GoodChildren() && c <= |Entries()| && direction == Reverse && AllBefore(c)
      modifies this`current, this`at
      ensures Inv() && direction == Reverse && Pos() == if c == 0 then |Entries()| else c - 1
    {
      var largest := LargestChild();
      ghost var ps := Positions();
      BeforePositions(c);
      if largest.None? {
        NoneLeftBefore(Tables(), Entries(), ps, c);
      } else {
        LargestIsAt(Tables(), Entries(), ps, c, largest.value);
      }
      SetCurrent(largest, c);
    }

    method SetCurrent(largest: Option<nat>, ghost c: nat)
      requires GoodChildren() && c <= |Entries()| && direction == Reverse && AllBefore(c)
      requires match largest
               case None => c == 0
               case Some(i) => c > 0 && i < |children| && children[i].Valid() && children[i].Current() == Entries()[c - 1]
      modifies this`current, this`at
      ensures Inv() && direction == Reverse && Pos() == if c == 0 then |Entries()| else c - 1
    {
      current, at := largest, if c == 0 then 0 else c - 1;
      if largest.Some? {
        assert AllBefore(c) && at + 1 == c;
      }
    }

    lemma AfterPositions(c: nat)
      requires c <= |Entries()| && AllAfter(c)
      ensures forall i :: 0 <= i < |children| ==> AfterCut(Tables()[i], Positions()[i], Entries(), c)
    {
      forall i | 0 <= i < |children| ensures AfterCut(Tables()[i], Positions()[i], Entries(), c) {
        assert ChildAfter(i, c);
      }
    }

    lemma BeforePositions(c: nat)
      requires c <= |Entries()| && AllBefore(c)
      ensures forall i :: 0 <= i < |children| ==> BeforeCut(Tables()[i], Positions()[i], Entries(), c)
    {
      forall i | 0 <= i < |children| ensures BeforeCut(Tables()[i], Positions()[i], Entries(), c) {
        assert ChildBefore(i, c);
      }
    }

    // ----- The public operations, with the contract of a cursor -----

    method SeekToFirst()
      requires Inv()
      modifies this, children
      ensures Inv() && Pos() == 0
    {
      for i := 0 to |children|
        invariant forall j :: 0 <= j < i ==> children[j].pos == 0
      {
        children[i].SeekToFirst();
      }
      forall i | 0 <= i < |children| ensures ChildAfter(i, 0) {
        StartIsCut(Tables(), Entries(), i);
      }
      direction := Forward;
      FindSmallest(0);
    }

    method SeekToLast()
      requires Inv()
      modifies this, children
      ensures Inv() && Pos() == if Entries() == [] then 0 else |Entries()| - 1
    {
      for i := 0 to |children|
        invariant forall j :: 0 <= j < i ==> children[j].pos == if children[j].entries == [] then 0 else |children[j].entries| - 1
      {
        children[i].SeekToLast();
      }
      forall i | 0 <= i < |children| ensures ChildBefore(i, |Entries()|) {
        StartIsCut(Tables(), Entries(), i);
      }
      direction := Reverse;
      FindLargest(|Entries()|);
    }

    method Seek(target: InternalKey)
      requires Inv()
      modifies this, children
      ensures Inv() && Pos() <= |Entries()|
      ensures forall j :: 0 <= j < Pos() ==> Less(Entries()[j].key, target)
      ensures Pos() < |Entries()| ==> !Less(Entries()[Pos()].key, target)
    {
      for i := 0 to |children|
        invariant forall j :: 0 <= j < i ==> SoughtTo(children[j].entries, children[j].pos, target)
      {
        children[i].Seek(target);
      }
      ghost var c := SeekIndex(Entries(), target);
      forall i | 0 <= i < |children| ensures ChildAfter(i, c) {
        SoughtIsCut(Tables(), Entries(), i, children[i].pos, c, target);
      }
      direction := Forward;
      FindSmallest(c);
    }

    method Next()
      requires Inv() && Valid()
      modifies this, children
      ensures Inv() && Pos() == old(Pos()) + 1
    {
      ghost var c := at;
      if direction != Forward {
        PositionOthersAfter();
        direction := Forward;
      }
      StepCurrentForward(c);
      FindSmallest(c + 1);
    }

    method Prev()
      requires Inv() && Valid()
      modifies this, children
      ensures Inv() && Pos() == if old(Pos()) == 0 then |Entries()| else old(Pos()) - 1
    {
      ghost var c := at;
      IsCurrent();
      if direction != Reverse {
        TurnBack();
      }
      StepBack(c);
    }

    lemma IsCurrent()
      requires Inv() && Valid()
      ensures GoodChildren() && AtCurrent(at) && at < |Entries()| && (direction == Reverse ==> AllBefore(at + 1))
    {
    }

    method TurnBack()
      requires GoodChildren() && AtCurrent(at)
      modifies this`direction, children
      ensures AtCurrent(at) && AllBefore(at + 1) && direction == Reverse
    {
      PositionOthersBefore();
      direction := Reverse;
    }

    method StepBack(ghost c: nat)
      requires GoodChildren() && AtCurrent(c) && AllBefore(c + 1) && direction == Reverse
      modifies this`current, this`at, children
      ensures Inv() && Pos() == if c == 0 then |Entries()| else c - 1
    {
      StepCurrentBackward(c);
      FindLargest(c);
    }

    /** The current child stands at entry `at` of the merge. */
    ghost predicate AtCurrent(c: nat)
      reads this`current, children
    {
      && c < |Entries()| && current.Some? && current.value < |children| && children[current.value].Valid()
      && children[current.value].Current() == Entries()[c]
    }

    method PositionOthersAfter()
      requires GoodChildren() && AtCurrent(at)
      modifies children
      ensures AtCurrent(at) && AllAfter(at)
    {
      var a := current.value;
      var key := children[a].Current().key;
      ghost var p := children[a].pos;
      for i := 0 to |children|
        invariant children[a].pos == p
        invariant forall j :: 0 <= j < i && j != a ==> ChildAfter(j, at)
      {
        if i != a {
          assert Sorted(Tables()[i]);
          PositionAfter(children[i], key);
          PastKeyIsCut(Tables(), Entries(), a, i, children[i].pos, at);
        }
      }
      CurrentIsCut(Tables(), Entries(), a, p, at);
      assert ChildAfter(a, at);
    }

    method PositionOthersBefore()
      requires GoodChildren() && AtCurrent(at)
      modifies children
      ensures AtCurrent(at) && AllBefore(at + 1)
    {
      var a := current.value;
      ghost var p, c := children[a].pos, at + 1;
      PositionAllBefore(a, children[a].Current().key, c);
      CurrentIsCut(Tables(), Entries(), a, p, at);
      assert ChildBefore(a, c);
    }

    ghost predicate OthersBefore(n: nat, a: nat, c: nat)
      requires n <= |children| && c <= |Entries()|
      reads children
    {
      forall j :: 0 <= j < n && j != a ==> ChildBefore(j, c)
    }

    method PositionAllBefore(a: nat, key: InternalKey, ghost c: nat)
      requires GoodChildren() && a < |children| && 0 < c <= |Entries()|
      requires children[a].Valid() && children[a].Current() == Entries()[c - 1] && key == children[a].Current().key
      modifies children
      ensures children[a].pos == old(children[a].pos) && OthersBefore(|children|, a, c)
    {
      for i := 0 to |children|
        invariant children[a].pos == old(children[a].pos) && OthersBefore(i, a, c)
      {
        if i != a {
          PositionOneBefore(i, a, key, c);
        }
      }
    }

    method PositionOneBefore(i: nat, ghost a: nat, key: InternalKey, ghost c: nat)
      requires GoodChildren() && i < |children| && a < |children| && i != a && 0 < c <= |Entries()|
      requires children[a].Valid() && children[a].Current() == Entries()[c - 1] && key == children[a].Current().key
      modifies children[i]
      ensures ChildBefore(i, c)
    {
      assert Sorted(Tables()[i]);
      PositionBefore(children[i], key);
      BeforeKeyIsCut(Tables(), Entries(), a, i, children[i].pos, c - 1);
    }

    method StepCurrentForward(ghost c: nat)
      requires GoodChildren() && AtCurrent(c) && AllAfter(c)
      modifies children
      ensures AllAfter(c + 1)
    {
      ghost var a, p, c' := current.value, children[current.value].pos, c + 1;
      CurrentIsCut(Tables(), Entries(), a, p, c);
      forall i | 0 <= i < |children| && i != a ensures ChildAfter(i, c') {
        assert ChildAfter(i, c);
        OtherCutMoves(Tables(), Entries(), a, i, children[i].pos, c);
      }
      children[current.value].Next();
      forall i | 0 <= i < |children| ensures ChildAfter(i, c') {
      }
    }

    method StepCurrentBackward(ghost c: nat)
      requires GoodChildren() && AtCurrent(c) && AllBefore(c + 1)
      modifies children
      ensures AllBefore(c)
    {
      ghost var a, p := current.value, children[current.value].pos;
      CurrentIsCut(Tables(), Entries(), a, p, c);
      forall i | 0 <= i < |children| && i != a ensures ChildBefore(i, c) {
        assert ChildBefore(i, c + 1);
        OtherCutMoves(Tables(), Entries(), a, i, children[i].pos, c);
      }
      children[current.value].Prev();
      forall i | 0 <= i < |children| ensures ChildBefore(i, c) {
      }
    }
  }
}
