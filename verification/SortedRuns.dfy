/** The sorted merge of several sorted runs: the abstract content of a merging iterator. */
module SortedRuns {
  import opened InternalKeys

  /** No two runs share a user key with the same sequence number. */
  ghost predicate DistinctRuns(a: seq<Entry>, b: seq<Entry>) {
    forall x, y :: x in a && y in b ==> x.key.user != y.key.user || x.key.sequence != y.key.sequence
  }

  ghost predicate DistinctChildren(children: seq<seq<Entry>>) {
    forall i, j :: 0 <= i < j < |children| ==> DistinctRuns(children[i], children[j])
  }

  ghost predicate SortedChildren(children: seq<seq<Entry>>) {
    forall i :: 0 <= i < |children| ==> Sorted(children[i])
  }

  function Merge2(a: seq<Entry>, b: seq<Entry>): (r: seq<Entry>)
    ensures |r| == |a| + |b|
  {
    if a == [] then b
    else if b == [] then a
    else if Less(a[0].key, b[0].key) then [a[0]] + Merge2(a[1..], b)
    else [b[0]] + Merge2(a, b[1..])
  }

  function MergeUpTo(children: seq<seq<Entry>>, n: nat): seq<Entry>
    requires n <= |children|
  {
    if n == 0 then [] else Merge2(MergeUpTo(children, n - 1), children[n - 1])
  }

  function MergeAll(children: seq<seq<Entry>>): seq<Entry> {
    MergeUpTo(children, |children|)
  }

  lemma {:induction false} Merge2Members(a: seq<Entry>, b: seq<Entry>)
    ensures forall e :: e in Merge2(a, b) <==> e in a || e in b
    decreases |a| + |b|
  {
    if a == [] || b == [] {
    } else if Less(a[0].key, b[0].key) {
      Merge2Members(a[1..], b);
    } else {
      Merge2Members(a, b[1..]);
    }
  }

  lemma PrependSorted(e: Entry, t: seq<Entry>)
    requires Sorted(t) && forall x :: x in t ==> Before(e.key, x.key)
    ensures Sorted([e] + t)
  {
    forall k | 0 <= k < |t| ensures Before(e.key, t[k].key) {
      assert t[k] in t;
    }
  }

  lemma HeadIsFirst(t: seq<Entry>, x: Entry)
    requires Sorted(t) && t != [] && x in t
    ensures x == t[0] || Before(t[0].key, x.key)
  {
  }

  lemma {:induction false} Merge2Sorted(a: seq<Entry>, b: seq<Entry>)
    requires Sorted(a) && Sorted(b) && DistinctRuns(a, b)
    ensures Sorted(Merge2(a, b))
    decreases |a| + |b|
  {
    if a == [] || b == [] {
    } else if Less(a[0].key, b[0].key) {
      Merge2Sorted(a[1..], b);
      Merge2Members(a[1..], b);
      assert a[0] in a && b[0] in b;
      forall x | x in Merge2(a[1..], b) ensures Before(a[0].key, x.key) {
        if x in b {
          HeadIsFirst(b, x);
        }
      }
      PrependSorted(a[0], Merge2(a[1..], b));
    } else {
      Merge2Sorted(a, b[1..]);
      Merge2Members(a, b[1..]);
      assert a[0] in a && b[0] in b;
      forall x | x in Merge2(a, b[1..]) ensures Before(b[0].key, x.key) {
        if x in a {
          HeadIsFirst(a, x);
        }
      }
      PrependSorted(b[0], Merge2(a, b[1..]));
    }
  }

  lemma {:induction false} MergeUpToMembers(children: seq<seq<Entry>>, n: nat)
    requires n <= |children|
    ensures forall e :: e in MergeUpTo(children, n) <==> exists i :: 0 <= i < n && e in children[i]
  {
    if n > 0 {
      MergeUpToMembers(children, n - 1);
      Merge2Members(MergeUpTo(children, n - 1), children[n - 1]);
    }
  }

  lemma {:induction false} MergeUpToSorted(children: seq<seq<Entry>>, n: nat)
    requires n <= |children| && SortedChildren(children) && DistinctChildren(children)
    ensures Sorted(MergeUpTo(children, n))
  {
    if n > 0 {
      MergeUpToSorted(children, n - 1);
      MergeUpToMembers(children, n - 1);
      forall x, y | x in MergeUpTo(children, n - 1) && y in children[n - 1]
        ensures x.key.user != y.key.user || x.key.sequence != y.key.sequence
      {
        var i :| 0 <= i < n - 1 && x in children[i];
        assert DistinctRuns(children[i], children[n - 1]);
      }
      Merge2Sorted(MergeUpTo(children, n - 1), children[n - 1]);
    }
  }

  /** The merge of sorted children with distinct keys is sorted and holds exactly their entries. */
  lemma MergeAllMeaning(children: seq<seq<Entry>>)
    requires SortedChildren(children) && DistinctChildren(children)
    ensures Sorted(MergeAll(children))
    ensures forall e :: e in MergeAll(children) <==> exists i :: 0 <= i < |children| && e in children[i]
  {
    MergeUpToSorted(children, |children|);
    MergeUpToMembers(children, |children|);
  }

  /** A sorted run is determined by its entries. */
  lemma {:induction false} SortedUnique(a: seq<Entry>, b: seq<Entry>)
    requires Sorted(a) && Sorted(b)
    requires forall e :: e in a <==> e in b
    ensures a == b
  {
    if a == [] || b == [] {
      if a != [] {
        SomeEntry(a);
      }
      if b != [] {
        SomeEntry(b);
      }
    } else {
      assert a[0] in b && b[0] in a;
      HeadIsFirst(a, b[0]);
      HeadIsFirst(b, a[0]);
      forall e ensures e in a[1..] <==> e in b[1..] {
        assert e in a[1..] ==> e != a[0] && e in a;
        assert e in b[1..] ==> e != b[0] && e in b;
      }
      SortedUnique(a[1..], b[1..]);
    }
  }

  lemma SomeEntry(t: seq<Entry>)
    requires t != []
    ensures exists e :: e in t
  {
    assert t[0] in t;
  }
}
