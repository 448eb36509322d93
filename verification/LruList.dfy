/** The circular doubly linked lists of the cache, with a dummy head (util/cache.cc, LRU_Remove and LRU_Append). */
module LruLists {
  import opened HandleTables

  /** Node 0 and node |s| + 1 are the head, and the entries of s lie between them. */
  function NodeAt(head: LRUHandle, s: seq<LRUHandle>, j: nat): LRUHandle
    requires j <= |s| + 1
  {
    if j == 0 || j == |s| + 1 then head else s[j - 1]
  }

  ghost predicate Linked(head: LRUHandle, s: seq<LRUHandle>, j: nat)
    requires j <= |s|
    reads head`next, head`prev, s`next, s`prev
  {
    NodeAt(head, s, j).next == NodeAt(head, s, j + 1) && NodeAt(head, s, j + 1).prev == NodeAt(head, s, j)
  }

  /** Following next from the head visits s in order, and following prev visits it backwards. */
  ghost predicate Ring(head: LRUHandle, s: seq<LRUHandle>)
    reads head`next, head`prev, s`next, s`prev
  {
    head !in s && Distinct(s) && forall j :: 0 <= j <= |s| ==> Linked(head, s, j)
  }

  lemma Apart(head: LRUHandle, s: seq<LRUHandle>, i: nat, j: nat)
    requires head !in s && Distinct(s) && i <= |s| + 1 && j <= |s| + 1
    ensures i != j ==> (NodeAt(head, s, i) == NodeAt(head, s, j) <==> (i == 0 && j == |s| + 1) || (j == 0 && i == |s| + 1))
  {
    if 0 < i <= |s| && 0 < j <= |s| && i != j {
      assert if i < j then Differ(s, i - 1, j - 1) else Differ(s, j - 1, i - 1);
    }
  }

  /** Two rings without a common node. */
  ghost predicate Separate(head: LRUHandle, s: seq<LRUHandle>, other: LRUHandle, t: seq<LRUHandle>) {
    head != other && other !in s && head !in t && forall e :: e in s ==> e !in t
  }

  lemma SeparateAt(head: LRUHandle, s: seq<LRUHandle>, other: LRUHandle, t: seq<LRUHandle>, i: nat, j: nat)
    requires Separate(head, s, other, t) && i <= |s| + 1 && j <= |t| + 1
    ensures NodeAt(head, s, i) != NodeAt(other, t, j)
  {
    assert 0 < i <= |s| ==> NodeAt(head, s, i) in s;
    assert 0 < j <= |t| ==> NodeAt(other, t, j) in t;
  }

  /** LRU_Remove: the neighbours of entry k are linked to each other. */
  method LRURemove(e: LRUHandle, ghost head: LRUHandle, ghost s: seq<LRUHandle>, ghost k: nat,
                   ghost other: LRUHandle, ghost u: seq<LRUHandle>)
    requires Ring(head, s) && k < |s| && s[k] == e
    requires Ring(other, u) && Separate(head, s, other, u)
    modifies NodeAt(head, s, k)`next, NodeAt(head, s, k + 2)`prev
    ensures Ring(head, s[..k] + s[k + 1..])
    ensures Ring(other, u)
  {
    assert Linked(head, s, k) && Linked(head, s, k + 1);
    var p, n := e.prev, e.next;
    n.prev := p;
    p.next := n;
    ghost var t := s[..k] + s[k + 1..];
    DistinctWithout(s, k);
    forall j | 0 <= j <= |t| ensures Linked(head, t, j) {
      ghost var was := if j <= k then j else j + 1;
      Apart(head, s, was, k);
      Apart(head, s, was + 1, k + 2);
      assert old(Linked(head, s, was));
    }
    forall j | 0 <= j <= |u| ensures Linked(other, u, j) {
      assert old(Linked(other, u, j));
      SeparateAt(head, s, other, u, k, j);
      SeparateAt(head, s, other, u, k + 2, j + 1);
    }
  }

  /** LRU_Append: the entry becomes the newest one, just before the head. */
  method LRUAppend(list: LRUHandle, e: LRUHandle, ghost s: seq<LRUHandle>, ghost other: LRUHandle, ghost u: seq<LRUHandle>)
    requires Ring(list, s) && e != list && e !in s
    requires Ring(other, u) && Separate(list, s, other, u) && e != other && e !in u
    modifies e`next, e`prev, list`prev, NodeAt(list, s, |s|)`next
    ensures Ring(list, s + [e])
    ensures Ring(other, u)
  {
    assert Linked(list, s, |s|);
    e.next := list;
    e.prev := list.prev;
    e.prev.next := e;
    e.next.prev := e;
    ghost var t := s + [e];
    DistinctWith(s, e);
    forall j | 0 <= j <= |t| ensures Linked(list, t, j) {
      if j < |s| {
        Apart(list, s, j, |s|);
        Apart(list, s, j + 1, |s| + 1);
        assert old(Linked(list, s, j));
      }
    }
    forall j | 0 <= j <= |u| ensures Linked(other, u, j) {
      assert old(Linked(other, u, j));
      SeparateAt(list, s, other, u, |s|, j);
      SeparateAt(list, s, other, u, |s| + 1, j + 1);
    }
  }

  /** The entry after the head is the oldest one. */
  lemma OldestFirst(head: LRUHandle, s: seq<LRUHandle>)
    requires Ring(head, s)
    ensures head.next == (if s == [] then head else s[0]) && (head.next == head <==> s == [])
  {
    assert Linked(head, s, 0);
  }

  // ----- Charges -----

  ghost function Charges(s: seq<LRUHandle>): nat {
    if s == [] then 0 else s[0].charge + Charges(s[1..])
  }

  lemma {:induction false} ChargesAppend(a: seq<LRUHandle>, b: seq<LRUHandle>)
    ensures Charges(a + b) == Charges(a) + Charges(b)
  {
    if a == [] {
      assert a + b == b;
    } else {
      ChargesAppend(a[1..], b);
      assert (a + b)[1..] == a[1..] + b;
    }
  }

  lemma ChargesWith(s: seq<LRUHandle>, e: LRUHandle)
    ensures Charges(s + [e]) == Charges(s) + e.charge
  {
    ChargesAppend(s, [e]);
    assert Charges([e]) == e.charge + Charges([]);
  }

  ghost function IndexOf(s: seq<LRUHandle>, e: LRUHandle): (k: nat)
    requires e in s
    ensures k < |s| && s[k] == e
  {
    var k :| 0 <= k < |s| && s[k] == e; k
  }

  /** The list without the entry. */
  ghost function Without(s: seq<LRUHandle>, e: LRUHandle): seq<LRUHandle> {
    if e in s then s[..IndexOf(s, e)] + s[IndexOf(s, e) + 1..] else s
  }

  /** The list without an entry that may not exist. */
  ghost function Minus(s: seq<LRUHandle>, e: LRUHandle?): seq<LRUHandle> {
    if e == null then s else Without(s, e)
  }

  /** The idle entries, and the ones in use, once an entry has been admitted in place of another;
      without capacity none is. */
  ghost function IdleAfter(s: seq<LRUHandle>, displaced: LRUHandle?, capacity: nat): seq<LRUHandle> {
    if capacity > 0 then Minus(s, displaced) else s
  }

  ghost function BusyAfter(s: seq<LRUHandle>, e: LRUHandle, displaced: LRUHandle?, capacity: nat): seq<LRUHandle> {
    if capacity > 0 then Minus(s + [e], displaced) else s
  }

  /** Entries were dropped from the front of a list, and no more of them than needed to bring the
      usage within the capacity. */
  ghost predicate Trimmed(before: seq<LRUHandle>, after: seq<LRUHandle>, usage: nat, capacity: nat) {
    && |after| <= |before| && after == before[|before| - |after|..]
    && var n := |before| - |after|; n > 0 ==> usage + before[n - 1].charge > capacity
  }

  lemma WithoutMeaning(s: seq<LRUHandle>, e: LRUHandle)
    requires Distinct(s) && e in s
    ensures forall x :: x in Without(s, e) <==> x in s && x != e
    ensures Charges(s) == Charges(Without(s, e)) + e.charge
  {
    var k := IndexOf(s, e);
    DistinctWithout(s, k);
    forall x | x in s && x != e ensures x in Without(s, e) {
      var j :| 0 <= j < |s| && s[j] == x;
      assert Without(s, e)[if j < k then j else j - 1] == x;
    }
    ChargesAppend(s[..k], s[k + 1..]);
    ChargesAppend(s[..k], [e] + s[k + 1..]);
    ChargesAppend([e], s[k + 1..]);
    assert s == s[..k] + ([e] + s[k + 1..]);
    assert Charges([e]) == e.charge + Charges([]);
  }

  // ----- The two lists of a cache -----

  /** The idle entries, oldest first, and the entries in use. */
  class Lists {
    const lruHead: LRUHandle
    const inUseHead: LRUHandle
    ghost var lru: seq<LRUHandle>
    ghost var inUse: seq<LRUHandle>

    /** Every entry made so far. */
    ghost var nodes: set<LRUHandle>

    ghost predicate Listed(e: LRUHandle)
      reads this`lru, this`inUse, e`place
    {
      (e in lru <==> e.place == Idle) && (e in inUse <==> e.place == Busy)
    }

    /** Everything about the lists but the links. */
    ghost predicate Books()
      reads this, nodes`place
    {
      && lruHead != inUseHead && lruHead !in nodes && inUseHead !in nodes
      && (forall i :: 0 <= i < |lru| ==> lru[i] in nodes)
      && (forall i :: 0 <= i < |inUse| ==> inUse[i] in nodes)
      && (forall e {:trigger Listed(e)} :: e in nodes ==> Listed(e))
    }

    ghost predicate Valid()
      reads this, nodes`next, nodes`prev, nodes`place, lruHead`next, lruHead`prev, inUseHead`next, inUseHead`prev
    {
      Books() && Ring(lruHead, lru) && Ring(inUseHead, inUse)
    }

    ghost function Total(): nat
      reads this
    {
      Charges(lru) + Charges(inUse)
    }

    constructor ()
      ensures Valid() && lru == [] && inUse == [] && nodes == {} && fresh(lruHead) && fresh(inUseHead)
    {
      var a := new LRUHandle(0, 0, 0, 0, false);
      var b := new LRUHandle(0, 0, 0, 0, false);
      a.next, a.prev := a, a;
      b.next, b.prev := b, b;
      lruHead, inUseHead := a, b;
      lru, inUse, nodes := [], [], {};
    }

    /** LRU_Remove, from whichever list the entry is on. */
    method Unlink(e: LRUHandle)
      requires Valid() && e in nodes && Listed(e) && e.place != Nowhere
      modifies this`lru, this`inUse, e`place, nodes`next, nodes`prev, lruHead`next, lruHead`prev, inUseHead`next, inUseHead`prev
      ensures Valid() && e.place == Nowhere && Total() == old(Total()) - e.charge
      ensures lru == if old(e.place) == Idle then Without(old(lru), e) else old(lru)
      ensures inUse == if old(e.place) == Idle then old(inUse) else Without(old(inUse), e)
    {
      UnlinkNode(e);
      Strike(e);
    }

    method UnlinkNode(e: LRUHandle)
      requires Valid() && e in nodes && Listed(e) && e.place != Nowhere
      modifies nodes`next, nodes`prev, lruHead`next, lruHead`prev, inUseHead`next, inUseHead`prev
      ensures Ring(lruHead, if e.place == Idle then Without(lru, e) else lru)
      ensures Ring(inUseHead, if e.place == Idle then inUse else Without(inUse, e))
    {
      ghost var idle := e.place == Idle;
      ghost var head, s := if idle then lruHead else inUseHead, if idle then lru else inUse;
      ghost var other, u := if idle then inUseHead else lruHead, if idle then inUse else lru;
      forall x | x in s ensures x !in u {
        assert Listed(x);
      }
      LRURemove(e, head, s, IndexOf(s, e), other, u);
    }

    ghost method Strike(e: LRUHandle)
      requires Books() && e in nodes && Listed(e) && e.place != Nowhere && Distinct(lru) && Distinct(inUse)
      modifies this`lru, this`inUse, e`place
      ensures Books() && e.place == Nowhere && Total() == old(Total()) - e.charge
      ensures lru == if old(e.place) == Idle then Without(old(lru), e) else old(lru)
      ensures inUse == if old(e.place) == Idle then old(inUse) else Without(old(inUse), e)
    {
      if e.place == Idle {
        WithoutMeaning(lru, e);
        lru := Without(lru, e);
      } else {
        WithoutMeaning(inUse, e);
        inUse := Without(inUse, e);
      }
      e.place := Nowhere;
      forall x | x in nodes ensures Listed(x) {
        assert old(Listed(x));
      }
    }

    /** LRU_Append to the list of idle entries. */
    method AppendIdle(e: LRUHandle)
      requires Valid() && e in nodes && Listed(e) && e.place == Nowhere
      modifies this`lru, e`place, nodes`next, nodes`prev, lruHead`next, lruHead`prev
      ensures Valid() && e.place == Idle && Total() == old(Total()) + e.charge
      ensures lru == old(lru) + [e]
    {
      ListsApart();
      LRUAppend(lruHead, e, lru, inUseHead, inUse);
      EnterIdle(e);
    }

    ghost method EnterIdle(e: LRUHandle)
      requires Books() && e in nodes && Listed(e) && e.place == Nowhere
      modifies this`lru, e`place
      ensures Books() && e.place == Idle && Total() == old(Total()) + e.charge
      ensures lru == old(lru) + [e]
    {
      ChargesWith(lru, e);
      lru, e.place := lru + [e], Idle;
      forall x | x in nodes ensures Listed(x) {
        assert old(Listed(x));
      }
    }

    /** LRU_Append to the list of entries in use. */
    method AppendInUse(e: LRUHandle)
      requires Valid() && e in nodes && Listed(e) && e.place == Nowhere
      modifies this`inUse, e`place, nodes`next, nodes`prev, inUseHead`next, inUseHead`prev
      ensures Valid() && e.place == Busy && Total() == old(Total()) + e.charge
      ensures inUse == old(inUse) + [e]
    {
      ListsApart();
      LRUAppend(inUseHead, e, inUse, lruHead, lru);
      EnterInUse(e);
    }

    ghost method EnterInUse(e: LRUHandle)
      requires Books() && e in nodes && Listed(e) && e.place == Nowhere
      modifies this`inUse, e`place
      ensures Books() && e.place == Busy && Total() == old(Total()) + e.charge
      ensures inUse == old(inUse) + [e]
    {
      ChargesWith(inUse, e);
      inUse, e.place := inUse + [e], Busy;
      forall x | x in nodes ensures Listed(x) {
        assert old(Listed(x));
      }
    }

    lemma ListsApart()
      requires Books()
      ensures Separate(lruHead, lru, inUseHead, inUse) && Separate(inUseHead, inUse, lruHead, lru)
    {
      forall x | x in lru ensures x !in inUse {
        assert Listed(x);
      }
    }

    /** A new entry, on no list yet. */
    ghost method Adopt(e: LRUHandle)
      requires Books() && e !in nodes && e != lruHead && e != inUseHead && e.place == Nowhere
      modifies this`nodes
      ensures Books() && nodes == old(nodes) + {e} && Listed(e)
    {
      nodes := nodes + {e};
      forall x | x in nodes ensures Listed(x) {
        assert x != e ==> old(Listed(x));
        assert x == e ==> x !in lru && x !in inUse;
      }
    }
  }
}
