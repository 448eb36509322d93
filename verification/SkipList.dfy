/** The skip list of the memtable: one writer, readers that need no lock (db/skiplist.h). */
module SkipList {
  import opened InternalKeys

  const MAX_HEIGHT := 12

  /** Any total order on a countable set of keys embeds in the reals. */
  type Key = real

  class Node {
    const key: Key
    /** One link a level; the length is the node's height. */
    var next: seq<Node?>

    constructor (key: Key, height: nat)
      ensures this.key == key && |next| == height && forall l :: 0 <= l < height ==> next[l] == null
    {
      this.key := key;
      next := seq(height, _ => null);
    }
  }

  // ----- One level as a sequence of nodes -----

  ghost predicate Ascending(s: seq<Node>) {
    forall i, j :: 0 <= i < j < |s| ==> s[i].key < s[j].key
  }

  /** Index i separates the keys below `key` from the others: where a linear scan would stop. */
  ghost predicate Splits(s: seq<Node>, i: nat, key: Key) {
    && i <= |s|
    && (forall j :: 0 <= j < i ==> s[j].key < key)
    && forall j :: i <= j < |s| ==> s[j].key >= key
  }

  /** r is s with x added at index i. */
  ghost predicate InsertedAt(s: seq<Node>, i: nat, x: Node, r: seq<Node>) {
    && i <= |s| && |r| == |s| + 1 && r[i] == x
    && (forall j :: 0 <= j < i ==> r[j] == s[j])
    && forall j :: i < j < |r| ==> r[j] == s[j - 1]
  }

  ghost function InsertAt(s: seq<Node>, i: nat, x: Node): (r: seq<Node>)
    requires i <= |s|
    ensures InsertedAt(s, i, x, r)
  {
    s[..i] + [x] + s[i..]
  }

  lemma InsertedMembers(s: seq<Node>, i: nat, x: Node, r: seq<Node>)
    requires InsertedAt(s, i, x, r)
    ensures forall n :: n in r <==> n in s || n == x
  {
    forall n | n in s ensures n in r {
      var k :| 0 <= k < |s| && s[k] == n;
      assert r[if k < i then k else k + 1] == n;
    }
  }

  lemma InsertedAscends(s: seq<Node>, i: nat, x: Node, r: seq<Node>)
    requires Ascending(s) && Splits(s, i, x.key) && InsertedAt(s, i, x, r) && forall n :: n in s ==> n.key != x.key
    ensures Ascending(r)
  {
    forall a, b | 0 <= a < b < |r| ensures r[a].key < r[b].key {
      if a == i {
        assert r[b] == s[b - 1] && s[b - 1] in s;
      }
    }
  }

  /** All keys before node number i of the level are smaller. */
  ghost predicate SmallerBefore(s: seq<Node>, i: nat, key: Key) {
    i <= |s| && forall j :: 0 <= j < i ==> s[j].key < key
  }

  /** The place after the last smaller key is where a linear scan stops. */
  lemma Stop(s: seq<Node>, i: nat, key: Key)
    requires Ascending(s) && SmallerBefore(s, i, key)
    requires i < |s| ==> s[i].key >= key
    ensures Splits(s, i, key)
  {
  }

  lemma SplitFinds(s: seq<Node>, i: nat, key: Key)
    requires Ascending(s) && Splits(s, i, key)
    ensures (i < |s| && s[i].key == key) <==> exists n :: n in s && n.key == key
  {
    if n :| n in s && n.key == key {
      var k := IndexOf(s, n);
    }
  }

  lemma IndexOf(s: seq<Node>, n: Node) returns (k: nat)
    requires n in s
    ensures k < |s| && s[k] == n
  {
    k :| 0 <= k < |s| && s[k] == n;
  }

  /** Going down one level keeps the place. */
  lemma Down(upper: seq<Node>, lower: seq<Node>, i: nat, key: Key) returns (i': nat)
    requires Ascending(lower) && SmallerBefore(upper, i, key)
    requires forall n :: n in upper ==> n in lower
    ensures SmallerBefore(lower, i', key)
    ensures if i == 0 then i' == 0 else i' > 0 && lower[i' - 1] == upper[i - 1]
  {
    if i == 0 {
      i' := 0;
    } else {
      assert upper[i - 1] in upper;
      var k := IndexOf(lower, upper[i - 1]);
      i' := k + 1;
    }
  }

  // ----- The links -----

  type Links = map<Node, seq<Node?>>

  /** The i-th node of a level, counting the head as number 0. */
  ghost function NodeAt(head: Node, s: seq<Node>, i: nat): Node
    requires i <= |s|
  {
    if i == 0 then head else s[i - 1]
  }

  /** The links of level l run from the head through s and end in null. */
  ghost predicate Chain(head: Node, s: seq<Node>, next: Links, l: nat) {
    forall i :: 0 <= i <= |s| ==>
      && NodeAt(head, s, i) in next && l < |next[NodeAt(head, s, i)]|
      && next[NodeAt(head, s, i)][l] == if i < |s| then s[i] else null
  }

  /** Every node of level l + 1 is on level l. */
  ghost predicate Sublist(lists: seq<seq<Node>>, l: nat)
    requires l + 1 < |lists|
  {
    forall n :: n in lists[l + 1] ==> n in lists[l]
  }

  ghost predicate GoodLevel(head: Node, lists: seq<seq<Node>>, next: Links, maxHeight: nat, l: nat)
    requires l < |lists|
  {
    && Chain(head, lists[l], next, l) && Ascending(lists[l]) && head !in lists[l]
    && (l >= maxHeight ==> lists[l] == [])
    && (l + 1 < |lists| ==> Sublist(lists, l))
  }

  ghost predicate GoodLevels(head: Node, lists: seq<seq<Node>>, next: Links, maxHeight: nat) {
    forall l :: 0 <= l < |lists| ==> GoodLevel(head, lists, next, maxHeight, l)
  }

  /** The link x.next[l] may change while x is not on level l. */
  lemma UnseenStore(head: Node, lists: seq<seq<Node>>, next: Links, maxHeight: nat, l: nat, x: Node, to: Node?)
    requires GoodLevels(head, lists, next, maxHeight) && l < |lists|
    requires x in next && l < |next[x]| && x != head && x !in lists[l]
    ensures GoodLevels(head, lists, next[x := next[x][l := to]], maxHeight)
  {
    var next' := next[x := next[x][l := to]];
    forall j | 0 <= j < |lists| ensures GoodLevel(head, lists, next', maxHeight, j) {
      assert GoodLevel(head, lists, next, maxHeight, j);
      var s := lists[j];
      forall i | 0 <= i <= |s|
        ensures NodeAt(head, s, i) in next' && j < |next'[NodeAt(head, s, i)]|
        ensures next'[NodeAt(head, s, i)][j] == if i < |s| then s[i] else null
      {
        assert NodeAt(head, s, i) in next;
      }
    }
  }

  /** A store that links x after p, on a level where x's own link already points on. */
  lemma PublishedChain(head: Node, s: seq<Node>, next: Links, l: nat, x: Node, p: Node, k: nat, r: seq<Node>)
    requires Chain(head, s, next, l) && Ascending(s) && head !in s && InsertedAt(s, k, x, r)
    requires p == NodeAt(head, s, k) && x != p && x in next && l < |next[x]| && next[x][l] == next[p][l]
    ensures Chain(head, r, next[p := next[p][l := x]], l)
  {
    var next' := next[p := next[p][l := x]];
    forall i | 0 <= i <= |r|
      ensures NodeAt(head, r, i) in next' && l < |next'[NodeAt(head, r, i)]|
      ensures next'[NodeAt(head, r, i)][l] == if i < |r| then r[i] else null
    {
      if i < k {
        assert NodeAt(head, r, i) == NodeAt(head, s, i) != p;
      } else if i == k {
        assert NodeAt(head, r, i) == p;
      } else if i == k + 1 {
        assert NodeAt(head, r, i) == x;
      } else {
        assert NodeAt(head, r, i) == NodeAt(head, s, i - 1) != p;
      }
    }
  }

  lemma OtherChain(head: Node, s: seq<Node>, next: Links, l: nat, x: Node, p: Node, j: nat)
    requires Chain(head, s, next, j) && j != l && p in next && l < |next[p]|
    ensures Chain(head, s, next[p := next[p][l := x]], j)
  {
    forall i | 0 <= i <= |s| ensures NodeAt(head, s, i) in next {
    }
  }

  lemma PublishedSublist(lists: seq<seq<Node>>, l: nat, x: Node, k: nat, lists': seq<seq<Node>>, j: nat)
    requires l < |lists| && j + 1 < |lists| && Sublist(lists, j) && (l > 0 ==> x in lists[l - 1])
    requires |lists'| == |lists| && InsertedAt(lists[l], k, x, lists'[l])
    requires forall i :: 0 <= i < |lists| && i != l ==> lists'[i] == lists[i]
    ensures Sublist(lists', j)
  {
    InsertedMembers(lists[l], k, x, lists'[l]);
  }

  lemma PublishedOnLevel(head: Node, s: seq<Node>, next: Links, l: nat, x: Node, p: Node, k: nat, r: seq<Node>)
    requires Chain(head, s, next, l) && Ascending(s) && head !in s && InsertedAt(s, k, x, r)
    requires x in next && x != head && x !in s && l < |next[x]| && Splits(s, k, x.key) && forall n :: n in s ==> n.key != x.key
    requires p == NodeAt(head, s, k) && p in next && l < |next[p]| && next[x][l] == next[p][l]
    ensures Chain(head, r, next[p := next[p][l := x]], l) && Ascending(r) && head !in r
  {
    InsertedMembers(s, k, x, r);
    InsertedAscends(s, k, x, r);
    assert k > 0 ==> s[k - 1] in s;
    PublishedChain(head, s, next, l, x, p, k, r);
  }

  lemma PublishedLevel(head: Node, lists: seq<seq<Node>>, next: Links, maxHeight: nat, l: nat, x: Node, p: Node, k: nat,
                       lists': seq<seq<Node>>, j: nat)
    requires GoodLevels(head, lists, next, maxHeight) && l < maxHeight && l < |lists| && j < |lists|
    requires x in next && x != head && x !in lists[l] && l < |next[x]|
    requires k <= |lists[l]| && p == NodeAt(head, lists[l], k) && p in next && l < |next[p]| && next[x][l] == next[p][l]
    requires Splits(lists[l], k, x.key) && forall n :: n in lists[l] ==> n.key != x.key
    requires l > 0 ==> x in lists[l - 1]
    requires |lists'| == |lists| && InsertedAt(lists[l], k, x, lists'[l])
    requires forall i :: 0 <= i < |lists| && i != l ==> lists'[i] == lists[i]
    ensures GoodLevel(head, lists', next[p := next[p][l := x]], maxHeight, j)
  {
    assert GoodLevel(head, lists, next, maxHeight, j) && GoodLevel(head, lists, next, maxHeight, l);
    if j + 1 < |lists| {
      PublishedSublist(lists, l, x, k, lists', j);
    }
    if j == l {
      PublishedOnLevel(head, lists[l], next, l, x, p, k, lists'[l]);
    } else {
      OtherChain(head, lists[j], next, l, x, p, j);
    }
  }

  /** More nodes change nothing on the levels. */
  lemma MoreNodes(head: Node, lists: seq<seq<Node>>, next: Links, maxHeight: nat, next': Links)
    requires GoodLevels(head, lists, next, maxHeight)
    requires forall n :: n in next ==> n in next' && next'[n] == next[n]
    ensures GoodLevels(head, lists, next', maxHeight)
  {
    forall j | 0 <= j < |lists| ensures GoodLevel(head, lists, next', maxHeight, j) {
      assert GoodLevel(head, lists, next, maxHeight, j);
    }
  }

  /** The first n levels have the node at its place, and the others are as they were. */
  ghost predicate LinkedOn(was: seq<seq<Node>>, now: seq<seq<Node>>, at: seq<nat>, x: Node, n: nat) {
    && |was| == |now| == |at| == MAX_HEIGHT && n <= MAX_HEIGHT
    && (forall l :: 0 <= l < n ==> InsertedAt(was[l], at[l], x, now[l]))
    && forall l :: n <= l < MAX_HEIGHT ==> now[l] == was[l]
  }

  lemma LinkedOnMore(was: seq<seq<Node>>, mid: seq<seq<Node>>, now: seq<seq<Node>>, at: seq<nat>, x: Node, l: nat)
    requires LinkedOn(was, mid, at, x, l) && l < MAX_HEIGHT == |now| && InsertedAt(mid[l], at[l], x, now[l])
    requires forall j :: 0 <= j < MAX_HEIGHT && j != l ==> now[j] == mid[j]
    ensures LinkedOn(was, now, at, x, l + 1)
  {
  }

  class SkipList {
    const head: Node
    var maxHeight: nat
    /** The nodes linked on each level, in order. */
    ghost var lists: seq<seq<Node>>
    /** Every node, and the head. */
    ghost var nodes: set<Node>

    ghost function At(l: nat, i: nat): Node
      requires l < |lists| && i <= |lists[l]|
      reads this
    {
      NodeAt(head, lists[l], i)
    }

    /** All links, as one value. */
    ghost function Snapshot(): (m: Links)
      reads this, nodes
      ensures m.Keys == nodes
      ensures forall n :: n in nodes ==> m[n] == n.next
    {
      map n | n in nodes :: n.next
    }

    ghost predicate Level(l: nat)
      requires l < |lists|
      reads this, nodes
    {
      GoodLevel(head, lists, Snapshot(), maxHeight, l)
    }

    ghost predicate Valid()
      reads this, nodes
    {
      && |lists| == MAX_HEIGHT && 1 <= maxHeight <= MAX_HEIGHT
      && GoodLevels(head, lists, Snapshot(), maxHeight)
    }

    /** The nodes of the list, in key order. */
    ghost function Bottom(): seq<Node>
      requires Valid()
      reads this, nodes
    {
      lists[0]
    }

    constructor ()
      ensures Valid() && Bottom() == [] && fresh(nodes)
    {
      head := new Node(0.0, MAX_HEIGHT);
      maxHeight := 1;
      lists := seq(MAX_HEIGHT, _ => []);
      new;
      nodes := {head};
    }

    // ----- Searches -----

    /** Where a search stands: at node number i of level l, with only smaller keys behind it. */
    ghost predicate Standing(x: Node, l: nat, i: nat, key: Key)
      reads this
    {
      l < |lists| && SmallerBefore(lists[l], i, key) && x == At(l, i)
    }

    static predicate KeyIsAfterNode(key: Key, n: Node?) {
      n != null && n.key < key
    }

    /** One load: the link a standing search follows. */
    lemma Link(x: Node, l: nat, i: nat, key: Key)
      requires Valid() && Standing(x, l, i, key)
      ensures l < |x.next| && x.next[l] == if i < |lists[l]| then lists[l][i] else null
      ensures i < |lists[l]| && lists[l][i].key < key ==> Standing(lists[l][i], l, i + 1, key)
      ensures i == |lists[l]| || lists[l][i].key >= key ==> Splits(lists[l], i, key)
    {
      assert Level(l);
      if i == |lists[l]| || lists[l][i].key >= key {
        Stop(lists[l], i, key);
      }
    }

    lemma StandLower(x: Node, l: nat, i: nat, key: Key) returns (i': nat)
      requires Valid() && 0 < l && Standing(x, l, i, key)
      ensures Standing(x, l - 1, i', key)
    {
      assert Level(l - 1) && Sublist(lists, l - 1);
      i' := Down(lists[l], lists[l - 1], i, key);
    }

    /** What a search has found on the levels from `low` up. */
    ghost predicate Found(at: seq<nat>, low: nat, key: Key)
      requires |lists| == |at| && maxHeight <= |lists|
      reads this
    {
      forall l :: low <= l < maxHeight ==> Splits(lists[l], at[l], key)
    }

    ghost predicate Records(prev: array<Node?>, at: seq<nat>, low: nat)
      requires |lists| == |at| == prev.Length && maxHeight <= |lists|
      reads this, prev
    {
      forall l :: low <= l < maxHeight ==> at[l] <= |lists[l]| && prev[l] == At(l, at[l])
    }

    /** The earliest node at or after `key`, or null; `prev`, when wanted, gets the node before it
        on every level in use. */
    method FindGreaterOrEqual(key: Key, prev: array?<Node?>) returns (r: Node?, ghost at: seq<nat>)
      requires Valid() && (prev != null ==> prev.Length == MAX_HEIGHT)
      modifies prev
      ensures Valid() && |at| == MAX_HEIGHT && Found(at, 0, key) && forall l :: maxHeight <= l < MAX_HEIGHT ==> at[l] == 0
      ensures r == if at[0] < |Bottom()| then Bottom()[at[0]] else null
      ensures prev != null ==> Records(prev, at, 0)
    {
      var x: Node := head;
      var level: nat := maxHeight - 1;
      ghost var i := 0;
      at := seq(MAX_HEIGHT, _ => 0);
      var searching := true;
      r := null;
      while searching
        invariant level < maxHeight && Standing(x, level, i, key) && |at| == MAX_HEIGHT && Valid()
        invariant Found(at, if searching then level + 1 else 0, key) && forall l :: maxHeight <= l < MAX_HEIGHT ==> at[l] == 0
        invariant prev != null ==> Records(prev, at, if searching then level + 1 else 0)
        invariant !searching ==> r == if at[0] < |lists[0]| then lists[0][at[0]] else null
        decreases searching, level, |lists[level]| - i
      {
        Link(x, level, i, key);
        var next := x.next[level];
        if KeyIsAfterNode(key, next) {
          x, i := next, i + 1;
        } else {
          at := at[level := i];
          if prev != null {
            prev[level] := x;
          }
          if level == 0 {
            r, searching := next, false;
          } else {
            i := StandLower(x, level, i, key);
            level := level - 1;
          }
        }
      }
    }

    /** The latest node before `key`, or the head. */
    method FindLessThan(key: Key) returns (x: Node, ghost i: nat)
      requires Valid()
      ensures Splits(Bottom(), i, key) && x == At(0, i)
      ensures x == head || (x in Bottom() && x.key < key)
      ensures x.next != [] && (x.next[0] == null || x.next[0].key >= key)
    {
      x := head;
      var level: nat := maxHeight - 1;
      i := 0;
      var searching := true;
      while searching
        invariant level < maxHeight && Standing(x, level, i, key)
        invariant !searching ==> level == 0 && Splits(lists[0], i, key)
        invariant !searching ==> x.next != [] && (x.next[0] == null || x.next[0].key >= key)
        decreases searching, level, |lists[level]| - i
      {
        Link(x, level, i, key);
        var next := x.next[level];
        if next == null || next.key >= key {
          if level == 0 {
            searching := false;
          } else {
            i := StandLower(x, level, i, key);
            level := level - 1;
          }
        } else {
          x, i := next, i + 1;
        }
      }
    }

    lemma LinkAt(l: nat, i: nat)
      requires Valid() && l < MAX_HEIGHT && i <= |lists[l]|
      ensures l < |At(l, i).next| && At(l, i).next[l] == if i < |lists[l]| then lists[l][i] else null
    {
      assert Level(l);
    }

    lemma PlaceLower(x: Node, l: nat, i: nat) returns (i': nat)
      requires Valid() && 0 < l < MAX_HEIGHT && i <= |lists[l]| && x == At(l, i)
      ensures i' <= |lists[l - 1]| && x == At(l - 1, i')
    {
      if i == 0 {
        i' := 0;
      } else {
        assert lists[l][i - 1] in lists[l - 1] by {
          assert Level(l - 1) && Sublist(lists, l - 1);
        }
        var k := IndexOf(lists[l - 1], lists[l][i - 1]);
        i' := k + 1;
      }
    }

    /** The last node, or the head. */
    method FindLast() returns (x: Node)
      requires Valid()
      ensures x == At(0, |Bottom()|)
    {
      x := head;
      var level: nat := maxHeight - 1;
      ghost var i: nat := 0;
      var searching := true;
      while searching
        invariant level < maxHeight && i <= |lists[level]| && x == At(level, i)
        invariant !searching ==> level == 0 && i == |lists[0]|
        decreases searching, level, |lists[level]| - i
      {
        LinkAt(level, i);
        var next := x.next[level];
        if next == null {
          if level == 0 {
            searching := false;
          } else {
            i := PlaceLower(x, level, i);
            level := level - 1;
          }
        } else {
          x, i := next, i + 1;
        }
      }
    }

    method Contains(key: Key) returns (found: bool)
      requires Valid()
      ensures found <==> exists n :: n in Bottom() && n.key == key
    {
      var x;
      ghost var at;
      x, at := FindGreaterOrEqual(key, null);
      assert Splits(Bottom(), at[0], key);
      found := x != null && x.key == key;
      assert Level(0);
      SplitFinds(Bottom(), at[0], key);
    }

    // ----- Insertion -----

    /** x may be linked on level l after node number k, which is p. */
    ghost predicate MayLink(l: nat, x: Node, p: Node, k: nat)
      requires Valid()
      reads this, nodes
    {
      && l < maxHeight && x in nodes && x != head && l < |x.next| && x !in lists[l]
      && Splits(lists[l], k, x.key) && p == At(l, k)
      && (forall n :: n in lists[l] ==> n.key != x.key)
      && (l > 0 ==> x in lists[l - 1])
    }

    /** NoBarrier_SetNext: a store no reader can see, since x is not linked on this level. */
    method PrepareLink(l: nat, x: Node, p: Node, ghost k: nat)
      requires Valid() && MayLink(l, x, p, k)
      modifies x`next
      ensures Valid() && MayLink(l, x, p, k)
      ensures |x.next| == old(|x.next|) && p in nodes && l < |p.next| && x.next[l] == p.next[l] && x != p
    {
      assert Level(l) && At(l, k) in Snapshot();
      UnseenStore(head, lists, Snapshot(), maxHeight, l, x, p.next[l]);
      x.next := x.next[l := p.next[l]];
      assert Snapshot() == old(Snapshot()[x := x.next[l := p.next[l]]]);
    }

    /** SetNext: the store that publishes x on this level. */
    method PublishLink(l: nat, x: Node, p: Node, ghost k: nat)
      requires Valid() && MayLink(l, x, p, k) && p in nodes && l < |p.next| && x.next[l] == p.next[l] && x != p
      modifies p`next, this`lists
      ensures Valid() && InsertedAt(old(lists[l]), k, x, lists[l]) && |p.next| == old(|p.next|)
      ensures forall j :: 0 <= j < MAX_HEIGHT && j != l ==> lists[j] == old(lists[j])
    {
      ghost var was, before := lists, Snapshot();
      p.next := p.next[l := x];
      lists := lists[l := InsertAt(lists[l], k, x)];
      assert Snapshot() == before[p := before[p][l := x]];
      forall j | 0 <= j < MAX_HEIGHT ensures GoodLevel(head, lists, Snapshot(), maxHeight, j) {
        PublishedLevel(head, was, before, maxHeight, l, x, p, k, lists, j);
      }
    }

    lemma {:induction false} InBottom(l: nat, n: Node)
      requires Valid() && l < MAX_HEIGHT && n in lists[l]
      ensures n in Bottom()
      decreases l
    {
      if l > 0 {
        assert Level(l - 1) && Sublist(lists, l - 1);
        InBottom(l - 1, n);
      }
    }

    /** x is not on level l yet, and belongs after node number k, which is p. */
    ghost predicate Pending(l: nat, x: Node, p: Node?, k: nat)
      requires |lists| == MAX_HEIGHT
      reads this
    {
      && l < MAX_HEIGHT && x !in lists[l] && Splits(lists[l], k, x.key) && p == At(l, k)
      && forall n :: n in lists[l] ==> n.key != x.key
    }

    lemma EmptyAbove(height: nat)
      requires Valid() && maxHeight <= height <= MAX_HEIGHT
      ensures GoodLevels(head, lists, Snapshot(), height)
      ensures forall l :: maxHeight <= l < MAX_HEIGHT ==> lists[l] == []
    {
      forall l | 0 <= l < MAX_HEIGHT ensures GoodLevel(head, lists, Snapshot(), height, l) && (maxHeight <= l ==> lists[l] == []) {
        assert Level(l);
      }
    }

    /** Levels above the old height start at the head. */
    method RaiseHeight(height: nat, prev: array<Node?>, ghost at: seq<nat>, ghost key: Key)
      requires Valid() && |at| == prev.Length == MAX_HEIGHT && maxHeight < height <= MAX_HEIGHT
      requires Found(at, 0, key) && Records(prev, at, 0) && forall l :: maxHeight <= l < MAX_HEIGHT ==> at[l] == 0
      modifies this`maxHeight, prev
      ensures Valid() && maxHeight == height && Found(at, 0, key) && Records(prev, at, 0)
    {
      ghost var was := maxHeight;
      for i := maxHeight to height
        invariant forall l :: 0 <= l < i ==> at[l] <= |lists[l]| && prev[l] == At(l, at[l])
        invariant Valid() && maxHeight == was
      {
        prev[i] := head;
      }
      EmptyAbove(height);
      ghost var links := Snapshot();
      maxHeight := height;
      assert Snapshot() == links;
    }

    lemma NewNodePending(x: Node, height: nat, prev: array<Node?>, at: seq<nat>)
      requires Valid() && |at| == prev.Length == MAX_HEIGHT && height <= maxHeight
      requires Found(at, 0, x.key) && Records(prev, at, 0)
      requires x !in Bottom() && forall n :: n in Bottom() ==> n.key != x.key
      ensures forall l :: 0 <= l < height ==> Pending(l, x, prev[l], at[l])
    {
      forall l | 0 <= l < height ensures Pending(l, x, prev[l], at[l]) {
        forall n | n in lists[l] ensures n in Bottom() {
          InBottom(l, n);
        }
      }
    }

    ghost method AddNode(x: Node)
      requires Valid()
      modifies this`nodes
      ensures Valid() && nodes == old(nodes) + {x}
    {
      ghost var links := Snapshot();
      nodes := nodes + {x};
      MoreNodes(head, lists, links, maxHeight, Snapshot());
    }

    /** Links a new node of any height, bottom level first.  Valid() holds after every store. */
    method Insert(key: Key, height: nat) returns (x: Node, ghost at: seq<nat>)
      requires Valid() && 1 <= height <= MAX_HEIGHT && forall n :: n in Bottom() ==> n.key != key
      modifies this, nodes
      ensures Valid() && fresh(x) && x.key == key && fresh(nodes - old(nodes))
      ensures |at| == MAX_HEIGHT && Splits(old(Bottom()), at[0], key) && LinkedOn(old(lists), lists, at, x, height)
    {
      var prev := new Node?[MAX_HEIGHT];
      var found;
      found, at := FindGreaterOrEqual(key, prev);
      if height > maxHeight {
        RaiseHeight(height, prev, at, key);
      }
      x := new Node(key, height);
      ghost var was := lists;
      AddNode(x);
      NewNodePending(x, height, prev, at);
      for i := 0 to height
        invariant Valid() && height <= maxHeight && x in nodes && x != head && |x.next| == height && fresh(nodes - old(nodes))
        invariant forall l :: i <= l < height ==> Pending(l, x, prev[l], at[l])
        invariant (i > 0 ==> x in lists[i - 1]) && LinkedOn(was, lists, at, x, i)
      {
        ghost var mid := lists;
        LinkLevel(i, x, prev, at, height);
        LinkedOnMore(was, mid, lists, at, x, i);
      }
    }

    /** The two stores of one level. */
    method LinkLevel(l: nat, x: Node, prev: array<Node?>, ghost at: seq<nat>, ghost height: nat)
      requires Valid() && |at| == prev.Length == MAX_HEIGHT && l < height <= maxHeight
      requires x in nodes && x != head && |x.next| == height && (l > 0 ==> x in lists[l - 1])
      requires forall j :: l <= j < height ==> Pending(j, x, prev[j], at[j])
      modifies nodes, this`lists
      ensures Valid() && |x.next| == height
      ensures InsertedAt(old(lists[l]), at[l], x, lists[l]) && forall j :: 0 <= j < MAX_HEIGHT && j != l ==> lists[j] == old(lists[j])
      ensures x in lists[l] && forall j :: l < j < height ==> Pending(j, x, prev[j], at[j])
    {
      assert Pending(l, x, prev[l], at[l]) && Level(l);
      var p: Node := prev[l];
      PrepareLink(l, x, p, at[l]);
      PublishLink(l, x, p, at[l]);
    }

    lemma HeadIsApart(i: nat)
      requires Valid() && i <= |Bottom()|
      ensures At(0, i) == head <==> i == 0
    {
      assert Level(0);
      assert i > 0 ==> lists[0][i - 1] in lists[0];
    }

    lemma SplitsAtOwnKey(k: nat, i: nat)
      requires Valid() && k < |Bottom()| && Splits(Bottom(), i, Bottom()[k].key)
      ensures i == k
    {
      assert Level(0);
    }

    // ----- Readers -----

    /** One load of a search: follow the link, go down, or stop. */
    static function ReaderStep(x: Node, l: nat, key: Key): (Node?, Option<nat>)
      requires l < |x.next|
      reads x
    {
      var next := x.next[l];
      if KeyIsAfterNode(key, next) then (next, Some(l)) else if l == 0 then (next, None) else (x, Some(l - 1))
    }

    /** A reader may be here: at some place of level l, behind `key`. */
    ghost predicate Placed(x: Node?, l: nat, key: Key)
      reads this
    {
      x != null && exists i: nat :: Standing(x, l, i, key)
    }

    /** The node a linear scan of level 0 would stop at. */
    ghost predicate ScanResult(r: Node?, key: Key)
      requires Valid()
      reads this, nodes
    {
      exists i: nat :: Splits(Bottom(), i, key) && r == if i < |Bottom()| then Bottom()[i] else null
    }

    /** Whatever the list looks like at the time of a load, the load keeps the reader placed, and the
        last one gives what a linear scan gives at that moment. */
    lemma ReaderStepIsSound(x: Node, l: nat, key: Key)
      requires Valid() && Placed(x, l, key)
      ensures l < |x.next|
      ensures var (x', l') := ReaderStep(x, l, key); if l'.Some? then Placed(x', l'.value, key) else ScanResult(x', key)
    {
      var i: nat :| Standing(x, l, i, key);
      Link(x, l, i, key);
      if KeyIsAfterNode(key, x.next[l]) {
        assert Standing(x.next[l], l, i + 1, key);
      } else if l > 0 {
        var i' := StandLower(x, l, i, key);
      } else {
        assert Splits(Bottom(), i, key);
      }
    }

    /** A store by the writer between two loads does not disturb a reader. */
    twostate lemma ReaderSurvives(x: Node, l: nat, key: Key)
      requires old(Valid()) && Valid() && old(Placed(x, l, key))
      requires l < MAX_HEIGHT ==> forall n :: n in old(lists[l]) ==> n in lists[l]
      ensures Placed(x, l, key)
    {
      ghost var i: nat :| old(Standing(x, l, i, key));
      assert Level(l);
      var i' := Down(old(lists[l]), lists[l], i, key);
      assert Standing(x, l, i', key);
    }
  }

  /** SkipList::Iterator: a cursor over the bottom level. */
  class Iterator {
    const list: SkipList
    var node: Node?
    ghost var pos: nat

    constructor (list: SkipList)
      requires list.Valid()
      ensures this.list == list && Inv() && !Valid()
    {
      this.list := list;
      node, pos := null, |list.Bottom()|;
    }

    ghost predicate Inv()
      reads this, list, list.nodes
    {
      && list.Valid() && pos <= |list.Bottom()|
      && node == if pos < |list.Bottom()| then list.Bottom()[pos] else null
    }

    predicate Valid()
      reads this
    {
      node != null
    }

    method SeekToFirst()
      requires Inv()
      modifies this
      ensures Inv() && pos == 0
    {
      list.LinkAt(0, 0);
      node, pos := list.head.next[0], 0;
    }

    method SeekToLast()
      requires Inv()
      modifies this
      ensures Inv() && pos == if list.Bottom() == [] then 0 else |list.Bottom()| - 1
    {
      var last := list.FindLast();
      list.HeadIsApart(|list.Bottom()|);
      node := if last == list.head then null else last;
      pos := if list.Bottom() == [] then 0 else |list.Bottom()| - 1;
    }

    method Seek(target: Key)
      requires Inv()
      modifies this
      ensures Inv() && Splits(list.Bottom(), pos, target)
    {
      ghost var at;
      node, at := list.FindGreaterOrEqual(target, null);
      assert Splits(list.lists[0], at[0], target);
      pos := at[0];
    }

    method Next()
      requires Inv() && Valid()
      modifies this
      ensures Inv() && pos == old(pos) + 1
    {
      list.LinkAt(0, pos + 1);
      node, pos := node.next[0], pos + 1;
    }

    /** There are no back links: Prev searches for the last node before the current key. */
    method Prev()
      requires Inv() && Valid()
      modifies this
      ensures Inv() && pos == if old(pos) == 0 then |list.Bottom()| else old(pos) - 1
    {
      var x;
      ghost var i;
      x, i := list.FindLessThan(node.key);
      list.SplitsAtOwnKey(pos, i);
      list.HeadIsApart(i);
      node := if x == list.head then null else x;
      pos := if i == 0 then |list.Bottom()| else i - 1;
    }
  }
}
