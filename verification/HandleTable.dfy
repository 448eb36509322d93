/** Cache entries and the hash table that finds them (util/cache.cc, LRUHandle and HandleTable). */
module HandleTables {
  import Coding
  /** Keys are only compared for equality, so their bytes are taken as one number. */
  type Slice = int

  /** A key with its hash; hashes are arbitrary numbers. */
  datatype Key = Key(slice: Slice, hash: nat)

  /** The list an entry is on. */
  datatype Place = Nowhere | Idle | Busy

  class LRUHandle {
    const key: Slice
    const hash: nat
    const charge: nat
    var inCache: bool
    var refs: nat
    var next: LRUHandle?
    var prev: LRUHandle?

    /** How many handles clients hold, how often the deleter has run, and where the entry is. */
    ghost var handles: nat
    ghost var deletions: nat
    ghost var place: Place

    constructor (key: Slice, hash: nat, charge: nat, refs: nat, inCache: bool)
      ensures this.key == key && this.hash == hash && this.charge == charge
      ensures this.refs == refs && this.inCache == inCache && handles == 0 && deletions == 0 && place == Nowhere
    {
      this.key, this.hash, this.charge := key, hash, charge;
      this.refs, this.inCache, this.next, this.prev := refs, inCache, null, null;
      this.handles, this.deletions, this.place := 0, 0, Nowhere;
    }

    ghost function Id(): Key {
      Key(key, hash)
    }
  }

  type Buckets = seq<seq<LRUHandle>>

  function Home(hash: nat, length: nat): (b: nat)
    requires length > 0
    ensures b < length
  {
    hash % length
  }

  function Total(bs: Buckets, n: nat): nat
    requires n <= |bs|
  {
    if n == 0 then 0 else Total(bs, n - 1) + |bs[n - 1]|
  }

  lemma {:induction false} TotalOfUpdate(bs: Buckets, b: nat, chain: seq<LRUHandle>, n: nat)
    requires b < |bs| && n <= |bs|
    ensures Total(bs[b := chain], n) == if b < n then Total(bs, n) + |chain| - |bs[b]| else Total(bs, n)
  {
    if n > 0 {
      TotalOfUpdate(bs, b, chain, n - 1);
    }
  }

  lemma {:induction false} TotalOfEmpty(bs: Buckets, n: nat)
    requires n <= |bs| && forall b :: 0 <= b < |bs| ==> bs[b] == []
    ensures Total(bs, n) == 0
  {
    if n > 0 {
      TotalOfEmpty(bs, n - 1);
    }
  }

  // ----- Buckets hold a map -----

  ghost predicate Held(bs: Buckets, m: map<Key, LRUHandle>, b: nat, i: nat)
    requires b < |bs| && i < |bs[b]|
  {
    var h := bs[b][i];
    Home(h.hash, |bs|) == b && h.Id() in m && m[h.Id()] == h
  }

  ghost predicate Placed(bs: Buckets, m: map<Key, LRUHandle>, k: Key)
    requires k in m && |bs| > 0
  {
    m[k].Id() == k && m[k] in bs[Home(k.hash, |bs|)]
  }

  predicate Differ(chain: seq<LRUHandle>, i: nat, j: nat)
    requires i < |chain| && j < |chain|
  {
    chain[i] != chain[j]
  }

  predicate Distinct(chain: seq<LRUHandle>) {
    forall i, j {:trigger Differ(chain, i, j)} :: 0 <= i < j < |chain| ==> Differ(chain, i, j)
  }

  /** Every entry is in the bucket of its hash, once, and nothing else is in the buckets. */
  ghost predicate Refines(bs: Buckets, m: map<Key, LRUHandle>) {
    && |bs| > 0
    && (forall b, i :: 0 <= b < |bs| && 0 <= i < |bs[b]| ==> Held(bs, m, b, i))
    && (forall k :: k in m ==> Placed(bs, m, k))
    && (forall b :: 0 <= b < |bs| ==> Distinct(bs[b]))
  }

  /** A chain without an entry for the key. */
  predicate Absent(chain: seq<LRUHandle>, key: Slice, hash: nat, n: nat)
    requires n <= |chain|
  {
    forall i :: 0 <= i < n ==> chain[i].hash != hash || chain[i].key != key
  }

  lemma AbsentMeansUnmapped(bs: Buckets, m: map<Key, LRUHandle>, key: Slice, hash: nat)
    requires Refines(bs, m)
    ensures Key(key, hash) in m ==> !Absent(bs[Home(hash, |bs|)], key, hash, |bs[Home(hash, |bs|)]|)
  {
    if Key(key, hash) in m {
      var chain := bs[Home(hash, |bs|)];
      assert Placed(bs, m, Key(key, hash));
      var i :| 0 <= i < |chain| && chain[i] == m[Key(key, hash)];
    }
  }

  lemma NewIsNowhere(bs: Buckets, m: map<Key, LRUHandle>, h: LRUHandle, b: nat)
    requires Refines(bs, m) && h.Id() !in m && b < |bs|
    ensures h !in bs[b]
  {
    forall i | 0 <= i < |bs[b]| ensures bs[b][i] != h {
      assert Held(bs, m, b, i);
    }
  }

  /** A new entry goes anywhere in the chain of its bucket. */
  lemma AddEntry(bs: Buckets, m: map<Key, LRUHandle>, h: LRUHandle, chain: seq<LRUHandle>)
    requires Refines(bs, m) && h.Id() !in m
    requires var c := bs[Home(h.hash, |bs|)]; chain == c + [h] || chain == [h] + c
    ensures Refines(bs[Home(h.hash, |bs|) := chain], m[h.Id() := h])
  {
    var home := Home(h.hash, |bs|);
    var now, n := bs[home := chain], m[h.Id() := h];
    NewIsNowhere(bs, m, h, home);
    forall b, i | 0 <= b < |now| && 0 <= i < |now[b]| ensures Held(now, n, b, i) {
      if b != home {
        assert Held(bs, m, b, i);
      } else if now[b][i] != h {
        var j :| 0 <= j < |bs[b]| && bs[b][j] == now[b][i];
        assert Held(bs, m, b, j);
      }
    }
    forall k | k in n ensures Placed(now, n, k) {
      assert k != h.Id() ==> Placed(bs, m, k);
    }
    forall b | 0 <= b < |now| ensures Distinct(now[b]) {
      if b == home {
        DistinctWith(bs[home], h);
      }
    }
  }

  lemma DistinctWith(c: seq<LRUHandle>, h: LRUHandle)
    requires Distinct(c) && h !in c
    ensures Distinct(c + [h]) && Distinct([h] + c)
  {
    forall i, j | 0 <= i < j <= |c| ensures Differ(c + [h], i, j) && Differ([h] + c, i, j) {
      assert j < |c| ==> Differ(c, i, j);
      assert i > 0 ==> Differ(c, i - 1, j - 1);
    }
  }

  lemma DistinctWithout(c: seq<LRUHandle>, i: nat)
    requires Distinct(c) && i < |c|
    ensures Distinct(c[..i] + c[i + 1..])
    ensures forall j :: 0 <= j < |c| && j != i ==> c[j] != c[i]
  {
    var d := c[..i] + c[i + 1..];
    forall x, y | 0 <= x < y < |d| ensures Differ(d, x, y) {
      assert Differ(c, if x < i then x else x + 1, if y < i then y else y + 1);
    }
    forall j | 0 <= j < |c| && j != i ensures c[j] != c[i] {
      assert if j < i then Differ(c, j, i) else Differ(c, i, j);
    }
  }

  /** Entry i of a chain gives way to a new one with the same key. */
  lemma ReplaceEntry(bs: Buckets, m: map<Key, LRUHandle>, h: LRUHandle, i: nat)
    requires Refines(bs, m) && i < |bs[Home(h.hash, |bs|)]| && bs[Home(h.hash, |bs|)][i].Id() == h.Id()
    ensures h.Id() in m && m[h.Id()] == bs[Home(h.hash, |bs|)][i]
    ensures Refines(bs[Home(h.hash, |bs|) := bs[Home(h.hash, |bs|)][i := h]], m[h.Id() := h])
  {
    var home := Home(h.hash, |bs|);
    assert Held(bs, m, home, i);
    DistinctWithout(bs[home], i);
    var now, n := bs[home := bs[home][i := h]], m[h.Id() := h];
    forall b, j | 0 <= b < |now| && 0 <= j < |now[b]| ensures Held(now, n, b, j) {
      assert Held(bs, m, b, j);
    }
    forall k | k in n ensures Placed(now, n, k) {
      if k == h.Id() {
        assert now[home][i] == h;
      } else {
        KeptAt(bs, m, k, home, i, h);
      }
    }
    forall x, y | 0 <= x < y < |now[home]| ensures Differ(now[home], x, y) {
      assert Held(bs, m, home, x) && Held(bs, m, home, y);
      assert Differ(bs[home], x, y);
    }
    forall b | 0 <= b < |now| ensures Distinct(now[b]) {
      assert b != home ==> now[b] == bs[b];
    }
  }

  lemma KeptAt(bs: Buckets, m: map<Key, LRUHandle>, k: Key, home: nat, i: nat, h: LRUHandle)
    requires Refines(bs, m) && k in m && home < |bs| && i < |bs[home]| && bs[home][i].Id() != k
    ensures m[k].Id() == k && m[k] in bs[home := bs[home][i := h]][Home(k.hash, |bs|)]
  {
    assert Placed(bs, m, k);
    var b := Home(k.hash, |bs|);
    var j :| 0 <= j < |bs[b]| && bs[b][j] == m[k];
    assert bs[home := bs[home][i := h]][b][j] == m[k];
  }

  /** Entry i of a chain goes. */
  lemma DropEntry(bs: Buckets, m: map<Key, LRUHandle>, home: nat, i: nat)
    requires Refines(bs, m) && home < |bs| && i < |bs[home]|
    ensures bs[home][i].Id() in m && m[bs[home][i].Id()] == bs[home][i]
    ensures Refines(bs[home := bs[home][..i] + bs[home][i + 1..]], m - {bs[home][i].Id()})
  {
    var h := bs[home][i];
    assert Held(bs, m, home, i);
    DistinctWithout(bs[home], i);
    var now, n := bs[home := bs[home][..i] + bs[home][i + 1..]], m - {h.Id()};
    forall b, j | 0 <= b < |now| && 0 <= j < |now[b]| ensures Held(now, n, b, j) {
      var was := if b == home && j >= i then j + 1 else j;
      assert now[b][j] == bs[b][was];
      assert Held(bs, m, b, was);
    }
    forall k | k in n ensures Placed(now, n, k) {
      assert Placed(bs, m, k);
      var b := Home(k.hash, |bs|);
      var j :| 0 <= j < |bs[b]| && bs[b][j] == m[k];
      var at := if b == home && j > i then j - 1 else j;
      assert now[b][at] == m[k];
    }
    forall b | 0 <= b < |now| ensures Distinct(now[b]) {
      assert Distinct(bs[b]);
    }
  }

  lemma EmptyRefines(bs: Buckets)
    requires |bs| > 0 && forall b :: 0 <= b < |bs| ==> bs[b] == []
    ensures Refines(bs, map[])
  {
  }

  /** An array of chains that is doubled when there are more entries than buckets. */
  class HandleTable {
    var list: array<seq<LRUHandle>>
    var length: nat
    var elems: nat
    ghost var m: map<Key, LRUHandle>
    ghost var bits: nat

    ghost predicate Valid()
      reads this, list
    {
      && length == list.Length && length == Coding.Pow2(bits)
      && Refines(list[..], m)
      && elems == Total(list[..], length) && elems == |m|
    }

    constructor ()
      ensures Valid() && m == map[] && fresh(list) && elems <= length
    {
      list := new seq<LRUHandle>[4](_ => []);
      length, elems := 4, 0;
      m, bits := map[], 2;
      new;
      TotalOfEmpty(list[..], 4);
      assert Coding.Pow2(2) == 2 * (2 * Coding.Pow2(0));
    }

    /** The chain of the key's bucket, and the place in it of the key's entry or of its end. */
    method FindPointer(key: Slice, hash: nat) returns (b: nat, i: nat)
      requires Valid()
      ensures b < length && b == Home(hash, length) && i <= |list[b]|
      ensures i < |list[b]| ==> list[b][i].Id() == Key(key, hash)
      ensures i == |list[b]| ==> Absent(list[b], key, hash, i)
    {
      b, i := Home(hash, length), 0;
      while i < |list[b]| && (list[b][i].hash != hash || list[b][i].key != key)
        invariant i <= |list[b]| && Absent(list[b], key, hash, i)
      {
        i := i + 1;
      }
    }

    method Lookup(key: Slice, hash: nat) returns (h: LRUHandle?)
      requires Valid()
      ensures h == if Key(key, hash) in m then m[Key(key, hash)] else null
    {
      var b, i := FindPointer(key, hash);
      if i < |list[b]| {
        h := list[b][i];
        assert list[..][b] == list[b] && Held(list[..], m, b, i);
      } else {
        h := null;
        AbsentMeansUnmapped(list[..], m, key, hash);
      }
    }

    method Insert(h: LRUHandle) returns (old_: LRUHandle?)
      requires Valid()
      modifies this`list, this`length, this`elems, this`m, this`bits, list
      ensures Valid() && m == old(m)[h.Id() := h]
      ensures old_ == if h.Id() in old(m) then old(m)[h.Id()] else null
      ensures list == old(list) || fresh(list)
      ensures old(elems) <= old(length) ==> elems <= length
    {
      var b, i := FindPointer(h.key, h.hash);
      if i < |list[b]| {
        old_ := list[b][i];
        Replace(h, b, i);
      } else {
        old_ := null;
        Append(h, b);
        if elems > length {
          Resize();
        }
      }
    }

    method Replace(h: LRUHandle, b: nat, i: nat)
      requires Valid() && b < length && b == Home(h.hash, length) && i < |list[b]| && list[b][i].Id() == h.Id()
      modifies list, this`m
      ensures Valid() && m == old(m)[h.Id() := h] && h.Id() in old(m) && old(m)[h.Id()] == old(list[b][i])
    {
      ghost var bs, was := list[..], m;
      assert bs[b] == list[b];
      TotalOfUpdate(bs, b, bs[b][i := h], |bs|);
      ReplaceEntry(bs, m, h, i);
      list[b] := list[b][i := h];
      assert list[..] == bs[b := bs[b][i := h]];
      m := m[h.Id() := h];
      assert m.Keys == was.Keys;
      SameSize(m, was);
    }

    method Append(h: LRUHandle, b: nat)
      requires Valid() && b < length && b == Home(h.hash, length) && Absent(list[b], h.key, h.hash, |list[b]|)
      modifies list, this`m, this`elems
      ensures Valid() && m == old(m)[h.Id() := h] && h.Id() !in old(m) && elems == old(elems) + 1
    {
      ghost var bs := list[..];
      assert bs[b] == list[b];
      TotalOfUpdate(bs, b, bs[b] + [h], |bs|);
      AbsentMeansUnmapped(bs, m, h.key, h.hash);
      AddEntry(bs, m, h, bs[b] + [h]);
      list[b] := list[b] + [h];
      assert list[..] == bs[b := bs[b] + [h]];
      m := m[h.Id() := h];
      elems := elems + 1;
    }

    method Remove(key: Slice, hash: nat) returns (h: LRUHandle?)
      requires Valid()
      modifies this`elems, this`m, list
      ensures Valid() && m == old(m) - {Key(key, hash)}
      ensures h == if Key(key, hash) in old(m) then old(m)[Key(key, hash)] else null
      ensures old(elems) <= old(length) ==> elems <= length
    {
      var b, i := FindPointer(key, hash);
      if i < |list[b]| {
        h := list[b][i];
        Drop(b, i);
      } else {
        h := null;
        AbsentMeansUnmapped(list[..], m, key, hash);
        assert m - {Key(key, hash)} == m;
      }
    }

    method Drop(b: nat, i: nat)
      requires Valid() && b < length && i < |list[b]|
      modifies this`m, this`elems, list
      ensures Valid() && m == old(m) - {old(list[b][i]).Id()} && elems < old(elems)
      ensures old(list[b][i]).Id() in old(m) && old(m)[old(list[b][i]).Id()] == old(list[b][i])
    {
      ghost var bs := list[..];
      var h, chain := list[b][i], list[b][..i] + list[b][i + 1..];
      assert bs[b] == list[b];
      DropEntry(bs, m, b, i);
      TotalOfUpdate(bs, b, chain, |bs|);
      list[b] := chain;
      assert list[..] == bs[b := chain];
      m := m - {h.Id()};
      elems := elems - 1;
    }

    /** Moves every entry to a table with at least as many buckets as entries. */
    method Resize()
      requires Valid()
      modifies this`list, this`length, this`bits
      ensures Valid() && m == old(m) && fresh(list) && elems == old(elems) && elems <= length
    {
      var newLength := 4;
      ghost var newBits := 2;
      assert Coding.Pow2(2) == 2 * (2 * Coding.Pow2(0));
      while newLength < elems
        invariant newLength == Coding.Pow2(newBits)
      {
        newLength := newLength * 2;
        newBits := newBits + 1;
      }
      var newList := Rehash(newLength);
      list, length, bits := newList, newLength, newBits;
    }

    /** The same entries in an array of this many buckets. */
    method Rehash(newLength: nat) returns (newList: array<seq<LRUHandle>>)
      requires Valid() && newLength > 0
      ensures fresh(newList) && newList.Length == newLength
      ensures Refines(newList[..], m) && Total(newList[..], newLength) == elems
    {
      newList := new seq<LRUHandle>[newLength](_ => []);
      var count, i := 0, 0;
      ghost var done: map<Key, LRUHandle> := map[];
      ghost var ns, bs := newList[..], list[..];
      StartTransfer(ns, bs, m);
      while i < length
        invariant i <= length == |bs| && newList.Length == newLength && newList[..] == ns
        invariant Transfer(ns, bs, m, done, i, 0, count)
      {
        count, ns, done := MoveChain(newList, list[i], count, ns, bs, m, done, i);
        NextBucket(ns, bs, m, done, i, count);
        i := i + 1;
      }
      AllMoved(ns, bs, m, done, count);
      assert elems == count;
    }
  }

  /** Moves the entries of one chain to the front of their new chains. */
  method MoveChain(newList: array<seq<LRUHandle>>, chain: seq<LRUHandle>, start: nat, ghost before: Buckets, ghost bs: Buckets,
                   ghost m: map<Key, LRUHandle>, ghost was: map<Key, LRUHandle>, ghost i: nat)
    returns (count: nat, ghost ns: Buckets, ghost done: map<Key, LRUHandle>)
    requires Refines(bs, m) && i < |bs| && chain == bs[i] && newList[..] == before && Transfer(before, bs, m, was, i, 0, start)
    modifies newList
    ensures newList[..] == ns && Transfer(ns, bs, m, done, i, |chain|, count)
  {
    var j := 0;
    count, ns, done := start, before, was;
    while j < |chain|
      invariant j <= |chain| && newList[..] == ns && Transfer(ns, bs, m, done, i, j, count)
    {
      var h := chain[j];
      ns := MoveEntry(newList, h, ns, bs, m, done, i, j, count);
      done := done[h.Id() := h];
      j, count := j + 1, count + 1;
    }
  }

  method MoveEntry(newList: array<seq<LRUHandle>>, h: LRUHandle, ghost ns: Buckets, ghost bs: Buckets,
                   ghost m: map<Key, LRUHandle>, ghost done: map<Key, LRUHandle>, ghost i: nat, ghost j: nat, ghost count: nat)
    returns (ghost now: Buckets)
    requires Refines(bs, m) && i < |bs| && j < |bs[i]| && h == bs[i][j]
    requires newList[..] == ns && Transfer(ns, bs, m, done, i, j, count)
    modifies newList
    ensures newList[..] == now && Transfer(now, bs, m, done[h.Id() := h], i, j + 1, count + 1)
  {
    now := PushFront(newList, h, ns);
    MoveOne(ns, now, bs, m, done, done[h.Id() := h], i, j, count);
  }

  method PushFront(newList: array<seq<LRUHandle>>, h: LRUHandle, ghost ns: Buckets) returns (ghost now: Buckets)
    requires newList[..] == ns && newList.Length > 0
    modifies newList
    ensures newList[..] == now && now == ns[Home(h.hash, |ns|) := [h] + ns[Home(h.hash, |ns|)]]
  {
    var b := Home(h.hash, newList.Length);
    newList[b] := [h] + newList[b];
    now := newList[..];
  }

  lemma SameSize(a: map<Key, LRUHandle>, b: map<Key, LRUHandle>)
    requires a.Keys == b.Keys
    ensures |a| == |b|
  {
    assert |a| == |a.Keys| && |b| == |b.Keys|;
  }

  // ----- Resizing -----

  /** The entry of k is in a bucket before i, or among the first j of bucket i. */
  ghost predicate Before(bs: Buckets, m: map<Key, LRUHandle>, k: Key, i: nat, j: nat)
    requires k in m && |bs| > 0
  {
    var b := Home(k.hash, |bs|);
    b < i || (b == i && j <= |bs[i]| && m[k] in bs[i][..j])
  }

  /** Exactly these entries have been moved. */
  ghost predicate Moved(bs: Buckets, m: map<Key, LRUHandle>, done: map<Key, LRUHandle>, i: nat, j: nat)
    requires |bs| > 0
  {
    && (forall k :: k in done ==> k in m && done[k] == m[k])
    && forall k :: k in m ==> (k in done <==> Before(bs, m, k, i, j))
  }

  /** The new buckets ns hold the entries moved so far. */
  ghost predicate Transfer(ns: Buckets, bs: Buckets, m: map<Key, LRUHandle>, done: map<Key, LRUHandle>, i: nat, j: nat, count: nat) {
    && |bs| > 0 && i <= |bs| && (i < |bs| ==> j <= |bs[i]|)
    && Refines(ns, done) && Moved(bs, m, done, i, j)
    && count == Total(ns, |ns|) == Total(bs, i) + j == |done|
  }

  lemma StartTransfer(ns: Buckets, bs: Buckets, m: map<Key, LRUHandle>)
    requires Refines(bs, m) && |ns| > 0 && forall b :: 0 <= b < |ns| ==> ns[b] == []
    ensures Transfer(ns, bs, m, map[], 0, 0, 0)
  {
    TotalOfEmpty(ns, |ns|);
    EmptyRefines(ns);
    assert bs[0][..0] == [];
  }

  lemma MoveOne(ns: Buckets, now: Buckets, bs: Buckets, m: map<Key, LRUHandle>, done: map<Key, LRUHandle>,
                nowDone: map<Key, LRUHandle>, i: nat, j: nat, count: nat)
    requires Refines(bs, m) && i < |bs| && j < |bs[i]| && Transfer(ns, bs, m, done, i, j, count)
    requires now == ns[Home(bs[i][j].hash, |ns|) := [bs[i][j]] + ns[Home(bs[i][j].hash, |ns|)]]
    requires nowDone == done[bs[i][j].Id() := bs[i][j]]
    ensures Transfer(now, bs, m, nowDone, i, j + 1, count + 1)
  {
    var h := bs[i][j];
    var b := Home(h.hash, |ns|);
    MarkMoved(bs, m, done, i, j);
    AddEntry(ns, done, h, [h] + ns[b]);
    TotalOfUpdate(ns, b, [h] + ns[b], |ns|);
  }

  lemma MarkMoved(bs: Buckets, m: map<Key, LRUHandle>, done: map<Key, LRUHandle>, i: nat, j: nat)
    requires Refines(bs, m) && i < |bs| && j < |bs[i]| && Moved(bs, m, done, i, j)
    ensures var h := bs[i][j];
      h.Id() !in done && Moved(bs, m, done[h.Id() := h], i, j + 1)
  {
    var h := bs[i][j];
    assert Held(bs, m, i, j);
    DistinctWithout(bs[i], j);
    assert bs[i][..j + 1] == bs[i][..j] + [h];
    forall k | k in m ensures k in done[h.Id() := h] <==> Before(bs, m, k, i, j + 1) {
      assert Placed(bs, m, k);
    }
  }

  lemma NextBucket(ns: Buckets, bs: Buckets, m: map<Key, LRUHandle>, done: map<Key, LRUHandle>, i: nat, count: nat)
    requires Refines(bs, m) && i < |bs| && Transfer(ns, bs, m, done, i, |bs[i]|, count)
    ensures Transfer(ns, bs, m, done, i + 1, 0, count)
  {
    assert bs[i][..|bs[i]|] == bs[i];
    forall k | k in m ensures k in done <==> Before(bs, m, k, i + 1, 0) {
      assert Placed(bs, m, k);
    }
  }

  lemma AllMoved(ns: Buckets, bs: Buckets, m: map<Key, LRUHandle>, done: map<Key, LRUHandle>, count: nat)
    requires Refines(bs, m) && Transfer(ns, bs, m, done, |bs|, 0, count)
    ensures done == m && count == Total(bs, |bs|)
  {
    forall k | k in m ensures k in done {
      assert Before(bs, m, k, |bs|, 0);
    }
  }
}
