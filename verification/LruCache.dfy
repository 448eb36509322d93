/** One shard of the cache: reference counts, two lists, and eviction (util/cache.cc, LRUCache). */
module LruCache {
  import opened HandleTables
  import opened LruLists

  function Just(e: LRUHandle?): set<LRUHandle> {
    if e == null then {} else {e}
  }

  /** The entries of a are entries of b. */
  ghost predicate Part(a: map<Key, LRUHandle>, b: map<Key, LRUHandle>) {
    forall k :: k in a ==> k in b && a[k] == b[k]
  }

  /** The table once an entry has been admitted. */
  ghost function MapAfter(m: map<Key, LRUHandle>, e: LRUHandle, capacity: nat): map<Key, LRUHandle> {
    if capacity > 0 then m[e.Id() := e] else m
  }

  lemma OnlyNew(before: map<Key, LRUHandle>, e: LRUHandle, capacity: nat, admitted: map<Key, LRUHandle>, now: map<Key, LRUHandle>)
    requires admitted == MapAfter(before, e, capacity) && Part(now, admitted)
    ensures forall k :: k in now && k != e.Id() ==> k in before && now[k] == before[k]
  {
  }

  class LRUCache {
    const capacity: nat
    var usage: nat
    const lists: Lists
    const table: HandleTable

    /** The table finds this entry. */
    ghost predicate Mapped(e: LRUHandle)
      reads table`m
    {
      e.Id() in table.m && table.m[e.Id()] == e
    }

    /** The references of an entry are its clients and the cache, and one more while it is `owing`
        that one; it is on the list its count says; and its deleter has run just when no reference is left. */
    ghost predicate Account(e: LRUHandle, owing: LRUHandle?)
      reads e`refs, e`handles, e`inCache, e`deletions, e`place
    {
      && e.refs == e.handles + (if e.inCache then 1 else 0) + (if e == owing then 1 else 0)
      && e.deletions == (if e.refs == 0 then 1 else 0)
      && e.place == (if !e.inCache then Nowhere else if e.refs == 1 then Idle else Busy)
    }

    /** The cached entry of a key, if any. */
    ghost function Cached(key: Slice, hash: nat): LRUHandle?
      reads table`m
    {
      if Key(key, hash) in table.m then table.m[Key(key, hash)] else null
    }

    /** The accounts of all entries but one, or of all. */
    ghost predicate AccountsBut(e: LRUHandle?)
      reads lists, lists.nodes`refs, lists.nodes`handles, lists.nodes`inCache, lists.nodes`deletions, lists.nodes`place
    {
      forall x {:trigger Account(x, null)} :: x in lists.nodes && x != e ==> Account(x, null)
    }

    /** The table finds just the cached entries, except for a `stale` one. */
    ghost predicate Maps(stale: LRUHandle?)
      reads lists, table`m, lists.nodes`inCache
    {
      && (forall x {:trigger Mapped(x)} :: x in lists.nodes ==> (Mapped(x) <==> x.inCache && x != stale))
      && forall k :: k in table.m ==> table.m[k] in lists.nodes
    }

    /** What holds between calls. The usage is the charge of all cached entries. */
    ghost predicate Valid()
      reads this, lists, table, table.list, lists.nodes
      reads lists.lruHead`next, lists.lruHead`prev, lists.inUseHead`next, lists.inUseHead`prev
    {
      lists.Valid() && table.Valid() && AccountsBut(null) && Maps(null) && usage == lists.Total()
    }

    constructor (capacity: nat)
      ensures Valid() && this.capacity == capacity && lists.nodes == {} && lists.lru == [] && lists.inUse == [] && usage == 0
      ensures fresh(lists) && fresh(table) && fresh(table.list) && fresh(lists.lruHead) && fresh(lists.inUseHead)
    {
      this.capacity, this.usage := capacity, 0;
      lists := new Lists();
      table := new HandleTable();
    }

    method MoveToInUse(e: LRUHandle)
      requires lists.Valid() && AccountsBut(e) && e in lists.nodes && lists.Listed(e) && e.place == Idle
      modifies lists`lru, lists`inUse, e`place, lists.nodes`next, lists.nodes`prev
      modifies lists.lruHead`next, lists.lruHead`prev, lists.inUseHead`next, lists.inUseHead`prev
      ensures lists.Valid() && AccountsBut(e) && e.place == Busy && lists.Total() == old(lists.Total())
      ensures lists.lru == Without(old(lists.lru), e)
    {
      lists.Unlink(e);
      lists.AppendInUse(e);
      forall x | x in lists.nodes && x != e ensures Account(x, null) {
        assert old(Account(x, null));
      }
    }

    method MoveToIdle(e: LRUHandle)
      requires lists.Valid() && AccountsBut(e) && e in lists.nodes && lists.Listed(e) && e.place == Busy
      modifies lists`lru, lists`inUse, e`place, lists.nodes`next, lists.nodes`prev
      modifies lists.lruHead`next, lists.lruHead`prev, lists.inUseHead`next, lists.inUseHead`prev
      ensures lists.Valid() && AccountsBut(e) && e.place == Idle && lists.Total() == old(lists.Total())
      ensures lists.lru == old(lists.lru) + [e]
    {
      lists.Unlink(e);
      lists.AppendIdle(e);
      forall x | x in lists.nodes && x != e ensures Account(x, null) {
        assert old(Account(x, null));
      }
    }

    /** A client takes a reference to a cached entry. */
    method Ref(e: LRUHandle)
      requires lists.Valid() && AccountsBut(null) && e in lists.nodes && e.inCache
      modifies lists`lru, lists`inUse, e`place, e`refs, e`handles
      modifies lists.nodes`next, lists.nodes`prev
      modifies lists.lruHead`next, lists.lruHead`prev, lists.inUseHead`next, lists.inUseHead`prev
      ensures lists.Valid() && AccountsBut(null) && lists.Total() == old(lists.Total())
      ensures e.refs == old(e.refs) + 1 && e.handles == old(e.handles) + 1
      ensures lists.lru == if old(e.refs) == 1 then Without(old(lists.lru), e) else old(lists.lru)
    {
      assert Account(e, null) && lists.Listed(e) && AccountsBut(e);
      if e.refs == 1 && e.inCache {
        MoveToInUse(e);
      }
      Bump(e);
      assert Account(e, null);
    }

    method Bump(e: LRUHandle)
      requires lists.Valid() && AccountsBut(e)
      modifies e`refs, e`handles
      ensures lists.Valid() && AccountsBut(e) && e.refs == old(e.refs) + 1 && e.handles == old(e.handles) + 1
    {
      e.refs := e.refs + 1;
      e.handles := e.handles + 1;
      forall x | x in lists.nodes && x != e ensures Account(x, null) {
        assert old(Account(x, null));
      }
    }

    /** One reference less; without any left the deleter runs. */
    method Decrement(e: LRUHandle)
      requires lists.Valid() && AccountsBut(e) && e.refs > 0
      modifies e`refs, e`deletions
      ensures lists.Valid() && AccountsBut(e) && e.refs == old(e.refs) - 1
      ensures e.deletions == old(e.deletions) + (if e.refs == 0 then 1 else 0)
    {
      e.refs := e.refs - 1;
      if e.refs == 0 {
        e.deletions := e.deletions + 1;
      }
      forall x | x in lists.nodes && x != e ensures Account(x, null) {
        assert old(Account(x, null));
      }
    }

    /** Drops the reference an entry owes. A cached entry that no client holds any more becomes the
        newest idle one. */
    method Unref(e: LRUHandle)
      requires lists.Valid() && AccountsBut(e) && Account(e, e) && e in lists.nodes
      modifies lists`lru, lists`inUse, e`place, e`refs, e`deletions
      modifies lists.nodes`next, lists.nodes`prev
      modifies lists.lruHead`next, lists.lruHead`prev, lists.inUseHead`next, lists.inUseHead`prev
      ensures lists.Valid() && AccountsBut(null) && lists.Total() == old(lists.Total())
      ensures e.refs == old(e.refs) - 1 && e.deletions == old(e.deletions) + (if e.refs == 0 then 1 else 0)
      ensures lists.lru == if e.inCache && e.refs == 1 then old(lists.lru) + [e] else old(lists.lru)
      ensures !e.inCache ==> lists.inUse == old(lists.inUse)
    {
      assert lists.Listed(e);
      Decrement(e);
      if e.inCache && e.refs == 1 {
        MoveToIdle(e);
      }
      assert Account(e, null);
    }

    /** Off its list and no longer cached, an entry owes the reference of the cache. */
    method Detach(e: LRUHandle)
      requires lists.Valid() && AccountsBut(null) && Maps(e) && e.inCache && e in lists.nodes && usage == lists.Total()
      modifies this`usage, lists`lru, lists`inUse, e`place, e`inCache, lists.nodes`next, lists.nodes`prev
      modifies lists.lruHead`next, lists.lruHead`prev, lists.inUseHead`next, lists.inUseHead`prev
      ensures lists.Valid() && AccountsBut(e) && Account(e, e) && Maps(null) && !e.inCache && e.deletions == 0
      ensures usage == lists.Total() == old(usage) - e.charge
      ensures lists.lru == if e.refs == 1 then Without(old(lists.lru), e) else old(lists.lru)
      ensures lists.inUse == if e.refs == 1 then old(lists.inUse) else Without(old(lists.inUse), e)
    {
      assert Account(e, null) && lists.Listed(e) && AccountsBut(e);
      UnlinkCached(e);
      usage := usage - e.charge;
      Uncache(e);
    }

    method UnlinkCached(e: LRUHandle)
      requires lists.Valid() && AccountsBut(e) && e in lists.nodes && lists.Listed(e) && e.place != Nowhere
      modifies lists`lru, lists`inUse, e`place, lists.nodes`next, lists.nodes`prev
      modifies lists.lruHead`next, lists.lruHead`prev, lists.inUseHead`next, lists.inUseHead`prev
      ensures lists.Valid() && AccountsBut(e) && e.place == Nowhere
      ensures lists.Total() == old(lists.Total()) - e.charge
      ensures lists.lru == if old(e.place) == Idle then Without(old(lists.lru), e) else old(lists.lru)
      ensures lists.inUse == if old(e.place) == Idle then old(lists.inUse) else Without(old(lists.inUse), e)
    {
      lists.Unlink(e);
      forall x | x in lists.nodes && x != e ensures Account(x, null) {
        assert old(Account(x, null));
      }
    }

    method Uncache(e: LRUHandle)
      requires lists.Valid() && AccountsBut(e) && Maps(e) && e in lists.nodes
      modifies e`inCache
      ensures lists.Valid() && AccountsBut(e) && Maps(null) && !e.inCache
    {
      e.inCache := false;
      forall x | x in lists.nodes && x != e ensures Account(x, null) {
        assert old(Account(x, null));
      }
      forall x | x in lists.nodes ensures Mapped(x) <==> x.inCache {
        assert old(Mapped(x) <==> x.inCache && x != e);
      }
    }

    /** FinishErase: the entry, if any, has been taken out of the table. */
    method FinishErase(e: LRUHandle?)
      requires lists.Valid() && table.Valid() && usage == lists.Total()
      requires AccountsBut(null) && Maps(e) && (e != null ==> e.inCache && e in lists.nodes)
      modifies this`usage, lists`lru, lists`inUse, Just(e)`place, lists.nodes`next, lists.nodes`prev
      modifies Just(e)`refs, Just(e)`inCache, Just(e)`deletions
      modifies lists.lruHead`next, lists.lruHead`prev, lists.inUseHead`next, lists.inUseHead`prev
      ensures Valid()
      ensures e == null ==> usage == old(usage) && lists.lru == old(lists.lru) && lists.inUse == old(lists.inUse)
      ensures e != null ==> !e.inCache && usage == old(usage) - e.charge && e.refs == old(e.refs) - 1
      ensures e != null ==> e.deletions == if e.refs == 0 then 1 else 0
      ensures e != null ==> lists.lru == if old(e.refs) == 1 then Without(old(lists.lru), e) else old(lists.lru)
      ensures e != null ==> lists.inUse == if old(e.refs) == 1 then old(lists.inUse) else Without(old(lists.inUse), e)
    {
      if e != null {
        EraseEntry(e);
      }
    }

    method EraseEntry(e: LRUHandle)
      requires lists.Valid() && table.Valid() && usage == lists.Total() && AccountsBut(null) && Maps(e) && e.inCache && e in lists.nodes
      modifies this`usage, lists`lru, lists`inUse, e`place, lists.nodes`next, lists.nodes`prev
      modifies e`refs, e`inCache, e`deletions
      modifies lists.lruHead`next, lists.lruHead`prev, lists.inUseHead`next, lists.inUseHead`prev
      ensures Valid() && !e.inCache && usage == old(usage) - e.charge && e.refs == old(e.refs) - 1
      ensures e.deletions == if e.refs == 0 then 1 else 0
      ensures lists.lru == if old(e.refs) == 1 then Without(old(lists.lru), e) else old(lists.lru)
      ensures lists.inUse == if old(e.refs) == 1 then old(lists.inUse) else Without(old(lists.inUse), e)
    {
      Detach(e);
      Unref(e);
    }

    /** Takes the entry of a key out of the table. */
    method Withdraw(key: Slice, hash: nat) returns (h: LRUHandle?)
      requires table.Valid() && Maps(null)
      modifies table`elems, table`m, table.list
      ensures table.Valid() && table.m == old(table.m) - {Key(key, hash)}
      ensures h == if Key(key, hash) in old(table.m) then old(table.m)[Key(key, hash)] else null
      ensures Maps(h) && (h != null ==> h.inCache && h in lists.nodes)
    {
      h := table.Remove(key, hash);
      assert h != null ==> old(Mapped(h));
      forall x | x in lists.nodes ensures Mapped(x) <==> x.inCache && x != h {
        assert old(Mapped(x) <==> x.inCache);
      }
    }

    /** Puts a cached entry into the table, where it may displace one with the same key. */
    method Publish(e: LRUHandle) returns (h: LRUHandle?)
      requires table.Valid() && Maps(e) && e.inCache && e in lists.nodes
      modifies table`list, table`length, table`elems, table`m, table`bits, table.list
      ensures table.Valid() && (table.list == old(table.list) || fresh(table.list))
      ensures table.m == old(table.m)[e.Id() := e] && h != e
      ensures h == if e.Id() in old(table.m) then old(table.m)[e.Id()] else null
      ensures Maps(h) && (h != null ==> h.inCache && h in lists.nodes)
    {
      h := table.Insert(e);
      assert old(Mapped(e) <==> e.inCache && e != e);
      assert h != null ==> old(Mapped(h) <==> h.inCache && h != e);
      forall x | x in lists.nodes ensures Mapped(x) <==> x.inCache && x != h {
        assert old(Mapped(x) <==> x.inCache && x != e);
      }
    }

    // ----- The calls of a client -----

    /** The cached entry of the key, if any; the client holds it until it releases it. */
    method Lookup(key: Slice, hash: nat) returns (e: LRUHandle?)
      requires Valid()
      modifies lists`lru, lists`inUse, Just(Cached(key, hash))`place, Just(Cached(key, hash))`refs, Just(Cached(key, hash))`handles
      modifies lists.nodes`next, lists.nodes`prev
      modifies lists.lruHead`next, lists.lruHead`prev, lists.inUseHead`next, lists.inUseHead`prev
      ensures Valid() && e == Cached(key, hash)
      ensures e != null ==> e in lists.nodes && e.handles == old(e.handles) + 1
      ensures lists.lru == if e != null && old(e.refs) == 1 then Without(old(lists.lru), e) else old(lists.lru)
    {
      e := table.Lookup(key, hash);
      if e != null {
        assert Mapped(e);
        Ref(e);
      }
    }

    /** A client gives its handle back. */
    method Release(e: LRUHandle)
      requires Valid() && e in lists.nodes && e.handles > 0
      modifies lists`lru, lists`inUse, e`place, e`refs, e`handles, e`deletions
      modifies lists.nodes`next, lists.nodes`prev
      modifies lists.lruHead`next, lists.lruHead`prev, lists.inUseHead`next, lists.inUseHead`prev
      ensures Valid() && e.handles == old(e.handles) - 1
      ensures e.deletions == if e.handles == 0 && !old(e.inCache) then 1 else 0
      ensures lists.lru == if e.handles == 0 && old(e.inCache) then old(lists.lru) + [e] else old(lists.lru)
    {
      assert Account(e, null);
      Leave(e);
      Unref(e);
    }

    ghost method Leave(e: LRUHandle)
      requires lists.Valid() && AccountsBut(null) && e in lists.nodes && e.handles > 0
      modifies e`handles
      ensures lists.Valid() && AccountsBut(e) && Account(e, e) && e.handles == old(e.handles) - 1
    {
      assert Account(e, null);
      e.handles := e.handles - 1;
      forall x | x in lists.nodes && x != e ensures Account(x, null) {
        assert old(Account(x, null));
      }
    }

    method Erase(key: Slice, hash: nat)
      requires Valid()
      modifies this`usage, lists`lru, lists`inUse, table`elems, table`m, table.list
      modifies lists.nodes`next, lists.nodes`prev, lists.nodes`refs, lists.nodes`inCache, lists.nodes`deletions, lists.nodes`place
      modifies lists.lruHead`next, lists.lruHead`prev, lists.inUseHead`next, lists.inUseHead`prev
      ensures Valid() && table.m == old(table.m) - {Key(key, hash)}
      ensures lists.lru == Minus(old(lists.lru), old(Cached(key, hash))) && lists.inUse == Minus(old(lists.inUse), old(Cached(key, hash)))
    {
      var h := Withdraw(key, hash);
      assert Just(h) <= lists.nodes;
      if h != null {
        OnOneList(h);
      }
      FinishErase(h);
    }

    /** Drops the oldest idle entry: no client holds it, so its deleter runs. */
    method EvictOldest()
      requires Valid() && lists.lru != []
      modifies this`usage, lists`lru, lists`inUse, table`elems, table`m, table.list
      modifies lists.nodes`next, lists.nodes`prev, lists.nodes`refs, lists.nodes`inCache, lists.nodes`deletions, lists.nodes`place
      modifies lists.lruHead`next, lists.lruHead`prev, lists.inUseHead`next, lists.inUseHead`prev
      ensures Valid()
      ensures lists.inUse == old(lists.inUse)
      ensures lists.lru == old(lists.lru)[1..] && usage == old(usage) - old(lists.lru)[0].charge
      ensures old(lists.lru)[0].handles == 0 && old(lists.lru)[0].deletions == 1
      ensures table.m == old(table.m) - {old(lists.lru)[0].Id()}
    {
      OldestFirst(lists.lruHead, lists.lru);
      var old_ := lists.lruHead.next;
      OldestIsIdle();
      var h := Withdraw(old_.key, old_.hash);
      assert Just(h) <= lists.nodes;
      FinishErase(h);
    }

    lemma OldestIsIdle()
      requires Valid() && lists.lru != []
      ensures lists.lru[0] in lists.nodes && Account(lists.lru[0], null) && Mapped(lists.lru[0])
      ensures lists.lru[0].refs == 1 && lists.lru[0].inCache && lists.lru[0].handles == 0
      ensures Without(lists.lru, lists.lru[0]) == lists.lru[1..]
    {
      var e := lists.lru[0];
      assert lists.Listed(e) && Account(e, null) && (Mapped(e) <==> e.inCache);
      var k := IndexOf(lists.lru, e);
      assert k > 0 ==> Differ(lists.lru, 0, k);
    }

    /** Evicts until the charge fits or nothing is idle, oldest entries first and no more than needed. */
    method Evict()
      requires Valid()
      modifies this`usage, lists`lru, lists`inUse, table`elems, table`m, table.list
      modifies lists.nodes`next, lists.nodes`prev, lists.nodes`refs, lists.nodes`inCache, lists.nodes`deletions, lists.nodes`place
      modifies lists.lruHead`next, lists.lruHead`prev, lists.inUseHead`next, lists.inUseHead`prev
      ensures Valid() && (usage <= capacity || lists.lru == [])
      ensures lists.inUse == old(lists.inUse)
      ensures Part(table.m, old(table.m))
      ensures Trimmed(old(lists.lru), lists.lru, usage, capacity)
    {
      ghost var n := 0;
      OldestFirst(lists.lruHead, lists.lru);
      while usage > capacity && lists.lruHead.next != lists.lruHead
        invariant Valid() && lists.inUse == old(lists.inUse)
        invariant Part(table.m, old(table.m))
        invariant lists.lruHead.next == lists.lruHead <==> lists.lru == []
        invariant n <= |old(lists.lru)| && lists.lru == old(lists.lru)[n..]
        invariant n > 0 ==> usage + old(lists.lru)[n - 1].charge > capacity
        decreases |lists.lru|
      {
        EvictOldest();
        OldestFirst(lists.lruHead, lists.lru);
        n := n + 1;
      }
    }

    /** Drops every idle entry. */
    method Prune()
      requires Valid()
      modifies this`usage, lists`lru, lists`inUse, table`elems, table`m, table.list
      modifies lists.nodes`next, lists.nodes`prev, lists.nodes`refs, lists.nodes`inCache, lists.nodes`deletions, lists.nodes`place
      modifies lists.lruHead`next, lists.lruHead`prev, lists.inUseHead`next, lists.inUseHead`prev
      ensures Valid() && lists.lru == [] && lists.inUse == old(lists.inUse)
      ensures Part(table.m, old(table.m))
    {
      OldestFirst(lists.lruHead, lists.lru);
      while lists.lruHead.next != lists.lruHead
        invariant Valid() && lists.inUse == old(lists.inUse)
        invariant Part(table.m, old(table.m))
        invariant lists.lruHead.next == lists.lruHead <==> lists.lru == []
        decreases |lists.lru|
      {
        EvictOldest();
        OldestFirst(lists.lruHead, lists.lru);
      }
    }

    /** A new entry that only its client refers to. */
    method NewEntry(key: Slice, hash: nat, charge: nat) returns (e: LRUHandle)
      requires Valid()
      modifies lists`nodes
      ensures Valid() && fresh(e) && lists.nodes == old(lists.nodes) + {e}
      ensures e.Id() == Key(key, hash) && e.charge == charge && e.handles == 1 && e.refs == 1 && !e.inCache
    {
      e := new LRUHandle(key, hash, charge, 1, false);
      e.handles := 1;
      Register(e);
    }

    ghost method Register(e: LRUHandle)
      requires Valid() && e !in lists.nodes && e != lists.lruHead && e != lists.inUseHead
      requires e.handles == 1 && e.refs == 1 && !e.inCache && e.deletions == 0 && e.place == Nowhere
      modifies lists`nodes
      ensures Valid() && lists.nodes == old(lists.nodes) + {e}
    {
      lists.Adopt(e);
      forall x | x in lists.nodes ensures Account(x, null) {
        assert x != e ==> old(Account(x, null));
      }
      forall x | x in lists.nodes ensures Mapped(x) <==> x.inCache {
        assert x != e ==> old(Mapped(x) <==> x.inCache);
      }
    }

    /** Gives the cache its reference to a new entry, which is not in the table yet. */
    method Cache(e: LRUHandle)
      requires Valid() && e in lists.nodes && e.refs == 1 && e.handles == 1 && !e.inCache
      modifies this`usage, lists`inUse, e`place, lists.nodes`next, lists.nodes`prev, e`refs, e`inCache
      modifies lists.inUseHead`next, lists.inUseHead`prev
      ensures lists.Valid() && AccountsBut(null) && Maps(e) && usage == lists.Total()
      ensures e.inCache && e.refs == 2 && lists.inUse == old(lists.inUse) + [e]
    {
      Mark(e);
      StartUse(e);
    }

    method Mark(e: LRUHandle)
      requires lists.Valid() && AccountsBut(null) && Maps(null) && e in lists.nodes && e.refs == 1 && e.handles == 1 && !e.inCache
      modifies e`refs, e`inCache
      ensures lists.Valid() && AccountsBut(e) && Maps(e) && e.inCache && e.refs == 2
      ensures lists.Listed(e) && e.place == Nowhere && e.deletions == 0
    {
      assert Account(e, null) && lists.Listed(e);
      e.refs := e.refs + 1;
      e.inCache := true;
      forall x | x in lists.nodes && x != e ensures Account(x, null) {
        assert old(Account(x, null));
      }
      forall x | x in lists.nodes ensures Mapped(x) <==> x.inCache && x != e {
        assert old(Mapped(x) <==> x.inCache);
      }
    }

    method StartUse(e: LRUHandle)
      requires lists.Valid() && AccountsBut(e) && e in lists.nodes && lists.Listed(e) && e.place == Nowhere
      requires e.inCache && e.refs == 2 && e.handles == 1 && e.deletions == 0 && usage == lists.Total()
      modifies this`usage, lists`inUse, e`place, lists.nodes`next, lists.nodes`prev, lists.inUseHead`next, lists.inUseHead`prev
      ensures lists.Valid() && AccountsBut(null)
      ensures usage == lists.Total() && lists.inUse == old(lists.inUse) + [e]
    {
      lists.AppendInUse(e);
      usage := usage + e.charge;
      forall x | x in lists.nodes ensures Account(x, null) {
        assert x != e ==> old(Account(x, null));
      }
    }

    /** The new entry takes the place of one with the same key, and is held by its client; then idle
        entries go until the charge fits. A cache without capacity keeps nothing. */
    method Insert(key: Slice, hash: nat, charge: nat) returns (e: LRUHandle, ghost idle: seq<LRUHandle>)
      requires Valid()
      modifies this`usage, lists`lru, lists`inUse, lists`nodes, table`list, table`length, table`elems, table`m, table`bits, table.list
      modifies lists.nodes`next, lists.nodes`prev, lists.nodes`refs, lists.nodes`inCache, lists.nodes`deletions, lists.nodes`place
      modifies lists.lruHead`next, lists.lruHead`prev, lists.inUseHead`next, lists.inUseHead`prev
      ensures Valid() && fresh(e) && lists.nodes == old(lists.nodes) + {e}
      ensures e.Id() == Key(key, hash) && e.charge == charge && e.handles == 1
      ensures usage <= capacity || lists.lru == []
      ensures capacity > 0 ==> e.inCache && Key(key, hash) in table.m && table.m[Key(key, hash)] == e
      ensures capacity == 0 ==> !e.inCache
      ensures lists.inUse == BusyAfter(old(lists.inUse), e, old(Cached(key, hash)), capacity)
      ensures idle == IdleAfter(old(lists.lru), old(Cached(key, hash)), capacity) && Trimmed(idle, lists.lru, usage, capacity)
      ensures forall k :: k in table.m && k != Key(key, hash) ==> k in old(table.m) && table.m[k] == old(table.m)[k]
    {
      e := NewEntry(key, hash, charge);
      idle := AdmitAndEvict(e);
      StillCached(e);
    }

    method AdmitAndEvict(e: LRUHandle) returns (ghost idle: seq<LRUHandle>)
      requires Valid() && e in lists.nodes && e.refs == 1 && e.handles == 1 && !e.inCache
      modifies this`usage, lists`lru, lists`inUse, table`list, table`length, table`elems, table`m, table`bits, table.list
      modifies lists.nodes`next, lists.nodes`prev, lists.nodes`refs, lists.nodes`inCache, lists.nodes`deletions, lists.nodes`place
      modifies lists.lruHead`next, lists.lruHead`prev, lists.inUseHead`next, lists.inUseHead`prev
      ensures Valid() && (usage <= capacity || lists.lru == [])
      ensures if capacity > 0 then e in lists.inUse else !e.inCache
      ensures lists.inUse == BusyAfter(old(lists.inUse), e, old(Cached(e.key, e.hash)), capacity)
      ensures idle == IdleAfter(old(lists.lru), old(Cached(e.key, e.hash)), capacity) && Trimmed(idle, lists.lru, usage, capacity)
      ensures forall k :: k in table.m && k != e.Id() ==> k in old(table.m) && table.m[k] == old(table.m)[k]
    {
      ghost var before := table.m;
      AdmitIfRoom(e);
      idle := lists.lru;
      ghost var admitted := table.m;
      Evict();
      NotMapped(e);
      OnlyNew(before, e, capacity, admitted, table.m);
    }

    /** Without capacity the entry stays with its client alone. */
    method AdmitIfRoom(e: LRUHandle)
      requires Valid() && e in lists.nodes && e.refs == 1 && e.handles == 1 && !e.inCache
      modifies this`usage, lists`lru, lists`inUse, table`list, table`length, table`elems, table`m, table`bits, table.list
      modifies lists.nodes`next, lists.nodes`prev, lists.nodes`refs, lists.nodes`inCache, lists.nodes`deletions, lists.nodes`place
      modifies lists.lruHead`next, lists.lruHead`prev, lists.inUseHead`next, lists.inUseHead`prev
      ensures Valid() && (table.list == old(table.list) || fresh(table.list))
      ensures if capacity > 0 then e in lists.inUse else e.Id() !in table.m || table.m[e.Id()] != e
      ensures table.m == MapAfter(old(table.m), e, capacity)
      ensures lists.lru == IdleAfter(old(lists.lru), old(Cached(e.key, e.hash)), capacity)
      ensures lists.inUse == BusyAfter(old(lists.inUse), e, old(Cached(e.key, e.hash)), capacity)
    {
      NotMapped(e);
      if capacity > 0 {
        Admit(e);
      }
    }

    lemma NotMapped(e: LRUHandle)
      requires Valid() && e in lists.nodes
      ensures Mapped(e) <==> e.inCache
    {
    }

    method Admit(e: LRUHandle)
      requires Valid() && e in lists.nodes && e.refs == 1 && e.handles == 1 && !e.inCache
      modifies this`usage, lists`lru, lists`inUse, table`list, table`length, table`elems, table`m, table`bits, table.list
      modifies lists.nodes`next, lists.nodes`prev, lists.nodes`refs, lists.nodes`inCache, lists.nodes`deletions, lists.nodes`place
      modifies lists.lruHead`next, lists.lruHead`prev, lists.inUseHead`next, lists.inUseHead`prev
      ensures Valid() && e in lists.inUse && (table.list == old(table.list) || fresh(table.list))
      ensures table.m == old(table.m)[e.Id() := e]
      ensures lists.lru == Minus(old(lists.lru), old(Cached(e.key, e.hash)))
      ensures lists.inUse == Minus(old(lists.inUse) + [e], old(Cached(e.key, e.hash)))
    {
      var displaced := CacheAndPublish(e);
      EraseDisplaced(displaced, e);
    }

    method EraseDisplaced(h: LRUHandle?, ghost e: LRUHandle)
      requires lists.Valid() && table.Valid() && usage == lists.Total() && AccountsBut(null) && Maps(h)
      requires h != null ==> h.inCache && h in lists.nodes
      requires e != h && e in lists.nodes && e.inCache && e.refs == 2
      modifies this`usage, lists`lru, lists`inUse
      modifies lists.nodes`next, lists.nodes`prev, lists.nodes`refs, lists.nodes`inCache, lists.nodes`deletions, lists.nodes`place
      modifies lists.lruHead`next, lists.lruHead`prev, lists.inUseHead`next, lists.inUseHead`prev
      ensures Valid() && e in lists.inUse
      ensures lists.lru == Minus(old(lists.lru), h) && lists.inUse == Minus(old(lists.inUse), h)
    {
      assert Just(h) <= lists.nodes && e !in Just(h);
      if h != null {
        OnOneList(h);
      }
      FinishErase(h);
      NowInUse(e);
    }

    /** A cached entry is only on the list its count says. */
    lemma OnOneList(h: LRUHandle)
      requires lists.Valid() && AccountsBut(null) && h in lists.nodes && h.inCache
      ensures h.refs != 1 ==> h !in lists.lru
      ensures h.refs == 1 ==> h !in lists.inUse
    {
      assert Account(h, null) && lists.Listed(h);
    }

    method CacheAndPublish(e: LRUHandle) returns (displaced: LRUHandle?)
      requires Valid() && e in lists.nodes && e.refs == 1 && e.handles == 1 && !e.inCache
      modifies this`usage, lists`inUse, table`list, table`length, table`elems, table`m, table`bits, table.list
      modifies lists.nodes`next, lists.nodes`prev, e`refs, e`inCache, e`place
      modifies lists.inUseHead`next, lists.inUseHead`prev
      ensures lists.Valid() && table.Valid() && AccountsBut(null) && usage == lists.Total()
      ensures Maps(displaced) && displaced != e && (displaced != null ==> displaced.inCache && displaced in lists.nodes)
      ensures e.inCache && e.refs == 2 && (table.list == old(table.list) || fresh(table.list))
      ensures table.m == old(table.m)[e.Id() := e]
      ensures displaced == old(Cached(e.key, e.hash)) && lists.inUse == old(lists.inUse) + [e]
    {
      Cache(e);
      displaced := Publish(e);
    }

    lemma NowInUse(e: LRUHandle)
      requires Valid() && e in lists.nodes && e.inCache && e.refs == 2
      ensures e in lists.inUse
    {
      assert Account(e, null) && lists.Listed(e);
    }

    lemma StillCached(e: LRUHandle)
      requires Valid() && e in lists.nodes
      ensures e in lists.inUse ==> e.inCache
      ensures e.inCache ==> e.Id() in table.m && table.m[e.Id()] == e
    {
      assert Account(e, null) && lists.Listed(e) && (Mapped(e) <==> e.inCache);
    }

    /** Between calls: cached entries are on the list their count says, a deleter has run at most
        once, and exactly when the entry is neither cached nor held by a client. */
    lemma BetweenCalls(e: LRUHandle)
      requires Valid() && e in lists.nodes
      ensures e.refs == e.handles + (if e.inCache then 1 else 0)
      ensures e in lists.lru <==> e.inCache && e.refs == 1
      ensures e in lists.inUse <==> e.inCache && e.refs > 1
      ensures e.deletions <= 1 && (e.deletions == 1 <==> !e.inCache && e.handles == 0)
      ensures e.inCache <==> (e.Id() in table.m && table.m[e.Id()] == e)
    {
      assert Account(e, null) && lists.Listed(e) && (Mapped(e) <==> e.inCache);
    }
  }
}
