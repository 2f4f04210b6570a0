/** The cache object: both lists, the size bookkeeping and the operations of src/cache/cache.c,
    proved to compute the steps of `CacheSpec`. */
module CacheStore {
  import opened Common
  import opened CacheSpec
  import opened CacheLists
  import CacheHash

  ghost function Elements(nodes: seq<Entry>): set<Entry> {
    set e | e in nodes
  }

  lemma MovedElements(s: seq<Entry>, j: nat)
    requires j < |s|
    ensures Elements([s[j]] + (s[..j] + s[j + 1..])) == Elements(s)
  {
    var r := [s[j]] + (s[..j] + s[j + 1..]);
    forall e ensures e in r <==> e in s {
      if e in s {
        var i :| 0 <= i < |s| && s[i] == e;
        assert if i < j then r[i + 1] == e else if i == j then r[0] == e else r[i] == e;
      }
    }
  }

  lemma LastElement(s: seq<Entry>, e: Entry)
    requires NoDup(s + [e])
    ensures Elements(s) == Elements(s + [e]) - {e} && e in Elements(s + [e])
  {
    var t := s + [e];
    assert t[|s|] == e;
    forall i | 0 <= i < |s| ensures s[i] != e { assert t[i] == s[i]; }
  }

  lemma FirstElement(s: seq<Entry>, e: Entry)
    ensures Elements([e] + s) == Elements(s) + {e}
  {
  }

  /** The cache with the entry at the tail out of both structures, its size still booked. */
  function Unlinked(c: Cache): Cache
    requires |c.chains| == BUCKETS && c.lru != []
  {
    var v := c.lru[|c.lru| - 1];
    var b := Bucket(c.slot, v.key);
    c.(lru := c.lru[..|c.lru| - 1], chains := c.chains[b := Without(c.chains[b], v)])
  }

  /** And then its size taken off the books. */
  function Discounted(c: Cache): Cache
    requires |c.chains| == BUCKETS && c.lru != []
  {
    Unlinked(c).(size := U32(c.size - c.lru[|c.lru| - 1].size), count := U32(c.count - 1))
  }

  /** The order of the two does not matter. */
  lemma DiscountCommutes(c: Cache, d: Cache)
    requires |c.chains| == BUCKETS && c.lru != []
    requires d == c.(size := U32(c.size - c.lru[|c.lru| - 1].size), count := U32(c.count - 1))
    ensures Unlinked(d) == Discounted(c)
  {
  }

  lemma IsEvicted(c: Cache)
    requires |c.chains| == BUCKETS && c.lru != []
    ensures Discounted(c) == Evict(c)
  {
  }

  /** The cache with an entry in front of both structures, not yet booked. */
  function Joined(c: Cache, it: Item): Cache
    requires |c.chains| == BUCKETS
  {
    var b := Bucket(c.slot, it.key);
    c.(lru := [it] + c.lru, chains := c.chains[b := [it] + c.chains[b]])
  }

  lemma JoinCommutes(c: Cache, d: Cache, it: Item)
    requires |c.chains| == BUCKETS
    requires d == c.(size := U32(c.size + it.size), count := U32(c.count + 1), next := c.next + 1)
    ensures Joined(d, it) == Link(c, it)
  {
  }

  lemma InsertDone(c: Cache, key: Key, size: nat, ttl: Option<int>, value: int, now: int)
    requires |c.chains| == BUCKETS && size <= c.maxObject
    ensures var room := MakeRoom(c, size);
      Insert(c, key, size, ttl, value, now) ==
        if Crowded(room, size) then (room, Spins) else (Link(room, Fresh(room, key, size, ttl, value, now)), Yes)
  {
  }

  lemma MakeRoomUnfolds(c: Cache, size: nat)
    requires |c.chains| == BUCKETS
    ensures MakeRoom(c, size) == if Crowded(c, size) && c.lru != [] then MakeRoom(Evict(c), size) else c
  {
  }

  class ResponseCache {
    const maxSize: nat
    const maxObject: nat
    const maxAge: nat
    const lru: LruList
    const hash: HashChains
    var currentSize: int
    var entryCount: int
    ghost var next: nat

    /** Both lists run over the same entries; every stamp has been given out. */
    ghost predicate Valid()
      reads this`next, lru, lru.nodes`lruPrev, lru.nodes`lruNext, hash, hash.table, hash.entries`hashNext
    {
      && lru.Valid() && hash.Valid() && hash.entries == Elements(lru.nodes)
      && forall e :: e in hash.entries ==> e.stamp < next
    }

    /** What the lists and counters represent. */
    ghost function View(): Cache
      reads this, lru, hash
    {
      Cache(hash.slot, maxSize, maxObject, maxAge, hash.items, lru.items, currentSize, entryCount, next)
    }

    constructor (l: Limits)
      ensures Valid() && View() == Empty(l)
      ensures fresh(lru) && fresh(hash) && fresh(hash.table)
    {
      maxSize, maxObject, maxAge := l.maxSize, l.maxObject, l.maxAge;
      lru := new LruList();
      hash := new HashChains(l.slot);
      currentSize, entryCount, next := 0, 0, 0;
    }

    method MoveInList(e: Entry, ghost j: nat)
      requires Valid() && j < |lru.nodes| && lru.nodes[j] == e
      modifies lru, hash.entries`lruPrev, hash.entries`lruNext
      ensures Valid() && lru.items == [ItemOf(e)] + Without(old(lru.items), ItemOf(e))
    {
      MovedElements(lru.nodes, j);
      lru.MoveToFront(e, j);
    }

    /** Moves an entry to the most recently used end. */
    method UpdateLru(e: Entry)
      requires Valid() && e in hash.entries
      modifies lru, hash.entries`lruPrev, hash.entries`lruNext
      ensures Valid() && View() == old(View()).(lru := [ItemOf(e)] + Without(old(lru.items), ItemOf(e)))
    {
      ghost var j :| 0 <= j < |lru.nodes| && lru.nodes[j] == e;
      MoveInList(e, j);
    }

    method Lookup(key: Key, now: int) returns (e: Entry?)
      requires Valid()
      modifies lru, hash.entries`lruPrev, hash.entries`lruNext
      ensures Valid() && View() == CacheSpec.Lookup(old(View()), key, now)
      ensures Found(old(View()), key, now) == if e == null then None else Some(ItemOf(e))
    {
      e := hash.Find(key);
      if e == null || e.expires <= now {
        return null;
      }
      UpdateLru(e);
    }

    /** The entry is in its chain but not in the list: halfway in or halfway out. */
    ghost predicate Half(e: Entry)
      reads this`next, lru, lru.nodes`lruPrev, lru.nodes`lruNext, hash, hash.table, hash.entries`hashNext
    {
      && lru.Valid() && hash.Valid() && hash.entries == Elements(lru.nodes) + {e} && e !in Elements(lru.nodes)
      && (forall x :: x in hash.entries ==> x.stamp < next)
    }

    method PopList() returns (victim: Entry)
      requires Valid() && lru.nodes != []
      modifies lru, hash.entries`lruNext
      ensures Half(victim) && ItemOf(victim) == old(lru.items)[|old(lru.items)| - 1]
      ensures lru.items == old(lru.items)[..|old(lru.items)| - 1]
    {
      MirrorsNoDup(lru.nodes, lru.items);
      victim := lru.PopBack();
      LastElement(lru.nodes, victim);
    }

    method DropChain(victim: Entry)
      requires Half(victim)
      modifies hash, hash.table, hash.entries`hashNext
      ensures Valid() && hash.entries <= old(hash.entries)
      ensures hash.items == old(hash.items)[Bucket(hash.slot, victim.key) := Without(old(hash.items)[Bucket(hash.slot, victim.key)], ItemOf(victim))]
    {
      hash.Remove(victim);
    }

    /** Takes the least recently used entry out of both lists. */
    method Unlink() returns (victim: Entry)
      requires Valid() && lru.nodes != []
      modifies lru, hash, hash.table, hash.entries`lruNext, hash.entries`hashNext
      ensures Valid() && hash.entries <= old(hash.entries)
      ensures |old(View()).chains| == BUCKETS && old(View()).lru != [] && View() == Unlinked(old(View()))
      ensures ItemOf(victim) == old(lru.items)[|old(lru.items)| - 1]
    {
      victim := PopList();
      DropChain(victim);
    }

    /** The counters go first here; nothing can observe the order. */
    method EvictLru()
      requires Valid()
      modifies this`currentSize, this`entryCount, lru, hash, hash.table
      modifies hash.entries`lruNext, hash.entries`hashNext
      ensures Valid() && View() == Evict(old(View())) && hash.entries <= old(hash.entries)
    {
      if lru.tail == null {
        assert lru.items == [];
        return;
      }
      ghost var c := View();
      IsEvicted(c);
      currentSize := U32(currentSize - lru.tail.size);
      entryCount := U32(entryCount - 1);
      ghost var d := View();
      assert ItemOf(lru.tail) == lru.items[|lru.items| - 1];
      DiscountCommutes(c, d);
      var victim := Unlink();
    }

    method PushChain(e: Entry)
      requires Valid() && e.stamp < next && forall x :: x in hash.entries ==> x.stamp != e.stamp
      modifies hash, hash.table, e`hashNext
      ensures Half(e) && lru.nodes == old(lru.nodes) && lru.items == old(lru.items)
      ensures forall x :: x in lru.nodes ==> x.stamp != e.stamp
      ensures hash.entries == old(hash.entries) + {e}
      ensures hash.items == old(hash.items)[Bucket(hash.slot, e.key) := [ItemOf(e)] + old(hash.items)[Bucket(hash.slot, e.key)]]
    {
      assert forall x :: x in lru.nodes ==> x in hash.entries;
      hash.Push(e);
    }

    method PushList(e: Entry)
      requires Half(e) && forall x :: x in lru.nodes ==> x.stamp != e.stamp
      modifies lru, hash.entries`lruPrev, e`lruPrev, e`lruNext
      ensures Valid() && lru.items == [ItemOf(e)] + old(lru.items)
    {
      ghost var before := lru.nodes;
      lru.PushFront(e);
      FirstElement(before, e);
    }

    /** Puts a new entry in front of its chain and of the list. */
    method LinkIn(e: Entry)
      requires Valid() && e.stamp < next && forall x :: x in hash.entries ==> x.stamp != e.stamp
      modifies lru, hash, hash.table, hash.entries`lruPrev, e
      ensures Valid() && hash.entries == old(hash.entries) + {e}
      ensures |old(View()).chains| == BUCKETS && View() == Joined(old(View()), ItemOf(e))
    {
      PushChain(e);
      PushList(e);
    }

    /** Stores a new entry in front, after making room. `Spins` stands for the eviction loop that
        never ends: the list is empty and the entry still does not fit. */
    method Insert(key: Key, size: nat, ttl: Option<int>, value: int, now: int) returns (stored: Stored)
      requires Valid()
      modifies this, lru, hash, hash.table, hash.entries
      ensures Valid()
      ensures (View(), stored) == CacheSpec.Insert(old(View()), key, size, ttl, value, now)
      ensures forall e :: e in hash.entries ==> e in old(hash.entries) || fresh(e)
    {
      if size > maxObject {
        return TooLarge;
      }
      ghost var room := MakeRoom(View(), size);
      InsertDone(View(), key, size, ttl, value, now);
      var fits := Room(size);
      if !fits {
        return Spins;
      }
      var e := new Entry(key, size, if ttl.Some? then ttl.value else now + maxAge, value, next);
      assert ItemOf(e) == Fresh(room, key, size, ttl, value, now);
      Store(e);
      return Yes;
    }

    /** One turn of the eviction loop, unless the entry fits or nothing is left to evict. */
    method EvictFor(size: nat) returns (evicted: bool)
      requires Valid()
      modifies this`currentSize, this`entryCount, lru, hash, hash.table
      modifies hash.entries`lruNext, hash.entries`hashNext
      ensures Valid() && hash.entries <= old(hash.entries)
      ensures evicted <==> Crowded(old(View()), size) && old(lru.items) != []
      ensures View() == if evicted then Evict(old(View())) else old(View())
      ensures evicted ==> |lru.items| < |old(lru.items)|
    {
      assert |lru.items| == |lru.nodes|;
      if U32(currentSize + size) <= maxSize || lru.tail == null {
        return false;
      }
      EvictLru();
      return true;
    }

    /** The eviction loop; it reports the case in which it would spin. */
    method Room(size: nat) returns (fits: bool)
      requires Valid()
      modifies this`currentSize, this`entryCount, lru, hash, hash.table
      modifies hash.entries`lruNext, hash.entries`hashNext
      ensures Valid() && hash.entries <= old(hash.entries)
      ensures View() == MakeRoom(old(View()), size) && fits == !Crowded(View(), size)
    {
      ghost var c, room := View(), MakeRoom(View(), size);
      var more := true;
      while more
        invariant Valid() && hash.entries <= old(hash.entries)
        invariant View() == c && |c.chains| == BUCKETS && MakeRoom(c, size) == room
        invariant !more ==> c == room
        decreases more, |lru.items|
      {
        MakeRoomUnfolds(c, size);
        more := EvictFor(size);
        c := if more then Evict(c) else c;
      }
      return U32(currentSize + size) <= maxSize;
    }

    method Book(size: nat)
      requires Valid()
      modifies this`next, this`currentSize, this`entryCount
      ensures Valid() && next == old(next) + 1
      ensures View() == old(View()).(size := U32(old(View()).size + size), count := U32(old(View()).count + 1), next := next)
    {
      next := next + 1;
      currentSize := U32(currentSize + size);
      entryCount := U32(entryCount + 1);
    }

    method Store(e: Entry)
      requires Valid() && e !in hash.entries && e.stamp == next
      modifies this, lru, hash, hash.table, hash.entries`lruPrev, e
      ensures Valid() && View() == Link(old(View()), ItemOf(e)) && hash.entries == old(hash.entries) + {e}
    {
      ghost var c := View();
      Book(e.size);
      JoinCommutes(c, View(), ItemOf(e));
      LinkIn(e);
    }
  }

  /** `cache_create`: one hour of default lifetime, the Jenkins hash for the buckets. */
  method Create(maxSize: nat, maxObject: nat) returns (c: ResponseCache)
    ensures c.Valid() && c.View() == Empty(Limits(CacheHash.SlotOf, maxSize, maxObject, 3600))
  {
    c := new ResponseCache(Limits(CacheHash.SlotOf, maxSize, maxObject, 3600));
  }
}
