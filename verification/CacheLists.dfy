/** The two intrusive lists that run through every cache entry. */
module CacheLists {
  import opened Common
  import opened CacheSpec

  /** What an entry holds is fixed when it is inserted; only its links change. */
  class Entry {
    const key: Key
    const size: nat
    const expires: int
    const value: int
    ghost const stamp: nat
    var hashNext: Entry?
    var lruPrev: Entry?
    var lruNext: Entry?

    constructor (key: Key, size: nat, expires: int, value: int, ghost stamp: nat)
      ensures ItemOf(this) == Item(stamp, key, size, expires, value)
    {
      this.key, this.size, this.expires, this.value, this.stamp := key, size, expires, value, stamp;
      hashNext, lruPrev, lruNext := null, null, null;
    }
  }

  ghost function ItemOf(e: Entry): Item {
    Item(e.stamp, e.key, e.size, e.expires, e.value)
  }

  /** `items` are the contents of `nodes`, no two of them equal. */
  ghost predicate Mirrors(nodes: seq<Entry>, items: seq<Item>) {
    && |items| == |nodes| && NoDup(items)
    && forall i :: 0 <= i < |nodes| ==> items[i] == ItemOf(nodes[i])
  }

  lemma MirrorsFirst(nodes: seq<Entry>, items: seq<Item>, e: Entry)
    requires Mirrors(nodes, items) && (ItemOf(e) !in items || forall i :: 0 <= i < |nodes| ==> nodes[i].stamp != e.stamp)
    ensures Mirrors([e] + nodes, [ItemOf(e)] + items) && e !in nodes
  {
    var it := [ItemOf(e)] + items;
    forall i, j | 0 <= i < j < |it| ensures it[i] != it[j] {
      if i == 0 { assert it[j] in items; }
    }
  }

  lemma DroppedMembers(nodes: seq<Entry>, k: nat)
    requires NoDup(nodes) && k < |nodes|
    ensures nodes[k] !in nodes[..k] + nodes[k + 1..]
    ensures forall e :: e in nodes && e != nodes[k] ==> e in nodes[..k] + nodes[k + 1..]
  {
    var rest := nodes[..k] + nodes[k + 1..];
    forall e | e in nodes && e != nodes[k] ensures e in rest {
      var i :| 0 <= i < |nodes| && nodes[i] == e;
      assert rest[if i < k then i else i - 1] == e;
    }
  }

  lemma MirrorsNoDup(nodes: seq<Entry>, items: seq<Item>)
    requires Mirrors(nodes, items)
    ensures NoDup(nodes)
  {
    forall i, j | 0 <= i < j < |nodes| ensures nodes[i] != nodes[j] {
      assert items[i] != items[j];
    }
  }

  lemma MirrorsDropped(nodes: seq<Entry>, items: seq<Item>, k: nat)
    requires Mirrors(nodes, items) && k < |nodes|
    ensures Mirrors(nodes[..k] + nodes[k + 1..], Without(items, ItemOf(nodes[k])))
    ensures ItemOf(nodes[k]) !in Without(items, ItemOf(nodes[k]))
  {
    WithoutAt(items, k);
    var kept := items[..k] + items[k + 1..];
    assert forall i :: 0 <= i < |kept| ==> kept[i] == items[if i < k then i else i + 1];
  }

  /** The doubly linked list, most recently used first. */
  class LruList {
    var head: Entry?
    var tail: Entry?
    ghost var nodes: seq<Entry>
    ghost var items: seq<Item>

    /** The links run through `nodes`, forwards and backwards. */
    ghost predicate Strung()
      reads this`head, this`tail, this`nodes, nodes`lruPrev, nodes`lruNext
    {
      && head == (if nodes == [] then null else nodes[0])
      && tail == (if nodes == [] then null else nodes[|nodes| - 1])
      && (nodes != [] ==> nodes[0].lruPrev == null && nodes[|nodes| - 1].lruNext == null)
      && (forall i, j :: 0 <= i < |nodes| && j == i + 1 && j < |nodes| ==> nodes[i].lruNext == nodes[j] && nodes[j].lruPrev == nodes[i])
    }

    ghost predicate Valid()
      reads this, nodes`lruPrev, nodes`lruNext
    {
      Mirrors(nodes, items) && Strung()
    }

    constructor ()
      ensures Valid() && nodes == [] && items == []
    {
      head, tail, nodes, items := null, null, [], [];
    }

    method PushFront(e: Entry)
      requires Valid() && forall x :: x in nodes ==> x.stamp != e.stamp
      modifies this, nodes`lruPrev, e`lruPrev, e`lruNext
      ensures Valid() && nodes == [e] + old(nodes) && items == [ItemOf(e)] + old(items)
    {
      MirrorsFirst(nodes, items, e);
      e.lruNext := head;
      e.lruPrev := null;
      if head != null {
        head.lruPrev := e;
      }
      head := e;
      if tail == null {
        tail := e;
      }
      nodes, items := [e] + nodes, [ItemOf(e)] + items;
    }

    /** Moves `e`, at position `i`, to the front. */
    method Relink(e: Entry, ghost i: nat)
      requires Strung() && NoDup(nodes) && i < |nodes| && nodes[i] == e
      modifies this`head, this`tail, this`nodes, nodes`lruPrev, nodes`lruNext
      ensures Strung() && nodes == [e] + (old(nodes)[..i] + old(nodes)[i + 1..])
    {
      ghost var n := |nodes|;
      assert i > 0 ==> e.lruPrev == nodes[i - 1];
      assert i < n - 1 ==> e.lruNext == nodes[i + 1];
      if e != head {
        if e.lruPrev != null {
          e.lruPrev.lruNext := e.lruNext;
        }
        if e.lruNext != null {
          e.lruNext.lruPrev := e.lruPrev;
        } else {
          tail := e.lruPrev;
        }
        e.lruPrev := null;
        e.lruNext := head;
        head.lruPrev := e;
        head := e;
      }
      nodes := [e] + (nodes[..i] + nodes[i + 1..]);
    }

    method MoveToFront(e: Entry, ghost i: nat)
      requires Valid() && i < |nodes| && nodes[i] == e
      modifies this, nodes`lruPrev, nodes`lruNext
      ensures Valid() && nodes == [e] + (old(nodes)[..i] + old(nodes)[i + 1..])
      ensures items == [ItemOf(e)] + Without(old(items), ItemOf(e))
    {
      MirrorsNoDup(nodes, items);
      MirrorsDropped(nodes, items, i);
      MirrorsFirst(nodes[..i] + nodes[i + 1..], Without(items, ItemOf(e)), e);
      items := [ItemOf(e)] + Without(items, ItemOf(e));
      Relink(e, i);
    }

    method PopBack() returns (victim: Entry)
      requires Valid() && nodes != []
      modifies this, nodes`lruNext
      ensures Valid() && old(nodes) == nodes + [victim] && items == old(items)[..|nodes|]
    {
      victim := tail;
      assert |nodes| > 1 ==> victim.lruPrev == nodes[|nodes| - 2];
      tail := victim.lruPrev;
      if tail != null {
        tail.lruNext := null;
      } else {
        head := null;
      }
      nodes, items := nodes[..|nodes| - 1], items[..|nodes| - 1];
    }
  }

  /** The buckets of the hash table, each a singly linked chain, newest first. */
  class HashChains {
    const slot: Key -> Index
    const table: array<Entry?>
    ghost var chains: seq<seq<Entry>>
    ghost var items: seq<seq<Item>>
    ghost var entries: set<Entry>

    ghost predicate Linked(b: nat)
      requires table.Length == BUCKETS && |chains| == BUCKETS && b < BUCKETS
      reads this`chains, this`entries, table, entries`hashNext
    {
      var chain := chains[b];
      && (forall i :: 0 <= i < |chain| ==> chain[i] in entries && Bucket(slot, chain[i].key) == b)
      && NoDup(chain)
      && table[b] == (if chain == [] then null else chain[0])
      && (chain != [] ==> chain[|chain| - 1].hashNext == null)
      && (forall i, j :: 0 <= i < |chain| && j == i + 1 && j < |chain| ==> chain[i].hashNext == chain[j])
    }

    ghost predicate Strung()
      reads this`chains, this`entries, table, entries`hashNext
    {
      && table.Length == BUCKETS && |chains| == BUCKETS
      && (forall e :: e in entries ==> e in chains[Bucket(slot, e.key)])
      && forall b :: 0 <= b < BUCKETS ==> Linked(b)
    }

    ghost predicate Valid()
      reads this, table, entries`hashNext
    {
      Strung() && |items| == BUCKETS && forall b :: 0 <= b < BUCKETS ==> Mirrors(chains[b], items[b])
    }

    constructor (slot: Key -> Index)
      ensures Valid() && fresh(table) && this.slot == slot
      ensures items == seq(BUCKETS, _ => []) && entries == {}
    {
      this.slot := slot;
      table := new Entry?[BUCKETS](_ => null);
      chains, items, entries := seq(BUCKETS, _ => []), seq(BUCKETS, _ => []), {};
    }

    method PushLink(e: Entry)
      requires Strung() && e !in entries
      modifies this`chains, this`entries, table, e`hashNext
      ensures Strung() && entries == old(entries) + {e}
      ensures chains == old(chains)[Bucket(slot, e.key) := [e] + old(chains)[Bucket(slot, e.key)]]
    {
      var b := Bucket(slot, e.key);
      e.hashNext := table[b];
      table[b] := e;
      chains, entries := chains[b := [e] + chains[b]], entries + {e};
      forall c | 0 <= c < BUCKETS ensures Linked(c) {
        assert old(Linked(c));
      }
    }

    method Push(e: Entry)
      requires Valid() && forall x :: x in entries ==> x.stamp != e.stamp
      modifies this, table, e`hashNext
      ensures Valid() && entries == old(entries) + {e}
      ensures items == old(items)[Bucket(slot, e.key) := [ItemOf(e)] + old(items)[Bucket(slot, e.key)]]
    {
      ghost var b := Bucket(slot, e.key);
      assert Linked(b);
      MirrorsFirst(chains[b], items[b], e);
      items := items[b := [ItemOf(e)] + items[b]];
      PushLink(e);
    }

    /** Walks the chain of the key's bucket to the first entry of that key. */
    method Find(key: Key) returns (e: Entry?)
      requires Valid()
      ensures e != null ==> e in entries
      ensures FirstMatch(items[Bucket(slot, key)], key) == if e == null then None else Some(ItemOf(e))
    {
      e := table[Bucket(slot, key)];
      ghost var i: nat := 0;
      ghost var chain, held := chains[Bucket(slot, key)], items[Bucket(slot, key)];
      assert Linked(Bucket(slot, key)) && Mirrors(chain, held);
      while e != null && e.key != key
        invariant i <= |chain| && e == (if i == |chain| then null else chain[i])
        invariant forall j :: 0 <= j < i ==> held[j].key != key
        decreases |chain| - i
      {
        assert i + 1 < |chain| ==> e.hashNext == chain[i + 1];
        e, i := e.hashNext, i + 1;
      }
      FirstMatchAt(held, key, i);
    }

    /** Walks to the link that points at `victim`: the table slot or the entry before it. */
    method FindLink(victim: Entry, ghost k: nat, b: nat) returns (prev: Entry?)
      requires table.Length == BUCKETS && |chains| == BUCKETS && b < BUCKETS && Linked(b)
      requires k < |chains[b]| && chains[b][k] == victim
      ensures prev == if k == 0 then null else chains[b][k - 1]
    {
      ghost var chain := chains[b];
      prev := null;
      var p := table[b];
      ghost var i: nat := 0;
      while p != victim
        invariant i <= k && p == chain[i] && prev == (if i == 0 then null else chain[i - 1])
        decreases k - i
      {
        assert p.hashNext == chain[i + 1];
        prev, p, i := p, p.hashNext, i + 1;
      }
    }

    /** Points the link to `victim` past it, in its own bucket only. */
    method Bypass(victim: Entry, ghost k: nat, b: nat)
      requires table.Length == BUCKETS && |chains| == BUCKETS && b < BUCKETS && Linked(b)
      requires k < |chains[b]| && chains[b][k] == victim
      modifies this`chains, this`entries, table, entries`hashNext
      ensures entries == old(entries) - {victim}
      ensures chains == old(chains)[b := old(chains)[b][..k] + old(chains)[b][k + 1..]]
      ensures |chains| == BUCKETS && Linked(b)
      ensures forall e :: e in entries && Bucket(slot, e.key) != b ==> e.hashNext == old(e.hashNext)
      ensures forall c :: 0 <= c < BUCKETS && c != b ==> table[c] == old(table[c])
    {
      ghost var chain := chains[b];
      var prev := FindLink(victim, k, b);
      assert k + 1 < |chain| ==> victim.hashNext == chain[k + 1];
      if prev == null {
        table[b] := victim.hashNext;
      } else {
        prev.hashNext := victim.hashNext;
      }
      ghost var rest := chain[..k] + chain[k + 1..];
      DroppedMembers(chain, k);
      chains, entries := chains[b := rest], entries - {victim};
      assert forall j :: 0 <= j < |rest| ==> rest[j] == chain[if j < k then j else j + 1];
    }

    method RemoveLink(victim: Entry, ghost k: nat)
      requires Strung() && k < |chains[Bucket(slot, victim.key)]| && chains[Bucket(slot, victim.key)][k] == victim
      modifies this`chains, this`entries, table, entries`hashNext
      ensures Strung() && entries == old(entries) - {victim}
      ensures chains == old(chains)[Bucket(slot, victim.key) :=
        old(chains)[Bucket(slot, victim.key)][..k] + old(chains)[Bucket(slot, victim.key)][k + 1..]]
    {
      var b := Bucket(slot, victim.key);
      assert Linked(b);
      DroppedMembers(chains[b], k);
      Bypass(victim, k, b);
      forall c | 0 <= c < BUCKETS && c != b ensures Linked(c) {
        assert old(Linked(c));
      }
    }

    method Remove(victim: Entry)
      requires Valid() && victim in entries
      modifies this, table, entries`hashNext
      ensures Valid() && entries == old(entries) - {victim}
      ensures items == old(items)[Bucket(slot, victim.key) := Without(old(items)[Bucket(slot, victim.key)], ItemOf(victim))]
    {
      ghost var b := Bucket(slot, victim.key);
      ghost var k :| 0 <= k < |chains[b]| && chains[b][k] == victim;
      MirrorsDropped(chains[b], items[b], k);
      items := items[b := Without(items[b], ItemOf(victim))];
      RemoveLink(victim, k);
    }
  }

  lemma {:induction false} FirstMatchAt(chain: seq<Item>, key: Key, i: nat)
    requires i <= |chain| && forall j :: 0 <= j < i ==> chain[j].key != key
    requires i < |chain| ==> chain[i].key == key
    ensures FirstMatch(chain, key) == if i == |chain| then None else Some(chain[i])
    decreases i
  {
    if i > 0 {
      FirstMatchAt(chain[1..], key, i - 1);
    }
  }
}
