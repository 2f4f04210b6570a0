/**
 The response cache of src/cache/cache.c as a value: hash chains and an LRU list over the same
 entries. Inserting a key again does not remove the old entry; it only shadows it.
 */
module CacheSpec {
  import opened Common

  /** Keys are C strings, so no byte is zero. */
  type KeyByte = b: int | 1 <= b < 256 witness 1
  type Key = seq<KeyByte>

  const BUCKETS: nat := 16381

  type Index = i: nat | i < BUCKETS

  // ---------------------------------------------------------------- state

  /** `stamp` numbers the inserts, so two entries are never equal. */
  datatype Item = Item(stamp: nat, key: Key, size: nat, expires: int, value: int)

  /** `slot` is where the hash of a key leads; nothing below depends on which hash it is. */
  datatype Cache = Cache(slot: Key -> Index, maxSize: nat, maxObject: nat, maxAge: nat,
                         chains: seq<seq<Item>>, lru: seq<Item>, size: int, count: int, next: nat)

  /** The hash bucket of a key. */
  function Bucket(slot: Key -> Index, key: Key): Index {
    slot(key)
  }

  datatype Limits = Limits(slot: Key -> Index, maxSize: nat, maxObject: nat, maxAge: nat)

  function Empty(l: Limits): Cache {
    Cache(l.slot, l.maxSize, l.maxObject, l.maxAge, seq(BUCKETS, _ => []), [], 0, 0, 0)
  }

  /** The sequence without its first `it`. */
  function Without(s: seq<Item>, it: Item): seq<Item> {
    if s == [] then [] else if s[0] == it then s[1..] else [s[0]] + Without(s[1..], it)
  }

  // ---------------------------------------------------------------- operations

  function FirstMatch(chain: seq<Item>, key: Key): Option<Item> {
    if chain == [] then None
    else if chain[0].key == key then Some(chain[0])
    else FirstMatch(chain[1..], key)
  }

  /** The newest entry of the key decides, even when it has expired. */
  function Found(c: Cache, key: Key, now: int): Option<Item>
    requires |c.chains| == BUCKETS
  {
    var m := FirstMatch(c.chains[Bucket(c.slot, key)], key);
    if m.Some? && m.value.expires > now then m else None
  }

  function Lookup(c: Cache, key: Key, now: int): Cache
    requires |c.chains| == BUCKETS
  {
    var m := Found(c, key, now);
    if m.None? then c else c.(lru := [m.value] + Without(c.lru, m.value))
  }

  function Evict(c: Cache): Cache
    requires |c.chains| == BUCKETS
  {
    if c.lru == [] then c
    else
      var v := c.lru[|c.lru| - 1];
      c.(lru := c.lru[..|c.lru| - 1],
         chains := c.chains[Bucket(c.slot, v.key) := Without(c.chains[Bucket(c.slot, v.key)], v)],
         size := U32(c.size - v.size), count := U32(c.count - 1))
  }

  predicate Crowded(c: Cache, size: nat) {
    U32(c.size + size) > c.maxSize
  }

  /** The eviction loop, up to the point where it either ends or spins on an empty list. */
  function MakeRoom(c: Cache, size: nat): (r: Cache)
    requires |c.chains| == BUCKETS
    ensures |r.chains| == BUCKETS
    ensures r.lru == [] || !Crowded(r, size)
    decreases |c.lru|
  {
    if Crowded(c, size) && c.lru != [] then MakeRoom(Evict(c), size) else c
  }

  datatype Stored = Yes | TooLarge | Spins

  function Fresh(c: Cache, key: Key, size: nat, ttl: Option<int>, value: int, now: int): Item {
    Item(c.next, key, size, if ttl.Some? then ttl.value else now + c.maxAge, value)
  }

  function Link(c: Cache, it: Item): Cache
    requires |c.chains| == BUCKETS
  {
    c.(chains := c.chains[Bucket(c.slot, it.key) := [it] + c.chains[Bucket(c.slot, it.key)]], lru := [it] + c.lru,
       size := U32(c.size + it.size), count := U32(c.count + 1), next := c.next + 1)
  }

  function Insert(c: Cache, key: Key, size: nat, ttl: Option<int>, value: int, now: int): (r: (Cache, Stored))
    requires |c.chains| == BUCKETS
  {
    if size > c.maxObject then (c, TooLarge)
    else
      var room := MakeRoom(c, size);
      if Crowded(room, size) then (room, Spins)
      else (Link(room, Fresh(room, key, size, ttl, value, now)), Yes)
  }

  // ---------------------------------------------------------------- runs

  datatype Op =
    | Put(key: Key, size: nat, ttl: Option<int>, value: int, now: int)
    | Get(key: Key, now: int)

  /** What a reader of the request log knows: the newest stored insert of each key, as it was asked
      for, and when each entry was last inserted or hit. */
  datatype Log = Log(newest: map<Key, Item>, touched: map<nat, nat>, clock: nat)

  function Logged(h: Log, it: Item): Log {
    Log(h.newest[it.key := it], h.touched[it.stamp := h.clock], h.clock + 1)
  }

  /** The entry a put asks for: without a lifetime of its own it lives for the default one. */
  function Asked(op: Op, stamp: nat, maxAge: nat): Item
    requires op.Put?
  {
    Item(stamp, op.key, op.size, if op.ttl.Some? then op.ttl.value else op.now + maxAge, op.value)
  }

  function Step(c: Cache, h: Log, op: Op): (Cache, Log)
    requires |c.chains| == BUCKETS
  {
    match op
    case Put(key, size, ttl, value, now) =>
      var (c1, stored) := Insert(c, key, size, ttl, value, now);
      if stored.Yes? then
        (c1, Logged(h, Asked(op, c.next, c.maxAge)))
      else (c1, h)
    case Get(key, now) =>
      var m := Found(c, key, now);
      (Lookup(c, key, now),
       if m.Some? then h.(touched := h.touched[m.value.stamp := h.clock], clock := h.clock + 1) else h)
  }

  // ---------------------------------------------------------------- invariants

  ghost predicate Descending(s: seq<Item>) {
    forall i, j :: 0 <= i < j < |s| ==> s[i].stamp > s[j].stamp
  }

  /** Chains and list hold the same entries, each in its own bucket, newest first. */
  ghost predicate Held(c: Cache) {
    && |c.chains| == BUCKETS
    && (forall it :: it in c.lru <==> it in c.chains[Bucket(c.slot, it.key)])
    && (forall b, i :: 0 <= b < BUCKETS && 0 <= i < |c.chains[b]| ==> Bucket(c.slot, c.chains[b][i].key) == b)
    && (forall b :: 0 <= b < BUCKETS ==> Descending(c.chains[b]))
  }

  /** Two entries of one key stand in the same order in the list as in their chain. */
  ghost predicate Listed(lru: seq<Item>, next: nat) {
    && (forall i :: 0 <= i < |lru| ==> lru[i].stamp < next)
    && (forall i, j :: 0 <= i < j < |lru| ==> lru[i].stamp != lru[j].stamp)
    && (forall i, j :: 0 <= i < j < |lru| && lru[i].key == lru[j].key ==> lru[i].stamp > lru[j].stamp)
  }

  ghost predicate Shaped(c: Cache) {
    Held(c) && Listed(c.lru, c.next)
  }

  function Sum(s: seq<Item>): nat {
    if s == [] then 0 else s[0].size + Sum(s[1..])
  }

  ghost predicate Booked(c: Cache) {
    && c.count == U32(|c.lru|) && c.size == U32(Sum(c.lru)) && c.size <= c.maxSize
  }

  /** Whatever of a key is left includes its newest stored insert. */
  ghost predicate Current(lru: seq<Item>, newest: map<Key, Item>) {
    && (forall it :: it in lru ==> it.key in newest && newest[it.key] in lru && it.stamp <= newest[it.key].stamp)
    && (forall k :: k in newest ==> newest[k].key == k)
  }

  /** The list is ordered by last use, most recent first. */
  ghost predicate Recent(lru: seq<Item>, touched: map<nat, nat>, clock: nat) {
    && (forall i :: 0 <= i < |lru| ==> lru[i].stamp in touched && touched[lru[i].stamp] < clock)
    && (forall i, j :: 0 <= i < j < |lru| ==> touched[lru[i].stamp] > touched[lru[j].stamp])
  }

  ghost predicate Good(c: Cache, h: Log) {
    Shaped(c) && Booked(c) && Current(c.lru, h.newest) && Recent(c.lru, h.touched, h.clock)
  }

  // ---------------------------------------------------------------- proofs

  lemma {:induction false} WithoutAt(s: seq<Item>, i: nat)
    requires i < |s| && forall j :: 0 <= j < i ==> s[j] != s[i]
    ensures Without(s, s[i]) == s[..i] + s[i + 1..]
  {
    if i > 0 {
      WithoutAt(s[1..], i - 1);
      assert s[..i] == [s[0]] + s[1..][..i - 1];
    }
  }

  lemma DescendingWithout(s: seq<Item>, it: Item)
    requires Descending(s) && it in s
    ensures Descending(Without(s, it))
    ensures forall x :: x in Without(s, it) <==> x in s && x != it
  {
    var i :| 0 <= i < |s| && s[i] == it;
    WithoutAt(s, i);
    forall x ensures x in s[..i] + s[i + 1..] <==> x in s && x != it {
      DroppedMember(s, i, x);
    }
  }

  lemma DroppedMember(s: seq<Item>, i: nat, x: Item)
    requires Descending(s) && i < |s|
    ensures x in s[..i] + s[i + 1..] <==> x in s && x != s[i]
  {
    var r := s[..i] + s[i + 1..];
    if x in s && x != s[i] {
      var j :| 0 <= j < |s| && s[j] == x;
      assert if j < i then r[j] == x else r[j - 1] == x;
    }
  }

  lemma LastOfList(lru: seq<Item>, next: nat, it: Item)
    requires lru != [] && Listed(lru, next)
    ensures it in lru[..|lru| - 1] <==> it in lru && it != lru[|lru| - 1]
  {
    if it in lru && it != lru[|lru| - 1] {
      var i :| 0 <= i < |lru| && lru[i] == it;
      assert lru[..|lru| - 1][i] == it;
    }
  }

  /** The entry at the tail of the list leaves both structures. */
  lemma EvictKeepsShape(c: Cache)
    requires Shaped(c)
    ensures Shaped(Evict(c))
  {
    if c.lru != [] {
      var v := c.lru[|c.lru| - 1];
      var b := Bucket(c.slot, v.key);
      var d := Evict(c);
      assert v in c.lru;
      DescendingWithout(c.chains[b], v);
      forall it ensures it in d.lru <==> it in d.chains[Bucket(c.slot, it.key)] {
        LastOfList(c.lru, c.next, it);
        assert it in c.lru <==> it in c.chains[Bucket(c.slot, it.key)];
      }
      forall i | 0 <= i < |d.chains[b]| ensures Bucket(c.slot, d.chains[b][i].key) == b {
        assert d.chains[b][i] in c.chains[b];
      }
    }
  }

  lemma {:induction false} SumLast(s: seq<Item>)
    requires s != []
    ensures Sum(s) == Sum(s[..|s| - 1]) + s[|s| - 1].size
  {
    if |s| > 1 {
      SumLast(s[1..]);
      assert s[..|s| - 1] == [s[0]] + s[1..][..|s| - 2];
    }
  }

  /** Arithmetic on a 32-bit size commutes with reducing the exact sum. */
  lemma Wraps(a: int, b: int)
    ensures U32(U32(a) + b) == U32(a + b)
  {
  }

  lemma EvictKeepsBooks(c: Cache)
    requires |c.chains| == BUCKETS && c.count == U32(|c.lru|) && c.size == U32(Sum(c.lru))
    ensures var d := Evict(c); d.count == U32(|d.lru|) && d.size == U32(Sum(d.lru))
  {
    if c.lru != [] {
      SumLast(c.lru);
      Wraps(Sum(c.lru), 0 - c.lru[|c.lru| - 1].size);
      Wraps(|c.lru|, -1);
    }
  }

  /** The tail is never the newest entry of a key that has another entry left: a shadowed entry
      goes before the one that shadows it. */
  lemma EvictKeepsCurrent(c: Cache, h: Log)
    requires Shaped(c) && Current(c.lru, h.newest)
    ensures Current(Evict(c).lru, h.newest)
  {
    if c.lru != [] {
      var n := |c.lru| - 1;
      var v := c.lru[n];
      var d := Evict(c);
      forall it | it in d.lru
        ensures it.key in h.newest && h.newest[it.key] in d.lru && it.stamp <= h.newest[it.key].stamp
      {
        var i :| 0 <= i < n && d.lru[i] == it;
        assert c.lru[i] == it;
        var top := h.newest[it.key];
        var j :| 0 <= j <= n && c.lru[j] == top;
        assert j != n;
        assert d.lru[j] == top;
      }
    }
  }

  ghost predicate Tallied(c: Cache) {
    c.count == U32(|c.lru|) && c.size == U32(Sum(c.lru))
  }

  ghost predicate Kept(c: Cache, h: Log) {
    Shaped(c) && Tallied(c) && Current(c.lru, h.newest) && Recent(c.lru, h.touched, h.clock)
  }

  lemma PrefixRecent(lru: seq<Item>, touched: map<nat, nat>, clock: nat, n: nat)
    requires Recent(lru, touched, clock) && n <= |lru|
    ensures Recent(lru[..n], touched, clock)
  {
  }

  lemma EvictKeeps(c: Cache, h: Log)
    requires Kept(c, h)
    ensures Kept(Evict(c), h)
  {
    EvictKeepsShape(c);
    EvictKeepsBooks(c);
    EvictKeepsCurrent(c, h);
    PrefixRecent(c.lru, h.touched, h.clock, |Evict(c).lru|);
    assert Evict(c).lru == c.lru[..|Evict(c).lru|];
  }

  ghost predicate SameLimits(c: Cache, d: Cache) {
    d.maxSize == c.maxSize && d.maxObject == c.maxObject && d.maxAge == c.maxAge && d.slot == c.slot && d.next == c.next
  }

  lemma {:induction false} MakeRoomKeeps(c: Cache, size: nat, h: Log)
    requires Kept(c, h)
    ensures Kept(MakeRoom(c, size), h) && SameLimits(c, MakeRoom(c, size))
    decreases |c.lru|
  {
    if Crowded(c, size) && c.lru != [] {
      EvictKeeps(c, h);
      MakeRoomKeeps(Evict(c), size, h);
    }
  }

  lemma LinkKeepsList(c: Cache, it: Item)
    requires Listed(c.lru, c.next) && it.stamp == c.next
    ensures Listed([it] + c.lru, c.next + 1)
  {
    var lru := [it] + c.lru;
    forall k | 1 <= k < |lru| ensures lru[k] == c.lru[k - 1] {}
  }

  lemma LinkKeepsShape(c: Cache, it: Item)
    requires Shaped(c) && it.stamp == c.next
    ensures Shaped(Link(c, it))
  {
    var d := Link(c, it);
    var b := Bucket(c.slot, it.key);
    LinkKeepsList(c, it);
    forall i | 0 <= i < |c.chains[b]| ensures c.chains[b][i].stamp < c.next {
      assert c.chains[b][i] in c.chains[b] && c.chains[b][i] in c.lru;
    }
    forall x ensures x in d.lru <==> x in d.chains[Bucket(c.slot, x.key)] {
      assert x in c.lru <==> x in c.chains[Bucket(c.slot, x.key)];
    }
  }

  lemma LinkKeepsCurrent(c: Cache, it: Item, h: Log)
    requires |c.chains| == BUCKETS && it.stamp == c.next && Current(c.lru, h.newest)
    requires forall i :: 0 <= i < |c.lru| ==> c.lru[i].stamp < c.next
    ensures Current(Link(c, it).lru, Logged(h, it).newest)
  {
    var lru := Link(c, it).lru;
    forall x | x in lru
      ensures x.key in Logged(h, it).newest && Logged(h, it).newest[x.key] in lru && x.stamp <= Logged(h, it).newest[x.key].stamp
    {
      if x != it {
        var i :| 0 <= i < |c.lru| && c.lru[i] == x;
        if x.key != it.key { assert h.newest[x.key] in c.lru; }
      }
    }
  }

  lemma LinkKeepsRecent(c: Cache, it: Item, h: Log)
    requires |c.chains| == BUCKETS && it.stamp == c.next && Recent(c.lru, h.touched, h.clock)
    requires forall i :: 0 <= i < |c.lru| ==> c.lru[i].stamp < c.next
    ensures Recent(Link(c, it).lru, Logged(h, it).touched, Logged(h, it).clock)
  {
    var lru := Link(c, it).lru;
    forall k | 1 <= k < |lru| ensures lru[k] == c.lru[k - 1] {}
  }

  lemma LinkTallied(c: Cache, it: Item)
    requires |c.chains| == BUCKETS && Tallied(c)
    ensures Tallied(Link(c, it))
  {
    Wraps(Sum(c.lru), it.size);
    Wraps(|c.lru|, 1);
    assert Link(c, it).lru[1..] == c.lru;
  }

  lemma LinkKeeps(c: Cache, it: Item, h: Log)
    requires Kept(c, h) && it.stamp == c.next
    ensures Kept(Link(c, it), Logged(h, it))
  {
    LinkKeepsShape(c, it);
    LinkKeepsCurrent(c, it, h);
    LinkKeepsRecent(c, it, h);
    LinkTallied(c, it);
  }

  /** What is stored is what was asked for. */
  lemma FreshIsAsked(c: Cache, r: Cache, op: Op)
    requires op.Put? && SameLimits(c, r)
    ensures Fresh(r, op.key, op.size, op.ttl, op.value, op.now) == Asked(op, c.next, c.maxAge)
  {
  }

  lemma InsertIs(c: Cache, op: Op, r: Cache, it: Item)
    requires op.Put? && |c.chains| == BUCKETS && r == MakeRoom(c, op.size)
    requires it == Fresh(r, op.key, op.size, op.ttl, op.value, op.now)
    ensures Insert(c, op.key, op.size, op.ttl, op.value, op.now) ==
      if op.size > c.maxObject then (c, TooLarge) else if Crowded(r, op.size) then (r, Spins) else (Link(r, it), Yes)
  {
  }

  lemma PutIs(c: Cache, h: Log, op: Op, r: Cache, it: Item)
    requires op.Put? && |c.chains| == BUCKETS && r == MakeRoom(c, op.size) && SameLimits(c, r)
    requires it == Asked(op, c.next, c.maxAge)
    ensures Step(c, h, op) == if op.size > c.maxObject then (c, h)
                              else if Crowded(r, op.size) then (r, h) else (Link(r, it), Logged(h, it))
  {
    FreshIsAsked(c, r, op);
    InsertIs(c, op, r, it);
  }

  lemma InsertKeeps(c: Cache, h: Log, op: Op)
    requires op.Put? && Kept(c, h)
    ensures Kept(Step(c, h, op).0, Step(c, h, op).1)
  {
    MakeRoomKeeps(c, op.size, h);
    var r := MakeRoom(c, op.size);
    var it := Asked(op, c.next, c.maxAge);
    LinkKeeps(r, it, h);
    PutIs(c, h, op, r, it);
  }

  lemma {:induction false} FirstMatchFacts(chain: seq<Item>, key: Key)
    requires Descending(chain)
    ensures var m := FirstMatch(chain, key);
      if m.None? then forall x :: x in chain ==> x.key != key
      else m.value in chain && m.value.key == key && forall x :: x in chain && x.key == key ==> x.stamp <= m.value.stamp
  {
    if chain != [] && chain[0].key != key {
      FirstMatchFacts(chain[1..], key);
      assert forall x :: x in chain <==> x == chain[0] || x in chain[1..];
    } else if chain != [] {
      forall x | x in chain ensures x.stamp <= chain[0].stamp {
        var i :| 0 <= i < |chain| && chain[i] == x;
      }
    }
  }

  /** The first match of a chain is the newest entry of its key anywhere in the cache. */
  lemma MatchIsNewest(c: Cache, key: Key)
    requires Shaped(c)
    ensures var m := FirstMatch(c.chains[Bucket(c.slot, key)], key);
      if m.None? then forall it :: it in c.lru ==> it.key != key
      else m.value in c.lru && m.value.key == key && forall it :: it in c.lru && it.key == key ==> it.stamp <= m.value.stamp
  {
    FirstMatchFacts(c.chains[Bucket(c.slot, key)], key);
    forall it | it in c.lru && it.key == key ensures it in c.chains[Bucket(c.slot, key)] {}
  }

  /** One entry moved to the front. */
  function Rotated(s: seq<Item>, i: nat): (r: seq<Item>)
    requires i < |s|
  {
    [s[i]] + s[..i] + s[i + 1..]
  }

  lemma MovedToFront(lru: seq<Item>, next: nat, i: nat)
    requires Listed(lru, next) && i < |lru|
    ensures [lru[i]] + Without(lru, lru[i]) == Rotated(lru, i)
  {
    WithoutAt(lru, i);
  }

  lemma HitIsListed(c: Cache, key: Key, now: int) returns (i: nat)
    requires Shaped(c) && Found(c, key, now).Some?
    ensures i < |c.lru| && c.lru[i] == Found(c, key, now).value && c.lru[i].key == key
    ensures Lookup(c, key, now).lru == Rotated(c.lru, i)
    ensures forall j :: 0 <= j < |c.lru| && c.lru[j].key == key ==> c.lru[j].stamp <= c.lru[i].stamp
  {
    MatchIsNewest(c, key);
    i :| 0 <= i < |c.lru| && c.lru[i] == Found(c, key, now).value;
    MovedToFront(c.lru, c.next, i);
  }

  /** Moving one entry to the front keeps the same entries. */
  lemma RotatedMembers(s: seq<Item>, i: nat)
    requires i < |s|
    ensures forall x :: x in s <==> x in Rotated(s, i)
  {
    var r := Rotated(s, i);
    forall x ensures x in s <==> x in r {
      if x in s {
        var j :| 0 <= j < |s| && s[j] == x;
        assert if j < i then r[j + 1] == x else if j == i then r[0] == x else r[j] == x;
      }
    }
  }

  lemma RotatedList(s: seq<Item>, i: nat, next: nat)
    requires Listed(s, next) && i < |s|
    requires forall j :: 0 <= j < |s| && s[j].key == s[i].key ==> s[j].stamp <= s[i].stamp
    ensures Listed(Rotated(s, i), next)
  {
    var r := Rotated(s, i);
    forall k | 0 <= k < |r| ensures r[k] == s[if k == 0 then i else if k <= i then k - 1 else k] {}
  }

  lemma {:induction false} SumDrop(s: seq<Item>, i: nat)
    requires i < |s|
    ensures Sum(s) == s[i].size + Sum(s[..i] + s[i + 1..])
  {
    var r := s[..i] + s[i + 1..];
    if i == 0 {
      assert r == s[1..];
    } else {
      SumDrop(s[1..], i - 1);
      assert r[1..] == s[1..][..i - 1] + s[1..][i..];
    }
  }

  lemma RotatedSum(s: seq<Item>, i: nat)
    requires i < |s|
    ensures Sum(Rotated(s, i)) == Sum(s)
  {
    SumDrop(s, i);
    assert Rotated(s, i)[1..] == s[..i] + s[i + 1..];
  }

  lemma LookupKeepsShape(c: Cache, h: Log, i: nat)
    requires Shaped(c) && Current(c.lru, h.newest) && i < |c.lru|
    requires forall j :: 0 <= j < |c.lru| && c.lru[j].key == c.lru[i].key ==> c.lru[j].stamp <= c.lru[i].stamp
    ensures Shaped(c.(lru := Rotated(c.lru, i))) && Current(Rotated(c.lru, i), h.newest)
  {
    RotatedMembers(c.lru, i);
    RotatedList(c.lru, i, c.next);
  }

  lemma RotatedTallied(c: Cache, i: nat)
    requires Tallied(c) && i < |c.lru|
    ensures Tallied(c.(lru := Rotated(c.lru, i)))
  {
    RotatedSum(c.lru, i);
    assert |Rotated(c.lru, i)| == |c.lru|;
  }

  lemma RotatedKept(c: Cache, h: Log, i: nat)
    requires Kept(c, h) && i < |c.lru|
    requires forall j :: 0 <= j < |c.lru| && c.lru[j].key == c.lru[i].key ==> c.lru[j].stamp <= c.lru[i].stamp
    ensures Kept(c.(lru := Rotated(c.lru, i)),
                 h.(touched := h.touched[c.lru[i].stamp := h.clock], clock := h.clock + 1))
  {
    LookupKeepsShape(c, h, i);
    RotatedTallied(c, i);
    RotatedRecency(c, h, i);
  }

  lemma LookupKeeps(c: Cache, h: Log, op: Op)
    requires op.Get? && Kept(c, h)
    ensures Kept(Step(c, h, op).0, Step(c, h, op).1)
  {
    if Found(c, op.key, op.now).Some? {
      var i := HitIsListed(c, op.key, op.now);
      RotatedKept(c, h, i);
      assert Lookup(c, op.key, op.now) == c.(lru := Rotated(c.lru, i));
    }
  }

  lemma RotatedRecency(c: Cache, h: Log, i: nat)
    requires Listed(c.lru, c.next) && Recent(c.lru, h.touched, h.clock) && i < |c.lru|
    ensures Recent(Rotated(c.lru, i), h.touched[c.lru[i].stamp := h.clock], h.clock + 1)
  {
    var r := Rotated(c.lru, i);
    forall k | 0 <= k < |r| ensures r[k] == c.lru[if k == 0 then i else if k <= i then k - 1 else k] {}
  }

  lemma {:induction false} MakeRoomTallied(c: Cache, size: nat)
    requires |c.chains| == BUCKETS && Tallied(c)
    ensures Tallied(MakeRoom(c, size)) && SameLimits(c, MakeRoom(c, size))
    decreases |c.lru|
  {
    if Crowded(c, size) && c.lru != [] {
      EvictKeepsBooks(c);
      MakeRoomTallied(Evict(c), size);
    }
  }

  /** The published size never exceeds the limit, wrap-around or not. */
  lemma InsertBounded(c: Cache, op: Op)
    requires op.Put? && |c.chains| == BUCKETS && Tallied(c) && c.size <= c.maxSize
    ensures var d := Insert(c, op.key, op.size, op.ttl, op.value, op.now).0; d.size <= d.maxSize && SameBounds(c, d)
  {
    MakeRoomTallied(c, op.size);
  }

  lemma StepKeeps(c: Cache, h: Log, op: Op)
    requires Good(c, h)
    ensures var (d, h1) := Step(c, h, op); Good(d, h1) && SameBounds(c, d)
  {
    assert Kept(c, h);
    if op.Put? {
      InsertKeeps(c, h, op);
      InsertBounded(c, op);
    } else {
      LookupKeeps(c, h, op);
    }
  }

  ghost predicate SameBounds(c: Cache, d: Cache) {
    d.maxSize == c.maxSize && d.maxObject == c.maxObject && d.maxAge == c.maxAge && d.slot == c.slot
  }

  function Exec(c: Cache, h: Log, ops: seq<Op>): (r: (Cache, Log))
    requires |c.chains| == BUCKETS
    ensures |r.0.chains| == BUCKETS
  {
    if ops == [] then (c, h)
    else
      var (d, h1) := Exec(c, h, ops[..|ops| - 1]);
      Step(d, h1, ops[|ops| - 1])
  }

  /** The cache, and what its log says, after a run from empty. */
  function Reached(l: Limits, ops: seq<Op>): (r: (Cache, Log))
    ensures |r.0.chains| == BUCKETS
  {
    Exec(Empty(l), Log(map[], map[], 0), ops)
  }

  lemma {:induction false} ExecKeeps(l: Limits, ops: seq<Op>)
    ensures Good(Reached(l, ops).0, Reached(l, ops).1) && SameBounds(Empty(l), Reached(l, ops).0)
  {
    if ops != [] {
      ExecKeeps(l, ops[..|ops| - 1]);
      var (d, h1) := Reached(l, ops[..|ops| - 1]);
      StepKeeps(d, h1, ops[|ops| - 1]);
    }
  }

  // ---------------------------------------------------------------- main results

  lemma SameStamp(c: Cache, a: Item, b: Item)
    requires Listed(c.lru, c.next) && a in c.lru && b in c.lru && a.stamp == b.stamp
    ensures a == b
  {
    var i :| 0 <= i < |c.lru| && c.lru[i] == a;
    var j :| 0 <= j < |c.lru| && c.lru[j] == b;
    assert !(i < j) && !(j < i);
  }

  lemma MatchIsNewestStored(c: Cache, h: Log, key: Key)
    requires Shaped(c) && Current(c.lru, h.newest)
    ensures FirstMatch(c.chains[Bucket(c.slot, key)], key) ==
              if key in h.newest && h.newest[key] in c.lru then Some(h.newest[key]) else None
  {
    MatchIsNewest(c, key);
    var m := FirstMatch(c.chains[Bucket(c.slot, key)], key);
    if m.Some? {
      SameStamp(c, m.value, h.newest[key]);
    }
  }

  /** Never stale: after any run a lookup returns the newest stored insert of its key, exactly
      when that one is still cached and has not expired; otherwise it misses. */
  lemma NeverStale(l: Limits, ops: seq<Op>, key: Key, now: int)
    ensures var (c, h) := Reached(l, ops);
      Found(c, key, now) ==
        if key in h.newest && h.newest[key] in c.lru && h.newest[key].expires > now then Some(h.newest[key]) else None
  {
    ExecKeeps(l, ops);
    MatchIsNewestStored(Reached(l, ops).0, Reached(l, ops).1, key);
  }

  lemma VictimIsLeastRecent(c: Cache, h: Log, x: Item)
    requires Listed(c.lru, c.next) && Recent(c.lru, h.touched, h.clock) && c.lru != [] && x in c.lru && x != c.lru[|c.lru| - 1]
    ensures h.touched[x.stamp] > h.touched[c.lru[|c.lru| - 1].stamp]
  {
    var i :| 0 <= i < |c.lru| && c.lru[i] == x;
  }

  lemma EvictedIsOldest(c: Cache, h: Log, it: Item, x: Item)
    requires |c.chains| == BUCKETS && Listed(c.lru, c.next) && Recent(c.lru, h.touched, h.clock)
    requires it in c.lru && it !in Evict(c).lru && x in c.lru && x != it
    ensures x in Evict(c).lru && it.stamp in h.touched && x.stamp in h.touched && h.touched[x.stamp] > h.touched[it.stamp]
  {
    LastOfList(c.lru, c.next, it);
    LastOfList(c.lru, c.next, x);
    VictimIsLeastRecent(c, h, x);
  }

  /** Eviction removes exactly the entry least recently inserted or hit. */
  lemma VictimIsOldest(l: Limits, ops: seq<Op>, it: Item, x: Item)
    requires var c := Reached(l, ops).0;
      it in c.lru && it !in Evict(c).lru && x in c.lru && x != it
    ensures var (c, h) := Reached(l, ops);
      x in Evict(c).lru && it.stamp in h.touched && x.stamp in h.touched && h.touched[x.stamp] > h.touched[it.stamp]
  {
    ExecKeeps(l, ops);
    EvictedIsOldest(Reached(l, ops).0, Reached(l, ops).1, it, x);
  }

  lemma SameOrder(c: Cache, i: nat, j: nat, p: nat, q: nat)
    requires Shaped(c) && i < |c.lru| && j < |c.lru| && c.lru[i].key == c.lru[j].key && i != j
    requires var chain := c.chains[Bucket(c.slot, c.lru[i].key)];
      p < |chain| && q < |chain| && chain[p] == c.lru[i] && chain[q] == c.lru[j]
    ensures i < j <==> p < q
  {
    assert Descending(c.chains[Bucket(c.slot, c.lru[i].key)]);
  }

  /** After any run, two entries of one key stand in the same order in the LRU list and in their
      hash chain. */
  lemma ShadowedBehind(l: Limits, ops: seq<Op>, i: nat, j: nat, p: nat, q: nat)
    requires var c := Reached(l, ops).0;
      i < |c.lru| && j < |c.lru| && c.lru[i].key == c.lru[j].key && i != j
    requires var c := Reached(l, ops).0; var chain := c.chains[Bucket(c.slot, c.lru[i].key)];
      p < |chain| && q < |chain| && chain[p] == c.lru[i] && chain[q] == c.lru[j]
    ensures i < j <==> p < q
  {
    ExecKeeps(l, ops);
    SameOrder(Reached(l, ops).0, i, j, p, q);
  }

  lemma {:induction false} MakeRoomShrinks(c: Cache, size: nat)
    requires |c.chains| == BUCKETS
    ensures Sum(MakeRoom(c, size).lru) <= Sum(c.lru)
    decreases |c.lru|
  {
    if Crowded(c, size) && c.lru != [] {
      SumLast(c.lru);
      MakeRoomShrinks(Evict(c), size);
    }
  }

  lemma LookupSum(c: Cache, key: Key, now: int)
    requires Shaped(c)
    ensures Sum(Lookup(c, key, now).lru) == Sum(c.lru)
  {
    if Found(c, key, now).Some? {
      var i := HitIsListed(c, key, now);
      RotatedSum(c.lru, i);
    }
  }

  lemma {:induction false} SumFits(l: Limits, ops: seq<Op>)
    requires l.maxSize + l.maxObject < TWO32
    ensures Sum(Reached(l, ops).0.lru) < TWO32
  {
    if ops != [] {
      var prior, op := ops[..|ops| - 1], ops[|ops| - 1];
      SumFits(l, prior);
      ExecKeeps(l, prior);
      var (c, h) := Reached(l, prior);
      assert Booked(c) && Sum(c.lru) <= c.maxSize;
      StepSum(c, h, op);
    }
  }

  /** No insert of the run is smaller than this. */
  ghost predicate AtLeast(ops: seq<Op>, size: nat) {
    forall i :: 0 <= i < |ops| && ops[i].Put? ==> ops[i].size >= size
  }

  ghost predicate Positive(lru: seq<Item>) {
    forall it :: it in lru ==> it.size > 0
  }

  lemma {:induction false} FewerThanBytes(lru: seq<Item>)
    requires Positive(lru)
    ensures |lru| <= Sum(lru)
  {
    if lru != [] {
      assert lru[0] in lru;
      assert forall it :: it in lru[1..] ==> it in lru;
      FewerThanBytes(lru[1..]);
    }
  }

  lemma {:induction false} MakeRoomPositive(c: Cache, size: nat)
    requires |c.chains| == BUCKETS && Positive(c.lru)
    ensures Positive(MakeRoom(c, size).lru)
    decreases |c.lru|
  {
    if Crowded(c, size) && c.lru != [] {
      assert forall it :: it in c.lru[..|c.lru| - 1] ==> it in c.lru;
      MakeRoomPositive(Evict(c), size);
    }
  }

  lemma StepPositive(c: Cache, h: Log, op: Op)
    requires Shaped(c) && Positive(c.lru) && (op.Put? ==> op.size > 0)
    ensures Positive(Step(c, h, op).0.lru)
  {
    if op.Put? {
      MakeRoomPositive(c, op.size);
    } else if Found(c, op.key, op.now).Some? {
      var i := HitIsListed(c, op.key, op.now);
      RotatedMembers(c.lru, i);
    }
  }

  lemma {:induction false} ReachedPositive(l: Limits, ops: seq<Op>)
    requires AtLeast(ops, 1)
    ensures Positive(Reached(l, ops).0.lru)
  {
    if ops != [] {
      var prior := ops[..|ops| - 1];
      ReachedPositive(l, prior);
      ExecKeeps(l, prior);
      StepPositive(Reached(l, prior).0, Reached(l, prior).1, ops[|ops| - 1]);
    }
  }

  /** The published count after the run is the number of cached entries. */
  ghost predicate CountIsLength(l: Limits, ops: seq<Op>) {
    Reached(l, ops).0.count == |Reached(l, ops).0.lru|
  }

  lemma FitBooks(c: Cache)
    requires Booked(c) && Sum(c.lru) < TWO32
    ensures c.size == Sum(c.lru) <= c.maxSize && c.count == U32(|c.lru|)
  {
  }

  lemma FitCount(c: Cache)
    requires c.count == U32(|c.lru|) && Positive(c.lru) && Sum(c.lru) < TWO32
    ensures c.count == |c.lru|
  {
    FewerThanBytes(c.lru);
  }

  /** When the two limits together fit 32 bits, the published size is the exact sum of the cached
      entries after every run, and the published count their number if no insert is empty. */
  lemma ExactBooks(l: Limits, ops: seq<Op>)
    requires l.maxSize + l.maxObject < TWO32
    ensures var c := Reached(l, ops).0; c.size == Sum(c.lru) <= l.maxSize && c.count == U32(|c.lru|)
    ensures AtLeast(ops, 1) ==> CountIsLength(l, ops)
  {
    SumFits(l, ops);
    ExecKeeps(l, ops);
    FitBooks(Reached(l, ops).0);
    if AtLeast(ops, 1) {
      ReachedPositive(l, ops);
      FitCount(Reached(l, ops).0);
    }
  }

  function Zeros(n: nat): seq<Op> {
    if n == 0 then [] else Zeros(n - 1) + [PutOf(0)]
  }

  lemma EmptyPut(c: Cache, h: Log)
    requires |c.chains| == BUCKETS && c.size == 0
    ensures var d := Step(c, h, PutOf(0)).0; d.size == 0 && d.count == U32(c.count + 1) && |d.lru| == |c.lru| + 1
  {
    var it := Fresh(c, [], 0, None, 0, 0);
    assert Insert(c, [], 0, None, 0, 0) == (Link(c, it), Yes);
  }

  /** Inserts of size 0 never evict, whatever the limits. */
  lemma {:induction false} ZerosFill(l: Limits, n: nat)
    ensures var c := Reached(l, Zeros(n)).0; c.size == 0 && |c.lru| == n && c.count == U32(n)
  {
    if n > 0 {
      ZerosFill(l, n - 1);
      ReachedNext(l, Zeros(n - 1), PutOf(0));
      EmptyPut(Reached(l, Zeros(n - 1)).0, Reached(l, Zeros(n - 1)).1);
      Wraps(n - 1, 1);
    }
  }

  /** With 2^32 entries of size 0 the cache publishes a count of 0. */
  lemma CountWraps(l: Limits)
    ensures var c := Reached(l, Zeros(TWO32)).0; c.count == 0 && |c.lru| == TWO32
  {
    ZerosFill(l, TWO32);
  }

  /** The published count is the number of entries after every run whose inserts have at least
      `least` bytes if and only if `least` is positive. */
  lemma CountExactly(l: Limits, least: nat)
    requires l.maxSize + l.maxObject < TWO32
    ensures (forall ops :: AtLeast(ops, least) ==> CountIsLength(l, ops)) <==> least > 0
  {
    if least > 0 {
      forall ops | AtLeast(ops, least) ensures CountIsLength(l, ops) {
        ExactBooks(l, ops);
      }
    } else {
      CountWraps(l);
      assert AtLeast(Zeros(TWO32), least) && !CountIsLength(l, Zeros(TWO32));
    }
  }

  /** After the run the cache publishes `size` and holds entries of `sum` bytes. */
  ghost predicate Publishes(l: Limits, ops: seq<Op>, size: int, sum: int) {
    Reached(l, ops).0.size == size && Sum(Reached(l, ops).0.lru) == sum
  }

  /** The published size after the run is the sum of the cached entries. */
  ghost predicate SizeIsSum(l: Limits, ops: seq<Op>) {
    Reached(l, ops).0.size == Sum(Reached(l, ops).0.lru)
  }

  function PutOf(size: nat): Op {
    Put([], size, None, 0, 0)
  }

  lemma BoundsKept(l: Limits, ops: seq<Op>)
    ensures var c := Reached(l, ops).0; c.maxSize == l.maxSize && c.maxObject == l.maxObject
  {
    ExecKeeps(l, ops);
  }

  lemma ReachedNext(l: Limits, ops: seq<Op>, op: Op)
    ensures Reached(l, ops + [op]) == Step(Reached(l, ops).0, Reached(l, ops).1, op)
  {
    assert (ops + [op])[..|ops|] == ops;
  }

  /** An insert that neither is refused nor needs an eviction. */
  lemma PlainPut(c: Cache, h: Log, size: nat)
    requires |c.chains| == BUCKETS && size <= c.maxObject && U32(c.size + size) <= c.maxSize
    ensures var d := Step(c, h, PutOf(size)).0; d.size == U32(c.size + size) && Sum(d.lru) == Sum(c.lru) + size
  {
    var it := Fresh(c, [], size, None, 0, 0);
    assert Insert(c, [], size, None, 0, 0) == (Link(c, it), Yes);
    assert Link(c, it).lru[1..] == c.lru;
  }

  /** One more such insert in a run whose books are exact so far. */
  lemma PlainPutRun(l: Limits, ops: seq<Op>, n: nat, size: nat)
    requires Publishes(l, ops, n, n) && size <= l.maxObject && U32(n + size) <= l.maxSize
    ensures Publishes(l, ops + [PutOf(size)], U32(n + size), n + size)
  {
    BoundsKept(l, ops);
    ReachedNext(l, ops, PutOf(size));
    PlainPut(Reached(l, ops).0, Reached(l, ops).1, size);
  }

  function Ones(n: nat): seq<Op> {
    if n == 0 then [] else Ones(n - 1) + [PutOf(1)]
  }

  lemma NothingYet(l: Limits)
    ensures Publishes(l, [], 0, 0)
  {
  }

  lemma OneMore(l: Limits, ops: seq<Op>, more: seq<Op>, n: nat)
    requires Publishes(l, ops, n, n) && more == ops + [PutOf(1)] && n + 1 <= l.maxSize < TWO32 && 1 <= l.maxObject
    ensures Publishes(l, more, n + 1, n + 1)
  {
    PlainPutRun(l, ops, n, 1);
  }

  lemma {:induction false} OnesFill(l: Limits, n: nat)
    requires n <= l.maxSize < TWO32 && 1 <= l.maxObject
    ensures Publishes(l, Ones(n), n, n)
  {
    if n == 0 {
      NothingYet(l);
    } else {
      OnesFill(l, n - 1);
      OneMore(l, Ones(n - 1), Ones(n), n - 1);
    }
  }

  /** The run that makes the counter pass 2^32: entries of size 1, then one of the largest size. */
  function Overfill(l: Limits): seq<Op>
    requires l.maxObject <= TWO32
  {
    Ones(TWO32 - l.maxObject) + [PutOf(l.maxObject)]
  }

  /** With limits that do not fit together, the cache takes 2^32 bytes and publishes a size of 0. */
  lemma SizeWraps(l: Limits)
    requires l.maxSize < TWO32 && l.maxObject < TWO32 <= l.maxSize + l.maxObject
    ensures Publishes(l, Overfill(l), 0, TWO32)
  {
    OnesFill(l, TWO32 - l.maxObject);
    PlainPutRun(l, Ones(TWO32 - l.maxObject), TWO32 - l.maxObject, l.maxObject);
  }

  /** The published size is the sum after every run if and only if the two limits together fit
      32 bits. */
  lemma BooksExactly(l: Limits)
    requires l.maxSize < TWO32 && l.maxObject < TWO32
    ensures (forall ops :: SizeIsSum(l, ops)) <==> l.maxSize + l.maxObject < TWO32
  {
    if l.maxSize + l.maxObject < TWO32 {
      forall ops ensures SizeIsSum(l, ops) {
        ExactBooks(l, ops);
      }
    } else {
      SizeWraps(l);
      assert !SizeIsSum(l, Overfill(l));
    }
  }

  lemma StepSum(c: Cache, h: Log, op: Op)
    requires Shaped(c) && Sum(c.lru) <= c.maxSize && c.maxSize + c.maxObject < TWO32
    ensures Sum(Step(c, h, op).0.lru) < TWO32
  {
    if op.Put? {
      InsertSum(c, op);
    } else {
      LookupSum(c, op.key, op.now);
    }
  }

  lemma InsertSum(c: Cache, op: Op)
    requires op.Put? && |c.chains| == BUCKETS && Sum(c.lru) <= c.maxSize && c.maxSize + c.maxObject < TWO32
    ensures Sum(Insert(c, op.key, op.size, op.ttl, op.value, op.now).0.lru) < TWO32
  {
    MakeRoomShrinks(c, op.size);
    var r := MakeRoom(c, op.size);
    var it := Fresh(r, op.key, op.size, op.ttl, op.value, op.now);
    assert Link(r, it).lru[1..] == r.lru;
  }

  /** Once all but the `k` most recently used entries are gone, an entry of `size` still finds no
      room. */
  ghost predicate Full(c: Cache, size: nat, k: nat)
    requires k <= |c.lru|
  {
    U32(Sum(c.lru[..k]) + size) > c.maxSize
  }

  lemma CrowdedIsFull(c: Cache, size: nat)
    requires Tallied(c)
    ensures Crowded(c, size) <==> Full(c, size, |c.lru|)
  {
    assert c.lru[..|c.lru|] == c.lru;
    Wraps(Sum(c.lru), size);
  }

  /** And never will, down to the empty cache. */
  ghost predicate NoRoom(c: Cache, size: nat) {
    forall k :: 0 <= k <= |c.lru| ==> Full(c, size, k)
  }

  lemma NoRoomAfter(c: Cache, size: nat)
    requires |c.chains| == BUCKETS && c.lru != [] && Full(c, size, |c.lru|)
    ensures NoRoom(Evict(c), size) <==> NoRoom(c, size)
  {
    var d := Evict(c);
    forall k | 0 <= k <= |d.lru| ensures Full(d, size, k) <==> Full(c, size, k) {
      assert d.lru[..k] == c.lru[..k];
    }
  }

  /** The eviction loop ends with a crowded cache exactly when no number of evictions makes room. */
  lemma {:induction false} NeverRoom(c: Cache, size: nat)
    requires |c.chains| == BUCKETS && Tallied(c)
    ensures Crowded(MakeRoom(c, size), size) <==> NoRoom(c, size)
    decreases |c.lru|
  {
    CrowdedIsFull(c, size);
    if Crowded(c, size) && c.lru != [] {
      EvictKeepsBooks(c);
      NeverRoom(Evict(c), size);
      NoRoomAfter(c, size);
    }
  }

  /** The eviction loop of an insert spins forever if and only if the object is not too large to
      try and finds no room at any point down to the empty cache. */
  lemma SpinsExactly(c: Cache, op: Op)
    requires op.Put? && |c.chains| == BUCKETS && Tallied(c)
    ensures Insert(c, op.key, op.size, op.ttl, op.value, op.now).1.Spins?
       <==> op.size <= c.maxObject && NoRoom(c, op.size)
  {
    if op.size <= c.maxObject {
      NeverRoom(c, op.size);
    }
  }

  lemma {:induction false} SumPrefix(s: seq<Item>, k: nat)
    requires k <= |s|
    ensures Sum(s[..k]) <= Sum(s)
  {
    if k > 0 {
      assert s[..k][1..] == s[1..][..k - 1];
      SumPrefix(s[1..], k - 1);
    }
  }

  /** It always ends for an object no larger than the cache; one that is larger makes it spin
      unless the 32-bit sum wraps on the way. */
  lemma SpinsOnLargeObjects(c: Cache, op: Op)
    requires op.Put? && |c.chains| == BUCKETS && Tallied(c) && op.size < TWO32
    ensures var spins := Insert(c, op.key, op.size, op.ttl, op.value, op.now).1.Spins?;
      && (spins ==> c.maxSize < op.size <= c.maxObject)
      && (Sum(c.lru) + op.size < TWO32 ==> (spins <==> c.maxSize < op.size <= c.maxObject))
  {
    SpinsExactly(c, op);
    if op.size <= c.maxSize {
      assert !Full(c, op.size, 0);
    } else if Sum(c.lru) + op.size < TWO32 {
      forall k | 0 <= k <= |c.lru| ensures Full(c, op.size, k) {
        SumPrefix(c.lru, k);
      }
    }
  }

  /** An object the configuration admits but that is larger than the cache makes the first insert
      into an empty cache spin. */
  lemma SpinHappens(l: Limits, key: Key, ttl: Option<int>, value: int, now: int)
    requires l.maxSize < l.maxObject < TWO32
    ensures Insert(Reached(l, []).0, key, l.maxObject, ttl, value, now).1.Spins?
  {
    SpinsOnLargeObjects(Empty(l), Put(key, l.maxObject, ttl, value, now));
  }
}
