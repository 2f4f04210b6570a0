/**
 What lookups answer, in terms of the arguments of the inserts before them.
 */
module CacheAnswers {
  import opened Common
  import opened CacheSpec

  /** The put at place `i` of the run is answered with success. */
  ghost predicate StoredAt(l: Limits, ops: seq<Op>, i: nat)
    requires i < |ops|
  {
    var op := ops[i];
    op.Put? && Insert(Reached(l, ops[..i]).0, op.key, op.size, op.ttl, op.value, op.now).1.Yes?
  }

  /** The moment from which on the entry of a put is dead. */
  function Deadline(op: Op, maxAge: nat): int
    requires op.Put?
  {
    match op.ttl
    case Some(t) => t
    case None => op.now + maxAge
  }

  /** The entry is the one the put brought: its key, size, value and lifetime. */
  ghost predicate Brought(op: Op, maxAge: nat, it: Item) {
    op.Put? && it.key == op.key && it.size == op.size && it.value == op.value && it.expires == Deadline(op, maxAge)
  }

  /** The log changes as the answer of the last operation says. */
  lemma LogNext(l: Limits, ops: seq<Op>, op: Op)
    ensures var h, h1 := Reached(l, ops).1, Reached(l, ops + [op]).1;
      if StoredAt(l, ops + [op], |ops|)
      then op.key in h1.newest && Brought(op, l.maxAge, h1.newest[op.key]) && h1.newest == h.newest[op.key := h1.newest[op.key]]
      else h1.newest == h.newest
  {
    assert (ops + [op])[..|ops|] == ops && (ops + [op])[|ops|] == op;
    ReachedNext(l, ops, op);
    ExecKeeps(l, ops);
  }

  lemma StoredInPrefix(l: Limits, ops: seq<Op>, n: nat, j: nat)
    requires j < n <= |ops|
    ensures StoredAt(l, ops[..n], j) <==> StoredAt(l, ops, j)
  {
    assert ops[..n][..j] == ops[..j];
  }

  /** No later put of the run replaces the one at place `i`. */
  ghost predicate LastOfKey(l: Limits, ops: seq<Op>, i: nat)
    requires i < |ops|
  {
    StoredAt(l, ops, i) && forall j :: i < j < |ops| && StoredAt(l, ops, j) ==> ops[j].key != ops[i].key
  }

  ghost predicate NeverStored(l: Limits, ops: seq<Op>, key: Key) {
    forall j :: 0 <= j < |ops| && StoredAt(l, ops, j) ==> ops[j].key != key
  }

  lemma {:induction false} NewestIsLastPut(l: Limits, ops: seq<Op>, i: nat)
    requires i < |ops| && LastOfKey(l, ops, i)
    ensures var h := Reached(l, ops).1; ops[i].key in h.newest && Brought(ops[i], l.maxAge, h.newest[ops[i].key])
    decreases |ops|
  {
    var n := |ops| - 1;
    var prior := ops[..n];
    assert prior + [ops[n]] == ops;
    LogNext(l, prior, ops[n]);
    if i < n {
      assert prior[i] == ops[i];
      forall j | i <= j < n ensures StoredAt(l, prior, j) <==> StoredAt(l, ops, j) {
        StoredInPrefix(l, ops, n, j);
      }
      NewestIsLastPut(l, prior, i);
    }
  }

  lemma {:induction false} NoneNewest(l: Limits, ops: seq<Op>, key: Key)
    requires NeverStored(l, ops, key)
    ensures key !in Reached(l, ops).1.newest
    decreases |ops|
  {
    if ops != [] {
      var n := |ops| - 1;
      var prior := ops[..n];
      assert prior + [ops[n]] == ops;
      LogNext(l, prior, ops[n]);
      forall j | 0 <= j < n ensures StoredAt(l, prior, j) <==> StoredAt(l, ops, j) {
        StoredInPrefix(l, ops, n, j);
      }
      NoneNewest(l, prior, key);
    }
  }

  /**
   After any run a lookup finds, if anything, exactly what the last stored put of its key brought,
   alive; it misses only when that is dead or the cache holds nothing of the key any more.
   */
  lemma AnswerIsLastPut(l: Limits, ops: seq<Op>, i: nat, t: int)
    requires i < |ops| && LastOfKey(l, ops, i)
    ensures var c := Reached(l, ops).0; var r := Found(c, ops[i].key, t);
      && (r.Some? ==> Brought(ops[i], l.maxAge, r.value) && Deadline(ops[i], l.maxAge) > t)
      && (r.None? && Deadline(ops[i], l.maxAge) > t ==> forall it :: it in c.lru ==> it.key != ops[i].key)
  {
    NewestIsLastPut(l, ops, i);
    NeverStale(l, ops, ops[i].key, t);
    ExecKeeps(l, ops);
  }

  /** A key that no put of the run stored is never found. */
  lemma NothingFromNothing(l: Limits, ops: seq<Op>, key: Key, t: int)
    requires NeverStored(l, ops, key)
    ensures Found(Reached(l, ops).0, key, t).None?
  {
    NoneNewest(l, ops, key);
    NeverStale(l, ops, key, t);
  }

  lemma LinkedIsFound(c: Cache, it: Item, t: int)
    requires |c.chains| == BUCKETS
    ensures Found(Link(c, it), it.key, t) == if it.expires > t then Some(it) else None
  {
  }

  /** A put answered with success is found right afterwards, until its lifetime is over. */
  lemma PutThenGet(l: Limits, ops: seq<Op>, op: Op, t: int)
    requires StoredAt(l, ops + [op], |ops|)
    ensures var r := Found(Reached(l, ops + [op]).0, op.key, t);
      if Deadline(op, l.maxAge) > t then r.Some? && Brought(op, l.maxAge, r.value) else r.None?
  {
    assert (ops + [op])[..|ops|] == ops && (ops + [op])[|ops|] == op;
    ReachedNext(l, ops, op);
    ExecKeeps(l, ops);
    var (c, h) := Reached(l, ops);
    MakeRoomTallied(c, op.size);
    var r, it := MakeRoom(c, op.size), Asked(op, c.next, c.maxAge);
    PutIs(c, h, op, r, it);
    LinkedIsFound(r, it, t);
  }

  // ---------------------------------------------------------------- evictions

  /** The `k` most recently used entries leave room, if there are any, and no more of them would. */
  ghost predicate Longest(c: Cache, size: nat, k: nat) {
    k <= |c.lru| && (forall j :: k < j <= |c.lru| ==> Full(c, size, j)) && (k > 0 ==> !Full(c, size, k))
  }

  lemma FullAlike(c: Cache, size: nat, j: nat)
    requires |c.chains| == BUCKETS && c.lru != [] && j < |c.lru|
    ensures Evict(c).lru[..j] == c.lru[..j] && (Full(Evict(c), size, j) <==> Full(c, size, j))
  {
  }

  lemma LongestOn(c: Cache, size: nat, k: nat)
    requires |c.chains| == BUCKETS && c.lru != [] && Full(c, size, |c.lru|) && Longest(Evict(c), size, k)
    ensures Longest(c, size, k)
  {
    forall j | k <= j < |c.lru| ensures Full(Evict(c), size, j) <==> Full(c, size, j) {
      FullAlike(c, size, j);
    }
  }

  /** An insert evicts no more than it must: the longest part of the list stays, most recently used
      first, that leaves room. */
  lemma {:induction false} EvictsLeast(c: Cache, size: nat) returns (k: nat)
    requires |c.chains| == BUCKETS && Tallied(c)
    ensures Longest(c, size, k) && MakeRoom(c, size).lru == c.lru[..k]
    decreases |c.lru|
  {
    CrowdedIsFull(c, size);
    if Crowded(c, size) && c.lru != [] {
      EvictKeepsBooks(c);
      k := EvictsLeast(Evict(c), size);
      LongestOn(c, size, k);
      FullAlike(c, size, k);
    } else {
      k := |c.lru|;
      assert c.lru[..k] == c.lru;
    }
  }

  /** A put is stored if and only if its object is admitted and some number of evictions makes room,
      and refused outright if and only if it is not admitted. */
  lemma StoredExactly(l: Limits, ops: seq<Op>, op: Op)
    requires op.Put?
    ensures var c := Reached(l, ops).0; var r := Insert(c, op.key, op.size, op.ttl, op.value, op.now).1;
      && (r.Yes? <==> op.size <= l.maxObject && !NoRoom(c, op.size))
      && (r.TooLarge? <==> op.size > l.maxObject)
  {
    ExecKeeps(l, ops);
    SpinsExactly(Reached(l, ops).0, op);
  }
}
