/** The router object: a fixed array of sessions, overwritten and shifted in place, in front of the
    pool; proved to compute the steps of `DbRouterSpec`. */
module DbRouter {
  import opened Common
  import P = DbPoolSpec
  import opened S = DbRouterSpec
  import DbPool

  class Router {
    const pool: DbPool.DatabasePool
    const slots: array<Session>
    var count: nat

    ghost predicate Valid()
      reads this, pool
    {
      count <= slots.Length && |pool.idle| == |pool.backends|
    }

    ghost function Sessions(): seq<Session>
      requires Valid()
      reads this, pool, slots
    {
      slots[..count]
    }

    ghost function View(): Db
      requires Valid()
      reads this, pool, slots
    {
      Db(slots.Length, Sessions(), pool.View())
    }

    constructor (pool: DbPool.DatabasePool, maxSessions: nat)
      requires |pool.idle| == |pool.backends|
      ensures Valid() && fresh(slots) && this.pool == pool && View() == Db(maxSessions, [], pool.View())
    {
      this.pool := pool;
      slots := new Session[maxSessions](_ => Session(0, 0, false, 0));
      count := 0;
    }

    method FindSession(id: nat) returns (r: Option<nat>)
      requires Valid()
      ensures r == Find(Sessions(), id)
    {
      var i := 0;
      while i < count
        invariant i <= count && forall j :: 0 <= j < i ==> slots[j].id != id
      {
        if slots[i].id == id {
          FindIsFirst(Sessions(), id, i);
          return Some(i);
        }
        i := i + 1;
      }
      FindIsFirst(Sessions(), id, count);
      return None;
    }

    /** The two search loops: the first session outside a transaction, then an older one. */
    method FindVictim() returns (r: Option<nat>)
      requires Valid()
      ensures r == Victim(Sessions())
    {
      var i := 0;
      while i < count && slots[i].inTxn
        invariant i <= count && forall j :: 0 <= j < i ==> slots[j].inTxn
      {
        i := i + 1;
      }
      if i == count {
        VictimIsUnique(Sessions(), None);
        return None;
      }
      var oldest := i;
      i := i + 1;
      while i < count
        invariant oldest < i <= count && IsVictim(slots[..i], Some(oldest))
      {
        if !slots[i].inTxn && slots[i].last < slots[oldest].last {
          oldest := i;
        }
        i := i + 1;
      }
      VictimIsUnique(Sessions(), Some(oldest));
      return Some(oldest);
    }

    method CreateSession(id: nat, now: int) returns (r: Option<nat>)
      requires Valid()
      modifies this`count, slots
      ensures Valid() && (Sessions(), r) == AddSession(slots.Length, old(Sessions()), id, now)
    {
      if count >= slots.Length {
        r := FindVictim();
        if r.Some? {
          slots[r.value] := Session(id, 0, false, now);
        }
        return;
      }
      slots[count] := Session(id, 0, false, now);
      count := count + 1;
      assert Sessions() == old(Sessions()) + [Session(id, 0, false, now)];
      return Some(count - 1);
    }

    method EnterSession(info: Info, client: nat, now: int) returns (r: Option<nat>)
      requires Valid()
      modifies this`count, slots
      ensures Valid() && (Sessions(), r) == Enter(old(View()), info, client, now)
    {
      r := FindSession(client);
      if r.None? && (info.sticky || info.q.Begin?) {
        r := CreateSession(client, now);
      }
    }

    method RouteQuery(info: Info, client: nat, now: int, ok: set<nat>, made: Option<nat>) returns (c: Option<P.Conn>)
      requires Valid()
      modifies this`count, slots, pool
      ensures Valid() && (View(), c) == Route(old(View()), info, client, now, ok, made)
    {
      var i := EnterSession(info, client, now);
      ghost var entered := Sessions();
      var backend, inTxn := 0, false;
      if i.Some? {
        slots[i.value] := Mark(slots[i.value], info.q, now);
        if slots[i.value].inTxn || info.sticky {
          backend, inTxn := slots[i.value].backend, slots[i.value].inTxn;
        }
      }
      c := pool.Acquire(info.q, inTxn, backend, ok, made);
      if c.Some? && i.Some? && slots[i.value].backend == 0 {
        slots[i.value] := slots[i.value].(backend := c.value.backend);
      }
      if i.Some? {
        assert Sessions() == entered[i.value := Bind(Mark(entered[i.value], info.q, now), c)];
      }
    }

    method EndSession(client: nat)
      requires Valid()
      modifies this`count, slots
      ensures Valid() && Sessions() == Removed(old(Sessions()), client)
    {
      var i := FindSession(client);
      if i.Some? {
        ghost var before := Sessions();
        forall j | i.value <= j < count - 1 {
          slots[j] := slots[j + 1];
        }
        count := count - 1;
        ghost var after := before[..i.value] + before[i.value + 1..];
        forall j | 0 <= j < count ensures slots[j] == after[j] {
          assert after[j] == before[if j < i.value then j else j + 1];
        }
        assert slots[..count] == after;
      }
    }
  }

  lemma FindIsFirst(sessions: seq<Session>, id: nat, i: nat)
    requires i <= |sessions| && (forall j :: 0 <= j < i ==> sessions[j].id != id)
    requires i < |sessions| ==> sessions[i].id == id
    ensures Find(sessions, id) == if i == |sessions| then None else Some(i)
  {
  }

  lemma VictimIsUnique(sessions: seq<Session>, r: Option<nat>)
    requires IsVictim(sessions, r)
    ensures Victim(sessions) == r
  {
    var v := Victim(sessions);
    if v.Some? && r.Some? {
      assert !(v.value < r.value) && !(r.value < v.value);
    }
  }
}
