/** The pool object, updated in place under its lock, proved to compute the steps of `DbPoolSpec`. */
module DbPool {
  import opened Common
  import opened S = DbPoolSpec

  class DatabasePool {
    const maxConns: nat
    const maxIdle: nat
    var backends: seq<Backend>
    var idle: seq<seq<Conn>>
    var total: int
    var created: int
    var closed: int
    var acquired: int
    var released: int
    ghost var leased: map<nat, nat>
    ghost var origin: map<nat, nat>
    ghost var dropped: nat

    ghost function View(): Pool
      reads this
    {
      Pool(maxConns, maxIdle, backends, idle, total, created, closed, acquired, released, leased, origin, dropped)
    }

    constructor (maxConns: nat, maxIdle: nat)
      ensures View() == NewPool(maxConns, maxIdle)
    {
      this.maxConns, this.maxIdle := maxConns, maxIdle;
      backends, idle := [], [];
      total, created, closed, acquired, released := 0, 0, 0, 0, 0;
      leased, origin, dropped := map[], map[], 0;
    }

    method AddBackend(role: Role) returns (id: nat)
      requires |idle| == |backends|
      modifies this
      ensures View() == S.AddBackend(old(View()), role) && id == |backends| > 0
    {
      backends := backends + [Backend(role, true, 0, 0)];
      idle := idle + [[]];
      id := |backends|;
    }

    method SelectPrimary() returns (r: Option<nat>)
      ensures r == FirstPrimary(backends)
    {
      var i := 0;
      while i < |backends|
        invariant i <= |backends| && forall j :: 0 <= j < i ==> !IsPrimary(backends[j])
      {
        if IsPrimary(backends[i]) {
          PrimaryIsUnique(backends, Some(i));
          return Some(i);
        }
        i := i + 1;
      }
      PrimaryIsUnique(backends, None);
      return None;
    }

    method SelectReplica() returns (r: Option<nat>)
      ensures r == if BestReplica(backends).Some? then BestReplica(backends) else FirstPrimary(backends)
    {
      var best: Option<nat> := None;
      var i := 0;
      while i < |backends|
        invariant i <= |backends| && best == BestReplica(backends[..i])
      {
        assert backends[..i + 1][..i] == backends[..i];
        var b := backends[i];
        if b.role.Replica? && b.healthy && b.lag <= MAX_LAG {
          if best.None? || b.active < backends[best.value].active
             || (b.active == backends[best.value].active && b.lag < backends[best.value].lag) {
            best := Some(i);
          }
        }
        i := i + 1;
      }
      assert backends[..|backends|] == backends;
      if best.None? {
        r := SelectPrimary();
      } else {
        r := best;
      }
    }

    method SelectBackend(q: QueryType) returns (r: Option<nat>)
      ensures r == Select(backends, q)
    {
      if q.Read? {
        r := SelectReplica();
      } else {
        r := SelectPrimary();
      }
    }

    /** Pops from the back of a list the connections that no longer validate. */
    method DropUnusable(i: nat, ok: set<nat>)
      requires i < |idle|
      modifies this`idle, this`closed, this`dropped
      ensures View() == Discard(old(View()), i, ok)
    {
      ghost var before, n := idle[i], Usable(idle[i], ok);
      while idle[i] != [] && idle[i][|idle[i]| - 1].id !in ok
        invariant i < |idle| == |old(idle)| && |idle[i]| <= |before| && idle[i] == before[..|idle[i]|]
        invariant forall j :: 0 <= j < |idle| && j != i ==> idle[j] == old(idle)[j]
        invariant Usable(idle[i], ok) == n
        invariant closed == old(closed) + (|before| - |idle[i]|) && dropped == old(dropped) + (|before| - |idle[i]|)
        decreases |idle[i]|
      {
        idle := idle[i := idle[i][..|idle[i]| - 1]];
        closed, dropped := closed + 1, dropped + 1;
      }
    }

    method Lend(i: nat, c: Conn)
      requires i < |backends|
      modifies this`backends, this`acquired, this`leased
      ensures View() == S.Lend(old(View()), i, c)
    {
      backends := backends[i := backends[i].(active := backends[i].active + 1)];
      acquired := acquired + 1;
      leased := leased[c.id := i + 1];
    }

    method AcquireFrom(i: nat, inTxn: bool, made: Option<nat>) returns (c: Option<Conn>)
      requires i < |idle| && |idle| == |backends|
      modifies this
      ensures (View(), c) == S.AcquireFrom(old(View()), i, inTxn, made)
    {
      if idle[i] != [] {
        var conn := idle[i][|idle[i]| - 1];
        idle := idle[i := idle[i][..|idle[i]| - 1]];
        c := Some(Conn(conn.id, i + 1, inTxn));
        Lend(i, c.value);
        return;
      }
      if total >= maxConns || made.None? {
        return None;
      }
      c := Some(Conn(made.value, i + 1, inTxn));
      total, created := total + 1, created + 1;
      origin := origin[made.value := i + 1];
      Lend(i, c.value);
    }

    method Acquire(q: QueryType, inTxn: bool, session: nat, ok: set<nat>, made: Option<nat>) returns (c: Option<Conn>)
      requires |idle| == |backends|
      modifies this
      ensures (View(), c) == S.Acquire(old(View()), q, inTxn, session, ok, made)
    {
      var t: Option<nat>;
      if session > 0 {
        t := if session <= |backends| && backends[session - 1].healthy then Some(session - 1) else None;
      } else {
        t := SelectBackend(q);
      }
      if t.None? {
        return None;
      }
      DropUnusable(t.value, ok);
      c := AcquireFrom(t.value, inTxn, made);
    }

    method Release(c: Conn, keep: bool)
      requires 1 <= c.backend <= |backends| && |idle| == |backends|
      modifies this
      ensures View() == S.Release(old(View()), c, keep)
    {
      var i := c.backend - 1;
      backends := backends[i := backends[i].(active := backends[i].active - 1)];
      leased := leased - {c.id};
      if keep && |idle[i]| < maxIdle {
        idle := idle[i := idle[i] + [c.(inTxn := false)]];
        released := released + 1;
      } else {
        total, closed := total - 1, closed + 1;
      }
    }

    /** One list of the cleanup: keeps, in order, the connections that are still good. */
    method CleanList(i: nat, ok: set<nat>)
      requires i < |idle|
      modifies this`idle, this`total, this`closed
      ensures View() == CleanOne(old(View()), i, ok)
    {
      var conns, kept := idle[i], [];
      var j := 0;
      while j < |conns|
        invariant j <= |conns| && kept == Kept(conns[..j], ok) && idle == old(idle)
        invariant total == old(total) - (j - |kept|) && closed == old(closed) + (j - |kept|)
      {
        assert conns[..j + 1][..j] == conns[..j];
        if conns[j].id in ok {
          kept := kept + [conns[j]];
        } else {
          total, closed := total - 1, closed + 1;
        }
        j := j + 1;
      }
      assert conns[..|conns|] == conns;
      idle := idle[i := kept];
    }

    method CleanupIdleConnections(ok: set<nat>)
      modifies this`idle, this`total, this`closed
      ensures View() == Cleanup(old(View()), ok)
    {
      var i := 0;
      while i < |idle|
        invariant i <= |idle| == |old(idle)| && View() == CleanUpTo(old(View()), i, ok)
      {
        CleanList(i, ok);
        i := i + 1;
      }
    }
  }

  lemma PrimaryIsUnique(bs: seq<Backend>, r: Option<nat>)
    requires PrimaryAt(bs, r)
    ensures FirstPrimary(bs) == r
  {
  }
}
