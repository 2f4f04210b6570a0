/**
 A run of the router in which a transaction goes to a replica although there is a primary: the
 price of one COMMIT that finds the pool exhausted.
 */
module DbStray {
  import opened Common
  import opened DbPoolSpec
  import opened DbRouterSpec

  /** A primary and a replica without idle connections in a pool of one slot; `lent` is the
      connection that takes it. */
  ghost predicate Pair(p: Pool, lent: Option<Conn>) {
    && p.idle == [[], []] && p.maxConns == 1 && p.total == (if lent.Some? then 1 else 0)
    && (lent.Some? ==> 1 <= lent.value.backend <= 2)
    && p.leased == (if lent.Some? then map[lent.value.id := lent.value.backend] else map[])
    && p.backends == [Backend(Primary, true, 0, if lent.Some? && lent.value.backend == 1 then 1 else 0),
                      Backend(Replica, true, 0, if lent.Some? && lent.value.backend == 2 then 1 else 0)]
  }

  lemma PairTargets(p: Pool, lent: Option<Conn>)
    requires Pair(p, lent)
    ensures Target(p, Begin, 0) == Target(p, End, 0) == Some(0)
    ensures Target(p, Read, 0) == Target(p, Begin, 2) == Some(1)
  {
    assert IsReplica(p.backends[1]) && IsPrimary(p.backends[0]);
  }

  /** A new connection to backend `i`. */
  lemma Connects(p: Pool, q: QueryType, inTxn: bool, session: nat, id: nat, i: nat)
    requires Pair(p, None) && i < 2 && Target(p, q, session) == Some(i)
    ensures var r := Acquire(p, q, inTxn, session, {}, Some(id));
      && r.1 == Some(Conn(id, i + 1, inTxn)) && Pair(r.0, r.1) && r.0.origin == p.origin[id := i + 1]
  {
    assert p.idle[i := []] == p.idle;
  }

  /** The slot is taken, so there is no second connection although connecting would work. */
  lemma Exhausted(p: Pool, lent: Conn, id: nat)
    requires Pair(p, Some(lent)) && Target(p, End, 0) == Some(0)
    ensures var r := Acquire(p, End, false, 0, {}, Some(id));
      r.1 == None && Pair(r.0, Some(lent)) && r.0.origin == p.origin
  {
    assert p.idle[0 := []] == p.idle;
  }

  /** The connection is given back and closed. */
  lemma Closes(p: Pool, c: Conn)
    requires Pair(p, Some(c))
    ensures Pair(Release(p, c, false), None) && Release(p, c, false).origin == p.origin
  {
  }

  ghost predicate At(db: Db, sessions: seq<Session>, lent: Option<Conn>, ids: set<nat>) {
    Sound(db) && db.maxSessions == 1 && db.sessions == sessions && Pair(db.pool, lent) && db.pool.origin.Keys == ids
  }

  function Ask5(q: QueryType, now: int, id: nat): Op {
    Query(5, Info(q, q.Begin?), now, {}, Some(id))
  }

  function Back(c: Conn): Op {
    PoolStep(Give(c, false))
  }

  const FIRST: Conn := Conn(7, 1, true)
  const SECOND: Conn := Conn(8, 2, false)

  lemma BeginStep(db: Db)
    requires At(db, [], None, {})
    ensures var op := Ask5(Begin, 1, 7);
      Enabled(db, op) && Handed(db, op) == Some(FIRST) && At(Step(db, op), [Session(5, 1, true, 1)], Some(FIRST), {7})
  {
    var op := Ask5(Begin, 1, 7);
    StepKeeps(db, op);
    PairTargets(db.pool, None);
    Connects(db.pool, Begin, true, 0, 7, 0);
  }

  /** This COMMIT gets no connection, and leaves its session unbound. */
  lemma EndStep(db: Db)
    requires At(db, [Session(5, 1, true, 1)], Some(FIRST), {7})
    ensures var op := Ask5(End, 2, 8);
      Enabled(db, op) && Handed(db, op).None? && At(Step(db, op), [Session(5, 0, false, 2)], Some(FIRST), {7})
  {
    var op := Ask5(End, 2, 8);
    StepKeeps(db, op);
    FindIsThere(db.sessions, 0);
    PairTargets(db.pool, Some(FIRST));
    Exhausted(db.pool, FIRST, 8);
  }

  lemma BackStep(db: Db, sessions: seq<Session>, c: Conn, ids: set<nat>)
    requires At(db, sessions, Some(c), ids)
    ensures Enabled(db, Back(c)) && At(Step(db, Back(c)), sessions, None, ids)
  {
    StepKeeps(db, Back(c));
    Closes(db.pool, c);
  }

  lemma ReadStep(db: Db)
    requires At(db, [Session(5, 0, false, 2)], None, {7})
    ensures var op := Ask5(Read, 3, 8);
      Enabled(db, op) && Handed(db, op) == Some(SECOND) && At(Step(db, op), [Session(5, 2, false, 3)], Some(SECOND), {7, 8})
  {
    var op := Ask5(Read, 3, 8);
    StepKeeps(db, op);
    FindIsThere(db.sessions, 0);
    PairTargets(db.pool, None);
    Connects(db.pool, Read, false, 0, 8, 1);
  }

  lemma BeginAgain(db: Db)
    requires At(db, [Session(5, 2, false, 3)], None, {7, 8})
    ensures var op := Ask5(Begin, 4, 9); Enabled(db, op) && Handed(db, op) == Some(Conn(9, 2, true))
  {
    FindIsThere(db.sessions, 0);
    PairTargets(db.pool, None);
    Connects(db.pool, Begin, true, 2, 9, 1);
  }

  /** The router with a pool to which only the primary has been added. */
  ghost predicate Alone(db: Db) {
    && Sound(db) && db.maxSessions == 1 && db.sessions == [] && db.pool.origin == map[] && db.pool.leased == map[]
    && db.pool.idle == [[]] && db.pool.total == 0 && db.pool.maxConns == 1
    && db.pool.backends == [Backend(Primary, true, 0, 0)]
  }

  lemma AddPrimary(db: Db)
    requires Sound(db) && db.maxSessions == 1 && db.sessions == [] && db.pool == NewPool(1, 1)
    ensures Enabled(db, PoolStep(Add(Primary))) && Alone(Step(db, PoolStep(Add(Primary))))
  {
    StepKeeps(db, PoolStep(Add(Primary)));
  }

  lemma AddReplica(db: Db)
    requires Alone(db)
    ensures Enabled(db, PoolStep(Add(Replica))) && At(Step(db, PoolStep(Add(Replica))), [], None, {})
  {
    StepKeeps(db, PoolStep(Add(Replica)));
  }

  /** One more step of the run from `start`. */
  lemma Onward(start: Db, ops: seq<Op>, op: Op) returns (more: seq<Op>)
    requires Sound(start) && Feasible(start, ops) && Enabled(After(start, ops), op)
    ensures more == ops + [op] && Feasible(start, more) && After(start, more) == Step(After(start, ops), op)
  {
    RunOn(start, ops, op);
    more := ops + [op];
  }

  lemma PairStart(start: Db) returns (ops: seq<Op>)
    requires Sound(start) && start.maxSessions == 1 && start.sessions == [] && start.pool == NewPool(1, 1)
    ensures Feasible(start, ops) && At(After(start, ops), [], None, {})
  {
    AddPrimary(start);
    ops := Onward(start, [], PoolStep(Add(Primary)));
    AddReplica(After(start, ops));
    ops := Onward(start, ops, PoolStep(Add(Replica)));
  }

  lemma InTransaction(start: Db) returns (ops: seq<Op>)
    requires Sound(start) && start.maxSessions == 1 && start.sessions == [] && start.pool == NewPool(1, 1)
    ensures Feasible(start, ops) && At(After(start, ops), [Session(5, 1, true, 1)], Some(FIRST), {7})
  {
    ops := PairStart(start);
    BeginStep(After(start, ops));
    ops := Onward(start, ops, Ask5(Begin, 1, 7));
  }

  /** The read that follows, once the slot is free again. */
  lemma ThenReads(start: Db, ops: seq<Op>) returns (more: seq<Op>)
    requires Sound(start) && Feasible(start, ops) && At(After(start, ops), [Session(5, 0, false, 2)], Some(FIRST), {7})
    ensures more == ops + [Back(FIRST)] + [Ask5(Read, 3, 8)] + [Back(SECOND)]
    ensures Feasible(start, more) && At(After(start, more), [Session(5, 2, false, 3)], None, {7, 8})
  {
    BackStep(After(start, ops), [Session(5, 0, false, 2)], FIRST, {7});
    more := Onward(start, ops, Back(FIRST));
    ReadStep(After(start, more));
    more := Onward(start, more, Ask5(Read, 3, 8));
    BackStep(After(start, more), [Session(5, 2, false, 3)], SECOND, {7, 8});
    more := Onward(start, more, Back(SECOND));
  }

  /** From an empty router over a pool of one slot: after some run a COMMIT that finds the pool
      exhausted, and then a read, BEGIN is handed the replica although the one primary is healthy.
      Every connection attempted in the run works. */
  lemma StrayingHappens(start: Db) returns (before: seq<Op>, commit: Op, read: Op, begin: Op)
    requires start == Db(1, [], NewPool(1, 1))
    ensures Feasible(start, before) && Enabled(After(start, before), commit)
    ensures commit.Query? && commit.info.q.End? && commit.made.Some? && Handed(After(start, before), commit).None?
    ensures read.Query? && read.info.q.Read? && Feasible(start, before + [commit] + [Back(FIRST)] + [read] + [Back(SECOND)])
    ensures var db := After(start, before + [commit] + [Back(FIRST)] + [read] + [Back(SECOND)]);
      && OnlyPrimary(db.pool.backends, 0) && db.pool.backends[0].healthy && Enabled(db, begin)
      && begin.Query? && begin.info.q.Begin? && Handed(db, begin) == Some(Conn(9, 2, true))
  {
    commit, read, begin := Ask5(End, 2, 8), Ask5(Read, 3, 8), Ask5(Begin, 4, 9);
    before := InTransaction(start);
    EndStep(After(start, before));
    var ops := Onward(start, before, commit);
    ops := ThenReads(start, ops);
    BeginAgain(After(start, ops));
  }
}
