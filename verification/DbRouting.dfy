/**
 Where every query goes, read off the session table, the backends and the idle connections.
 */
module DbRouting {
  import opened Common
  import opened DbPoolSpec
  import opened DbRouterSpec

  // ---------------------------------------------------------------- choosing

  /** The backend for a query without one of its own: a read goes to the lightest fresh replica and,
      without any, like everything else to the first healthy primary. */
  ghost predicate Chooses(bs: seq<Backend>, q: QueryType, t: Option<nat>) {
    if q.Read? && !ReplicaAt(bs, None) then t.Some? && ReplicaAt(bs, t) else PrimaryAt(bs, t)
  }

  lemma SamePrimary(bs: seq<Backend>, s: Option<nat>, t: Option<nat>)
    requires PrimaryAt(bs, s) && PrimaryAt(bs, t)
    ensures s == t
  {
    if s.Some? && t.Some? {
      assert !(s.value < t.value) && !(t.value < s.value);
    }
  }

  lemma SameReplica(bs: seq<Backend>, s: nat, t: nat)
    requires ReplicaAt(bs, Some(s)) && ReplicaAt(bs, Some(t))
    ensures s == t
  {
    assert !(s < t) && !(t < s);
  }

  lemma SelectIsChoice(bs: seq<Backend>, q: QueryType, t: Option<nat>)
    requires Chooses(bs, q, t)
    ensures Select(bs, q) == t
  {
    SamePrimary(bs, FirstPrimary(bs), if PrimaryAt(bs, t) then t else FirstPrimary(bs));
    if q.Read? && !ReplicaAt(bs, None) {
      assert BestReplica(bs).Some?;
      SameReplica(bs, BestReplica(bs).value, t.value);
    }
  }

  // ---------------------------------------------------------------- handing out

  /** The last idle connection that still works. */
  ghost predicate Reusable(conns: seq<Conn>, ok: set<nat>, j: nat) {
    j < |conns| && conns[j].id in ok && forall k :: j < k < |conns| ==> conns[k].id !in ok
  }

  /** What backend `i` hands out: that connection, or a new one where none works, while there is room
      for it and connecting succeeds. */
  ghost predicate HandsOut(p: Pool, i: nat, inTxn: bool, ok: set<nat>, made: Option<nat>, c: Option<Conn>)
    requires i < |p.idle|
  {
    && (forall j: nat :: Reusable(p.idle[i], ok, j) ==> c == Some(Conn(p.idle[i][j].id, i + 1, inTxn)))
    && ((forall j :: 0 <= j < |p.idle[i]| ==> p.idle[i][j].id !in ok) ==>
          c == if p.total < p.maxConns && made.Some? then Some(Conn(made.value, i + 1, inTxn)) else None)
  }

  /** The answer for the backend `t`, if any. */
  ghost predicate Answers(p: Pool, t: Option<nat>, inTxn: bool, ok: set<nat>, made: Option<nat>, c: Option<Conn>) {
    if t.None? then c.None? else t.value < |p.idle| && HandsOut(p, t.value, inTxn, ok, made, c)
  }

  lemma AcquireAnswers(p: Pool, q: QueryType, inTxn: bool, session: nat, ok: set<nat>, made: Option<nat>, t: Option<nat>)
    requires |p.idle| == |p.backends| && Target(p, q, session) == t
    ensures Answers(p, t, inTxn, ok, made, Acquire(p, q, inTxn, session, ok, made).1)
  {
    if t.Some? {
      var conns := p.idle[t.value];
      var n := Usable(conns, ok);
      forall j: nat | Reusable(conns, ok, j) ensures n == j + 1 {
        assert !(n < j + 1) && !(j + 1 < n);
      }
    }
  }

  // ---------------------------------------------------------------- routing

  ghost predicate NoSession(db: Db, client: nat) {
    forall i :: 0 <= i < |db.sessions| ==> db.sessions[i].id != client
  }

  /** The query opens a session where there is none. */
  predicate Opens(q: QueryType) {
    q.Begin? || q.SessionVar?
  }

  /** No place for another session: the table is full, and all of it in transactions. */
  ghost predicate NoPlace(db: Db) {
    |db.sessions| >= db.maxSessions && IsVictim(db.sessions, None)
  }

  /**
   A client that has no session and opens none is served from the chosen backend, outside any
   transaction, and leaves the session table alone.
   */
  lemma WithoutSession(db: Db, op: Op, t: Option<nat>)
    requires Sound(db) && Enabled(db, op) && op.Query? && NoSession(db, op.client)
    requires (Opens(op.info.q) ==> NoPlace(db)) && Chooses(db.pool.backends, op.info.q, t)
    ensures Step(db, op).sessions == db.sessions
    ensures Answers(db.pool, t, false, op.ok, op.made, Handed(db, op))
  {
    SelectIsChoice(db.pool.backends, op.info.q, t);
    AcquireAnswers(db.pool, op.info.q, false, 0, op.ok, op.made, t);
  }

  /** The session after the query: in a transaction from BEGIN to COMMIT or ROLLBACK, which also
      release its backend, and bound to the backend of the next connection it is handed. */
  function Renewed(s: Session, q: QueryType, now: int, c: Option<Conn>): Session {
    var bound := if q.End? then 0 else s.backend;
    Session(s.id, if bound == 0 && c.Some? then c.value.backend else bound, q.Begin? || (s.inTxn && !q.End?), now)
  }

  /** A session in a transaction, or one that asks for its own backend, stays on the one it is bound
      to; otherwise the query is free. */
  ghost predicate Follows(p: Pool, s: Session, q: QueryType, t: Option<nat>) {
    var keeps := Opens(q) || (s.inTxn && !q.End?);
    if keeps && s.backend > 0 then
      t == if s.backend <= |p.backends| && p.backends[s.backend - 1].healthy then Some(s.backend - 1) else None
    else Chooses(p.backends, q, t)
  }

  lemma AskAnswers(pool: Pool, info: Info, s: Session, q: QueryType, now: int, ok: set<nat>, made: Option<nat>, t: Option<nat>)
    requires |pool.idle| == |pool.backends| && FromParser(info) && q == info.q && Follows(pool, s, q, t)
    ensures Answers(pool, t, q.Begin? || (s.inTxn && !q.End?), ok, made, Ask(pool, info, Mark(s, q, now), ok, made).1)
  {
    var m := Mark(s, q, now);
    var session := if m.inTxn || info.sticky then m.backend else 0;
    if Target(pool, q, session) != t {
      SelectIsChoice(pool.backends, q, t);
    }
    AcquireAnswers(pool, q, m.inTxn, session, ok, made, t);
  }

  /**
   A client with a session is served from the backend its transaction is bound to, or from the
   chosen one, and its session moves on accordingly; no other session changes.
   */
  lemma WithSession(db: Db, op: Op, i: nat, t: Option<nat>)
    requires Sound(db) && Enabled(db, op) && op.Query? && i < |db.sessions| && db.sessions[i].id == op.client
    requires Follows(db.pool, db.sessions[i], op.info.q, t)
    ensures var s, c := db.sessions[i], Handed(db, op); var q := op.info.q;
      && Answers(db.pool, t, q.Begin? || (s.inTxn && !q.End?), op.ok, op.made, c)
      && Step(db, op).sessions == db.sessions[i := Renewed(s, q, op.now, c)]
  {
    FindIsThere(db.sessions, i);
    AskAnswers(db.pool, op.info, db.sessions[i], op.info.q, op.now, op.ok, op.made, t);
  }

  /**
   A client that opens a session gets a place of its own: the next one, or in a full table that of
   the least recently active session outside a transaction. It is served from the chosen backend.
   */
  lemma OpensSession(db: Db, op: Op, at: nat, t: Option<nat>)
    requires Sound(db) && Enabled(db, op) && op.Query? && NoSession(db, op.client) && Opens(op.info.q)
    requires if |db.sessions| < db.maxSessions then at == |db.sessions| else IsVictim(db.sessions, Some(at))
    requires Chooses(db.pool.backends, op.info.q, t)
    ensures var c := Handed(db, op); var q := op.info.q; var s := Session(op.client, 0, false, op.now);
      && Answers(db.pool, t, q.Begin?, op.ok, op.made, c)
      && Step(db, op).sessions ==
           if at == |db.sessions| then db.sessions + [Renewed(s, q, op.now, c)] else db.sessions[at := Renewed(s, q, op.now, c)]
  {
    var s := Session(op.client, 0, false, op.now);
    if |db.sessions| >= db.maxSessions {
      SameVictim(db.sessions, at);
    }
    AskAnswers(db.pool, op.info, s, op.info.q, op.now, op.ok, op.made, t);
    var c := Handed(db, op);
    assert (db.sessions + [s])[|db.sessions| := Renewed(s, op.info.q, op.now, c)] == db.sessions + [Renewed(s, op.info.q, op.now, c)];
  }

  lemma SameVictim(sessions: seq<Session>, at: nat)
    requires IsVictim(sessions, Some(at))
    ensures Victim(sessions) == Some(at)
  {
    var v := Victim(sessions);
    assert v.Some?;
    assert !(v.value < at) && !(at < v.value);
  }

  /** The choice, field by field: of the replicas that are up and at most 5000 ms behind, the one with
      the fewest active connections, then the least lag, then the first. */
  lemma LightestReplica(bs: seq<Backend>, t: nat, i: nat)
    requires Chooses(bs, Read, Some(t)) && i < |bs| && bs[i].role.Replica? && bs[i].healthy && bs[i].lag <= 5000
    ensures bs[t].role.Replica? && bs[t].healthy && bs[t].lag <= 5000
    ensures bs[t].active < bs[i].active ||
      (bs[t].active == bs[i].active && (bs[t].lag < bs[i].lag || (bs[t].lag == bs[i].lag && t <= i)))
  {
    assert IsReplica(bs[i]);
  }

  /** Without such a replica, and for everything but reads, the first primary that is up. */
  lemma FirstHealthyPrimary(bs: seq<Backend>, q: QueryType, t: Option<nat>)
    requires Chooses(bs, q, t)
    requires !q.Read? || forall i :: 0 <= i < |bs| ==> !(bs[i].role.Replica? && bs[i].healthy && bs[i].lag <= 5000)
    ensures t.Some? ==> bs[t.value].role.Primary? && bs[t.value].healthy
    ensures forall i :: 0 <= i < (if t.Some? then t.value else |bs|) ==> !(bs[i].role.Primary? && bs[i].healthy)
  {
    if q.Read? {
      assert ReplicaAt(bs, None);
    }
    forall i | 0 <= i < (if t.Some? then t.value else |bs|) ensures !(bs[i].role.Primary? && bs[i].healthy) {
      assert !IsPrimary(bs[i]);
    }
  }
}
