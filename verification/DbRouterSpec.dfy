/**
 The session table and transaction pinning of src/database/db_router.c over the pool of
 `DbPoolSpec`. A query arrives already classified; time, validation results and new connections
 are parameters.
 */
module DbRouterSpec {
  import opened Common
  import opened DbPoolSpec

  /** Backend 0 means that the session is not bound yet. */
  datatype Session = Session(id: nat, backend: nat, inTxn: bool, last: int)

  datatype Db = Db(maxSessions: nat, sessions: seq<Session>, pool: Pool)

  /** What the protocol parsers say of a query. */
  datatype Info = Info(q: QueryType, sticky: bool)

  predicate FromParser(info: Info) {
    info.sticky <==> info.q.Begin? || info.q.SessionVar?
  }

  // ---------------------------------------------------------------- session table

  function Find(sessions: seq<Session>, id: nat): (r: Option<nat>)
    ensures r.Some? ==> r.value < |sessions| && sessions[r.value].id == id
    ensures r.Some? ==> forall i :: 0 <= i < r.value ==> sessions[i].id != id
    ensures r.None? ==> forall i :: 0 <= i < |sessions| ==> sessions[i].id != id
  {
    if sessions == [] then None
    else if sessions[0].id == id then Some(0)
    else
      var r := Find(sessions[1..], id);
      assert forall i :: 0 < i < |sessions| ==> sessions[i] == sessions[1..][i - 1];
      if r.None? then None else Some(r.value + 1)
  }

  /** The least recently active session outside a transaction; the first of equals. */
  ghost predicate IsVictim(sessions: seq<Session>, r: Option<nat>) {
    if r.None? then forall i :: 0 <= i < |sessions| ==> sessions[i].inTxn
    else
      && r.value < |sessions| && !sessions[r.value].inTxn
      && (forall i :: 0 <= i < |sessions| && !sessions[i].inTxn ==> sessions[r.value].last <= sessions[i].last)
      && (forall i :: 0 <= i < r.value && !sessions[i].inTxn ==> sessions[r.value].last < sessions[i].last)
  }

  function Victim(sessions: seq<Session>): (r: Option<nat>)
    ensures IsVictim(sessions, r)
  {
    if sessions == [] then None
    else
      var n := |sessions| - 1;
      var r := Victim(sessions[..n]);
      assert forall i :: 0 <= i < n ==> sessions[i] == sessions[..n][i];
      if !sessions[n].inTxn && (r.None? || sessions[n].last < sessions[r.value].last) then Some(n) else r
  }

  /** The table with a session for `id`, and where it is; none if every session is in a transaction. */
  function AddSession(max: nat, sessions: seq<Session>, id: nat, now: int): (r: (seq<Session>, Option<nat>))
    ensures r.1.Some? ==> r.1.value < |r.0| && r.0[r.1.value] == Session(id, 0, false, now)
  {
    var s := Session(id, 0, false, now);
    if |sessions| < max then (sessions + [s], Some(|sessions|))
    else
      var v := Victim(sessions);
      if v.None? then (sessions, None) else (sessions[v.value := s], v)
  }

  function Cut(s: seq<Session>, i: nat): seq<Session>
    requires i < |s|
  {
    s[..i] + s[i + 1..]
  }

  function Removed(sessions: seq<Session>, id: nat): seq<Session> {
    var i := Find(sessions, id);
    if i.None? then sessions else Cut(sessions, i.value)
  }

  // ---------------------------------------------------------------- routing

  /** The session table after the lookup, and the client's place in it. */
  function Enter(db: Db, info: Info, client: nat, now: int): (r: (seq<Session>, Option<nat>))
    ensures r.1.Some? ==> r.1.value < |r.0| && r.0[r.1.value].id == client
  {
    var i := Find(db.sessions, client);
    if i.None? && (info.sticky || info.q.Begin?) then AddSession(db.maxSessions, db.sessions, client, now)
    else (db.sessions, i)
  }

  /** BEGIN opens the transaction; COMMIT and ROLLBACK close it and unbind the session. */
  function Mark(s: Session, q: QueryType, now: int): Session {
    if q.Begin? then s.(inTxn := true, last := now)
    else if q.End? then s.(inTxn := false, backend := 0, last := now)
    else s.(last := now)
  }

  function Bind(s: Session, c: Option<Conn>): Session {
    if c.Some? && s.backend == 0 then s.(backend := c.value.backend) else s
  }

  /** The pool request of a marked session: bound and in a transaction, or free. */
  function Ask(pool: Pool, info: Info, s: Session, ok: set<nat>, made: Option<nat>): (Pool, Option<Conn>)
    requires |pool.idle| == |pool.backends|
  {
    if s.inTxn || info.sticky then Acquire(pool, info.q, s.inTxn, s.backend, ok, made)
    else Acquire(pool, info.q, false, 0, ok, made)
  }

  function Route(db: Db, info: Info, client: nat, now: int, ok: set<nat>, made: Option<nat>): (Db, Option<Conn>)
    requires |db.pool.idle| == |db.pool.backends|
  {
    var (sessions, i) := Enter(db, info, client, now);
    if i.None? then
      var (pool, c) := Acquire(db.pool, info.q, false, 0, ok, made);
      (db.(sessions := sessions, pool := pool), c)
    else
      var s := Mark(sessions[i.value], info.q, now);
      var (pool, c) := Ask(db.pool, info, s, ok, made);
      (db.(sessions := sessions[i.value := Bind(s, c)], pool := pool), c)
  }

  // ---------------------------------------------------------------- runs

  datatype Op =
    | Query(client: nat, info: Info, now: int, ok: set<nat>, made: Option<nat>)
    | EndSession(client: nat)
    | PoolStep(op: PoolOp)

  ghost predicate Enabled(db: Db, op: Op) {
    match op
    case Query(_, info, _, _, made) => FromParser(info) && NewId(db.pool, made)
    case EndSession(_) => true
    case PoolStep(o) => Allowed(db.pool, o)
  }

  ghost predicate UniqueIds(sessions: seq<Session>) {
    forall i, j :: 0 <= i < j < |sessions| ==> sessions[i].id != sessions[j].id
  }

  ghost predicate Sound(db: Db) {
    Ledger(db.pool) && UniqueIds(db.sessions) && |db.sessions| <= db.maxSessions
  }

  ghost function Step(db: Db, op: Op): Db
    requires Sound(db) && Enabled(db, op)
  {
    match op
    case Query(client, info, now, ok, made) => Route(db, info, client, now, ok, made).0
    case EndSession(client) => db.(sessions := Removed(db.sessions, client))
    case PoolStep(o) => db.(pool := Do(db.pool, o))
  }

  /** The connection a step hands to its client. */
  ghost function Handed(db: Db, op: Op): Option<Conn>
    requires Sound(db) && Enabled(db, op)
  {
    if op.Query? then Route(db, op.info, op.client, op.now, op.ok, op.made).1 else None
  }

  // ---------------------------------------------------------------- the table in every run

  lemma CreateKeepsUnique(max: nat, sessions: seq<Session>, id: nat, now: int)
    requires UniqueIds(sessions) && |sessions| <= max && Find(sessions, id).None?
    ensures UniqueIds(AddSession(max, sessions, id, now).0) && |AddSession(max, sessions, id, now).0| <= max
  {
  }

  lemma EnterKeeps(db: Db, info: Info, client: nat, now: int)
    requires Sound(db)
    ensures UniqueIds(Enter(db, info, client, now).0) && |Enter(db, info, client, now).0| <= db.maxSessions
  {
    if Find(db.sessions, client).None? {
      CreateKeepsUnique(db.maxSessions, db.sessions, client, now);
    }
  }

  lemma EndKeepsUnique(sessions: seq<Session>, id: nat)
    requires UniqueIds(sessions)
    ensures UniqueIds(Removed(sessions, id)) && |Removed(sessions, id)| <= |sessions|
  {
    var i := Find(sessions, id);
    var r := Removed(sessions, id);
    if i.Some? {
      assert forall j :: 0 <= j < |r| ==> r[j] == sessions[if j < i.value then j else j + 1];
    }
  }

  lemma QueryKeeps(db: Db, op: Op)
    requires Sound(db) && Enabled(db, op) && op.Query?
    ensures Sound(Step(db, op))
  {
    EnterKeeps(db, op.info, op.client, op.now);
    QueryKeepsLedger(db, op);
  }

  lemma StepKeeps(db: Db, op: Op)
    requires Sound(db) && Enabled(db, op)
    ensures Sound(Step(db, op))
  {
    match op
    case Query(client, info, now, ok, made) => QueryKeeps(db, op);
    case EndSession(client) => EndKeepsUnique(db.sessions, client);
    case PoolStep(o) => DoKeeps(db.pool, o);
  }

  lemma QueryKeepsLedger(db: Db, op: Op)
    requires Sound(db) && Enabled(db, op) && op.Query?
    ensures Ledger(Step(db, op).pool)
  {
    var (sessions, i) := Enter(db, op.info, op.client, op.now);
    AcquireKeeps(db.pool, op.info.q, false, 0, op.ok, op.made);
    if i.Some? {
      var s := Mark(sessions[i.value], op.info.q, op.now);
      AcquireKeeps(db.pool, op.info.q, s.inTxn, s.backend, op.ok, op.made);
    }
  }

  /** Creating a session evicts nothing in a transaction, and when it evicts, the least recently
      active of the others; every other session keeps its place. */
  lemma CreateEvicts(max: nat, sessions: seq<Session>, id: nat, now: int, k: nat)
    requires k < |sessions|
    ensures var (after, at) := AddSession(max, sessions, id, now);
      && k < |after|
      && (after[k] != sessions[k] ==> at == Some(k) && |sessions| >= max && IsVictim(sessions, at))
      && (sessions[k].inTxn ==> after[k] == sessions[k])
      && (at.None? <==> |sessions| >= max && forall i :: 0 <= i < |sessions| ==> sessions[i].inTxn)
  {
  }

  /** The sessions of all other clients, in order. */
  function Others(sessions: seq<Session>, id: nat): seq<Session> {
    if sessions == [] then [] else (if sessions[0].id == id then [] else [sessions[0]]) + Others(sessions[1..], id)
  }

  lemma {:induction false} OthersUntouched(sessions: seq<Session>, id: nat)
    requires forall i :: 0 <= i < |sessions| ==> sessions[i].id != id
    ensures Others(sessions, id) == sessions
  {
    if sessions != [] {
      OthersUntouched(sessions[1..], id);
    }
  }

  /** Ending a session removes exactly that one and keeps the others in order. */
  lemma {:induction false} EndKeepsOthers(sessions: seq<Session>, id: nat)
    requires UniqueIds(sessions)
    ensures Removed(sessions, id) == Others(sessions, id)
  {
    if sessions != [] {
      var rest := sessions[1..];
      if sessions[0].id == id {
        OthersUntouched(rest, id);
      } else {
        EndKeepsOthers(rest, id);
        RemovedLater(sessions, id);
      }
    }
  }

  lemma FindLater(sessions: seq<Session>, id: nat)
    requires sessions != [] && sessions[0].id != id
    ensures var i := Find(sessions[1..], id); Find(sessions, id) == if i.None? then None else Some(i.value + 1)
  {
  }

  lemma CutLater(s: seq<Session>, i: nat)
    requires i + 1 < |s|
    ensures Cut(s, i + 1) == [s[0]] + Cut(s[1..], i)
  {
  }

  lemma RemovedLater(sessions: seq<Session>, id: nat)
    requires sessions != [] && sessions[0].id != id
    ensures Removed(sessions, id) == [sessions[0]] + Removed(sessions[1..], id)
  {
    FindLater(sessions, id);
    var i := Find(sessions[1..], id);
    if i.Some? {
      CutLater(sessions, i.value);
    } else {
      assert sessions == [sessions[0]] + sessions[1..];
    }
  }

  // ---------------------------------------------------------------- transaction pinning

  /** The client is inside a transaction bound to backend `b`. */
  ghost predicate Pinned(db: Db, client: nat, b: nat) {
    b > 0 && exists i :: 0 <= i < |db.sessions| && db.sessions[i].id == client && db.sessions[i].inTxn && db.sessions[i].backend == b
  }

  /** The step ends the client's transaction or session. */
  predicate EndsFor(op: Op, client: nat) {
    (op.Query? && op.client == client && op.info.q.End?) || (op.EndSession? && op.client == client)
  }

  lemma FindIsThere(sessions: seq<Session>, i: nat)
    requires UniqueIds(sessions) && i < |sessions|
    ensures Find(sessions, sessions[i].id) == Some(i)
  {
  }

  /** A query of the pinned client goes to its backend, or fails, and leaves it pinned. */
  lemma OwnQueryStays(db: Db, op: Op, client: nat, b: nat)
    requires Sound(db) && Enabled(db, op) && Pinned(db, client, b)
    requires op.Query? && op.client == client && !op.info.q.End?
    ensures Pinned(Step(db, op), client, b)
    ensures Handed(db, op).Some? ==> Handed(db, op).value.backend == b && Handed(db, op).value.inTxn
  {
    var i :| 0 <= i < |db.sessions| && db.sessions[i].id == client && db.sessions[i].inTxn && db.sessions[i].backend == b;
    FindIsThere(db.sessions, i);
    var s := Mark(db.sessions[i], op.info.q, op.now);
    assert s.backend == b && s.inTxn;
    var c := Ask(db.pool, op.info, s, op.ok, op.made).1;
    assert Step(db, op).sessions[i] == Bind(s, c);
  }

  /** A query leaves the sessions of other clients alone if they are in a transaction. */
  lemma OtherQuerySpares(db: Db, op: Op, i: nat)
    requires Sound(db) && Enabled(db, op) && op.Query?
    requires i < |db.sessions| && db.sessions[i].inTxn && db.sessions[i].id != op.client
    ensures i < |Step(db, op).sessions| && Step(db, op).sessions[i] == db.sessions[i]
  {
    if Find(db.sessions, op.client).None? {
      CreateEvicts(db.maxSessions, db.sessions, op.client, op.now, i);
    }
  }

  /** Nothing another client does, no eviction and no pool event unpins a client. */
  lemma OthersDoNotUnpin(db: Db, op: Op, client: nat, b: nat)
    requires Sound(db) && Enabled(db, op) && Pinned(db, client, b)
    requires !EndsFor(op, client) && !(op.Query? && op.client == client)
    ensures Pinned(Step(db, op), client, b)
  {
    var i :| 0 <= i < |db.sessions| && db.sessions[i].id == client && db.sessions[i].inTxn && db.sessions[i].backend == b;
    var after := Step(db, op).sessions;
    if op.Query? {
      OtherQuerySpares(db, op, i);
    } else if op.EndSession? && Find(db.sessions, op.client).Some? {
      var f := Find(db.sessions, op.client).value;
      assert after[if i < f then i else i - 1] == db.sessions[i];
    } else {
      assert after[i] == db.sessions[i];
    }
  }

  /** A connection handed out inside a transaction pins the client: backend ids start at 1. */
  lemma HandingOutPins(db: Db, op: Op)
    requires Sound(db) && Enabled(db, op) && op.Query? && Handed(db, op).Some?
    requires var i := Find(Step(db, op).sessions, op.client); i.Some? && Step(db, op).sessions[i.value].inTxn
    ensures Pinned(Step(db, op), op.client, Handed(db, op).value.backend)
  {
    StepKeeps(db, op);
    var (sessions, at) := Enter(db, op.info, op.client, op.now);
    var after := Step(db, op).sessions;
    var i := Find(after, op.client).value;
    if at.Some? {
      EnterKeeps(db, op.info, op.client, op.now);
      assert after[at.value].id == op.client;
      FindIsThere(after, at.value);
      assert i == at.value;
    }
  }

  /** Every connection handed to `client` by these steps belongs to backend `b`. */
  ghost predicate AllFrom(db: Db, ops: seq<Op>, client: nat, b: nat)
    requires Sound(db)
    decreases |ops|
  {
    ops == [] || !Enabled(db, ops[0]) ||
    (&& (ops[0].Query? && ops[0].client == client && Handed(db, ops[0]).Some? ==> Handed(db, ops[0]).value.backend == b)
     && (StepKeeps(db, ops[0]); AllFrom(Step(db, ops[0]), ops[1..], client, b)))
  }

  /** Transaction pinning: once a connection was handed out inside a transaction, whatever other
      clients, evictions and health changes do, every connection handed to that client until its
      transaction ends has the same backend. */
  lemma {:induction false} PinnedRun(db: Db, ops: seq<Op>, client: nat, b: nat)
    requires Sound(db) && Pinned(db, client, b)
    requires forall i :: 0 <= i < |ops| ==> !EndsFor(ops[i], client)
    ensures AllFrom(db, ops, client, b)
    decreases |ops|
  {
    if ops != [] && Enabled(db, ops[0]) {
      StepKeeps(db, ops[0]);
      if ops[0].Query? && ops[0].client == client {
        OwnQueryStays(db, ops[0], client, b);
      } else {
        OthersDoNotUnpin(db, ops[0], client, b);
      }
      PinnedRun(Step(db, ops[0]), ops[1..], client, b);
    }
  }

  lemma TransactionPinning(db: Db, op: Op, ops: seq<Op>)
    requires Sound(db) && Enabled(db, op) && op.Query? && Handed(db, op).Some?
    requires var i := Find(Step(db, op).sessions, op.client); i.Some? && Step(db, op).sessions[i.value].inTxn
    requires forall i :: 0 <= i < |ops| ==> !EndsFor(ops[i], op.client)
    ensures Sound(Step(db, op)) && AllFrom(Step(db, op), ops, op.client, Handed(db, op).value.backend)
  {
    StepKeeps(db, op);
    HandingOutPins(db, op);
    PinnedRun(Step(db, op), ops, op.client, Handed(db, op).value.backend);
  }

  // ---------------------------------------------------------------- a single primary

  /** Backend `m` is the only primary, healthy or not. */
  ghost predicate OnlyPrimary(bs: seq<Backend>, m: nat) {
    m < |bs| && forall i :: 0 <= i < |bs| ==> (bs[i].role.Primary? <==> i == m)
  }

  ghost predicate AllBound(db: Db, m: nat) {
    forall i :: 0 <= i < |db.sessions| ==> db.sessions[i].backend == m + 1
  }

  /** The query starts from an unbound session: it ends a transaction or opens a session. */
  ghost predicate Unbinds(db: Db, op: Op) {
    op.Query? &&
    if Find(db.sessions, op.client).Some? then op.info.q.End?
    else op.info.sticky && (|db.sessions| < db.maxSessions || exists i :: 0 <= i < |db.sessions| && !db.sessions[i].inTxn)
  }

  lemma PrimaryTarget(p: Pool, q: QueryType, session: nat, m: nat)
    requires OnlyPrimary(p.backends, m) && (session == m + 1 || (session == 0 && !q.Read?))
    ensures Target(p, q, session) == if p.backends[m].healthy then Some(m) else None
  {
  }

  /** The primary is up, and has a usable idle connection or room for a new one that connects. */
  predicate PrimaryServes(p: Pool, m: nat, ok: set<nat>, made: Option<nat>)
    requires m < |p.backends| == |p.idle|
  {
    p.backends[m].healthy && Serves(p, m, ok, made)
  }

  lemma UnbindsExactly(db: Db, op: Op, m: nat)
    requires Sound(db) && Enabled(db, op) && op.Query? && AllBound(db, m)
    ensures var (sessions, at) := Enter(db, op.info, op.client, op.now);
      && (forall k :: 0 <= k < |sessions| && at != Some(k) ==> sessions[k].backend == m + 1)
      && (at.Some? ==> (Unbinds(db, op) <==> Mark(sessions[at.value], op.info.q, op.now).backend == 0))
      && (at.Some? && !Unbinds(db, op) ==> Mark(sessions[at.value], op.info.q, op.now).backend == m + 1)
      && (at.None? ==> !Unbinds(db, op))
  {
  }

  /** BEGIN, COMMIT, ROLLBACK, SET or anything inside a transaction, from a client that holds or is
      given a session. */
  ghost predicate Transactional(db: Db, op: Op) {
    && op.Query? && Enter(db, op.info, op.client, op.now).1.Some?
    && (op.info.q.Begin? || op.info.q.End? || op.info.sticky
        || (Find(db.sessions, op.client).Some? && db.sessions[Find(db.sessions, op.client).value].inTxn))
  }

  /** With one primary and all sessions bound to it, such a query is handed nothing but the primary. */
  lemma PrimaryOnly(db: Db, op: Op, m: nat)
    requires Sound(db) && Enabled(db, op) && AllBound(db, m) && OnlyPrimary(db.pool.backends, m)
    requires Transactional(db, op) && Handed(db, op).Some?
    ensures Handed(db, op).value.backend == m + 1
  {
    UnbindsExactly(db, op, m);
    var (sessions, at) := Enter(db, op.info, op.client, op.now);
    var s := Mark(sessions[at.value], op.info.q, op.now);
    PrimaryTarget(db.pool, op.info.q, if s.inTxn || op.info.sticky then s.backend else 0, m);
  }

  /** For a session it unbinds or opens, a query is handed a connection exactly when the primary
      can serve it. */
  lemma HandedExactly(db: Db, op: Op, m: nat)
    requires Sound(db) && Enabled(db, op) && AllBound(db, m) && OnlyPrimary(db.pool.backends, m) && Unbinds(db, op)
    ensures Handed(db, op).Some? <==> PrimaryServes(db.pool, m, op.ok, op.made)
  {
    UnbindsExactly(db, op, m);
    var (sessions, at) := Enter(db, op.info, op.client, op.now);
    var s := Mark(sessions[at.value], op.info.q, op.now);
    PrimaryTarget(db.pool, op.info.q, 0, m);
    AcquireExactly(db.pool, op.info.q, s.inTxn, 0, op.ok, op.made);
    AcquireExactly(db.pool, op.info.q, false, 0, op.ok, op.made);
  }

  /** A step keeps every session bound to the primary if and only if the primary can serve it, where
      it unbinds or opens a session. */
  lemma BoundExactly(db: Db, op: Op, m: nat)
    requires Sound(db) && Enabled(db, op) && AllBound(db, m) && OnlyPrimary(db.pool.backends, m)
    ensures AllBound(Step(db, op), m) <==> (Unbinds(db, op) ==> PrimaryServes(db.pool, m, op.ok, op.made))
  {
    if op.Query? {
      UnbindsExactly(db, op, m);
      var (sessions, at) := Enter(db, op.info, op.client, op.now);
      var after := Step(db, op).sessions;
      if at.Some? {
        var s := Mark(sessions[at.value], op.info.q, op.now);
        var c := Ask(db.pool, op.info, s, op.ok, op.made).1;
        assert after[at.value] == Bind(s, c);
        if Unbinds(db, op) {
          HandedExactly(db, op, m);
          if c.Some? {
            PrimaryOnly(db, op, m);
          }
        }
      }
    }
  }

  ghost predicate SameRoles(bs: seq<Backend>, bs': seq<Backend>) {
    |bs'| == |bs| && forall i :: 0 <= i < |bs| ==> bs'[i].role == bs[i].role
  }

  lemma AcquireSameRoles(p: Pool, q: QueryType, inTxn: bool, session: nat, ok: set<nat>, made: Option<nat>)
    requires |p.idle| == |p.backends|
    ensures SameRoles(p.backends, Acquire(p, q, inTxn, session, ok, made).0.backends)
  {
  }

  lemma PoolKeepsPrimary(p: Pool, op: PoolOp, m: nat)
    requires Ledger(p) && Allowed(p, op) && OnlyPrimary(p.backends, m) && !(op.Add? && op.role.Primary?)
    ensures OnlyPrimary(Do(p, op).backends, m)
  {
    if op.Clean? {
      CleanSameBackends(p, |p.idle|, op.ok);
    } else if op.Take? {
      AcquireSameRoles(p, op.q, op.inTxn, op.session, op.ok, op.made);
    } else if !op.Add? {
      assert SameRoles(p.backends, Do(p, op).backends);
    }
  }

  lemma PrimaryStays(db: Db, op: Op, m: nat)
    requires Sound(db) && Enabled(db, op) && OnlyPrimary(db.pool.backends, m)
    requires !(op.PoolStep? && op.op.Add? && op.op.role.Primary?)
    ensures OnlyPrimary(Step(db, op).pool.backends, m)
  {
    if op.PoolStep? {
      PoolKeepsPrimary(db.pool, op.op, m);
    } else if op.Query? {
      var (sessions, at) := Enter(db, op.info, op.client, op.now);
      AcquireSameRoles(db.pool, op.info.q, false, 0, op.ok, op.made);
      if at.Some? {
        var s := Mark(sessions[at.value], op.info.q, op.now);
        AcquireSameRoles(db.pool, op.info.q, s.inTxn, s.backend, op.ok, op.made);
      }
    }
  }

  lemma {:induction false} CleanSameBackends(p: Pool, n: nat, ok: set<nat>)
    requires n <= |p.idle|
    ensures CleanUpTo(p, n, ok).backends == p.backends
  {
    if n > 0 { CleanSameBackends(p, n - 1, ok); }
  }

  /** Every operation of the run meets what the pool is owed. */
  ghost predicate Feasible(db: Db, ops: seq<Op>)
    requires Sound(db)
    decreases |ops|
  {
    ops == [] ||
    (Enabled(db, ops[0]) && (StepKeeps(db, ops[0]); Feasible(Step(db, ops[0]), ops[1..])))
  }

  ghost function After(db: Db, ops: seq<Op>): (r: Db)
    requires Sound(db) && Feasible(db, ops)
    ensures Sound(r)
    decreases |ops|
  {
    if ops == [] then db else (StepKeeps(db, ops[0]); After(Step(db, ops[0]), ops[1..]))
  }

  ghost predicate AddsPrimary(op: Op) {
    op.PoolStep? && op.op.Add? && op.op.role.Primary?
  }

  /** Whenever the run unbinds or opens a session the primary can serve it. */
  ghost predicate Served(db: Db, ops: seq<Op>, m: nat)
    requires Sound(db) && Feasible(db, ops)
    decreases |ops|
  {
    ops == [] ||
    (&& (Unbinds(db, ops[0]) ==> m < |db.pool.backends| && PrimaryServes(db.pool, m, ops[0].ok, ops[0].made))
     && (StepKeeps(db, ops[0]); Served(Step(db, ops[0]), ops[1..], m)))
  }

  /** All sessions are bound to the primary at every point of the run. */
  ghost predicate StaysBound(db: Db, ops: seq<Op>, m: nat)
    requires Sound(db) && Feasible(db, ops)
    decreases |ops|
  {
    AllBound(db, m) &&
    (ops == [] || (StepKeeps(db, ops[0]); StaysBound(Step(db, ops[0]), ops[1..], m)))
  }

  /** Single-primary transactions: in every run that adds no other primary, all sessions stay bound
      to the primary if and only if the primary can serve whenever a session is unbound or opened. */
  lemma {:induction false} SinglePrimary(db: Db, ops: seq<Op>, m: nat)
    requires Sound(db) && Feasible(db, ops) && AllBound(db, m) && OnlyPrimary(db.pool.backends, m)
    requires forall i :: 0 <= i < |ops| ==> !AddsPrimary(ops[i])
    ensures StaysBound(db, ops, m) <==> Served(db, ops, m)
    decreases |ops|
  {
    if ops != [] {
      StepKeeps(db, ops[0]);
      BoundExactly(db, ops[0], m);
      PrimaryStays(db, ops[0], m);
      if AllBound(Step(db, ops[0]), m) {
        SinglePrimary(Step(db, ops[0]), ops[1..], m);
      }
    }
  }

  /** Every connection the run hands to such a query is the primary's. */
  ghost predicate AllOnPrimary(db: Db, ops: seq<Op>, m: nat)
    requires Sound(db) && Feasible(db, ops)
    decreases |ops|
  {
    ops == [] ||
    (&& (Transactional(db, ops[0]) && Handed(db, ops[0]).Some? ==> Handed(db, ops[0]).value.backend == m + 1)
     && (StepKeeps(db, ops[0]); AllOnPrimary(Step(db, ops[0]), ops[1..], m)))
  }

  /** In every run with one primary that can serve whenever a session is unbound or opened, all
      statements of all transactions go to the primary. */
  lemma {:induction false} TransactionsOnPrimary(db: Db, ops: seq<Op>, m: nat)
    requires Sound(db) && Feasible(db, ops) && AllBound(db, m) && OnlyPrimary(db.pool.backends, m)
    requires (forall i :: 0 <= i < |ops| ==> !AddsPrimary(ops[i])) && Served(db, ops, m)
    ensures AllOnPrimary(db, ops, m)
    decreases |ops|
  {
    if ops != [] {
      StepKeeps(db, ops[0]);
      BoundExactly(db, ops[0], m);
      PrimaryStays(db, ops[0], m);
      if Transactional(db, ops[0]) && Handed(db, ops[0]).Some? {
        PrimaryOnly(db, ops[0], m);
      }
      TransactionsOnPrimary(Step(db, ops[0]), ops[1..], m);
    }
  }

  /** In every run from the empty router: session ids are unique, their number is within the limit,
      and the pool's books balance. */
  lemma SessionTable(maxSessions: nat, maxConns: nat, maxIdle: nat, ops: seq<Op>)
    requires Feasible(Db(maxSessions, [], NewPool(maxConns, maxIdle)), ops)
    ensures var db := After(Db(maxSessions, [], NewPool(maxConns, maxIdle)), ops);
      UniqueIds(db.sessions) && |db.sessions| <= maxSessions && Ledger(db.pool)
  {
    SameMax(Db(maxSessions, [], NewPool(maxConns, maxIdle)), ops);
  }

  lemma {:induction false} SameMax(db: Db, ops: seq<Op>)
    requires Sound(db) && Feasible(db, ops)
    ensures After(db, ops).maxSessions == db.maxSessions
    decreases |ops|
  {
    if ops != [] {
      StepKeeps(db, ops[0]);
      SameMax(Step(db, ops[0]), ops[1..]);
    }
  }

  /** What a failed acquire costs: the session it leaves unbound takes the backend of the next read,
      and if that is a replica, the next transaction of the client starts there. */
  lemma UnboundSessionStrays(db: Db, i: nat, read: Op, begin: Op)
    requires Sound(db) && i < |db.sessions| && db.sessions[i].backend == 0 && !db.sessions[i].inTxn
    requires read.Query? && begin.Query? && read.client == begin.client == db.sessions[i].id
    requires read.info == Info(Read, false) && begin.info == Info(Begin, true)
    requires Enabled(db, read) && BestReplica(db.pool.backends).Some? && Handed(db, read).Some?
    requires Sound(Step(db, read)) && Enabled(Step(db, read), begin) && Handed(Step(db, read), begin).Some?
    ensures Handed(Step(db, read), begin).value.backend == BestReplica(db.pool.backends).value + 1
  {
    FindIsThere(db.sessions, i);
    var mid := Step(db, read);
    assert mid.sessions[i].backend == BestReplica(db.pool.backends).value + 1;
    FindIsThere(mid.sessions, i);
  }

  /** A run can be continued by any operation that is enabled at its end. */
  lemma {:induction false} RunOn(db: Db, ops: seq<Op>, op: Op)
    requires Sound(db) && Feasible(db, ops) && Enabled(After(db, ops), op)
    ensures Feasible(db, ops + [op]) && After(db, ops + [op]) == Step(After(db, ops), op)
    decreases |ops|
  {
    var all := ops + [op];
    if ops == [] {
      assert all[1..] == [];
      StepKeeps(db, op);
    } else {
      assert all[1..] == ops[1..] + [op];
      StepKeeps(db, ops[0]);
      RunOn(Step(db, ops[0]), ops[1..], op);
    }
  }
}
