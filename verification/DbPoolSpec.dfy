/**
 The database connection pool of src/database/db_pool.cpp as a value. Backend ids are given out
 from 1 upwards in the order of `backends`, so the backend with id `i + 1` is `backends[i]` and its
 idle connections are `idle[i]`; id 0 never names a backend.
 */
module DbPoolSpec {
  import opened Common

  datatype QueryType = Unknown | Read | Write | Begin | End | SessionVar

  datatype Role = Primary | Replica | Down

  datatype Backend = Backend(role: Role, healthy: bool, lag: nat, active: int)

  /** `id` tells connections apart, as the descriptor does. */
  datatype Conn = Conn(id: nat, backend: nat, inTxn: bool)

  /** `leased`, `origin` and `dropped` are history: the connections handed out and their backend,
      the backend of every connection ever made, and how many were discarded inside `Acquire`. */
  datatype Pool = Pool(maxConns: nat, maxIdle: nat, backends: seq<Backend>, idle: seq<seq<Conn>>,
                       total: int, created: int, closed: int, acquired: int, released: int,
                       leased: map<nat, nat>, origin: map<nat, nat>, dropped: nat)

  function NewPool(maxConns: nat, maxIdle: nat): (p: Pool)
    ensures Ledger(p)
  {
    Pool(maxConns, maxIdle, [], [], 0, 0, 0, 0, 0, map[], map[], 0)
  }

  // ---------------------------------------------------------------- choosing a backend

  const MAX_LAG: nat := 5000

  predicate IsPrimary(b: Backend) {
    b.role.Primary? && b.healthy
  }

  predicate IsReplica(b: Backend) {
    b.role.Replica? && b.healthy && b.lag <= MAX_LAG
  }

  /** Fewer active connections first, then less lag. */
  predicate Lighter(a: Backend, b: Backend) {
    a.active < b.active || (a.active == b.active && a.lag < b.lag)
  }

  /** The first healthy primary. */
  ghost predicate PrimaryAt(bs: seq<Backend>, r: Option<nat>) {
    if r.None? then forall i :: 0 <= i < |bs| ==> !IsPrimary(bs[i])
    else r.value < |bs| && IsPrimary(bs[r.value]) && forall i :: 0 <= i < r.value ==> !IsPrimary(bs[i])
  }

  /** The first of the lightest fresh replicas. */
  ghost predicate ReplicaAt(bs: seq<Backend>, r: Option<nat>) {
    if r.None? then forall i :: 0 <= i < |bs| ==> !IsReplica(bs[i])
    else
      && r.value < |bs| && IsReplica(bs[r.value])
      && (forall i :: 0 <= i < |bs| && IsReplica(bs[i]) ==> !Lighter(bs[i], bs[r.value]))
      && (forall i :: 0 <= i < r.value && IsReplica(bs[i]) ==> Lighter(bs[r.value], bs[i]))
  }

  function FirstPrimary(bs: seq<Backend>): (r: Option<nat>)
    ensures PrimaryAt(bs, r)
  {
    if bs == [] then None
    else if IsPrimary(bs[0]) then Some(0)
    else
      var rest := FirstPrimary(bs[1..]);
      assert forall i :: 0 < i < |bs| ==> bs[i] == bs[1..][i - 1];
      if rest.None? then None else Some(rest.value + 1)
  }

  function BestReplica(bs: seq<Backend>): (r: Option<nat>)
    ensures ReplicaAt(bs, r)
  {
    if bs == [] then None
    else
      var n := |bs| - 1;
      var best := BestReplica(bs[..n]);
      assert forall i :: 0 <= i < n ==> bs[i] == bs[..n][i];
      if IsReplica(bs[n]) && (best.None? || Lighter(bs[n], bs[best.value])) then Some(n) else best
  }

  function Select(bs: seq<Backend>, q: QueryType): (r: Option<nat>)
    ensures r.Some? ==> r.value < |bs| && bs[r.value].healthy
    ensures r.None? ==> forall i :: 0 <= i < |bs| ==> !IsPrimary(bs[i]) && (q.Read? ==> !IsReplica(bs[i]))
  {
    if q.Read? && BestReplica(bs).Some? then BestReplica(bs) else FirstPrimary(bs)
  }

  /** The backend a session is bound to, or the selected one; 0 means no session backend. */
  function Target(p: Pool, q: QueryType, session: nat): (r: Option<nat>)
    ensures r.Some? ==> r.value < |p.backends| && p.backends[r.value].healthy
    ensures session == 0 ==> r == Select(p.backends, q)
    ensures session > 0 ==>
      if r.Some? then r.value == session - 1 else session > |p.backends| || !p.backends[session - 1].healthy
  {
    if session == 0 then Select(p.backends, q)
    else if session <= |p.backends| && p.backends[session - 1].healthy then Some(session - 1)
    else None
  }

  // ---------------------------------------------------------------- operations

  function AddBackend(p: Pool, role: Role): Pool {
    p.(backends := p.backends + [Backend(role, true, 0, 0)], idle := p.idle + [[]])
  }

  function Report(p: Pool, i: nat, healthy: bool, lag: nat): Pool {
    if i < |p.backends| then p.(backends := p.backends[i := p.backends[i].(healthy := healthy, lag := lag)]) else p
  }

  /** How many connections remain after popping unusable ones from the back. */
  function Usable(conns: seq<Conn>, ok: set<nat>): (n: nat)
    ensures n <= |conns|
    ensures n > 0 ==> conns[n - 1].id in ok
    ensures forall i :: n <= i < |conns| ==> conns[i].id !in ok
  {
    if conns == [] || conns[|conns| - 1].id in ok then |conns| else Usable(conns[..|conns| - 1], ok)
  }

  function Discard(p: Pool, i: nat, ok: set<nat>): Pool
    requires i < |p.idle|
  {
    var n := Usable(p.idle[i], ok);
    p.(idle := p.idle[i := p.idle[i][..n]], closed := p.closed + (|p.idle[i]| - n), dropped := p.dropped + (|p.idle[i]| - n))
  }

  function Lend(p: Pool, i: nat, c: Conn): Pool
    requires i < |p.backends|
  {
    p.(backends := p.backends[i := p.backends[i].(active := p.backends[i].active + 1)],
       acquired := p.acquired + 1, leased := p.leased[c.id := i + 1])
  }

  /** Hands out the most recently idled connection of backend `i`. */
  function Reuse(p: Pool, i: nat, inTxn: bool): (Pool, Option<Conn>)
    requires i < |p.idle| == |p.backends| && p.idle[i] != []
  {
    var n := |p.idle[i]| - 1;
    var c := Conn(p.idle[i][n].id, i + 1, inTxn);
    (Lend(p.(idle := p.idle[i := p.idle[i][..n]]), i, c), Some(c))
  }

  function Create(p: Pool, i: nat, id: nat, inTxn: bool): (Pool, Option<Conn>)
    requires i < |p.backends|
  {
    var c := Conn(id, i + 1, inTxn);
    (Lend(p.(total := p.total + 1, created := p.created + 1, origin := p.origin[id := i + 1]), i, c), Some(c))
  }

  function AcquireFrom(p: Pool, i: nat, inTxn: bool, made: Option<nat>): (Pool, Option<Conn>)
    requires i < |p.idle| == |p.backends|
  {
    if p.idle[i] != [] then Reuse(p, i, inTxn)
    else if p.total >= p.maxConns || made.None? then (p, None)
    else Create(p, i, made.value, inTxn)
  }

  /** `ok` are the connections that still validate and are young enough; `made` is the connection
      an attempt to connect would return. */
  function Acquire(p: Pool, q: QueryType, inTxn: bool, session: nat, ok: set<nat>, made: Option<nat>): (r: (Pool, Option<Conn>))
    requires |p.idle| == |p.backends|
    ensures |r.0.idle| == |p.idle| && |r.0.backends| == |p.backends|
    ensures r.1.Some? ==> Target(p, q, session).Some? && r.1.value.backend == Target(p, q, session).value + 1 && r.1.value.inTxn == inTxn
  {
    var t := Target(p, q, session);
    if t.None? then (p, None) else AcquireFrom(Discard(p, t.value, ok), t.value, inTxn, made)
  }

  /** An acquire succeeds if and only if it has a backend with a usable idle connection, or there is
      room for a new one and connecting works. */
  lemma AcquireExactly(p: Pool, q: QueryType, inTxn: bool, session: nat, ok: set<nat>, made: Option<nat>)
    requires |p.idle| == |p.backends|
    ensures Acquire(p, q, inTxn, session, ok, made).1.Some? <==>
      Target(p, q, session).Some? && Serves(p, Target(p, q, session).value, ok, made)
  {
  }

  predicate Serves(p: Pool, i: nat, ok: set<nat>, made: Option<nat>)
    requires i < |p.idle|
  {
    Usable(p.idle[i], ok) > 0 || (p.total < p.maxConns && made.Some?)
  }

  /** `keep` says that the returned connection validates and is neither idle nor alive too long. */
  function Release(p: Pool, c: Conn, keep: bool): Pool
    requires 1 <= c.backend <= |p.backends| && |p.idle| == |p.backends|
  {
    var i := c.backend - 1;
    var d := p.(backends := p.backends[i := p.backends[i].(active := p.backends[i].active - 1)], leased := p.leased - {c.id});
    if keep && |p.idle[i]| < p.maxIdle then
      d.(idle := d.idle[i := d.idle[i] + [c.(inTxn := false)]], released := d.released + 1)
    else
      d.(total := d.total - 1, closed := d.closed + 1)
  }

  function Kept(conns: seq<Conn>, ok: set<nat>): (r: seq<Conn>)
    ensures |r| <= |conns|
  {
    if conns == [] then [] else
    Kept(conns[..|conns| - 1], ok) + if conns[|conns| - 1].id in ok then [conns[|conns| - 1]] else []
  }

  /** Drops the connections of backend `i` that are no longer good. */
  function CleanOne(p: Pool, i: nat, ok: set<nat>): (r: Pool)
    requires i < |p.idle|
  {
    var kept := Kept(p.idle[i], ok);
    var gone := |p.idle[i]| - |kept|;
    p.(idle := p.idle[i := kept], total := p.total - gone, closed := p.closed + gone)
  }

  /** Cleaning the idle lists of the first `n` backends. */
  function CleanUpTo(p: Pool, n: nat, ok: set<nat>): (r: Pool)
    requires n <= |p.idle|
    ensures |r.idle| == |p.idle|
  {
    if n == 0 then p else CleanOne(CleanUpTo(p, n - 1, ok), n - 1, ok)
  }

  function Cleanup(p: Pool, ok: set<nat>): Pool {
    CleanUpTo(p, |p.idle|, ok)
  }

  // ---------------------------------------------------------------- the ledger

  function Idle(lists: seq<seq<Conn>>): nat {
    if lists == [] then 0 else Idle(lists[..|lists| - 1]) + |lists[|lists| - 1]|
  }

  /** The connections of a backend that are handed out. */
  function LeasedOn(leased: map<nat, nat>, id: nat): set<nat> {
    set c | c in leased && leased[c] == id
  }

  ghost predicate DistinctIds(conns: seq<Conn>) {
    forall j, k :: 0 <= j < k < |conns| ==> conns[j].id != conns[k].id
  }

  ghost predicate ListOk(p: Pool, i: nat)
    requires i < |p.idle|
  {
    var conns := p.idle[i];
    && |conns| <= p.maxIdle
    && (forall j :: 0 <= j < |conns| ==>
          && conns[j].backend == i + 1 && !conns[j].inTxn
          && conns[j].id !in p.leased && conns[j].id in p.origin && p.origin[conns[j].id] == i + 1)
    && DistinctIds(conns)
  }

  ghost predicate Books(p: Pool) {
    && p.created - p.closed == Idle(p.idle) + |p.leased|
    && p.total == Idle(p.idle) + |p.leased| + p.dropped
    && p.total <= p.maxConns
  }

  ghost predicate Lists(p: Pool) {
    forall i :: 0 <= i < |p.idle| ==> ListOk(p, i)
  }

  /** Each backend's active count is the number of its connections lent out. */
  ghost predicate Active(backends: seq<Backend>, leased: map<nat, nat>) {
    forall i :: 0 <= i < |backends| ==> backends[i].active == |LeasedOn(leased, i + 1)|
  }

  /** What is lent out was made for the backend it is lent from. */
  ghost predicate Traced(leased: map<nat, nat>, origin: map<nat, nat>, n: nat) {
    forall c :: c in leased ==> c in origin && origin[c] == leased[c] && 1 <= leased[c] <= n
  }

  ghost predicate Ledger(p: Pool) {
    && |p.idle| == |p.backends| && Books(p) && Lists(p)
    && Active(p.backends, p.leased) && Traced(p.leased, p.origin, |p.backends|)
  }

  // ---------------------------------------------------------------- proofs

  lemma {:induction false} IdleUpdate(lists: seq<seq<Conn>>, i: nat, conns: seq<Conn>)
    requires i < |lists|
    ensures Idle(lists[i := conns]) == Idle(lists) - |lists[i]| + |conns|
  {
    var n := |lists| - 1;
    if i < n {
      IdleUpdate(lists[..n], i, conns);
      assert lists[i := conns][..n] == lists[..n][i := conns];
    } else {
      assert lists[i := conns][..n] == lists[..n];
    }
  }

  lemma LeasedOnAdd(leased: map<nat, nat>, c: nat, id: nat, b: nat)
    requires c !in leased
    ensures |LeasedOn(leased[c := id], b)| == |LeasedOn(leased, b)| + if b == id then 1 else 0
  {
    var before, after := LeasedOn(leased, b), LeasedOn(leased[c := id], b);
    assert c !in before;
    assert after == if b == id then before + {c} else before;
  }

  lemma LeasedOnDrop(leased: map<nat, nat>, c: nat, b: nat)
    requires c in leased
    ensures |LeasedOn(leased - {c}, b)| == |LeasedOn(leased, b)| - if b == leased[c] then 1 else 0
  {
    var before, after := LeasedOn(leased, b), LeasedOn(leased - {c}, b);
    assert c !in after;
    assert before == if b == leased[c] then after + {c} else after;
  }

  lemma LeasedSize(leased: map<nat, nat>, c: nat, id: nat)
    ensures c !in leased ==> |leased[c := id]| == |leased| + 1
    ensures c in leased ==> |leased - {c}| == |leased| - 1
  {
    if c in leased {
      assert leased.Keys == (leased - {c}).Keys + {c};
    } else {
      assert leased[c := id].Keys == leased.Keys + {c};
    }
  }

  lemma DiscardKeeps(p: Pool, i: nat, ok: set<nat>)
    requires Ledger(p) && i < |p.idle|
    ensures Ledger(Discard(p, i, ok))
  {
    var d := Discard(p, i, ok);
    IdleUpdate(p.idle, i, d.idle[i]);
    ListsShorter(p, d, i, |d.idle[i]|);
  }

  /** Dropping connections from the back of one idle list. */
  lemma ListsShorter(p: Pool, d: Pool, i: nat, n: nat)
    requires Lists(p) && i < |p.idle| && n <= |p.idle[i]| && d.idle == p.idle[i := p.idle[i][..n]]
    requires d.maxIdle == p.maxIdle && d.leased == p.leased && d.origin == p.origin
    ensures Lists(d)
  {
    forall j | 0 <= j < |d.idle| ensures ListOk(d, j) {
      assert ListOk(p, j);
    }
  }

  /** Handing out a connection that is neither idle nor leased. */
  ghost predicate NotIdle(conns: seq<Conn>, id: nat) {
    forall k :: 0 <= k < |conns| ==> conns[k].id != id
  }

  /** The books of a pool with one connection of backend `i` neither idle nor lent. */
  ghost predicate Spare(p: Pool, i: nat, id: nat) {
    && |p.idle| == |p.backends| && i < |p.backends| && id !in p.leased && Lists(p) && NotIdle(p.idle[i], id)
    && id in p.origin && p.origin[id] == i + 1
    && Active(p.backends, p.leased) && Traced(p.leased, p.origin, |p.backends|)
    && p.created - p.closed == Idle(p.idle) + |p.leased| + 1
    && p.total == Idle(p.idle) + |p.leased| + 1 + p.dropped <= p.maxConns
  }

  lemma LendActive(p: Pool, i: nat, c: Conn)
    requires i < |p.backends| && c.id !in p.leased && Active(p.backends, p.leased)
    ensures Active(Lend(p, i, c).backends, Lend(p, i, c).leased)
  {
    var d := Lend(p, i, c);
    forall j | 0 <= j < |d.backends| ensures d.backends[j].active == |LeasedOn(d.leased, j + 1)| {
      LeasedOnAdd(p.leased, c.id, i + 1, j + 1);
    }
  }

  lemma LendLists(p: Pool, i: nat, c: Conn)
    requires |p.idle| == |p.backends| && i < |p.backends| && Lists(p) && NotIdle(p.idle[i], c.id)
    requires c.id in p.origin && p.origin[c.id] == i + 1
    ensures Lists(Lend(p, i, c))
  {
    var d := Lend(p, i, c);
    forall j | 0 <= j < |d.idle| ensures ListOk(d, j) {
      assert ListOk(p, j);
    }
  }

  lemma LendKeeps(p: Pool, i: nat, c: Conn)
    requires Spare(p, i, c.id)
    ensures Ledger(Lend(p, i, c))
  {
    LeasedSize(p.leased, c.id, i + 1);
    LendActive(p, i, c);
    LendLists(p, i, c);
  }

  ghost predicate NewId(p: Pool, made: Option<nat>) {
    made.Some? ==> made.value !in p.origin
  }

  lemma LastIsApart(conns: seq<Conn>)
    requires conns != [] && DistinctIds(conns)
    ensures NotIdle(conns[..|conns| - 1], conns[|conns| - 1].id)
  {
  }

  lemma ReuseKeeps(p: Pool, i: nat, inTxn: bool)
    requires Ledger(p) && i < |p.idle| && p.idle[i] != []
    ensures Ledger(Reuse(p, i, inTxn).0)
  {
    var n := |p.idle[i]| - 1;
    var c := p.idle[i][n];
    var e := p.(idle := p.idle[i := p.idle[i][..n]]);
    assert ListOk(p, i);
    LastIsApart(p.idle[i]);
    IdleUpdate(p.idle, i, p.idle[i][..n]);
    ListsShorter(p, e, i, n);
    assert Spare(e, i, c.id);
    LendKeeps(e, i, Conn(c.id, i + 1, inTxn));
  }

  lemma NewIsApart(p: Pool, i: nat, id: nat)
    requires Lists(p) && i < |p.idle| && id !in p.origin
    ensures NotIdle(p.idle[i], id)
  {
    assert ListOk(p, i);
  }

  lemma CreateKeeps(p: Pool, i: nat, id: nat, inTxn: bool)
    requires Ledger(p) && i < |p.backends| && p.total < p.maxConns && id !in p.origin
    ensures Ledger(Create(p, i, id, inTxn).0)
  {
    var e := p.(total := p.total + 1, created := p.created + 1, origin := p.origin[id := i + 1]);
    ListsWithNew(p, e, id);
    NewIsApart(p, i, id);
    assert Spare(e, i, id);
    LendKeeps(e, i, Conn(id, i + 1, inTxn));
  }

  /** Idle lists do not notice that a new connection was made. */
  lemma ListsWithNew(p: Pool, e: Pool, id: nat)
    requires Lists(p) && id !in p.origin && e.idle == p.idle && e.maxIdle == p.maxIdle && e.leased == p.leased
    requires forall x :: x in p.origin ==> x in e.origin && e.origin[x] == p.origin[x]
    ensures Lists(e)
  {
    forall j | 0 <= j < |e.idle| ensures ListOk(e, j) {
      assert ListOk(p, j);
    }
  }

  lemma AcquireKeeps(p: Pool, q: QueryType, inTxn: bool, session: nat, ok: set<nat>, made: Option<nat>)
    requires Ledger(p) && NewId(p, made)
    ensures Ledger(Acquire(p, q, inTxn, session, ok, made).0)
  {
    var t := Target(p, q, session);
    if t.Some? {
      DiscardKeeps(p, t.value, ok);
      var d := Discard(p, t.value, ok);
      if d.idle[t.value] != [] {
        ReuseKeeps(d, t.value, inTxn);
      } else if d.total < d.maxConns && made.Some? {
        CreateKeeps(d, t.value, made.value, inTxn);
      }
    }
  }

  lemma ReleaseActive(p: Pool, c: Conn, keep: bool)
    requires Ledger(p) && c.id in p.leased && p.leased[c.id] == c.backend
    ensures Active(Release(p, c, keep).backends, Release(p, c, keep).leased)
  {
    var r := Release(p, c, keep);
    forall j | 0 <= j < |r.backends| ensures r.backends[j].active == |LeasedOn(r.leased, j + 1)| {
      LeasedOnDrop(p.leased, c.id, j + 1);
    }
  }

  lemma ReleaseLists(p: Pool, c: Conn, keep: bool)
    requires Ledger(p) && c.id in p.leased && p.leased[c.id] == c.backend
    ensures Lists(Release(p, c, keep))
  {
    var r := Release(p, c, keep);
    forall j | 0 <= j < |r.idle| ensures ListOk(r, j) {
      assert ListOk(p, j);
    }
  }

  lemma ReleaseKeeps(p: Pool, c: Conn, keep: bool)
    requires Ledger(p) && c.id in p.leased && p.leased[c.id] == c.backend
    ensures Ledger(Release(p, c, keep))
  {
    var r := Release(p, c, keep);
    var i := c.backend - 1;
    LeasedSize(p.leased, c.id, 0);
    ReleaseActive(p, c, keep);
    ReleaseLists(p, c, keep);
    IdleUpdate(p.idle, i, r.idle[i]);
    assert r.idle == p.idle[i := r.idle[i]];
  }

  lemma {:induction false} KeptMembers(conns: seq<Conn>, ok: set<nat>, c: Conn)
    ensures c in Kept(conns, ok) <==> c in conns && c.id in ok
  {
    if conns != [] {
      var n := |conns| - 1;
      KeptMembers(conns[..n], ok, c);
      assert conns == conns[..n] + [conns[n]];
    }
  }

  lemma {:induction false} KeptDistinct(conns: seq<Conn>, ok: set<nat>)
    requires DistinctIds(conns)
    ensures DistinctIds(Kept(conns, ok))
  {
    if conns != [] {
      var n := |conns| - 1;
      var kept := Kept(conns[..n], ok);
      KeptDistinct(conns[..n], ok);
      forall j | 0 <= j < |kept| ensures kept[j].id != conns[n].id {
        KeptMembers(conns[..n], ok, kept[j]);
        var k :| 0 <= k < n && conns[..n][k] == kept[j];
        assert conns[k].id != conns[n].id;
      }
    }
  }

  lemma CleanOneKeeps(p: Pool, i: nat, ok: set<nat>)
    requires Ledger(p) && i < |p.idle|
    ensures Ledger(CleanOne(p, i, ok))
  {
    var kept := Kept(p.idle[i], ok);
    var e := CleanOne(p, i, ok);
    assert ListOk(p, i);
    KeptDistinct(p.idle[i], ok);
    forall j | 0 <= j < |kept| ensures kept[j] in p.idle[i] { KeptMembers(p.idle[i], ok, kept[j]); }
    IdleUpdate(p.idle, i, kept);
    forall j | 0 <= j < |e.idle| ensures ListOk(e, j) { assert ListOk(p, j); }
  }

  lemma {:induction false} CleanKeeps(p: Pool, n: nat, ok: set<nat>)
    requires Ledger(p) && n <= |p.idle|
    ensures Ledger(CleanUpTo(p, n, ok))
  {
    if n > 0 {
      CleanKeeps(p, n - 1, ok);
      CleanOneKeeps(CleanUpTo(p, n - 1, ok), n - 1, ok);
    }
  }

  // ---------------------------------------------------------------- runs

  datatype PoolOp =
    | Add(role: Role)
    | Health(i: nat, healthy: bool, lag: nat)
    | Take(q: QueryType, inTxn: bool, session: nat, ok: set<nat>, made: Option<nat>)
    | Give(c: Conn, keep: bool)
    | Clean(ok: set<nat>)

  /** What callers and kernel owe the pool: a new connection is new, a returned one was lent. */
  ghost predicate Allowed(p: Pool, op: PoolOp) {
    match op
    case Take(_, _, _, _, made) => NewId(p, made)
    case Give(c, _) => c.id in p.leased && p.leased[c.id] == c.backend
    case _ => true
  }

  function Do(p: Pool, op: PoolOp): Pool
    requires |p.idle| == |p.backends|
    requires op.Give? ==> 1 <= op.c.backend <= |p.backends|
  {
    match op
    case Add(role) => AddBackend(p, role)
    case Health(i, healthy, lag) => Report(p, i, healthy, lag)
    case Take(q, inTxn, session, ok, made) => Acquire(p, q, inTxn, session, ok, made).0
    case Give(c, keep) => Release(p, c, keep)
    case Clean(ok) => Cleanup(p, ok)
  }

  lemma AddKeeps(p: Pool, role: Role)
    requires Ledger(p)
    ensures Ledger(AddBackend(p, role))
  {
    var e := AddBackend(p, role);
    assert e.idle[..|p.idle|] == p.idle;
    forall j | 0 <= j < |e.idle| ensures ListOk(e, j) { if j < |p.idle| { assert ListOk(p, j); } }
    assert LeasedOn(p.leased, |e.backends|) == {};
  }

  lemma ReportKeeps(p: Pool, i: nat, healthy: bool, lag: nat)
    requires Ledger(p)
    ensures Ledger(Report(p, i, healthy, lag))
  {
    var e := Report(p, i, healthy, lag);
    forall j | 0 <= j < |e.idle| ensures ListOk(e, j) { assert ListOk(p, j); }
  }

  lemma DoKeeps(p: Pool, op: PoolOp)
    requires Ledger(p) && Allowed(p, op)
    ensures Ledger(Do(p, op))
  {
    match op
    case Add(role) => AddKeeps(p, role);
    case Health(i, healthy, lag) => ReportKeeps(p, i, healthy, lag);
    case Take(q, inTxn, session, ok, made) => AcquireKeeps(p, q, inTxn, session, ok, made);
    case Give(c, keep) => ReleaseKeeps(p, c, keep);
    case Clean(ok) => CleanKeeps(p, |p.idle|, ok);
  }

  ghost predicate Lawful(p: Pool, ops: seq<PoolOp>)
    requires Ledger(p)
    decreases |ops|
  {
    if ops == [] then true
    else if !Allowed(p, ops[0]) then false
    else
      DoKeeps(p, ops[0]);
      Lawful(Do(p, ops[0]), ops[1..])
  }

  function Run(p: Pool, ops: seq<PoolOp>): Pool
    requires Ledger(p) && Lawful(p, ops)
    decreases |ops|
  {
    if ops == [] then p
    else
      DoKeeps(p, ops[0]);
      Run(Do(p, ops[0]), ops[1..])
  }

  lemma {:induction false} RunKeeps(p: Pool, ops: seq<PoolOp>)
    requires Ledger(p) && Lawful(p, ops)
    ensures Ledger(Run(p, ops))
    decreases |ops|
  {
    if ops != [] {
      DoKeeps(p, ops[0]);
      RunKeeps(Do(p, ops[0]), ops[1..]);
    }
  }

  ghost predicate SameLimits(p: Pool, r: Pool) {
    r.maxConns == p.maxConns && r.maxIdle == p.maxIdle
  }

  lemma {:induction false} CleanSameLimits(p: Pool, n: nat, ok: set<nat>)
    requires n <= |p.idle|
    ensures SameLimits(p, CleanUpTo(p, n, ok))
  {
    if n > 0 {
      CleanSameLimits(p, n - 1, ok);
    }
  }

  lemma {:induction false} RunSameLimits(p: Pool, ops: seq<PoolOp>)
    requires Ledger(p) && Lawful(p, ops)
    ensures SameLimits(p, Run(p, ops))
    decreases |ops|
  {
    if ops != [] {
      DoKeeps(p, ops[0]);
      if ops[0].Clean? {
        CleanSameLimits(p, |p.idle|, ops[0].ok);
      }
      assert SameLimits(p, Do(p, ops[0]));
      RunSameLimits(Do(p, ops[0]), ops[1..]);
    }
  }

  lemma IdleIsOwn(p: Pool)
    requires Ledger(p)
    ensures forall i :: 0 <= i < |p.idle| ==> |p.idle[i]| <= p.maxIdle
    ensures forall i, j :: 0 <= i < |p.idle| && 0 <= j < |p.idle[i]| ==>
      p.idle[i][j].backend == i + 1 && !p.idle[i][j].inTxn && p.idle[i][j].id !in p.leased
  {
    forall i | 0 <= i < |p.idle|
      ensures |p.idle[i]| <= p.maxIdle
      ensures forall j :: 0 <= j < |p.idle[i]| ==>
        p.idle[i][j].backend == i + 1 && !p.idle[i][j].inTxn && p.idle[i][j].id !in p.leased
    {
      assert ListOk(p, i);
    }
  }

  /** In every run of a pool: connections made minus closed are the idle and the lent ones, the
      published total exceeds them by exactly those discarded inside `Acquire` and stays within its
      limit, each backend's active count is the number of its connections lent out, and each idle
      list is within its limit and holds only its own backend's connections, outside transactions. */
  lemma PoolLedger(maxConns: nat, maxIdle: nat, ops: seq<PoolOp>)
    requires Lawful(NewPool(maxConns, maxIdle), ops)
    ensures var p := Run(NewPool(maxConns, maxIdle), ops);
      && p.created - p.closed == Idle(p.idle) + |p.leased|
      && Idle(p.idle) + |p.leased| + p.dropped == p.total <= maxConns
      && (forall i :: 0 <= i < |p.backends| ==> p.backends[i].active == |LeasedOn(p.leased, i + 1)|)
      && |p.idle| == |p.backends| && (forall i :: 0 <= i < |p.idle| ==> |p.idle[i]| <= maxIdle)
      && (forall i, j :: 0 <= i < |p.idle| && 0 <= j < |p.idle[i]| ==>
           p.idle[i][j].backend == i + 1 && !p.idle[i][j].inTxn && p.idle[i][j].id !in p.leased)
  {
    RunKeeps(NewPool(maxConns, maxIdle), ops);
    RunSameLimits(NewPool(maxConns, maxIdle), ops);
    IdleIsOwn(Run(NewPool(maxConns, maxIdle), ops));
  }

  /** What the discards cost: a pool that has discarded `maxConns` connections never lends again. */
  lemma {:induction false} ExhaustedForever(p: Pool, ops: seq<PoolOp>, q: QueryType, inTxn: bool, session: nat, ok: set<nat>, made: Option<nat>)
    requires Ledger(p) && Lawful(p, ops) && p.dropped >= p.maxConns
    ensures Ledger(Run(p, ops)) && Acquire(Run(p, ops), q, inTxn, session, ok, made).1 == None
    decreases |ops|
  {
    RunKeeps(p, ops);
    if ops == [] {
      NothingIdle(p);
    } else {
      DoKeeps(p, ops[0]);
      StillExhausted(p, ops[0]);
      ExhaustedForever(Do(p, ops[0]), ops[1..], q, inTxn, session, ok, made);
    }
  }

  lemma NothingIdle(p: Pool)
    requires Ledger(p) && p.dropped >= p.maxConns
    ensures forall i :: 0 <= i < |p.idle| ==> p.idle[i] == []
    ensures p.total >= p.maxConns && p.leased == map[]
  {
    forall i | 0 <= i < |p.idle| ensures p.idle[i] == [] {
      IdleUpdate(p.idle, i, []);
    }
    assert |p.leased| == 0;
  }

  lemma StillExhausted(p: Pool, op: PoolOp)
    requires Ledger(p) && Allowed(p, op) && p.dropped >= p.maxConns
    ensures Do(p, op).dropped >= Do(p, op).maxConns
  {
    NothingIdle(p);
    if op.Clean? { CleanSame(p, |p.idle|, op.ok); }
  }

  lemma {:induction false} CleanSame(p: Pool, n: nat, ok: set<nat>)
    requires n <= |p.idle|
    ensures CleanUpTo(p, n, ok).dropped == p.dropped && CleanUpTo(p, n, ok).maxConns == p.maxConns
  {
    if n > 0 { CleanSame(p, n - 1, ok); }
  }

  /** An acquire loses slots if and only if its backend's most recently idled connection is dead. */
  lemma LeaksExactly(p: Pool, q: QueryType, inTxn: bool, session: nat, ok: set<nat>, made: Option<nat>)
    requires |p.idle| == |p.backends|
    ensures Acquire(p, q, inTxn, session, ok, made).0.dropped > p.dropped <==>
      Target(p, q, session).Some? &&
      var conns := p.idle[Target(p, q, session).value]; conns != [] && conns[|conns| - 1].id !in ok
  {
    var t := Target(p, q, session);
    if t.Some? {
      DropsExactly(p.idle[t.value], ok);
    }
  }

  lemma DropsExactly(conns: seq<Conn>, ok: set<nat>)
    ensures Usable(conns, ok) < |conns| <==> conns != [] && conns[|conns| - 1].id !in ok
  {
  }

  /** An attempt that finds only dead idle connections at the limit fails and loses their slots. */
  lemma DeadConnectionsLeak(p: Pool, q: QueryType, inTxn: bool, session: nat, ok: set<nat>, made: Option<nat>)
    requires Ledger(p) && p.total == p.maxConns && Target(p, q, session).Some?
    requires forall j :: 0 <= j < |p.idle[Target(p, q, session).value]| ==> p.idle[Target(p, q, session).value][j].id !in ok
    ensures var (r, c) := Acquire(p, q, inTxn, session, ok, made); var i := Target(p, q, session).value;
      c == None && r.idle[i] == [] && r.dropped == p.dropped + |p.idle[i]| && r.total == p.total
  {
    var i := Target(p, q, session).value;
    assert Usable(p.idle[i], ok) == 0;
  }
}
