/**
 What giving back, cleaning and health reports do to later acquires of the connection pool.
 */
module DbUpkeep {
  import opened Common
  import opened DbPoolSpec
  import opened DbRouting

  // ---------------------------------------------------------------- giving back

  lemma TakesLast(p: Pool, i: nat, id: nat, q: QueryType, inTxn: bool, session: nat, ok: set<nat>, made: Option<nat>)
    requires |p.idle| == |p.backends| && Target(p, q, session) == Some(i)
    requires p.idle[i] != [] && p.idle[i][|p.idle[i]| - 1].id == id && id in ok
    ensures Acquire(p, q, inTxn, session, ok, made).1 == Some(Conn(id, i + 1, inTxn))
  {
    AcquireAnswers(p, q, inTxn, session, ok, made, Some(i));
    assert Reusable(p.idle[i], ok, |p.idle[i]| - 1);
  }

  lemma GivenIsLast(p: Pool, c: Conn)
    requires |p.idle| == |p.backends| && 1 <= c.backend <= |p.backends| && |p.idle[c.backend - 1]| < p.maxIdle
    ensures var d := Release(p, c, true);
      |d.idle| == |d.backends| && d.idle == p.idle[c.backend - 1 := p.idle[c.backend - 1] + [Conn(c.id, c.backend, false)]]
  {
  }

  /** A connection that is kept is the next one its backend hands out, while it works. */
  lemma GiveThenTake(p: Pool, c: Conn, q: QueryType, inTxn: bool, session: nat, ok: set<nat>, made: Option<nat>)
    requires |p.idle| == |p.backends| && 1 <= c.backend <= |p.backends|
    requires |p.idle[c.backend - 1]| < p.maxIdle && c.id in ok
    requires Target(Release(p, c, true), q, session) == Some(c.backend - 1)
    ensures Acquire(Release(p, c, true), q, inTxn, session, ok, made).1 == Some(Conn(c.id, c.backend, inTxn))
  {
    GivenIsLast(p, c);
    TakesLast(Release(p, c, true), c.backend - 1, c.id, q, inTxn, session, ok, made);
  }

  /** A connection that is not kept, because it no longer works or enough are idle, gives its slot
      back; no idle list changes. */
  lemma GiveCloses(p: Pool, c: Conn, keep: bool)
    requires Ledger(p) && c.id in p.leased && p.leased[c.id] == c.backend
    requires !keep || |p.idle[c.backend - 1]| >= p.maxIdle
    ensures var d := Release(p, c, keep); d.idle == p.idle && d.total == p.total - 1 && d.closed == p.closed + 1 && c.id !in d.leased
  {
  }

  // ---------------------------------------------------------------- cleaning

  /** The connections that still work, in order. */
  function Working(conns: seq<Conn>, ok: set<nat>): seq<Conn> {
    if conns == [] then [] else (if conns[0].id in ok then [conns[0]] else []) + Working(conns[1..], ok)
  }

  lemma Regrouped(a: seq<Conn>, b: seq<Conn>, c: seq<Conn>)
    ensures (a + b) + c == a + (b + c)
  {
  }

  lemma {:induction false} WorkingLast(conns: seq<Conn>, c: Conn, ok: set<nat>)
    ensures Working(conns + [c], ok) == Working(conns, ok) + if c.id in ok then [c] else []
    decreases |conns|
  {
    var last := if c.id in ok then [c] else [];
    if conns == [] {
      assert [] + [c] == [c] && [c][1..] == [];
    } else {
      assert (conns + [c])[1..] == conns[1..] + [c] && (conns + [c])[0] == conns[0];
      WorkingLast(conns[1..], c, ok);
      var first := if conns[0].id in ok then [conns[0]] else [];
      Regrouped(first, Working(conns[1..], ok), last);
    }
  }

  lemma {:induction false} KeptAreWorking(conns: seq<Conn>, ok: set<nat>)
    ensures Kept(conns, ok) == Working(conns, ok)
    decreases |conns|
  {
    if conns != [] {
      var n := |conns| - 1;
      KeptAreWorking(conns[..n], ok);
      WorkingLast(conns[..n], conns[n], ok);
      assert conns[..n] + [conns[n]] == conns;
    }
  }

  /** The first `n` idle lists hold their working connections, the others all of theirs. */
  ghost predicate CleanedLists(before: seq<seq<Conn>>, after: seq<seq<Conn>>, n: nat, ok: set<nat>) {
    && |after| == |before|
    && (forall i :: 0 <= i < n && i < |before| ==> after[i] == Working(before[i], ok))
    && (forall i :: n <= i < |before| ==> after[i] == before[i])
  }

  /** Nothing else changes but the books of the slots. */
  ghost predicate Settled(p: Pool, d: Pool) {
    d == p.(idle := d.idle, total := d.total, closed := d.closed)
    && p.total - d.total == d.closed - p.closed == Idle(p.idle) - Idle(d.idle)
  }

  lemma CleanOneList(before: seq<seq<Conn>>, lists: seq<seq<Conn>>, n: nat, ok: set<nat>)
    requires n < |before| && CleanedLists(before, lists, n, ok)
    ensures CleanedLists(before, lists[n := Kept(lists[n], ok)], n + 1, ok)
  {
    KeptAreWorking(lists[n], ok);
  }

  lemma CleanOneSettles(p: Pool, c: Pool, n: nat, ok: set<nat>)
    requires n < |c.idle| && Settled(p, c)
    ensures Settled(p, CleanOne(c, n, ok))
  {
    IdleUpdate(c.idle, n, Kept(c.idle[n], ok));
  }

  lemma {:induction false} CleanedUpTo(p: Pool, n: nat, ok: set<nat>)
    requires n <= |p.idle|
    ensures CleanedLists(p.idle, CleanUpTo(p, n, ok).idle, n, ok) && Settled(p, CleanUpTo(p, n, ok))
  {
    if n > 0 {
      CleanedUpTo(p, n - 1, ok);
      CleanOneList(p.idle, CleanUpTo(p, n - 1, ok).idle, n - 1, ok);
      CleanOneSettles(p, CleanUpTo(p, n - 1, ok), n - 1, ok);
    }
  }

  /** Cleaning leaves each idle list with exactly its working connections, in order, and gives back
      the slots of the others; nothing else changes. */
  lemma CleanupExactly(p: Pool, ok: set<nat>)
    ensures var d := Cleanup(p, ok);
      && d == p.(idle := d.idle, total := d.total, closed := d.closed)
      && d.idle == seq(|p.idle|, i requires 0 <= i < |p.idle| => Working(p.idle[i], ok))
      && p.total - d.total == d.closed - p.closed == Idle(p.idle) - Idle(d.idle)
  {
    CleanedUpTo(p, |p.idle|, ok);
  }

  // ---------------------------------------------------------------- health

  predicate Raises(op: PoolOp, i: nat) {
    op.Health? && op.i == i && op.healthy
  }

  lemma StepStaysDown(p: Pool, op: PoolOp, i: nat)
    requires Ledger(p) && Allowed(p, op) && i < |p.backends| && !p.backends[i].healthy && !Raises(op, i)
    ensures i < |Do(p, op).backends| && !Do(p, op).backends[i].healthy
  {
    if op.Clean? {
      CleanedUpTo(p, |p.idle|, op.ok);
    }
  }

  lemma {:induction false} StaysDown(p: Pool, ops: seq<PoolOp>, i: nat)
    requires Ledger(p) && Lawful(p, ops) && i < |p.backends| && !p.backends[i].healthy
    requires forall k :: 0 <= k < |ops| ==> !Raises(ops[k], i)
    ensures var d := Run(p, ops); i < |d.backends| && !d.backends[i].healthy && Ledger(d)
    decreases |ops|
  {
    if ops != [] {
      DoKeeps(p, ops[0]);
      StepStaysDown(p, ops[0], i);
      StaysDown(Do(p, ops[0]), ops[1..], i);
    }
  }

  /** From the report that a backend is down until one that it is up, in every run, no acquire hands
      out a connection of that backend. */
  lemma DownIsLeftAlone(p: Pool, i: nat, lag: nat, ops: seq<PoolOp>, take: PoolOp)
    requires Ledger(p) && i < |p.backends| && take.Take?
    requires Ledger(Do(p, Health(i, false, lag))) && Lawful(Do(p, Health(i, false, lag)), ops)
    requires forall k :: 0 <= k < |ops| ==> !Raises(ops[k], i)
    ensures var d := Run(Do(p, Health(i, false, lag)), ops);
      |d.idle| == |d.backends| &&
      var c := Acquire(d, take.q, take.inTxn, take.session, take.ok, take.made).1; c.Some? ==> c.value.backend != i + 1
  {
    StaysDown(Do(p, Health(i, false, lag)), ops, i);
  }

  /** A primary reported up takes the queries at once, unless an earlier one is up. */
  lemma UpIsChosen(p: Pool, i: nat, lag: nat, q: QueryType)
    requires i < |p.backends| && !q.Read?
    requires p.backends[i].role.Primary? && forall j :: 0 <= j < i ==> !IsPrimary(p.backends[j])
    ensures Target(Report(p, i, true, lag), q, 0) == Some(i)
  {
    SelectIsChoice(Report(p, i, true, lag).backends, q, Some(i));
  }

  /** The only replica, reported up, takes the reads exactly when its lag is at most 5000 ms. */
  lemma FreshIsChosen(p: Pool, i: nat, lag: nat)
    requires i < |p.backends| && p.backends[i].role.Replica?
    requires forall j :: 0 <= j < |p.backends| && j != i ==> !IsReplica(p.backends[j])
    ensures Target(Report(p, i, true, lag), Read, 0) == Some(i) <==> lag <= 5000
  {
    var bs := Report(p, i, true, lag).backends;
    if lag <= 5000 {
      assert IsReplica(bs[i]) && ReplicaAt(bs, Some(i));
      SelectIsChoice(bs, Read, Some(i));
    }
  }

  // ---------------------------------------------------------------- statistics

  /** Every connection handed out is counted as acquired, and as created exactly when it is new. */
  lemma TakesCounted(p: Pool, q: QueryType, inTxn: bool, session: nat, ok: set<nat>, made: Option<nat>)
    requires Ledger(p) && NewId(p, made)
    ensures var (d, c) := Acquire(p, q, inTxn, session, ok, made);
      && d.acquired == p.acquired + (if c.Some? then 1 else 0) && d.released == p.released
      && d.created == p.created + (if c.Some? && c.value.id !in p.origin then 1 else 0)
  {
    var t := Target(p, q, session);
    if t.Some? {
      assert ListOk(p, t.value);
      var n := Usable(p.idle[t.value], ok);
    }
  }

  /** Every connection given back is counted either as released, and idle from then on, or as closed. */
  lemma GivesCounted(p: Pool, c: Conn, keep: bool)
    requires |p.idle| == |p.backends| && 1 <= c.backend <= |p.backends|
    ensures var d := Release(p, c, keep); var kept := keep && |p.idle[c.backend - 1]| < p.maxIdle;
      && d.acquired == p.acquired && d.created == p.created
      && d.released == p.released + (if kept then 1 else 0) && d.closed == p.closed + (if kept then 0 else 1)
      && |d.idle[c.backend - 1]| == |p.idle[c.backend - 1]| + (if kept then 1 else 0)
  {
  }
}
