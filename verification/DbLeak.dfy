/**
 Runs of the connection pool in which every slot is lost: connections that die while idle are
 discarded inside an acquire, and their slots stay taken.
 */
module DbLeak {
  import opened Common
  import opened DbPoolSpec

  /** One more step of the run from `start`. */
  lemma {:induction false} PoolRunOn(start: Pool, ops: seq<PoolOp>, op: PoolOp)
    requires Ledger(start) && Lawful(start, ops) && Ledger(Run(start, ops)) && Allowed(Run(start, ops), op)
    ensures Lawful(start, ops + [op]) && Run(start, ops + [op]) == Do(Run(start, ops), op)
    decreases |ops|
  {
    if ops == [] {
      assert ops + [op] == [op];
    } else {
      DoKeeps(start, ops[0]);
      PoolRunOn(Do(start, ops[0]), ops[1..], op);
      assert (ops + [op])[1..] == ops[1..] + [op];
    }
  }

  /** A pool with one primary that has made the connections 0 to `k - 1`, all but the last one
      discarded and the last one idle. */
  ghost predicate Worn(p: Pool, n: nat, k: nat) {
    && Ledger(p) && p.maxConns == n && p.maxIdle > 0
    && p.backends == [Backend(Primary, true, 0, 0)] && p.leased == map[]
    && p.idle == [if k == 0 then [] else [Conn(k - 1, 1, false)]]
    && p.total == k && p.dropped == (if k == 0 then 0 else k - 1)
    && (forall id :: id in p.origin ==> id < k)
  }

  /** The same, with the connection `k` just handed out in place of the last one. */
  ghost predicate Lent(p: Pool, n: nat, k: nat) {
    && Ledger(p) && p.maxConns == n && p.maxIdle > 0
    && p.backends == [Backend(Primary, true, 0, 1)] && p.leased == map[k := 1]
    && p.idle == [[]] && p.total == k + 1 && p.dropped == k
    && (forall id :: id in p.origin ==> id <= k)
  }

  /** A write that finds no idle connection alive and asks for the connection `k`. */
  function Ask(k: nat): PoolOp {
    Take(Write, false, 0, {}, Some(k))
  }

  function Back(k: nat): PoolOp {
    Give(Conn(k, 1, false), true)
  }

  lemma FirstStep(p: Pool)
    requires Ledger(p) && p == NewPool(p.maxConns, p.maxIdle) && p.maxIdle > 0
    ensures Worn(Do(p, Add(Primary)), p.maxConns, 0)
  {
    DoKeeps(p, Add(Primary));
  }

  lemma Discards(p: Pool, n: nat, k: nat)
    requires Worn(p, n, k)
    ensures var d := Discard(p, 0, {});
      d.idle == [[]] && d.dropped == k && d.total == k && d.maxConns == n && d.backends == p.backends && d.leased == map[]
  {
  }

  lemma AskStep(p: Pool, n: nat, k: nat)
    requires Worn(p, n, k) && k < n
    ensures Allowed(p, Ask(k)) && Lent(Do(p, Ask(k)), n, k)
  {
    assert IsPrimary(p.backends[0]);
    DoKeeps(p, Ask(k));
    Discards(p, n, k);
  }

  lemma BackStep(p: Pool, n: nat, k: nat)
    requires Lent(p, n, k)
    ensures Allowed(p, Back(k)) && Worn(Do(p, Back(k)), n, k + 1)
  {
    DoKeeps(p, Back(k));
    assert [] + [Conn(k, 1, false)] == [Conn(k, 1, false)];
    assert p.idle[0 := [Conn(k, 1, false)]] == [[Conn(k, 1, false)]];
  }

  /** At the limit the last connection is discarded too, and nothing is left to lend. */
  lemma LastStep(p: Pool, n: nat)
    requires Worn(p, n, n)
    ensures Allowed(p, Ask(n)) && Do(p, Ask(n)).dropped == n && Do(p, Ask(n)).maxConns == n
    ensures Acquire(p, Write, false, 0, {}, Some(n)).1.None?
  {
    assert IsPrimary(p.backends[0]);
    Discards(p, n, n);
  }

  /** The run from `start` made longer. */
  lemma Onward(start: Pool, ops: seq<PoolOp>, op: PoolOp) returns (more: seq<PoolOp>)
    requires Ledger(start) && Lawful(start, ops) && Allowed(Run(start, ops), op)
    ensures Lawful(start, more) && Ledger(Run(start, ops)) && Run(start, more) == Do(Run(start, ops), op)
  {
    RunKeeps(start, ops);
    PoolRunOn(start, ops, op);
    more := ops + [op];
  }

  lemma FirstRun(start: Pool, n: nat, maxIdle: nat) returns (ops: seq<PoolOp>)
    requires Ledger(start) && start == NewPool(n, maxIdle) && maxIdle > 0
    ensures Lawful(start, ops) && Worn(Run(start, ops), n, 0)
  {
    FirstStep(start);
    ops := Onward(start, [], Add(Primary));
  }

  /** A connection is made in place of the dead one, and given back. */
  lemma Round(start: Pool, ops: seq<PoolOp>, n: nat, k: nat) returns (more: seq<PoolOp>)
    requires Ledger(start) && Lawful(start, ops) && Worn(Run(start, ops), n, k) && k < n
    ensures Lawful(start, more) && Worn(Run(start, more), n, k + 1)
  {
    AskStep(Run(start, ops), n, k);
    more := Onward(start, ops, Ask(k));
    BackStep(Run(start, more), n, k);
    more := Onward(start, more, Back(k));
  }

  lemma {:induction false} WearsOut(start: Pool, n: nat, maxIdle: nat, k: nat) returns (ops: seq<PoolOp>)
    requires Ledger(start) && start == NewPool(n, maxIdle) && maxIdle > 0 && k <= n
    ensures Lawful(start, ops) && Worn(Run(start, ops), n, k)
  {
    if k == 0 {
      ops := FirstRun(start, n, maxIdle);
    } else {
      ops := WearsOut(start, n, maxIdle, k - 1);
      ops := Round(start, ops, n, k - 1);
    }
  }

  /** The run loses every slot of a new pool; by `ExhaustedForever` it lends nothing from then on. */
  ghost predicate Exhausts(maxConns: nat, maxIdle: nat, ops: seq<PoolOp>) {
    && Lawful(NewPool(maxConns, maxIdle), ops)
    && Run(NewPool(maxConns, maxIdle), ops).dropped == Run(NewPool(maxConns, maxIdle), ops).maxConns == maxConns
  }

  /** Every new pool that keeps idle connections at all has such a run, whatever its number of slots. */
  lemma LeakHappens(maxConns: nat, maxIdle: nat) returns (ops: seq<PoolOp>)
    requires maxIdle > 0
    ensures Exhausts(maxConns, maxIdle, ops)
  {
    var start := NewPool(maxConns, maxIdle);
    ops := WearsOut(start, maxConns, maxIdle, maxConns);
    LastStep(Run(start, ops), maxConns);
    ops := Onward(start, ops, Ask(maxConns));
  }

  lemma NothingToDrop(p: Pool, op: PoolOp)
    requires Ledger(p) && Allowed(p, op) && p.maxIdle == 0
    ensures Do(p, op).dropped == p.dropped && Do(p, op).maxIdle == 0
  {
    match op
    case Take(q, inTxn, session, ok, made) =>
      if Target(p, q, session).Some? {
        assert ListOk(p, Target(p, q, session).value);
      }
    case Clean(ok) => CleanDropsNone(p, |p.idle|, ok);
    case _ =>
  }

  lemma {:induction false} CleanDropsNone(p: Pool, n: nat, ok: set<nat>)
    requires n <= |p.idle|
    ensures CleanUpTo(p, n, ok).dropped == p.dropped && CleanUpTo(p, n, ok).maxIdle == p.maxIdle
  {
    if n > 0 {
      CleanDropsNone(p, n - 1, ok);
    }
  }

  lemma {:induction false} NeverDrops(p: Pool, ops: seq<PoolOp>)
    requires Ledger(p) && Lawful(p, ops) && p.maxIdle == 0
    ensures Run(p, ops).dropped == p.dropped
    decreases |ops|
  {
    if ops != [] {
      DoKeeps(p, ops[0]);
      NothingToDrop(p, ops[0]);
      NeverDrops(Do(p, ops[0]), ops[1..]);
    }
  }

  /** A pool with slots can lose them all if and only if it keeps idle connections. */
  lemma ExhaustsExactly(maxConns: nat, maxIdle: nat)
    requires maxConns > 0
    ensures (exists ops :: Exhausts(maxConns, maxIdle, ops)) <==> maxIdle > 0
  {
    if maxIdle > 0 {
      var ops := LeakHappens(maxConns, maxIdle);
    } else {
      forall ops ensures !Exhausts(maxConns, maxIdle, ops) {
        if Lawful(NewPool(maxConns, maxIdle), ops) {
          NeverDrops(NewPool(maxConns, maxIdle), ops);
        }
      }
    }
  }
}
