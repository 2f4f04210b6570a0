/**
 One proxied connection, as the event loop of src/network/lb_net.c drives it.

 The kernel is an arbitrary environment: a `Script` lists what the system calls of
 one handler call return. Bytes are opaque tokens, because no handler inspects them.
 `received`, `delivered`, `counted`, `overtaken` and `failed` are history: they record
 what went through the sockets and the statistics, and steer nothing.
 */
module RelaySpec {
  import opened Common

  // ---------------------------------------------------------------- environment

  /** What one `recv` call returned: at least one byte, at most the 16384 of the local buffer. */
  type Chunk = s: seq<int> | 0 < |s| <= 16384 witness [0]

  datatype SendResult = Took(n: nat) | Refused | Failed
  datatype RecvEnd = Drained | PeerClosed | RecvFailed
  datatype Connect = NoBackend | ConnectFailed(b: nat) | RegisterFailed(b: nat) | Connected(b: nat)

  /** One turn of the read loop: the bytes read, the results of the sends that follow, and
      whether a needed `realloc` would succeed. When `sends` runs out the socket refuses. */
  datatype Round = Round(data: Chunk, sends: seq<SendResult>, canGrow: bool)

  datatype Script = Script(flush: SendResult, connect: Connect, rounds: seq<Round>, end: RecvEnd)

  // ---------------------------------------------------------------- state

  /** Which way the bytes go; it names the pending buffer and the socket written to. */
  datatype Side = ToBackend | ToClient

  datatype Arm = Unregistered | Disarmed | Armed(out: bool)

  datatype Dir = Dir(pending: seq<int>, capacity: nat,
                     received: seq<int>, delivered: seq<int>, counted: nat, overtaken: bool)

  const EmptyDir := Dir([], 0, [], [], 0, false)

  datatype Conn = Conn(clientOpen: bool, backendOpen: bool, backend: Option<nat>,
                       linked: bool, frees: nat,
                       toBackend: Dir, toClient: Dir, clientArm: Arm, backendArm: Arm,
                       failed: bool)
  {
    function Get(side: Side): Dir {
      if side.ToBackend? then toBackend else toClient
    }

    function Put(side: Side, d: Dir): Conn {
      if side.ToBackend? then this.(toBackend := d) else this.(toClient := d)
    }

    function ArmOf(side: Side): Arm {
      if side.ToBackend? then backendArm else clientArm
    }

    function SetArm(side: Side, a: Arm): Conn {
      if side.ToBackend? then this.(backendArm := a) else this.(clientArm := a)
    }
  }

  /** A connection as the accept branch leaves it. */
  const Accepted := Conn(true, false, None, true, 0, EmptyDir, EmptyDir, Armed(false), Unregistered, false)

  /** The shared statistics; the maps hold the per-backend ones. */
  datatype Counters = Counters(active: int, bytesIn: int, bytesOut: int,
                               connsOf: map<nat, int>, inOf: map<nat, int>, outOf: map<nat, int>)

  datatype Link = Link(c: Conn, n: Counters)

  datatype Outcome = More | Ended | Error
  datatype Handled = Handled(x: Link, outcome: Outcome)

  function Add(m: map<nat, int>, b: Option<nat>, k: int): map<nat, int> {
    if b.Some? then m[b.value := At(m, b.value) + k] else m
  }

  function CountBytes(n: Counters, side: Side, b: Option<nat>, k: nat): Counters {
    if side.ToBackend?
    then n.(bytesIn := n.bytesIn + k, inOf := Add(n.inOf, b, k))
    else n.(bytesOut := n.bytesOut + k, outOf := Add(n.outOf, b, k))
  }

  // ---------------------------------------------------------------- the handlers

  /** How many of the first pending bytes one `send` takes. */
  function Taken(r: SendResult, len: nat): (k: nat)
    ensures k <= len
  {
    if r.Took? then Min(r.n, len) else 0
  }

  /** The inner send loop: bytes taken before the socket refuses, and whether it failed. */
  function Direct(left: nat, sends: seq<SendResult>): (r: (nat, bool))
    ensures r.0 <= left
  {
    if left == 0 || sends == [] || sends[0].Refused? then (0, false)
    else if sends[0].Failed? then (0, true)
    else
      var k := Taken(sends[0], left);
      var rest := Direct(left - k, sends[1..]);
      (k + rest.0, rest.1)
  }

  function FlushDir(d: Dir, k: nat): Dir
    requires k <= |d.pending|
  {
    d.(pending := d.pending[k..], delivered := d.delivered + d.pending[..k], counted := d.counted + k)
  }

  function Flush(x: Link, side: Side, r: SendResult): Link {
    var k := Taken(r, |x.c.Get(side).pending|);
    var d := FlushDir(x.c.Get(side), k);
    var c1 := x.c.Put(side, d);
    Link(if d.pending == [] then c1.SetArm(side, Armed(false)) else c1,
         if k > 0 then CountBytes(x.n, side, x.c.backend, k) else x.n)
  }

  /** Only the client-to-backend handler opens a backend connection, on its first bytes. */
  function EnsureBackend(x: Link, side: Side, connect: Connect): (Link, bool) {
    if x.c.backendOpen then (x, true)
    else if side.ToClient? || connect.NoBackend? || connect.ConnectFailed? then (x, false)
    else
      var c1 := x.c.(backendOpen := true, backend := Some(connect.b));
      var n1 := x.n.(connsOf := Add(x.n.connsOf, Some(connect.b), 1));
      if connect.RegisterFailed? then (Link(c1, n1), false)
      else (Link(c1.(backendArm := Armed(false)), n1), true)
  }

  function ForwardDir(d: Dir, data: seq<int>, k: nat, cap: nat): Dir
    requires k <= |data|
  {
    Dir(d.pending + data[k..], cap, d.received + data, d.delivered + data[..k], d.counted + k,
        d.overtaken || (k > 0 && d.pending != []))
  }

  function Forward(x: Link, side: Side, r: Round): (Link, bool) {
    var d := x.c.Get(side);
    var (k, broken) := Direct(|r.data|, r.sends);
    var need := |d.pending| + |r.data| - k;
    if broken || (k < |r.data| && d.capacity < need && !r.canGrow) then
      (Link(x.c.Put(side, d.(received := d.received + r.data, delivered := d.delivered + r.data[..k])), x.n), false)
    else
      var grow := k < |r.data| && d.capacity < need;
      var c1 := x.c.Put(side, ForwardDir(d, r.data, k, if grow then 2 * need else d.capacity));
      (Link(if k < |r.data| then c1.SetArm(side, Armed(true)) else c1,
            CountBytes(x.n, side, x.c.backend, k)), true)
  }

  function Ending(end: RecvEnd): Outcome {
    match end
    case Drained => More
    case PeerClosed => Ended
    case RecvFailed => Error
  }

  /** The read loop. Reading from the backend descriptor -1 is an error. */
  function ReadLoop(x: Link, side: Side, connect: Connect, rounds: seq<Round>, end: RecvEnd): Handled
    decreases |rounds|
  {
    if side.ToClient? && !x.c.backendOpen then Handled(x, Error)
    else if rounds == [] then Handled(x, Ending(end))
    else
      var (x1, up) := EnsureBackend(x, side, connect);
      if !up then Handled(x1, Error) else
      var (x2, ok) := Forward(x1, side, rounds[0]);
      if !ok then Handled(x2, Error) else
      ReadLoop(x2, side, connect, rounds[1..], end)
  }

  predicate Flushes(c: Conn, side: Side) {
    c.Get(side).pending != [] && (side.ToBackend? ==> c.backendOpen)
  }

  function Handle(x: Link, side: Side, s: Script): Handled {
    if !Flushes(x.c, side) then ReadLoop(x, side, s.connect, s.rounds, s.end)
    else if s.flush.Failed? then Handled(x, Error)
    else ReadLoop(Flush(x, side, s.flush), side, s.connect, s.rounds, s.end)
  }

  // ---------------------------------------------------------------- what holds of a connection

  ghost predicate InOrder(d: Dir) {
    d.delivered + d.pending == d.received
  }

  /** Some delivered byte is not the byte received at its place. */
  ghost predicate Displaced(d: Dir) {
    exists i :: 0 <= i < |d.delivered| && i < |d.received| && d.delivered[i] != d.received[i]
  }

  ghost predicate Conserved(d: Dir) {
    && multiset(d.received) == multiset(d.delivered) + multiset(d.pending)
    && d.counted == |d.delivered|
    && |d.pending| <= d.capacity
  }

  /** The bytes are in order exactly when none was written past a waiting one; distinct
      tokens make a misplaced byte visible. */
  ghost predicate Ordered(d: Dir) {
    && (!d.overtaken ==> InOrder(d))
    && (d.overtaken && NoDup(d.received) ==> Displaced(d))
  }

  ghost predicate Intact(d: Dir) {
    Conserved(d) && Ordered(d)
  }

  /** Bytes wait for a backend only once there is one. */
  ghost predicate Open(c: Conn) {
    && c.clientOpen && c.linked && c.frees == 0 && !c.failed
    && (c.backendOpen <==> c.backend.Some?)
    && (c.backendOpen <==> !c.backendArm.Unregistered?)
    && !c.clientArm.Unregistered?
    && (!c.backendOpen ==> c.toBackend == EmptyDir && c.toClient == EmptyDir)
    && Intact(c.toBackend) && Intact(c.toClient)
  }

  /** The socket written to by `side` will wake the loop for input, and for output exactly
      when bytes wait for it. */
  ghost predicate Ready(c: Conn, side: Side) {
    (side.ToBackend? && !c.backendOpen) || c.ArmOf(side) == Armed(c.Get(side).pending != [])
  }

  /** Everything one handler call may not touch. */
  ghost predicate SameElsewhere(c: Conn, c': Conn, side: Side) {
    && c'.clientOpen == c.clientOpen && c'.linked == c.linked && c'.frees == c.frees && c'.failed == c.failed
    && (side.ToBackend? ==> c'.toClient == c.toClient && c'.clientArm == c.clientArm)
    && (side.ToClient? ==> c'.toBackend == c.toBackend && c'.backendArm == c.backendArm)
    && (c.backendOpen ==> c'.backendOpen && c'.backend == c.backend)
  }

  // ---------------------------------------------------------------- statistics as sums

  datatype Metric = OpenConns | OpenOn(b: nat) | Bytes(side: Side) | BytesOf(side: Side, b: nat)

  function Measure(m: Metric, c: Conn): int {
    match m
    case OpenConns => if c.clientOpen then 1 else 0
    case OpenOn(b) => if c.clientOpen && c.backend == Some(b) then 1 else 0
    case Bytes(side) => c.Get(side).counted
    case BytesOf(side, b) => if c.backend == Some(b) then c.Get(side).counted else 0
  }

  function Count(n: Counters, m: Metric): int {
    match m
    case OpenConns => n.active
    case OpenOn(b) => At(n.connsOf, b)
    case Bytes(side) => if side.ToBackend? then n.bytesIn else n.bytesOut
    case BytesOf(side, b) => At(if side.ToBackend? then n.inOf else n.outOf, b)
  }

  /** Between two moments every counter moved by what the connection's own measure moved. */
  ghost predicate Charged(x: Link, x': Link) {
    forall m :: Count(x'.n, m) - Count(x.n, m) == Measure(m, x'.c) - Measure(m, x.c)
  }

  // ---------------------------------------------------------------- proofs about one handler call

  lemma FlushKeepsOrder(d: Dir, k: nat)
    requires Ordered(d) && k <= |d.pending|
    ensures Ordered(FlushDir(d, k))
  {
    var d1 := FlushDir(d, k);
    assert d1.delivered + d1.pending == d.delivered + d.pending;
    if d.overtaken && NoDup(d.received) {
      var i :| 0 <= i < |d.delivered| && i < |d.received| && d.delivered[i] != d.received[i];
      assert d1.delivered[i] == d.delivered[i];
    }
  }

  lemma FlushKeepsDir(d: Dir, k: nat)
    requires Intact(d) && k <= |d.pending|
    ensures Intact(FlushDir(d, k))
  {
    assert d.pending == d.pending[..k] + d.pending[k..];
    FlushKeepsOrder(d, k);
  }

  lemma NoDupPrefix(a: seq<int>, b: seq<int>)
    requires NoDup(a + b)
    ensures NoDup(a)
  {
    forall i, j | 0 <= i < j < |a| ensures a[i] != a[j] {
      assert (a + b)[i] == a[i] && (a + b)[j] == a[j];
    }
  }

  /** A byte written past a waiting one is out of place, and stays so. */
  lemma OvertakingDisplaces(d: Dir, data: seq<int>, k: nat, cap: nat)
    requires Ordered(d) && k <= |data|
    requires ForwardDir(d, data, k, cap).overtaken && NoDup(d.received + data)
    ensures Displaced(ForwardDir(d, data, k, cap))
  {
    var d1 := ForwardDir(d, data, k, cap);
    var i := |d.delivered|;
    if d.overtaken {
      NoDupPrefix(d.received, data);
      i :| 0 <= i < |d.delivered| && i < |d.received| && d.delivered[i] != d.received[i];
    } else {
      assert d1.received[i] == d.pending[0] && d1.received[|d.received|] == data[0];
    }
    assert d1.delivered[i] != d1.received[i];
  }

  lemma ForwardKeepsOrder(d: Dir, data: seq<int>, k: nat, cap: nat)
    requires Ordered(d) && k <= |data|
    ensures Ordered(ForwardDir(d, data, k, cap))
  {
    var d1 := ForwardDir(d, data, k, cap);
    if !d1.overtaken {
      assert data == data[..k] + data[k..];
      assert d1.delivered + d1.pending == d.delivered + d.pending + data;
    } else if NoDup(d1.received) {
      OvertakingDisplaces(d, data, k, cap);
    }
  }

  lemma ForwardKeepsDir(d: Dir, data: seq<int>, k: nat, cap: nat)
    requires Intact(d) && k <= |data| && |d.pending| + |data| - k <= cap
    ensures Intact(ForwardDir(d, data, k, cap))
  {
    assert data == data[..k] + data[k..];
    ForwardKeepsOrder(d, data, k, cap);
  }

  lemma FlushCharges(x: Link, side: Side, r: SendResult)
    ensures Charged(x, Flush(x, side, r))
  {
  }

  lemma FlushKeeps(x: Link, side: Side, r: SendResult)
    requires Open(x.c) && Flushes(x.c, side)
    ensures var y := Flush(x, side, r);
      Charged(x, y) && Open(y.c) && SameElsewhere(x.c, y.c, side) && y.c.backendOpen
      && (Ready(x.c, side) ==> Ready(y.c, side))
  {
    var k := Taken(r, |x.c.Get(side).pending|);
    FlushKeepsDir(x.c.Get(side), k);
    FlushCharges(x, side, r);
    match side case ToBackend => case ToClient =>
  }

  lemma EnsureBackendKeeps(x: Link, side: Side, connect: Connect)
    requires Open(x.c)
    ensures var (y, up) := EnsureBackend(x, side, connect);
      Charged(x, y) && SameElsewhere(x.c, y.c, side) && (up ==> Open(y.c) && y.c.backendOpen)
      && (up && Ready(x.c, side) ==> Ready(y.c, side))
  {
  }

  lemma ForwardCharges(x: Link, side: Side, r: Round)
    ensures Charged(x, Forward(x, side, r).0)
  {
  }

  lemma ForwardKeeps(x: Link, side: Side, r: Round)
    requires Open(x.c) && x.c.backendOpen
    ensures var (y, ok) := Forward(x, side, r);
      Charged(x, y) && SameElsewhere(x.c, y.c, side) && (ok ==> Open(y.c) && y.c.backendOpen)
      && (ok && Ready(x.c, side) ==> Ready(y.c, side))
  {
    var (y, ok) := Forward(x, side, r);
    if ok {
      var d := x.c.Get(side);
      var k := Direct(|r.data|, r.sends).0;
      var cap := y.c.Get(side).capacity;
      ForwardKeepsDir(d, r.data, k, cap);
    }
    ForwardCharges(x, side, r);
    match side case ToBackend => case ToClient =>
  }

  lemma {:induction false} ReadLoopKeeps(x: Link, side: Side, connect: Connect, rounds: seq<Round>, end: RecvEnd)
    requires Open(x.c)
    ensures var h := ReadLoop(x, side, connect, rounds, end);
      Charged(x, h.x) && SameElsewhere(x.c, h.x.c, side) && (!h.outcome.Error? ==> Open(h.x.c))
      && (!h.outcome.Error? && Ready(x.c, side) ==> Ready(h.x.c, side))
    decreases |rounds|
  {
    if !(side.ToClient? && !x.c.backendOpen) && rounds != [] {
      EnsureBackendKeeps(x, side, connect);
      var (x1, up) := EnsureBackend(x, side, connect);
      if up {
        ForwardKeeps(x1, side, rounds[0]);
        ForwardCharges(x1, side, rounds[0]);
        var (x2, ok) := Forward(x1, side, rounds[0]);
        if ok {
          ReadLoopKeeps(x2, side, connect, rounds[1..], end);
        }
      }
    }
  }

  lemma {:induction false} ReadLoopKeepsFrees(x: Link, side: Side, connect: Connect, rounds: seq<Round>, end: RecvEnd)
    ensures ReadLoop(x, side, connect, rounds, end).x.c.frees == x.c.frees
    decreases |rounds|
  {
    if !(side.ToClient? && !x.c.backendOpen) && rounds != [] {
      var (x1, up) := EnsureBackend(x, side, connect);
      if up {
        var (x2, ok) := Forward(x1, side, rounds[0]);
        if ok {
          ReadLoopKeepsFrees(x2, side, connect, rounds[1..], end);
        }
      }
    }
  }

  lemma HandleKeepsFrees(x: Link, side: Side, s: Script)
    ensures Handle(x, side, s).x.c.frees == x.c.frees
  {
    ReadLoopKeepsFrees(x, side, s.connect, s.rounds, s.end);
    ReadLoopKeepsFrees(Flush(x, side, s.flush), side, s.connect, s.rounds, s.end);
  }

  /** One handler call, for every behaviour of the sockets: unless it reports an error, both
      streams stay intact and the socket it writes to stays armed as it must be; it touches
      nothing of the other direction, and the statistics move by exactly what was delivered. */
  lemma HandleKeeps(x: Link, side: Side, s: Script)
    requires Open(x.c)
    ensures var h := Handle(x, side, s);
      Charged(x, h.x) && SameElsewhere(x.c, h.x.c, side) && (!h.outcome.Error? ==> Open(h.x.c))
      && (!h.outcome.Error? && Ready(x.c, side) ==> Ready(h.x.c, side))
  {
    if !Flushes(x.c, side) {
      ReadLoopKeeps(x, side, s.connect, s.rounds, s.end);
    } else if !s.flush.Failed? {
      FlushKeeps(x, side, s.flush);
      FlushCharges(x, side, s.flush);
      ReadLoopKeeps(Flush(x, side, s.flush), side, s.connect, s.rounds, s.end);
    }
  }

  // ---------------------------------------------------------------- order within one call

  /** Some round writes new bytes while older ones are still waiting. */
  predicate Overtakes(waiting: bool, rounds: seq<Round>)
    decreases |rounds|
  {
    rounds != [] &&
    var k := Direct(|rounds[0].data|, rounds[0].sends).0;
    (waiting && k > 0) || Overtakes(waiting || k < |rounds[0].data|, rounds[1..])
  }

  /** Whether bytes wait for the socket when the read loop begins. */
  predicate WaitingAfterFlush(c: Conn, side: Side, flush: SendResult) {
    Taken(flush, |c.Get(side).pending|) < |c.Get(side).pending|
  }

  /** What one round leaves waiting, and whether it overtook. */
  lemma ForwardTracks(x: Link, side: Side, r: Round)
    requires Forward(x, side, r).1
    ensures var d, e := x.c.Get(side), Forward(x, side, r).0.c.Get(side); var k := Direct(|r.data|, r.sends).0;
      && (e.overtaken <==> d.overtaken || (d.pending != [] && k > 0))
      && (e.pending != [] <==> d.pending != [] || k < |r.data|)
  {
    match side case ToBackend => case ToClient =>
  }

  lemma {:induction false} OvertakenTracks(x: Link, side: Side, connect: Connect, rounds: seq<Round>, end: RecvEnd)
    requires Open(x.c) && !ReadLoop(x, side, connect, rounds, end).outcome.Error?
    ensures var d := x.c.Get(side);
      ReadLoop(x, side, connect, rounds, end).x.c.Get(side).overtaken
      <==> d.overtaken || Overtakes(d.pending != [], rounds)
    decreases |rounds|
  {
    if rounds != [] {
      EnsureBackendKeeps(x, side, connect);
      var (x1, up) := EnsureBackend(x, side, connect);
      ForwardKeeps(x1, side, rounds[0]);
      ForwardTracks(x1, side, rounds[0]);
      var (x2, ok) := Forward(x1, side, rounds[0]);
      OvertakenTracks(x2, side, connect, rounds[1..], end);
    }
  }

  lemma OvertakenByCall(x: Link, side: Side, s: Script)
    requires Open(x.c) && !x.c.Get(side).overtaken && !Handle(x, side, s).outcome.Error?
    ensures Handle(x, side, s).x.c.Get(side).overtaken
       <==> Overtakes(WaitingAfterFlush(x.c, side, s.flush), s.rounds)
  {
    if Flushes(x.c, side) {
      FlushKeeps(x, side, s.flush);
      OvertakenTracks(Flush(x, side, s.flush), side, s.connect, s.rounds, s.end);
    } else {
      OvertakenTracks(x, side, s.connect, s.rounds, s.end);
    }
  }

  lemma InOrderExactly(d: Dir)
    requires Intact(d) && NoDup(d.received)
    ensures InOrder(d) <==> !d.overtaken
  {
    if d.overtaken {
      var i :| 0 <= i < |d.delivered| && i < |d.received| && d.delivered[i] != d.received[i];
      assert (d.delivered + d.pending)[i] == d.delivered[i];
    }
  }

  /** Order is kept by a handler call exactly when no new byte is written past a waiting one,
      a condition on the socket's answers alone. */
  lemma OrderExactly(x: Link, side: Side, s: Script)
    requires Open(x.c) && !x.c.Get(side).overtaken && !Handle(x, side, s).outcome.Error?
    requires NoDup(Handle(x, side, s).x.c.Get(side).received)
    ensures InOrder(Handle(x, side, s).x.c.Get(side))
       <==> !Overtakes(WaitingAfterFlush(x.c, side, s.flush), s.rounds)
  {
    HandleKeeps(x, side, s);
    OvertakenByCall(x, side, s);
    InOrderExactly(Handle(x, side, s).x.c.Get(side));
  }
}
