/**
 The single-worker event loop of src/network/lb_net.c over all its connections: accept,
 dispatch, close, re-arm and deferred reclamation, for every sequence of event batches the
 kernel may deliver.
 */
module RelayRun {
  import opened Common
  import opened RelaySpec

  /** One slot of the ring stays empty. */
  const QUEUE_CAPACITY: nat := 1023

  /** `touchedFreed` records that an event was dispatched to a connection already freed. */
  datatype World = World(conns: seq<Conn>, queue: seq<nat>, n: Counters, touchedFreed: bool)

  const Start := World([], [], Counters(0, 0, 0, map[], map[], map[]), false)

  datatype AcceptResult = NoClient | NoMemory | NotRegistered | NewClient

  /** A socket is named by the direction that writes to it: `ToClient` is the client socket. */
  datatype Event =
    | Listen(a: AcceptResult)
    | Socket(id: nat, side: Side, hup: bool, out: bool, input: bool, script: Script)

  function Opposite(side: Side): Side {
    if side.ToBackend? then ToClient else ToBackend
  }

  // ---------------------------------------------------------------- the loop body

  function Accept(w: World, a: AcceptResult): World {
    if a.NewClient? then w.(conns := w.conns + [Accepted], n := w.n.(active := w.n.active + 1)) else w
  }

  function Retire(w: World, id: nat): World
    requires id < |w.conns|
  {
    var c := w.conns[id];
    var full := |w.queue| >= QUEUE_CAPACITY;
    var c1 := c.(clientOpen := false, backendOpen := false, linked := false,
                 clientArm := Unregistered, backendArm := Unregistered,
                 frees := if full then c.frees + 1 else c.frees);
    w.(conns := w.conns[id := c1],
       queue := if full then w.queue else w.queue + [id],
       n := w.n.(active := w.n.active - 1, connsOf := Add(w.n.connsOf, c.backend, -1)))
  }

  function Rearm(w: World, id: nat, side: Side): World
    requires id < |w.conns|
  {
    var c := w.conns[id];
    if side.ToBackend? && !c.backendOpen then w
    else w.(conns := w.conns[id := c.SetArm(side, Armed(c.Get(side).pending != []))])
  }

  /** Which handler an event calls: writable flushes to the socket, readable reads from it. */
  function Handler(e: Event): Side
    requires e.Socket?
  {
    if e.out then e.side else Opposite(e.side)
  }

  predicate Skipped(c: Conn, side: Side) {
    !c.linked || (if side.ToBackend? then !c.backendOpen else !c.clientOpen)
  }

  function Dispatch(w: World, e: Event): World {
    if e.Listen? then Accept(w, e.a)
    else if e.id >= |w.conns| then w
    else if w.conns[e.id].frees > 0 then w.(touchedFreed := true)
    else if Skipped(w.conns[e.id], e.side) then w
    else if e.hup then Retire(w, e.id)
    else if !e.out && !e.input then Rearm(w, e.id, e.side)
    else
      var h := Handle(Link(w.conns[e.id], w.n), Handler(e), e.script);
      var w1 := w.(conns := w.conns[e.id := h.x.c.(failed := h.outcome.Error?)], n := h.x.n);
      if h.outcome.More? then Rearm(w1, e.id, e.side) else Retire(w1, e.id)
  }

  function Process(w: World, evs: seq<Event>): World
    decreases |evs|
  {
    if evs == [] then w else Process(Dispatch(w, evs[0]), evs[1..])
  }

  function FreeOldest(w: World): World
    requires w.queue != []
  {
    var id := w.queue[0];
    var w1 := w.(queue := w.queue[1..]);
    if id < |w.conns| then w1.(conns := w.conns[id := w.conns[id].(frees := w.conns[id].frees + 1)]) else w1
  }

  function Drain(w: World): World
    decreases |w.queue|
  {
    if w.queue == [] then w else Drain(FreeOldest(w))
  }

  function Disarm(w: World, e: Event): World {
    if e.Socket? && e.id < |w.conns|
    then w.(conns := w.conns[e.id := w.conns[e.id].SetArm(e.side, Disarmed)]) else w
  }

  /** `epoll_wait` disarms the one-shot sockets it reports. */
  function Fetch(w: World, evs: seq<Event>): World
    decreases |evs|
  {
    if evs == [] then w else Fetch(Disarm(w, evs[0]), evs[1..])
  }

  /** Two reports of one descriptor: the listening one, or the same socket of a connection. */
  predicate SameSource(a: Event, b: Event) {
    if a.Listen? then b.Listen? else b.Socket? && a.id == b.id && a.side == b.side
  }

  /** What one `epoll_wait` may report: each descriptor at most once, open and armed sockets only,
      and writability only when asked for. */
  ghost predicate Deliverable(w: World, evs: seq<Event>) {
    && (forall j, k :: 0 <= j < k < |evs| ==> !SameSource(evs[j], evs[k]))
    && (forall k :: 0 <= k < |evs| && evs[k].Socket? ==>
         && evs[k].id < |w.conns| && w.conns[evs[k].id].clientOpen
         && w.conns[evs[k].id].ArmOf(evs[k].side).Armed?
         && (evs[k].out ==> w.conns[evs[k].id].ArmOf(evs[k].side).out))
  }

  /** From one `epoll_wait` to the next. */
  function Turn(w: World, evs: seq<Event>): World {
    Drain(Process(Fetch(w, evs), evs))
  }

  function Run(w: World, batches: seq<seq<Event>>): World
    decreases |batches|
  {
    if batches == [] then w else Run(Turn(w, batches[0]), batches[1..])
  }

  ghost predicate Possible(w: World, batches: seq<seq<Event>>)
    decreases |batches|
  {
    batches != [] ==> Deliverable(w, batches[0]) && Possible(Turn(w, batches[0]), batches[1..])
  }

  // ---------------------------------------------------------------- invariants

  function Total(m: Metric, cs: seq<Conn>): int {
    if cs == [] then 0 else Total(m, cs[..|cs| - 1]) + Measure(m, cs[|cs| - 1])
  }

  /** Every statistic is the sum of what the connections account for. */
  ghost predicate Balanced(w: World) {
    forall m :: Count(w.n, m) == Total(m, w.conns)
  }

  ghost predicate Shut(c: Conn) {
    !c.backendOpen && !c.linked && c.frees <= 1 && (!c.failed ==> Intact(c.toBackend) && Intact(c.toClient))
  }

  ghost predicate ConnOk(w: World, i: nat)
    requires i < |w.conns|
  {
    var c := w.conns[i];
    if c.clientOpen then Open(c) && i !in w.queue
    else Shut(c) && (c.frees == 0 <==> i in w.queue)
  }

  ghost predicate QueueOk(w: World) {
    NoDup(w.queue) && |w.queue| <= QUEUE_CAPACITY && (forall k :: 0 <= k < |w.queue| ==> w.queue[k] < |w.conns|)
  }

  ghost predicate Tidy(w: World) {
    Balanced(w) && QueueOk(w) && forall i :: 0 <= i < |w.conns| ==> ConnOk(w, i)
  }

  ghost predicate Touches(e: Event, id: nat, side: Side) {
    e.Socket? && e.id == id && e.side == side
  }

  ghost predicate Due(evs: seq<Event>, id: nat, side: Side) {
    exists k :: 0 <= k < |evs| && Touches(evs[k], id, side)
  }

  /** In the middle of a batch a socket may be disarmed only if its event is still to come. */
  ghost predicate Awake(w: World, rest: seq<Event>) {
    forall id, side :: 0 <= id < |w.conns| && w.conns[id].clientOpen ==>
      Ready(w.conns[id], side) || Due(rest, id, side)
  }

  ghost predicate OthersReady(w: World, id: nat, rest: seq<Event>) {
    forall i, side :: 0 <= i < |w.conns| && i != id && w.conns[i].clientOpen ==>
      Ready(w.conns[i], side) || Due(rest, i, side)
  }

  /** Writability is only ever reported for a client socket whose backend is connected, so no
      handler reads from a backend that does not exist. */
  ghost predicate Sane(w: World, rest: seq<Event>) {
    forall k :: 0 <= k < |rest| && rest[k].Socket? ==>
      && rest[k].id < |w.conns|
      && (w.conns[rest[k].id].clientOpen && (rest[k].out || rest[k].side.ToBackend?) ==> w.conns[rest[k].id].backendOpen)
  }

  ghost predicate InBatch(w: World, rest: seq<Event>) {
    Tidy(w) && Awake(w, rest) && Sane(w, rest)
  }

  /** What holds whenever the worker waits for events. */
  ghost predicate AtWait(w: World) {
    Tidy(w) && w.queue == [] && forall id, side :: 0 <= id < |w.conns| && w.conns[id].clientOpen ==> Ready(w.conns[id], side)
  }

  // ---------------------------------------------------------------- proofs

  lemma {:induction false} TotalUpdate(m: Metric, cs: seq<Conn>, i: nat, c: Conn)
    requires i < |cs|
    ensures Total(m, cs[i := c]) == Total(m, cs) - Measure(m, cs[i]) + Measure(m, c)
  {
    var last := |cs| - 1;
    if i < last {
      TotalUpdate(m, cs[..last], i, c);
      assert cs[i := c][..last] == cs[..last][i := c];
    } else {
      assert cs[i := c][..last] == cs[..last];
    }
  }

  /** Replacing one connection keeps the books if the counters move by its own measures. */
  lemma BalanceKept(w: World, id: nat, c: Conn, n: Counters)
    requires Balanced(w) && id < |w.conns|
    requires Charged(Link(w.conns[id], w.n), Link(c, n))
    ensures Balanced(w.(conns := w.conns[id := c], n := n))
  {
    forall m ensures Count(n, m) == Total(m, w.conns[id := c]) {
      TotalUpdate(m, w.conns, id, c);
      var x, x' := Link(w.conns[id], w.n), Link(c, n);
      assert Count(x'.n, m) - Count(x.n, m) == Measure(m, x'.c) - Measure(m, x.c);
      assert Count(w.n, m) == Total(m, w.conns);
    }
  }

  lemma AcceptKeeps(w: World, a: AcceptResult, rest: seq<Event>)
    requires InBatch(w, rest)
    ensures InBatch(Accept(w, a), rest)
  {
    if a.NewClient? {
      var w1 := Accept(w, a);
      forall m ensures Count(w1.n, m) == Total(m, w1.conns) {
        assert w1.conns[..|w.conns|] == w.conns;
        assert Count(w.n, m) == Total(m, w.conns);
      }
      forall i | 0 <= i < |w1.conns| ensures ConnOk(w1, i) {
        if i < |w.conns| { assert ConnOk(w, i); }
      }
    }
  }

  lemma RetireCharges(w: World, id: nat)
    requires id < |w.conns| && w.conns[id].clientOpen
    ensures Charged(Link(w.conns[id], w.n), Link(Retire(w, id).conns[id], Retire(w, id).n))
  {
  }

  lemma RetireBalanced(w: World, id: nat)
    requires Balanced(w) && id < |w.conns| && w.conns[id].clientOpen
    ensures Balanced(Retire(w, id))
  {
    var w1 := Retire(w, id);
    RetireCharges(w, id);
    BalanceKept(w, id, w1.conns[id], w1.n);
    assert w1.conns == w.conns[id := w1.conns[id]];
  }

  lemma RetireTidies(w: World, id: nat, c: Conn, n: Counters)
    requires Tidy(w) && id < |w.conns| && w.conns[id].clientOpen && c.clientOpen && c.frees == 0
    requires !c.failed ==> Intact(c.toBackend) && Intact(c.toClient)
    ensures var w1 := Retire(w.(conns := w.conns[id := c], n := n), id);
      QueueOk(w1) && forall i :: 0 <= i < |w1.conns| ==> ConnOk(w1, i)
  {
    var w1 := Retire(w.(conns := w.conns[id := c], n := n), id);
    assert ConnOk(w, id);
    forall i | 0 <= i < |w1.conns| ensures ConnOk(w1, i) {
      assert ConnOk(w, i);
    }
  }

  lemma RetireSpares(w: World, id: nat, c: Conn, n: Counters, rest: seq<Event>)
    requires id < |w.conns| && c.clientOpen && OthersReady(w, id, rest) && Sane(w, rest)
    ensures var w1 := Retire(w.(conns := w.conns[id := c], n := n), id); Awake(w1, rest) && Sane(w1, rest)
  {
  }

  /** Closing connection `id`, which a handler may have left in any state `c`, keeps the books
      and leaves every other connection alone. */
  lemma RetireKeeps(w: World, id: nat, c: Conn, n: Counters, rest: seq<Event>)
    requires Tidy(w) && id < |w.conns| && w.conns[id].clientOpen
    requires Charged(Link(w.conns[id], w.n), Link(c, n)) && c.clientOpen && c.frees == 0
    requires !c.failed ==> Intact(c.toBackend) && Intact(c.toClient)
    requires OthersReady(w, id, rest) && Sane(w, rest)
    ensures InBatch(Retire(w.(conns := w.conns[id := c], n := n), id), rest)
  {
    var w0 := w.(conns := w.conns[id := c], n := n);
    BalanceKept(w, id, c, n);
    RetireBalanced(w0, id);
    RetireTidies(w, id, c, n);
    RetireSpares(w, id, c, n, rest);
  }

  /** Putting back an open connection whose re-armed socket is ready. */
  lemma ReplaceKeeps(w: World, id: nat, c: Conn, n: Counters, rest: seq<Event>)
    requires Tidy(w) && id < |w.conns| && w.conns[id].clientOpen && Sane(w, rest)
    requires Open(c) && (w.conns[id].backendOpen ==> c.backendOpen)
    requires Charged(Link(w.conns[id], w.n), Link(c, n))
    requires OthersReady(w, id, rest)
    requires forall side :: Ready(c, side) || Due(rest, id, side)
    ensures InBatch(w.(conns := w.conns[id := c], n := n), rest)
  {
    BalanceKept(w, id, c, n);
    var w1 := w.(conns := w.conns[id := c], n := n);
    forall i | 0 <= i < |w1.conns| ensures ConnOk(w1, i) {
      assert ConnOk(w, i);
    }
  }

  lemma DueLater(evs: seq<Event>, id: nat, side: Side)
    requires evs != [] && Due(evs, id, side) && !Touches(evs[0], id, side)
    ensures Due(evs[1..], id, side)
  {
    var k :| 0 <= k < |evs| && Touches(evs[k], id, side);
    assert Touches(evs[1..][k - 1], id, side);
  }

  /** Re-arming after a handler call, in one step. */
  function Rearmed(c: Conn, side: Side): Conn {
    if side.ToBackend? && !c.backendOpen then c else c.SetArm(side, Armed(c.Get(side).pending != []))
  }

  lemma RearmedKeeps(c: Conn, side: Side)
    requires Open(c)
    ensures Open(Rearmed(c, side)) && Ready(Rearmed(c, side), side)
    ensures Ready(c, Opposite(side)) ==> Ready(Rearmed(c, side), Opposite(side))
    ensures forall m :: Measure(m, Rearmed(c, side)) == Measure(m, c)
  {
  }

  lemma OthersAwake(w: World, evs: seq<Event>, id: nat)
    requires evs != [] && Awake(w, evs) && (evs[0].Socket? ==> evs[0].id == id)
    ensures OthersReady(w, id, evs[1..])
  {
    forall i, side | 0 <= i < |w.conns| && i != id && w.conns[i].clientOpen
      ensures Ready(w.conns[i], side) || Due(evs[1..], i, side)
    {
      if !Ready(w.conns[i], side) { DueLater(evs, i, side); }
    }
  }

  lemma SaneLater(w: World, evs: seq<Event>)
    requires evs != [] && Sane(w, evs)
    ensures Sane(w, evs[1..])
  {
    forall k | 0 <= k < |evs[1..]| && evs[1..][k].Socket?
      ensures evs[1..][k].id < |w.conns|
      ensures w.conns[evs[1..][k].id].clientOpen && (evs[1..][k].out || evs[1..][k].side.ToBackend?) ==> w.conns[evs[1..][k].id].backendOpen
    {
      assert evs[1..][k] == evs[k + 1];
    }
  }

  /** The handled connection after the handler said `More`. */
  lemma HandledAwake(c: Conn, c1: Conn, e: Event, evs: seq<Event>)
    requires evs != [] && evs[0] == e && e.Socket? && Open(c) && Open(c1)
    requires SameElsewhere(c, c1, Handler(e)) && (e.side.ToBackend? ==> c.backendOpen)
    requires Handler(e).ToClient? ==> c.backendOpen
    requires Ready(c, Handler(e)) ==> Ready(c1, Handler(e))
    requires forall side :: Ready(c, side) || Due(evs, e.id, side)
    ensures forall side :: Ready(Rearmed(c1, e.side), side) || Due(evs[1..], e.id, side)
  {
    RearmedKeeps(c1, e.side);
    var other := Opposite(e.side);
    if Ready(c, other) {
      assert Ready(c1, other);
    } else {
      DueLater(evs, e.id, other);
    }
    forall side ensures Ready(Rearmed(c1, e.side), side) || Due(evs[1..], e.id, side) {
      assert side == e.side || side == other;
    }
  }

  lemma DispatchKeeps(w: World, evs: seq<Event>)
    requires evs != [] && InBatch(w, evs)
    ensures InBatch(Dispatch(w, evs[0]), evs[1..])
  {
    var e := evs[0];
    SaneLater(w, evs);
    if e.Listen? {
      OthersAwake(w, evs, |w.conns|);
      AcceptKeeps(w, e.a, evs[1..]);
    } else {
      OthersAwake(w, evs, e.id);
      assert ConnOk(w, e.id);
      if w.conns[e.id].clientOpen {
        assert forall side :: Ready(w.conns[e.id], side) || Due(evs, e.id, side);
        SocketKeeps(w, evs);
      } else {
        assert Skipped(w.conns[e.id], e.side);
        var w1 := Dispatch(w, e);
        forall i | 0 <= i < |w1.conns| ensures ConnOk(w1, i) { assert ConnOk(w, i); }
      }
    }
  }

  lemma SocketKeeps(w: World, evs: seq<Event>)
    requires evs != [] && InBatch(w, evs) && Sane(w, evs[1..])
    requires evs[0].Socket? && w.conns[evs[0].id].clientOpen && Open(w.conns[evs[0].id])
    requires OthersReady(w, evs[0].id, evs[1..])
    requires forall side :: Ready(w.conns[evs[0].id], side) || Due(evs, evs[0].id, side)
    ensures InBatch(Dispatch(w, evs[0]), evs[1..])
  {
    var e, rest := evs[0], evs[1..];
    var c := w.conns[e.id];
    if e.hup {
      RetireKeeps(w, e.id, c, w.n, rest);
      assert w == w.(conns := w.conns[e.id := c], n := w.n);
    } else if !e.out && !e.input {
      HandledAwake(c, c, e, evs);
      RearmStep(w, e, c, w.n, rest);
      assert w == w.(conns := w.conns[e.id := c], n := w.n);
    } else {
      HandleStep(w, evs);
    }
  }

  lemma HandleStep(w: World, evs: seq<Event>)
    requires evs != [] && InBatch(w, evs) && Sane(w, evs[1..])
    requires evs[0].Socket? && w.conns[evs[0].id].clientOpen && Open(w.conns[evs[0].id])
    requires !evs[0].hup && (evs[0].out || evs[0].input)
    requires OthersReady(w, evs[0].id, evs[1..])
    requires forall side :: Ready(w.conns[evs[0].id], side) || Due(evs, evs[0].id, side)
    ensures InBatch(Dispatch(w, evs[0]), evs[1..])
  {
    var e, rest := evs[0], evs[1..];
    var c := w.conns[e.id];
    var x := Link(c, w.n);
    var h := Handle(x, Handler(e), e.script);
    HandleKeeps(x, Handler(e), e.script);
    var c1 := h.x.c.(failed := h.outcome.Error?);
    FailedIsNotMeasured(x, h.x, h.outcome.Error?);
    if h.outcome.More? {
      assert c1 == h.x.c;
      HandledAwake(c, c1, e, evs);
      RearmStep(w, e, c1, h.x.n, rest);
    } else {
      RetireKeeps(w, e.id, c1, h.x.n, rest);
    }
  }

  lemma FailedIsNotMeasured(x: Link, y: Link, failed: bool)
    requires Charged(x, y)
    ensures Charged(x, Link(y.c.(failed := failed), y.n))
  {
    forall m ensures Measure(m, y.c.(failed := failed)) == Measure(m, y.c) {}
  }

  lemma RearmStep(w: World, e: Event, c1: Conn, n: Counters, rest: seq<Event>)
    requires e.Socket? && Tidy(w) && e.id < |w.conns| && w.conns[e.id].clientOpen && Sane(w, rest)
    requires Open(c1) && (w.conns[e.id].backendOpen ==> c1.backendOpen)
    requires Charged(Link(w.conns[e.id], w.n), Link(c1, n))
    requires OthersReady(w, e.id, rest)
    requires forall side :: Ready(Rearmed(c1, e.side), side) || Due(rest, e.id, side)
    ensures InBatch(Rearm(w.(conns := w.conns[e.id := c1], n := n), e.id, e.side), rest)
  {
    RearmedKeeps(c1, e.side);
    var c2 := Rearmed(c1, e.side);
    assert Charged(Link(w.conns[e.id], w.n), Link(c2, n));
    ReplaceKeeps(w, e.id, c2, n, rest);
    assert Rearm(w.(conns := w.conns[e.id := c1], n := n), e.id, e.side) == w.(conns := w.conns[e.id := c2], n := n);
  }

  lemma {:induction false} ProcessKeeps(w: World, evs: seq<Event>)
    requires InBatch(w, evs)
    ensures InBatch(Process(w, evs), [])
    decreases |evs|
  {
    if evs != [] {
      DispatchKeeps(w, evs);
      ProcessKeeps(Dispatch(w, evs[0]), evs[1..]);
    }
  }

  /** The sockets listed in `evs` are disarmed, everything else is as in `w`. */
  ghost predicate Fetched(w: World, w1: World, evs: seq<Event>) {
    && w1.queue == w.queue && w1.n == w.n && w1.touchedFreed == w.touchedFreed && |w1.conns| == |w.conns|
    && forall i :: 0 <= i < |w.conns| ==>
         && w1.conns[i] == w.conns[i].(clientArm := w1.conns[i].clientArm, backendArm := w1.conns[i].backendArm)
         && forall side :: w1.conns[i].ArmOf(side) == w.conns[i].ArmOf(side)
              || (w1.conns[i].ArmOf(side).Disarmed? && Due(evs, i, side))
  }

  lemma {:induction false} FetchIsFetched(w: World, evs: seq<Event>)
    ensures Fetched(w, Fetch(w, evs), evs)
    decreases |evs|
  {
    if evs != [] {
      var rest := evs[1..];
      var w1 := Disarm(w, evs[0]);
      FetchIsFetched(w1, rest);
      var w2 := Fetch(w1, rest);
      forall i, side | 0 <= i < |w.conns|
        ensures w2.conns[i].ArmOf(side) == w.conns[i].ArmOf(side)
             || (w2.conns[i].ArmOf(side).Disarmed? && Due(evs, i, side))
      {
        if w2.conns[i].ArmOf(side) != w1.conns[i].ArmOf(side) {
          var k :| 0 <= k < |rest| && Touches(rest[k], i, side);
          assert Touches(evs[k + 1], i, side);
        } else if w1.conns[i].ArmOf(side) != w.conns[i].ArmOf(side) {
          assert Touches(evs[0], i, side);
        }
      }
    }
  }

  lemma {:induction false} TotalSame(m: Metric, cs: seq<Conn>, cs1: seq<Conn>)
    requires |cs| == |cs1| && forall i :: 0 <= i < |cs| ==> Measure(m, cs1[i]) == Measure(m, cs[i])
    ensures Total(m, cs1) == Total(m, cs)
  {
    if cs != [] {
      TotalSame(m, cs[..|cs| - 1], cs1[..|cs| - 1]);
    }
  }

  lemma FetchedArm(w: World, w1: World, evs: seq<Event>, i: nat, side: Side)
    requires Fetched(w, w1, evs) && Deliverable(w, evs) && i < |w.conns|
    ensures w1.conns[i].ArmOf(side).Unregistered? <==> w.conns[i].ArmOf(side).Unregistered?
  {
    if w1.conns[i].ArmOf(side) != w.conns[i].ArmOf(side) {
      var k :| 0 <= k < |evs| && Touches(evs[k], i, side);
      assert w.conns[evs[k].id].ArmOf(evs[k].side).Armed?;
    }
  }

  lemma FetchKeepsSane(w: World, w1: World, evs: seq<Event>)
    requires AtWait(w) && Deliverable(w, evs) && Fetched(w, w1, evs)
    ensures Sane(w1, evs)
  {
    forall k | 0 <= k < |evs| && evs[k].Socket?
      ensures evs[k].id < |w1.conns|
      ensures w1.conns[evs[k].id].clientOpen && (evs[k].out || evs[k].side.ToBackend?) ==> w1.conns[evs[k].id].backendOpen
    {
      var c := w.conns[evs[k].id];
      assert ConnOk(w, evs[k].id) && Ready(c, evs[k].side) && c.ArmOf(evs[k].side).Armed?;
    }
  }

  lemma FetchKeeps(w: World, evs: seq<Event>)
    requires AtWait(w) && Deliverable(w, evs)
    ensures InBatch(Fetch(w, evs), evs)
  {
    var w1 := Fetch(w, evs);
    FetchIsFetched(w, evs);
    FetchKeepsSane(w, w1, evs);
    forall m ensures Count(w1.n, m) == Total(m, w1.conns) {
      TotalSame(m, w.conns, w1.conns);
      assert Count(w.n, m) == Total(m, w.conns);
    }
    forall i | 0 <= i < |w1.conns| ensures ConnOk(w1, i) {
      assert ConnOk(w, i);
      FetchedArm(w, w1, evs, i, ToClient);
      FetchedArm(w, w1, evs, i, ToBackend);
    }
    forall id, side | 0 <= id < |w1.conns| && w1.conns[id].clientOpen ensures Ready(w1.conns[id], side) || Due(evs, id, side) {
      assert Ready(w.conns[id], side);
      assert w1.conns[id].ArmOf(side) == w.conns[id].ArmOf(side) || Due(evs, id, side);
    }
  }

  /** Draining frees each queued connection once and touches nothing else. */
  ghost predicate Emptied(w: World, w1: World) {
    && w1.queue == [] && w1.n == w.n && w1.touchedFreed == w.touchedFreed && |w1.conns| == |w.conns|
    && forall i :: 0 <= i < |w.conns| ==>
         w1.conns[i] == if i in w.queue then w.conns[i].(frees := w.conns[i].frees + 1) else w.conns[i]
  }

  lemma OldestIsFreed(w: World)
    requires QueueOk(w) && w.queue != []
    ensures QueueOk(FreeOldest(w)) && w.queue[0] !in w.queue[1..]
  {
  }

  lemma EmptiedOn(w: World, w1: World)
    requires QueueOk(w) && w.queue != [] && w.queue[0] !in w.queue[1..] && Emptied(FreeOldest(w), w1)
    ensures Emptied(w, w1)
  {
    assert forall i :: i in w.queue <==> i == w.queue[0] || i in w.queue[1..];
  }

  lemma {:induction false} DrainEmpties(w: World)
    requires QueueOk(w)
    ensures Emptied(w, Drain(w))
    decreases |w.queue|
  {
    if w.queue != [] {
      OldestIsFreed(w);
      DrainEmpties(FreeOldest(w));
      EmptiedOn(w, Drain(w));
    }
  }

  lemma DrainKeeps(w: World)
    requires InBatch(w, [])
    ensures AtWait(Drain(w))
  {
    var w1 := Drain(w);
    DrainEmpties(w);
    forall m ensures Count(w1.n, m) == Total(m, w1.conns) {
      TotalSame(m, w.conns, w1.conns);
      assert Count(w.n, m) == Total(m, w.conns);
    }
    forall i | 0 <= i < |w1.conns| ensures ConnOk(w1, i) { assert ConnOk(w, i); }
    forall id, side | 0 <= id < |w1.conns| && w1.conns[id].clientOpen ensures Ready(w1.conns[id], side) {
      assert ConnOk(w, id);
      assert Ready(w.conns[id], side);
    }
  }

  lemma TurnKeeps(w: World, evs: seq<Event>)
    requires AtWait(w) && Deliverable(w, evs)
    ensures AtWait(Turn(w, evs))
  {
    FetchKeeps(w, evs);
    ProcessKeeps(Fetch(w, evs), evs);
    DrainKeeps(Process(Fetch(w, evs), evs));
  }

  /** In every run, at every `epoll_wait`: each open socket is armed for input, and for output
      exactly when bytes wait for it; the streams are intact, the statistics exact, and each
      closed connection has been freed exactly once. */
  lemma {:induction false} RunKeeps(w: World, batches: seq<seq<Event>>)
    requires AtWait(w) && Possible(w, batches)
    ensures AtWait(Run(w, batches))
    decreases |batches|
  {
    if batches != [] {
      TurnKeeps(w, batches[0]);
      RunKeeps(Turn(w, batches[0]), batches[1..]);
    }
  }

  lemma NoLostWakeups(batches: seq<seq<Event>>, id: nat)
    requires Possible(Start, batches) && id < |Run(Start, batches).conns|
    ensures var c := Run(Start, batches).conns[id];
      if c.clientOpen then
        && c.clientArm == Armed(c.toClient.pending != [])
        && (c.backendOpen ==> c.backendArm == Armed(c.toBackend.pending != []))
      else c.frees == 1
  {
    RunKeeps(Start, batches);
    var w := Run(Start, batches);
    assert ConnOk(w, id);
    if w.conns[id].clientOpen {
      assert Ready(w.conns[id], ToClient) && Ready(w.conns[id], ToBackend);
    }
  }

  /** Over any run, a connection that met no error has lost, invented and miscounted nothing in
      either direction, and has its bytes in order exactly when none overtook a waiting one. */
  lemma RelayedStreams(batches: seq<seq<Event>>, id: nat, side: Side)
    requires Possible(Start, batches) && id < |Run(Start, batches).conns| && !Run(Start, batches).conns[id].failed
    ensures var d := Run(Start, batches).conns[id].Get(side);
      && multiset(d.received) == multiset(d.delivered) + multiset(d.pending)
      && d.counted == |d.delivered|
      && (!d.overtaken ==> d.delivered + d.pending == d.received)
      && (NoDup(d.received) ==> (d.delivered + d.pending == d.received <==> !d.overtaken))
  {
    RunKeeps(Start, batches);
    var w := Run(Start, batches);
    assert ConnOk(w, id);
    var d := w.conns[id].Get(side);
    assert Intact(d);
    if NoDup(d.received) { InOrderExactly(d); }
  }

  /** The published statistics are the sums over the connections, so none underflows. */
  lemma StatisticsExact(batches: seq<seq<Event>>, m: Metric)
    requires Possible(Start, batches)
    ensures Count(Run(Start, batches).n, m) == Total(m, Run(Start, batches).conns) >= 0
  {
    RunKeeps(Start, batches);
    var w := Run(Start, batches);
    assert Count(w.n, m) == Total(m, w.conns);
    TotalNonNegative(m, w.conns);
  }

  lemma {:induction false} TotalNonNegative(m: Metric, cs: seq<Conn>)
    ensures Total(m, cs) >= 0
  {
    if cs != [] { TotalNonNegative(m, cs[..|cs| - 1]); }
  }

  // ---------------------------------------------------------------- order over a whole run

  /** The handler call of this event writes no new byte past a waiting one: a socket that
      shortened or refused a write takes nothing more in that call. */
  ghost predicate Courteous(w: World, e: Event) {
    e.Socket? && e.id < |w.conns| ==>
      !Overtakes(WaitingAfterFlush(w.conns[e.id], Handler(e), e.script.flush), e.script.rounds)
  }

  ghost predicate CourteousBatch(w: World, evs: seq<Event>)
    decreases |evs|
  {
    evs != [] ==> Courteous(w, evs[0]) && CourteousBatch(Dispatch(w, evs[0]), evs[1..])
  }

  ghost predicate CourteousRun(w: World, batches: seq<seq<Event>>)
    decreases |batches|
  {
    batches != [] ==> CourteousBatch(Fetch(w, batches[0]), batches[0]) && CourteousRun(Turn(w, batches[0]), batches[1..])
  }

  ghost predicate Straight(c: Conn) {
    c.failed || (!c.toBackend.overtaken && !c.toClient.overtaken)
  }

  ghost predicate NoneOvertaken(w: World) {
    forall i :: 0 <= i < |w.conns| ==> Straight(w.conns[i])
  }

  lemma HandleInOrder(x: Link, side: Side, s: Script)
    requires Open(x.c) && Straight(x.c) && !Overtakes(WaitingAfterFlush(x.c, side, s.flush), s.rounds)
    ensures var h := Handle(x, side, s); Straight(h.x.c.(failed := h.outcome.Error?))
  {
    HandleKeeps(x, side, s);
    if !Handle(x, side, s).outcome.Error? {
      OvertakenByCall(x, side, s);
    }
  }

  /** Closing and re-arming do not move bytes. */
  lemma CloseOrRearmInOrder(w: World, id: nat, side: Side)
    requires id < |w.conns| && NoneOvertaken(w)
    ensures NoneOvertaken(Retire(w, id)) && NoneOvertaken(Rearm(w, id, side))
  {
    assert Straight(w.conns[id]);
  }

  lemma DispatchInOrder(w: World, evs: seq<Event>)
    requires evs != [] && InBatch(w, evs) && NoneOvertaken(w) && Courteous(w, evs[0])
    ensures NoneOvertaken(Dispatch(w, evs[0]))
  {
    var e := evs[0];
    if e.Socket? {
      assert ConnOk(w, e.id);
      if w.conns[e.id].clientOpen && (e.hup || (!e.out && !e.input)) {
        CloseOrRearmInOrder(w, e.id, e.side);
      } else if w.conns[e.id].clientOpen {
        var h := Handle(Link(w.conns[e.id], w.n), Handler(e), e.script);
        assert Straight(w.conns[e.id]);
        HandleInOrder(Link(w.conns[e.id], w.n), Handler(e), e.script);
        var w1 := w.(conns := w.conns[e.id := h.x.c.(failed := h.outcome.Error?)], n := h.x.n);
        assert NoneOvertaken(w1);
        CloseOrRearmInOrder(w1, e.id, e.side);
      }
    }
  }

  lemma {:induction false} ProcessInOrder(w: World, evs: seq<Event>)
    requires InBatch(w, evs) && NoneOvertaken(w) && CourteousBatch(w, evs)
    ensures NoneOvertaken(Process(w, evs))
    decreases |evs|
  {
    if evs != [] {
      DispatchInOrder(w, evs);
      DispatchKeeps(w, evs);
      ProcessInOrder(Dispatch(w, evs[0]), evs[1..]);
    }
  }

  /** With courteous sockets every stream of every run arrives in order. */
  lemma {:induction false} RunInOrder(w: World, batches: seq<seq<Event>>)
    requires AtWait(w) && Possible(w, batches) && NoneOvertaken(w) && CourteousRun(w, batches)
    ensures NoneOvertaken(Run(w, batches))
    decreases |batches|
  {
    if batches != [] {
      var w1 := Fetch(w, batches[0]);
      FetchIsFetched(w, batches[0]);
      FetchKeeps(w, batches[0]);
      assert NoneOvertaken(w1);
      ProcessInOrder(w1, batches[0]);
      ProcessKeeps(w1, batches[0]);
      DrainEmpties(Process(w1, batches[0]));
      TurnKeeps(w, batches[0]);
      RunInOrder(Turn(w, batches[0]), batches[1..]);
    }
  }

  lemma CourteousStreams(batches: seq<seq<Event>>, id: nat, side: Side)
    requires Possible(Start, batches) && CourteousRun(Start, batches)
    requires id < |Run(Start, batches).conns| && !Run(Start, batches).conns[id].failed
    ensures var d := Run(Start, batches).conns[id].Get(side);
      d.delivered + d.pending == d.received
  {
    RunInOrder(Start, batches);
    RelayedStreams(batches, id, side);
  }

  // ---------------------------------------------------------------- deferred reclamation

  /** No event still to come belongs to a connection that is already freed. */
  ghost predicate NoneFreed(w: World, rest: seq<Event>) {
    forall k :: 0 <= k < |rest| && rest[k].Socket? ==> rest[k].id < |w.conns| && w.conns[rest[k].id].frees == 0
  }

  /** This event makes the worker close its connection. */
  ghost predicate Closes(w: World, e: Event) {
    e.Socket? && e.id < |w.conns| && w.conns[e.id].clientOpen && !Dispatch(w, e).conns[e.id].clientOpen
  }

  ghost function CloseCount(w: World, evs: seq<Event>): nat
    decreases |evs|
  {
    if evs == [] then 0 else (if Closes(w, evs[0]) then 1 else 0) + CloseCount(Dispatch(w, evs[0]), evs[1..])
  }

  lemma DispatchFrees(w: World, e: Event, rest: seq<Event>)
    requires |w.queue| < QUEUE_CAPACITY || rest == [] || !Closes(w, e)
    requires NoneFreed(w, [e] + rest)
    requires e.Socket? ==> e.id < |w.conns| && (Skipped(w.conns[e.id], e.side) || w.conns[e.id].clientOpen)
    ensures NoneFreed(Dispatch(w, e), rest)
    ensures Dispatch(w, e).touchedFreed == w.touchedFreed
    ensures |Dispatch(w, e).queue| <= |w.queue| + if Closes(w, e) then 1 else 0
  {
    assert ([e] + rest)[0] == e;
    forall k | 0 <= k < |rest| && rest[k].Socket?
      ensures rest[k].id < |w.conns| && w.conns[rest[k].id].frees == 0
    {
      assert ([e] + rest)[k + 1] == rest[k];
    }
    if e.Socket? && !e.hup && (e.out || e.input) && !Skipped(w.conns[e.id], e.side) {
      HandleKeepsFrees(Link(w.conns[e.id], w.n), Handler(e), e.script);
    }
  }

  /** Either few events or few closes keep the queue from overflowing before the last event. */
  lemma {:induction false} ProcessFrees(w: World, evs: seq<Event>)
    requires InBatch(w, evs) && NoneFreed(w, evs) && !w.touchedFreed
    requires |w.queue| + |evs| <= QUEUE_CAPACITY + 1 || |w.queue| + CloseCount(w, evs) <= QUEUE_CAPACITY
    ensures !Process(w, evs).touchedFreed
    decreases |evs|
  {
    if evs != [] {
      assert [evs[0]] + evs[1..] == evs;
      if evs[0].Socket? { assert ConnOk(w, evs[0].id); }
      DispatchFrees(w, evs[0], evs[1..]);
      DispatchKeeps(w, evs);
      ProcessFrees(Dispatch(w, evs[0]), evs[1..]);
    }
  }

  lemma TurnTouchesNoneFreed(w: World, evs: seq<Event>)
    requires AtWait(w) && Deliverable(w, evs) && !w.touchedFreed
    requires |evs| <= QUEUE_CAPACITY + 1 || CloseCount(Fetch(w, evs), evs) <= QUEUE_CAPACITY
    ensures !Turn(w, evs).touchedFreed
  {
    FetchIsFetched(w, evs);
    var w1 := Fetch(w, evs);
    forall k | 0 <= k < |evs| && evs[k].Socket? ensures evs[k].id < |w1.conns| && w1.conns[evs[k].id].frees == 0 {
      assert ConnOk(w, evs[k].id);
    }
    FetchKeeps(w, evs);
    ProcessFrees(w1, evs);
    ProcessKeeps(w1, evs);
    DrainEmpties(Process(w1, evs));
  }

  /** No batch of the run has more than `limit` events. */
  ghost predicate BatchesWithin(batches: seq<seq<Event>>, limit: nat) {
    forall i :: 0 <= i < |batches| ==> |batches[i]| <= limit
  }

  /** No batch of the run closes more connections than the queue holds. */
  ghost predicate ClosesWithin(w: World, batches: seq<seq<Event>>)
    decreases |batches|
  {
    batches != [] ==>
      CloseCount(Fetch(w, batches[0]), batches[0]) <= QUEUE_CAPACITY && ClosesWithin(Turn(w, batches[0]), batches[1..])
  }

  /** With at most 1024 events, or at most 1023 closes, per batch no event ever reaches a freed
      connection. */
  lemma {:induction false} SafeReclamation(w: World, batches: seq<seq<Event>>)
    requires AtWait(w) && Possible(w, batches) && !w.touchedFreed
    requires BatchesWithin(batches, QUEUE_CAPACITY + 1) || ClosesWithin(w, batches)
    ensures !Run(w, batches).touchedFreed
    decreases |batches|
  {
    if batches != [] {
      TurnKeeps(w, batches[0]);
      TurnTouchesNoneFreed(w, batches[0]);
      SafeReclamation(Turn(w, batches[0]), batches[1..]);
    }
  }

  lemma {:induction false} ProcessAppend(w: World, evs: seq<Event>, e: Event)
    ensures Process(w, evs + [e]) == Dispatch(Process(w, evs), e)
    decreases |evs|
  {
    if evs != [] {
      assert (evs + [e])[0] == evs[0] && (evs + [e])[1..] == evs[1..] + [e];
      ProcessAppend(Dispatch(w, evs[0]), evs[1..], e);
    } else {
      assert evs + [e] == [e];
      assert Process(Dispatch(w, e), [e][1..]) == Dispatch(w, e);
    }
  }

  const Quiet := Script(Refused, NoBackend, [], RecvEnd.Drained)

  function Hangup(id: nat, side: Side): Event {
    Socket(id, side, true, false, false, Quiet)
  }

  function Hangups(k: nat): seq<Event> {
    seq(k, i requires 0 <= i < k => Hangup(i, ToClient))
  }

  /** Clients that arrive one at a time, as one listening socket reports them. */
  function Arrivals(k: nat): seq<seq<Event>> {
    if k == 0 then [] else Arrivals(k - 1) + [[Listen(NewClient)]]
  }

  lemma OneArrival(w: World)
    requires w.queue == []
    ensures Turn(w, [Listen(NewClient)]) == Accept(w, NewClient)
  {
    var evs := [Listen(NewClient)];
    assert evs[1..] == [];
    assert Fetch(w, evs) == w;
    assert Process(w, evs) == Accept(w, NewClient);
  }

  lemma {:induction false} ManyArrivals(k: nat)
    ensures Possible(Start, Arrivals(k)) && BatchesWithin(Arrivals(k), 1)
    ensures var w := Run(Start, Arrivals(k)); w.conns == seq(k, _ => Accepted) && w.queue == [] && !w.touchedFreed
  {
    if k > 0 {
      ManyArrivals(k - 1);
      var w := Run(Start, Arrivals(k - 1));
      OneArrival(w);
      RunAppend(Start, Arrivals(k - 1), [Listen(NewClient)]);
      assert seq(k, _ => Accepted) == seq(k - 1, _ => Accepted) + [Accepted];
    }
  }

  lemma {:induction false} ManyHangups(w: World, k: nat)
    requires w.queue == [] && k <= |w.conns|
    requires forall i :: 0 <= i < |w.conns| ==> w.conns[i].clientOpen && w.conns[i].linked && w.conns[i].frees == 0
    ensures var v := Process(w, Hangups(k));
      && |v.conns| == |w.conns| && |v.queue| == Min(k, QUEUE_CAPACITY)
      && (forall i :: k <= i < |w.conns| ==> v.conns[i] == w.conns[i])
      && (k > QUEUE_CAPACITY ==> v.conns[k - 1].frees == 1)
  {
    if k > 0 {
      ManyHangups(w, k - 1);
      assert Hangups(k) == Hangups(k - 1) + [Hangup(k - 1, ToClient)];
      ProcessAppend(w, Hangups(k - 1), Hangup(k - 1, ToClient));
    }
  }

  /** The client's first byte, which opens a backend connection. */
  function FirstByte(id: nat): Event {
    Socket(id, ToClient, false, false, true,
           Script(Refused, Connected(0), [Round([7], [Took(1)], true)], RecvEnd.Drained))
  }

  lemma FirstByteConnects(x: Link, id: nat)
    requires !x.c.backendOpen && x.c.toBackend == EmptyDir
    ensures var h := Handle(x, ToBackend, FirstByte(id).script);
      h.outcome.More? && h.x.c.backendOpen && h.x.c.toClient == x.c.toClient
      && h.x.c.clientOpen == x.c.clientOpen && h.x.c.linked == x.c.linked && h.x.c.frees == x.c.frees
  {
    var s := FirstByte(id).script;
    var (x1, up) := EnsureBackend(x, ToBackend, s.connect);
    assert Direct(1, [Took(1)]) == (1, false);
    var (x2, ok) := Forward(x1, ToBackend, s.rounds[0]);
    assert up && ok;
    assert ReadLoop(x2, ToBackend, s.connect, s.rounds[1..], s.end) == Handled(x2, More);
  }

  ghost predicate AllOpen(w: World, k: nat) {
    |w.conns| == k && forall i :: 0 <= i < k ==> w.conns[i].clientOpen && w.conns[i].linked && w.conns[i].frees == 0
  }

  /** The last of `k` accepted clients sends its first byte. */
  lemma LastConnects(w: World, k: nat)
    requires k > 0 && AtWait(w) && w.conns == seq(k, _ => Accepted) && !w.touchedFreed
    requires Deliverable(w, [FirstByte(k - 1)])
    ensures var v := Turn(w, [FirstByte(k - 1)]);
      AtWait(v) && !v.touchedFreed && AllOpen(v, k) && v.conns[k - 1].backendOpen && v.conns[k - 1].toClient == EmptyDir
  {
    var evs := [FirstByte(k - 1)];
    FetchIsFetched(w, evs);
    var f := Fetch(w, evs);
    FirstByteConnects(Link(f.conns[k - 1], f.n), k - 1);
    TurnKeeps(w, evs);
    assert evs[1..] == [];
    assert Process(f, evs) == Dispatch(f, evs[0]);
  }

  /** 1024 accepted connections, the last one with a backend. */
  lemma FullHouse() returns (batches: seq<seq<Event>>)
    ensures Possible(Start, batches) && BatchesWithin(batches, 1)
    ensures var w := Run(Start, batches);
      AtWait(w) && !w.touchedFreed && AllOpen(w, QUEUE_CAPACITY + 1) && w.conns[QUEUE_CAPACITY].backendOpen
  {
    var k := QUEUE_CAPACITY + 1;
    ManyArrivals(k);
    RunKeeps(Start, Arrivals(k));
    var w := Run(Start, Arrivals(k));
    assert w.conns[k - 1] == Accepted;
    assert Deliverable(w, [FirstByte(k - 1)]);
    LastConnects(w, k);
    RunAppend(Start, Arrivals(k), [FirstByte(k - 1)]);
    batches := Arrivals(k) + [[FirstByte(k - 1)]];
  }

  /** Three bytes in two rounds, on their way to `side`: it takes the first, refuses the second, and
      takes the third in the next round. */
  function Hesitation(side: Side): Event {
    Socket(0, Opposite(side), false, false, true,
           Script(Refused, Connected(0), [Round([1, 2], [Took(1), Refused], true), Round([3], [Took(1)], true)], RecvEnd.Drained))
  }

  ghost predicate Swapped(d: Dir) {
    d.received == [1, 2, 3] && d.delivered == [1, 3] && d.pending == [2]
  }

  lemma RoundsSwap(x: Link, side: Side)
    requires x.c.backendOpen && x.c.Get(side) == EmptyDir
    ensures var s := Hesitation(side).script; var h := ReadLoop(x, side, s.connect, s.rounds, s.end);
      h.outcome.More? && Swapped(h.x.c.Get(side))
  {
    var s := Hesitation(side).script;
    assert Direct(2, [Took(1), Refused]) == (1, false) && Direct(1, [Took(1)]) == (1, false);
    var (x2, ok) := Forward(x, side, s.rounds[0]);
    var (x3, ok') := Forward(x2, side, s.rounds[1]);
    assert ok && ok' && Swapped(x3.c.Get(side));
    assert s.rounds[1..] == [s.rounds[1]] && s.rounds[1..][1..] == [];
    assert ReadLoop(x3, side, s.connect, [], s.end) == Handled(x3, More);
    assert ReadLoop(x2, side, s.connect, s.rounds[1..], s.end) == Handled(x3, More);
  }

  lemma HesitationSwaps(x: Link, side: Side)
    requires (side.ToClient? ==> x.c.backendOpen) && x.c.Get(side) == EmptyDir
    ensures var h := Handle(x, side, Hesitation(side).script); h.outcome.More? && Swapped(h.x.c.Get(side))
  {
    var s := Hesitation(side).script;
    var x1 := EnsureBackend(x, side, s.connect).0;
    RoundsSwap(x1, side);
    assert ReadLoop(x, side, s.connect, s.rounds, s.end) == ReadLoop(x1, side, s.connect, s.rounds, s.end);
  }

  lemma HesitationTurn(w: World, side: Side)
    requires w.queue == [] && |w.conns| == 1 && Deliverable(w, [Hesitation(side)]) && !Skipped(w.conns[0], Opposite(side))
    requires w.conns[0].frees == 0 && (side.ToClient? ==> w.conns[0].backendOpen) && w.conns[0].Get(side) == EmptyDir
    ensures var v := Turn(w, [Hesitation(side)]); |v.conns| == 1 && Swapped(v.conns[0].Get(side))
  {
    var evs := [Hesitation(side)];
    FetchIsFetched(w, evs);
    var f := Fetch(w, evs);
    HesitationSwaps(Link(f.conns[0], f.n), side);
    assert evs[1..] == [];
    assert Process(f, evs) == Dispatch(f, evs[0]);
  }

  /** One client, its first byte sent and its backend open. */
  lemma OneConnected() returns (batches: seq<seq<Event>>)
    ensures Possible(Start, batches)
    ensures var w := Run(Start, batches);
      AtWait(w) && AllOpen(w, 1) && w.conns[0].backendOpen && w.conns[0].toClient == EmptyDir
  {
    ManyArrivals(1);
    RunKeeps(Start, Arrivals(1));
    var w := Run(Start, Arrivals(1));
    assert w.conns[0] == Accepted;
    assert Deliverable(w, [FirstByte(0)]);
    LastConnects(w, 1);
    RunAppend(Start, Arrivals(1), [FirstByte(0)]);
    batches := Arrivals(1) + [[FirstByte(0)]];
  }

  /** Bytes do arrive out of order, in either direction: a run of one client that ends so. */
  lemma ReorderingRun(side: Side) returns (batches: seq<seq<Event>>)
    ensures Possible(Start, batches) && |Run(Start, batches).conns| == 1
    ensures Swapped(Run(Start, batches).conns[0].Get(side))
  {
    if side.ToBackend? {
      ManyArrivals(1);
      batches := Arrivals(1);
      assert Run(Start, batches).conns == [Accepted];
    } else {
      batches := OneConnected();
      assert Ready(Run(Start, batches).conns[0], ToBackend);
    }
    HesitationTurn(Run(Start, batches), side);
    RunAppend(Start, batches, [Hesitation(side)]);
    batches := batches + [[Hesitation(side)]];
  }

  /** Every client hangs up, and the backend of the last one as well. */
  function LastBatch(): seq<Event> {
    Hangups(QUEUE_CAPACITY + 1) + [Hangup(QUEUE_CAPACITY, ToBackend)]
  }

  lemma LastBatchIsDeliverable(w: World)
    requires AtWait(w) && AllOpen(w, QUEUE_CAPACITY + 1) && w.conns[QUEUE_CAPACITY].backendOpen
    ensures Deliverable(w, LastBatch())
  {
    var last := LastBatch();
    forall j | 0 <= j < |last|
      ensures last[j].Socket? && !last[j].out && last[j].id < |w.conns| && w.conns[last[j].id].ArmOf(last[j].side).Armed?
    {
      assert Ready(w.conns[last[j].id], last[j].side);
    }
  }

  lemma LastBatchTouchesFreed(w: World)
    requires AtWait(w) && AllOpen(w, QUEUE_CAPACITY + 1) && Deliverable(w, LastBatch())
    ensures Turn(w, LastBatch()).touchedFreed
  {
    var k := QUEUE_CAPACITY + 1;
    var last := LastBatch();
    FetchIsFetched(w, last);
    FetchKeeps(w, last);
    var f := Fetch(w, last);
    ManyHangups(f, k);
    ProcessAppend(f, Hangups(k), Hangup(k - 1, ToBackend));
    ProcessKeeps(f, last);
    DrainEmpties(Process(f, last));
  }

  /** The bound is sharp: 1025 events suffice to reach a freed connection. */
  lemma LargeBatchesAreUnsafe()
    ensures exists batches :: Possible(Start, batches) && BatchesWithin(batches, QUEUE_CAPACITY + 2) && Run(Start, batches).touchedFreed
  {
    var before := FullHouse();
    var w := Run(Start, before);
    LastBatchIsDeliverable(w);
    LastBatchTouchesFreed(w);
    RunAppend(Start, before, LastBatch());
    assert BatchesWithin(before + [LastBatch()], QUEUE_CAPACITY + 2);
  }

  lemma {:induction false} RunAppend(w: World, batches: seq<seq<Event>>, last: seq<Event>)
    requires Possible(w, batches) && Deliverable(Run(w, batches), last)
    ensures Possible(w, batches + [last]) && Run(w, batches + [last]) == Turn(Run(w, batches), last)
    decreases |batches|
  {
    var all := batches + [last];
    if batches == [] {
      assert all[1..] == [];
    } else {
      assert all[1..] == batches[1..] + [last];
      RunAppend(Turn(w, batches[0]), batches[1..], last);
    }
  }

  /** Deferred reclamation is safe for every run of a worker that takes at most `limit` events
      per wait, exactly when `limit` is at most 1024 (the source takes up to 10000). */
  lemma SafeBatchSize(limit: nat)
    ensures (forall batches :: Possible(Start, batches) && BatchesWithin(batches, limit) ==> !Run(Start, batches).touchedFreed)
       <==> limit <= QUEUE_CAPACITY + 1
  {
    if limit <= QUEUE_CAPACITY + 1 {
      forall batches | Possible(Start, batches) && BatchesWithin(batches, limit) ensures !Run(Start, batches).touchedFreed {
        SafeReclamation(Start, batches);
      }
    } else {
      LargeBatchesAreUnsafe();
      var batches :| Possible(Start, batches) && BatchesWithin(batches, QUEUE_CAPACITY + 2) && Run(Start, batches).touchedFreed;
      assert BatchesWithin(batches, limit);
    }
  }
}
