/**
 When the worker closes a connection, and what it has relayed by then, read off the event and the
 answers of the sockets alone.
 */
module RelayClose {
  import opened Common
  import opened RelaySpec
  import opened RelayRun

  // ---------------------------------------------------------------- the answers of the sockets

  /** The bytes the socket takes before it gives another answer. */
  function Leading(sends: seq<SendResult>): nat {
    if sends == [] || !sends[0].Took? then 0 else sends[0].n + Leading(sends[1..])
  }

  /** And that answer; to give none is to refuse. */
  function Halt(sends: seq<SendResult>): SendResult {
    if sends == [] then Refused else if sends[0].Took? then Halt(sends[1..]) else sends[0]
  }

  function Sent(r: Round): nat {
    Min(|r.data|, Leading(r.sends))
  }

  /** Some bytes are left to send when the socket fails. */
  predicate SendFails(r: Round) {
    Leading(r.sends) < |r.data| && Halt(r.sends).Failed?
  }

  /** No send fails, and memory is granted whenever unsent bytes do not fit: `waiting` bytes are
      buffered already, in `cap` bytes of memory. */
  predicate RoundsPass(rounds: seq<Round>, waiting: nat, cap: nat)
    decreases |rounds|
  {
    rounds == [] ||
    var r := rounds[0];
    var after := waiting + |r.data| - Sent(r);
    var grows := Sent(r) < |r.data| && cap < after;
    && !SendFails(r) && (grows ==> r.canGrow)
    && RoundsPass(rounds[1..], after, if grows then 2 * after else cap)
  }

  /** The handler first tries to write what waits, if there is a socket to write to. */
  predicate Retries(c: Conn, side: Side) {
    |c.Get(side).pending| > 0 && (side.ToBackend? ==> c.backendOpen)
  }

  function Retried(c: Conn, side: Side, flush: SendResult): (k: nat)
    ensures k <= |c.Get(side).pending|
  {
    if Retries(c, side) && flush.Took? then Min(flush.n, |c.Get(side).pending|) else 0
  }

  /** There is a backend where these rounds need one. */
  predicate Supplied(c: Conn, side: Side, connect: Connect, rounds: seq<Round>) {
    if side.ToClient? then c.backendOpen else rounds == [] || c.backendOpen || connect.Connected?
  }

  /** Nothing goes wrong on the way to `side`: what waits can be written, there is a backend where
      one is needed, and all rounds pass. */
  predicate Smooth(c: Conn, side: Side, s: Script) {
    && (Retries(c, side) ==> !s.flush.Failed?)
    && Supplied(c, side, s.connect, s.rounds)
    && RoundsPass(s.rounds, |c.Get(side).pending| - Retried(c, side, s.flush), c.Get(side).capacity)
  }

  /** The event leaves the connection open: no hang-up, nothing goes wrong, and the peer has merely
      nothing more to say for now. A writable socket is written to, a readable one is read from. */
  predicate Survives(c: Conn, e: Event)
    requires e.Socket?
  {
    !e.hup &&
    (e.out || e.input ==>
      var side := if e.out then e.side else if e.side.ToClient? then ToBackend else ToClient;
      Smooth(c, side, e.script) && e.script.end.Drained?)
  }

  // ---------------------------------------------------------------- one handler call

  lemma {:induction false} DirectIs(left: nat, sends: seq<SendResult>)
    ensures Direct(left, sends) == (Min(left, Leading(sends)), Leading(sends) < left && Halt(sends).Failed?)
    decreases |sends|
  {
    if left > 0 && sends != [] && sends[0].Took? {
      DirectIs(left - Taken(sends[0], left), sends[1..]);
    }
  }

  /** What one round leaves of a direction. */
  lemma ForwardIs(x: Link, side: Side, r: Round)
    ensures var d := x.c.Get(side); var (x1, ok) := Forward(x, side, r);
      var after := |d.pending| + |r.data| - Sent(r);
      var grows := Sent(r) < |r.data| && d.capacity < after;
      && (ok <==> !SendFails(r) && (grows ==> r.canGrow))
      && x1.c.backendOpen == x.c.backendOpen
      && (ok ==> |x1.c.Get(side).pending| == after && x1.c.Get(side).capacity == if grows then 2 * after else d.capacity)
      && (ok ==> x1.c.Get(side).received == d.received + r.data && |x1.c.Get(side).delivered| == |d.delivered| + Sent(r))
  {
    DirectIs(|r.data|, r.sends);
  }

  /** The first round of the loop: the rest goes on from `x2` unless it failed. */
  lemma LoopNext(x: Link, side: Side, connect: Connect, rounds: seq<Round>, end: RecvEnd) returns (x2: Link, ok: bool)
    requires rounds != [] && Supplied(x.c, side, connect, rounds)
    ensures var d, r := x.c.Get(side), rounds[0];
      var after := |d.pending| + |r.data| - Sent(r);
      var grows := Sent(r) < |r.data| && d.capacity < after;
      && (ok <==> !SendFails(r) && (grows ==> r.canGrow)) && x2.c.backendOpen
      && (ok ==> |x2.c.Get(side).pending| == after && x2.c.Get(side).capacity == if grows then 2 * after else d.capacity)
      && (ok ==> x2.c.Get(side).received == d.received + r.data && |x2.c.Get(side).delivered| == |d.delivered| + Sent(r))
    ensures ok ==> ReadLoop(x, side, connect, rounds, end) == ReadLoop(x2, side, connect, rounds[1..], end)
    ensures !ok ==> ReadLoop(x, side, connect, rounds, end).outcome.Error?
  {
    var x1 := EnsureBackend(x, side, connect).0;
    ForwardIs(x1, side, rounds[0]);
    x2, ok := Forward(x1, side, rounds[0]).0, Forward(x1, side, rounds[0]).1;
  }

  /** The read loop ends as the answers say. */
  lemma {:induction false} ReadLoopEnds(x: Link, side: Side, connect: Connect, rounds: seq<Round>, end: RecvEnd)
    ensures var h := ReadLoop(x, side, connect, rounds, end);
      var smooth := Supplied(x.c, side, connect, rounds) && RoundsPass(rounds, |x.c.Get(side).pending|, x.c.Get(side).capacity);
      && (h.outcome.More? <==> smooth && end.Drained?)
      && (h.outcome.Ended? <==> smooth && end.PeerClosed?)
    decreases |rounds|
  {
    if rounds != [] && Supplied(x.c, side, connect, rounds) {
      var x2, ok := LoopNext(x, side, connect, rounds, end);
      if ok {
        ReadLoopEnds(x2, side, connect, rounds[1..], end);
      }
    }
  }

  /** A handler reports an open connection, the end of the stream or an error exactly as the answers
      of the sockets say. */
  lemma OutcomeExactly(x: Link, side: Side, s: Script)
    ensures var o := Handle(x, side, s).outcome;
      && (o.More? <==> Smooth(x.c, side, s) && s.end.Drained?)
      && (o.Ended? <==> Smooth(x.c, side, s) && s.end.PeerClosed?)
  {
    if !Flushes(x.c, side) {
      ReadLoopEnds(x, side, s.connect, s.rounds, s.end);
    } else if !s.flush.Failed? {
      ReadLoopEnds(Flush(x, side, s.flush), side, s.connect, s.rounds, s.end);
    }
  }

  /** All bytes of the rounds. */
  function Data(rounds: seq<Round>): seq<int> {
    if rounds == [] then [] else rounds[0].data + Data(rounds[1..])
  }

  function AllSent(rounds: seq<Round>): nat {
    if rounds == [] then 0 else Sent(rounds[0]) + AllSent(rounds[1..])
  }

  lemma {:induction false} ReadLoopRelays(x: Link, side: Side, connect: Connect, rounds: seq<Round>, end: RecvEnd)
    requires Supplied(x.c, side, connect, rounds)
    requires RoundsPass(rounds, |x.c.Get(side).pending|, x.c.Get(side).capacity)
    ensures var d, d1 := x.c.Get(side), ReadLoop(x, side, connect, rounds, end).x.c.Get(side);
      d1.received == d.received + Data(rounds) && |d1.delivered| == |d.delivered| + AllSent(rounds)
    decreases |rounds|
  {
    if rounds != [] {
      var x2, ok := LoopNext(x, side, connect, rounds, end);
      ReadLoopRelays(x2, side, connect, rounds[1..], end);
      assert x.c.Get(side).received + (rounds[0].data + Data(rounds[1..])) == x2.c.Get(side).received + Data(rounds[1..]);
    }
  }

  /** When nothing goes wrong, every byte read is received in its direction, and as many are delivered
      as the socket took, first of those that waited and then of the new ones. */
  lemma RelaysExactly(x: Link, side: Side, s: Script)
    requires Smooth(x.c, side, s)
    ensures var d, d1 := x.c.Get(side), Handle(x, side, s).x.c.Get(side);
      && d1.received == d.received + Data(s.rounds)
      && |d1.delivered| == |d.delivered| + Retried(x.c, side, s.flush) + AllSent(s.rounds)
  {
    ReadLoopRelays(if Flushes(x.c, side) then Flush(x, side, s.flush) else x, side, s.connect, s.rounds, s.end);
  }

  // ---------------------------------------------------------------- one event

  ghost predicate Closed(c: Conn) {
    !c.clientOpen && !c.backendOpen && !c.linked && c.clientArm.Unregistered? && c.backendArm.Unregistered?
  }

  lemma RetireCloses(w: World, id: nat)
    requires id < |w.conns|
    ensures var v := Retire(w, id);
      |v.conns| == |w.conns| && Closed(v.conns[id]) && v.n.active == w.n.active - 1 && (id in v.queue || v.conns[id].frees > w.conns[id].frees)
  {
    assert id in w.queue + [id];
  }

  lemma HandledKeepsOpen(x: Link, side: Side, s: Script)
    requires Open(x.c)
    ensures var c := Handle(x, side, s).x.c; c.clientOpen && c.linked && c.frees == 0 && Handle(x, side, s).x.n.active == x.n.active
  {
    HandleKeeps(x, side, s);
    assert Charged(x, Handle(x, side, s).x);
    assert Count(Handle(x, side, s).x.n, OpenConns) - Count(x.n, OpenConns) == 0;
  }

  /**
   An event on a socket of an open connection leaves it open if and only if it is no hang-up, no
   socket fails, memory is granted, a needed backend is there and the stream goes on. Otherwise both
   sockets are closed, the connection waits to be freed, and the count of active ones goes down.
   */
  lemma ClosesExactly(w: World, e: Event)
    requires e.Socket? && e.id < |w.conns| && Open(w.conns[e.id]) && (e.side.ToBackend? ==> w.conns[e.id].backendOpen)
    ensures var c, v := w.conns[e.id], Dispatch(w, e);
      && |v.conns| == |w.conns|
      && (if Survives(c, e) then v.conns[e.id].clientOpen && v.conns[e.id].linked && v.n.active == w.n.active
          else Closed(v.conns[e.id]) && v.n.active == w.n.active - 1 && (e.id in v.queue || v.conns[e.id].frees == 1))
  {
    if e.hup {
      RetireCloses(w, e.id);
    } else if e.out || e.input {
      var x := Link(w.conns[e.id], w.n);
      var h := Handle(x, Handler(e), e.script);
      OutcomeExactly(x, Handler(e), e.script);
      HandledKeepsOpen(x, Handler(e), e.script);
      var w1 := w.(conns := w.conns[e.id := h.x.c.(failed := h.outcome.Error?)], n := h.x.n);
      RetireCloses(w1, e.id);
    }
  }

  /** An event on the backend socket of a connection without one changes nothing. */
  lemma NoBackendNoEvent(w: World, e: Event)
    requires e.Socket? && e.id < |w.conns| && Open(w.conns[e.id]) && e.side.ToBackend? && !w.conns[e.id].backendOpen
    ensures Dispatch(w, e) == w
  {
  }
}
