/**
 The event loop as the source writes it: connections updated in place, shared statistics, the
 ring of closed connections. Each method is proved to compute the step of `RelaySpec` or
 `RelayRun` that the run theorems are about.
 */
module RelayWorker {
  import opened Common
  import opened RelaySpec
  import R = RelayRun
  import CleanupQueue

  class Stats {
    var active: int
    var bytesIn: int
    var bytesOut: int
    var connsOf: map<nat, int>
    var inOf: map<nat, int>
    var outOf: map<nat, int>

    ghost function View(): Counters
      reads this
    {
      Counters(active, bytesIn, bytesOut, connsOf, inOf, outOf)
    }

    constructor ()
      ensures View() == Counters(0, 0, 0, map[], map[], map[])
    {
      active, bytesIn, bytesOut := 0, 0, 0;
      connsOf, inOf, outOf := map[], map[], map[];
    }

    method CountIn(backend: Option<nat>, k: nat)
      modifies this`bytesIn, this`inOf
      ensures View() == CountBytes(old(View()), ToBackend, backend, k)
    {
      bytesIn := bytesIn + k;
      if backend.Some? {
        inOf := inOf[backend.value := At(inOf, backend.value) + k];
      }
    }

    method CountOut(backend: Option<nat>, k: nat)
      modifies this`bytesOut, this`outOf
      ensures View() == CountBytes(old(View()), ToClient, backend, k)
    {
      bytesOut := bytesOut + k;
      if backend.Some? {
        outOf := outOf[backend.value := At(outOf, backend.value) + k];
      }
    }
  }

  /** The inner loop that offers one chunk to a socket until it is taken or refused. */
  method SendLoop(len: nat, sends: seq<SendResult>) returns (total: nat, broken: bool)
    ensures (total, broken) == Direct(len, sends)
  {
    total, broken := 0, false;
    var j := 0;
    while total < len && j < |sends| && !sends[j].Refused?
      invariant total <= len && j <= |sends| && !broken
      invariant Direct(len, sends) == (total + Direct(len - total, sends[j..]).0, Direct(len - total, sends[j..]).1)
    {
      if sends[j].Failed? {
        return total, true;
      }
      total, j := total + Taken(sends[j], len - total), j + 1;
    }
  }

  class Connection {
    var clientOpen: bool
    var backendOpen: bool
    var backend: Option<nat>
    var linked: bool
    var frees: nat
    var toBackend: Dir
    var toClient: Dir
    var clientArm: Arm
    var backendArm: Arm
    var failed: bool

    ghost function View(): Conn
      reads this
    {
      Conn(clientOpen, backendOpen, backend, linked, frees, toBackend, toClient, clientArm, backendArm, failed)
    }

    constructor ()
      ensures View() == Accepted
    {
      clientOpen, backendOpen, backend := true, false, None;
      linked, frees, failed := true, 0, false;
      toBackend, toClient := EmptyDir, EmptyDir;
      clientArm, backendArm := Armed(false), Unregistered;
    }

    method FlushToBackend(stats: Stats, r: SendResult)
      requires toBackend.pending != [] && !r.Failed?
      modifies this, stats
      ensures Link(View(), stats.View()) == Flush(old(Link(View(), stats.View())), ToBackend, r)
    {
      var sent := Taken(r, |toBackend.pending|);
      if sent > 0 {
        toBackend := toBackend.(pending := toBackend.pending[sent..],
                                delivered := toBackend.delivered + toBackend.pending[..sent],
                                counted := toBackend.counted + sent);
        stats.CountIn(backend, sent);
      } else {
        assert toBackend == FlushDir(toBackend, 0);
      }
      if toBackend.pending == [] {
        backendArm := Armed(false);
      }
    }

    method FlushToClient(stats: Stats, r: SendResult)
      requires toClient.pending != [] && !r.Failed?
      modifies this, stats
      ensures Link(View(), stats.View()) == Flush(old(Link(View(), stats.View())), ToClient, r)
    {
      var sent := Taken(r, |toClient.pending|);
      if sent > 0 {
        toClient := toClient.(pending := toClient.pending[sent..],
                              delivered := toClient.delivered + toClient.pending[..sent],
                              counted := toClient.counted + sent);
        stats.CountOut(backend, sent);
      } else {
        assert toClient == FlushDir(toClient, 0);
      }
      if toClient.pending == [] {
        clientArm := Armed(false);
      }
    }

    method OpenBackend(stats: Stats, connect: Connect) returns (up: bool)
      requires !backendOpen
      modifies this, stats
      ensures (Link(View(), stats.View()), up) == EnsureBackend(old(Link(View(), stats.View())), ToBackend, connect)
    {
      if connect.NoBackend? || connect.ConnectFailed? {
        return false;
      }
      backendOpen, backend := true, Some(connect.b);
      stats.connsOf := stats.connsOf[connect.b := At(stats.connsOf, connect.b) + 1];
      if connect.RegisterFailed? {
        return false;
      }
      backendArm := Armed(false);
      return true;
    }

    method ForwardToBackend(stats: Stats, r: Round) returns (ok: bool)
      modifies this, stats
      ensures (Link(View(), stats.View()), ok) == Forward(old(Link(View(), stats.View())), ToBackend, r)
    {
      var total, broken := SendLoop(|r.data|, r.sends);
      var d, pending, capacity := toBackend, toBackend.pending, toBackend.capacity;
      toBackend := d.(received := d.received + r.data, delivered := d.delivered + r.data[..total]);
      if broken {
        return false;
      }
      if total < |r.data| {
        var need := |pending| + |r.data| - total;
        if capacity < need {
          if !r.canGrow {
            return false;
          }
          capacity := need * 2;
        }
        pending := pending + r.data[total..];
        backendArm := Armed(true);
      }
      assert pending == d.pending + r.data[total..];
      toBackend := Dir(pending, capacity, toBackend.received, toBackend.delivered, d.counted + total,
                   d.overtaken || (total > 0 && d.pending != []));
      assert toBackend == ForwardDir(d, r.data, total, capacity);
      stats.CountIn(backend, total);
      return true;
    }

    method ForwardToClient(stats: Stats, r: Round) returns (ok: bool)
      modifies this, stats
      ensures (Link(View(), stats.View()), ok) == Forward(old(Link(View(), stats.View())), ToClient, r)
    {
      var total, broken := SendLoop(|r.data|, r.sends);
      var d, pending, capacity := toClient, toClient.pending, toClient.capacity;
      toClient := d.(received := d.received + r.data, delivered := d.delivered + r.data[..total]);
      if broken {
        return false;
      }
      if total < |r.data| {
        var need := |pending| + |r.data| - total;
        if capacity < need {
          if !r.canGrow {
            return false;
          }
          capacity := need * 2;
        }
        pending := pending + r.data[total..];
        clientArm := Armed(true);
      }
      assert pending == d.pending + r.data[total..];
      toClient := Dir(pending, capacity, toClient.received, toClient.delivered, d.counted + total,
                  d.overtaken || (total > 0 && d.pending != []));
      assert toClient == ForwardDir(d, r.data, total, capacity);
      stats.CountOut(backend, total);
      return true;
    }

    /** Both descriptors closed and removed from epoll, the wrappers cut off, the backend released. */
    method Shut(stats: Stats)
      modifies this, stats
      ensures View() == old(View()).(clientOpen := false, backendOpen := false, linked := false,
                                     clientArm := Unregistered, backendArm := Unregistered)
      ensures stats.View() == old(stats.View()).(active := old(stats.active) - 1, connsOf := Add(old(stats.connsOf), backend, -1))
    {
      clientOpen, backendOpen := false, false;
      clientArm, backendArm := Unregistered, Unregistered;
      if backend.Some? {
        stats.connsOf := stats.connsOf[backend.value := At(stats.connsOf, backend.value) - 1];
      }
      linked := false;
      stats.active := stats.active - 1;
    }

    method HandleClientToBackend(stats: Stats, s: Script) returns (outcome: Outcome)
      modifies this, stats
      ensures Handled(Link(View(), stats.View()), outcome) == Handle(old(Link(View(), stats.View())), ToBackend, s)
    {
      if toBackend.pending != [] && backendOpen {
        if s.flush.Failed? {
          return Error;
        }
        FlushToBackend(stats, s.flush);
      }
      var i := 0;
      while i < |s.rounds|
        invariant i <= |s.rounds|
        invariant ReadLoop(Link(View(), stats.View()), ToBackend, s.connect, s.rounds[i..], s.end)
               == Handle(old(Link(View(), stats.View())), ToBackend, s)
      {
        if !backendOpen {
          var up := OpenBackend(stats, s.connect);
          if !up {
            return Error;
          }
        }
        var ok := ForwardToBackend(stats, s.rounds[i]);
        if !ok {
          return Error;
        }
        assert s.rounds[i..][0] == s.rounds[i] && s.rounds[i..][1..] == s.rounds[i + 1..];
        i := i + 1;
      }
      return Ending(s.end);
    }

    method HandleBackendToClient(stats: Stats, s: Script) returns (outcome: Outcome)
      modifies this, stats
      ensures Handled(Link(View(), stats.View()), outcome) == Handle(old(Link(View(), stats.View())), ToClient, s)
    {
      if toClient.pending != [] {
        if s.flush.Failed? {
          return Error;
        }
        FlushToClient(stats, s.flush);
      }
      if !backendOpen {
        return Error;
      }
      var i := 0;
      while i < |s.rounds|
        invariant i <= |s.rounds| && backendOpen
        invariant ReadLoop(Link(View(), stats.View()), ToClient, s.connect, s.rounds[i..], s.end)
               == Handle(old(Link(View(), stats.View())), ToClient, s)
      {
        var ok := ForwardToClient(stats, s.rounds[i]);
        if !ok {
          return Error;
        }
        assert s.rounds[i..][0] == s.rounds[i] && s.rounds[i..][1..] == s.rounds[i + 1..];
        i := i + 1;
      }
      return Ending(s.end);
    }

    /** The handler an event calls, and a note of whether it met an error. */
    method Relay(stats: Stats, side: Side, s: Script) returns (outcome: Outcome)
      modifies this, stats
      ensures var h := Handle(old(Link(View(), stats.View())), side, s);
        outcome == h.outcome && View() == h.x.c.(failed := h.outcome.Error?) && stats.View() == h.x.n
    {
      if side.ToClient? {
        outcome := HandleBackendToClient(stats, s);
      } else {
        outcome := HandleClientToBackend(stats, s);
      }
      failed := outcome.Error?;
    }
  }

  class Worker {
    var conns: seq<Connection>
    const queue: CleanupQueue.Ring
    const stats: Stats
    var touchedFreed: bool

    ghost predicate Valid()
      reads this, queue
    {
      queue.Valid() && NoDup(conns)
    }

    ghost function Views(): (s: seq<Conn>)
      reads this, conns
      ensures |s| == |conns| && forall i :: 0 <= i < |s| ==> s[i] == conns[i].View()
    {
      seq(|conns|, i requires 0 <= i < |conns| reads this, conns => conns[i].View())
    }

    ghost function View(): R.World
      requires Valid()
      reads this, conns, queue, queue.slots, stats
    {
      R.World(Views(), queue.Contents(), stats.View(), touchedFreed)
    }

    twostate lemma OnlyChanged(id: nat)
      requires conns == old(conns) && NoDup(conns) && id < |conns|
      requires forall i :: 0 <= i < |conns| && i != id ==> unchanged(conns[i])
      ensures Views() == old(Views())[id := conns[id].View()]
    {
    }

    constructor ()
      ensures Valid() && View() == R.Start
      ensures fresh(queue) && fresh(queue.slots) && fresh(stats)
    {
      conns, touchedFreed := [], false;
      queue := new CleanupQueue.Ring();
      stats := new Stats();
    }

    method Accept(a: R.AcceptResult)
      requires Valid()
      modifies this, stats
      ensures Valid() && View() == R.Accept(old(View()), a)
      ensures forall i :: 0 <= i < |conns| ==> conns[i] in old(conns) || fresh(conns[i])
    {
      if a.NoClient? {
        return;
      }
      stats.active := stats.active + 1;
      if a.NoMemory? || a.NotRegistered? {
        stats.active := stats.active - 1;
        return;
      }
      var c := new Connection();
      conns := conns + [c];
      assert Views() == old(Views()) + [Accepted];
    }

    /** Closes both sockets and hands the connection to the ring, or frees it when the ring is full. */
    method Close(id: nat)
      requires Valid() && id < |conns|
      modifies conns[id], queue`tail, queue.slots, stats
      ensures Valid() && queue.slots == old(queue.slots) && View() == R.Retire(old(View()), id)
    {
      var c := conns[id];
      c.Shut(stats);
      var queued := queue.Enqueue(id);
      if !queued {
        c.frees := c.frees + 1;
      }
      assert c.View() == R.Retire(old(View()), id).conns[id];
      OnlyChanged(id);
    }

    method Rearm(id: nat, side: Side)
      requires Valid() && id < |conns|
      modifies conns[id]
      ensures Valid() && View() == R.Rearm(old(View()), id, side)
    {
      var c := conns[id];
      if side.ToClient? {
        c.clientArm := Armed(c.toClient.pending != []);
      } else if c.backendOpen {
        c.backendArm := Armed(c.toBackend.pending != []);
      }
      OnlyChanged(id);
    }

    /** The handler call of one socket event, and the note whether it failed. */
    method Call(e: R.Event) returns (outcome: Outcome)
      requires Valid() && e.Socket? && e.id < |conns|
      modifies conns[e.id], stats
      ensures Valid()
      ensures var h := Handle(old(Link(conns[e.id].View(), stats.View())), R.Handler(e), e.script);
        outcome == h.outcome
        && View() == old(View()).(conns := old(Views())[e.id := h.x.c.(failed := h.outcome.Error?)], n := h.x.n)
    {
      outcome := conns[e.id].Relay(stats, R.Handler(e), e.script);
      OnlyChanged(e.id);
    }

    method Dispatch(e: R.Event)
      requires Valid()
      modifies this, conns, queue`tail, queue.slots, stats
      ensures Valid() && queue.slots == old(queue.slots) && View() == R.Dispatch(old(View()), e)
      ensures forall i :: 0 <= i < |conns| ==> conns[i] in old(conns) || fresh(conns[i])
    {
      if e.Listen? {
        Accept(e.a);
        return;
      }
      if e.id >= |conns| {
        return;
      }
      var c := conns[e.id];
      if c.frees > 0 {
        touchedFreed := true;
        return;
      }
      if !c.linked || (e.side.ToClient? && !c.clientOpen) || (e.side.ToBackend? && !c.backendOpen) {
        return;
      }
      var close := e.hup;
      if !e.hup && (e.out || e.input) {
        var outcome := Call(e);
        close := !outcome.More?;
      }
      if close {
        Close(e.id);
      } else {
        Rearm(e.id, e.side);
      }
    }
  
    method FreeOldest() returns (freed: bool)
      requires Valid()
      modifies conns, queue`head
      ensures Valid() && queue.slots == old(queue.slots)
      ensures freed <==> old(queue.Contents()) != []
      ensures View() == if freed then R.FreeOldest(old(View())) else old(View())
    {
      var next := queue.Dequeue();
      if next.None? {
        return false;
      }
      if next.value < |conns| {
        conns[next.value].frees := conns[next.value].frees + 1;
        OnlyChanged(next.value);
      }
      return true;
    }

    /** Before each wait: free every connection in the ring, oldest first. */
    method ProcessCleanupQueue()
      requires Valid()
      modifies conns, queue`head
      ensures Valid() && queue.slots == old(queue.slots) && View() == R.Drain(old(View()))
    {
      var more := true;
      while more
        invariant Valid() && queue.slots == old(queue.slots)
        invariant R.Drain(View()) == R.Drain(old(View()))
        invariant !more ==> queue.Contents() == []
        decreases more, |queue.Contents()|
      {
        more := FreeOldest();
      }
    }
  
    method Disarm(e: R.Event)
      requires Valid()
      modifies conns
      ensures Valid() && View() == R.Disarm(old(View()), e)
    {
      if e.Socket? && e.id < |conns| {
        if e.side.ToClient? {
          conns[e.id].clientArm := Disarmed;
        } else {
          conns[e.id].backendArm := Disarmed;
        }
        OnlyChanged(e.id);
      }
    }

    /** `epoll_wait`: the kernel disarms each one-shot socket it reports. */
    method Wait(evs: seq<R.Event>)
      requires Valid()
      modifies conns
      ensures Valid() && View() == R.Fetch(old(View()), evs)
    {
      var i := 0;
      while i < |evs|
        invariant i <= |evs| && Valid()
        invariant R.Fetch(View(), evs[i..]) == R.Fetch(old(View()), evs)
      {
        assert evs[i..][0] == evs[i] && evs[i..][1..] == evs[i + 1..];
        Disarm(evs[i]);
        i := i + 1;
      }
    }

    method ProcessEvents(evs: seq<R.Event>)
      requires Valid()
      modifies this, conns, queue`tail, queue.slots, stats
      ensures Valid() && queue.slots == old(queue.slots) && View() == R.Process(old(View()), evs)
      ensures forall i :: 0 <= i < |conns| ==> conns[i] in old(conns) || fresh(conns[i])
    {
      var i := 0;
      while i < |evs|
        invariant i <= |evs| && Valid() && queue.slots == old(queue.slots)
        invariant forall i :: 0 <= i < |conns| ==> conns[i] in old(conns) || fresh(conns[i])
        invariant R.Process(View(), evs[i..]) == R.Process(old(View()), evs)
      {
        assert evs[i..][0] == evs[i] && evs[i..][1..] == evs[i + 1..];
        Dispatch(evs[i]);
        i := i + 1;
      }
    }

    /** One turn of the loop, from wait to wait: what `RelayRun.Run` is made of. */
    method Turn(evs: seq<R.Event>)
      requires Valid()
      modifies this, conns, queue, queue.slots, stats
      ensures Valid() && View() == R.Turn(old(View()), evs)
    {
      Wait(evs);
      ProcessEvents(evs);
      ProcessCleanupQueue();
    }
  }
}
