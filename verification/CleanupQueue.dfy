/** The ring of connections waiting to be freed: 1024 slots, one always empty. */
module CleanupQueue {
  import opened Common

  const SLOTS: nat := 1024

  function Next(i: nat): (j: nat)
    requires i < SLOTS
    ensures j == if i + 1 == SLOTS then 0 else i + 1
  {
    (i + 1) % SLOTS
  }

  class Ring {
    var slots: array<nat>
    var head: nat
    var tail: nat

    ghost predicate Valid()
      reads this
    {
      slots.Length == SLOTS && head < SLOTS && tail < SLOTS
    }

    /** The queued connections, oldest first. */
    ghost function Contents(): (s: seq<nat>)
      requires Valid()
      reads this, slots
      ensures |s| < SLOTS
    {
      if head <= tail then slots[head..tail] else slots[head..] + slots[..tail]
    }

    constructor ()
      ensures Valid() && fresh(slots) && Contents() == []
    {
      slots := new nat[SLOTS];
      head, tail := 0, 0;
    }

    /** Refuses, and changes nothing, exactly when 1023 connections are already waiting. */
    method Enqueue(conn: nat) returns (ok: bool)
      requires Valid()
      modifies this`tail, slots
      ensures Valid() && slots == old(slots)
      ensures ok <==> |old(Contents())| < SLOTS - 1
      ensures Contents() == if ok then old(Contents()) + [conn] else old(Contents())
    {
      var next := Next(tail);
      if next == head {
        return false;
      }
      slots[tail] := conn;
      tail := next;
      return true;
    }

    method Dequeue() returns (conn: Option<nat>)
      requires Valid()
      modifies this`head
      ensures Valid()
      ensures conn == if old(Contents()) == [] then None else Some(old(Contents())[0])
      ensures Contents() == if old(Contents()) == [] then [] else old(Contents())[1..]
    {
      if head == tail {
        return None;
      }
      conn := Some(slots[head]);
      head := Next(head);
    }
  }
}
