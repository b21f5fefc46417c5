/** The free list and the client table as the code keeps them. Each method of the table is
    one critical section of the free list's lock, and is proved to do to what it shows of a
    state of Slots what a step of Slots does. */
module Server {
  import Slots

  class IntStack {
    const data: array<int>
    var head: nat

    ghost predicate Valid()
      reads this, data
    {
      head <= data.Length && forall i | 0 <= i < head :: data[i] >= 0
    }

    ghost function Contents(): (c: seq<nat>)
      requires Valid()
      reads this, data
      ensures |c| == head && forall i | 0 <= i < head :: c[i] == data[i]
    {
      seq(head, i requires 0 <= i < head && Valid() reads this, data => data[i])
    }

    constructor (capacity: nat)
      ensures Valid() && head == 0 && data.Length == capacity && fresh(data)
    {
      data := new int[capacity];
      head := 0;
    }

    method Push(value: nat) returns (ok: bool)
      requires Valid()
      modifies this, data
      ensures Valid() && ok == (old(head) < data.Length)
      ensures Contents() == Slots.Push(old(Contents()), value, data.Length)
    {
      if head >= data.Length {
        assert Contents() == old(Contents());
        return false;
      }
      data[head] := value;
      head := head + 1;
      assert Contents() == old(Contents()) + [value];
      return true;
    }

    /** The last entry, or -1. */
    method Pop() returns (value: int)
      requires Valid()
      modifies this
      ensures Valid()
      ensures if old(head) == 0 then value == -1 && Contents() == old(Contents())
              else value == old(Contents())[old(head) - 1] && Contents() == old(Contents())[..old(head) - 1]
    {
      if head == 0 {
        assert Contents() == old(Contents());
        return -1;
      }
      head := head - 1;
      assert Contents() == old(Contents())[..head];
      return data[head];
    }
  }

  /** A client record; `conn` stands for its socket. */
  datatype Client = Client(conn: nat, idx: nat, alive: bool, inFlight: bool)

  datatype Outcome = Accepted(idx: nat) | Exhausted | NotWatched

  class Table {
    const freeList: IntStack
    const clients: array<Client>

    ghost predicate Valid()
      reads this, freeList, freeList.data, clients
    {
      && freeList.Valid() && freeList.data.Length == clients.Length
      && forall a | 0 <= a < freeList.head :: freeList.data[a] < clients.Length
    }

    ghost function Free(): seq<nat>
      requires Valid()
      reads this, freeList, freeList.data, clients
    {
      freeList.Contents()
    }

    /** List and table are those of s; of the owners, the code keeps nothing. */
    ghost predicate Shows(s: Slots.State)
      reads this, freeList, freeList.data, clients
    {
      && Valid() && Free() == s.free && clients.Length == |s.slots|
      && forall i | 0 <= i < clients.Length :: ShowsSlot(clients[i], s.slots[i])
    }

    static predicate ShowsSlot(c: Client, slot: Slots.Slot) {
      c.conn == slot.conn && c.alive == slot.alive && c.inFlight == slot.inFlight
    }

    /** Slots are handed out from 0 upwards at first. */
    constructor (capacity: nat)
      ensures Valid() && clients.Length == capacity
      ensures Free() == Slots.Init(capacity).free && Shows(Slots.Init(capacity))
      ensures forall i | 0 <= i < capacity :: clients[i] == Client(0, 0, false, false)
      ensures fresh(freeList) && fresh(freeList.data) && fresh(clients)
    {
      var stack := new IntStack(capacity);
      freeList := stack;
      clients := new Client[capacity](_ => Client(0, 0, false, false));
      new;
      var i := capacity;
      while i > 0
        invariant 0 <= i <= capacity && stack.Valid() && stack.head == capacity - i
        invariant forall a | 0 <= a < stack.head :: stack.data[a] == capacity - 1 - a
        modifies stack, stack.data
      {
        ghost var was := stack.Contents();
        var ok := stack.Push(i - 1);
        assert stack.Contents() == was + [i - 1];
        i := i - 1;
      }
      assert Free() == Slots.Init(capacity).free;
    }

    /** server_append_client; `watched` tells whether the kernel accepts the connection. */
    method Append(conn: nat, watched: bool) returns (r: Outcome)
      requires Valid()
      modifies freeList, freeList.data, clients
      ensures Valid()
      ensures old(Free()) == [] ==> r == Exhausted && Free() == [] && clients[..] == old(clients[..])
      ensures old(Free()) != [] ==>
                var i := old(Free())[|old(Free())| - 1];
                && clients[..] == old(clients[..])[i := Client(conn, i, watched, false)]
                && if watched then r == Accepted(i) && Free() == old(Free())[..|old(Free())| - 1]
                   else r == NotWatched && Free() == old(Free())
    {
      var idx := freeList.Pop();
      if idx < 0 { return Exhausted; }
      r := Occupy(idx, conn, watched);
      assert !watched ==> Free() == old(Free());
    }

    /** Fills a slot taken from the list; a slot that is not watched goes back there. */
    method Occupy(idx: nat, conn: nat, watched: bool) returns (r: Outcome)
      requires Valid() && idx < clients.Length && freeList.head < clients.Length
      modifies freeList, freeList.data, clients
      ensures Valid() && clients[..] == old(clients[..])[idx := Client(conn, idx, watched, false)]
      ensures Free() == if watched then old(Free()) else old(Free()) + [idx]
      ensures r == if watched then Accepted(idx) else NotWatched
    {
      clients[idx] := Client(conn, idx, false, false);
      if !watched {
        var ok := freeList.Push(idx);
        return NotWatched;
      }
      clients[idx] := Client(conn, idx, true, false);
      return Accepted(idx);
    }

    /** The event loop's accept is the step Accept or AcceptFails, or nothing when no slot is free. */
    method AcceptStep(conn: nat, watched: bool, ghost s: Slots.State) returns (r: Outcome)
      requires Shows(s) && s.loop == Slots.Dispatching(false) && s.nextConn == conn
      modifies freeList, freeList.data, clients
      ensures r == Exhausted <==> s.free == []
      ensures Shows(if s.free == [] then s else Slots.Apply(s, if watched then Slots.Accept else Slots.AcceptFails))
    {
      r := Append(conn, watched);
    }

    /** server_remove_client: what SweepRemove and Close do to list and table. */
    method Remove(client: Client, ghost s: Slots.State)
      requires Shows(s) && client.idx < clients.Length
      modifies freeList, freeList.data, clients
      ensures Shows(Slots.Remove(s, client.idx))
      ensures Slots.Enabled(s, Slots.Close) && s.worker.client.idx == client.idx ==> Shows(Slots.Apply(s, Slots.Close))
      ensures Slots.Enabled(s, Slots.SweepRemove) && s.loop.i == client.idx ==> Shows(Slots.Apply(s, Slots.SweepRemove))
      ensures Free() == Slots.Push(old(Free()), client.idx, clients.Length)
      ensures clients[..] == old(clients[..])[client.idx := old(clients[client.idx]).(alive := false)]
    {
      var ok := freeList.Push(client.idx);
      clients[client.idx] := clients[client.idx].(alive := false);
    }

    /** Sets or clears the flag of a slot, as the steps Mark and Clear do. */
    method SetInFlight(i: nat, flag: bool, ghost s: Slots.State)
      requires Shows(s) && i < clients.Length
      modifies clients
      ensures Shows(s.(slots := s.slots[i := s.slots[i].(inFlight := flag)]))
      ensures flag && Slots.Enabled(s, Slots.Mark) && s.batch[0] == i ==> Shows(Slots.Apply(s, Slots.Mark))
      ensures !flag && Slots.Enabled(s, Slots.Clear) && s.worker.client.idx == i ==> Shows(Slots.Apply(s, Slots.Clear))
    {
      clients[i] := clients[i].(inFlight := flag);
    }

    /** The sweep's snapshot of a slot, as the step SweepRead takes it. */
    method Snapshot(i: nat, ghost s: Slots.State) returns (c: Client)
      requires Shows(s) && i < clients.Length
      ensures Slots.CopyOf(s, i) == Slots.Copy(i, c.conn, c.alive, c.inFlight)
    {
      c := clients[i];
    }
  }
}
