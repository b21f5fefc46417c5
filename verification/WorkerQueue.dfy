/** The queue between the event loop and the workers: a growable ring of actions.

    Every method here is one critical section of the queue's lock. */
module WorkerQueue {

  const PAYLOAD_SIZE: nat := 128
  const INITIAL_CAPACITY: nat := 8

  datatype Slot = Slot(lock: bool, present: bool, kind: int, payload: seq<bv8>)

  const ZEROED := Slot(false, false, 0, seq(PAYLOAD_SIZE, _ => 0))

  /** What a slot carries from the dispatcher to a worker. */
  datatype Action = Action(kind: int, payload: seq<bv8>)

  /** How far index j lies behind the head of a ring of the given capacity. */
  function Distance(head: nat, j: nat, capacity: nat): nat
    requires head < capacity && j < capacity
  {
    if j >= head then j - head else j + capacity - head
  }

  /** The code's index for the i-th entry. */
  function IndexOf(head: nat, i: nat, capacity: nat): (j: nat)
    requires head < capacity && i < capacity
    ensures j < capacity && Distance(head, j, capacity) == i
  {
    Wrap(head + i, capacity);
    (head + i) % capacity
  }

  lemma Wrap(x: nat, capacity: nat)
    requires capacity <= x < 2 * capacity || x < capacity
    ensures capacity > 0 && x % capacity == if x < capacity then x else x - capacity
  {
    if x >= capacity {
      assert x == 1 * capacity + (x - capacity);
      assert (x - capacity) % capacity == x - capacity;
    }
  }

  /** The bytes a dispatch leaves in a slot: the payload over what was there before. */
  function Overlay(payload: seq<bv8>, stale: seq<bv8>): (r: seq<bv8>)
    requires |payload| <= |stale|
    ensures |r| == |stale| && payload <= r && r[|payload|..] == stale[|payload|..]
  {
    payload + stale[|payload|..]
  }

  class Queue {
    var data: array<Slot>
    var head: nat
    var count: nat
    var shuttingDown: bool

    ghost var contents: seq<Action>
    // Totals over the life of the queue.
    ghost var dispatched: nat
    ghost var copied: nat
    ghost var slots: nat

    /** Slot j is present exactly inside the window of live entries, and then holds its entry. */
    ghost predicate SlotOk(j: nat)
      requires head < data.Length && j < data.Length && count == |contents|
      reads this`data, this`head, this`count, this`contents, data
    {
      var d := Distance(head, j, data.Length);
      && |data[j].payload| == PAYLOAD_SIZE
      && (data[j].present <==> d < count)
      && (d < count ==> contents[d] == Action(data[j].kind, data[j].payload))
    }

    ghost predicate RingOk()
      reads this`data, this`head, this`count, this`contents, data
    {
      && head < data.Length && count == |contents| < data.Length
      && forall j | 0 <= j < data.Length :: SlotOk(j)
    }

    /** Doubling pays for itself: every copy is covered by half as many dispatches, and
        all arrays together are less than two of the current size. */
    ghost predicate GrowthOk()
      reads this
    {
      && count <= dispatched
      && INITIAL_CAPACITY <= data.Length
      && copied + INITIAL_CAPACITY <= data.Length
      && (data.Length > INITIAL_CAPACITY ==> data.Length <= 2 * dispatched)
      && slots + INITIAL_CAPACITY == 2 * data.Length
    }

    ghost predicate Valid()
      reads this, data
    {
      RingOk() && GrowthOk()
    }

    constructor ()
      ensures Valid() && contents == [] && !shuttingDown && fresh(data)
      ensures dispatched == 0 && copied == 0 && slots == INITIAL_CAPACITY
    {
      data := new Slot[INITIAL_CAPACITY](_ => ZEROED);
      head, count, shuttingDown := 0, 0, false;
      contents, dispatched, copied, slots := [], 0, 0, INITIAL_CAPACITY;
    }

    /** Moves the entries to the front of a zeroed array of twice the size. */
    method Grow()
      requires RingOk()
      modifies this`data, this`head
      ensures RingOk() && contents == old(contents)
      ensures fresh(data) && data.Length == 2 * old(data.Length) && Stale() == ZEROED.payload
    {
      var fresher := new Slot[2 * data.Length](_ => ZEROED);
      for i := 0 to count
        invariant forall j | 0 <= j < i ::
          && fresher[j].present && |fresher[j].payload| == PAYLOAD_SIZE
          && contents[j] == Action(fresher[j].kind, fresher[j].payload)
        invariant forall j | i <= j < fresher.Length :: fresher[j] == ZEROED
        modifies fresher
      {
        var from := IndexOf(head, i, data.Length);
        assert SlotOk(from);
        fresher[i] := data[from];
      }
      data, head := fresher, 0;
    }

    /** The critical section of dispatch_command. It grows the ring when one free slot is
        left; when the memory for that is refused it drops the action. */
    method Enqueue(kind: int, payload: seq<bv8>, ok: bool) returns (stored: bool)
      requires Valid() && |payload| <= PAYLOAD_SIZE
      modifies this, data
      ensures Valid() && shuttingDown == old(shuttingDown)
      ensures stored == (old(count) + 1 < old(data.Length) || ok)
      ensures !stored ==> && contents == old(contents) && data == old(data) && data[..] == old(data[..])
                          && head == old(head) && dispatched == old(dispatched)
      ensures stored ==>
                var stale := if old(count) + 1 < old(data.Length) then old(Stale()) else ZEROED.payload;
                contents == old(contents) + [Action(kind, Overlay(payload, stale))] && dispatched == old(dispatched) + 1
      ensures stored ==>
                data.Length == if old(count) + 1 < old(data.Length) then old(data.Length) else 2 * old(data.Length)
      ensures if stored && old(count) + 1 >= old(data.Length)
              then copied == old(copied) + old(count) && slots == old(slots) + data.Length
              else copied == old(copied) && slots == old(slots)
      ensures data == old(data) || fresh(data)
    {
      if count + 1 >= data.Length {
        if !ok { return false; }
        copied, slots := copied + count, slots + 2 * data.Length;
        Grow();
      }
      Store(kind, payload);
      dispatched := dispatched + 1;
      return true;
    }

    /** The bytes left in the slot behind the last entry. */
    ghost function Stale(): (bytes: seq<bv8>)
      requires RingOk()
      reads this`data, this`head, this`count, this`contents, data
      ensures |bytes| == PAYLOAD_SIZE
    {
      var tail := IndexOf(head, count, data.Length);
      assert SlotOk(tail);
      data[tail].payload
    }

    /** Writes an action into the slot behind the last entry. */
    method Store(kind: int, payload: seq<bv8>)
      requires RingOk() && count + 1 < data.Length && |payload| <= PAYLOAD_SIZE
      modifies this`count, this`contents, data
      ensures RingOk() && contents == old(contents) + [Action(kind, Overlay(payload, old(Stale())))]
    {
      var tail := IndexOf(head, count, data.Length);
      assert SlotOk(tail);
      var bytes := Overlay(payload, data[tail].payload);
      data[tail] := Slot(false, true, kind, bytes);
      count := count + 1;
      contents := contents + [Action(kind, bytes)];
      forall j | 0 <= j < data.Length ensures SlotOk(j) { assert j != tail ==> old(SlotOk(j)); }
    }

    /** Takes the oldest action; its slot stays locked until Finish. */
    method Dequeue() returns (index: nat, action: Action)
      requires Valid() && count > 0
      modifies this, data
      ensures Valid() && shuttingDown == old(shuttingDown) && data == old(data)
      ensures [action] + contents == old(contents)
      ensures dispatched == old(dispatched) && copied == old(copied) && slots == old(slots)
      ensures index < data.Length && data[index].lock && !data[index].present
      ensures action == Action(data[index].kind, data[index].payload)
    {
      index := head;
      assert SlotOk(index);
      action := Action(data[index].kind, data[index].payload);
      data[index] := data[index].(lock := true, present := false);
      var next := (head + 1) % data.Length;
      Wrap(head + 1, data.Length);
      head, count := next, count - 1;
      contents := contents[1..];
      forall j | 0 <= j < data.Length ensures SlotOk(j) { assert old(SlotOk(j)); }
    }

    /** Unlocks the slot of an executed action. */
    method Finish(index: nat)
      requires Valid() && index < data.Length
      modifies data
      ensures Valid() && !data[index].lock
      ensures forall j | 0 <= j < data.Length && j != index :: data[j] == old(data[j])
    {
      data[index] := data[index].(lock := false);
      forall j | 0 <= j < data.Length ensures SlotOk(j) { assert old(SlotOk(j)); }
    }
  }

  /** Copying by doubling costs less than two copies per dispatch. */
  lemma GrowthIsAmortised(q: Queue)
    requires q.Valid()
    ensures q.dispatched > 0 ==> q.copied < 2 * q.dispatched
    ensures q.dispatched == 0 ==> q.copied == 0
    ensures q.slots < 2 * q.data.Length
  {
  }
}
