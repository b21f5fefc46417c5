/** Connection slots shared by the event loop and the workers, as a step relation.

    A slot belongs to the free list, to the kernel (armed), to the event loop (its event has
    fired), to the worker queue or to a worker. `owner` records which; the code itself only
    keeps `alive` and `inFlight`. Every step is one critical section or one kernel action.
    One callback runs at a time, because the queue's lock is held around it, and nothing is
    stored in the queue meanwhile. */
module Slots {
  import opened Options

  datatype Owner = Free | Armed | Fired | Queued | Processing

  datatype Slot = Slot(conn: nat, alive: bool, inFlight: bool, owner: Owner)

  /** The client record copied into a queue entry or a snapshot. */
  datatype Copy = Copy(idx: nat, conn: nat, alive: bool, inFlight: bool)

  datatype Loop = Polling | Sweeping(i: nat, seen: Option<Copy>) | Dispatching(marked: bool)

  datatype Worker = NoJob | Serving(client: Copy) | Clearing(client: Copy)

  datatype State = State(
    free: seq<nat>,
    slots: seq<Slot>,
    loop: Loop,
    batch: seq<nat>,
    queue: seq<Copy>,
    worker: Worker,
    nextConn: nat)

  datatype Step =
    | Fire(i: nat)          // the kernel reports an armed slot
    | EndPoll
    | SweepRead             // copies a slot under the lock
    | SweepSkip             // dead, in flight or not idle long enough
    | SweepRemove           // idle too long
    | EndSweep
    | Accept                // pops a slot and arms it
    | AcceptFails           // the kernel refuses to watch the new connection
    | Mark                  // sets inFlight for the next event
    | Enqueue               // copies the client into the queue
    | EndBatch
    | Take                  // a worker picks the oldest entry
    | Close                 // removes the client
    | Rearm                 // watches the connection again
    | Clear                 // clears inFlight

  function Push(free: seq<nat>, i: nat, capacity: nat): seq<nat> {
    if |free| >= capacity then free else free + [i]
  }

  function CopyOf(s: State, i: nat): Copy
    requires i < |s.slots|
  {
    Copy(i, s.slots[i].conn, s.slots[i].alive, s.slots[i].inFlight)
  }

  /** server_remove_client: unwatch, push, close, mark dead. */
  function Remove(s: State, i: nat): State
    requires i < |s.slots|
  {
    s.(free := Push(s.free, i, |s.slots|),
       slots := s.slots[i := s.slots[i].(alive := false, owner := Free)])
  }

  predicate Enabled(s: State, step: Step) {
    match step
    case Fire(i) => s.loop.Polling? && i < |s.slots| && s.slots[i].owner.Armed?
    case EndPoll => s.loop.Polling?
    case SweepRead => s.loop.Sweeping? && s.loop.i < |s.slots| && s.loop.seen.None?
    case SweepSkip => s.loop.Sweeping? && s.loop.i < |s.slots| && s.loop.seen.Some?
    case SweepRemove =>
      && s.loop.Sweeping? && s.loop.i < |s.slots| && s.loop.seen.Some?
      && s.loop.seen.value.alive && !s.loop.seen.value.inFlight
    case EndSweep => s.loop.Sweeping? && s.loop.i == |s.slots|
    case Accept => s.loop == Dispatching(false) && s.free != [] && s.free[|s.free| - 1] < |s.slots|
    case AcceptFails => s.loop == Dispatching(false) && s.free != [] && s.free[|s.free| - 1] < |s.slots|
    case Mark => s.loop == Dispatching(false) && s.batch != [] && s.batch[0] < |s.slots|
    case Enqueue => s.loop == Dispatching(true) && s.batch != [] && s.batch[0] < |s.slots| && s.worker.NoJob?
    case EndBatch => s.loop == Dispatching(false) && s.batch == []
    case Take => s.worker.NoJob? && s.queue != [] && s.queue[0].idx < |s.slots|
    case Close => s.worker.Serving? && s.worker.client.idx < |s.slots|
    case Rearm => s.worker.Serving? && s.worker.client.idx < |s.slots|
    case Clear => s.worker.Clearing? && s.worker.client.idx < |s.slots|
  }

  function Apply(s: State, step: Step): State
    requires Enabled(s, step)
  {
    match step
    case Fire(i) => s.(slots := s.slots[i := s.slots[i].(owner := Fired)], batch := s.batch + [i])
    case EndPoll => s.(loop := Sweeping(0, None))
    case SweepRead => s.(loop := Sweeping(s.loop.i, Some(CopyOf(s, s.loop.i))))
    case SweepSkip => s.(loop := Sweeping(s.loop.i + 1, None))
    case SweepRemove => Remove(s, s.loop.i).(loop := Sweeping(s.loop.i + 1, None))
    case EndSweep => s.(loop := Dispatching(false))
    case Accept =>
      var i := s.free[|s.free| - 1];
      s.(free := s.free[..|s.free| - 1],
         slots := s.slots[i := Slot(s.nextConn, true, false, Armed)],
         nextConn := s.nextConn + 1)
    case AcceptFails =>
      var i := s.free[|s.free| - 1];
      s.(slots := s.slots[i := Slot(s.nextConn, false, false, Free)], nextConn := s.nextConn + 1)
    case Mark => s.(loop := Dispatching(true), slots := s.slots[s.batch[0] := s.slots[s.batch[0]].(inFlight := true)])
    case Enqueue =>
      var i := s.batch[0];
      s.(loop := Dispatching(false), batch := s.batch[1..], queue := s.queue + [CopyOf(s, i)],
         slots := s.slots[i := s.slots[i].(owner := Queued)])
    case EndBatch => s.(loop := Polling)
    case Take =>
      var c := s.queue[0];
      s.(queue := s.queue[1..], worker := Serving(c), slots := s.slots[c.idx := s.slots[c.idx].(owner := Processing)])
    case Close => Remove(s, s.worker.client.idx).(worker := Clearing(s.worker.client))
    case Rearm =>
      var i := s.worker.client.idx;
      s.(slots := s.slots[i := s.slots[i].(owner := Armed)], worker := Clearing(s.worker.client))
    case Clear =>
      var i := s.worker.client.idx;
      s.(slots := s.slots[i := s.slots[i].(inFlight := false)], worker := NoJob)
  }

  // ---------- the invariant ----------

  ghost predicate FreeInv(s: State) {
    && (forall a, b | 0 <= a < b < |s.free| :: s.free[a] != s.free[b])
    && (forall a | 0 <= a < |s.free| :: s.free[a] < |s.slots|)
  }

  /** Free slots are those in the free list and those not alive. */
  ghost predicate SlotInv(s: State) {
    forall i | 0 <= i < |s.slots| ::
      && (s.slots[i].owner.Free? <==> i in s.free)
      && (s.slots[i].owner.Free? <==> !s.slots[i].alive)
  }

  predicate QueueNames(queue: seq<Copy>, i: nat) {
    exists k | 0 <= k < |queue| :: queue[k].idx == i
  }

  ghost predicate BatchInv(s: State) {
    && (forall a, b | 0 <= a < b < |s.batch| :: s.batch[a] != s.batch[b])
    && (forall a | 0 <= a < |s.batch| :: s.batch[a] < |s.slots| && s.slots[s.batch[a]].owner.Fired?)
    && (forall i | 0 <= i < |s.slots| && s.slots[i].owner.Fired? :: i in s.batch)
    && (s.loop == Dispatching(true) ==> s.batch != [])
  }

  /** c still describes the connection in its slot. */
  predicate Current(s: State, c: Copy) {
    c.idx < |s.slots| && s.slots[c.idx].conn == c.conn
  }

  ghost predicate QueueInv(s: State) {
    && (forall a, b | 0 <= a < b < |s.queue| :: s.queue[a].idx != s.queue[b].idx)
    && (forall a | 0 <= a < |s.queue| :: Current(s, s.queue[a]) && s.slots[s.queue[a].idx].owner.Queued?)
    && (forall i | 0 <= i < |s.slots| && s.slots[i].owner.Queued? :: QueueNames(s.queue, i))
  }

  ghost predicate WorkerInv(s: State) {
    && (s.worker.Serving? ==> Current(s, s.worker.client) && s.slots[s.worker.client.idx].owner.Processing?)
    && (s.worker.Clearing? ==> s.worker.client.idx < |s.slots|)
    && (forall i | 0 <= i < |s.slots| && s.slots[i].owner.Processing? :: s.worker.Serving? && s.worker.client.idx == i)
  }

  predicate SweepInv(s: State) {
    s.loop.Sweeping? ==>
      && s.loop.i <= |s.slots|
      && (s.loop.seen.Some? ==> && s.loop.i < |s.slots| && s.loop.seen.value.idx == s.loop.i
                                && Current(s, s.loop.seen.value))
  }

  ghost predicate Inv(s: State) {
    FreeInv(s) && SlotInv(s) && BatchInv(s) && QueueInv(s) && WorkerInv(s) && SweepInv(s)
  }

  /** Slot i is in use and nobody but the kernel will act on it: no event of it waits to be
      dispatched, no queue entry names it and no worker serves it. */
  predicate Unowned(s: State, i: nat)
    requires i < |s.slots|
  {
    && s.slots[i].alive
    && i !in s.batch
    && !QueueNames(s.queue, i)
    && !(s.worker.Serving? && s.worker.client.idx == i)
  }

  /** That is, it is armed. */
  lemma UnownedIffArmed(s: State, i: nat)
    requires Inv(s) && i < |s.slots|
    ensures Unowned(s, i) <==> s.slots[i].owner.Armed?
  {
    if QueueNames(s.queue, i) {
      var k :| 0 <= k < |s.queue| && s.queue[k].idx == i;
      assert s.slots[s.queue[k].idx].owner.Queued?;
    }
  }

  /** The assumption under which the sweep is safe. */
  predicate Safe(s: State, step: Step)
    requires Enabled(s, step)
  {
    step.SweepRemove? ==> Unowned(s, s.loop.i)
  }

  function Init(capacity: nat): State {
    State(seq(capacity, i requires 0 <= i < capacity => capacity - 1 - i),
          seq(capacity, _ => Slot(0, false, false, Free)), Polling, [], [], NoJob, 0)
  }

  lemma InitInv(capacity: nat)
    ensures Inv(Init(capacity))
  {
    var s := Init(capacity);
    forall i | 0 <= i < capacity
      ensures i in s.free
    {
      assert s.free[capacity - 1 - i] == i;
    }
  }

  // ---------- the free list never overflows ----------

  lemma {:induction false} DistinctBelow(xs: seq<nat>, n: nat)
    requires forall a, b | 0 <= a < b < |xs| :: xs[a] != xs[b]
    requires forall a | 0 <= a < |xs| :: xs[a] < n
    ensures |xs| <= n
    decreases n
  {
    assert xs != [] ==> xs[0] < n;
    if n == 0 {
    } else if n - 1 in xs {
      var k :| 0 <= k < |xs| && xs[k] == n - 1;
      var rest := xs[..k] + xs[k + 1..];
      forall a | 0 <= a < |rest|
        ensures rest[a] < n - 1
      {
        var b := if a < k then a else a + 1;
        assert rest[a] == xs[b] && xs[b] != xs[k];
      }
      DistinctBelow(rest, n - 1);
    } else {
      DistinctBelow(xs, n - 1);
    }
  }

  /** There is room to push any slot that is not free. */
  lemma RoomToPush(s: State, i: nat)
    requires FreeInv(s) && i < |s.slots| && i !in s.free
    ensures |s.free| < |s.slots|
  {
    DistinctBelow(s.free + [i], |s.slots|);
  }

  // ---------- every safe step keeps the invariant ----------

  /** Removing a slot nobody but the kernel or the acting worker holds. */
  lemma RemoveKeeps(s: State, i: nat, t: State)
    requires FreeInv(s) && SlotInv(s) && BatchInv(s) && QueueInv(s) && i < |s.slots|
    requires s.slots[i].owner.Armed? || s.slots[i].owner.Processing?
    requires t == Remove(s, i)
    ensures FreeInv(t) && SlotInv(t) && BatchInv(t) && QueueInv(t) && t.free == s.free + [i]
  {
    RoomToPush(s, i);
  }

  lemma StepInv(s: State, step: Step)
    requires Inv(s) && Enabled(s, step) && Safe(s, step)
    ensures Inv(Apply(s, step))
  {
    match step
    case Fire(i) => FireInv(s, i);
    case SweepRemove => SweepRemoveInv(s);
    case Accept => AcceptInv(s);
    case AcceptFails => AcceptFailsInv(s);
    case Mark => MarkInv(s);
    case Enqueue => EnqueueInv(s);
    case Take => TakeInv(s);
    case Close => CloseInv(s);
    case Rearm => RearmInv(s);
    case Clear => ClearInv(s);
    case _ => LoopInv(s, step);
  }

  /** Steps that only move the event loop. */
  lemma LoopInv(s: State, step: Step)
    requires Inv(s) && Enabled(s, step)
    requires step.EndPoll? || step.SweepRead? || step.SweepSkip? || step.EndSweep? || step.EndBatch?
    ensures Inv(Apply(s, step))
  {
  }

  lemma SweepRemoveInv(s: State)
    requires Inv(s) && Enabled(s, SweepRemove) && Safe(s, SweepRemove)
    ensures Inv(Apply(s, SweepRemove))
  {
    UnownedIffArmed(s, s.loop.i);
    RemoveKeeps(s, s.loop.i, Remove(s, s.loop.i));
  }

  lemma CloseInv(s: State)
    requires Inv(s) && Enabled(s, Close)
    ensures Inv(Apply(s, Close))
  {
    RemoveKeeps(s, s.worker.client.idx, Remove(s, s.worker.client.idx));
  }

  lemma FireBatch(s: State, i: nat)
    requires SlotInv(s) && BatchInv(s) && Enabled(s, Fire(i))
    ensures SlotInv(Apply(s, Fire(i))) && BatchInv(Apply(s, Fire(i)))
  {
  }

  lemma FireInv(s: State, i: nat)
    requires Inv(s) && Enabled(s, Fire(i))
    ensures Inv(Apply(s, Fire(i)))
  {
    FireBatch(s, i);
  }

  lemma AcceptInv(s: State)
    requires Inv(s) && Enabled(s, Accept)
    ensures Inv(Apply(s, Accept))
  {
    assert s.free[|s.free| - 1] in s.free;
    AcceptSlots(s);
  }

  lemma AcceptSlots(s: State)
    requires FreeInv(s) && SlotInv(s) && Enabled(s, Accept)
    ensures FreeInv(Apply(s, Accept)) && SlotInv(Apply(s, Accept))
  {
    var t, i := Apply(s, Accept), s.free[|s.free| - 1];
    assert i in s.free;
    forall j | 0 <= j < |t.slots|
      ensures t.slots[j].owner.Free? <==> j in t.free
    {
      if j in s.free && j != i {
        var k :| 0 <= k < |s.free| && s.free[k] == j;
        assert t.free[k] == j;
      }
    }
  }

  lemma AcceptFailsInv(s: State)
    requires Inv(s) && Enabled(s, AcceptFails)
    ensures Inv(Apply(s, AcceptFails))
  {
    assert s.free[|s.free| - 1] in s.free;
  }

  lemma MarkInv(s: State)
    requires Inv(s) && Enabled(s, Mark)
    ensures Inv(Apply(s, Mark))
  {
  }

  lemma EnqueueQueue(s: State)
    requires Inv(s) && Enabled(s, Enqueue)
    ensures QueueInv(Apply(s, Enqueue))
  {
    var t, i := Apply(s, Enqueue), s.batch[0];
    assert t.queue[|s.queue|].idx == i;
    forall j | 0 <= j < |t.slots| && t.slots[j].owner.Queued?
      ensures QueueNames(t.queue, j)
    {
      if j != i {
        assert QueueNames(s.queue, j);
        var k :| 0 <= k < |s.queue| && s.queue[k].idx == j;
        assert t.queue[k].idx == j;
      }
    }
  }

  lemma EnqueueInv(s: State)
    requires Inv(s) && Enabled(s, Enqueue)
    ensures Inv(Apply(s, Enqueue))
  {
    EnqueueQueue(s);
    var t := Apply(s, Enqueue);
    forall j | 0 <= j < |t.slots| && t.slots[j].owner.Fired?
      ensures j in t.batch
    {
      var k :| 0 <= k < |s.batch| && s.batch[k] == j;
      assert t.batch[k - 1] == j;
    }
  }

  lemma TakeInv(s: State)
    requires Inv(s) && Enabled(s, Take)
    ensures Inv(Apply(s, Take))
  {
    TakeQueue(s);
  }

  lemma TakeQueue(s: State)
    requires QueueInv(s) && Enabled(s, Take)
    ensures QueueInv(Apply(s, Take))
  {
    var t := Apply(s, Take);
    forall j | 0 <= j < |t.slots| && t.slots[j].owner.Queued?
      ensures QueueNames(t.queue, j)
    {
      assert QueueNames(s.queue, j);
      var k :| 0 <= k < |s.queue| && s.queue[k].idx == j;
      assert t.queue[k - 1].idx == j;
    }
  }

  lemma RearmInv(s: State)
    requires Inv(s) && Enabled(s, Rearm)
    ensures Inv(Apply(s, Rearm))
  {
  }

  lemma ClearInv(s: State)
    requires Inv(s) && Enabled(s, Clear)
    ensures Inv(Apply(s, Clear))
  {
  }

  // ---------- every run ----------

  /** A run of the code; in a guarded one, the sweep removes only unowned slots. */
  ghost predicate Legal(s: State, steps: seq<Step>, guarded: bool)
    decreases |steps|
  {
    steps == [] || (&& Enabled(s, steps[0]) && (guarded ==> Safe(s, steps[0]))
                    && Legal(Apply(s, steps[0]), steps[1..], guarded))
  }

  function Exec(s: State, steps: seq<Step>): State
    requires Legal(s, steps, false)
    decreases |steps|
  {
    if steps == [] then s else Exec(Apply(s, steps[0]), steps[1..])
  }

  lemma {:induction false} RunInv(s: State, steps: seq<Step>)
    requires Inv(s) && Legal(s, steps, true)
    ensures Legal(s, steps, false) && Inv(Exec(s, steps)) && |Exec(s, steps).slots| == |s.slots|
    decreases |steps|
  {
    if steps != [] {
      StepInv(s, steps[0]);
      RunInv(Apply(s, steps[0]), steps[1..]);
    }
  }

  /** For every interleaving in which the sweep removes only unowned slots: free-list entries
      are distinct, free and alive slots partition the table, each slot is queued at most
      once and not while it is being served, queued and served copies still name the slot's
      connection, and a removal always finds room in the free list. */
  lemma EveryRun(capacity: nat, steps: seq<Step>)
    requires Legal(Init(capacity), steps, true)
    ensures Legal(Init(capacity), steps, false)
    ensures var s := Exec(Init(capacity), steps);
            && |s.slots| == capacity
            && (forall a, b | 0 <= a < b < |s.free| :: s.free[a] != s.free[b])
            && (forall i | 0 <= i < capacity :: s.slots[i].alive <==> i !in s.free)
            && (forall a, b | 0 <= a < b < |s.queue| :: s.queue[a].idx != s.queue[b].idx)
            && (forall a | 0 <= a < |s.queue| :: Current(s, s.queue[a]) && s.queue[a].idx !in s.free)
            && (s.worker.Serving? ==>
                  && Current(s, s.worker.client) && s.worker.client.idx !in s.free && |s.free| < capacity
                  && forall a | 0 <= a < |s.queue| :: s.queue[a].idx != s.worker.client.idx)
            && (Enabled(s, SweepRemove) && Safe(s, SweepRemove) ==>
                  Current(s, s.loop.seen.value) && |s.free| < capacity)
  {
    InitInv(capacity);
    RunInv(Init(capacity), steps);
    var s := Exec(Init(capacity), steps);
    if s.worker.Serving? {
      RoomToPush(s, s.worker.client.idx);
    }
    if Enabled(s, SweepRemove) && Safe(s, SweepRemove) {
      UnownedIffArmed(s, s.loop.i);
      RoomToPush(s, s.loop.i);
    }
  }

  // ---------- when the sweep is safe ----------

  /** No slot is in the free list twice, and a worker's removal finds room there. */
  ghost predicate InOrder(s: State) {
    && (forall a, b | 0 <= a < b < |s.free| :: s.free[a] != s.free[b])
    && (s.worker.Serving? ==> |s.free| < |s.slots|)
  }

  /** Some continuation, in which the sweep does no further harm, ends in disorder. */
  ghost predicate CanBreak(s: State) {
    exists steps: seq<Step> :: Legal(s, steps, true) && Legal(s, steps, false) && !InOrder(Exec(s, steps))
  }

  lemma BrokenNow(s: State)
    requires !InOrder(s)
    ensures CanBreak(s)
  {
    assert Legal(s, [], true) && Legal(s, [], false) && Exec(s, []) == s;
  }

  lemma StepBack(s: State, step: Step)
    requires Enabled(s, step) && !step.SweepRemove? && CanBreak(Apply(s, step))
    ensures CanBreak(s)
  {
    var t := Apply(s, step);
    var rest: seq<Step> :| Legal(t, rest, true) && Legal(t, rest, false) && !InOrder(Exec(t, rest));
    var steps := [step] + rest;
    assert steps[0] == step && steps[1..] == rest;
    assert Legal(s, steps, true) && Legal(s, steps, false) && Exec(s, steps) == Exec(t, rest);
  }

  /** Everything in the queue, the batch and the worker's hands names a slot of the table. */
  ghost predicate InTable(s: State) {
    && (forall a | 0 <= a < |s.queue| :: s.queue[a].idx < |s.slots|)
    && (forall a | 0 <= a < |s.batch| :: s.batch[a] < |s.slots|)
    && (!s.worker.NoJob? ==> s.worker.client.idx < |s.slots|)
  }

  function Phase(w: Worker): nat {
    match w
    case NoJob => 0
    case Clearing(_) => 1
    case Serving(_) => 2
  }

  /** A worker that serves a slot which is in the free list already will push it again. */
  lemma ServedBreaks(s: State, i: nat)
    requires i in s.free && i < |s.slots| && s.worker.Serving? && s.worker.client.idx == i
    ensures CanBreak(s)
  {
    if |s.free| >= |s.slots| {
      BrokenNow(s);
    } else {
      var t := Apply(s, Close);
      var k :| 0 <= k < |s.free| && s.free[k] == i;
      assert t.free[k] == t.free[|s.free|];
      BrokenNow(t);
      StepBack(s, Close);
    }
  }

  /** So will one that finds it in the queue. */
  lemma {:induction false} QueuedBreaks(s: State, i: nat, k: nat)
    requires InTable(s) && i in s.free && k < |s.queue| && s.queue[k].idx == i
    ensures CanBreak(s)
    decreases k, Phase(s.worker)
  {
    if s.worker.Serving? {
      QueuedBreaks(Apply(s, Rearm), i, k);
      StepBack(s, Rearm);
    } else if s.worker.Clearing? {
      QueuedBreaks(Apply(s, Clear), i, k);
      StepBack(s, Clear);
    } else {
      if k == 0 {
        ServedBreaks(Apply(s, Take), i);
      } else {
        QueuedBreaks(Apply(s, Take), i, k - 1);
      }
      StepBack(s, Take);
    }
  }

  /** And so will one that gets it from a batch still to be dispatched. */
  lemma {:induction false} BatchBreaks(s: State, i: nat, k: nat)
    requires InTable(s) && i in s.free && k < |s.batch| && s.batch[k] == i && s.loop.Dispatching?
    ensures CanBreak(s)
    decreases k, if s.loop.marked then 0 else 1, Phase(s.worker)
  {
    if !s.loop.marked {
      BatchBreaks(Apply(s, Mark), i, k);
      StepBack(s, Mark);
    } else if s.worker.Serving? {
      BatchBreaks(Apply(s, Rearm), i, k);
      StepBack(s, Rearm);
    } else if s.worker.Clearing? {
      BatchBreaks(Apply(s, Clear), i, k);
      StepBack(s, Clear);
    } else {
      var t := Apply(s, Enqueue);
      if k == 0 {
        QueuedBreaks(t, i, |s.queue|);
      } else {
        BatchBreaks(t, i, k - 1);
      }
      StepBack(s, Enqueue);
    }
  }

  /** The rest of the sweep changes nothing about that. */
  lemma {:induction false} SweptBreaks(s: State, i: nat, k: nat)
    requires InTable(s) && i in s.free && k < |s.batch| && s.batch[k] == i
    requires s.loop.Sweeping? && s.loop.i <= |s.slots|
    ensures CanBreak(s)
    decreases |s.slots| - s.loop.i, if s.loop.seen.None? then 1 else 0
  {
    var step := if s.loop.i == |s.slots| then EndSweep else if s.loop.seen.None? then SweepRead else SweepSkip;
    if step.EndSweep? {
      BatchBreaks(Apply(s, step), i, k);
    } else {
      SweptBreaks(Apply(s, step), i, k);
    }
    StepBack(s, step);
  }

  /** A sweep that removes an owned slot is refused a place in the free list at once, or
      some continuation puts the slot there twice or is refused one. */
  lemma OwnedBreaks(s: State)
    requires Inv(s) && Enabled(s, SweepRemove) && !Unowned(s, s.loop.i)
    ensures var t := Apply(s, SweepRemove); |t.free| == |s.free| || CanBreak(t)
  {
    var t, i := Apply(s, SweepRemove), s.loop.i;
    if |t.free| > |s.free| {
      assert t.free[|s.free|] == i;
      if !s.slots[i].alive {
        var k :| 0 <= k < |s.free| && s.free[k] == i;
        assert t.free[k] == t.free[|s.free|];
        BrokenNow(t);
      } else if i in s.batch {
        var k :| 0 <= k < |s.batch| && s.batch[k] == i;
        SweptBreaks(t, i, k);
      } else if QueueNames(s.queue, i) {
        var k :| 0 <= k < |s.queue| && s.queue[k].idx == i;
        QueuedBreaks(t, i, k);
      } else {
        ServedBreaks(t, i);
      }
    }
  }

  lemma InvInOrder(s: State)
    requires Inv(s)
    ensures InOrder(s)
  {
    if s.worker.Serving? {
      RoomToPush(s, s.worker.client.idx);
    }
  }

  /** In every reachable state, a removal by the sweep finds room in the free list and no
      continuation ever ends in disorder, exactly if the slot is unowned: alive, with no
      event to be dispatched, not queued and not served. The code tests `inFlight` of a
      snapshot instead. */
  lemma SweepSafeIff(s: State)
    requires Inv(s) && Enabled(s, SweepRemove)
    ensures var t := Apply(s, SweepRemove);
            Unowned(s, s.loop.i) <==> |t.free| == |s.free| + 1 && !CanBreak(t)
  {
    var t := Apply(s, SweepRemove);
    if Unowned(s, s.loop.i) {
      UnownedIffArmed(s, s.loop.i);
      SweepRemoveInv(s);
      RoomToPush(s, s.loop.i);
      forall steps: seq<Step> | Legal(t, steps, true)
        ensures Legal(t, steps, false) && InOrder(Exec(t, steps))
      {
        RunInv(t, steps);
        InvInOrder(Exec(t, steps));
      }
    } else {
      OwnedBreaks(s);
    }
  }

  lemma OneStep(s: State, step: Step, rest: seq<Step>)
    requires Enabled(s, step) && Legal(Apply(s, step), rest, false)
    ensures Legal(s, [step] + rest, false) && Exec(s, [step] + rest) == Exec(Apply(s, step), rest)
  {
    assert ([step] + rest)[1..] == rest;
  }

  lemma {:induction false} Append(s: State, a: seq<Step>, b: seq<Step>)
    requires Legal(s, a, false) && Legal(Exec(s, a), b, false)
    ensures Legal(s, a + b, false) && Exec(s, a + b) == Exec(Exec(s, a), b)
    decreases |a|
  {
    if a == [] {
      assert a + b == b;
    } else {
      FirstStep(s, a);
      Append(Apply(s, a[0]), a[1..], b);
      assert a + b == [a[0]] + (a[1..] + b);
      OneStep(s, a[0], a[1..] + b);
    }
  }

  lemma FirstStep(s: State, steps: seq<Step>)
    requires steps != [] && Legal(s, steps, false)
    ensures Enabled(s, steps[0]) && Legal(Apply(s, steps[0]), steps[1..], false)
    ensures Exec(s, steps) == Exec(Apply(s, steps[0]), steps[1..])
  {
  }

  const FIRST := Slot(0, true, false, Armed)
  const SECOND := Slot(1, true, false, Armed)

  /** Two connections in a table of two. */
  const BOTH_OPEN := State([], [FIRST, SECOND], Polling, [], [], NoJob, 2)

  /** The first slot was swept although its event is still to be dispatched. */
  const SWEPT := State([0], [FIRST.(alive := false, owner := Free), SECOND], Dispatching(false), [0], [], NoJob, 2)

  const OPENING := [EndPoll, SweepRead, SweepSkip, SweepRead, SweepSkip, EndSweep]
  const ACCEPTING := [Accept, Accept, EndBatch]
  const SWEEPING := [Fire(0), EndPoll, SweepRead, SweepRemove, SweepRead, SweepSkip, EndSweep]
  const SERVING := [Mark, Enqueue, Take, Close]

  lemma OpeningRun()
    ensures Legal(Init(2), OPENING, false) && Exec(Init(2), OPENING) == Init(2).(loop := Dispatching(false))
  {
    var s := Init(2);
    assert s.slots == [Slot(0, false, false, Free), Slot(0, false, false, Free)];
    var s1 := s.(loop := Sweeping(0, None));
    var s2 := s.(loop := Sweeping(0, Some(Copy(0, 0, false, false))));
    var s3 := s.(loop := Sweeping(1, None));
    var s4 := s.(loop := Sweeping(1, Some(Copy(1, 0, false, false))));
    var s5 := s.(loop := Sweeping(2, None));
    OneStep(s5, EndSweep, []);
    OneStep(s4, SweepSkip, [EndSweep]);
    OneStep(s3, SweepRead, [SweepSkip, EndSweep]);
    OneStep(s2, SweepSkip, [SweepRead, SweepSkip, EndSweep]);
    OneStep(s1, SweepRead, [SweepSkip, SweepRead, SweepSkip, EndSweep]);
    OneStep(s, EndPoll, [SweepRead, SweepSkip, SweepRead, SweepSkip, EndSweep]);
  }

  lemma AcceptingRun()
    ensures var s := Init(2).(loop := Dispatching(false));
            Legal(s, ACCEPTING, false) && Exec(s, ACCEPTING) == BOTH_OPEN
  {
    var s := Init(2).(loop := Dispatching(false));
    assert s.free == [1, 0] && s.slots == [Slot(0, false, false, Free), Slot(0, false, false, Free)];
    var s1 := State([1], [FIRST, Slot(0, false, false, Free)], Dispatching(false), [], [], NoJob, 1);
    assert Apply(s, Accept) == s1;
    var s2 := BOTH_OPEN.(loop := Dispatching(false));
    assert Apply(s1, Accept) == s2;
    OneStep(s2, EndBatch, []);
    OneStep(s1, Accept, [EndBatch]);
    OneStep(s, Accept, [Accept, EndBatch]);
  }

  lemma SweepingRun()
    ensures Legal(BOTH_OPEN, SWEEPING, false) && Exec(BOTH_OPEN, SWEEPING) == SWEPT
  {
    var s1 := State([], [FIRST.(owner := Fired), SECOND], Polling, [0], [], NoJob, 2);
    assert Apply(BOTH_OPEN, Fire(0)) == s1;
    var s2 := s1.(loop := Sweeping(0, None));
    var s3 := s1.(loop := Sweeping(0, Some(Copy(0, 0, true, false))));
    var s4 := SWEPT.(loop := Sweeping(1, None));
    assert Apply(s3, SweepRemove) == s4;
    var s5 := SWEPT.(loop := Sweeping(1, Some(Copy(1, 1, true, false))));
    var s6 := SWEPT.(loop := Sweeping(2, None));
    OneStep(s6, EndSweep, []);
    OneStep(s5, SweepSkip, [EndSweep]);
    OneStep(s4, SweepRead, [SweepSkip, EndSweep]);
    OneStep(s3, SweepRemove, [SweepRead, SweepSkip, EndSweep]);
    OneStep(s2, SweepRead, [SweepRemove, SweepRead, SweepSkip, EndSweep]);
    OneStep(s1, EndPoll, [SweepRead, SweepRemove, SweepRead, SweepSkip, EndSweep]);
    OneStep(BOTH_OPEN, Fire(0), [EndPoll, SweepRead, SweepRemove, SweepRead, SweepSkip, EndSweep]);
  }

  lemma ServingRun()
    ensures Legal(SWEPT, SERVING, false) && Exec(SWEPT, SERVING).free == [0, 0]
  {
    var slot, c := FIRST.(alive := false, owner := Free, inFlight := true), Copy(0, 0, false, true);
    var s1 := State([0], [slot, SECOND], Dispatching(true), [0], [], NoJob, 2);
    assert Apply(SWEPT, Mark) == s1;
    var s2 := State([0], [slot.(owner := Queued), SECOND], Dispatching(false), [], [c], NoJob, 2);
    assert Apply(s1, Enqueue) == s2;
    var s3 := State([0], [slot.(owner := Processing), SECOND], Dispatching(false), [], [], Serving(c), 2);
    assert Apply(s2, Take) == s3;
    OneStep(s3, Close, []);
    OneStep(s2, Take, [Close]);
    OneStep(s1, Enqueue, [Take, Close]);
    OneStep(SWEPT, Mark, [Enqueue, Take, Close]);
  }

  /** The test of `inFlight` alone does not suffice: there is a run of the code, two accepted
      connections and one event, in which the sweep removes a slot whose event is waiting to
      be dispatched, and which ends with that slot in the free list twice. */
  lemma SweepCanBreak()
    ensures var steps := OPENING + ACCEPTING + SWEEPING + SERVING;
            Legal(Init(2), steps, false) && Exec(Init(2), steps).free == [0, 0]
  {
    OpeningRun();
    AcceptingRun();
    Append(Init(2), OPENING, ACCEPTING);
    SweepingRun();
    Append(Init(2), OPENING + ACCEPTING, SWEEPING);
    ServingRun();
    Append(Init(2), OPENING + ACCEPTING + SWEEPING, SERVING);
  }
}
